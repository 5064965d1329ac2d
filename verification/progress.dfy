/** The pure helpers of the download processor that turn one Radarr or
    Sonarr queue record into the values stored on a download request:
    the status mapping, the percentage, and the time-left parsing. */
module Progress {
  import opened Wrappers
  import opened Numeric
  import opened Text

  /** Every status the mapping can produce. */
  const KnownStatuses: set<string> :=
    {"downloading", "queued", "paused", "completed", "failed", "importing", "warning"}

  /** The lower-cased queue statuses the mapping recognises. */
  const RecognisedQueueStatuses: set<string> :=
    {"downloading", "queued", "paused", "completed", "failed", "importpending", "warning"}

  /** `GetDownloadStatus`: the queue status, lower-cased, mapped onto the
      stored status; `importpending` becomes `importing`, anything else
      (including `null` and `importing` itself) becomes `queued`. */
  function GetDownloadStatus(status: Option<string>): (r: string)
    ensures r in KnownStatuses
  {
    if status.None? then "queued" else MapQueueStatus(ToLower(status.value))
  }

  function MapQueueStatus(lower: string): string {
    match lower
    case "downloading" => "downloading"
    case "queued" => "queued"
    case "paused" => "paused"
    case "completed" => "completed"
    case "failed" => "failed"
    case "importpending" => "importing"
    case "warning" => "warning"
    case _ => "queued"
  }

  /** What each stored status says about the queue status it came from. */
  lemma StatusCharacterised(status: Option<string>)
    ensures GetDownloadStatus(status) == "importing" <==>
      status.Some? && ToLower(status.value) == "importpending"
    ensures GetDownloadStatus(status) == "queued" <==>
      status.None? || ToLower(status.value) == "queued" || ToLower(status.value) !in RecognisedQueueStatuses
    ensures GetDownloadStatus(status) !in {"queued", "importing"} ==>
      status.Some? && ToLower(status.value) == GetDownloadStatus(status)
  {
  }

  /** The mapping ignores letter case. */
  lemma StatusIgnoresCase(a: string, b: string)
    requires EqualsIgnoreCase(a, b)
    ensures GetDownloadStatus(Some(a)) == GetDownloadStatus(Some(b))
  {
  }

  /** The mapping is not idempotent: a stored `importing` read back as a
      queue status would become `queued`. */
  lemma StatusNotIdempotent(s: string)
    requires ToLower(s) == "importpending"
    ensures GetDownloadStatus(Some(s)) == "importing"
    ensures GetDownloadStatus(Some(GetDownloadStatus(Some(s)))) == "queued"
  {
    ImportingReadsAsQueued();
  }

  lemma ImportingReadsAsQueued()
    ensures GetDownloadStatus(Some("importing")) == "queued"
  {
    var s := "importing";
    ToLowerOfLower(s);
    assert MapQueueStatus(s) == "queued";
  }

  /** `GetDownloadPercentage`: how much of `size` is downloaded, in whole
      percent truncated toward zero; 0 without a positive size. A missing
      `sizeLeft` counts as nothing left. */
  function GetDownloadPercentage(size: Option<int>, sizeLeft: Option<int>): (p: int)
    ensures size.None? || size.value <= 0 ==> p == 0
    ensures size.Some? && size.value > 0 && 0 <= sizeLeft.GetOr(0) <= size.value ==>
      0 <= p <= 100 &&
      p * size.value <= (size.value - sizeLeft.GetOr(0)) * 100 < p * size.value + size.value
    ensures size.Some? && size.value > 0 && sizeLeft.GetOr(0) == 0 ==> p == 100
  {
    if size.Some? && size.value > 0 then
      var downloaded := size.value - sizeLeft.GetOr(0);
      PercentBounds(downloaded, size.value);
      Div(downloaded * 100, size.value)
    else 0
  }

  lemma PercentBounds(downloaded: int, size: int)
    requires size > 0
    ensures 0 <= downloaded <= size ==> 0 <= Div(downloaded * 100, size) <= 100
    ensures downloaded == size ==> Div(downloaded * 100, size) == 100
  {
    if 0 <= downloaded <= size {
      MulMonotone(downloaded, size, 100);
      DivMonotone(downloaded * 100, size * 100, size);
      DivMulCancel(100, size);
      MulMonotone(0, downloaded, 100);
    }
  }

  /** Less left to download never lowers the percentage. */
  lemma PercentageMonotone(size: int, left: int, left': int)
    requires size > 0 && left' <= left
    ensures GetDownloadPercentage(Some(size), Some(left)) <= GetDownloadPercentage(Some(size), Some(left'))
  {
    MulMonotone(size - left, size - left', 100);
    DivMonotone((size - left) * 100, (size - left') * 100, size);
  }

  // ---------------------------------------------------------------------
  // Time left
  // ---------------------------------------------------------------------

  /** The minute count for hours, minutes and seconds: a part minute of more
      than 30 seconds rounds up. The source computes it in unchecked 32-bit
      arithmetic, so the sum wraps around. */
  function Minutes(hours: int, minutes: int, seconds: int): int {
    Wrap32(hours * 60 + minutes + (if seconds > 30 then 1 else 0))
  }

  /** `ParseTimeLeftToMinutes`: "H:M:S" or "M:S", each part an `int.TryParse`
      integer; anything else, an empty string or `null` gives `None`. */
  function ParseTimeLeftToMinutes(timeLeft: Option<string>): (r: Option<int>)
    ensures IsNullOrEmpty(timeLeft) ==> r.None?
    ensures r.Some? ==> InInt32(r.value)
  {
    if IsNullOrEmpty(timeLeft) then None
    else ParseTimeParts(Split(timeLeft.value, ':'))
  }

  /** The colon-separated parts: three are hours, minutes and seconds, two
      are minutes and seconds, and every part must parse as an integer. */
  function ParseTimeParts(parts: seq<string>): (r: Option<int>)
    ensures r.Some? ==> InInt32(r.value)
    ensures r.Some? ==> |parts| == 2 || |parts| == 3
    ensures r.Some? ==> forall k :: 0 <= k < |parts| ==> ParseInt32(parts[k]).Some?
  {
    if |parts| == 3 then
      var h, m, sec := ParseInt32(parts[0]), ParseInt32(parts[1]), ParseInt32(parts[2]);
      if h.Some? && m.Some? && sec.Some? then Some(Minutes(h.value, m.value, sec.value)) else None
    else if |parts| == 2 then
      var m, sec := ParseInt32(parts[0]), ParseInt32(parts[1]);
      if m.Some? && sec.Some? then Some(Minutes(0, m.value, sec.value)) else None
    else None
  }

  /** A string with no colon, or with more than two, is never a time. */
  lemma ParseTimeLeftPartCount(s: string)
    requires CountChar(s, ':') != 1 && CountChar(s, ':') != 2
    ensures ParseTimeLeftToMinutes(Some(s)).None?
  {
    SplitCount(s, ':');
  }

  /** A time is parsed part by part: the text between the colons. */
  lemma ParseTimeLeftJoined(parts: seq<string>)
    requires |parts| >= 2
    requires forall k :: 0 <= k < |parts| ==> ':' !in parts[k]
    ensures ParseTimeLeftToMinutes(Some(Join(':', parts))) == ParseTimeParts(parts)
  {
    SplitJoin(parts, ':');
    JoinLength(parts, ':');
  }

  /** One part that is not an integer ("1.5", "ab", an empty part) spoils
      the whole time. */
  lemma ParseTimeLeftBadPart(parts: seq<string>, k: nat)
    requires |parts| >= 2 && k < |parts|
    requires forall j :: 0 <= j < |parts| ==> ':' !in parts[j]
    requires ParseInt32(parts[k]).None?
    ensures ParseTimeLeftToMinutes(Some(Join(':', parts))).None?
  {
    ParseTimeLeftJoined(parts);
  }

  lemma NoColonInNumber(n: int)
    ensures ':' !in IntToString(n)
  {
    IntToStringChars(n);
  }

  /** Printing hours, minutes and seconds as "H:M:S" and parsing the result
      gives the minute count back. */
  lemma ParseTimeLeftFormatted(h: int, m: int, s: int)
    requires InInt32(h) && InInt32(m) && InInt32(s)
    ensures ParseTimeLeftToMinutes(Some(Join(':', [IntToString(h), IntToString(m), IntToString(s)])))
      == Some(Minutes(h, m, s))
  {
    var parts := [IntToString(h), IntToString(m), IntToString(s)];
    NoColonInNumber(h);
    NoColonInNumber(m);
    NoColonInNumber(s);
    ParseTimeLeftJoined(parts);
    ParseIntToString(h);
    ParseIntToString(m);
    ParseIntToString(s);
    assert ParseInt32(parts[0]) == Some(h);
    assert ParseInt32(parts[1]) == Some(m);
    assert ParseInt32(parts[2]) == Some(s);
  }

  /** The same for "M:S". */
  lemma ParseTimeLeftFormattedShort(m: int, s: int)
    requires InInt32(m) && InInt32(s)
    ensures ParseTimeLeftToMinutes(Some(Join(':', [IntToString(m), IntToString(s)]))) == Some(Minutes(0, m, s))
  {
    NoColonInNumber(m);
    NoColonInNumber(s);
    ParseIntToString(m);
    ParseIntToString(s);
    ParseTimeLeftJoined([IntToString(m), IntToString(s)]);
  }

  /** Small clock values do not wrap: the minutes are exactly
      hours * 60 + minutes, plus one for more than 30 seconds. */
  lemma MinutesExact(h: int, m: int, s: int)
    requires 0 <= h < 1000000 && 0 <= m < 1000000
    ensures Minutes(h, m, s) == h * 60 + m + (if s > 30 then 1 else 0)
  {
  }

  /** A clock value below 100 written with two digits, as the download
      clients print time left ("01", "45"). */
  function TwoDigits(n: nat): (s: string)
    requires n < 100
    ensures |s| == 2 && AllDigits(s) && ':' !in s
  {
    [DigitChar(n / 10), DigitChar(n % 10)]
  }

  /** "HH:MM:SS" for hours, minutes and seconds below 100. */
  function Clock(h: nat, m: nat, s: nat): string
    requires h < 100 && m < 100 && s < 100
  {
    Join(':', [TwoDigits(h), TwoDigits(m), TwoDigits(s)])
  }

  lemma ParseTwoDigits(n: nat)
    requires n < 100
    ensures ParseInt32(TwoDigits(n)) == Some(n)
  {
    var s := TwoDigits(n);
    assert TrimStart(s) == s;
    assert TrimEnd(s) == s;
    assert s[..1] == [s[0]];
    assert DigitsValue([s[0]]) == n / 10 by {
      assert [s[0]][..0] == [];
    }
  }

  lemma ClockParts(h: nat, m: nat, s: nat)
    requires h < 100 && m < 100 && s < 100
    ensures ParseTimeParts([TwoDigits(h), TwoDigits(m), TwoDigits(s)]) == Some(h * 60 + m + (if s > 30 then 1 else 0))
  {
    ParseTwoDigits(h);
    ParseTwoDigits(m);
    ParseTwoDigits(s);
    MinutesExact(h, m, s);
  }

  /** A zero-padded "HH:MM:SS" is hours * 60 + minutes, plus one minute for
      more than 30 seconds. */
  lemma ParseClock(h: nat, m: nat, s: nat)
    requires h < 100 && m < 100 && s < 100
    ensures ParseTimeLeftToMinutes(Some(Clock(h, m, s))) == Some(h * 60 + m + (if s > 30 then 1 else 0))
  {
    ParseTimeLeftJoined([TwoDigits(h), TwoDigits(m), TwoDigits(s)]);
    ClockParts(h, m, s);
  }

  // ---------------------------------------------------------------------
  // Weighted minutes left for episodes
  // ---------------------------------------------------------------------

  /** `GetMinutesLeft`: the parsed time left divided by the downloaded
      fraction (downloaded / size), truncated toward zero; 0 when there is
      no positive size, nothing downloaded yet, or no parsable time. */
  function GetMinutesLeft(size: Option<int>, sizeLeft: Option<int>, timeLeft: Option<string>): (r: int)
    ensures (size.None? || size.value <= 0) ==> r == 0
    ensures ParseTimeLeftToMinutes(timeLeft).None? ==> r == 0
    ensures size.Some? && size.value > 0 && size.value - sizeLeft.GetOr(0) <= 0 ==> r == 0
  {
    if size.Some? && size.value > 0 then
      var downloaded := size.value - sizeLeft.GetOr(0);
      if downloaded > 0 && !IsNullOrEmpty(timeLeft) then
        match ParseTimeLeftToMinutes(timeLeft)
        case Some(m) => Div(m * size.value, downloaded)
        case None => 0
      else 0
    else 0
  }

  /** With the whole size downloaded, the weighted estimate is the parsed
      time itself. */
  lemma MinutesLeftWhenComplete(size: int, timeLeft: string)
    requires size > 0 && ParseTimeLeftToMinutes(Some(timeLeft)).Some?
    ensures GetMinutesLeft(Some(size), None, Some(timeLeft)) == ParseTimeLeftToMinutes(Some(timeLeft)).value
  {
    DivMulCancel(ParseTimeLeftToMinutes(Some(timeLeft)).value, size);
  }

  /** With part of the size downloaded, the weighted estimate is at least
      the parsed time (for a non-negative parsed time). */
  lemma MinutesLeftAtLeastParsed(size: int, sizeLeft: int, timeLeft: string)
    requires 0 <= sizeLeft < size
    requires ParseTimeLeftToMinutes(Some(timeLeft)).Some? && ParseTimeLeftToMinutes(Some(timeLeft)).value >= 0
    ensures GetMinutesLeft(Some(size), Some(sizeLeft), Some(timeLeft)) >= ParseTimeLeftToMinutes(Some(timeLeft)).value
  {
    var m := ParseTimeLeftToMinutes(Some(timeLeft)).value;
    var downloaded := size - sizeLeft;
    assert GetMinutesLeft(Some(size), Some(sizeLeft), Some(timeLeft)) == Div(m * size, downloaded);
    ScaledAtLeast(m, size, downloaded);
  }

  lemma ScaledAtLeast(m: int, size: int, downloaded: int)
    requires m >= 0 && 0 < downloaded <= size
    ensures Div(m * size, downloaded) >= m
  {
    if m > 0 {
      MulMonotone(downloaded, size, m);
      DivMonotone(downloaded * m, size * m, downloaded);
      DivMulCancel(m, downloaded);
      assert downloaded * m == m * downloaded;
      assert size * m == m * size;
    }
  }
}
