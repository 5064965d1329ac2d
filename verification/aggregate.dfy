/** The roll-up `UpdateParentSeriesProgress` writes onto a series' parent
    row from the series' episode rows. */
module SeriesAggregate {
  import opened Wrappers
  import opened Numeric
  import opened Requests

  /** The exact sum of `xs`. */
  function Sum(xs: seq<int>): int {
    if xs == [] then 0 else xs[0] + Sum(xs[1..])
  }

  /** LINQ's `Sum` over `int`: a running total from the front, checked, so
      that leaving the 32-bit range on the way throws (`None`). */
  function CheckedSum(acc: int, xs: seq<int>): (r: Option<int>)
    ensures r.Some? ==> r.value == acc + Sum(xs) && InInt32(r.value)
    decreases xs
  {
    if xs == [] then (if InInt32(acc) then Some(acc) else None)
    else
      var t := acc + xs[0];
      if !InInt32(t) then None else CheckedSum(t, xs[1..])
  }

  /** Percentages in 0..100 never overflow the running total when the
      worst case fits. */
  lemma {:induction false} CheckedSumFits(acc: int, xs: seq<int>)
    requires 0 <= acc && acc + 100 * |xs| <= INT32_MAX
    requires forall k :: 0 <= k < |xs| ==> 0 <= xs[k] <= 100
    ensures CheckedSum(acc, xs).Some?
    decreases xs
  {
    if xs != [] {
      CheckedSumFits(acc + xs[0], xs[1..]);
    }
  }

  function Percentages(eps: seq<DownloadRequest>): (ps: seq<int>)
    ensures |ps| == |eps|
    ensures forall k :: 0 <= k < |eps| ==> ps[k] == eps[k].downloadPercentage
  {
    seq(|eps|, k requires 0 <= k < |eps| => eps[k].downloadPercentage)
  }

  predicate AllCompleted(eps: seq<DownloadRequest>) {
    forall k :: 0 <= k < |eps| ==> eps[k].status == "completed"
  }

  predicate AnyWithStatus(eps: seq<DownloadRequest>, status: string) {
    exists k :: 0 <= k < |eps| && eps[k].status == status
  }

  /** The minutes left of the episodes still counted as active: not
      completed and with a value. */
  function ActiveMinutes(eps: seq<DownloadRequest>): (ms: seq<int>)
    ensures |ms| <= |eps|
  {
    if eps == [] then []
    else
      var init := ActiveMinutes(eps[..|eps| - 1]);
      var e := eps[|eps| - 1];
      if e.status != "completed" && e.minutesLeft.Some? then init + [e.minutesLeft.value] else init
  }

  /** The status the parent takes: completed when every episode is,
      otherwise downloading if any episode is, otherwise queued if any is,
      otherwise downloading. */
  function ParentStatus(eps: seq<DownloadRequest>): (status: string)
    ensures status in {"completed", "downloading", "queued"}
    ensures status == "completed" <==> AllCompleted(eps)
    ensures status == "queued" ==> AnyWithStatus(eps, "queued") && !AnyWithStatus(eps, "downloading")
  {
    if AllCompleted(eps) then "completed"
    else if AnyWithStatus(eps, "downloading") then "downloading"
    else if AnyWithStatus(eps, "queued") then "queued"
    else "downloading"
  }

  /** The parent row after the roll-up, or `None` when summing the
      percentages overflows and the update is abandoned. */
  function Aggregate(parent: DownloadRequest, eps: seq<DownloadRequest>, now: int): (r: Option<DownloadRequest>)
    requires |eps| > 0
    ensures r.Some? ==> Keys(r.value) == Keys(parent)
    ensures r.Some? ==> r.value.updatedAt == Some(now)
    ensures r.Some? && parent.completedAt.Some? ==> r.value.completedAt == parent.completedAt
    ensures r.Some? ==> r.value.status in {"completed", "downloading", "queued"}
    ensures r.Some? <==> CheckedSum(0, Percentages(eps)).Some?
  {
    match CheckedSum(0, Percentages(eps))
    case None => None
    case Some(total) =>
      var active := ActiveMinutes(eps);
      var status := ParentStatus(eps);
      Some(parent.(
        downloadPercentage := Div(total, |eps|),
        updatedAt := Some(now),
        minutesLeft := if active != [] then Some(RoundHalfEven(Sum(active), |active|)) else None,
        status := status,
        completedAt := if status == "completed" && parent.completedAt.None? then Some(now) else parent.completedAt))
  }

  // ---------------------------------------------------------------------
  // Properties of the roll-up
  // ---------------------------------------------------------------------

  /** The status rules, each in both directions. */
  lemma AggregateStatus(parent: DownloadRequest, eps: seq<DownloadRequest>, now: int)
    requires |eps| > 0 && Aggregate(parent, eps, now).Some?
    ensures Aggregate(parent, eps, now).value.status == "completed" <==> AllCompleted(eps)
    ensures Aggregate(parent, eps, now).value.status == "queued" <==>
      !AllCompleted(eps) && !AnyWithStatus(eps, "downloading") && AnyWithStatus(eps, "queued")
    ensures Aggregate(parent, eps, now).value.status == "downloading" <==>
      !AllCompleted(eps) && (AnyWithStatus(eps, "downloading") || !AnyWithStatus(eps, "queued"))
  {
  }

  /** Completion time: stamped with now the first time every episode is
      completed, kept thereafter, and untouched while some episode is not. */
  lemma AggregateCompletedAt(parent: DownloadRequest, eps: seq<DownloadRequest>, now: int)
    requires |eps| > 0 && Aggregate(parent, eps, now).Some?
    ensures Aggregate(parent, eps, now).value.completedAt ==
      (if AllCompleted(eps) && parent.completedAt.None? then Some(now) else parent.completedAt)
  {
  }

  lemma {:induction false} SumBounds(xs: seq<int>, lo: int, hi: int)
    requires forall k :: 0 <= k < |xs| ==> lo <= xs[k] <= hi
    ensures lo * |xs| <= Sum(xs) <= hi * |xs|
  {
    if xs != [] {
      SumBounds(xs[1..], lo, hi);
    }
  }

  /** The overflow check passes exactly when every running total fits;
      with percentages in 0..100 it passes for any series of fewer than
      21 million episodes. */
  lemma PercentSumFits(eps: seq<DownloadRequest>)
    requires forall k :: 0 <= k < |eps| ==> 0 <= eps[k].downloadPercentage <= 100
    requires 100 * |eps| <= INT32_MAX
    ensures CheckedSum(0, Percentages(eps)).Some?
  {
    CheckedSumFits(0, Percentages(eps));
  }

  /** The parent's percentage is the mean of its episodes' percentages
      rounded down; between 0 and 100 when they are, and 100 exactly when
      every episode is at 100. */
  lemma AggregatePercent(parent: DownloadRequest, eps: seq<DownloadRequest>, now: int)
    requires |eps| > 0 && Aggregate(parent, eps, now).Some?
    requires forall k :: 0 <= k < |eps| ==> 0 <= eps[k].downloadPercentage <= 100
    ensures var p := Aggregate(parent, eps, now).value.downloadPercentage;
      p * |eps| <= Sum(Percentages(eps)) < p * |eps| + |eps|
    ensures 0 <= Aggregate(parent, eps, now).value.downloadPercentage <= 100
    ensures Aggregate(parent, eps, now).value.downloadPercentage == 100 <==>
      forall k :: 0 <= k < |eps| ==> eps[k].downloadPercentage == 100
  {
    var ps := Percentages(eps);
    var n := |eps|;
    var total := Sum(ps);
    var p := Aggregate(parent, eps, now).value.downloadPercentage;
    SumBounds(ps, 0, 100);
    assert p == Div(total, n);
    if p < 0 {
      MulMonotone(p + 1, 0, n);
      assert false;
    }
    if p > 100 {
      MulMonotone(101, p, n);
      assert false;
    }
    if forall k :: 0 <= k < n ==> eps[k].downloadPercentage == 100 {
      SumBounds(ps, 100, 100);
      DivMulCancel(100, n);
    } else {
      var k :| 0 <= k < n && eps[k].downloadPercentage != 100;
      SumBelowFull(ps, k);
      if p == 100 {
        assert false;
      }
    }
  }

  lemma {:induction false} SumBelowFull(xs: seq<int>, k: int)
    requires 0 <= k < |xs|
    requires forall j :: 0 <= j < |xs| ==> xs[j] <= 100
    requires xs[k] < 100
    ensures Sum(xs) < 100 * |xs|
  {
    if k == 0 {
      SumAtMost(xs[1..], 100);
    } else {
      SumBelowFull(xs[1..], k - 1);
    }
  }

  lemma {:induction false} SumAtMost(xs: seq<int>, hi: int)
    requires forall k :: 0 <= k < |xs| ==> xs[k] <= hi
    ensures Sum(xs) <= hi * |xs|
  {
    if xs != [] {
      SumAtMost(xs[1..], hi);
    }
  }

  /** The parent's minutes left: none when no episode is active, and
      otherwise the mean of the active episodes' minutes rounded to the
      nearest (ties to even), which lies between their least and greatest. */
  lemma AggregateMinutes(parent: DownloadRequest, eps: seq<DownloadRequest>, now: int, lo: int, hi: int)
    requires |eps| > 0 && Aggregate(parent, eps, now).Some?
    requires forall k :: 0 <= k < |ActiveMinutes(eps)| ==> lo <= ActiveMinutes(eps)[k] <= hi
    ensures Aggregate(parent, eps, now).value.minutesLeft.None? <==> ActiveMinutes(eps) == []
    ensures Aggregate(parent, eps, now).value.minutesLeft.Some? ==>
      lo <= Aggregate(parent, eps, now).value.minutesLeft.value <= hi
    ensures var active := ActiveMinutes(eps);
      active != [] ==>
        var m := Aggregate(parent, eps, now).value.minutesLeft.value;
        2 * (m * |active| - Sum(active)) <= |active| && 2 * (Sum(active) - m * |active|) <= |active| &&
        (2 * (m * |active| - Sum(active)) == |active| || 2 * (Sum(active) - m * |active|) == |active| ==> m % 2 == 0)
  {
    var active := ActiveMinutes(eps);
    if active != [] {
      var n := |active|;
      var total := Sum(active);
      var r := RoundHalfEven(total, n);
      SumBounds(active, lo, hi);
      RoundWithin(total, n, lo, hi);
    }
  }

  /** Rolling up again from the same episodes changes nothing but the
      update time: percentage, minutes, status and completion time are
      functions of the episodes and of a completion time already set. */
  lemma AggregateIdempotent(parent: DownloadRequest, eps: seq<DownloadRequest>, now: int, later: int)
    requires |eps| > 0 && Aggregate(parent, eps, now).Some?
    ensures Aggregate(Aggregate(parent, eps, now).value, eps, later) ==
      Some(Aggregate(parent, eps, now).value.(updatedAt := Some(later)))
  {
  }

  /** Rounding a mean never leaves the range of the values averaged. */
  lemma RoundWithin(total: int, n: int, lo: int, hi: int)
    requires n > 0 && lo * n <= total <= hi * n
    ensures lo <= RoundHalfEven(total, n) <= hi
  {
    var r := RoundHalfEven(total, n);
    if r > hi {
      assert (hi + 1) * n == hi * n + n;
      MulMonotone(hi + 1, r, n);
      assert false;
    }
    if r < lo {
      assert (r + 1) * n == r * n + n;
      MulMonotone(r + 1, lo, n);
      assert false;
    }
  }

  /** The active minutes are those of the episodes neither completed nor
      without a value. */
  lemma {:induction false} ActiveMinutesMembers(eps: seq<DownloadRequest>, m: int)
    ensures m in ActiveMinutes(eps) <==>
      exists k :: 0 <= k < |eps| && eps[k].status != "completed" && eps[k].minutesLeft == Some(m)
  {
    if eps != [] {
      var init := eps[..|eps| - 1];
      ActiveMinutesMembers(init, m);
      assert forall k :: 0 <= k < |init| ==> init[k] == eps[k];
    }
  }
}
