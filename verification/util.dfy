/** Runtime formatting: a number of minutes shown as hours and minutes. */
module Util {
  import opened Wrappers
  import opened Numeric
  import opened Text

  /** Whole hours and the minutes left over, with C#'s truncating division:
      both parts carry the sign of the runtime. */
  function RunTimeParts(runtime: int): (hm: (int, int))
    ensures hm.0 * 60 + hm.1 == runtime
    ensures runtime >= 0 ==> hm.0 == runtime / 60 && 0 <= hm.1 < 60
    ensures runtime < 0 ==> hm.0 <= 0 && -60 < hm.1 <= 0
  {
    var hours := Div(runtime, 60);
    (hours, runtime - hours * 60)
  }

  /** `CalculateRunTimeHours`: "" without a runtime, else "<h>h <m>m". */
  function CalculateRunTimeHours(runtime: Option<int>): (s: string)
    ensures runtime.None? <==> s == ""
    ensures runtime.Some? ==>
      s == IntToString(RunTimeParts(runtime.value).0) + "h " + IntToString(RunTimeParts(runtime.value).1) + "m"
  {
    match runtime
    case None => ""
    case Some(r) =>
      var (hours, minutesLeft) := RunTimeParts(r);
      IntToString(hours) + "h " + IntToString(minutesLeft) + "m"
  }

  /** Both parts of a 32-bit runtime are 32-bit numbers. */
  lemma RunTimePartsInInt32(runtime: int)
    requires InInt32(runtime)
    ensures InInt32(RunTimeParts(runtime).0) && InInt32(RunTimeParts(runtime).1)
  {
    var (hours, minutes) := RunTimeParts(runtime);
    if runtime >= 0 {
      assert hours <= runtime;
    } else {
      assert hours >= runtime;
    }
  }

  lemma HoursMinutesLayout(h: string, m: string)
    ensures var s := h + "h " + m + "m";
      s[..|h|] == h && s[|h|..|h| + 2] == "h " && s[|h| + 2..|s| - 1] == m && s[|s| - 1] == 'm'
  {
  }

  /** The printed form reads back: the text before "h " and the text
      between it and the final 'm' parse to the two parts, whose hours times
      60 plus minutes is the runtime. */
  lemma RunTimeHoursReadBack(runtime: int)
    requires InInt32(runtime)
    ensures var s := CalculateRunTimeHours(Some(runtime));
      var h := IntToString(RunTimeParts(runtime).0);
      var m := IntToString(RunTimeParts(runtime).1);
      s[..|h|] == h && s[|h|..|h| + 2] == "h " && s[|h| + 2..|s| - 1] == m && s[|s| - 1] == 'm' &&
      ParseInt32(h) == Some(RunTimeParts(runtime).0) && ParseInt32(m) == Some(RunTimeParts(runtime).1)
  {
    var hm := RunTimeParts(runtime);
    RunTimePartsInInt32(runtime);
    ParseIntToString(hm.0);
    ParseIntToString(hm.1);
    HoursMinutesLayout(IntToString(hm.0), IntToString(hm.1));
  }

  lemma RunTimeExamples()
    ensures CalculateRunTimeHours(Some(135)) == "2h 15m"
    ensures CalculateRunTimeHours(Some(60)) == "1h 0m"
    ensures CalculateRunTimeHours(Some(-75)) == "-1h -15m"
  {
    assert RunTimeParts(135) == (2, 15);
    assert RunTimeParts(60) == (1, 0);
    assert RunTimeParts(-75) == (-1, -15);
  }
}
