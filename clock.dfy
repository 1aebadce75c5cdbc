/**
  `format_seconds` (skills/icp-batch-skill/scripts/run_icp_batch.py:296-303): the
  elapsed and remaining times of the progress line as `MM:SS`, or `HH:MM:SS`
  once there is at least one full hour. The clock readings and the averaging
  that produce its argument are not modelled.
*/
module Clock {
  import opened Wrappers
  import opened Text

  /** `int(seconds)` after a negative argument has been replaced by 0. */
  function WholeSeconds(seconds: real): (n: nat)
    ensures seconds < 0.0 ==> n == 0
    ensures seconds >= 0.0 ==> n as real <= seconds < n as real + 1.0
  {
    if seconds < 0.0 then 0 else seconds.Floor
  }

  /** `format_seconds(seconds)`: `divmod` by 60 twice, each field printed with `02d`. */
  function FormatSeconds(seconds: real): string {
    FormatWhole(WholeSeconds(seconds))
  }

  /** The text `format_seconds` prints for `n` whole seconds. */
  function FormatWhole(n: nat): string {
    var minutes := n / 60;
    var sec := n % 60;
    var hours := minutes / 60;
    var mins := minutes % 60;
    if hours > 0 then Pad2(hours) + ":" + Pad2(mins) + ":" + Pad2(sec)
    else Pad2(mins) + ":" + Pad2(sec)
  }

  /**
    Reading a clock text back: `MM:SS`, or `H:MM:SS` with any number of hour
    digits, each field decimal; `None` for any other text.
  */
  function ReadClock(s: string): Option<nat> {
    if |s| < 5 || s[|s| - 3] != ':' || !AllDigits(s[|s| - 5..|s| - 3]) || !AllDigits(s[|s| - 2..]) then None
    else
      var mm := ParseDecimal(s[|s| - 5..|s| - 3]);
      var ss := ParseDecimal(s[|s| - 2..]);
      if |s| == 5 then Some(mm * 60 + ss)
      else if |s| < 7 || s[|s| - 6] != ':' || !AllDigits(s[..|s| - 6]) then None
      else Some(ParseDecimal(s[..|s| - 6]) * 3600 + mm * 60 + ss)
  }

  /**
    The layout `ReadClock` expects: two-digit minutes `mm` and seconds `ss`
    after the last two colons, and the hours in front exactly when there are any.
  */
  ghost predicate ClockFields(s: string, hours: Option<nat>, mm: nat, ss: nat) {
    && |s| >= 5 && s[|s| - 3] == ':'
    && AllDigits(s[|s| - 5..|s| - 3]) && ParseDecimal(s[|s| - 5..|s| - 3]) == mm
    && AllDigits(s[|s| - 2..]) && ParseDecimal(s[|s| - 2..]) == ss
    && (|s| == 5 <==> hours.None?)
    && (hours.Some? ==> |s| >= 7 && s[|s| - 6] == ':' && AllDigits(s[..|s| - 6]) && ParseDecimal(s[..|s| - 6]) == hours.value)
  }

  /**
    The fields of the text: minutes and seconds (each below 60), with the hours
    in front only when there is at least one full hour.
  */
  lemma FormatShape(n: nat)
    ensures ClockFields(FormatWhole(n), if n < 3600 then None else Some(n / 3600), n / 60 % 60, n % 60)
  {
    FormatCases(n);
    if n < 3600 {
      ShortFields(n / 60 % 60, n % 60);
    } else {
      LongFields(n / 3600, n / 60 % 60, n % 60);
    }
  }

  /** The fields of an `MM:SS` text read back as the numbers printed into them. */
  lemma ShortFields(mm: nat, ss: nat)
    requires mm < 100 && ss < 100
    ensures ClockFields(Pad2(mm) + ":" + Pad2(ss), None, mm, ss)
  {
    Pad2RoundTrip(mm);
    Pad2RoundTrip(ss);
    TwoFields(Pad2(mm), Pad2(ss));
  }

  /** The fields of an `H:MM:SS` text read back as the numbers printed into them. */
  lemma LongFields(hh: nat, mm: nat, ss: nat)
    requires mm < 100 && ss < 100
    ensures ClockFields(Pad2(hh) + ":" + Pad2(mm) + ":" + Pad2(ss), Some(hh), mm, ss)
  {
    Pad2RoundTrip(hh);
    Pad2RoundTrip(mm);
    Pad2RoundTrip(ss);
    ThreeFields(Pad2(hh), Pad2(mm), Pad2(ss));
  }

  /** The two shapes of the text: without hours below one hour, with them from one hour on. */
  lemma FormatCases(n: nat)
    ensures n < 3600 ==> FormatWhole(n) == Pad2(n / 60 % 60) + ":" + Pad2(n % 60)
    ensures n >= 3600 ==> FormatWhole(n) == Pad2(n / 3600) + ":" + Pad2(n / 60 % 60) + ":" + Pad2(n % 60)
  {
    HoursOf(n);
  }

  /** Where the fields of an `MM:SS` text sit. */
  lemma TwoFields(mm: string, ss: string)
    requires |mm| == 2 && |ss| == 2
    ensures var s := mm + ":" + ss;
      |s| == 5 && s[|s| - 3] == ':' && s[|s| - 5..|s| - 3] == mm && s[|s| - 2..] == ss
  {
  }

  /** Where the fields of an `H:MM:SS` text sit. */
  lemma ThreeFields(hh: string, mm: string, ss: string)
    requires |hh| >= 2 && |mm| == 2 && |ss| == 2
    ensures var s := hh + ":" + mm + ":" + ss;
      && |s| > 5 && s[|s| - 3] == ':' && s[|s| - 5..|s| - 3] == mm && s[|s| - 2..] == ss
      && s[|s| - 6] == ':' && s[..|s| - 6] == hh
  {
    var s := hh + ":" + mm + ":" + ss;
    assert s[..|s| - 6] == hh;
  }

  /** Two `divmod`s by 60 count whole hours. */
  lemma HoursOf(n: nat)
    ensures n / 60 / 60 == n / 3600
    ensures n == (n / 60 / 60) * 3600 + (n / 60 % 60) * 60 + n % 60
    ensures n / 60 % 60 < 60 && n % 60 < 60
  {
  }

  /**
    The text reads back as the whole number of seconds, so hours, minutes and
    seconds add up: `hours * 3600 + minutes * 60 + sec == int(seconds)`.
  */
  lemma FormatRoundTrip(seconds: real)
    ensures ReadClock(FormatSeconds(seconds)) == Some(WholeSeconds(seconds))
  {
    var n := WholeSeconds(seconds);
    var hours := if n < 3600 then None else Some(n / 3600);
    FormatShape(n);
    ReadFields(FormatWhole(n), hours, n / 60 % 60, n % 60);
    HoursOf(n);
  }

  /** A text in the layout `ReadClock` expects reads as the seconds its fields add up to. */
  lemma ReadFields(s: string, hours: Option<nat>, mm: nat, ss: nat)
    requires ClockFields(s, hours, mm, ss)
    ensures ReadClock(s) == Some(match hours case None => mm * 60 + ss case Some(h) => h * 3600 + mm * 60 + ss)
  {
  }

  /** Minutes and seconds are each below 60, and a negative argument reads as no time at all. */
  lemma FormatBounds(seconds: real)
    ensures var s := FormatSeconds(seconds);
      ParseDecimal(s[|s| - 5..|s| - 3]) < 60 && ParseDecimal(s[|s| - 2..]) < 60
    ensures seconds < 0.0 ==> FormatSeconds(seconds) == "00:00"
  {
    FormatShape(WholeSeconds(seconds));
    if seconds < 0.0 {
      assert Decimal(0) == "0";
    }
  }
}
