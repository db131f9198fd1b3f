/**
 * The game clock: `formatTime` and the start/stop/reset accumulator behind it.
 *
 * `performance.now()` is replaced by a `now` parameter in whole milliseconds; the
 * clock is assumed not to run backwards (`ClockOk`). The 200 ms display interval
 * itself is not modelled: what it would show at time `now` is `FormatTime(Elapsed(now))`.
 */
module Clock {
  import opened Wrappers

  // ----- formatTime -----

  predicate IsDigit(ch: char) { '0' <= ch <= '9' }

  predicate AllDigits(s: string) { forall k :: 0 <= k < |s| ==> IsDigit(s[k]) }

  function DigitChar(d: int): (ch: char)
    requires 0 <= d < 10
    ensures IsDigit(ch) && ch as int - '0' as int == d
  {
    ('0' as int + d) as char
  }

  /** The number a string of decimal digits denotes, most significant digit first. */
  function DigitsValue(s: string): nat
    requires AllDigits(s)
  {
    if s == [] then 0
    else DigitsValue(s[..|s| - 1]) * 10 + (s[|s| - 1] as int - '0' as int)
  }

  /** `String(n)` for a non-negative integer: its shortest decimal spelling. */
  function DecimalString(n: nat): (s: string)
    ensures 1 <= |s| && AllDigits(s)
    ensures |s| > 1 ==> s[0] != '0'
    ensures |s| == 1 <==> n < 10
    ensures n < 100 ==> |s| <= 2
    decreases n
  {
    if n < 10 then [DigitChar(n)] else DecimalString(n / 10) + [DigitChar(n % 10)]
  }

  /** `DecimalString` spells its argument. */
  lemma {:induction false} DecimalStringValue(n: nat)
    ensures DigitsValue(DecimalString(n)) == n
    decreases n
  {
    if n >= 10 {
      DecimalStringValue(n / 10);
      var s := DecimalString(n);
      assert s[..|s| - 1] == DecimalString(n / 10);
    }
  }

  /** `s.padStart(2, '0')`. */
  function PadStart2(s: string): (r: string)
    ensures |s| >= 2 ==> r == s
    ensures |s| < 2 ==> |r| == 2 && r[2 - |s|..] == s && forall k :: 0 <= k < 2 - |s| ==> r[k] == '0'
  {
    if |s| == 0 then "00" else if |s| == 1 then "0" + s else s
  }

  /** A leading zero leaves the value of a digit string alone. */
  lemma {:induction false} LeadingZeroValue(s: string)
    requires AllDigits(s)
    ensures AllDigits("0" + s) && DigitsValue("0" + s) == DigitsValue(s)
    decreases |s|
  {
    if s != [] {
      var t := "0" + s;
      assert t[..|t| - 1] == "0" + s[..|s| - 1];
      LeadingZeroValue(s[..|s| - 1]);
    }
  }

  /** Padding keeps the digits and their value, and yields at least two of them. */
  lemma PadStart2Value(s: string)
    requires AllDigits(s)
    ensures AllDigits(PadStart2(s)) && |PadStart2(s)| >= 2
    ensures DigitsValue(PadStart2(s)) == DigitsValue(s)
  {
    if |s| == 0 {
      assert DigitsValue("0") == 0 by { assert "0"[..0] == []; }
      assert "00"[..1] == "0";
    } else if |s| == 1 {
      LeadingZeroValue(s);
    }
  }

  /**
   * `formatTime(ms)`: whole minutes and seconds, each padded to two digits. The
   * seconds always take two characters after the colon, and under 100 minutes the
   * display is exactly "mm:ss".
   */
  function FormatTime(ms: nat): (t: string)
    ensures |t| >= 5 && t[|t| - 3] == ':'
    ensures ms < 100 * 60 * 1000 ==> |t| == 5
  {
    var sec := ms / 1000;
    PadStart2(DecimalString(sec / 60)) + ":" + PadStart2(DecimalString(sec % 60))
  }

  /**
   * The display reads back as the elapsed whole seconds: minutes of two or more
   * digits, a colon, then exactly two digits of seconds below 60.
   */
  lemma FormatTimeReadsBack(ms: nat)
    ensures var t := FormatTime(ms);
      && |t| >= 5 && t[|t| - 3] == ':'
      && AllDigits(t[..|t| - 3]) && AllDigits(t[|t| - 2..])
      && DigitsValue(t[..|t| - 3]) * 60 + DigitsValue(t[|t| - 2..]) == ms / 1000
      && DigitsValue(t[|t| - 2..]) < 60
  {
    var sec := ms / 1000;
    var m, sc := sec / 60, sec % 60;
    var mm, ss := PadStart2(DecimalString(m)), PadStart2(DecimalString(sc));
    DecimalStringValue(m);
    DecimalStringValue(sc);
    PadStart2Value(DecimalString(m));
    PadStart2Value(DecimalString(sc));
    assert DigitsValue(mm) == m && DigitsValue(ss) == sc;
    SplitAtColon(mm, ss);
    assert FormatTime(ms) == mm + ":" + ss;
    DivMod60(sec);
  }

  lemma DivMod60(sec: nat)
    ensures (sec / 60) * 60 + sec % 60 == sec && sec % 60 < 60
  {
  }

  /** The two halves of "mm:ss" are recovered from the end of the string. */
  lemma SplitAtColon(mm: string, ss: string)
    requires |ss| == 2
    ensures var t := mm + ":" + ss;
      && |t| == |mm| + 3 && t[|t| - 3] == ':'
      && t[..|t| - 3] == mm && t[|t| - 2..] == ss
  {
    var t := mm + ":" + ss;
    assert t[..|t| - 3] == mm;
    assert t[|t| - 2..] == ss;
  }

  /** The text `resetTimer` writes is the display of zero elapsed time. */
  lemma FormatTimeZero()
    ensures FormatTime(0) == "00:00"
  {
    assert DecimalString(0) == "0";
  }

  // ----- startTimer / stopTimer / resetTimer -----

  /**
   * The timer state: whether an interval is running (`timerId`), when the current
   * run started (`startAt`), and the milliseconds of earlier runs (`elapsedMs`).
   */
  class Timer {
    var running: bool
    var startAt: Option<int>
    var elapsedMs: int

    ghost predicate Valid()
      reads this
    {
      (running ==> startAt.Some?) && elapsedMs >= 0
    }

    /** The clock reading `now` is not earlier than the start of the current run. */
    predicate ClockOk(now: int)
      reads this
    {
      running ==> startAt.Some? && startAt.value <= now
    }

    /** The time the display shows at `now`: earlier runs plus the current one. */
    function Elapsed(now: int): (e: int)
      reads this
      requires Valid() && ClockOk(now)
      ensures e >= elapsedMs >= 0
      ensures !running ==> e == elapsedMs
    {
      if running then elapsedMs + (now - startAt.value) else elapsedMs
    }

    /** The state at page load: no interval, no start time, nothing accumulated. */
    constructor()
      ensures Valid() && !running && startAt == None && elapsedMs == 0
    {
      running := false;
      startAt := None;
      elapsedMs := 0;
    }

    /** `startTimer()`: does nothing when already running, otherwise starts a run at `now`. */
    method Start(now: int)
      requires Valid() && ClockOk(now)
      modifies this
      ensures Valid() && running && ClockOk(now)
      ensures old(running) ==> startAt == old(startAt)
      ensures !old(running) ==> startAt == Some(now)
      ensures elapsedMs == old(elapsedMs)
      ensures Elapsed(now) == old(Elapsed(now))
    {
      if running {
        return;
      }
      startAt := Some(now);
      running := true;
    }

    /** `stopTimer()`: does nothing when stopped, otherwise banks the current run. */
    method Stop(now: int)
      requires Valid() && ClockOk(now)
      modifies this
      ensures Valid() && !running && ClockOk(now)
      ensures elapsedMs == old(Elapsed(now))
      ensures startAt == old(startAt)
    {
      if !running {
        return;
      }
      elapsedMs := elapsedMs + (now - startAt.value);
      running := false;
    }

    /** `resetTimer()`: stops the clock and forgets all accumulated time. */
    method Reset(now: int)
      requires Valid() && ClockOk(now)
      modifies this
      ensures Valid() && !running && startAt == None && elapsedMs == 0
      ensures Elapsed(now) == 0
    {
      Stop(now);
      elapsedMs := 0;
      startAt := None;
    }
  }

  /** Pausing and resuming adds up the lengths of the runs. */
  method AccumulatesRuns(t: Timer, t1: int, t2: int, t3: int, t4: int)
    requires t.Valid() && !t.running && t1 <= t2 <= t3 <= t4
    modifies t
    ensures t.Valid() && !t.running
    ensures t.elapsedMs == old(t.elapsedMs) + (t2 - t1) + (t4 - t3)
  {
    t.Start(t1);
    t.Stop(t2);
    t.Start(t3);
    t.Stop(t4);
  }
}
