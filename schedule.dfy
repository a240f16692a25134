/** The schedule window of entrypoints/background.ts: "HH:MM" texts turned
    into minutes of the day, and the test whether the current minute lies in
    the window, which may run past midnight. The current minute, which the
    source reads from the clock, is a parameter. */
module Schedule {
  import opened Decimal

  /** Minutes in a day; `getHours() * 60 + getMinutes()` is below it. */
  const MinutesPerDay: nat := 1440

  /** The index of the first ':' of `t`, or `|t|` when there is none. */
  function ColonIndex(t: string): (i: nat)
    ensures i <= |t|
    ensures forall k :: 0 <= k < i ==> t[k] != ':'
    ensures i < |t| ==> t[i] == ':'
  {
    if t == [] || t[0] == ':' then 0 else 1 + ColonIndex(t[1..])
  }

  /** Digits, one ':' and digits: the texts `split(':').map(Number)` turns
      into two numbers. */
  predicate WellFormedTime(t: string) {
    var i := ColonIndex(t);
    i < |t| && IsDigits(t[..i]) && IsDigits(t[i + 1..])
  }

  /** `h * 60 + m` for the text "h:m". */
  function Minutes(t: string): nat
    requires WellFormedTime(t)
  {
    var i := ColonIndex(t);
    Value(t[..i]) * 60 + Value(t[i + 1..])
  }

  /** The comparison of `isInScheduleRange` on minute counts: a window from
      `startMin` up to, not including, `endMin`, wrapping past midnight when
      the start is later than the end. */
  predicate InRange(startMin: int, endMin: int, now: int) {
    if startMin <= endMin then startMin <= now < endMin
    else now >= startMin || now < endMin
  }

  /** `isInScheduleRange(startTime, endTime)` at minute `now` of the day. */
  predicate IsInScheduleRange(startTime: string, endTime: string, now: nat)
    requires WellFormedTime(startTime) && WellFormedTime(endTime)
  {
    InRange(Minutes(startTime), Minutes(endTime), now)
  }

  /** Two-digit rendering of an hour or a minute as a time input gives it. */
  function Pad(n: nat): string {
    if n < 10 then "0" + Text(n) else Text(n)
  }

  /** The text "HH:MM" of hour `h` and minute `m`. */
  function Clock(h: nat, m: nat): string {
    Pad(h) + ":" + Pad(m)
  }

  // ---------------------------------------------------------------------
  // Parsing times

  lemma {:induction false} ColonAfterDigits(digits: string, rest: string)
    requires forall k :: 0 <= k < |digits| ==> IsDigit(digits[k])
    ensures ColonIndex(digits + ":" + rest) == |digits|
  {
    if digits != [] {
      assert (digits + ":" + rest)[1..] == digits[1..] + ":" + rest;
      ColonAfterDigits(digits[1..], rest);
    }
  }

  /** A leading zero does not change a digit string's value. */
  lemma {:induction false} LeadingZero(s: string)
    requires forall k :: 0 <= k < |s| ==> IsDigit(s[k])
    ensures Value("0" + s) == Value(s)
    decreases |s|
  {
    if s != [] {
      var init := s[..|s| - 1];
      assert ("0" + s)[..|"0" + s| - 1] == "0" + init;
      LeadingZero(init);
    }
  }

  lemma PadValue(n: nat)
    ensures IsDigits(Pad(n)) && Value(Pad(n)) == n
  {
    TextRoundTrip(n);
    if n < 10 {
      LeadingZero(Text(n));
    }
  }

  /** Reading back "HH:MM" gives the minute of the day it names. */
  lemma ClockRoundTrip(h: nat, m: nat)
    ensures WellFormedTime(Clock(h, m))
    ensures Minutes(Clock(h, m)) == h * 60 + m
  {
    PadValue(h);
    PadValue(m);
    var t := Clock(h, m);
    ColonAfterDigits(Pad(h), Pad(m));
    assert t[..|Pad(h)|] == Pad(h);
    assert t[|Pad(h)| + 1..] == Pad(m);
  }

  // ---------------------------------------------------------------------
  // The window

  /** A window whose start equals its end is always empty. */
  lemma EmptyWindow(t: nat, now: int)
    ensures !InRange(t, t, now)
  {
  }

  /** Swapping start and end gives the complementary window. */
  lemma SwappedWindow(startMin: int, endMin: int, now: int)
    requires startMin != endMin
    ensures InRange(endMin, startMin, now) == !InRange(startMin, endMin, now)
  {
  }

  /** For minutes of the day the window is the clockwise arc from the start
      to the end: `now` is in it exactly when it is fewer minutes past the
      start than the end is. */
  lemma WindowIsArc(startMin: int, endMin: int, now: int)
    requires 0 <= startMin < MinutesPerDay && 0 <= endMin < MinutesPerDay && 0 <= now < MinutesPerDay
    ensures InRange(startMin, endMin, now)
            <==> (now - startMin) % MinutesPerDay < (endMin - startMin) % MinutesPerDay
  {
    var d := (now - startMin) % MinutesPerDay;
    var w := (endMin - startMin) % MinutesPerDay;
    if now >= startMin {
      assert d == now - startMin;
    } else {
      assert d == now - startMin + MinutesPerDay;
    }
    if endMin >= startMin {
      assert w == endMin - startMin;
    } else {
      assert w == endMin - startMin + MinutesPerDay;
    }
  }

  /** The number of minutes below `k` that lie in the window. */
  function CountInRange(startMin: int, endMin: int, k: nat): nat {
    if k == 0 then 0
    else CountInRange(startMin, endMin, k - 1) + (if InRange(startMin, endMin, k - 1) then 1 else 0)
  }

  lemma {:induction false} CountForward(startMin: nat, endMin: nat, k: nat)
    requires startMin <= endMin
    ensures CountInRange(startMin, endMin, k)
            == if k <= startMin then 0 else if k <= endMin then k - startMin else endMin - startMin
  {
    if k > 0 {
      CountForward(startMin, endMin, k - 1);
    }
  }

  lemma {:induction false} CountWrapped(startMin: nat, endMin: nat, k: nat)
    requires endMin < startMin
    ensures CountInRange(startMin, endMin, k)
            == if k <= endMin then k else if k <= startMin then endMin else endMin + k - startMin
  {
    if k > 0 {
      CountWrapped(startMin, endMin, k - 1);
    }
  }

  /** The window covers `(end - start) mod 1440` minutes of the day. The
      day's length is a parameter equal to `MinutesPerDay`: with the constant
      itself in the postcondition, a caller with literal bounds makes the
      verifier evaluate the count minute by minute. */
  lemma WindowLength(startMin: nat, endMin: nat, day: nat)
    requires day == MinutesPerDay
    requires startMin < day && endMin < day
    ensures CountInRange(startMin, endMin, day) == (endMin - startMin) % day
  {
    if startMin <= endMin {
      CountForward(startMin, endMin, day);
    } else {
      CountWrapped(startMin, endMin, day);
    }
  }

  /** The default times "22:00" and "07:00" name minutes 1320 and 420. */
  lemma DefaultMinutes()
    ensures WellFormedTime("22:00") && WellFormedTime("07:00")
    ensures Minutes("22:00") == 22 * 60 && Minutes("07:00") == 7 * 60
  {
    ClockRoundTrip(22, 0);
    ClockRoundTrip(7, 0);
    assert Clock(22, 0) == "22:00";
    assert Clock(7, 0) == "07:00";
  }

  /** The default window covers the night across midnight. */
  lemma DefaultWindow(now: nat)
    ensures WellFormedTime("22:00") && WellFormedTime("07:00")
    ensures IsInScheduleRange("22:00", "07:00", now) <==> now >= 22 * 60 || now < 7 * 60
  {
    DefaultMinutes();
  }

  /** The default window lasts nine hours of the day's `day` minutes. The
      times and the day's length are parameters equal to the constants, for
      the reason given at `WindowLength`. */
  lemma DefaultWindowLength(start: string, end: string, day: nat)
    requires start == "22:00" && end == "07:00" && day == MinutesPerDay
    ensures WellFormedTime(start) && WellFormedTime(end)
    ensures CountInRange(Minutes(start), Minutes(end), day) == 9 * 60
  {
    DefaultMinutes();
    assert WellFormedTime(start) && WellFormedTime(end);
    assert Minutes(start) == 1320 && Minutes(end) == 420;
    WindowLength(1320, 420, day);
    assert (420 - 1320) % day == 540;
  }
}
