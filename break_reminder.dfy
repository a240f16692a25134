/** The break-reminder countdown of entrypoints/content/break-reminder.ts: a
    full-page overlay with id `eye-protect-break-reminder` showing the
    seconds left, the module-level `countdownTimer` and the `seconds`
    variable its callback decrements. Each firing of the one-second interval
    is an explicit call. The page's elements with that id are recorded, in
    document order, by the text of their countdown. */
module BreakReminder {
  import opened Decimal
  import opened Dom

  /** The length of a break, in seconds. */
  const BreakSeconds: nat := 20

  /** `${n}` for an integer. */
  function IntText(n: int): string {
    if n < 0 then "-" + Text(-n) else Text(n)
  }

  /** The countdown's text `${seconds}s`. */
  function Display(seconds: int): string {
    IntText(seconds) + "s"
  }

  datatype ReminderState = ReminderState(overlays: seq<string>, timer: bool, seconds: int)

  /** `dismissBreakReminder`: the interval is cleared and the first overlay
      removed. */
  function DismissState(s: ReminderState): ReminderState {
    s.(timer := false, overlays := RemoveFirst(s.overlays))
  }

  /** `showBreakReminder`: dismiss, then append a new overlay showing 20
      seconds and start the interval. */
  function ShowState(s: ReminderState): ReminderState {
    var d := DismissState(s);
    ReminderState(d.overlays + [Display(BreakSeconds)], true, BreakSeconds)
  }

  /** One firing of the interval: one second less, shown in the overlay this
      interval belongs to (the last one appended), and a dismissal once no
      time is left. Without a running interval nothing fires. */
  function TickState(s: ReminderState): ReminderState {
    if !s.timer || s.overlays == [] then s
    else
      var n := s.seconds - 1;
      var shown := s.(seconds := n, overlays := s.overlays[|s.overlays| - 1 := Display(n)]);
      if n <= 0 then DismissState(shown) else shown
  }

  /** `k` firings in a row. */
  function Ticks(s: ReminderState, k: nat): ReminderState
    decreases k
  {
    if k == 0 then s else Ticks(TickState(s), k - 1)
  }

  /** The reminder on screen with `n` seconds left. */
  function Showing(n: nat): ReminderState {
    ReminderState([Display(n)], true, n)
  }

  /** Nothing on screen and no interval. */
  predicate Idle(s: ReminderState) {
    s.overlays == [] && !s.timer
  }

  /** The module's invariant: an interval runs exactly while one overlay is
      shown, and then it shows the positive number of seconds left. */
  predicate Ready(s: ReminderState) {
    Idle(s) || (s.seconds >= 1 && s == Showing(s.seconds))
  }

  // ---------------------------------------------------------------------
  // Properties

  /** A reminder starts at 20 seconds and shows "20s", replacing whatever was
      on screen: one overlay and one interval. */
  lemma ShowStartsAfresh(s: ReminderState)
    requires Ready(s)
    ensures ShowState(s) == Showing(BreakSeconds)
    ensures Display(BreakSeconds) == "20s"
  {
    assert Text(20) == "20";
  }

  /** A firing takes one second off and shows the new count; at zero the
      reminder is dismissed. */
  lemma TickOnce(n: nat)
    requires n >= 1
    ensures TickState(Showing(n)) == if n == 1 then ReminderState([], false, 0) else Showing(n - 1)
  {
  }

  /** From `n` seconds, each of the first `n - 1` firings leaves the reminder
      on screen, and the `n`-th removes it. */
  lemma {:induction false} Countdown(n: nat, k: nat)
    requires n >= 1 && k <= n
    ensures Ticks(Showing(n), k) == if k < n then Showing(n - k) else ReminderState([], false, 0)
  {
    if k > 0 {
      TickOnce(n);
      if n == 1 {
        assert Ticks(Showing(n), k) == Ticks(ReminderState([], false, 0), k - 1);
        assert k == 1;
      } else {
        Countdown(n - 1, k - 1);
      }
    }
  }

  /** Without a skip, a reminder is on screen for exactly 20 firings. */
  lemma TwentyTicks(s: ReminderState, k: nat)
    requires Ready(s) && k <= BreakSeconds
    ensures k < BreakSeconds ==> Ticks(ShowState(s), k) == Showing(BreakSeconds - k)
    ensures Idle(Ticks(ShowState(s), BreakSeconds))
  {
    ShowStartsAfresh(s);
    Countdown(BreakSeconds, k);
    Countdown(BreakSeconds, BreakSeconds);
  }

  /** Dismissing leaves no overlay and no interval, and dismissing again
      changes nothing; it is safe when nothing is shown. */
  lemma DismissIdempotent(s: ReminderState)
    requires Ready(s)
    ensures Idle(DismissState(s))
    ensures DismissState(DismissState(s)) == DismissState(s)
  {
  }

  /** Every operation keeps the invariant. */
  lemma ReadyPreserved(s: ReminderState)
    requires Ready(s)
    ensures Ready(ShowState(s)) && Ready(TickState(s)) && Ready(DismissState(s))
  {
    ShowStartsAfresh(s);
    if s.timer {
      TickOnce(s.seconds);
    }
  }

  /** The overlay, the interval and the countdown of one page. */
  class ReminderPage {
    var overlays: seq<string>
    /** Whether `countdownTimer` is set. */
    var timer: bool
    /** The `seconds` variable of the running interval's callback. */
    var seconds: int

    function State(): ReminderState
      reads this
    {
      ReminderState(overlays, timer, seconds)
    }

    constructor()
      ensures Idle(State())
    {
      overlays := [];
      timer := false;
      seconds := 0;
    }

    /** `dismissBreakReminder()`; the skip button's click handler too. */
    method Dismiss()
      modifies this
      ensures State() == DismissState(old(State()))
    {
      if timer {
        timer := false;
      }
      if overlays != [] {
        overlays := overlays[1..];
      }
    }

    /** `showBreakReminder()`. */
    method Show()
      modifies this
      ensures State() == ShowState(old(State()))
    {
      Dismiss();
      seconds := 20;
      overlays := overlays + [Display(seconds)];
      timer := true;
    }

    /** One firing of the running interval. */
    method Tick()
      requires timer && overlays != []
      modifies this
      ensures State() == TickState(old(State()))
    {
      seconds := seconds - 1;
      overlays := overlays[|overlays| - 1 := Display(seconds)];
      if seconds <= 0 {
        Dismiss();
      }
    }
  }
}
