/** The focus panel: a 25-minute countdown for the active NOW task, whose
    elapsed time is written back to the task's timer state, plus the
    panel's formatters and its "next up" list. */
module FocusPanel {
  import opened Types
  import opened Text
  import opened TaskList

  // ---------------------------------------------------------------------
  // Formatters and small predicates

  /** `formatTime`: whole minutes and the remaining seconds, each padded to
      two digits. The minutes field is wider than two digits only for 100
      minutes or more, and then has no leading zero. It reads back as the
      number of seconds, and it is five characters wide exactly below 100
      minutes. */
  function FormatTime(seconds: nat): (r: string)
    ensures IsClock(r, seconds / 60, seconds % 60)
    ensures |r| >= 5 && (|r| > 5 ==> r[0] != '0')
    ensures ParseClock(r) == seconds
    ensures |r| == 5 <==> seconds < 6000
  {
    var minutes := PadStart2(NatToString(seconds / 60));
    ClockRoundTrip(minutes, seconds);
    minutes + ":" + PadStart2(NatToString(seconds % 60))
  }

  /** The last two minutes of a session that is still counting: some time
      is left and the whole minutes are 0 or 1. */
  predicate IsUnderTwoMinutes(seconds: int)
    ensures IsUnderTwoMinutes(seconds) <==> seconds > 0 && seconds / 60 <= 1
  {
    seconds < 120 && seconds > 0
  }

  /** On the clock face, the last two minutes are the readings from "00:01"
      to "01:59". */
  lemma UnderTwoMinutesOnClock(seconds: nat)
    requires seconds < 6000
    ensures |FormatTime(seconds)| == 5
    ensures IsUnderTwoMinutes(seconds) <==>
      (FormatTime(seconds)[..2] == "00" || FormatTime(seconds)[..2] == "01") && FormatTime(seconds) != "00:00"
  {
    var r := FormatTime(seconds);
    var m := seconds / 60;
    MinutesOnClock(seconds);
    SmallMinutes(m);
    assert seconds < 120 <==> m < 2;
    ClockAtZero();
  }

  lemma ClockAtZero()
    ensures FormatTime(0) == "00:00"
    ensures ParseClock("00:00") == 0
  {
    assert FormatTime(0) == "00:00" by {
      PaddedZero();
      assert FormatTime(0) == "00" + ":" + "00";
    }
    assert ParseClock(FormatTime(0)) == 0;
  }

  /** Zero, rendered and padded, is the field "00", and the clock built
      from two such fields is "00:00". */
  lemma PaddedZero()
    ensures PadStart2(NatToString(0)) == "00"
    ensures "00" + ":" + "00" == "00:00"
  {
    var d := NatToString(0);
    assert d == [DigitChar(0)] && DigitChar(0) == '0';
    var z := seq(1, _ => '0');
    assert z == ['0'] by {
      assert |z| == 1 && z[0] == '0';
    }
    assert PadStart2(d) == z + d;
  }

  lemma MinutesOnClock(seconds: nat)
    requires seconds < 6000
    ensures FormatTime(seconds)[..2] == PadStart2(NatToString(seconds / 60))
  {
  }

  lemma SmallMinutes(m: nat)
    ensures m < 2 <==> PadStart2(NatToString(m)) == "00" || PadStart2(NatToString(m)) == "01"
  {
    if m < 2 {
      assert NatToString(m) == [DigitChar(m)];
    } else {
      assert DigitsValue("00") == 0 && DigitsValue("01") == 1;
    }
  }

  /** `formatFocusedTime`: the whole minutes spent of the budget, or "Just
      started" when that is zero. Division by 60 rounds down, as
      `Math.floor` does, so a remaining time above the budget reads as a
      negative count: a minus sign, then the overshoot in minutes rounded
      up. */
  function FormatFocusedTime(remainingSeconds: int): (r: string)
    ensures r == "Just started" <==> FocusBudget - 60 < remainingSeconds <= FocusBudget
    ensures remainingSeconds <= FocusBudget - 60 ==>
      |r| > 12 && r[|r| - 12..] == " min focused" && AllDigits(r[..|r| - 12]) && r[0] != '0'
      && DigitsValue(r[..|r| - 12]) == (FocusBudget - remainingSeconds) / 60
    ensures remainingSeconds > FocusBudget ==>
      |r| > 13 && r[0] == '-' && r[1] != '0' && r[1..] == CountFocused((remainingSeconds - FocusBudget + 59) / 60)
  {
    FocusedMinutes(remainingSeconds);
    var mins := (FocusBudget - remainingSeconds) / 60;
    if mins == 0 then "Just started"
    else if mins > 0 then CountFocused(mins)
    else
      Overshoot(remainingSeconds);
      "-" + CountFocused(-mins)
  }

  /** A positive count of minutes as the panel writes it: its digits,
      without a leading zero, then " min focused". */
  function CountFocused(n: nat): (r: string)
    requires n >= 1
    ensures |r| > 12 && r[|r| - 12..] == " min focused" && r[..|r| - 12] == NatToString(n)
    ensures AllDigits(r[..|r| - 12]) && r[0] != '0' && DigitsValue(r[..|r| - 12]) == n
  {
    NoLeadingZero(n);
    var d := NatToString(n);
    var r := d + " min focused";
    assert r[..|r| - 12] == d && r[|r| - 12..] == " min focused";
    r
  }

  /** Both non-zero readings are `${mins} min focused`, the count written
      as `toString` writes an integer. */
  lemma CountIsToString(n: nat)
    requires n >= 1
    ensures CountFocused(n) == IntToString(n) + " min focused"
    ensures "-" + CountFocused(n) == IntToString(-(n as int)) + " min focused"
  {
    var r := CountFocused(n);
    var d := NatToString(n);
    assert r == r[..|r| - 12] + r[|r| - 12..];
    assert "-" + (d + " min focused") == ("-" + d) + " min focused";
  }

  /** The whole minutes spent are zero exactly in the budget's first
      minute, positive after it, and negative above the budget. */
  lemma FocusedMinutes(remainingSeconds: int)
    ensures (FocusBudget - remainingSeconds) / 60 == 0 <==> FocusBudget - 60 < remainingSeconds <= FocusBudget
    ensures (FocusBudget - remainingSeconds) / 60 > 0 <==> remainingSeconds <= FocusBudget - 60
  {
  }

  /** Rounding a negative elapsed time down is rounding the overshoot up. */
  lemma Overshoot(remainingSeconds: int)
    requires remainingSeconds > FocusBudget
    ensures (FocusBudget - remainingSeconds) / 60 < 0
    ensures -((FocusBudget - remainingSeconds) / 60) == (remainingSeconds - FocusBudget + 59) / 60
  {
    var q, m := (FocusBudget - remainingSeconds) / 60, (FocusBudget - remainingSeconds) % 60;
    assert FocusBudget - remainingSeconds == 60 * q + m && 0 <= m < 60;
    assert remainingSeconds - FocusBudget + 59 == 60 * -q + (59 - m);
  }

  /** The panel's active task: the first NOW task with the active id. */
  function ActiveTask(nowTasks: seq<Task>, activeTaskId: Option<TaskId>): (r: Option<Task>)
    ensures r.Some? ==> activeTaskId == Some(r.value.id) && r.value in nowTasks
    ensures r.Some? ==> IndexOf(nowTasks, r.value.id) >= 0 && r.value == nowTasks[IndexOf(nowTasks, r.value.id)]
    ensures r.None? ==> forall i :: 0 <= i < |nowTasks| ==> Some(nowTasks[i].id) != activeTaskId
  {
    if activeTaskId.Some? then FindById(nowTasks, activeTaskId.value) else None
  }

  /** The NOW tasks other than the active one, in order. */
  function Others(nowTasks: seq<Task>, activeTaskId: Option<TaskId>): (r: seq<Task>)
    ensures |r| <= |nowTasks|
  {
    if nowTasks == [] then []
    else (if Some(nowTasks[0].id) != activeTaskId then [nowTasks[0]] else []) + Others(nowTasks[1..], activeTaskId)
  }

  /** The other tasks are exactly the NOW tasks that are not the active
      one, each as often as in NOW. */
  lemma {:induction false} OthersFromNow(nowTasks: seq<Task>, activeTaskId: Option<TaskId>)
    ensures forall i :: 0 <= i < |Others(nowTasks, activeTaskId)| ==> Some(Others(nowTasks, activeTaskId)[i].id) != activeTaskId
    ensures forall t: Task ::
      multiset(Others(nowTasks, activeTaskId))[t] == if Some(t.id) == activeTaskId then 0 else multiset(nowTasks)[t]
  {
    if nowTasks != [] {
      var h, tail := nowTasks[0], nowTasks[1..];
      var o, rest := Others(nowTasks, activeTaskId), Others(tail, activeTaskId);
      OthersFromNow(tail, activeTaskId);
      assert multiset(nowTasks) == multiset{h} + multiset(tail) by {
        assert nowTasks == [h] + tail;
      }
      if Some(h.id) == activeTaskId {
        assert o == rest;
      } else {
        assert o == [h] + rest;
        assert multiset(o) == multiset{h} + multiset(rest);
        forall i | 0 <= i < |o|
          ensures Some(o[i].id) != activeTaskId
        {
          if i > 0 {
            assert o[i] == rest[i - 1];
          }
        }
      }
    }
  }

  /** Filtering out the active task distributes over concatenation: the
      other tasks keep the order they have in NOW. */
  lemma {:induction false} OthersAppend(a: seq<Task>, b: seq<Task>, activeTaskId: Option<TaskId>)
    ensures Others(a + b, activeTaskId) == Others(a, activeTaskId) + Others(b, activeTaskId)
  {
    if a != [] {
      var head := if Some(a[0].id) != activeTaskId then [a[0]] else [];
      assert (a + b)[0] == a[0] && (a + b)[1..] == a[1..] + b;
      assert Others(a + b, activeTaskId) == head + Others(a[1..] + b, activeTaskId);
      OthersAppend(a[1..], b, activeTaskId);
      assert Others(a, activeTaskId) == head + Others(a[1..], activeTaskId);
    } else {
      assert a + b == b;
    }
  }

  /** `nextTasks`: the first two of the other NOW tasks. */
  function NextTasks(nowTasks: seq<Task>, activeTaskId: Option<TaskId>): (r: seq<Task>)
    ensures |r| == if |Others(nowTasks, activeTaskId)| < 2 then |Others(nowTasks, activeTaskId)| else 2
    ensures r == Others(nowTasks, activeTaskId)[..|r|]
  {
    var others := Others(nowTasks, activeTaskId);
    if |others| < 2 then others else others[..2]
  }

  /** The tasks shown as next up are NOW tasks other than the active one. */
  lemma NextTasksFromNow(nowTasks: seq<Task>, activeTaskId: Option<TaskId>)
    ensures forall t :: t in NextTasks(nowTasks, activeTaskId) ==> Some(t.id) != activeTaskId && t in nowTasks
  {
    var others := Others(nowTasks, activeTaskId);
    var r := NextTasks(nowTasks, activeTaskId);
    OthersFromNow(nowTasks, activeTaskId);
    forall t | t in r
      ensures Some(t.id) != activeTaskId && t in nowTasks
    {
      var i :| 0 <= i < |r| && r[i] == t;
      assert others[i] == t;
      assert t in multiset(others);
    }
  }

  // ---------------------------------------------------------------------
  // The countdown

  /** The visible timer: seconds left and whether it is running. */
  datatype Countdown = Countdown(seconds: nat, running: bool)

  /** One interval callback. A running timer above zero loses a second; from
      one second (or less) it lands on zero and stops. A paused timer, or
      one at zero, has no interval and does not change. */
  function Tick(c: Countdown): (r: Countdown)
    ensures r.seconds <= c.seconds
    ensures c.running && c.seconds > 0 ==> r.seconds == c.seconds - 1
    ensures c.running && c.seconds > 0 ==> (r.running <==> r.seconds > 0)
    ensures !(c.running && c.seconds > 0) ==> r == c
  {
    if c.running && c.seconds > 0 then
      if c.seconds <= 1 then Countdown(0, false) else Countdown(c.seconds - 1, true)
    else c
  }

  /** `k` interval callbacks in a row. */
  function Ticks(c: Countdown, k: nat): Countdown {
    if k == 0 then c else Tick(Ticks(c, k - 1))
  }

  /** A started timer with `s` seconds left counts down one second per tick,
      reaches zero after exactly `s` ticks, stops there and stays stopped. */
  lemma {:induction false} CountsDownToZero(s: nat, k: nat)
    requires s > 0
    ensures Ticks(Countdown(s, true), k) == if k < s then Countdown(s - k, true) else Countdown(0, false)
  {
    if k > 0 {
      CountsDownToZero(s, k - 1);
    }
  }

  /** The persistence rule: write when the timer has moved at least five
      seconds from the last saved value, or has reached zero. */
  predicate ShouldCheckpoint(seconds: nat, lastSaved: nat)
    ensures seconds == 0 ==> ShouldCheckpoint(seconds, lastSaved)
    ensures seconds == lastSaved ==> (ShouldCheckpoint(seconds, lastSaved) <==> seconds == 0)
    ensures !ShouldCheckpoint(seconds, lastSaved) ==> seconds > 0 && -5 < seconds - lastSaved < 5
  {
    seconds - lastSaved >= 5 || lastSaved - seconds >= 5 || seconds == 0
  }

  /** A write to the task's stored timer state. */
  datatype TimerWrite =
    | SaveState(taskId: TaskId, elapsedSeconds: int, isActive: bool)
    | ResetState(taskId: TaskId)

  /** What the Complete button reports to the board. */
  datatype Completion = Completion(taskId: TaskId, timerSeconds: nat, isRunning: bool)

  /** The panel's timer state. `writes` is the sequence of timer-state
      writes sent to the store, oldest first. Each effect the component
      registers is a method, run after the change that triggers it. */
  class FocusTimer {
    var timerSeconds: nat
    var isRunning: bool
    var lastSavedSeconds: nat
    var writes: seq<TimerWrite>

    function State(): Countdown
      reads this
    {
      Countdown(timerSeconds, isRunning)
    }

    /** The timer and the last saved value lie within the budget. */
    predicate WithinBudget()
      reads this
    {
      timerSeconds <= FocusBudget && lastSavedSeconds <= FocusBudget
    }

    constructor ()
      ensures timerSeconds == FocusBudget && !isRunning && lastSavedSeconds == FocusBudget
      ensures writes == [] && WithinBudget()
    {
      timerSeconds, isRunning, lastSavedSeconds, writes := FocusBudget, false, FocusBudget, [];
    }

    /** When the active task changes: load its remaining time (the full
        budget if it has none), mark that value as saved, and pause. */
    method SwitchTask(active: Option<Task>)
      modifies this
      ensures active.Some? ==>
        && timerSeconds == active.value.remainingTime.GetOr(FocusBudget)
        && lastSavedSeconds == timerSeconds && !isRunning
      ensures active.None? ==> State() == old(State()) && lastSavedSeconds == old(lastSavedSeconds)
      ensures writes == old(writes)
      ensures active.Some? && active.value.remainingTime.GetOr(FocusBudget) <= FocusBudget ==> WithinBudget()
    {
      if active.Some? {
        var remaining := active.value.remainingTime.GetOr(FocusBudget);
        timerSeconds := remaining;
        lastSavedSeconds := remaining;
        isRunning := false;
      }
    }

    /** When the timer value changes: with an active task, write the elapsed
        time if `ShouldCheckpoint` holds and remember the value written. */
    method Checkpoint(activeId: Option<TaskId>)
      modifies this
      ensures State() == old(State())
      ensures if activeId.Some? && ShouldCheckpoint(timerSeconds, old(lastSavedSeconds))
        then writes == old(writes) + [SaveState(activeId.value, FocusBudget - timerSeconds, isRunning)]
             && lastSavedSeconds == timerSeconds
        else writes == old(writes) && lastSavedSeconds == old(lastSavedSeconds)
      ensures activeId.Some? ==> -5 < timerSeconds - lastSavedSeconds < 5
      ensures old(WithinBudget()) ==> WithinBudget()
    {
      if activeId.Some? && ShouldCheckpoint(timerSeconds, lastSavedSeconds) {
        writes := writes + [SaveState(activeId.value, FocusBudget - timerSeconds, isRunning)];
        lastSavedSeconds := timerSeconds;
      }
    }

    /** When `isRunning` changes: with an active task, write the elapsed
        time and the running flag. */
    method PersistRunning(activeId: Option<TaskId>)
      modifies this`writes
      ensures writes == old(writes) +
        if activeId.Some? then [SaveState(activeId.value, FocusBudget - timerSeconds, isRunning)] else []
    {
      if activeId.Some? {
        writes := writes + [SaveState(activeId.value, FocusBudget - timerSeconds, isRunning)];
      }
    }

    /** One second of wall-clock time: the interval callback, then the
        effects it triggers in the order they are declared (the checkpoint
        when the value moved, the running-flag write when the timer
        stopped). */
    method OnSecond(activeId: Option<TaskId>)
      modifies this
      ensures State() == Tick(old(State()))
      ensures old(WithinBudget()) ==> WithinBudget()
      ensures var next := Tick(old(State()));
        var saves := next.seconds != old(timerSeconds) && activeId.Some?
                     && ShouldCheckpoint(next.seconds, old(lastSavedSeconds));
        var flips := next.running != old(isRunning) && activeId.Some?;
        && writes == old(writes)
             + (if saves then [SaveState(activeId.value, FocusBudget - next.seconds, next.running)] else [])
             + (if flips then [SaveState(activeId.value, FocusBudget - next.seconds, next.running)] else [])
        && lastSavedSeconds == if saves then next.seconds else old(lastSavedSeconds)
      ensures |old(writes)| <= |writes| <= |old(writes)| + 2 && writes[..|old(writes)|] == old(writes)
      ensures old(isRunning) && !isRunning && activeId.Some? ==>
        |writes| > 0 && writes[|writes| - 1] == SaveState(activeId.value, FocusBudget, false)
    {
      var before := State();
      var next := Tick(before);
      timerSeconds, isRunning := next.seconds, next.running;
      if timerSeconds != before.seconds {
        Checkpoint(activeId);
      }
      if isRunning != before.running {
        PersistRunning(activeId);
      }
    }

    /** The Start/Pause button (disabled without an active task): flip the
        running flag and persist it. */
    method ToggleRunning(activeId: Option<TaskId>)
      modifies this
      ensures activeId.None? ==> State() == old(State()) && writes == old(writes)
      ensures activeId.Some? ==>
        && timerSeconds == old(timerSeconds) && isRunning == !old(isRunning)
        && writes == old(writes) + [SaveState(activeId.value, FocusBudget - timerSeconds, isRunning)]
      ensures lastSavedSeconds == old(lastSavedSeconds)
    {
      if activeId.Some? {
        isRunning := !isRunning;
        PersistRunning(activeId);
      }
    }

    /** Reset: clear the stored timer state of the active task, if any, and
        go back to a full, paused budget. */
    method Reset(activeId: Option<TaskId>)
      modifies this
      ensures timerSeconds == FocusBudget && lastSavedSeconds == FocusBudget && !isRunning
      ensures writes == old(writes) + if activeId.Some? then [ResetState(activeId.value)] else []
      ensures WithinBudget()
    {
      if activeId.Some? {
        writes := writes + [ResetState(activeId.value)];
      }
      timerSeconds, isRunning, lastSavedSeconds := FocusBudget, false, FocusBudget;
    }

    /** Complete: with an active task, report it with the timer as it
        stood, clear its stored timer state and reset; without one, do
        nothing. */
    method Complete(activeId: Option<TaskId>) returns (done: Option<Completion>)
      modifies this
      ensures activeId.None? ==>
        && done.None? && State() == old(State())
        && lastSavedSeconds == old(lastSavedSeconds) && writes == old(writes)
      ensures activeId.Some? ==>
        && done == Some(Completion(activeId.value, old(timerSeconds), old(isRunning)))
        && timerSeconds == FocusBudget && lastSavedSeconds == FocusBudget && !isRunning
        && writes == old(writes) + [ResetState(activeId.value)]
    {
      done := None;
      if activeId.Some? {
        done := Some(Completion(activeId.value, timerSeconds, isRunning));
        writes := writes + [ResetState(activeId.value)];
        timerSeconds, isRunning, lastSavedSeconds := FocusBudget, false, FocusBudget;
      }
    }

    /** When the undo slot or the active id changes: if the pending undo is
        a focus completion of the active task, bring back the recorded
        seconds and running flag. */
    method RestoreOnUndo(undo: Option<UndoAction>, activeTaskId: Option<TaskId>)
      modifies this
      ensures var restores := undo.Some? && undo.value.kind == CompleteFocus && activeTaskId == Some(undo.value.task.id);
        && timerSeconds == (if restores then undo.value.previousTimerSeconds.GetOr(old(timerSeconds)) else old(timerSeconds))
        && isRunning == (if restores then undo.value.previousIsRunning.GetOr(old(isRunning)) else old(isRunning))
      ensures lastSavedSeconds == old(lastSavedSeconds) && writes == old(writes)
    {
      if undo.Some? && undo.value.kind == CompleteFocus && activeTaskId == Some(undo.value.task.id) {
        if undo.value.previousTimerSeconds.Some? {
          timerSeconds := undo.value.previousTimerSeconds.value;
        }
        if undo.value.previousIsRunning.Some? {
          isRunning := undo.value.previousIsRunning.value;
        }
      }
    }
  }
}
