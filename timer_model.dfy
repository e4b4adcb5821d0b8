/**
 * The Pomodoro timer state machine of `TimerModel.swift`.
 *
 * The one-second `DispatchSourceTimer` is the flag `ticking` (a live timer
 * exists) together with the method `Tick`, which is what the timer's event
 * handler runs each second. The calls into the notification manager and the
 * sound player are recorded, in order, in the ghost log `log`.
 */
module Timer {
  import opened Strings

  datatype Mode = Focus | ShortBreak | LongBreak | Custom

  datatype State = Idle | Running | Paused

  /** An outbound call to a collaborator of the timer. */
  datatype Event =
    | Cancel                                 // notificationManager.cancelPending()
    | Schedule(after: int, message: string)  // notificationManager.scheduleTimerNotification(after:message:)
    | Deliver(message: string)               // notificationManager.deliverCompletionNotification(message:)
    | Sound                                  // soundPlayer.playPenguin()

  const AllModes: seq<Mode> := [Focus, ShortBreak, LongBreak, Custom]

  const Penguin: char := '\U{1F427}'

  /** What the menu bar shows while the timer is not running. */
  const IdleLabel: string := [Penguin] + " Idle"

  function DisplayName(mode: Mode): string {
    match mode
    case Focus => "Focus"
    case ShortBreak => "Short Break"
    case LongBreak => "Long Break"
    case Custom => "Custom"
  }

  function CompletionMessage(mode: Mode): string {
    match mode
    case Focus => "Focus session complete! Time for a break."
    case ShortBreak => "Short break wrapped up. Ready to refocus?"
    case LongBreak => "Long break finished. Back to the iceberg!"
    case Custom => "Custom timer finished."
  }

  /** Every mode is listed once, and every notification tells which mode finished. */
  lemma ModesAreTold()
    ensures forall m: Mode :: m in AllModes
    ensures |AllModes| == 4
    ensures forall m1: Mode, m2: Mode :: m1 != m2 ==>
      DisplayName(m1) != DisplayName(m2) && CompletionMessage(m1) != CompletionMessage(m2)
  {
    forall m: Mode
      ensures m in AllModes
    {
      var j := ModeIndex(m);
    }
  }

  /** Where `mode` sits in `AllModes`. */
  function ModeIndex(mode: Mode): (j: nat)
    ensures j < |AllModes| && AllModes[j] == mode
  {
    match mode
    case Focus => 0
    case ShortBreak => 1
    case LongBreak => 2
    case Custom => 3
  }

  function Max(a: int, b: int): int {
    if a < b then b else a
  }

  class TimerModel {
    var currentMode: Mode
    var state: State
    var remaining: int
    var durationMinutes: map<Mode, int>
    var cyclesCompleted: int
    /** `timer != nil`: a one-second ticker is live. */
    var ticking: bool
    /** The calls made to the notification manager and the sound player. */
    ghost var log: seq<Event>

    /**
     * The ticker runs exactly while the state is running, there is always
     * time left on the clock, and the cycle count is a count.
     */
    ghost predicate Valid()
      reads this
    {
      (ticking <==> state == Running) && 1 <= remaining && 0 <= cyclesCompleted
    }

    constructor ()
      ensures Valid()
      ensures currentMode == Focus && state == Idle && remaining == 1500 && cyclesCompleted == 0
      ensures durationMinutes == map[Focus := 25, ShortBreak := 5, LongBreak := 15, Custom := 20]
      ensures !ticking && log == []
    {
      var defaults: map<Mode, int> := map[];
      defaults := defaults[Focus := 25];
      defaults := defaults[ShortBreak := 5];
      defaults := defaults[LongBreak := 15];
      defaults := defaults[Custom := 20];
      durationMinutes := defaults;
      currentMode := Focus;
      remaining := (if Focus in defaults then defaults[Focus] else 25) * 60;
      state := Idle;
      cyclesCompleted := 0;
      ticking := false;
      log := [];
    }

    /** The configured length of `mode` in minutes, never below one. */
    function Duration(mode: Mode): (minutes: int)
      reads this
      ensures 1 <= minutes
      ensures mode in durationMinutes && 1 <= durationMinutes[mode] ==> minutes == durationMinutes[mode]
      ensures mode !in durationMinutes ==> minutes == 1
    {
      Max(1, if mode in durationMinutes then durationMinutes[mode] else 1)
    }

    /** The remaining time as "mm:ss". */
    function FormattedRemaining(): string
      reads this
    {
      Clock(remaining)
    }

    /** The countdown in the menu bar while running; "Idle" otherwise. */
    function MenuBarLabel(): (s: string)
      reads this
      ensures s == IdleLabel <==> state != Running
      ensures state == Running ==> 2 <= |s| && s[..2] == [Penguin, ' '] && s[2..] == FormattedRemaining()
    {
      if state == Running then
        var shown := [Penguin] + " " + FormattedRemaining();
        assert shown[2..] == FormattedRemaining();
        assert shown[2] != IdleLabel[2];
        shown
      else
        IdleLabel
    }

    /** A fresh timer shows 25 minutes on its clock. */
    lemma DefaultClock()
      requires remaining == 1500
      ensures FormattedRemaining() == "25:00"
    {
      assert Digits(25) == "25" && Digits(0) == "0";
      assert Pad2(25) == "25" && Pad2(0) == "00";
      assert TruncDiv(1500, 60) == 25 && TruncRem(1500, 60) == 0;
    }

    method CancelTimer()
      modifies this`ticking
      ensures !ticking
    {
      ticking := false;
    }

    method CreateTimer()
      modifies this`ticking
      ensures ticking
    {
      CancelTimer();
      ticking := true;
    }

    method SetMode(mode: Mode)
      requires Valid()
      modifies this
      ensures Valid()
      ensures mode == old(currentMode) ==> unchanged(this)
      ensures mode != old(currentMode) ==>
        currentMode == mode && state == Idle && !ticking
        && remaining == Duration(mode) * 60 && log == old(log) + [Cancel]
      ensures durationMinutes == old(durationMinutes) && cyclesCompleted == old(cyclesCompleted)
    {
      if mode == currentMode {
        return;
      }
      CancelTimer();
      log := log + [Cancel];
      currentMode := mode;
      remaining := Duration(mode) * 60;
      state := Idle;
    }

    /**
     * Starts or resumes the countdown, reloading the clock if it ran out.
     * `QuickStart` calls this between updates, so it does not ask for `Valid()`.
     */
    method Start()
      modifies this
      ensures old(state) == Running ==> unchanged(this)
      ensures old(state) != Running ==>
        state == Running && ticking
        && remaining == (if old(remaining) > 0 then old(remaining) else Duration(currentMode) * 60)
        && log == old(log) + [Cancel, Schedule(remaining, CompletionMessage(currentMode))]
      ensures currentMode == old(currentMode) && durationMinutes == old(durationMinutes)
      ensures cyclesCompleted == old(cyclesCompleted)
      ensures old(state) != Running ==> 1 <= remaining
      ensures old(Valid()) ==> Valid()
    {
      if state == Running {
        return;
      }
      if remaining <= 0 {
        remaining := Duration(currentMode) * 60;
      }
      log := log + [Cancel];
      log := log + [Schedule(remaining, CompletionMessage(currentMode))];
      CreateTimer();
      state := Running;
    }

    method Pause()
      requires Valid()
      modifies this
      ensures Valid()
      ensures old(state) != Running ==> unchanged(this)
      ensures old(state) == Running ==>
        state == Paused && !ticking && log == old(log) + [Cancel]
      ensures remaining == old(remaining) && currentMode == old(currentMode)
      ensures durationMinutes == old(durationMinutes) && cyclesCompleted == old(cyclesCompleted)
    {
      if state != Running {
        return;
      }
      CancelTimer();
      state := Paused;
      log := log + [Cancel];
    }

    method Reset()
      requires Valid()
      modifies this
      ensures Valid()
      ensures state == Idle && !ticking && remaining == Duration(currentMode) * 60
      ensures log == old(log) + [Cancel]
      ensures currentMode == old(currentMode) && durationMinutes == old(durationMinutes)
      ensures cyclesCompleted == old(cyclesCompleted)
    {
      CancelTimer();
      remaining := Duration(currentMode) * 60;
      state := Idle;
      log := log + [Cancel];
    }

    /** Runs a custom timer of `minutes` (at least one) right away. */
    method QuickStart(minutes: int)
      requires Valid()
      modifies this
      ensures Valid()
      ensures currentMode == Custom && state == Running && ticking
      ensures durationMinutes == old(durationMinutes)[Custom := Max(1, minutes)]
      ensures Duration(Custom) == Max(1, minutes)
      ensures remaining == Max(1, minutes) * 60
      ensures log == old(log) + [Cancel, Schedule(remaining, CompletionMessage(Custom))]
      ensures cyclesCompleted == old(cyclesCompleted)
    {
      UpdateDuration(Custom, minutes);
      currentMode := Custom;
      remaining := minutes * 60;
      state := Idle;
      Start();
    }

    /**
     * Stores the length of `mode`, clamped to at least a minute; the clock
     * follows at once when `mode` is current and not running.
     */
    method UpdateDuration(mode: Mode, minutes: int)
      requires Valid()
      modifies this
      ensures Valid()
      ensures durationMinutes == old(durationMinutes)[mode := Max(1, minutes)]
      ensures Duration(mode) == Max(1, minutes)
      ensures forall m :: m != mode ==> Duration(m) == old(Duration(m))
      ensures remaining == (if mode == currentMode && state != Running then Max(1, minutes) * 60
                            else old(remaining))
      ensures currentMode == old(currentMode) && state == old(state) && ticking == old(ticking)
      ensures cyclesCompleted == old(cyclesCompleted) && log == old(log)
    {
      var clamped := Max(1, minutes);
      durationMinutes := durationMinutes[mode := clamped];
      if mode == currentMode && state != Running {
        remaining := clamped * 60;
      }
    }

    /**
     * One second of the ticker. The handler of a cancelled ticker is the
     * empty closure, so a tick that arrives after cancellation does nothing.
     * Otherwise the clock goes down by one second and, when it reaches zero,
     * the interval completes.
     */
    method Tick()
      requires Valid()
      modifies this
      ensures Valid()
      ensures !old(ticking) ==> unchanged(this)
      ensures old(ticking) && old(remaining) > 1 ==>
        remaining == old(remaining) - 1 && state == old(state) && ticking
        && log == old(log) && cyclesCompleted == old(cyclesCompleted)
      ensures old(ticking) && old(remaining) <= 1 ==> Completed(old(cyclesCompleted), old(log))
      ensures currentMode == old(currentMode) && durationMinutes == old(durationMinutes)
    {
      if !ticking {
        return;
      }
      // `guard remaining > 0 else { completeTimer() }` followed by the
      // decrement and its own completion check, written as two steps.
      if remaining > 0 {
        remaining := remaining - 1;
      }
      if remaining <= 0 {
        CompleteTimer();
      }
    }

    /**
     * The state an interval leaves behind when it completes: the ticker is
     * stopped, the collaborators were told in order (cancel the pending
     * notification, play the sound, deliver the completion message of the
     * mode), a focus interval was counted, and the mode is ready to run again.
     */
    ghost predicate Completed(cyclesBefore: int, logBefore: seq<Event>)
      reads this
    {
      !ticking && state == Idle
      && log == logBefore + [Cancel, Sound, Deliver(CompletionMessage(currentMode))]
      && cyclesCompleted == cyclesBefore + (if currentMode == Focus then 1 else 0)
      && remaining == Duration(currentMode) * 60
    }

    method CompleteTimer()
      modifies this
      ensures Completed(old(cyclesCompleted), old(log))
      ensures currentMode == old(currentMode) && durationMinutes == old(durationMinutes)
    {
      CancelTimer();
      log := log + [Cancel, Sound, Deliver(CompletionMessage(currentMode))];
      if currentMode == Focus {
        cyclesCompleted := cyclesCompleted + 1;
      }
      remaining := Duration(currentMode) * 60;
      state := Idle;
    }
  }
}
