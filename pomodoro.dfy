/**
  The pomodoro timer as a value: the one-second tick of the running interval,
  the settle step the effect takes when the countdown reaches zero, and the
  start, reset and duration controls. Durations are whole minutes; times and
  accumulated study time are seconds.
 */
module Pomodoro {

  datatype Timer = Timer(
    time: int,
    active: bool,
    isBreak: bool,
    count: nat,
    studyTime: nat,
    workMinutes: nat,
    breakMinutes: nat)

  /** The state the planner starts in: a 25-minute work phase, stopped. */
  function Initial(): (t: Timer)
    ensures t.time == t.workMinutes * 60 && !t.active && !t.isBreak
    ensures t.workMinutes == 25 && t.breakMinutes == 5 && t.count == 0 && t.studyTime == 0
  {
    Timer(25 * 60, false, false, 0, 0, 25, 5)
  }

  /** Only a running countdown with time left ticks. */
  predicate Ticking(t: Timer) { t.active && t.time > 0 }

  /** One interval callback: a second less on the clock, a second more of study time outside breaks. */
  function Tick(t: Timer): (r: Timer)
    ensures Ticking(t) ==> r.time == t.time - 1
    ensures Ticking(t) ==> r.studyTime == t.studyTime + (if t.isBreak then 0 else 1)
    ensures Ticking(t) ==> r.(time := t.time, studyTime := t.studyTime) == t
    ensures !Ticking(t) ==> r == t
  {
    if Ticking(t) then t.(time := t.time - 1, studyTime := t.studyTime + (if t.isBreak then 0 else 1)) else t
  }

  /**
    The effect's branch for a countdown at zero, taken whether or not the timer
    is running: a finished work phase counts a pomodoro and loads the break, a
    finished break loads the next work phase, and the timer stops.
   */
  function Settle(t: Timer): (r: Timer)
    ensures t.time == 0 && !t.isBreak ==>
      r == t.(count := t.count + 1, isBreak := true, time := t.breakMinutes * 60, active := false)
    ensures t.time == 0 && t.isBreak ==>
      r == t.(isBreak := false, time := t.workMinutes * 60, active := false)
    ensures t.time != 0 ==> r == t
  {
    if t.time != 0 then t
    else if !t.isBreak then t.(count := t.count + 1, isBreak := true, time := t.breakMinutes * 60, active := false)
    else t.(isBreak := false, time := t.workMinutes * 60, active := false)
  }

  /** `startPomodoro`. */
  function Start(t: Timer): (r: Timer)
    ensures r.active && r.(active := t.active) == t
  {
    t.(active := true)
  }

  /** `resetPomodoro`: back to a stopped, full work phase. */
  function Reset(t: Timer): (r: Timer)
    ensures !r.active && !r.isBreak && r.time == t.workMinutes * 60
    ensures r.count == t.count && r.studyTime == t.studyTime
    ensures r.workMinutes == t.workMinutes && r.breakMinutes == t.breakMinutes
  {
    t.(active := false, isBreak := false, time := t.workMinutes * 60)
  }

  /** The work-duration input: only the setting changes, not the running clock. */
  function SetWork(t: Timer, minutes: nat): (r: Timer)
    ensures r.workMinutes == minutes && r.time == t.time && r.(workMinutes := t.workMinutes) == t
  {
    t.(workMinutes := minutes)
  }

  /** The break-duration input. */
  function SetBreak(t: Timer, minutes: nat): (r: Timer)
    ensures r.breakMinutes == minutes && r.time == t.time && r.(breakMinutes := t.breakMinutes) == t
  {
    t.(breakMinutes := minutes)
  }

  /** `n` interval callbacks in a row. */
  function Ticks(t: Timer, n: nat): Timer
    decreases n
  {
    if n == 0 then t else Ticks(Tick(t), n - 1)
  }

  /** A running countdown with at least `n` seconds left loses exactly `n`, and gains `n` of study time outside breaks. */
  lemma {:induction false} RunTicks(t: Timer, n: nat)
    requires t.active && t.time >= n
    ensures Ticks(t, n) == t.(time := t.time - n, studyTime := t.studyTime + (if t.isBreak then 0 else n))
    decreases n
  {
    if n > 0 {
      RunTicks(Tick(t), n - 1);
    }
  }

  /** Once the countdown is at zero, further ticks do nothing. */
  lemma {:induction false} TicksAtZero(t: Timer, n: nat)
    requires t.time == 0
    ensures Ticks(t, n) == t
    decreases n
  {
    if n > 0 {
      TicksAtZero(Tick(t), n - 1);
    }
  }

  /**
    A fresh work phase, started and left to run `workMinutes * 60` seconds and
    then settled, yields exactly one more pomodoro, the break loaded, the timer
    stopped, and the whole phase added to the study time.
   */
  lemma FullWorkCycle(t: Timer)
    requires Reset(t) == t
    ensures Settle(Ticks(Start(t), t.workMinutes * 60)) ==
      t.(count := t.count + 1, isBreak := true, time := t.breakMinutes * 60, active := false,
         studyTime := t.studyTime + t.workMinutes * 60)
  {
    RunTicks(Start(t), t.workMinutes * 60);
  }

  /** A full break phase adds no study time and leads back to a full work phase. */
  lemma FullBreakCycle(t: Timer)
    requires t.isBreak && t.time == t.breakMinutes * 60
    ensures Settle(Ticks(Start(t), t.breakMinutes * 60)) ==
      t.(isBreak := false, time := t.workMinutes * 60, active := false)
  {
    RunTicks(Start(t), t.breakMinutes * 60);
  }

  /** Starting twice is starting once. */
  lemma StartIdempotent(t: Timer)
    ensures Start(Start(t)) == Start(t)
  {
  }

  /** The countdown never goes below zero. */
  lemma StepsKeepTimeNatural(t: Timer, minutes: nat)
    requires t.time >= 0
    ensures Tick(t).time >= 0 && Settle(t).time >= 0 && Reset(t).time >= 0
    ensures SetWork(t, minutes).time >= 0 && SetBreak(t, minutes).time >= 0
  {
  }

  /**
    The countdown is not bounded by the current durations: lowering the work
    duration mid-phase leaves the clock above the new phase length.
   */
  lemma LoweringWorkLeavesClockAbove(t: Timer, minutes: nat)
    requires t == Initial() && minutes < 25
    ensures SetWork(t, minutes).time > SetWork(t, minutes).workMinutes * 60
    ensures SetWork(t, minutes).time > SetWork(t, minutes).breakMinutes * 60
  {
  }
}
