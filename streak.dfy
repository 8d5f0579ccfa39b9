/**
  Streak bookkeeping. Instants are local milliseconds; a day is the number of
  whole 86400000-ms days since the epoch, which is what `toDateString` names
  and what `new Date(toDateString())` turns back into that day's midnight.

  The streak effect compares `diffDays`, the distance from the stored day's
  midnight to now rounded up to whole days, with 1. `CheckAsWritten` is that
  check; `CheckByCalendar` counts calendar days instead, which is what the
  check evidently means (see `NextDayResetsAsWritten`).
 */
module Streak {
  import opened Wrappers

  const MsPerDay: int := 86400000

  /** The day an instant falls on. */
  function DayOf(now: int): (d: int)
    ensures d * MsPerDay <= now < d * MsPerDay + MsPerDay
  {
    now / MsPerDay
  }

  /** The first instant of a day. */
  function Midnight(day: int): (t: int)
    ensures DayOf(t) == day
  {
    day * MsPerDay
  }

  function Abs(x: int): nat { if x < 0 then -x else x }

  /** `Math.ceil(a / b)` on naturals. */
  function CeilDiv(a: nat, b: nat): (r: nat)
    requires b > 0
    ensures r * b - b < a <= r * b
  {
    (a + b - 1) / b
  }

  /** `diffDays`: the distance from the stored day's midnight to now, in days rounded up. */
  function DiffDays(now: int, day: int): (r: nat)
    ensures r * MsPerDay - MsPerDay < Abs(now - Midnight(day)) <= r * MsPerDay
  {
    CeilDiv(Abs(now - Midnight(day)), MsPerDay)
  }

  /**
    `diffDays` is the calendar distance, plus one whenever the stored day is not
    after today and now is past midnight.
   */
  lemma DiffDaysCalendar(now: int, day: int)
    ensures DiffDays(now, day) ==
      Abs(DayOf(now) - day) + (if DayOf(now) >= day && now != Midnight(DayOf(now)) then 1 else 0)
  {
    var t := DayOf(now);
    var r := DiffDays(now, day);
    var k := if t >= day && now != Midnight(t) then t - day + 1 else Abs(t - day);
    assert k * MsPerDay - MsPerDay < Abs(now - Midnight(day)) <= k * MsPerDay;
  }

  /** What the streak effect does to the state. */
  datatype Effect = NoChange | ClearToday | ResetStreak

  /** The streak effect as written: a stored day more than one `diffDays` away resets the streak. */
  function CheckAsWritten(last: Option<int>, now: int): (e: Effect)
    ensures last.None? ==> e == NoChange
    ensures last.Some? ==> (e == ResetStreak <==> DiffDays(now, last.value) > 1)
    ensures last.Some? ==> (e == ClearToday <==> DiffDays(now, last.value) == 1 && last.value != DayOf(now))
  {
    match last
    case None => NoChange
    case Some(day) =>
      var diff := DiffDays(now, day);
      if diff > 1 then ResetStreak
      else if diff == 1 && day != DayOf(now) then ClearToday
      else NoChange
  }

  /**
    The streak and today's completions once an effect has been applied: the
    check never raises the streak; it keeps it or drops it to 0, and keeps
    today's completions or empties them, emptying them whenever it drops a
    streak.
   */
  function Apply(e: Effect, streak: nat, completed: seq<int>): (r: (nat, seq<int>))
    ensures r.0 == streak || r.0 == 0
    ensures r.1 == completed || r.1 == []
    ensures r.0 < streak ==> r.1 == []
    ensures e != NoChange ==> r.1 == []
  {
    match e
    case NoChange => (streak, completed)
    case ClearToday => (streak, [])
    case ResetStreak => (0, [])
  }

  /** The check reads only the stored day and the clock, so running it again right after changes nothing more. */
  lemma CheckTwiceIsCheckOnce(last: Option<int>, now: int, streak: nat, completed: seq<int>)
    ensures var once := Apply(CheckAsWritten(last, now), streak, completed);
      Apply(CheckAsWritten(last, now), once.0, once.1) == once
    ensures var once := Apply(CheckByCalendar(last, now), streak, completed);
      Apply(CheckByCalendar(last, now), once.0, once.1) == once
  {
  }

  /** On the stored day itself the check changes nothing. */
  lemma SameDayNoChange(day: int, now: int)
    requires DayOf(now) == day
    ensures CheckAsWritten(Some(day), now) == NoChange
  {
    DiffDaysCalendar(now, day);
  }

  /** Two or more days after the stored day, the streak is reset. */
  lemma GapResetsAsWritten(day: int, now: int)
    requires DayOf(now) >= day + 2
    ensures CheckAsWritten(Some(day), now) == ResetStreak
  {
    DiffDaysCalendar(now, day);
  }

  /**
    The day after the stored day, any instant past midnight resets the streak:
    studying on consecutive days never builds a streak across a reload.
   */
  lemma NextDayResetsAsWritten(day: int, now: int)
    requires DayOf(now) == day + 1 && now != Midnight(day + 1)
    ensures DiffDays(now, day) == 2
    ensures CheckAsWritten(Some(day), now) == ResetStreak
  {
    DiffDaysCalendar(now, day);
  }

  /** Studied on day 20000, reopened at 9 AM the next day: the streak is reset. */
  lemma NextMorningExample()
    ensures CheckAsWritten(Some(20000), Midnight(20001) + 9 * 3600000) == ResetStreak
  {
    NextDayResetsAsWritten(20000, Midnight(20001) + 9 * 3600000);
  }

  /** The check on calendar days: a gap of more than one day resets, a gap of one day starts a new day. */
  function CheckByCalendar(last: Option<int>, now: int): (e: Effect)
    ensures last.None? ==> e == NoChange
    ensures last.Some? ==> (e == ResetStreak <==> Abs(DayOf(now) - last.value) > 1)
    ensures last.Some? ==> (e == ClearToday <==> Abs(DayOf(now) - last.value) == 1)
  {
    match last
    case None => NoChange
    case Some(day) =>
      var gap := Abs(DayOf(now) - day);
      if gap > 1 then ResetStreak
      else if gap == 1 then ClearToday
      else NoChange
  }

  /** By calendar, the day after keeps the streak and only starts a new completion set. */
  lemma NextDayKeepsStreakByCalendar(day: int, now: int)
    requires DayOf(now) == day + 1
    ensures CheckByCalendar(Some(day), now) == ClearToday
  {
  }

  /** The two checks agree at midnight, and on every day but the one after the stored day. */
  lemma CalendarAgreesAsWritten(day: int, now: int)
    requires now == Midnight(DayOf(now)) || DayOf(now) != day + 1
    ensures CheckAsWritten(Some(day), now) == CheckByCalendar(Some(day), now)
  {
    DiffDaysCalendar(now, day);
  }

  /** The streak count and the day it was last extended. */
  datatype Tally = Tally(streak: nat, last: Option<int>)

  /** The streak part of `markComplete`: the first completion of a day extends the streak and records the day. */
  function RecordStudy(t: Tally, today: int): (r: Tally)
    ensures r.last == Some(today)
    ensures r.streak == (if t.last == Some(today) then t.streak else t.streak + 1)
  {
    if t.last != Some(today) then Tally(t.streak + 1, Some(today)) else t
  }

  /** `k` completions on one day. */
  function RecordMany(t: Tally, today: int, k: nat): Tally
    decreases k
  {
    if k == 0 then t else RecordMany(RecordStudy(t, today), today, k - 1)
  }

  /** However many completions a day sees, the streak grows by one at most, and by one exactly when the day is new. */
  lemma {:induction false} OneIncrementPerDay(t: Tally, today: int, k: nat)
    requires k > 0
    ensures RecordMany(t, today, k).streak == (if t.last == Some(today) then t.streak else t.streak + 1)
    ensures RecordMany(t, today, k).last == Some(today)
    decreases k
  {
    if k > 1 {
      OneIncrementPerDay(RecordStudy(t, today), today, k - 1);
    }
  }

  /** The effect that a completion triggers, run on the same day, changes nothing. */
  lemma CheckAfterRecordIsNoOp(t: Tally, now: int)
    ensures CheckAsWritten(RecordStudy(t, DayOf(now)).last, now) == NoChange
  {
    SameDayNoChange(DayOf(now), now);
  }
}
