/**
  Timetable generation: one slot per subject, in subject order, laid end to
  end from 9 AM. Each slot lasts the day's study minutes shared among the
  subjects, but never less than half an hour.
 */
module Timetable {
  import opened Format
  import opened Records

  datatype TimeSlot = TimeSlot(subject: string, startTime: string, endTime: string, duration: int, completed: bool)

  /** `slotDuration`: the study minutes per subject, at least 30. */
  function SlotMinutes(studyHours: int, n: nat): (d: real)
    requires n > 0
    ensures d >= 30.0 && d >= (studyHours * 60) as real / n as real
    ensures d == 30.0 || d == (studyHours * 60) as real / n as real
  {
    var share := (studyHours * 60) as real / n as real;
    if 30.0 >= share then 30.0 else share
  }

  /** The hour slot `i` starts at: `i` slots of `d` minutes after 9 AM. */
  function SlotStart(i: nat, d: real): (r: real)
    ensures i == 0 ==> r == 9.0
    ensures d >= 0.0 ==> r >= 9.0
    ensures (r - 9.0) * 60.0 == i as real * d
  {
    9.0 + i as real * d / 60.0
  }

  /** The hour slot `i` ends at, which is when the next slot starts. */
  function SlotEnd(i: nat, d: real): (r: real)
    ensures r == SlotStart(i + 1, d)
    ensures d > 0.0 ==> r > SlotStart(i, d)
  {
    assert (i + 1) as real * d == i as real * d + d;
    SlotStart(i, d) + d / 60.0
  }

  /** The slot built for the subject at position `i`. */
  function Slot(subject: Subject, i: nat, d: real, completedToday: seq<int>): (r: TimeSlot)
    ensures r.subject == subject.name
    ensures d >= 30.0 ==> r.duration >= 30
    ensures r.completed <==> subject.id in completedToday
  {
    TimeSlot(subject.name, FormatTimeSlot(SlotStart(i, d)), FormatTimeSlot(SlotEnd(i, d)), Round(d),
             subject.id in completedToday)
  }

  /** What every generated list of slots satisfies. */
  lemma SlotsFacts(slots: seq<TimeSlot>, subjects: seq<Subject>, d: real, completedToday: seq<int>)
    requires |slots| == |subjects| && d >= 30.0
    requires forall i :: 0 <= i < |slots| ==> slots[i] == Slot(subjects[i], i, d, completedToday)
    ensures forall i :: 0 <= i < |slots| ==> slots[i].subject == subjects[i].name
    ensures forall i :: 0 <= i < |slots| ==> slots[i].duration >= 30
    ensures forall i :: 0 <= i < |slots| ==> (slots[i].completed <==> subjects[i].id in completedToday)
    ensures forall i :: 0 <= i < |slots| - 1 ==> slots[i].endTime == slots[i + 1].startTime
  {
    forall k | 0 <= k < |slots| - 1
      ensures slots[k].endTime == slots[k + 1].startTime
    {
      assert SlotEnd(k, d) == SlotStart(k + 1, d);
    }
  }

  /** Pushing the next subject's slot keeps every slot the one built for its subject. */
  lemma PushSlot(slots: seq<TimeSlot>, subjects: seq<Subject>, d: real, completedToday: seq<int>)
    requires |slots| < |subjects|
    requires forall k :: 0 <= k < |slots| ==> slots[k] == Slot(subjects[k], k, d, completedToday)
    ensures forall k :: 0 <= k < |slots| + 1 ==>
      (slots + [Slot(subjects[|slots|], |slots|, d, completedToday)])[k] == Slot(subjects[k], k, d, completedToday)
  {
    var pushed := slots + [Slot(subjects[|slots|], |slots|, d, completedToday)];
    forall k | 0 <= k < |slots| + 1
      ensures pushed[k] == Slot(subjects[k], k, d, completedToday)
    {
      if k < |slots| {
        assert pushed[k] == slots[k];
      } else {
        assert k == |slots|;
      }
    }
  }

  /** The `forEach`/`push` loop of `generateTimetable`, for a non-empty subject list. */
  method BuildSlots(subjects: seq<Subject>, studyHours: int, completedToday: seq<int>) returns (slots: seq<TimeSlot>)
    requires |subjects| > 0
    ensures |slots| == |subjects|
    ensures forall i :: 0 <= i < |slots| ==>
      slots[i] == Slot(subjects[i], i, SlotMinutes(studyHours, |subjects|), completedToday)
    ensures forall i :: 0 <= i < |slots| ==> slots[i].subject == subjects[i].name
    ensures forall i :: 0 <= i < |slots| ==> slots[i].duration >= 30
    ensures forall i :: 0 <= i < |slots| ==> (slots[i].completed <==> subjects[i].id in completedToday)
    ensures forall i :: 0 <= i < |slots| - 1 ==> slots[i].endTime == slots[i + 1].startTime
  {
    var d := SlotMinutes(studyHours, |subjects|);
    slots := [];
    var i := 0;
    while i < |subjects|
      invariant 0 <= i <= |subjects| && |slots| == i
      invariant forall k :: 0 <= k < i ==> slots[k] == Slot(subjects[k], k, d, completedToday)
    {
      PushSlot(slots, subjects, d, completedToday);
      slots := slots + [Slot(subjects[i], i, d, completedToday)];
      i := i + 1;
    }
    SlotsFacts(slots, subjects, d, completedToday);
  }

  /** The last slot ends `n * d` minutes after 9 AM. */
  lemma LastSlotEnd(n: nat, d: real)
    requires n > 0
    ensures SlotEnd(n - 1, d) == 9.0 + n as real * d / 60.0
  {
  }

  /** A share below a bound when the total is below the bound times the parts. */
  lemma ShareBelow(total: real, n: real, bound: real)
    requires n > 0.0 && total < bound * n
    ensures total / n < bound
  {
    var q := total / n;
    assert q * n == total;
  }

  /** A share at least the bound when the total is at least the bound times the parts. */
  lemma ShareAtLeast(total: real, n: real, bound: real)
    requires n > 0.0 && total >= bound * n
    ensures total / n >= bound
  {
    var q := total / n;
    assert q * n == total;
  }

  /** When every subject gets at least half an hour, the day ends exactly `studyHours` after 9 AM. */
  lemma DayFitsStudyHours(studyHours: int, n: nat)
    requires n > 0 && studyHours * 60 >= 30 * n
    ensures SlotEnd(n - 1, SlotMinutes(studyHours, n)) == 9.0 + studyHours as real
  {
    var d := SlotMinutes(studyHours, n);
    var share := (studyHours * 60) as real / n as real;
    ShareAtLeast((studyHours * 60) as real, n as real, 30.0);
    LastSlotEnd(n, d);
    assert n as real * share == (studyHours * 60) as real;
  }

  /** With too many subjects for the hours, every slot is half an hour and the day runs past `studyHours`. */
  lemma CrowdedDayOverruns(studyHours: int, n: nat)
    requires n > 0 && studyHours * 60 < 30 * n
    ensures SlotMinutes(studyHours, n) == 30.0
    ensures SlotEnd(n - 1, 30.0) == 9.0 + n as real / 2.0
    ensures SlotEnd(n - 1, 30.0) > 9.0 + studyHours as real
  {
    ShareBelow((studyHours * 60) as real, n as real, 30.0);
    LastSlotEnd(n, 30.0);
  }

  /** Two subjects over four hours: 9:00 AM to 11:00 AM, then 11:00 AM to 1:00 PM, two hours each. */
  lemma TwoSubjectsFourHours(math: Subject, physics: Subject)
    ensures Slot(math, 0, SlotMinutes(4, 2), []) == TimeSlot(math.name, "9:00 AM", "11:00 AM", 120, false)
    ensures Slot(physics, 1, SlotMinutes(4, 2), []) == TimeSlot(physics.name, "11:00 AM", "1:00 PM", 120, false)
  {
    assert SlotMinutes(4, 2) == 120.0;
    assert SlotStart(0, 120.0) == 9.0 && SlotEnd(0, 120.0) == 11.0;
    assert SlotStart(1, 120.0) == 11.0 && SlotEnd(1, 120.0) == 13.0;
    TimeSlotExamples();
  }
}
