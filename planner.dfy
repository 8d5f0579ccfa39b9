/**
  The planner component's state and its handlers. Each field is one piece of
  component state; each method is one handler or one step of an effect, and
  changes only the fields it names. Clock readings (`Date.now()`, which also
  supplies ids and timestamps) and confirmation dialogs are parameters.
 */
module Planner {
  import opened Wrappers
  import opened Text
  import opened Records
  import opened Timetable
  import Streak
  import Pomodoro
  import Assistant

  datatype Notifications = Notifications(dailyReminders: bool, revisionAlerts: bool, testAlerts: bool)

  class StudyPlanner {
    var subjects: seq<Subject>
    var studyHours: int
    var timetable: seq<TimeSlot>
    var streak: nat
    var completedToday: seq<int>
    /** The day of the latest completion. */
    var lastStudyDate: Option<int>
    var tasks: seq<Task>
    var studyTimeToday: nat
    var pomodoroActive: bool
    var pomodoroTime: int
    var pomodoroCount: nat
    var workDuration: nat
    var breakDuration: nat
    var isBreak: bool
    var notes: seq<Note>
    var documents: seq<Document>
    var aiMessages: seq<Message>
    var notifications: Notifications

    /** What every handler keeps: progress is a percentage, the slider's range, a clock that never runs negative, no streak without a study day. */
    predicate Valid()
      reads this
    {
      && ProgressInRange(subjects)
      && 1 <= studyHours <= 12
      && pomodoroTime >= 0
      && (lastStudyDate.None? ==> streak == 0)
    }

    /** The pomodoro fields as one timer value. */
    function Timer(): Pomodoro.Timer
      reads this
    {
      Pomodoro.Timer(pomodoroTime, pomodoroActive, isBreak, pomodoroCount, studyTimeToday, workDuration, breakDuration)
    }

    /** The initial component state. */
    constructor ()
      ensures Valid()
      ensures subjects == [] && tasks == [] && notes == [] && documents == [] && aiMessages == []
      ensures timetable == [] && completedToday == [] && streak == 0 && lastStudyDate.None?
      ensures studyHours == 4 && Timer() == Pomodoro.Initial()
      ensures notifications == Notifications(true, true, true)
    {
      subjects := [];
      studyHours := 4;
      timetable := [];
      streak := 0;
      completedToday := [];
      lastStudyDate := None;
      tasks := [];
      studyTimeToday := 0;
      pomodoroActive := false;
      pomodoroTime := 25 * 60;
      pomodoroCount := 0;
      workDuration := 25;
      breakDuration := 5;
      isBreak := false;
      notes := [];
      documents := [];
      aiMessages := [];
      notifications := Notifications(true, true, true);
    }

    /** `addSubject`: a name with some non-blank character adds a new subject at the end. */
    method AddSubject(name: string, now: int)
      requires Valid()
      modifies this`subjects
      ensures Valid()
      ensures HasContent(name) ==> subjects == old(subjects) + [NewSubject(now, name)]
      ensures !HasContent(name) ==> subjects == old(subjects)
    {
      if HasContent(name) {
        subjects := subjects + [NewSubject(now, name)];
      }
    }

    /** `deleteSubject`. */
    method DeleteSubject(id: int)
      requires Valid()
      modifies this`subjects
      ensures Valid()
      ensures subjects == RemoveSubject(old(subjects), id)
    {
      subjects := RemoveSubject(subjects, id);
    }

    /** `updatePriority`. */
    method UpdatePriority(id: int, priority: Priority)
      requires Valid()
      modifies this`subjects
      ensures Valid()
      ensures subjects == SetPriority(old(subjects), id, priority)
    {
      subjects := SetPriority(subjects, id, priority);
    }

    /**
      `markComplete`: the first subject with the name, unless already completed
      today, is added to today's completions, extends the streak on the first
      completion of the day, and has its progress raised.
     */
    method MarkComplete(name: string, now: int)
      requires Valid()
      modifies this`subjects, this`completedToday, this`streak, this`lastStudyDate
      ensures Valid()
      ensures var found := FindByName(old(subjects), name);
        found.None? || old(subjects)[found.value].id in old(completedToday) ==>
          subjects == old(subjects) && completedToday == old(completedToday)
          && streak == old(streak) && lastStudyDate == old(lastStudyDate)
      ensures var found := FindByName(old(subjects), name);
        found.Some? && old(subjects)[found.value].id !in old(completedToday) ==>
          var id := old(subjects)[found.value].id;
          && completedToday == old(completedToday) + [id]
          && Streak.Tally(streak, lastStudyDate) == Streak.RecordStudy(Streak.Tally(old(streak), old(lastStudyDate)), Streak.DayOf(now))
          && subjects == Revise(old(subjects), id, now)
    {
      var found := FindByName(subjects, name);
      if found.Some? && subjects[found.value].id !in completedToday {
        var id := subjects[found.value].id;
        completedToday := completedToday + [id];
        var today := Streak.DayOf(now);
        if lastStudyDate != Some(today) {
          streak := streak + 1;
          lastStudyDate := Some(today);
        }
        ReviseKeepsProgressInRange(subjects, id, now);
        subjects := Revise(subjects, id, now);
      }
    }

    /** The streak effect, as written, run when `lastStudyDate` has changed. */
    method CheckStreak(now: int)
      requires Valid()
      modifies this`streak, this`completedToday
      ensures Valid()
      ensures (streak, completedToday) == Streak.Apply(Streak.CheckAsWritten(lastStudyDate, now), old(streak), old(completedToday))
    {
      match Streak.CheckAsWritten(lastStudyDate, now)
      case ResetStreak =>
        streak := 0;
        completedToday := [];
      case ClearToday =>
        completedToday := [];
      case NoChange =>
    }

    /** The streak effect counting calendar days. */
    method CheckStreakByCalendar(now: int)
      requires Valid()
      modifies this`streak, this`completedToday
      ensures Valid()
      ensures (streak, completedToday) == Streak.Apply(Streak.CheckByCalendar(lastStudyDate, now), old(streak), old(completedToday))
    {
      match Streak.CheckByCalendar(lastStudyDate, now)
      case ResetStreak =>
        streak := 0;
        completedToday := [];
      case ClearToday =>
        completedToday := [];
      case NoChange =>
    }

    /** The study-hours slider. */
    method SetStudyHours(hours: int)
      requires Valid() && 1 <= hours <= 12
      modifies this`studyHours
      ensures Valid() && studyHours == hours
    {
      studyHours := hours;
    }

    /** `generateTimetable`: nothing without subjects; otherwise one slot per subject replaces the timetable. */
    method GenerateTimetable() returns (generated: bool)
      requires Valid()
      modifies this`timetable
      ensures Valid()
      ensures generated <==> subjects != []
      ensures !generated ==> timetable == old(timetable)
      ensures generated ==> |timetable| == |subjects|
      ensures generated ==> forall i :: 0 <= i < |timetable| ==>
        timetable[i] == Slot(subjects[i], i, SlotMinutes(studyHours, |subjects|), completedToday)
      ensures generated ==> forall i :: 0 <= i < |timetable| - 1 ==> timetable[i].endTime == timetable[i + 1].startTime
    {
      if |subjects| == 0 {
        return false;
      }
      timetable := BuildSlots(subjects, studyHours, completedToday);
      return true;
    }

    /** `addTask`: task text with some non-blank character adds a new, open task at the end. */
    method AddTask(text: string, category: Category, now: int)
      requires Valid()
      modifies this`tasks
      ensures Valid()
      ensures HasContent(text) ==> tasks == old(tasks) + [NewTask(now, text, category, now)]
      ensures !HasContent(text) ==> tasks == old(tasks)
    {
      if HasContent(text) {
        tasks := tasks + [NewTask(now, text, category, now)];
      }
    }

    /** `toggleTask`. */
    method ToggleTask(id: int)
      requires Valid()
      modifies this`tasks
      ensures Valid()
      ensures tasks == Records.ToggleTask(old(tasks), id)
    {
      tasks := Records.ToggleTask(tasks, id);
    }

    /** `deleteTask`. */
    method DeleteTask(id: int)
      requires Valid()
      modifies this`tasks
      ensures Valid()
      ensures tasks == RemoveTask(old(tasks), id)
    {
      tasks := RemoveTask(tasks, id);
    }

    /** `startPomodoro`. */
    method StartPomodoro()
      requires Valid()
      modifies this`pomodoroActive
      ensures Valid()
      ensures Timer() == Pomodoro.Start(old(Timer()))
    {
      pomodoroActive := true;
    }

    /** `resetPomodoro`. */
    method ResetPomodoro()
      requires Valid()
      modifies this`pomodoroActive, this`isBreak, this`pomodoroTime
      ensures Valid()
      ensures Timer() == Pomodoro.Reset(old(Timer()))
    {
      pomodoroActive := false;
      isBreak := false;
      pomodoroTime := workDuration * 60;
    }

    /** One callback of the running interval; nothing when the timer is stopped or at zero. */
    method Tick()
      requires Valid()
      modifies this`pomodoroTime, this`studyTimeToday
      ensures Valid()
      ensures Timer() == Pomodoro.Tick(old(Timer()))
    {
      if pomodoroActive && pomodoroTime > 0 {
        pomodoroTime := pomodoroTime - 1;
        if !isBreak {
          studyTimeToday := studyTimeToday + 1;
        }
      }
    }

    /** The timer effect's branch for a countdown at zero; nothing otherwise. */
    method Settle()
      requires Valid()
      modifies this`pomodoroCount, this`isBreak, this`pomodoroTime, this`pomodoroActive
      ensures Valid()
      ensures Timer() == Pomodoro.Settle(old(Timer()))
    {
      if pomodoroTime == 0 {
        if !isBreak {
          pomodoroCount := pomodoroCount + 1;
          isBreak := true;
          pomodoroTime := breakDuration * 60;
        } else {
          isBreak := false;
          pomodoroTime := workDuration * 60;
        }
        pomodoroActive := false;
      }
    }

    /** The work-duration input. */
    method SetWorkDuration(minutes: nat)
      requires Valid()
      modifies this`workDuration
      ensures Valid()
      ensures Timer() == Pomodoro.SetWork(old(Timer()), minutes)
    {
      workDuration := minutes;
    }

    /** The break-duration input. */
    method SetBreakDuration(minutes: nat)
      requires Valid()
      modifies this`breakDuration
      ensures Valid()
      ensures Timer() == Pomodoro.SetBreak(old(Timer()), minutes)
    {
      breakDuration := minutes;
    }

    /** `addNote`: both the title and the content need a non-blank character. */
    method AddNote(title: string, content: string, now: int)
      requires Valid()
      modifies this`notes
      ensures Valid()
      ensures HasContent(content) && HasContent(title) ==> notes == old(notes) + [Note(now, title, content, now)]
      ensures !(HasContent(content) && HasContent(title)) ==> notes == old(notes)
    {
      if HasContent(content) && HasContent(title) {
        notes := notes + [Note(now, title, content, now)];
      }
    }

    /** `deleteNote`. */
    method DeleteNote(id: int)
      requires Valid()
      modifies this`notes
      ensures Valid()
      ensures notes == RemoveNote(old(notes), id)
    {
      notes := RemoveNote(notes, id);
    }

    /** `addDocument`: the name and the subject need a non-blank character; the link may be empty. */
    method AddDocument(name: string, subject: string, docType: DocType, url: string, now: int)
      requires Valid()
      modifies this`documents
      ensures Valid()
      ensures HasContent(name) && HasContent(subject) ==>
        documents == old(documents) + [Document(now, name, subject, docType, url, now)]
      ensures !(HasContent(name) && HasContent(subject)) ==> documents == old(documents)
    {
      if HasContent(name) && HasContent(subject) {
        documents := documents + [Document(now, name, subject, docType, url, now)];
      }
    }

    /** `deleteDocument`. */
    method DeleteDocument(id: int)
      requires Valid()
      modifies this`documents
      ensures Valid()
      ensures documents == RemoveDocument(old(documents), id)
    {
      documents := RemoveDocument(documents, id);
    }

    /**
      `askAI`: a question with some non-blank character is appended, asked at
      `now`, followed by the responder's answer, given at `later`.
     */
    method AskAI(question: string, now: int, later: int)
      requires Valid()
      modifies this`aiMessages
      ensures Valid()
      ensures HasContent(question) ==> aiMessages == old(aiMessages) + [
        Message(now, User, question, now),
        Message(later + 1, AI, Assistant.GetAIResponse(question), later)]
      ensures !HasContent(question) ==> aiMessages == old(aiMessages)
    {
      if HasContent(question) {
        var asked := Message(now, User, question, now);
        var answered := Message(later + 1, AI, Assistant.GetAIResponse(question), later);
        aiMessages := aiMessages + [asked, answered];
      }
    }

    /** `clearAIChat`, once confirmed. */
    method ClearAIChat(confirmed: bool)
      requires Valid()
      modifies this`aiMessages
      ensures Valid()
      ensures aiMessages == if confirmed then [] else old(aiMessages)
    {
      if confirmed {
        aiMessages := [];
      }
    }

    /**
      `clearAllData`, once confirmed: the lists, the streak, the study time, the
      pomodoro count and today's completions are emptied; the study day, the chat
      and the notification settings stay.
     */
    method ClearAllData(confirmed: bool)
      requires Valid()
      modifies this`subjects, this`tasks, this`notes, this`documents, this`streak,
               this`studyTimeToday, this`pomodoroCount, this`completedToday, this`timetable
      ensures Valid()
      ensures confirmed ==>
        && subjects == [] && tasks == [] && notes == [] && documents == []
        && streak == 0 && studyTimeToday == 0 && pomodoroCount == 0
        && completedToday == [] && timetable == []
      ensures !confirmed ==>
        && subjects == old(subjects) && tasks == old(tasks) && notes == old(notes)
        && documents == old(documents) && streak == old(streak)
        && studyTimeToday == old(studyTimeToday) && pomodoroCount == old(pomodoroCount)
        && completedToday == old(completedToday) && timetable == old(timetable)
    {
      if confirmed {
        subjects := [];
        tasks := [];
        notes := [];
        documents := [];
        streak := 0;
        studyTimeToday := 0;
        pomodoroCount := 0;
        completedToday := [];
        timetable := [];
      }
    }
  }
}
