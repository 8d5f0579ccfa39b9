# AI Study Planner — a verified model of the planner's state machine

This project models, in Dafny, the study-tracking logic inside the single
React component `App` of the AI Study Planner (`src/App.jsx`). That logic
covers the following:

- the subject list, with daily completions, a study streak and per-subject progress;
- the timetable generator, which lays one slot per subject back to back from 9 AM;
- the pomodoro timer, with its work and break phases;
- the lists of tasks, notes and documents;
- the keyword responder behind the "AI assistant" chat;
- the statistics and formatters that the dashboard shows.

The model has two kinds of module:

- Pure modules, which hold the logic written as expressions in the source:
  - `Text`: ASCII lower-casing, substring search, decimal numbers and padding;
  - `Format`: `formatTimeSlot`, `formatTime` and `formatPomodoroTime`;
  - `Records`: the records, the `map`/`filter` updates and the statistics;
  - `Streak`: the streak check;
  - `Timetable`: the slot layout;
  - `Pomodoro`: the timer steps;
  - `Assistant`: `getAIResponse`.
- The class `Planner.StudyPlanner`, which has one field per piece of component
  state and one method per handler or effect step. Each method changes only
  the fields it names. Its `ensures` ties the new state to the pure functions,
  whose properties are proved as lemmas.

The following are parameters of the methods:

- Clock readings. Ids come from `Date.now()` and timestamps from `new Date().toISOString()`; one reading of a local clock, an integer of milliseconds, stands for both.
- Confirmation dialogs, as a boolean.
- Form inputs, as strings.

A day is a whole 86400000-ms day since the epoch. `toDateString` names such a
day, and `new Date(toDateString())` is that day's midnight. Hour values in the
timetable are exact reals. `Math.floor` is `Format.Floor`, and `Math.round` is
`Format.Round(x) = Floor(x + 1/2)`.

## Model

| member | source | states |
|---|---|---|
| Planner.StudyPlanner.constructor | src/App.jsx:5-39 | The initial state: empty lists, no streak and no study day, 4 study hours, and a stopped 25-minute work phase with 25/5-minute durations. All notification settings are on. |
| Planner.StudyPlanner.AddSubject | src/App.jsx:95-106 | A name with a non-blank character appends a new subject: medium priority, progress 0, never revised, id equal to the clock. A blank name changes nothing. Progress stays a percentage. |
| Planner.StudyPlanner.DeleteSubject | src/App.jsx:161-163 | The subjects become those whose id differs. |
| Planner.StudyPlanner.UpdatePriority | src/App.jsx:165-167 | Subjects with the id take the new priority. |
| Planner.StudyPlanner.MarkComplete | src/App.jsx:142-159 | If no subject has the name, or the first one's id is already in today's completions, nothing changes. Otherwise the id is appended once. The streak and the study day advance as `RecordStudy` says. The subjects with that id gain progress as `Revise` says. |
| Planner.StudyPlanner.CheckStreak | src/App.jsx:78-93 | The streak and today's completions become what the effect as written (`CheckAsWritten`) prescribes. No other field changes. |
| Planner.StudyPlanner.CheckStreakByCalendar | src/App.jsx:78-93 | The same effect, with the calendar-day check `CheckByCalendar`. |
| Planner.StudyPlanner.SetStudyHours | src/App.jsx:689-693 | The slider sets hours in 1..12. |
| Planner.StudyPlanner.GenerateTimetable | src/App.jsx:108-132 | With no subjects it reports failure and leaves the timetable unchanged. Otherwise the timetable is one `Slot` per subject, in subject order, and each slot ends where the next one starts. |
| Planner.StudyPlanner.AddTask | src/App.jsx:170-182 | Text with a non-blank character appends an open task with duration 0 and the chosen category. Blank text changes nothing. |
| Planner.StudyPlanner.ToggleTask | src/App.jsx:184-188 | Tasks become `Records.ToggleTask` of the old list. |
| Planner.StudyPlanner.DeleteTask | src/App.jsx:190-192 | Tasks become those whose id differs. |
| Planner.StudyPlanner.StartPomodoro | src/App.jsx:218-220 | The timer becomes `Pomodoro.Start` of the old timer. |
| Planner.StudyPlanner.ResetPomodoro | src/App.jsx:222-226 | The timer becomes `Pomodoro.Reset` of the old timer. |
| Planner.StudyPlanner.Tick | src/App.jsx:197-203 | The timer becomes `Pomodoro.Tick` of the old timer. |
| Planner.StudyPlanner.Settle | src/App.jsx:204-214 | The timer becomes `Pomodoro.Settle` of the old timer. |
| Planner.StudyPlanner.SetWorkDuration | src/App.jsx:794 | Only the work duration changes. |
| Planner.StudyPlanner.SetBreakDuration | src/App.jsx:804 | Only the break duration changes. |
| Planner.StudyPlanner.AddNote | src/App.jsx:229-240 | A note is appended only when both the title and the content have a non-blank character. |
| Planner.StudyPlanner.DeleteNote | src/App.jsx:242-244 | The notes become those whose id differs. |
| Planner.StudyPlanner.AddDocument | src/App.jsx:247-259 | A document is appended only when both the name and the subject have a non-blank character. The link may be blank. |
| Planner.StudyPlanner.DeleteDocument | src/App.jsx:261-263 | The documents become those whose id differs. |
| Planner.StudyPlanner.AskAI | src/App.jsx:337-364 | A question with a non-blank character appends two messages: the user's message stamped `now`, then the responder's answer to that same question, with id `later + 1`. A blank question changes nothing. |
| Planner.StudyPlanner.ClearAIChat | src/App.jsx:366-370 | Once confirmed, the chat is empty; otherwise it is unchanged. |
| Planner.StudyPlanner.ClearAllData | src/App.jsx:416-430 | Once confirmed, these are emptied or zeroed: subjects, tasks, notes, documents, streak, study time, pomodoro count, today's completions and timetable. The study day, chat and notification settings are outside its frame. Without confirmation nothing changes. |
| Records.NewSubject | src/App.jsx:97-103 | A new subject has medium priority, no revision and progress 0. |
| Records.NewTask | src/App.jsx:172-179 | A new task is not completed and has duration 0. |
| Records.Filter | src/App.jsx:162 | Keeps exactly the elements that pass, and no more elements than it was given. It keeps all of them iff every element passes. |
| Records.NoneKept | src/App.jsx:162 | The result is empty iff no element passes. |
| Records.FilterOne | src/App.jsx:162 | A one-element list keeps its element iff it passes. |
| Records.FilterAppend | src/App.jsx:162 | Filtering a concatenation is the concatenation of the filtered parts, so kept elements stay in order and keep their multiplicity. |
| Records.FilterAround | src/App.jsx:162 | Filtering `a + [x] + b` gives the filtered `a`, then `x` if it passes, then the filtered `b`. |
| Records.FilterIdempotent | src/App.jsx:162 | Filtering twice is filtering once. |
| Records.FindByName | src/App.jsx:143 | Gives the first position with the name, or none iff no subject has the name. |
| Records.Revise | src/App.jsx:155-157 | Only subjects with the id change: progress becomes min(100, progress + 10), stamped with the time. Length is kept. |
| Records.ReviseKeepsProgressInRange | src/App.jsx:156 | Revising keeps every progress in 0..100 and never lowers one. |
| Records.ReviseOnlyTheFound | src/App.jsx:155-157 | With distinct ids, only the found subject changes. |
| Records.SetPriority | src/App.jsx:166 | Subjects with the id take the priority. Nothing else in any subject changes. |
| Records.RemoveSubject | src/App.jsx:162 | A subject remains iff it was present and its id differs. |
| Records.RemoveSubjectInOrder | src/App.jsx:162 | Deleting from `a + [s] + b` gives the deletion from `a`, then `s` if its id differs, then the deletion from `b`: the survivors keep their order, each once. |
| Records.ToggleTask | src/App.jsx:185-187 | Tasks with the id flip their completed flag. Nothing else changes. |
| Records.ToggleTwice | src/App.jsx:185-187 | Toggling twice restores the list. |
| Records.RemoveTask | src/App.jsx:191 | A task remains iff it was present and its id differs. |
| Records.RemoveTaskInOrder | src/App.jsx:191 | The surviving tasks keep their order, each once, as for subjects. |
| Records.RemoveTaskIdempotent | src/App.jsx:191 | Deleting the same id twice is deleting once. |
| Records.RemoveNote | src/App.jsx:243 | A note remains iff it was present and its id differs. |
| Records.RemoveNoteInOrder | src/App.jsx:243 | The surviving notes keep their order, each once. |
| Records.RemoveDocument | src/App.jsx:262 | A document remains iff it was present and its id differs. |
| Records.RemoveDocumentInOrder | src/App.jsx:262 | The surviving documents keep their order, each once. |
| Records.CompletedCount | src/App.jsx:433 | At most the number of tasks; equal to it iff every task is done, and 0 iff none is. |
| Records.PendingCount | src/App.jsx:434 | At most the number of tasks; equal to it iff no task is done, and 0 iff all are. |
| Records.CompletedPlusPending | src/App.jsx:433-434 | Completed count plus pending count is the number of tasks. |
| Records.Productivity | src/App.jsx:435 | 0..100, and 0 without tasks. It is within 0.5 of the exact percentage. It is 0 when no task is done, and 100 when all are done (also from 99.5% up, see `ProductivityFull`). |
| Records.ProductivityFull | src/App.jsx:435 | With tasks, the score is 100 iff at least 199 of every 200 tasks are done. |
| Records.NearlyAllDoneReadsFull | src/App.jsx:435 | 199 done out of 200 already reads 100, though not every task is done. |
| Records.TotalProgress | src/App.jsx:746 | With every progress a percentage, the sum lies between 0 and 100 per subject; with every subject at 100 it is exactly 100 per subject. |
| Records.AverageProgress | src/App.jsx:745-747 | 0 without subjects, otherwise within 0.5 of the mean progress. |
| Records.AverageProgressInRange | src/App.jsx:745-747 | The average is a percentage when every progress is. |
| Records.CategoryCount | src/App.jsx:1199-1200 | At most the number of tasks, and 0 iff no task has the category. |
| Records.CategoryCountsCoverAll | src/App.jsx:1199-1200 | The six category counts add up to the number of tasks. |
| Streak.DayOf | src/App.jsx:79 | An instant lies within its day. |
| Streak.Midnight | src/App.jsx:81 | A day's midnight falls on that day. |
| Streak.DiffDays | src/App.jsx:83-84 | `diffDays` is the distance from the stored day's midnight, in days, rounded up. |
| Streak.DiffDaysCalendar | src/App.jsx:83-84 | `diffDays` equals the calendar distance, plus one when the stored day is not after today and now is past midnight. |
| Streak.CheckAsWritten | src/App.jsx:80-91 | No stored day: nothing. `diffDays` > 1: reset. `diffDays` == 1 on a different day: clear today's completions. Otherwise nothing. Each case is stated as an iff. |
| Streak.CeilDiv | src/App.jsx:84 | `Math.ceil(a / b)`: the least r with a ≤ r·b. |
| Streak.Apply | src/App.jsx:86-91 | The effect never raises the streak: it keeps it or sets it to 0. It keeps today's completions or empties them, and it empties them whenever it lowers the streak or does anything at all. |
| Streak.CheckTwiceIsCheckOnce | src/App.jsx:78-93 | Applying the check's effect a second time changes nothing more. |
| Streak.SameDayNoChange | src/App.jsx:80-91 | On the stored day itself the check changes nothing. |
| Streak.GapResetsAsWritten | src/App.jsx:86-88 | Two or more days later, the streak is reset. |
| Streak.NextDayResetsAsWritten | src/App.jsx:84-89 | The next day, any instant past midnight gives `diffDays` 2 and resets the streak. |
| Streak.NextMorningExample | src/App.jsx:84-89 | Day 20000 studied, and 9 AM on day 20001 resets. |
| Streak.CheckByCalendar | src/App.jsx:80-91 | A calendar gap > 1 resets, a gap of 1 clears today, otherwise nothing. Each case is stated as an iff. |
| Streak.NextDayKeepsStreakByCalendar | src/App.jsx:89-90 | By calendar, the next day only clears today's completions. |
| Streak.CalendarAgreesAsWritten | src/App.jsx:84-91 | The two checks agree except past midnight on the day after. |
| Streak.RecordStudy | src/App.jsx:148-152 | The study day becomes today. The streak grows by one iff the stored day was not today. |
| Streak.OneIncrementPerDay | src/App.jsx:144-152 | Any number of completions on one day raise the streak by at most one, and by exactly one when the day is new. |
| Streak.CheckAfterRecordIsNoOp | src/App.jsx:78-93 | The effect that a completion triggers, run on the same day, changes nothing. |
| Timetable.SlotMinutes | src/App.jsx:116 | At least 30 and at least the even share of the study minutes, and equal to one of them. |
| Timetable.SlotStart | src/App.jsx:119 | Slot 0 starts at 9; no slot starts before 9 when durations are non-negative; slot i starts i·d minutes after 9. |
| Timetable.SlotEnd | src/App.jsx:120 | Slot i ends when slot i+1 starts, and after it starts when d > 0. |
| Timetable.Slot | src/App.jsx:122-128 | The slot carries the subject's name, a duration of at least 30 when d ≥ 30, and is completed iff the subject's id is in today's completions. |
| Timetable.SlotsFacts | src/App.jsx:118-129 | Generated slots carry the subject names and durations ≥ 30. They are marked completed iff the id is in today's completions, and they are contiguous. |
| Timetable.BuildSlots | src/App.jsx:114-129 | The loop yields one `Slot` per subject, in order, with the facts above. |
| Timetable.LastSlotEnd | src/App.jsx:119-120 | The last slot ends n·d minutes after 9 AM. |
| Timetable.DayFitsStudyHours | src/App.jsx:116-120 | When the even share is at least 30 minutes, the day ends exactly `studyHours` after 9 AM. |
| Timetable.CrowdedDayOverruns | src/App.jsx:116-120 | With more than 2·studyHours subjects, every slot is 30 minutes and the day runs past `studyHours`. |
| Timetable.TwoSubjectsFourHours | src/App.jsx:108-140 | Two subjects over 4 hours give 9:00 AM–11:00 AM and 11:00 AM–1:00 PM, 120 minutes each. |
| Format.Floor | src/App.jsx:135 | The greatest integer not above x. |
| Format.Round | src/App.jsx:136 | The nearest integer, with halves rounded up. |
| Format.ClockOf | src/App.jsx:135-138 | The minute is at most 60. |
| Format.FormatTimeSlot | src/App.jsx:134-140 | The text reads back as the clock computed from the hour; the reader takes only a `toString` hour and `padStart(2, '0')` minutes. |
| Format.ParseOnlyRender | src/App.jsx:139 | Any text that reads as a clock is that clock's rendering: one text per clock. |
| Format.TimeSlotIsOnlyReading | src/App.jsx:134-140 | The slot text is the only string that reads back as the slot's clock, so its minutes are padded to two digits. |
| Format.RefusesUnpaddedClock | src/App.jsx:139 | "9:0 AM" and "09:00 AM" are not clock texts. |
| Format.ParseRender | src/App.jsx:139 | A rendered clock reads back as the same hour, minute and period. |
| Format.FormatTimeSlotShows | src/App.jsx:134-140 | The text reads back as: hour floor(h), less 12 iff above 12; minute round(frac·60); PM iff floor(h) ≥ 12. |
| Format.TwelveHourDial | src/App.jsx:138 | For hours in [1, 25) the shown hour is 1..12, and 12 only for noon and midnight. |
| Format.TimeSlotExamples | src/App.jsx:134-140 | 9 → "9:00 AM", 11 → "11:00 AM", 12.5 → "12:30 PM", 13 → "1:00 PM". |
| Format.FormatPomodoroTime | src/App.jsx:443-447 | "mm:ss" reads back as the same number of seconds; the reader takes only `padStart(2, '0')` fields and seconds below 60. |
| Format.MinutesSecondsReadBack | src/App.jsx:446 | Padded minutes and seconds below 60 read back as `m * 60 + sec`. |
| Format.ParseOnlyPomodoroTime | src/App.jsx:443-447 | Any text that reads as a number of seconds is the display of those seconds: one text per value. |
| Format.RefusesUnpaddedCountdown | src/App.jsx:446 | "025:0" and "25:5" are not countdown texts. |
| Format.PomodoroTimeWidth | src/App.jsx:446 | Below 100 minutes the text is exactly five characters. |
| Format.FormatTime | src/App.jsx:437-441 | "Hh Mm" reads back as whole hours and minutes below 60 that account for the seconds to within the dropped final minute. |
| Format.HoursMinutesReadBack | src/App.jsx:440 | Displayed hours and minutes read back as themselves. |
| Format.ParseOnlyFormatTime | src/App.jsx:437-441 | Any text that reads as hours and minutes below 60 is the display of that many seconds: one text per value. |
| Pomodoro.Initial | src/App.jsx:19-25 | A stopped, full 25-minute work phase with a 5-minute break setting. |
| Pomodoro.Tick | src/App.jsx:197-203 | When running with time left, the time drops by 1 and study time rises by 1 iff not on a break; nothing else changes. Otherwise nothing changes. |
| Pomodoro.Settle | src/App.jsx:204-214 | At zero, whether running or not: a work phase counts a pomodoro and loads the break, and a break loads the work phase. In both cases the timer stops. Elsewhere nothing changes. |
| Pomodoro.Start | src/App.jsx:218-220 | Only `active` changes, to true. |
| Pomodoro.Reset | src/App.jsx:222-226 | Stopped, work phase, full work time. The count, study time and durations are kept. |
| Pomodoro.SetWork | src/App.jsx:794 | Only the work duration changes; the clock does not. |
| Pomodoro.SetBreak | src/App.jsx:804 | Only the break duration changes; the clock does not. |
| Pomodoro.RunTicks | src/App.jsx:197-203 | n ticks of a running timer with ≥ n seconds left subtract n, and add n study seconds outside breaks. |
| Pomodoro.TicksAtZero | src/App.jsx:197 | At zero, ticks do nothing. |
| Pomodoro.FullWorkCycle | src/App.jsx:197-220 | A fresh work phase run to zero and settled adds one pomodoro and a whole phase of study time, and loads the break. |
| Pomodoro.FullBreakCycle | src/App.jsx:197-220 | A full break adds no study time and reloads the work phase. |
| Pomodoro.StartIdempotent | src/App.jsx:218-220 | Starting twice is starting once. |
| Pomodoro.StepsKeepTimeNatural | src/App.jsx:195-226 | No step makes the clock negative. |
| Pomodoro.LoweringWorkLeavesClockAbove | src/App.jsx:794 | Lowering the work duration mid-phase leaves the clock above the new phase length. |
| Text.LowerChar | src/App.jsx:268 | A capital maps to its lower-case letter, and other characters stay. |
| Text.ToLower | src/App.jsx:268 | Lower-cases character by character and keeps the length. |
| Text.ToLowerIdempotent | src/App.jsx:268 | Lower-casing twice is lower-casing once. |
| Text.ScanIffContains | src/App.jsx:271 | The left-to-right search finds the keyword iff it occurs somewhere. |
| Text.PadTwo | src/App.jsx:139 | Left-pads with '0' to at least two characters and keeps the digits as a suffix. |
| Text.ParsePadTwo | src/App.jsx:446 | A padded natural reads back, and its text is a padded numeral. |
| Text.NumeralIsNatToString | src/App.jsx:440 | A digit string without a leading zero is how `toString` writes its value. |
| Text.PaddedNumeralIsPadTwo | src/App.jsx:446 | A digit string of two characters, or longer without a leading zero, is how `padStart(2, '0')` writes its value. |
| Text.IntNumeralIsIntToString | src/App.jsx:139 | An integer numeral is how `toString` writes the integer it reads as. |
| Assistant.RulesInSourceOrder | src/App.jsx:270-313 | Nine rules, in the order of the `if` chain: study tips, time management, exams, memory, motivation, note-taking, maths and science, reading, stress. |
| Assistant.Classify | src/App.jsx:268-313 | No topic iff no rule fires on the lower-cased question; otherwise the topic of the first rule that fires. |
| Assistant.Answer | src/App.jsx:271-313 | Every canned answer opens with its topic's heading line. |
| Assistant.GetAIResponse | src/App.jsx:266-335 | When a rule fires, the reply is that topic's canned answer; otherwise it is a help text that contains the question verbatim. |
| Assistant.FirstMatch | src/App.jsx:270-313 | None iff no rule fires. Otherwise the topic is that of the first rule that fires. |
| Assistant.FirstFiringUnique | src/App.jsx:270-313 | Only one rule is first to fire. |
| Assistant.FirstRuleAnswers | src/App.jsx:270-313 | When rule i is the first to fire on the lower-cased question, the reply is rule i's canned answer. |
| Assistant.NoRuleGetsHelp | src/App.jsx:315-334 | When no rule fires, the reply is the help text for the original question. |
| Assistant.DefaultAnswer | src/App.jsx:316-334 | The help text contains the question verbatim. |
| Assistant.Respond | src/App.jsx:266-335 | A help reply carries the original, un-lowered question. |
| Assistant.ClassifyIgnoresCase | src/App.jsx:268 | Classification does not depend on letter case. |
| AssistantExamples.ExamStressGetsExamAnswer | src/App.jsx:281-313 | "exam stress" matches both the exam rule and the stress rule, and gets the exam answer. |
| AssistantExamples.StudyQuestionGetsStudyTips | src/App.jsx:271 | "How to study effectively?" gets the study-tips answer. |
| AssistantExamples.UnknownQuestionGetsDefault | src/App.jsx:315-334 | "xyz123" gets the help text. |
| AssistantExamples.MotivatedGetsDefault | src/App.jsx:291 | "How to stay motivated?" fires no rule, because "motivated" does not contain "motivation". It gets the help text. |

## Left out

- Persistence is not modelled: loading from and saving to `localStorage`, and export/import through JSON, Blob and FileReader. These are storage and file I/O.
- Timers as concurrency are not modelled. The interval is the explicit `Tick`/`Settle` steps, and the `askAI` reply is appended in the same call, with its clock reading `later` as a parameter. Messages appended between the question and the reply, and the `aiLoading` flag, are not modelled.
- JSX rendering, tab switching, form-input state and its clearing, `alert` and the `confirm` dialog are not modelled. The dialog's answer is the `confirmed` parameter.
- `dailyGoalMinutes` and `reportPeriod` are not modelled, because no handler in the model reads them.
- The notification toggles are not modelled. The model has the settings only as state that `ClearAllData` keeps.
- Strings are ASCII: `toLowerCase` changes only A–Z, and `trim` blanks are space, tab, CR, LF, VT and FF. Unicode case mapping and Unicode white space are not modelled.
- The answer texts are kept character for character as they appear in the file, including the mis-decoded emoji and bullet characters.
- Time is integer local milliseconds with uniform 86400000-ms days. Daylight-saving shifts and time zones are not modelled.
- Arithmetic is exact (integers and reals) in place of IEEE doubles, so no rounding artefacts are modelled.
- Planner.StudyPlanner.SetWorkDuration: a duration is a natural number. Negative or fractional typed values are not modelled.
- Planner.StudyPlanner.SetBreakDuration: the same restriction to natural numbers applies.
- Pomodoro.StepsKeepTimeNatural: the clock is not bounded by the current phase length, because changing a duration does not touch the running clock. The model follows the code here; `LoweringWorkLeavesClockAbove` shows the clock above the new length.

## Findings

| source | as written | input that shows it | evidently intended | confidence | as-written member | corrected member |
|---|---|---|---|---|---|---|
| src/App.jsx:84-89 | `diffDays` rounds up the time from the stored day's midnight, so any instant on the following day except midnight gives 2 and resets the streak | studied on day d; app reloaded at 9 AM on day d+1 | a gap of one calendar day keeps the streak and only clears today's completions | high, not executed | Streak.NextDayResetsAsWritten | Streak.CheckByCalendar |
