/**
  The planner's records (subjects, tasks, notes, documents, chat messages) and
  the pure list operations its handlers apply to them: lookup by name, the
  `map` updates by id, the `filter` deletions, and the statistics the
  dashboard and the analytics view derive from the lists.
  Ids and timestamps are the integer millisecond clock readings the handlers take.
 */
module Records {
  import opened Wrappers
  import opened Format

  datatype Priority = High | Medium | Low

  /** `lastRevised` is the instant of the latest completion, `None` before any. */
  datatype Subject = Subject(id: int, name: string, priority: Priority, lastRevised: Option<int>, progress: int)

  /** The six task categories offered when adding a task. */
  datatype Category = Study | Reading | Notes | Revision | Assignment | TestPrep

  datatype Task = Task(id: int, text: string, category: Category, completed: bool, createdAt: int, duration: int)

  datatype Note = Note(id: int, title: string, content: string, createdAt: int)

  /** The seven document types offered by the document form. */
  datatype DocType = PDF | Word | PowerPoint | Excel | Image | Video | Other

  datatype Document = Document(id: int, name: string, subject: string, docType: DocType, url: string, uploadedAt: int)

  /** A chat message's `type`: `'user'` or `'ai'`. */
  datatype Sender = User | AI

  datatype Message = Message(id: int, sender: Sender, text: string, timestamp: int)

  /** A subject as `addSubject` creates it: medium priority, never revised, no progress. */
  function NewSubject(id: int, name: string): (s: Subject)
    ensures s.id == id && s.name == name && s.progress == 0
    ensures s.priority == Medium && s.lastRevised.None?
  {
    Subject(id, name, Medium, None, 0)
  }

  /** A task as `addTask` creates it: not completed, no time spent. */
  function NewTask(id: int, text: string, category: Category, createdAt: int): (t: Task)
    ensures t.id == id && t.text == text && t.category == category && t.createdAt == createdAt
    ensures !t.completed && t.duration == 0
  {
    Task(id, text, category, false, createdAt, 0)
  }

  /** `xs.filter(keep)`: the elements kept, in their original order. */
  function Filter<T(!new)>(xs: seq<T>, keep: T -> bool): (r: seq<T>)
    ensures |r| <= |xs|
    ensures forall x :: x in r <==> x in xs && keep(x)
    ensures |r| == |xs| <==> forall i :: 0 <= i < |xs| ==> keep(xs[i])
  {
    if xs == [] then []
    else
      var rest := Filter(xs[1..], keep);
      assert forall i :: 1 <= i < |xs| ==> xs[i] == xs[1..][i - 1];
      if keep(xs[0]) then [xs[0]] + rest else rest
  }

  /** Nothing is kept exactly when the test rejects every element. */
  lemma NoneKept<T(!new)>(xs: seq<T>, keep: T -> bool)
    ensures Filter(xs, keep) == [] <==> forall i :: 0 <= i < |xs| ==> !keep(xs[i])
  {
    var r := Filter(xs, keep);
    if r == [] {
      forall i | 0 <= i < |xs|
        ensures !keep(xs[i])
      {
        assert xs[i] in xs;
      }
    } else {
      assert r[0] in r;
    }
  }

  /** Filtering a second time with the same test changes nothing. */
  lemma {:induction false} FilterIdempotent<T(!new)>(xs: seq<T>, keep: T -> bool)
    ensures Filter(Filter(xs, keep), keep) == Filter(xs, keep)
  {
    if xs != [] {
      FilterIdempotent(xs[1..], keep);
      if keep(xs[0]) {
        assert ([xs[0]] + Filter(xs[1..], keep))[1..] == Filter(xs[1..], keep);
      }
    }
  }

  /** A one-element list keeps its element exactly when the test accepts it. */
  lemma FilterOne<T(!new)>(x: T, keep: T -> bool)
    ensures Filter([x], keep) == if keep(x) then [x] else []
  {
    assert [x][1..] == [];
  }

  /**
   * Filtering a concatenation filters each part and keeps them in order; with
   * `FilterOne` this pins down the order and the multiplicity of what is kept.
   */
  lemma {:induction false} FilterAppend<T(!new)>(xs: seq<T>, ys: seq<T>, keep: T -> bool)
    ensures Filter(xs + ys, keep) == Filter(xs, keep) + Filter(ys, keep)
    decreases |xs|
  {
    if xs != [] {
      assert (xs + ys)[0] == xs[0];
      assert (xs + ys)[1..] == xs[1..] + ys;
      FilterAppend(xs[1..], ys, keep);
    } else {
      assert xs + ys == ys;
    }
  }

  /** Filtering `a + [x] + b` keeps `x` in its place when the test accepts it. */
  lemma FilterAround<T(!new)>(a: seq<T>, x: T, b: seq<T>, keep: T -> bool)
    ensures Filter(a + [x] + b, keep) == Filter(a, keep) + (if keep(x) then [x] else []) + Filter(b, keep)
  {
    FilterAppend(a + [x], b, keep);
    FilterAppend(a, [x], keep);
    FilterOne(x, keep);
  }

  /** `subjects.find(s => s.name === name)`, as the position of the first subject with that name. */
  function FindByName(subjects: seq<Subject>, name: string): (r: Option<nat>)
    ensures r.None? <==> forall i :: 0 <= i < |subjects| ==> subjects[i].name != name
    ensures r.Some? ==> r.value < |subjects| && subjects[r.value].name == name
    ensures r.Some? ==> forall i :: 0 <= i < r.value ==> subjects[i].name != name
  {
    if subjects == [] then None
    else if subjects[0].name == name then Some(0)
    else
      match FindByName(subjects[1..], name)
      case None => None
      case Some(i) => Some(i + 1)
  }

  function Min(a: int, b: int): int { if a <= b then a else b }

  /** Every subject's progress is a percentage. */
  predicate ProgressInRange(subjects: seq<Subject>)
  {
    forall i :: 0 <= i < |subjects| ==> 0 <= subjects[i].progress <= 100
  }

  /** Every id occurs at most once. */
  predicate DistinctIds(subjects: seq<Subject>)
  {
    forall i, j :: 0 <= i < j < |subjects| ==> subjects[i].id != subjects[j].id
  }

  /** The `map` in `markComplete`: subjects with the id gain 10 points of progress, capped at 100, and are stamped. */
  function Revise(subjects: seq<Subject>, id: int, stamp: int): (r: seq<Subject>)
    ensures |r| == |subjects|
    ensures forall i :: 0 <= i < |r| ==> subjects[i].id != id ==> r[i] == subjects[i]
    ensures forall i :: 0 <= i < |r| ==> subjects[i].id == id ==>
      r[i] == subjects[i].(progress := Min(100, subjects[i].progress + 10), lastRevised := Some(stamp))
  {
    seq(|subjects|, i requires 0 <= i < |subjects| =>
      var s := subjects[i];
      if s.id == id then s.(progress := Min(100, s.progress + 10), lastRevised := Some(stamp)) else s)
  }

  /** Revising keeps progress a percentage, and never lowers it. */
  lemma ReviseKeepsProgressInRange(subjects: seq<Subject>, id: int, stamp: int)
    requires ProgressInRange(subjects)
    ensures ProgressInRange(Revise(subjects, id, stamp))
    ensures forall i :: 0 <= i < |subjects| ==> Revise(subjects, id, stamp)[i].progress >= subjects[i].progress
  {
  }

  /** With distinct ids, revising the subject at position `k` changes that subject alone. */
  lemma ReviseOnlyTheFound(subjects: seq<Subject>, k: nat, stamp: int)
    requires DistinctIds(subjects) && k < |subjects|
    ensures forall i :: 0 <= i < |subjects| && i != k ==> Revise(subjects, subjects[k].id, stamp)[i] == subjects[i]
    ensures Revise(subjects, subjects[k].id, stamp)[k].progress == Min(100, subjects[k].progress + 10)
  {
  }

  /** `updatePriority`: subjects with the id take the new priority. */
  function SetPriority(subjects: seq<Subject>, id: int, priority: Priority): (r: seq<Subject>)
    ensures |r| == |subjects|
    ensures forall i :: 0 <= i < |r| ==> r[i].priority == (if subjects[i].id == id then priority else subjects[i].priority)
    ensures forall i :: 0 <= i < |r| ==> r[i].(priority := subjects[i].priority) == subjects[i]
  {
    seq(|subjects|, i requires 0 <= i < |subjects| =>
      if subjects[i].id == id then subjects[i].(priority := priority) else subjects[i])
  }

  /** `deleteSubject`: the subjects whose id differs. */
  function RemoveSubject(subjects: seq<Subject>, id: int): (r: seq<Subject>)
    ensures forall s :: s in r <==> s in subjects && s.id != id
  {
    Filter(subjects, (s: Subject) => s.id != id)
  }

  /** `toggleTask`: tasks with the id flip their completed flag. */
  function ToggleTask(tasks: seq<Task>, id: int): (r: seq<Task>)
    ensures |r| == |tasks|
    ensures forall i :: 0 <= i < |r| ==> r[i].completed == (if tasks[i].id == id then !tasks[i].completed else tasks[i].completed)
    ensures forall i :: 0 <= i < |r| ==> r[i].(completed := tasks[i].completed) == tasks[i]
  {
    seq(|tasks|, i requires 0 <= i < |tasks| =>
      if tasks[i].id == id then tasks[i].(completed := !tasks[i].completed) else tasks[i])
  }

  /** Toggling the same task twice restores the list. */
  lemma ToggleTwice(tasks: seq<Task>, id: int)
    ensures ToggleTask(ToggleTask(tasks, id), id) == tasks
  {
    var r := ToggleTask(ToggleTask(tasks, id), id);
    assert forall i :: 0 <= i < |tasks| ==> r[i] == tasks[i];
  }

  /** `deleteTask`. */
  function RemoveTask(tasks: seq<Task>, id: int): (r: seq<Task>)
    ensures forall t :: t in r <==> t in tasks && t.id != id
  {
    Filter(tasks, (t: Task) => t.id != id)
  }

  /** `deleteNote`. */
  function RemoveNote(notes: seq<Note>, id: int): (r: seq<Note>)
    ensures forall n :: n in r <==> n in notes && n.id != id
  {
    Filter(notes, (n: Note) => n.id != id)
  }

  /** `deleteDocument`. */
  function RemoveDocument(documents: seq<Document>, id: int): (r: seq<Document>)
    ensures forall d :: d in r <==> d in documents && d.id != id
  {
    Filter(documents, (d: Document) => d.id != id)
  }

  /** Deleting a subject keeps the others in their order, each once. */
  lemma RemoveSubjectInOrder(a: seq<Subject>, s: Subject, b: seq<Subject>, id: int)
    ensures RemoveSubject(a + [s] + b, id)
         == RemoveSubject(a, id) + (if s.id != id then [s] else []) + RemoveSubject(b, id)
  {
    FilterAround(a, s, b, (s: Subject) => s.id != id);
  }

  /** Deleting a task keeps the others in their order, each once. */
  lemma RemoveTaskInOrder(a: seq<Task>, t: Task, b: seq<Task>, id: int)
    ensures RemoveTask(a + [t] + b, id)
         == RemoveTask(a, id) + (if t.id != id then [t] else []) + RemoveTask(b, id)
  {
    FilterAround(a, t, b, (t: Task) => t.id != id);
  }

  /** Deleting a note keeps the others in their order, each once. */
  lemma RemoveNoteInOrder(a: seq<Note>, n: Note, b: seq<Note>, id: int)
    ensures RemoveNote(a + [n] + b, id)
         == RemoveNote(a, id) + (if n.id != id then [n] else []) + RemoveNote(b, id)
  {
    FilterAround(a, n, b, (n: Note) => n.id != id);
  }

  /** Deleting a document keeps the others in their order, each once. */
  lemma RemoveDocumentInOrder(a: seq<Document>, d: Document, b: seq<Document>, id: int)
    ensures RemoveDocument(a + [d] + b, id)
         == RemoveDocument(a, id) + (if d.id != id then [d] else []) + RemoveDocument(b, id)
  {
    FilterAround(a, d, b, (d: Document) => d.id != id);
  }

  /** Deleting by the same id twice is the same as deleting once. */
  lemma RemoveTaskIdempotent(tasks: seq<Task>, id: int)
    ensures RemoveTask(RemoveTask(tasks, id), id) == RemoveTask(tasks, id)
  {
    FilterIdempotent(tasks, (t: Task) => t.id != id);
  }

  predicate IsDone(t: Task) { t.completed }

  predicate IsPending(t: Task) { !t.completed }

  /** `tasks.filter(t => t.completed).length`. */
  function CompletedCount(tasks: seq<Task>): (r: nat)
    ensures r <= |tasks|
    ensures r == |tasks| <==> forall i :: 0 <= i < |tasks| ==> tasks[i].completed
    ensures r == 0 <==> forall i :: 0 <= i < |tasks| ==> !tasks[i].completed
  {
    NoneKept(tasks, IsDone);
    |Filter(tasks, IsDone)|
  }

  /** `tasks.filter(t => !t.completed).length`. */
  function PendingCount(tasks: seq<Task>): (r: nat)
    ensures r <= |tasks|
    ensures r == |tasks| <==> forall i :: 0 <= i < |tasks| ==> !tasks[i].completed
    ensures r == 0 <==> forall i :: 0 <= i < |tasks| ==> tasks[i].completed
  {
    NoneKept(tasks, IsPending);
    |Filter(tasks, IsPending)|
  }

  /** Every task is either completed or pending. */
  lemma {:induction false} CompletedPlusPending(tasks: seq<Task>)
    ensures CompletedCount(tasks) + PendingCount(tasks) == |tasks|
  {
    if tasks != [] {
      CompletedPlusPending(tasks[1..]);
    }
  }

  /** A share of a whole lies between 0 and 1, and is 1 exactly for the whole. */
  lemma Fraction(part: real, whole: real)
    requires 0.0 <= part <= whole && whole > 0.0
    ensures 0.0 <= part / whole <= 1.0
    ensures part / whole == 1.0 <==> part == whole
  {
    var q := part / whole;
    assert q * whole == part;
    if q == 1.0 {
      assert part == 1.0 * whole;
    }
    if part == whole {
      assert q * whole == 1.0 * whole;
      assert (q - 1.0) * whole == 0.0;
    }
  }

  /** The productivity percentage: completed over all tasks, rounded; 0 with no tasks. */
  function Productivity(tasks: seq<Task>): (r: int)
    ensures 0 <= r <= 100
    ensures tasks == [] ==> r == 0
    ensures tasks != [] ==>
      var exact := CompletedCount(tasks) as real / |tasks| as real * 100.0;
      exact - 0.5 < r as real <= exact + 0.5
    ensures CompletedCount(tasks) == 0 ==> r == 0
    ensures tasks != [] && CompletedCount(tasks) == |tasks| ==> r == 100
  {
    if |tasks| > 0 then
      var c := CompletedCount(tasks) as real;
      var n := |tasks| as real;
      Fraction(c, n);
      Round(c / n * 100.0)
    else 0
  }
  /**
   * The score reads 100 exactly when at least 199 of every 200 tasks are
   * done: rounding lifts anything from 99.5% up, so 100 does not mean that
   * every task is completed.
   */
  lemma ProductivityFull(tasks: seq<Task>)
    requires tasks != []
    ensures Productivity(tasks) == 100 <==> 200 * CompletedCount(tasks) >= 199 * |tasks|
  {
    var c := CompletedCount(tasks);
    var n := |tasks|;
    RoundedShareFull(c as real, n as real);
    assert 200 * c >= 199 * n <==> 200.0 * (c as real) >= 199.0 * (n as real);
  }

  /** A share of `n` rounds to 100 percent exactly when it is at least 199/200. */
  lemma RoundedShareFull(c: real, n: real)
    requires 0.0 <= c <= n && n > 0.0
    ensures Round(c / n * 100.0) == 100 <==> 200.0 * c >= 199.0 * n
  {
    var q := c / n;
    ShareOf(c, n);
    RoundsToHundred(q * 100.0);
    ScaleBy(q, 0.995, n);
    assert q * n == c;
    assert Round(q * 100.0) == 100 <==> q >= 0.995;
  }

  /** A share of `n` times `n` gives back the part; a part up to `n` is a share up to 1. */
  lemma ShareOf(c: real, n: real)
    requires n > 0.0
    ensures (c / n) * n == c
    ensures c <= n ==> c / n <= 1.0
  {
  }

  /** A number up to 100 rounds to 100 exactly from 99.5 up. */
  lemma RoundsToHundred(x: real)
    requires x <= 100.0
    ensures Round(x) == 100 <==> x >= 99.5
  {
  }

  /** Scaling by a positive factor keeps the order. */
  lemma ScaleBy(a: real, b: real, n: real)
    requires n > 0.0
    ensures a >= b <==> a * n >= b * n
  {
    if a >= b {
      assert (a - b) * n >= 0.0;
    } else {
      assert (b - a) * n > 0.0;
    }
  }


  /** With 199 of 200 tasks done the score already reads 100. */
  lemma NearlyAllDoneReadsFull(tasks: seq<Task>)
    requires |tasks| == 200 && CompletedCount(tasks) == 199
    ensures Productivity(tasks) == 100 && CompletedCount(tasks) < |tasks|
  {
    ProductivityFull(tasks);
  }


  /** `subjects.reduce((acc, s) => acc + s.progress, 0)`. */
  function TotalProgress(subjects: seq<Subject>): (r: int)
    ensures ProgressInRange(subjects) ==> 0 <= r <= 100 * |subjects|
    ensures (forall i :: 0 <= i < |subjects| ==> subjects[i].progress == 100) ==> r == 100 * |subjects|
  {
    if subjects == [] then 0 else TotalProgress(subjects[..|subjects| - 1]) + subjects[|subjects| - 1].progress
  }

  /** The dashboard's average progress: the rounded mean, 0 with no subjects. */
  function AverageProgress(subjects: seq<Subject>): (r: int)
    ensures subjects == [] ==> r == 0
    ensures subjects != [] ==>
      var exact := TotalProgress(subjects) as real / |subjects| as real;
      exact - 0.5 < r as real <= exact + 0.5
  {
    if |subjects| > 0 then Round(TotalProgress(subjects) as real / |subjects| as real) else 0
  }

  /** With every progress a percentage, the average is one too. */
  lemma AverageProgressInRange(subjects: seq<Subject>)
    requires ProgressInRange(subjects)
    ensures 0 <= AverageProgress(subjects) <= 100
  {
    if subjects != [] {
      var t := TotalProgress(subjects) as real;
      var n := |subjects| as real;
      assert 0.0 <= t <= 100.0 * n;
      MeanInRange(t, n);
    }
  }

  /** A total of at most 100 per part averages to a percentage. */
  lemma MeanInRange(t: real, n: real)
    requires n > 0.0 && 0.0 <= t <= 100.0 * n
    ensures 0.0 <= t / n <= 100.0
  {
    var q := t / n;
    assert q * n == t;
  }

  /** `tasks.filter(t => t.category === cat).length`. */
  function CategoryCount(tasks: seq<Task>, c: Category): (r: nat)
    ensures r <= |tasks|
    ensures r == 0 <==> forall i :: 0 <= i < |tasks| ==> tasks[i].category != c
  {
    NoneKept(tasks, (t: Task) => t.category == c);
    |Filter(tasks, (t: Task) => t.category == c)|
  }

  /** The six category counts of the analytics view add up to the number of tasks. */
  lemma {:induction false} CategoryCountsCoverAll(tasks: seq<Task>)
    ensures CategoryCount(tasks, Study) + CategoryCount(tasks, Reading) + CategoryCount(tasks, Notes)
          + CategoryCount(tasks, Revision) + CategoryCount(tasks, Assignment) + CategoryCount(tasks, TestPrep)
         == |tasks|
  {
    if tasks != [] {
      CategoryCountsCoverAll(tasks[1..]);
      CategoryCountStep(tasks, Study);
      CategoryCountStep(tasks, Reading);
      CategoryCountStep(tasks, Notes);
      CategoryCountStep(tasks, Revision);
      CategoryCountStep(tasks, Assignment);
      CategoryCountStep(tasks, TestPrep);
    }
  }

  /** The first task adds one to its own category's count and nothing to the others. */
  lemma CategoryCountStep(tasks: seq<Task>, c: Category)
    requires tasks != []
    ensures CategoryCount(tasks, c) == CategoryCount(tasks[1..], c) + if tasks[0].category == c then 1 else 0
  {
  }
}
