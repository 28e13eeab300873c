/** The task record of the board and the pure operations on the task list:
    order-preserving filters, find-first by id, the status transition that keeps
    `completed`/`completedAt` in step, timer credit, new tasks from the add form,
    and the default tasks generated for a day. */
module Tasks {
  import opened Wrappers

  /** The kanban column a task sits in. */
  datatype Status = Todo | InProgress | Completed

  datatype Priority = Low | Medium | High

  /** A task as the board keeps it. An entry read back from storage that lacks
      `id` or `title` (or has them empty, which JavaScript treats alike) carries
      the empty string there. `completedAt` is a deleted property when None. */
  datatype Task = Task(
    id: string,
    title: string,
    description: string,
    category: string,
    priority: Priority,
    estimatedTime: int,   // minutes
    status: Status,
    date: string,         // the ISO calendar date the task belongs to
    createdAt: string,
    completedAt: Option<string>,
    timeSpent: int,       // seconds
    completed: bool)

  /** The mirror invariant: `completed` is `status == "completed"`, and
      `completedAt` is present exactly when the task is completed. */
  predicate Mirrored(t: Task) {
    t.completed == (t.status == Completed) && t.completedAt.Some? == t.completed
  }

  predicate AllMirrored(ts: seq<Task>) {
    forall i :: 0 <= i < |ts| ==> Mirrored(ts[i])
  }

  /** `s.filter(p)`: the elements satisfying `p`, in their original order. */
  function Filter<T(!new)>(s: seq<T>, p: T -> bool): (r: seq<T>)
    ensures |r| <= |s|
    ensures forall i :: 0 <= i < |r| ==> r[i] in s && p(r[i])
    ensures forall i :: 0 <= i < |s| && p(s[i]) ==> s[i] in r
  {
    if s == [] then [] else (if p(s[0]) then [s[0]] else []) + Filter(s[1..], p)
  }

  /** Every passing element is kept as often as it occurs, every other dropped. */
  lemma {:induction false} FilterMultiset<T(!new)>(s: seq<T>, p: T -> bool)
    ensures forall x :: multiset(Filter(s, p))[x] == if p(x) then multiset(s)[x] else 0
    decreases |s|
  {
    if s != [] {
      assert s == [s[0]] + s[1..];
      FilterMultiset(s[1..], p);
    }
  }

  /** The positions of `s` whose element passes `p`. */
  function Passing<T(!new)>(s: seq<T>, p: T -> bool): set<int> {
    set i | 0 <= i < |s| && p(s[i])
  }

  lemma PassingSnoc<T(!new)>(a: seq<T>, x: T, p: T -> bool)
    ensures |Passing(a + [x], p)| == |Passing(a, p)| + (if p(x) then 1 else 0)
  {
    var s := a + [x];
    var last: set<int> := if p(x) then {|a|} else {};
    forall i | i in Passing(s, p) ensures i in Passing(a, p) + last {
      if i < |a| { assert s[i] == a[i]; }
    }
    forall i | i in Passing(a, p) + last ensures i in Passing(s, p) {
      if i < |a| { assert s[i] == a[i]; }
    }
    assert Passing(s, p) == Passing(a, p) + last;
    assert |a| !in Passing(a, p);
  }

  /** The number of elements kept is the number of positions whose element passes. */
  lemma {:induction false} FilterCount<T(!new)>(s: seq<T>, p: T -> bool)
    ensures |Filter(s, p)| == |Passing(s, p)|
    decreases |s|
  {
    if s != [] {
      var a, x := s[..|s| - 1], s[|s| - 1];
      assert s == a + [x];
      FilterAppend(a, [x], p);
      FilterCount(a, p);
      assert [x][1..] == [];
      assert |Filter([x], p)| == if p(x) then 1 else 0;
      PassingSnoc(a, x, p);
    }
  }

  /** Filtering distributes over concatenation, so it keeps the relative order. */
  lemma {:induction false} FilterAppend<T(!new)>(a: seq<T>, b: seq<T>, p: T -> bool)
    ensures Filter(a + b, p) == Filter(a, p) + Filter(b, p)
    decreases |a|
  {
    if a == [] {
      assert a + b == b;
    } else {
      assert (a + b)[0] == a[0];
      assert (a + b)[1..] == a[1..] + b;
      FilterAppend(a[1..], b, p);
    }
  }

  /** Nothing is dropped when every element passes. */
  lemma {:induction false} FilterAll<T(!new)>(s: seq<T>, p: T -> bool)
    requires forall i :: 0 <= i < |s| ==> p(s[i])
    ensures Filter(s, p) == s
    decreases |s|
  {
    if s != [] {
      FilterAll(s[1..], p);
    }
  }


  /** The index `tasks.find(t => t.id === id)` lands on: the first task with that id. */
  function FirstIndex(ts: seq<Task>, id: string): (r: Option<nat>)
    ensures r.Some? ==> r.value < |ts| && ts[r.value].id == id
    ensures r.Some? ==> forall j :: 0 <= j < r.value ==> ts[j].id != id
    ensures r.None? ==> forall j :: 0 <= j < |ts| ==> ts[j].id != id
  {
    if ts == [] then None
    else if ts[0].id == id then Some(0)
    else match FirstIndex(ts[1..], id)
      case None => None
      case Some(k) => Some(k + 1)
  }

  predicate HasId(ts: seq<Task>, id: string) {
    exists i :: 0 <= i < |ts| && ts[i].id == id
  }

  /** The effect of `updateTaskStatus` on the task object it found: the new status,
      with `completed` and `completedAt` brought in step, all else as it was. */
  function WithStatus(t: Task, s: Status, now: string): (r: Task)
    ensures Mirrored(r) && r.status == s
    ensures s == Completed ==> r.completedAt == Some(now)
    ensures r.(status := t.status, completed := t.completed, completedAt := t.completedAt) == t
  {
    if s == Completed then t.(status := s, completed := true, completedAt := Some(now))
    else t.(status := s, completed := false, completedAt := None)
  }

  /** The list after `updateTaskStatus(id, s)`: the first task with `id` moves to `s`. */
  function StatusUpdated(ts: seq<Task>, id: string, s: Status, now: string): (r: seq<Task>)
    ensures |r| == |ts|
    ensures !HasId(ts, id) ==> r == ts
    ensures forall j :: 0 <= j < |ts| && Some(j) != FirstIndex(ts, id) ==> r[j] == ts[j]
    ensures forall j :: 0 <= j < |ts| && Some(j) == FirstIndex(ts, id) ==>
              r[j] == WithStatus(ts[j], s, now) && r[j].id == id
  {
    match FirstIndex(ts, id)
    case None => ts
    case Some(i) => ts[i := WithStatus(ts[i], s, now)]
  }

  /** A status move keeps every task's mirror invariant. */
  lemma StatusUpdatePreservesMirror(ts: seq<Task>, id: string, s: Status, now: string)
    requires AllMirrored(ts)
    ensures AllMirrored(StatusUpdated(ts, id, s, now))
  {
  }

  /** The list after a finished work session credits `seconds` to the bound task:
      the first task with `id` gains them in `timeSpent`; nothing else changes. */
  function Credited(ts: seq<Task>, id: string, seconds: int): (r: seq<Task>)
    ensures |r| == |ts|
    ensures forall j :: 0 <= j < |ts| && Some(j) != FirstIndex(ts, id) ==> r[j] == ts[j]
    ensures forall j :: 0 <= j < |ts| && Some(j) == FirstIndex(ts, id) ==>
              r[j].(timeSpent := ts[j].timeSpent) == ts[j] && r[j].timeSpent == ts[j].timeSpent + seconds
    ensures AllMirrored(ts) ==> AllMirrored(r)
  {
    match FirstIndex(ts, id)
    case None => ts
    case Some(i) => ts[i := ts[i].(timeSpent := ts[i].timeSpent + seconds)]
  }

  function OtherId(id: string): Task -> bool {
    (t: Task) => t.id != id
  }

  /** `tasks.filter(t => t.id !== id)`: every task with that id goes, the rest stay in order. */
  function Without(ts: seq<Task>, id: string): (r: seq<Task>)
    ensures forall i :: 0 <= i < |r| ==> r[i] in ts && r[i].id != id
    ensures forall i :: 0 <= i < |ts| && ts[i].id != id ==> ts[i] in r
    ensures !HasId(r, id)
    ensures !HasId(ts, id) ==> r == ts
    ensures forall t :: multiset(r)[t] == if t.id != id then multiset(ts)[t] else 0
  {
    FilterMultiset(ts, OtherId(id));
    var r := Filter(ts, OtherId(id));
    if !HasId(ts, id) then FilterAll(ts, OtherId(id)); r else r
  }

  /** Deletion works piecewise, so the tasks that stay keep their relative order. */
  lemma WithoutAppend(a: seq<Task>, b: seq<Task>, id: string)
    ensures Without(a + b, id) == Without(a, id) + Without(b, id)
  {
    FilterAppend(a, b, OtherId(id));
  }

  /** Deleting keeps the mirror invariant of the tasks that stay. */
  lemma DeletePreservesMirror(ts: seq<Task>, id: string)
    requires AllMirrored(ts)
    ensures AllMirrored(Without(ts, id))
  {
    var r := Without(ts, id);
    forall i | 0 <= i < |r| ensures Mirrored(r[i]) {
      assert r[i] in ts;
    }
  }

  /** The add-task form, its fields as the form submits them. */
  datatype TaskForm = TaskForm(
    title: string, description: string, category: string,
    priority: Priority, estimatedTime: int, date: string)

  /** The task `handleAddTask` builds: the form's fields, a fresh id, in "todo",
      not completed, no time spent. */
  function NewTask(form: TaskForm, id: string, now: string): (t: Task)
    ensures Mirrored(t) && t.status == Todo && t.timeSpent == 0
    ensures t.id == id && t.title == form.title && t.date == form.date
    ensures t.category == form.category && t.estimatedTime == form.estimatedTime
    ensures t.priority == form.priority && t.description == form.description
  {
    Task(id, form.title, form.description, form.category, form.priority,
         form.estimatedTime, Todo, form.date, now, None, 0, false)
  }

  lemma AddPreservesMirror(ts: seq<Task>, form: TaskForm, id: string, now: string)
    requires AllMirrored(ts)
    ensures AllMirrored(ts + [NewTask(form, id, now)])
  {
  }

  /** The default daily tasks: each category of the schedule with its pool of titles,
      in the order the schedule object lists them. */
  const Schedule: seq<(string, seq<string>)> := [
    ("placement", ["Solve 2 Leetcode problems", "Revise 1 ML project notebook",
                   "Update resume bullet point", "Practice 1 mock interview question"]),
    ("upsc", ["Make current affairs notes from The Hindu", "Read 1 GS topic (Polity/History/Geography)",
              "Practice 5 CSAT questions", "Revise 1 NCERT chapter"]),
    ("defence", ["Revise 1 Defence GK topic", "Solve 10 Pathfinder MCQs",
                 "Take a mini mock test (20 questions)", "Read CDS/AFCAT English comprehension passage"]),
    ("fitness", ["Drink 3L water", "Eat home-cooked meals only",
                 "30 min morning walk or HIIT", "Track calories for the day"]),
    ("college", ["Attend classes & take notes", "Prepare slides for project",
                 "Complete assignment or lab task", "Revise one subject for internal quiz"])
  ]

  /** The categories `getEstimatedTime` knows. */
  const KnownCategories: set<string> := {"placement", "upsc", "defence", "fitness", "college"}

  /** `getEstimatedTime(category)`: the minutes planned for a category, 30 for any
      category the table does not list. */
  function EstimatedTime(category: string): (minutes: int)
    ensures minutes > 0
    ensures category !in KnownCategories ==> minutes == 30
  {
    if category == "placement" then 45
    else if category == "upsc" then 30
    else if category == "defence" then 25
    else if category == "fitness" then 15
    else if category == "college" then 60
    else 30
  }

  lemma EstimatedTimeTable()
    ensures EstimatedTime("placement") == 45 && EstimatedTime("upsc") == 30
    ensures EstimatedTime("defence") == 25 && EstimatedTime("fitness") == 15
    ensures EstimatedTime("college") == 60
  {
  }

  /** The random template choices, one index per schedule category, each within
      that category's pool (what `Math.floor(Math.random() * tasks.length)` yields). */
  predicate ValidPicks(picks: seq<nat>) {
    |picks| == |Schedule| && forall k :: 0 <= k < |picks| ==> picks[k] < |Schedule[k].1|
  }

  /** The task generated for schedule category `k`. */
  function DailyTask(k: nat, date: string, pick: nat, id: string, now: string): (t: Task)
    requires k < |Schedule| && pick < |Schedule[k].1|
  {
    var category := Schedule[k].0;
    Task(id, Schedule[k].1[pick], "Daily " + category + " task", category, Medium,
         EstimatedTime(category), Todo, date, now, None, 0, false)
  }

  /** The tasks generated for the first `n` schedule categories, in schedule order. */
  function DailyTasks(n: nat, date: string, picks: seq<nat>, ids: seq<string>, now: string): (r: seq<Task>)
    requires n <= |Schedule| && ValidPicks(picks) && |ids| == |Schedule|
    ensures |r| == n
    ensures forall k :: 0 <= k < n ==> r[k] == DailyTask(k, date, picks[k], ids[k], now)
  {
    if n == 0 then [] else DailyTasks(n - 1, date, picks, ids, now) + [DailyTask(n - 1, date, picks[n - 1], ids[n - 1], now)]
  }

  /** One default task per schedule category, in schedule order, each in "todo",
      not completed, no time spent, medium priority, dated `date`, its title from
      its category's pool and its estimate `getEstimatedTime(category)`. */
  lemma DefaultTasksShape(date: string, picks: seq<nat>, ids: seq<string>, now: string)
    requires ValidPicks(picks) && |ids| == |Schedule|
    ensures var r := DailyTasks(|Schedule|, date, picks, ids, now);
      |r| == |Schedule| && AllMirrored(r) &&
      forall k :: 0 <= k < |r| ==>
        && r[k].category == Schedule[k].0
        && r[k].title in Schedule[k].1
        && r[k].id == ids[k]
        && r[k].status == Todo && !r[k].completed && r[k].timeSpent == 0
        && r[k].priority == Medium && r[k].date == date
        && r[k].estimatedTime == EstimatedTime(r[k].category)
  {
  }

  /** The default categories are the ones `getEstimatedTime` knows, each once. */
  lemma ScheduleCategories()
    ensures forall k :: 0 <= k < |Schedule| ==> Schedule[k].0 in KnownCategories
    ensures forall j, k :: 0 <= j < k < |Schedule| ==> Schedule[j].0 != Schedule[k].0
  {
  }
}
