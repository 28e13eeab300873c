/** The statistics the board shows for a date (`updateStats`) and stores with each
    daily snapshot (`getDailyStats`). */
module Stats {
  import opened Tasks
  import opened Strings

  function OnDate(date: string): Task -> bool {
    (t: Task) => t.date == date
  }

  function IsDone(): Task -> bool {
    (t: Task) => t.completed
  }

  function InCategory(category: string): Task -> bool {
    (t: Task) => t.category == category
  }

  /** `tasks.filter(task => task.date === date)`. */
  function DayTasks(ts: seq<Task>, date: string): (r: seq<Task>)
    ensures |r| <= |ts|
    ensures forall i :: 0 <= i < |r| ==> r[i].date == date && r[i] in ts
    ensures forall i :: 0 <= i < |ts| && ts[i].date == date ==> ts[i] in r
    ensures forall t :: multiset(r)[t] == if t.date == date then multiset(ts)[t] else 0
    ensures |r| == |set i | 0 <= i < |ts| && ts[i].date == date|
  {
    FilterMultiset(ts, OnDate(date));
    DayCount(ts, date);
    Filter(ts, OnDate(date))
  }

  lemma DayCount(ts: seq<Task>, date: string)
    ensures |Filter(ts, OnDate(date))| == |set i | 0 <= i < |ts| && ts[i].date == date|
  {
    FilterCount(ts, OnDate(date));
    assert Passing(ts, OnDate(date)) == set i | 0 <= i < |ts| && ts[i].date == date;
  }

  /** Selecting a day works piecewise, so the day's tasks keep their list order. */
  lemma DayTasksAppend(a: seq<Task>, b: seq<Task>, date: string)
    ensures DayTasks(a + b, date) == DayTasks(a, date) + DayTasks(b, date)
  {
    FilterAppend(a, b, OnDate(date));
  }

  /** `tasks.filter(task => task.completed).length`. */
  function CompletedCount(ts: seq<Task>): (n: nat)
    ensures n == |set i | 0 <= i < |ts| && ts[i].completed|
    ensures n <= |ts|
    ensures (forall i :: 0 <= i < |ts| ==> !ts[i].completed) ==> n == 0
    ensures (forall i :: 0 <= i < |ts| ==> ts[i].completed) ==> n == |ts|
  {
    var done := Filter(ts, IsDone());
    DoneCount(ts);
    if forall i :: 0 <= i < |ts| ==> ts[i].completed then
      FilterAll(ts, IsDone()); |done|
    else
      assert (forall i :: 0 <= i < |ts| ==> !ts[i].completed) ==> done == [] by {
        if done != [] { assert done[0] in ts; }
      }
      |done|
  }

  lemma DoneCount(ts: seq<Task>)
    ensures |Filter(ts, IsDone())| == |set i | 0 <= i < |ts| && ts[i].completed|
  {
    FilterCount(ts, IsDone());
    assert Passing(ts, IsDone()) == set i | 0 <= i < |ts| && ts[i].completed;
  }

  /** `tasks.reduce((sum, task) => sum + task.timeSpent, 0)`. */
  function TimeSum(ts: seq<Task>): int {
    if ts == [] then 0 else ts[0].timeSpent + TimeSum(ts[1..])
  }

  lemma {:induction false} TimeSumAppend(a: seq<Task>, b: seq<Task>)
    ensures TimeSum(a + b) == TimeSum(a) + TimeSum(b)
    decreases |a|
  {
    if a == [] {
      assert a + b == b;
    } else {
      assert (a + b)[0] == a[0];
      assert (a + b)[1..] == a[1..] + b;
      TimeSumAppend(a[1..], b);
    }
  }

  /** Time spent never sums below zero while no task has negative time. */
  lemma {:induction false} TimeSumNonNegative(ts: seq<Task>)
    requires forall i :: 0 <= i < |ts| ==> ts[i].timeSpent >= 0
    ensures TimeSum(ts) >= 0
    decreases |ts|
  {
    if ts != [] {
      TimeSumNonNegative(ts[1..]);
    }
  }

  lemma MulStrict(d: int, a: int, b: int)
    requires d > 0 && d * a < d * b
    ensures a < b
  {
    assert d * (b - a) == d * b - d * a;
  }

  lemma RoundingBounds(completed: nat, total: nat)
    requires completed <= total && total > 0
    ensures var p := (200 * completed + total) / (2 * total);
      2 * total * p <= 200 * completed + total < 2 * total * (p + 1) && p <= 100
  {
    var n, d := 200 * completed + total, 2 * total;
    var p := n / d;
    assert n == d * p + n % d;
    assert d * (p + 1) == d * p + d;
    assert n < d * (p + 1);
    assert n < d * 101;
    MulStrict(d, p, 101);
  }

  /** `totalTasks > 0 ? Math.round((completed / total) * 100) : 0`, in exact
      arithmetic: the percentage rounded half up, 0 for a day without tasks. */
  function Productivity(completed: nat, total: nat): (p: nat)
    requires completed <= total
    ensures p <= 100
    ensures total == 0 ==> p == 0
    ensures total > 0 ==> 2 * total * p <= 200 * completed + total < 2 * total * (p + 1)
  {
    if total == 0 then 0
    else
      RoundingBounds(completed, total);
      (200 * completed + total) / (2 * total)
  }

  /** No task done is 0%, every task done is 100%. */
  lemma ProductivityEnds(completed: nat, total: nat)
    requires completed <= total
    ensures completed == 0 ==> Productivity(completed, total) == 0
    ensures 0 < completed == total ==> Productivity(completed, total) == 100
  {
    var p := Productivity(completed, total);
    if total > 0 && completed == 0 {
      assert 2 * total * p < 2 * total * 1;
      MulStrict(2 * total, p, 1);
    }
    if total > 0 && completed == total {
      assert 2 * total * 100 < 2 * total * (p + 1);
      MulStrict(2 * total, 100, p + 1);
    }
  }

  /** A per-category count, one entry per category in the order categories are
      first met; the entries' order plays no part in any statement here. */
  type Counts = seq<(string, nat)>

  /** `acc[category] || 0`. */
  function Lookup(acc: Counts, category: string): nat {
    if acc == [] then 0 else if acc[0].0 == category then acc[0].1 else Lookup(acc[1..], category)
  }

  predicate HasKey(acc: Counts, category: string) {
    exists i :: 0 <= i < |acc| && acc[i].0 == category
  }

  predicate DistinctKeys(acc: Counts) {
    forall i, j :: 0 <= i < j < |acc| ==> acc[i].0 != acc[j].0
  }

  function CountTotal(acc: Counts): nat {
    if acc == [] then 0 else acc[0].1 + CountTotal(acc[1..])
  }

  lemma HasKeyCons(x: (string, nat), acc: Counts)
    ensures forall c :: HasKey([x] + acc, c) <==> x.0 == c || HasKey(acc, c)
  {
    forall c | HasKey([x] + acc, c) ensures x.0 == c || HasKey(acc, c) {
      var i :| 0 <= i < |[x] + acc| && ([x] + acc)[i].0 == c;
      if i > 0 { assert acc[i - 1].0 == c; }
    }
    forall c | HasKey(acc, c) ensures HasKey([x] + acc, c) {
      var i :| 0 <= i < |acc| && acc[i].0 == c;
      assert ([x] + acc)[i + 1].0 == c;
    }
    assert ([x] + acc)[0].0 == x.0;
  }

  /** `acc[category] = (acc[category] || 0) + 1`. */
  function Bump(acc: Counts, category: string): (r: Counts)
    ensures CountTotal(r) == CountTotal(acc) + 1
    ensures forall c :: Lookup(r, c) == Lookup(acc, c) + (if c == category then 1 else 0)
    ensures forall c :: HasKey(r, c) <==> HasKey(acc, c) || c == category
    ensures DistinctKeys(acc) ==> DistinctKeys(r)
  {
    if acc == [] then
      HasKeyCons((category, 1), []);
      [(category, 1)]
    else if acc[0].0 == category then
      var r := [(category, acc[0].1 + 1)] + acc[1..];
      HasKeyCons(acc[0], acc[1..]);
      assert acc == [acc[0]] + acc[1..];
      HasKeyCons(r[0], acc[1..]);
      r
    else
      var rest := Bump(acc[1..], category);
      var r := [acc[0]] + rest;
      HasKeyCons(acc[0], acc[1..]);
      assert acc == [acc[0]] + acc[1..];
      HasKeyCons(acc[0], rest);
      assert DistinctKeys(acc) ==> DistinctKeys(r) by {
        if DistinctKeys(acc) {
          assert DistinctKeys(acc[1..]) by {
            forall i, j | 0 <= i < j < |acc[1..]| ensures acc[1..][i].0 != acc[1..][j].0 {
              assert acc[1..][i] == acc[i + 1] && acc[1..][j] == acc[j + 1];
            }
          }
          assert !HasKey(acc[1..], acc[0].0);
          forall i, j | 0 <= i < j < |r| ensures r[i].0 != r[j].0 {
            if i == 0 { assert rest[j - 1] == r[j]; assert HasKey(rest, r[j].0); }
            else { assert rest[i - 1] == r[i] && rest[j - 1] == r[j]; }
          }
        }
      }
      r
  }

  /** `tasks.reduce((acc, task) => { acc[task.category] = ...; return acc }, {})`. */
  function Tally(ts: seq<Task>): Counts {
    if ts == [] then [] else Bump(Tally(ts[..|ts| - 1]), ts[|ts| - 1].category)
  }

  /** The tally counts every task once, under its own category, and lists each
      category once, exactly the categories present. */
  lemma {:induction false} TallyFacts(ts: seq<Task>)
    ensures CountTotal(Tally(ts)) == |ts|
    ensures DistinctKeys(Tally(ts))
    ensures forall c :: Lookup(Tally(ts), c) == |Filter(ts, InCategory(c))|
    ensures forall c :: HasKey(Tally(ts), c) <==> exists i :: 0 <= i < |ts| && ts[i].category == c
    decreases |ts|
  {
    if ts != [] {
      var init, last := ts[..|ts| - 1], ts[|ts| - 1];
      assert ts == init + [last];
      TallyFacts(init);
      forall c ensures Lookup(Tally(ts), c) == |Filter(ts, InCategory(c))| {
        TallyCountStep(init, last, c);
      }
      forall c ensures HasKey(Tally(ts), c) <==> exists i :: 0 <= i < |ts| && ts[i].category == c {
        TallyKeyStep(init, last, c);
      }
    }
  }

  lemma TallyCountStep(init: seq<Task>, last: Task, c: string)
    requires Lookup(Tally(init), c) == |Filter(init, InCategory(c))|
    ensures Lookup(Tally(init + [last]), c) == |Filter(init + [last], InCategory(c))|
  {
    var ts := init + [last];
    assert ts[..|ts| - 1] == init;
    FilterAppend(init, [last], InCategory(c));
    assert [last][1..] == [];
  }

  lemma TallyKeyStep(init: seq<Task>, last: Task, c: string)
    requires HasKey(Tally(init), c) <==> exists i :: 0 <= i < |init| && init[i].category == c
    ensures HasKey(Tally(init + [last]), c) <==> exists i :: 0 <= i < |init + [last]| && (init + [last])[i].category == c
  {
    var ts := init + [last];
    assert ts[..|ts| - 1] == init;
    if HasKey(Tally(init), c) {
      var i :| 0 <= i < |init| && init[i].category == c;
      assert ts[i].category == c;
    }
    if exists i :: 0 <= i < |ts| && ts[i].category == c {
      var i :| 0 <= i < |ts| && ts[i].category == c;
      if i < |init| { assert init[i].category == c; }
    }
  }

  /** What `getDailyStats` stores with a daily snapshot. */
  datatype DailyStats = DailyStats(
    totalTasks: nat, completedTasks: nat, totalTimeSpent: int, categories: Counts)

  /** `getDailyStats()` for the tasks of `date`: the counts are bounded by the
      total, and the per-category counts split the total with one entry per
      category present. */
  function DailyStatsFor(ts: seq<Task>, date: string): (st: DailyStats)
    ensures st.totalTasks == |DayTasks(ts, date)| <= |ts|
    ensures st.completedTasks == CompletedCount(DayTasks(ts, date)) <= st.totalTasks
    ensures st.totalTimeSpent == TimeSum(DayTasks(ts, date))
    ensures CountTotal(st.categories) == st.totalTasks
    ensures DistinctKeys(st.categories)
    ensures forall c :: Lookup(st.categories, c) == |Filter(DayTasks(ts, date), InCategory(c))|
  {
    var day := DayTasks(ts, date);
    TallyFacts(day);
    DailyStats(|day|, CompletedCount(day), TimeSum(day), Tally(day))
  }

  /** The four figures `updateStats` puts on the board. */
  datatype Summary = Summary(totalTasks: nat, completedTasks: nat, timeSpent: string, productivity: nat)

  /** `updateStats()` for the selected date. */
  function BoardSummary(ts: seq<Task>, date: string): (s: Summary)
    ensures s.totalTasks == |DayTasks(ts, date)| <= |ts|
    ensures s.completedTasks == CompletedCount(DayTasks(ts, date)) <= s.totalTasks
    ensures s.timeSpent == FormatTime(TimeSum(DayTasks(ts, date)))
    ensures s.productivity == Productivity(s.completedTasks, s.totalTasks)
    ensures s.productivity <= 100
    ensures s.totalTasks == 0 ==> s.productivity == 0
    ensures 0 < s.totalTasks == s.completedTasks ==> s.productivity == 100
    ensures s.completedTasks == 0 ==> s.productivity == 0
  {
    var day := DayTasks(ts, date);
    var total, completed := |day|, CompletedCount(day);
    var p := Productivity(completed, total);
    ProductivityEnds(completed, total);
    Summary(total, completed, FormatTime(TimeSum(day)), p)
  }
}
