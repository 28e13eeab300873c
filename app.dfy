/** The board's controller: the task list, the key-value store it persists to, and
    the Pomodoro timer, with one method per operation of the original class. The
    clock, the random choices, the generated ids, the form fields and the user's
    answers to confirmation dialogs are parameters. */
module App {
  import opened Wrappers
  import opened Tasks
  import opened Stats
  import opened Storage

  datatype TimerMode = Work | Break

  /** The timer's four fields; `bound` names the task the session is credited to. */
  datatype Timer = Timer(running: bool, mode: TimerMode, remaining: int, bound: Option<string>)

  /** The timer as the constructor leaves it: stopped, in work mode, 25 minutes. */
  const IdleTimer: Timer := Timer(false, Work, 25 * 60, None)

  /** `parseInt(field) || fallback`: `None` stands for a field that does not parse
      (NaN); NaN and 0 are both falsy and give the fallback. */
  function OrDefault(parsed: Option<int>, fallback: int): int {
    if parsed.Some? && parsed.value != 0 then parsed.value else fallback
  }

  function Flipped(m: TimerMode): TimerMode {
    if m == Work then Break else Work
  }

  // ---------------------------------------------------------------------------
  // The timer state machine, one function per transition

  /** `startTimer`. */
  function Started(t: Timer): Timer { t.(running := true) }

  /** `pauseTimer`. */
  function Paused(t: Timer): Timer { t.(running := false) }

  /** `resetTimer`: stop, and load the work duration. */
  function Reset(t: Timer, workField: Option<int>): Timer {
    t.(running := false, remaining := OrDefault(workField, 25) * 60)
  }

  /** `startTaskTimer` on a found task: bind it and load its estimate. */
  function BoundTo(t: Timer, id: string, estimatedMinutes: int): Timer {
    t.(bound := Some(id), remaining := estimatedMinutes * 60)
  }

  /** The tick body before its completion test. */
  function TickedDown(t: Timer): Timer { t.(remaining := t.remaining - 1) }

  /** `timerComplete`: stop, flip the mode, and load the break duration whichever
      mode is entered. */
  function Finished(t: Timer, breakField: Option<int>): Timer {
    t.(running := false, mode := Flipped(t.mode), remaining := OrDefault(breakField, 5) * 60)
  }

  /** Starting is a no-op on a running timer, and starting twice is starting once;
      pausing keeps the remaining time, mode and bound task; reset always loads a
      whole number of minutes, 25 when the field is blank or zero. */
  lemma TimerControls(t: Timer, workField: Option<int>)
    ensures t.running ==> Started(t) == t
    ensures Started(Started(t)) == Started(t)
    ensures var p := Paused(t); !p.running && p.remaining == t.remaining && p.mode == t.mode && p.bound == t.bound
    ensures !t.running ==> Paused(t) == t
    ensures Paused(Started(t)) == Paused(t)
    ensures var r := Reset(t, workField);
      !r.running && r.remaining % 60 == 0 && r.mode == t.mode && r.bound == t.bound
    ensures workField.None? || workField == Some(0) ==> Reset(t, workField).remaining == 1500
  {
  }

  /** Completion never leaves the timer running, alternates between work and
      break, keeps the bound task, and always loads the break duration: two
      completions later the mode is back where it was and the remaining time is
      the break duration, not the work duration. */
  lemma FinishAlternates(t: Timer, b1: Option<int>, b2: Option<int>)
    ensures var f := Finished(t, b1);
      !f.running && f.mode != t.mode && f.bound == t.bound && f.remaining == OrDefault(b1, 5) * 60
    ensures Finished(Finished(t, b1), b2).mode == t.mode
    ensures Finished(Finished(t, b1), b2).remaining == OrDefault(b2, 5) * 60
    ensures b1.None? ==> Finished(t, b1).remaining == 300
  {
  }

  /** `n` ticks that stay above zero. */
  function Ticks(t: Timer, n: nat): Timer {
    if n == 0 then t else TickedDown(Ticks(t, n - 1))
  }

  /** A timer loaded with `r` seconds counts down one second per tick until the
      r-th tick brings it to zero, which is when it completes. */
  lemma {:induction false} CountdownReachesZero(t: Timer, n: nat)
    ensures Ticks(t, n).remaining == t.remaining - n
    ensures Ticks(t, n).running == t.running && Ticks(t, n).mode == t.mode && Ticks(t, n).bound == t.bound
    ensures n + 1 < t.remaining ==> TickedDown(Ticks(t, n)).remaining > 0
    ensures n + 1 == t.remaining ==> TickedDown(Ticks(t, n)).remaining == 0
  {
    if n > 0 {
      CountdownReachesZero(t, n - 1);
    }
  }

  // ---------------------------------------------------------------------------
  // Default tasks

  predicate HasTaskOn(ts: seq<Task>, date: string) {
    exists i :: 0 <= i < |ts| && ts[i].date == date
  }

  /** `loadScheduleData`: the list with today's default tasks appended when no
      task is dated today. */
  function WithDefaults(ts: seq<Task>, c: Clock, picks: seq<nat>, ids: seq<string>): seq<Task>
    requires ValidPicks(picks) && |ids| == |Schedule|
  {
    if DayTasks(ts, c.today) == [] then ts + DailyTasks(|Schedule|, c.today, picks, ids, c.now) else ts
  }

  lemma DayTasksEmpty(ts: seq<Task>, date: string)
    ensures DayTasks(ts, date) == [] <==> !HasTaskOn(ts, date)
  {
    if HasTaskOn(ts, date) {
      var i :| 0 <= i < |ts| && ts[i].date == date;
      assert ts[i] in DayTasks(ts, date);
    }
    var d := DayTasks(ts, date);
    if d != [] {
      assert d[0] in ts && d[0].date == date;
      var i :| 0 <= i < |ts| && ts[i] == d[0];
    }
  }

  /** Defaults are generated exactly when no task is dated today; they are then
      appended after the existing tasks, one per category, all dated today; so a
      second run of the rule adds nothing. */
  lemma DefaultsOnlyWhenEmpty(ts: seq<Task>, c: Clock, picks: seq<nat>, ids: seq<string>, picks2: seq<nat>, ids2: seq<string>)
    requires ValidPicks(picks) && |ids| == |Schedule|
    requires ValidPicks(picks2) && |ids2| == |Schedule|
    ensures HasTaskOn(ts, c.today) ==> WithDefaults(ts, c, picks, ids) == ts
    ensures !HasTaskOn(ts, c.today) ==>
      var r := WithDefaults(ts, c, picks, ids);
      |r| == |ts| + |Schedule| && r[..|ts|] == ts
      && (forall k :: |ts| <= k < |r| ==> r[k].date == c.today && r[k].status == Todo)
    ensures HasTaskOn(WithDefaults(ts, c, picks, ids), c.today)
    ensures WithDefaults(WithDefaults(ts, c, picks, ids), c, picks2, ids2) == WithDefaults(ts, c, picks, ids)
  {
    DayTasksEmpty(ts, c.today);
    var r := WithDefaults(ts, c, picks, ids);
    var gen := DailyTasks(|Schedule|, c.today, picks, ids, c.now);
    if !HasTaskOn(ts, c.today) {
      assert r == ts + gen;
      assert r[..|ts|] == ts;
      forall k | |ts| <= k < |r| ensures r[k].date == c.today && r[k].status == Todo {
        assert r[k] == gen[k - |ts|];
      }
      assert r[|ts|].date == c.today;
    }
    DayTasksEmpty(r, c.today);
  }

  // ---------------------------------------------------------------------------
  // The controller

  class TaskManager {
    var tasks: seq<Task>
    var store: Store
    var isTimerRunning: bool
    var timerMode: TimerMode
    var timeRemaining: int
    var currentTimerTask: Option<string>
    /** How the browser orders the store's keys, for the loops that walk it. */
    const keyOrder: KeyOrder

    ghost function TimerState(): Timer
      reads this
    {
      Timer(isTimerRunning, timerMode, timeRemaining, currentTimerTask)
    }

    /** Load the saved tasks, set the timer idle, then apply the default-task rule. */
    constructor (initial: Store, order: KeyOrder, c: Clock, picks: seq<nat>, ids: seq<string>)
      requires ValidPicks(picks) && |ids| == |Schedule|
      ensures keyOrder == order
      ensures tasks == WithDefaults(LoadTasks(initial), c, picks, ids)
      ensures store == if HasTaskOn(LoadTasks(initial), c.today) then initial else Saved(initial, tasks, c, keyOrder)
      ensures TimerState() == IdleTimer
    {
      tasks := LoadTasks(initial);
      store := initial;
      isTimerRunning := false;
      timerMode := Work;
      timeRemaining := 25 * 60;
      currentTimerTask := None;
      keyOrder := order;
      new;
      LoadScheduleData(c, picks, ids);
    }

    // --- persistence -------------------------------------------------------

    /** `createBackup`: the descending slot-copy loop, then the new slot 1. */
    method CreateBackup(now: string)
      modifies this
      ensures store == Rotated(old(store), Backup(tasks, now))
      ensures tasks == old(tasks) && TimerState() == old(TimerState())
    {
      var i := 4;
      while i >= 1
        invariant 0 <= i <= 4
        invariant store == ShiftedAbove(old(store), i)
        invariant tasks == old(tasks) && TimerState() == old(TimerState())
        decreases i
      {
        if Filled(store, SlotKey(i)) {
          store := store[SlotKey(i + 1) := store[SlotKey(i)]];
        }
        i := i - 1;
      }
      store := store[SlotKey(1) := Backup(tasks, now)];
    }

    /** The cleanup loop done right: take the daily keys the sweep is after from a
        snapshot of the keys, then remove them one by one. */
    method SweepDaily(sw: Sweep)
      modifies this
      ensures store == Swept(old(store), sw)
      ensures tasks == old(tasks) && TimerState() == old(TimerState())
    {
      var pending := set k | k in store && Matches(sw, k);
      while pending != {}
        invariant pending <= old(store).Keys
        invariant forall k :: k in store <==> k in old(store) && (k in pending || !Matches(sw, k))
        invariant forall k :: k in store ==> store[k] == old(store)[k]
        invariant tasks == old(tasks) && TimerState() == old(TimerState())
        decreases pending
      {
        var k :| k in pending;
        store := store - {k};
        pending := pending - {k};
      }
      assert store.Keys == Swept(old(store), sw).Keys;
    }

    /** The cleanup loop as written: walk the store by position, in the browser's
        key order, and remove matching keys as they are met, so the key after each
        removed one moves into the removed position and is skipped. Only keys the
        sweep is after are removed, and no value changes. */
    method SweepDailyAsWritten(sw: Sweep)
      modifies this
      ensures store == old(store) - SweptAsWritten(keyOrder(old(store)), 0, sw)
      ensures forall k :: k in store ==> k in old(store) && store[k] == old(store)[k]
      ensures forall k :: k in old(store) && !Matches(sw, k) ==> k in store
      ensures tasks == old(tasks) && TimerState() == old(TimerState())
    {
      SweptAsWrittenEffect(store, keyOrder(store), sw);
      ghost var order := keyOrder(store);
      var ks := keyOrder(store);
      var i := 0;
      while i < |ks|
        invariant store - SweptAsWritten(ks, i, sw) == old(store) - SweptAsWritten(order, 0, sw)
        invariant tasks == old(tasks) && TimerState() == old(TimerState())
        decreases |ks| - i
      {
        var key := ks[i];
        if Matches(sw, key) {
          var rest := ks[..i] + ks[i + 1..];
          assert SweptAsWritten(ks, i, sw) == {key} + SweptAsWritten(rest, i + 1, sw);
          store := store - {key};
          ks := rest;
        }
        i := i + 1;
      }
      assert store - SweptAsWritten(ks, i, sw) == store;
    }

    /** `cleanOldBackups`: the prune loop as written over the daily snapshots
        dated before `keepFrom`; it removes only such snapshots and changes no
        value, but can skip some of them. */
    method CleanOldBackups(keepFrom: int)
      modifies this
      ensures store == old(store) - SweptAsWritten(keyOrder(old(store)), 0, StaleBefore(keepFrom))
      ensures forall k :: k in store ==> k in old(store) && store[k] == old(store)[k]
      ensures forall k :: k in old(store) && !Matches(StaleBefore(keepFrom), k) ==> k in store
      ensures tasks == old(tasks) && TimerState() == old(TimerState())
    {
      SweepDailyAsWritten(StaleBefore(keepFrom));
    }

    /** `autoBackup`: once per date, snapshot the tasks with today's statistics,
        set the marker, prune. */
    method AutoBackup(c: Clock)
      modifies this
      ensures store == AutoBackedUp(old(store), tasks, c, keyOrder)
      ensures tasks == old(tasks) && TimerState() == old(TimerState())
    {
      if !BackedUpToday(store, c.today) {
        store := store[DailyKey(c.today) := DailyBackup(c.today, tasks, DailyStatsFor(tasks, c.today))];
        store := store[LastDailyKey := Raw(c.today)];
        CleanOldBackups(c.keepFrom);
      }
    }

    /** `saveTasks`: rotate, write the list, write the metadata, daily check. */
    method SaveTasks(c: Clock)
      modifies this
      ensures store == Saved(old(store), tasks, c, keyOrder)
      ensures tasks == old(tasks) && TimerState() == old(TimerState())
    {
      CreateBackup(c.now);
      store := store[TasksKey := TaskList(tasks)];
      store := store[MetadataKey := Metadata(c.now, "1.0", |tasks|)];
      AutoBackup(c);
    }

    /** Replace the tasks by those a stored document holds and save; reports
        failure, changing nothing, when the key is empty or does not parse. */
    method RestoreFromKey(key: string, c: Clock) returns (ok: bool)
      modifies this
      ensures ok <==> Filled(old(store), key) && RestoredTasks(old(store)[key]).Some?
      ensures ok ==> tasks == RestoredTasks(old(store)[key]).value && store == Saved(old(store), tasks, c, keyOrder)
      ensures ok && (old(store)[key].Backup? || old(store)[key].DailyBackup?) ==> tasks == old(store)[key].tasks
      ensures ok && !(old(store)[key].Backup? || old(store)[key].DailyBackup?) ==> tasks == []
      ensures !ok ==> tasks == old(tasks) && store == old(store)
      ensures TimerState() == old(TimerState())
    {
      ok := false;
      if Filled(store, key) {
        match RestoredTasks(store[key])
        case Some(ts) =>
          tasks := ts;
          SaveTasks(c);
          ok := true;
        case None =>
      }
    }

    /** `restoreFromBackup(n)`, slot 1 when no number is given. */
    method RestoreFromBackup(c: Clock, n: nat := 1) returns (ok: bool)
      modifies this
      ensures ok <==> Filled(old(store), SlotKey(n)) && RestoredTasks(old(store)[SlotKey(n)]).Some?
      ensures ok ==> tasks == RestoredTasks(old(store)[SlotKey(n)]).value && store == Saved(old(store), tasks, c, keyOrder)
      ensures ok && (old(store)[SlotKey(n)].Backup? || old(store)[SlotKey(n)].DailyBackup?) ==> tasks == old(store)[SlotKey(n)].tasks
      ensures ok && !(old(store)[SlotKey(n)].Backup? || old(store)[SlotKey(n)].DailyBackup?) ==> tasks == []
      ensures !ok ==> tasks == old(tasks) && store == old(store)
      ensures TimerState() == old(TimerState())
    {
      ok := RestoreFromKey(SlotKey(n), c);
    }

    /** `restoreFromDailyBackup(date)`. */
    method RestoreFromDailyBackup(date: string, c: Clock) returns (ok: bool)
      modifies this
      ensures ok <==> Filled(old(store), DailyKey(date)) && RestoredTasks(old(store)[DailyKey(date)]).Some?
      ensures ok ==> tasks == RestoredTasks(old(store)[DailyKey(date)]).value && store == Saved(old(store), tasks, c, keyOrder)
      ensures ok && (old(store)[DailyKey(date)].Backup? || old(store)[DailyKey(date)].DailyBackup?) ==> tasks == old(store)[DailyKey(date)].tasks
      ensures ok && !(old(store)[DailyKey(date)].Backup? || old(store)[DailyKey(date)].DailyBackup?) ==> tasks == []
      ensures !ok ==> tasks == old(tasks) && store == old(store)
      ensures TimerState() == old(TimerState())
    {
      ok := RestoreFromKey(DailyKey(date), c);
    }

    /** `deleteBackup(key)`: remove that one key once the user confirms. */
    method DeleteBackup(key: string, confirmed: bool)
      modifies this
      ensures store == if confirmed then old(store) - {key} else old(store)
      ensures tasks == old(tasks) && TimerState() == old(TimerState())
    {
      if confirmed {
        store := store - {key};
      }
    }

    /** `clearAllData`: after two confirmations, empty the list and remove the live
        list, the metadata, the five slots and the daily snapshots. Nothing is
        saved afterwards and the date marker stays. */
    method ClearAllData(confirmed: bool, reconfirmed: bool)
      modifies this
      ensures confirmed && reconfirmed ==> tasks == [] && store == Cleared(old(store), keyOrder)
      ensures !(confirmed && reconfirmed) ==> tasks == old(tasks) && store == old(store)
      ensures TimerState() == old(TimerState())
    {
      if confirmed && reconfirmed {
        tasks := [];
        store := store - {TasksKey};
        store := store - {MetadataKey};
        ghost var base := store;
        for i := 1 to 6
          invariant store == ClearedSlots(base, i)
          invariant tasks == [] && TimerState() == old(TimerState())
        {
          store := store - {SlotKey(i)};
        }
        SweepDailyAsWritten(AllDaily);
      }
    }

    // --- task list ---------------------------------------------------------

    /** `generateDailyTasks`: append one task per schedule category, then save. */
    method GenerateDailyTasks(date: string, c: Clock, picks: seq<nat>, ids: seq<string>)
      requires ValidPicks(picks) && |ids| == |Schedule|
      modifies this
      ensures tasks == old(tasks) + DailyTasks(|Schedule|, date, picks, ids, c.now)
      ensures store == Saved(old(store), tasks, c, keyOrder)
      ensures TimerState() == old(TimerState())
    {
      for k := 0 to |Schedule|
        invariant tasks == old(tasks) + DailyTasks(k, date, picks, ids, c.now)
        invariant store == old(store) && TimerState() == old(TimerState())
      {
        tasks := tasks + [DailyTask(k, date, picks[k], ids[k], c.now)];
      }
      SaveTasks(c);
    }

    /** `loadScheduleData`: generate today's defaults when no task is dated today. */
    method LoadScheduleData(c: Clock, picks: seq<nat>, ids: seq<string>)
      requires ValidPicks(picks) && |ids| == |Schedule|
      modifies this
      ensures tasks == WithDefaults(old(tasks), c, picks, ids)
      ensures store == if HasTaskOn(old(tasks), c.today) then old(store) else Saved(old(store), tasks, c, keyOrder)
      ensures TimerState() == old(TimerState())
    {
      DayTasksEmpty(tasks, c.today);
      if DayTasks(tasks, c.today) == [] {
        GenerateDailyTasks(c.today, c, picks, ids);
      }
    }

    /** `handleAddTask`: append the task built from the form, then save. */
    method AddTask(form: TaskForm, id: string, c: Clock)
      modifies this
      ensures tasks == old(tasks) + [NewTask(form, id, c.now)]
      ensures store == Saved(old(store), tasks, c, keyOrder)
      ensures TimerState() == old(TimerState())
    {
      tasks := tasks + [NewTask(form, id, c.now)];
      SaveTasks(c);
    }

    /** `updateTaskStatus`: move the first task with `id` to `s` in place and save;
        an unknown id changes nothing and saves nothing. */
    method UpdateTaskStatus(id: string, s: Status, c: Clock)
      modifies this
      ensures tasks == StatusUpdated(old(tasks), id, s, c.now)
      ensures store == if HasId(old(tasks), id) then Saved(old(store), tasks, c, keyOrder) else old(store)
      ensures TimerState() == old(TimerState())
    {
      match FirstIndex(tasks, id)
      case Some(i) =>
        tasks := tasks[i := WithStatus(tasks[i], s, c.now)];
        SaveTasks(c);
      case None =>
    }

    /** `deleteTask`: once confirmed, drop every task with `id` and save. */
    method DeleteTask(id: string, confirmed: bool, c: Clock)
      modifies this
      ensures tasks == if confirmed then Without(old(tasks), id) else old(tasks)
      ensures store == if confirmed then Saved(old(store), tasks, c, keyOrder) else old(store)
      ensures TimerState() == old(TimerState())
    {
      if confirmed {
        tasks := Without(tasks, id);
        SaveTasks(c);
      }
    }

    /** `resetToDefault`: once confirmed, back up the current list, empty it, and
        generate today's defaults (which saves). */
    method ResetToDefault(confirmed: bool, c: Clock, picks: seq<nat>, ids: seq<string>)
      requires ValidPicks(picks) && |ids| == |Schedule|
      modifies this
      ensures confirmed ==> tasks == DailyTasks(|Schedule|, c.today, picks, ids, c.now)
      ensures confirmed ==> store == Saved(Rotated(old(store), Backup(old(tasks), c.now)), tasks, c, keyOrder)
      ensures !confirmed ==> tasks == old(tasks) && store == old(store)
      ensures TimerState() == old(TimerState())
    {
      if confirmed {
        CreateBackup(c.now);
        tasks := [];
        LoadScheduleData(c, picks, ids);
      }
    }

    /** `importData` once the file text is read: replace the list by what it
        parses to and save; a parse failure (`None`) changes nothing. */
    method ImportData(parsed: Option<seq<Task>>, c: Clock)
      modifies this
      ensures parsed.Some? ==> tasks == parsed.value && store == Saved(old(store), tasks, c, keyOrder)
      ensures parsed.None? ==> tasks == old(tasks) && store == old(store)
      ensures TimerState() == old(TimerState())
    {
      if parsed.Some? {
        tasks := parsed.value;
        SaveTasks(c);
      }
    }

    // --- timer -------------------------------------------------------------

    /** `startTaskTimer`: bind the first task with `id` and load its estimate. */
    method StartTaskTimer(id: string)
      modifies this
      ensures HasId(tasks, id) ==>
        TimerState() == BoundTo(old(TimerState()), id, tasks[FirstIndex(tasks, id).value].estimatedTime)
      ensures !HasId(tasks, id) ==> TimerState() == old(TimerState())
      ensures tasks == old(tasks) && store == old(store)
    {
      match FirstIndex(tasks, id)
      case Some(i) =>
        currentTimerTask := Some(id);
        timeRemaining := tasks[i].estimatedTime * 60;
      case None =>
    }

    /** `startTimer`. */
    method StartTimer()
      modifies this
      ensures TimerState() == Started(old(TimerState()))
      ensures tasks == old(tasks) && store == old(store)
    {
      if !isTimerRunning {
        isTimerRunning := true;
      }
    }

    /** `pauseTimer`. */
    method PauseTimer()
      modifies this
      ensures TimerState() == Paused(old(TimerState()))
      ensures tasks == old(tasks) && store == old(store)
    {
      if isTimerRunning {
        isTimerRunning := false;
      }
    }

    /** `resetTimer`, given the parsed work-duration field. */
    method ResetTimer(workField: Option<int>)
      modifies this
      ensures TimerState() == Reset(old(TimerState()), workField)
      ensures tasks == old(tasks) && store == old(store)
    {
      PauseTimer();
      timeRemaining := OrDefault(workField, 25) * 60;
    }

    /** `timerComplete`, given the work minutes and the parsed break-duration
        field: stop, credit a bound task with a full work session and save, flip
        the mode, load the break duration. */
    method TimerComplete(workMinutes: int, breakField: Option<int>, c: Clock)
      modifies this
      ensures TimerState() == Finished(old(TimerState()), breakField)
      ensures old(currentTimerTask).Some? ==>
        tasks == Credited(old(tasks), old(currentTimerTask).value, workMinutes * 60)
        && store == Saved(old(store), tasks, c, keyOrder)
      ensures old(currentTimerTask).None? ==> tasks == old(tasks) && store == old(store)
    {
      PauseTimer();
      if currentTimerTask.Some? {
        tasks := Credited(tasks, currentTimerTask.value, workMinutes * 60);
        SaveTasks(c);
      }
      timerMode := Flipped(timerMode);
      timeRemaining := OrDefault(breakField, 5) * 60;
    }

    /** One second of a running timer: count down, and complete on reaching zero. */
    method Tick(workMinutes: int, breakField: Option<int>, c: Clock)
      requires isTimerRunning
      modifies this
      ensures old(timeRemaining) - 1 > 0 ==>
        TimerState() == TickedDown(old(TimerState())) && tasks == old(tasks) && store == old(store)
      ensures old(timeRemaining) - 1 <= 0 ==>
        TimerState() == Finished(TickedDown(old(TimerState())), breakField)
      ensures old(timeRemaining) - 1 <= 0 && old(currentTimerTask).Some? ==>
        tasks == Credited(old(tasks), old(currentTimerTask).value, workMinutes * 60)
        && store == Saved(old(store), tasks, c, keyOrder)
      ensures old(timeRemaining) - 1 <= 0 && old(currentTimerTask).None? ==>
        tasks == old(tasks) && store == old(store)
    {
      timeRemaining := timeRemaining - 1;
      if timeRemaining <= 0 {
        TimerComplete(workMinutes, breakField, c);
      }
    }
  }

  // ---------------------------------------------------------------------------
  // Properties of whole operations

  /** After a reset to defaults, slot 1 holds the new default list and slot 2
      the list that was replaced. */
  lemma ResetKeepsPreviousList(s: Store, old_ts: seq<Task>, c: Clock, order: KeyOrder, picks: seq<nat>, ids: seq<string>)
    requires ValidPicks(picks) && |ids| == |Schedule|
    ensures var ts := DailyTasks(|Schedule|, c.today, picks, ids, c.now);
      var r := Saved(Rotated(s, Backup(old_ts, c.now)), ts, c, order);
      && SlotKey(1) in r && r[SlotKey(1)] == Backup(ts, c.now)
      && SlotKey(2) in r && r[SlotKey(2)] == Backup(old_ts, c.now)
  {
    var ts := DailyTasks(|Schedule|, c.today, picks, ids, c.now);
    var mid := Rotated(s, Backup(old_ts, c.now));
    RotatedSlots(s, Backup(old_ts, c.now));
    RotatedSlots(mid, Backup(ts, c.now));
    SavedLiveCopy(mid, ts, c, order);
    assert Filled(mid, SlotKey(1));
    assert SlotKey(1 + 1) == SlotKey(2);
  }

  /** A status move followed by a save and a load gives back the moved list (when
      every task has an id and a title); deleting keeps every other task. */
  lemma EditsSurviveReload(s: Store, ts: seq<Task>, id: string, st: Status, c: Clock, order: KeyOrder)
    requires forall i :: 0 <= i < |ts| ==> Loadable(ts[i])
    ensures LoadTasks(Saved(s, StatusUpdated(ts, id, st, c.now), c, order)) == StatusUpdated(ts, id, st, c.now)
    ensures LoadTasks(Saved(s, Without(ts, id), c, order)) == Without(ts, id)
  {
    MovedLoadable(ts, id, st, c.now);
    LoadAfterSave(s, StatusUpdated(ts, id, st, c.now), c, order);
    KeptLoadable(ts, id);
    LoadAfterSave(s, Without(ts, id), c, order);
  }

  lemma MovedLoadable(ts: seq<Task>, id: string, st: Status, now: string)
    requires forall i :: 0 <= i < |ts| ==> Loadable(ts[i])
    ensures forall i :: 0 <= i < |StatusUpdated(ts, id, st, now)| ==> Loadable(StatusUpdated(ts, id, st, now)[i])
  {
    var moved := StatusUpdated(ts, id, st, now);
    forall i | 0 <= i < |moved| ensures Loadable(moved[i]) {
      if Some(i) == FirstIndex(ts, id) {
        assert moved[i] == WithStatus(ts[i], st, now);
      }
    }
  }

  lemma KeptLoadable(ts: seq<Task>, id: string)
    requires forall i :: 0 <= i < |ts| ==> Loadable(ts[i])
    ensures forall i :: 0 <= i < |Without(ts, id)| ==> Loadable(Without(ts, id)[i])
  {
    var kept := Without(ts, id);
    forall i | 0 <= i < |kept| ensures Loadable(kept[i]) {
      var j :| 0 <= j < |ts| && ts[j] == kept[i];
    }
  }
}
