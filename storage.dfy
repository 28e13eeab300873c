/** What the board keeps in the browser's key-value store, and the pure effect on
    that store of every persistence operation: the five-slot backup rotation, the
    once-a-day snapshot, the 30-day prune, the save sequence, load, restore and
    the full wipe. Values are abstract documents rather than JSON text. */
module Storage {
  import opened Wrappers
  import opened Strings
  import opened Tasks
  import opened Stats

  /** A stored value, by the kind of document its text holds. */
  datatype StoredValue =
    | TaskList(entries: seq<Task>)                          // a JSON array of task records
    | Metadata(lastSaved: string, version: string, taskCount: nat)
    | Backup(tasks: seq<Task>, timestamp: string)           // `{tasks, timestamp}`
    | DailyBackup(date: string, tasks: seq<Task>, stats: DailyStats)
    | Document(text: string)  // any other JSON value but `null`: it has no `tasks` member
    | Raw(text: string)       // text that does not parse, or parses to `null`; the date marker

  type Store = map<string, StoredValue>

  /** The order in which `localStorage.key(0), key(1), ...` list a store's keys.
      The user agent picks it, so it is a parameter of every operation whose
      effect depends on it. */
  type KeyOrder = Store -> seq<string>

  /** The clock readings an operation needs: the ISO timestamp, today's ISO date,
      and the first date (as YYYYMMDD) that the 30-day retention keeps. */
  datatype Clock = Clock(now: string, today: string, keepFrom: int)

  const TasksKey: string := "kanban_tasks"
  const MetadataKey: string := "kanban_metadata"
  const LastDailyKey: string := "last_daily_backup"
  const SlotPrefix: string := "kanban_backup_"
  const DailyPrefix: string := "daily_backup_"

  /** `kanban_backup_<n>`. */
  function SlotKey(n: nat): string { SlotPrefix + NatToString(n) }

  /** `daily_backup_<date>`. */
  function DailyKey(date: string): string { DailyPrefix + date }

  /** `key.startsWith("daily_backup_")`. */
  predicate IsDailyKey(k: string) { DailyPrefix <= k }

  predicate IsSlotKey(k: string) { exists n :: 1 <= n <= 5 && k == SlotKey(n) }

  /** The keys the board itself writes or removes. */
  predicate AppKey(k: string) {
    k == TasksKey || k == MetadataKey || k == LastDailyKey || IsSlotKey(k) || IsDailyKey(k)
  }

  /** JavaScript truthiness of the text `getItem` returns: only the empty text is falsy. */
  predicate Truthy(v: StoredValue) { v != Raw("") }

  /** `if (localStorage.getItem(k))`. */
  predicate Filled(s: Store, k: string) { k in s && Truthy(s[k]) }

  /** `k` is absent from both stores or holds the same value in both. */
  predicate SameAt(s: Store, r: Store, k: string) {
    (k in s <==> k in r) && (k in s ==> s[k] == r[k])
  }

  lemma {:induction false} SlotKeyInjective(i: nat, j: nat)
    ensures SlotKey(i) == SlotKey(j) ==> i == j
  {
    if SlotKey(i) == SlotKey(j) {
      assert SlotKey(i)[|SlotPrefix|..] == NatToString(i);
      assert SlotKey(j)[|SlotPrefix|..] == NatToString(j);
      NatToStringInjective(i, j);
    }
  }

  /** The fixed keys and the slot keys are not daily keys, and none of them is
      another. */
  lemma KeyFamiliesApart()
    ensures forall n: nat :: SlotKey(n) != TasksKey && SlotKey(n) != MetadataKey
    ensures forall n: nat :: SlotKey(n) != LastDailyKey && !IsDailyKey(SlotKey(n))
    ensures !IsDailyKey(TasksKey) && !IsDailyKey(MetadataKey) && !IsDailyKey(LastDailyKey)
    ensures TasksKey != MetadataKey && TasksKey != LastDailyKey && MetadataKey != LastDailyKey
  {
    forall n: nat ensures SlotKey(n) != TasksKey && SlotKey(n) != MetadataKey
      && SlotKey(n) != LastDailyKey && !IsDailyKey(SlotKey(n))
    {
      assert SlotKey(n)[7] == 'b' && SlotKey(n)[0] == 'k';
      assert TasksKey[7] == 't' && MetadataKey[7] == 'm' && LastDailyKey[0] == 'l';
      assert DailyPrefix[0] == 'd';
    }
    assert TasksKey[0] == 'k' && MetadataKey[0] == 'k' && LastDailyKey[0] == 'l';
    assert TasksKey[7] == 't' && MetadataKey[7] == 'm';
  }

  /** The key families do not overlap. */
  lemma KeyFacts()
    ensures forall i: nat, j: nat :: SlotKey(i) == SlotKey(j) ==> i == j
    ensures forall n: nat :: SlotKey(n) != TasksKey && SlotKey(n) != MetadataKey
    ensures forall n: nat :: SlotKey(n) != LastDailyKey && !IsDailyKey(SlotKey(n))
    ensures forall d :: IsDailyKey(DailyKey(d))
    ensures !IsDailyKey(TasksKey) && !IsDailyKey(MetadataKey) && !IsDailyKey(LastDailyKey)
    ensures TasksKey != MetadataKey && TasksKey != LastDailyKey && MetadataKey != LastDailyKey
  {
    forall i: nat, j: nat ensures SlotKey(i) == SlotKey(j) ==> i == j {
      SlotKeyInjective(i, j);
    }
    KeyFamiliesApart();
    forall d ensures IsDailyKey(DailyKey(d)) {
      assert DailyKey(d)[..|DailyPrefix|] == DailyPrefix;
    }
  }

  // ---------------------------------------------------------------------------
  // Rotation (createBackup)

  /** One pass of the slot-copy loop: slot `i` is copied into slot `i + 1` when it is filled. */
  function ShiftSlot(s: Store, i: nat): Store {
    if Filled(s, SlotKey(i)) then s[SlotKey(i + 1) := s[SlotKey(i)]] else s
  }

  /** The store after the loop passes for `4, 3, ..., i + 1`. */
  function ShiftedAbove(s: Store, i: nat): Store
    requires i <= 4
    decreases 4 - i
  {
    if i == 4 then s else ShiftSlot(ShiftedAbove(s, i + 1), i + 1)
  }

  /** `createBackup()` with `snapshot` as the new slot-1 document. */
  function Rotated(s: Store, snapshot: StoredValue): Store {
    ShiftedAbove(s, 0)[SlotKey(1) := snapshot]
  }

  lemma ShiftSlotFrame(t: Store, i: nat)
    ensures forall k :: k != SlotKey(i + 1) ==> SameAt(t, ShiftSlot(t, i), k)
    ensures Filled(t, SlotKey(i)) ==> SlotKey(i + 1) in ShiftSlot(t, i) && ShiftSlot(t, i)[SlotKey(i + 1)] == t[SlotKey(i)]
    ensures !Filled(t, SlotKey(i)) ==> ShiftSlot(t, i) == t
  {
  }

  lemma ShiftSlotKeeps(t: Store, i: nat, j: nat)
    requires j != i + 1
    ensures SameAt(t, ShiftSlot(t, i), SlotKey(j))
  {
    SlotKeyInjective(j, i + 1);
  }

  lemma ShiftedAboveUnfolded(s: Store)
    ensures ShiftedAbove(s, 0) == ShiftSlot(ShiftSlot(ShiftSlot(ShiftSlot(s, 4), 3), 2), 1)
  {
    assert ShiftedAbove(s, 3) == ShiftSlot(s, 4);
    assert ShiftedAbove(s, 2) == ShiftSlot(ShiftSlot(s, 4), 3);
    assert ShiftedAbove(s, 1) == ShiftSlot(ShiftSlot(ShiftSlot(s, 4), 3), 2);
  }

  /** Slot `i + 1` after `createBackup`, for i = 1..4: the passes above `i` leave
      slots `i` and `i + 1` alone, pass `i` copies, the passes below `i` and the
      final write of slot 1 leave slot `i + 1` alone. */
  lemma RotatedSlot(s: Store, v: StoredValue, i: nat)
    requires 1 <= i < 5
    ensures var r := Rotated(s, v);
      && (Filled(s, SlotKey(i)) ==> SlotKey(i + 1) in r && r[SlotKey(i + 1)] == s[SlotKey(i)])
      && (!Filled(s, SlotKey(i)) ==> SameAt(s, r, SlotKey(i + 1)))
  {
    var s4 := ShiftSlot(s, 4);
    var s3 := ShiftSlot(s4, 3);
    var s2 := ShiftSlot(s3, 2);
    var s1 := ShiftSlot(s2, 1);
    ShiftedAboveUnfolded(s);
    SlotKeyInjective(i + 1, 1);
    if i == 4 {
      ShiftSlotFrame(s, 4);
      ShiftSlotKeeps(s4, 3, 5);
      ShiftSlotKeeps(s3, 2, 5);
      ShiftSlotKeeps(s2, 1, 5);
    } else if i == 3 {
      ShiftSlotKeeps(s, 4, 3);
      ShiftSlotKeeps(s, 4, 4);
      ShiftSlotFrame(s4, 3);
      ShiftSlotKeeps(s3, 2, 4);
      ShiftSlotKeeps(s2, 1, 4);
    } else if i == 2 {
      ShiftSlotKeeps(s, 4, 2);
      ShiftSlotKeeps(s, 4, 3);
      ShiftSlotKeeps(s4, 3, 2);
      ShiftSlotKeeps(s4, 3, 3);
      ShiftSlotFrame(s3, 2);
      ShiftSlotKeeps(s2, 1, 3);
    } else {
      ShiftSlotKeeps(s, 4, 1);
      ShiftSlotKeeps(s, 4, 2);
      ShiftSlotKeeps(s4, 3, 1);
      ShiftSlotKeeps(s4, 3, 2);
      ShiftSlotKeeps(s3, 2, 1);
      ShiftSlotKeeps(s3, 2, 2);
      ShiftSlotFrame(s2, 1);
    }
  }

  /** `createBackup` writes the five slots and nothing else. */
  lemma RotatedOthers(s: Store, v: StoredValue)
    ensures forall k :: !IsSlotKey(k) ==> SameAt(s, Rotated(s, v), k)
  {
    var s4 := ShiftSlot(s, 4);
    var s3 := ShiftSlot(s4, 3);
    var s2 := ShiftSlot(s3, 2);
    ShiftedAboveUnfolded(s);
    ShiftSlotFrame(s, 4);
    ShiftSlotFrame(s4, 3);
    ShiftSlotFrame(s3, 2);
    ShiftSlotFrame(s2, 1);
    forall k | !IsSlotKey(k) ensures SameAt(s, Rotated(s, v), k) {
      assert k != SlotKey(1) && k != SlotKey(2) && k != SlotKey(3) && k != SlotKey(4) && k != SlotKey(5);
      assert SlotKey(4 + 1) == SlotKey(5) && SlotKey(3 + 1) == SlotKey(4);
      assert SlotKey(2 + 1) == SlotKey(3) && SlotKey(1 + 1) == SlotKey(2);
    }
  }

  /** After `createBackup`, slot 1 holds the new snapshot; for i = 1..4, slot i + 1
      holds the old slot i when that was filled and otherwise keeps its old value;
      every key other than the five slots is untouched. */
  lemma RotatedSlots(s: Store, v: StoredValue)
    ensures var r := Rotated(s, v);
      && SlotKey(1) in r && r[SlotKey(1)] == v
      && (forall i :: 1 <= i < 5 && Filled(s, SlotKey(i)) ==>
            SlotKey(i + 1) in r && r[SlotKey(i + 1)] == s[SlotKey(i)])
      && (forall i :: 1 <= i < 5 && !Filled(s, SlotKey(i)) ==> SameAt(s, r, SlotKey(i + 1)))
      && (forall k :: !IsSlotKey(k) ==> SameAt(s, r, k))
  {
    forall i | 1 <= i < 5 ensures
      var r := Rotated(s, v);
      && (Filled(s, SlotKey(i)) ==> SlotKey(i + 1) in r && r[SlotKey(i + 1)] == s[SlotKey(i)])
      && (!Filled(s, SlotKey(i)) ==> SameAt(s, r, SlotKey(i + 1)))
    {
      RotatedSlot(s, v, i);
    }
    RotatedOthers(s, v);
  }

  /** `createBackup` applied once per snapshot in `vs`, oldest first. */
  function RotateAll(s: Store, vs: seq<StoredValue>): Store {
    if vs == [] then s else Rotated(RotateAll(s, vs[..|vs| - 1]), vs[|vs| - 1])
  }

  /** After n rotations, slot k (for k up to min(n, 5)) holds the k-th most recent
      snapshot, whatever the slots held before: the five slots are the last five
      snapshots, newest first, and anything older is gone from them. */
  lemma {:induction false} RecentSnapshotsInSlots(s: Store, vs: seq<StoredValue>, k: nat)
    requires forall j :: 0 <= j < |vs| ==> Truthy(vs[j])
    requires 1 <= k <= 5 && k <= |vs|
    ensures SlotKey(k) in RotateAll(s, vs) && RotateAll(s, vs)[SlotKey(k)] == vs[|vs| - k]
    decreases |vs|
  {
    var n := |vs|;
    var init := vs[..n - 1];
    var before := RotateAll(s, init);
    assert RotateAll(s, vs) == Rotated(before, vs[n - 1]);
    if k > 1 {
      RecentSnapshotsInSlots(s, init, k - 1);
      assert init[|init| - (k - 1)] == vs[n - k];
      assert Filled(before, SlotKey(k - 1));
      RotatedSlot(before, vs[n - 1], k - 1);
      assert SlotKey(k - 1 + 1) == SlotKey(k);
    }
  }

  // ---------------------------------------------------------------------------
  // Pruning and wiping daily snapshots

  /** Which daily snapshots a cleanup loop is after: those dated before
      `keepFrom` (`cleanOldBackups`), or all of them (`clearAllData`). */
  datatype Sweep = StaleBefore(keepFrom: int) | AllDaily

  /** `new Date(date) < thirtyDaysAgo`; a date that does not parse compares false. */
  predicate StaleDate(date: string, keepFrom: int) {
    match ParseDate(date)
    case None => false
    case Some(d) => d < keepFrom
  }

  /** The test the cleanup loop applies to each key. */
  predicate Matches(sw: Sweep, k: string) {
    IsDailyKey(k) && (sw.AllDaily? || StaleDate(k[|DailyPrefix|..], sw.keepFrom))
  }

  /** The store with every key the sweep is after removed, and nothing else. */
  function Swept(s: Store, sw: Sweep): (r: Store)
    ensures forall k :: k in r <==> k in s && !Matches(sw, k)
    ensures forall k :: k in r ==> r[k] == s[k]
  {
    map k | k in s && !Matches(sw, k) :: s[k]
  }

  /** The prune removes daily snapshots dated before `keepFrom` and nothing else:
      every key outside the daily family, every daily key dated inside the window
      and every daily key whose date does not parse keeps its value. */
  lemma PruneSafety(s: Store, keepFrom: int)
    ensures var r := Swept(s, StaleBefore(keepFrom));
      && (forall k :: !IsDailyKey(k) ==> SameAt(s, r, k))
      && (forall d :: ParseDate(d).None? || ParseDate(d).value >= keepFrom ==> SameAt(s, r, DailyKey(d)))
      && (forall d :: ParseDate(d).Some? && ParseDate(d).value < keepFrom ==> DailyKey(d) !in r)
  {
    forall d ensures DailyKey(d)[|DailyPrefix|..] == d && IsDailyKey(DailyKey(d)) {
      assert DailyKey(d)[..|DailyPrefix|] == DailyPrefix;
    }
  }

  /** The keys the cleanup loop as written removes, run from index `i` on the key
      list `ks` in `localStorage.key` order: removing the key at `i` moves the next
      key down to `i`, and the loop then moves on to `i + 1`. The other keys are
      taken to keep their relative order across a removal. */
  function SweptAsWritten(ks: seq<string>, i: nat, sw: Sweep): set<string>
    decreases |ks| - i
  {
    if i >= |ks| then {}
    else if Matches(sw, ks[i]) then {ks[i]} + SweptAsWritten(ks[..i] + ks[i + 1..], i + 1, sw)
    else SweptAsWritten(ks, i + 1, sw)
  }

  /** The loop as written removes only keys the sweep is after. */
  lemma {:induction false} SweptAsWrittenOnlyMatching(ks: seq<string>, i: nat, sw: Sweep)
    ensures forall k :: k in SweptAsWritten(ks, i, sw) ==> Matches(sw, k) && k in ks
    decreases |ks| - i
  {
    if i < |ks| {
      if Matches(sw, ks[i]) {
        var rest := ks[..i] + ks[i + 1..];
        SweptAsWrittenOnlyMatching(rest, i + 1, sw);
        forall k | k in rest ensures k in ks {
          var j :| 0 <= j < |rest| && rest[j] == k;
          if j < i { assert ks[j] == k; } else { assert ks[j + 1] == k; }
        }
      } else {
        SweptAsWrittenOnlyMatching(ks, i + 1, sw);
      }
    }
  }

  /** Running the loop as written over `s`: it removes no key the sweep is not
      after, changes no value, and keeps every key the sweep is not after. */
  lemma SweptAsWrittenEffect(s: Store, ks: seq<string>, sw: Sweep)
    ensures var r := s - SweptAsWritten(ks, 0, sw);
      && (forall k :: k in r ==> k in s && r[k] == s[k])
      && (forall k :: k in s && !Matches(sw, k) ==> k in r)
      && (forall k :: k in s && k !in r ==> Matches(sw, k))
  {
    SweptAsWrittenOnlyMatching(ks, 0, sw);
  }

  /** Two adjacent daily keys: the loop as written removes the first and skips the
      second, so `clearAllData` leaves a daily snapshot behind. */
  lemma WipeSkipsAdjacentKey()
    ensures var ks := [DailyKey("2024-01-01"), DailyKey("2024-01-02")];
      Matches(AllDaily, ks[1]) && ks[1] !in SweptAsWritten(ks, 0, AllDaily)
  {
    var ks := [DailyKey("2024-01-01"), DailyKey("2024-01-02")];
    KeyFacts();
    assert ks[0] != ks[1] by { assert ks[0][22] != ks[1][22]; }
    assert ks[..0] + ks[1..] == [ks[1]];
    assert SweptAsWritten(ks, 0, AllDaily) == {ks[0]} + SweptAsWritten([ks[1]], 1, AllDaily);
  }

  lemma ParseDateExamples()
    ensures ParseDate("2024-01-01") == Some(20240101)
    ensures ParseDate("2024-01-02") == Some(20240102)
  {
    assert "2024"[..3] == "202" && "202"[..2] == "20" && "20"[..1] == "2" && "2"[..0] == "";
    assert "01"[..1] == "0" && "0"[..0] == "" && "02"[..1] == "0";
    assert ParseNat("2024") == 2024;
    assert ParseNat("01") == 1 && ParseNat("02") == 2;
    assert "2024-01-01"[..4] == "2024" && "2024-01-01"[5..7] == "01" && "2024-01-01"[8..] == "01";
    assert "2024-01-02"[..4] == "2024" && "2024-01-02"[5..7] == "01" && "2024-01-02"[8..] == "02";
  }

  /** Two adjacent stale daily keys: the prune as written removes the first and
      skips the second, so a snapshot older than the window survives. */
  lemma PruneSkipsAdjacentKey()
    ensures var ks := [DailyKey("2024-01-01"), DailyKey("2024-01-02")];
      Matches(StaleBefore(20240301), ks[1]) && ks[1] !in SweptAsWritten(ks, 0, StaleBefore(20240301))
  {
    var ks := [DailyKey("2024-01-01"), DailyKey("2024-01-02")];
    var sw := StaleBefore(20240301);
    KeyFacts();
    assert ks[0] != ks[1] by { assert ks[0][22] != ks[1][22]; }
    assert ks[0][|DailyPrefix|..] == "2024-01-01";
    assert ks[1][|DailyPrefix|..] == "2024-01-02";
    ParseDateExamples();
    assert ks[..0] + ks[1..] == [ks[1]];
    assert SweptAsWritten(ks, 0, sw) == {ks[0]} + SweptAsWritten([ks[1]], 1, sw);
  }

  // ---------------------------------------------------------------------------
  // The daily snapshot and the save sequence

  /** The date marker already names today. */
  predicate BackedUpToday(s: Store, today: string) {
    LastDailyKey in s && s[LastDailyKey] == Raw(today)
  }

  /** `autoBackup()`: unless the marker names today, write today's snapshot, set
      the marker, and run the prune loop as written over the store in `order`. */
  function AutoBackedUp(s: Store, ts: seq<Task>, c: Clock, order: KeyOrder): Store {
    if BackedUpToday(s, c.today) then s
    else
      var written := s[DailyKey(c.today) := DailyBackup(c.today, ts, DailyStatsFor(ts, c.today))][LastDailyKey := Raw(c.today)];
      written - SweptAsWritten(order(written), 0, StaleBefore(c.keepFrom))
  }

  /** `saveTasks()`: rotate, write the live list, write the metadata, daily check. */
  function Saved(s: Store, ts: seq<Task>, c: Clock, order: KeyOrder): Store {
    var rotated := Rotated(s, Backup(ts, c.now));
    var written := rotated[TasksKey := TaskList(ts)][MetadataKey := Metadata(c.now, "1.0", |ts|)];
    AutoBackedUp(written, ts, c, order)
  }

  lemma DailyKeyFacts(d: string)
    ensures IsDailyKey(DailyKey(d)) && DailyKey(d)[|DailyPrefix|..] == d
    ensures !IsDailyKey(LastDailyKey) && DailyKey(d) != LastDailyKey
  {
    assert DailyKey(d)[..|DailyPrefix|] == DailyPrefix;
    assert LastDailyKey[0] == 'l' && DailyPrefix[0] == 'd';
  }

  /** The daily check changes daily keys and the marker only, afterwards the
      marker names today, and on a day already backed up it changes nothing. */
  lemma AutoBackupFrame(s: Store, ts: seq<Task>, c: Clock, order: KeyOrder)
    ensures var r := AutoBackedUp(s, ts, c, order);
      && (forall k :: !IsDailyKey(k) && k != LastDailyKey ==> SameAt(s, r, k))
      && BackedUpToday(r, c.today)
      && (BackedUpToday(s, c.today) ==> r == s)
  {
    DailyKeyFacts(c.today);
    if !BackedUpToday(s, c.today) {
      var snapshot := DailyBackup(c.today, ts, DailyStatsFor(ts, c.today));
      var written := s[DailyKey(c.today) := snapshot][LastDailyKey := Raw(c.today)];
      var sw := StaleBefore(c.keepFrom);
      var r := written - SweptAsWritten(order(written), 0, sw);
      assert !Matches(sw, LastDailyKey);
      PrunedAfterWrites(s, DailyKey(c.today), snapshot, LastDailyKey, Raw(c.today), order(written), sw);
      forall k | !IsDailyKey(k) && k != LastDailyKey ensures SameAt(s, r, k) {
        assert !Matches(sw, k);
      }
    }
  }

  /** On a day not yet backed up, the daily check adds no key but today's snapshot
      and the marker, removes only stale daily keys, keeps every key the prune is
      not after, changes no other value, and leaves today's snapshot unless today
      itself counts as stale. Which stale keys go depends on the key order. */
  lemma AutoBackupNewDay(s: Store, ts: seq<Task>, c: Clock, order: KeyOrder)
    requires !BackedUpToday(s, c.today)
    ensures var r := AutoBackedUp(s, ts, c, order);
      && (forall k :: k in r ==> k in s || k == DailyKey(c.today) || k == LastDailyKey)
      && (forall k :: k in s && k !in r ==> Matches(StaleBefore(c.keepFrom), k))
      && (forall k :: k in r && k != DailyKey(c.today) && k != LastDailyKey ==> r[k] == s[k])
      && (forall k :: (k in s && !Matches(StaleBefore(c.keepFrom), k)) ==> k in r)
      && (!StaleDate(c.today, c.keepFrom) ==>
            DailyKey(c.today) in r
            && r[DailyKey(c.today)] == DailyBackup(c.today, ts, DailyStatsFor(ts, c.today)))
  {
    DailyKeyFacts(c.today);
    var snapshot := DailyBackup(c.today, ts, DailyStatsFor(ts, c.today));
    var written := s[DailyKey(c.today) := snapshot][LastDailyKey := Raw(c.today)];
    var sw := StaleBefore(c.keepFrom);
    assert !Matches(sw, LastDailyKey);
    assert !StaleDate(c.today, c.keepFrom) ==> !Matches(sw, DailyKey(c.today));
    PrunedAfterWrites(s, DailyKey(c.today), snapshot, LastDailyKey, Raw(c.today), order(written), sw);
  }

  /** Two writes followed by the loop as written: the store gains at most the two
      written keys, loses only keys the sweep is after, keeps every other value,
      and keeps the first write when the sweep is not after it. */
  lemma PrunedAfterWrites(s: Store, a: string, va: StoredValue, b: string, vb: StoredValue, ks: seq<string>, sw: Sweep)
    requires a != b && !Matches(sw, b)
    ensures var r := s[a := va][b := vb] - SweptAsWritten(ks, 0, sw);
      && (forall k :: k in r ==> k in s || k == a || k == b)
      && (forall k :: k in s && k !in r ==> Matches(sw, k))
      && (forall k :: k in r && k != a && k != b ==> r[k] == s[k])
      && (forall k :: (k in s && !Matches(sw, k)) ==> k in r)
      && (!Matches(sw, a) ==> a in r && r[a] == va)
      && b in r && r[b] == vb
  {
    SweptAsWrittenEffect(s[a := va][b := vb], ks, sw);
  }

  /** The whole effect of the daily check: `AutoBackupFrame` on every day and
      `AutoBackupNewDay` on a day not yet backed up. */
  lemma AutoBackupEffect(s: Store, ts: seq<Task>, c: Clock, order: KeyOrder)
    ensures var r := AutoBackedUp(s, ts, c, order);
      && (forall k :: !IsDailyKey(k) && k != LastDailyKey ==> SameAt(s, r, k))
      && BackedUpToday(r, c.today)
      && (BackedUpToday(s, c.today) ==> r == s)
      && (!BackedUpToday(s, c.today) ==>
            && (forall k :: k in r ==> k in s || k == DailyKey(c.today) || k == LastDailyKey)
            && (forall k :: k in s && k !in r ==> Matches(StaleBefore(c.keepFrom), k))
            && (forall k :: k in r && k != DailyKey(c.today) && k != LastDailyKey ==> r[k] == s[k])
            && (forall k :: (k in s && !Matches(StaleBefore(c.keepFrom), k)) ==> k in r)
            && (!StaleDate(c.today, c.keepFrom) ==>
                  DailyKey(c.today) in r
                  && r[DailyKey(c.today)] == DailyBackup(c.today, ts, DailyStatsFor(ts, c.today))))
  {
    AutoBackupFrame(s, ts, c, order);
    if !BackedUpToday(s, c.today) {
      AutoBackupNewDay(s, ts, c, order);
    }
  }

  /** After a save: the live list is the tasks, the metadata counts them, slot 1
      holds them, the other slots rotated, and the marker names today. */
  lemma SavedLiveCopy(s: Store, ts: seq<Task>, c: Clock, order: KeyOrder)
    ensures var r := Saved(s, ts, c, order);
      && TasksKey in r && r[TasksKey] == TaskList(ts)
      && MetadataKey in r && r[MetadataKey] == Metadata(c.now, "1.0", |ts|)
      && r[MetadataKey].taskCount == |ts|
      && (forall n :: 1 <= n <= 5 ==> SameAt(Rotated(s, Backup(ts, c.now)), r, SlotKey(n)))
      && SlotKey(1) in r && r[SlotKey(1)] == Backup(ts, c.now)
      && BackedUpToday(r, c.today)
  {
    KeyFamiliesApart();
    var rotated := Rotated(s, Backup(ts, c.now));
    var written := rotated[TasksKey := TaskList(ts)][MetadataKey := Metadata(c.now, "1.0", |ts|)];
    AutoBackupFrame(written, ts, c, order);
    RotatedSlots(s, Backup(ts, c.now));
  }

  /** A save on a day not yet backed up leaves today's snapshot of the saved tasks
      (when today is inside the retention window); a save on a day already backed
      up leaves every daily key as it was. */
  lemma SavedDaily(s: Store, ts: seq<Task>, c: Clock, order: KeyOrder)
    ensures !BackedUpToday(s, c.today) && !StaleDate(c.today, c.keepFrom) ==>
      DailyKey(c.today) in Saved(s, ts, c, order)
      && Saved(s, ts, c, order)[DailyKey(c.today)] == DailyBackup(c.today, ts, DailyStatsFor(ts, c.today))
    ensures BackedUpToday(s, c.today) ==> forall k :: IsDailyKey(k) ==> SameAt(s, Saved(s, ts, c, order), k)
  {
    KeyFamiliesApart();
    var rotated := Rotated(s, Backup(ts, c.now));
    var written := rotated[TasksKey := TaskList(ts)][MetadataKey := Metadata(c.now, "1.0", |ts|)];
    RotatedSlots(s, Backup(ts, c.now));
    assert SameAt(s, written, LastDailyKey);
    if BackedUpToday(written, c.today) {
      AutoBackupFrame(written, ts, c, order);
    } else {
      AutoBackupNewDay(written, ts, c, order);
    }
    forall k | IsDailyKey(k) ensures SameAt(s, written, k) {
      assert !IsSlotKey(k);
    }
  }

  /** At most one daily snapshot per date: a second save the same day writes no
      daily key (and keeps the marker). */
  lemma DailySnapshotOncePerDay(s: Store, ts: seq<Task>, ts2: seq<Task>, c: Clock, order: KeyOrder)
    ensures var first := Saved(s, ts, c, order);
      forall k :: IsDailyKey(k) || k == LastDailyKey ==> SameAt(first, Saved(first, ts2, c, order), k)
  {
    var first := Saved(s, ts, c, order);
    SavedLiveCopy(s, ts, c, order);
    SavedDaily(first, ts2, c, order);
    SavedLiveCopy(first, ts2, c, order);
  }

  /** A save touches only the board's own keys. */
  lemma SavedFrame(s: Store, ts: seq<Task>, c: Clock, order: KeyOrder)
    ensures forall k :: !AppKey(k) ==> SameAt(s, Saved(s, ts, c, order), k)
  {
    KeyFamiliesApart();
    var rotated := Rotated(s, Backup(ts, c.now));
    var written := rotated[TasksKey := TaskList(ts)][MetadataKey := Metadata(c.now, "1.0", |ts|)];
    RotatedSlots(s, Backup(ts, c.now));
    AutoBackupFrame(written, ts, c, order);
  }

  // ---------------------------------------------------------------------------
  // Load and restore

  /** The entry check of `loadTasks`: `task && task.id && task.title`. */
  predicate Loadable(t: Task) { t.id != "" && t.title != "" }

  /** `loadTasks()`: the stored entries that have an id and a title, in order; the
      empty list when nothing is stored, when the text does not parse, and when
      it parses to something that is not an array (`filter` then throws). */
  function LoadTasks(s: Store): (r: seq<Task>)
    ensures forall i :: 0 <= i < |r| ==> Loadable(r[i])
    ensures TasksKey in s && s[TasksKey].TaskList? ==>
      forall t :: multiset(r)[t] == if Loadable(t) then multiset(s[TasksKey].entries)[t] else 0
    ensures TasksKey in s && !s[TasksKey].TaskList? ==> r == []
    ensures TasksKey !in s ==> r == []
  {
    if TasksKey in s then
      match s[TasksKey]
      case TaskList(entries) =>
        FilterMultiset(entries, Loadable);
        Filter(entries, Loadable)
      case _ => []
    else []
  }

  /** Loading keeps the stored order: the loaded list of a stored `a + b` is the
      loaded list of `a` followed by that of `b`. */
  lemma LoadKeepsOrder(s: Store, a: seq<Task>, b: seq<Task>)
    requires TasksKey in s && s[TasksKey] == TaskList(a + b)
    ensures LoadTasks(s) == LoadTasks(s[TasksKey := TaskList(a)]) + LoadTasks(s[TasksKey := TaskList(b)])
  {
    FilterAppend(a, b, Loadable);
  }

  /** Loading what a save wrote gives back the saved tasks that have an id and a
      title, in order; all of them when every task has both. */
  lemma LoadAfterSave(s: Store, ts: seq<Task>, c: Clock, order: KeyOrder)
    ensures LoadTasks(Saved(s, ts, c, order)) == Filter(ts, Loadable)
    ensures (forall i :: 0 <= i < |ts| ==> Loadable(ts[i])) ==> LoadTasks(Saved(s, ts, c, order)) == ts
  {
    SavedLiveCopy(s, ts, c, order);
    if forall i :: 0 <= i < |ts| ==> Loadable(ts[i]) {
      FilterAll(ts, Loadable);
    }
  }

  /** `JSON.parse(backup).tasks || []`: a snapshot restores its own tasks, any
      other parsed document the empty list, and text that does not parse (or
      parses to `null`) fails, so the restore reports failure. */
  function RestoredTasks(v: StoredValue): (r: Option<seq<Task>>)
    ensures r.None? <==> v.Raw?
    ensures v.Backup? || v.DailyBackup? ==> r == Some(v.tasks)
    ensures !(v.Backup? || v.DailyBackup? || v.Raw?) ==> r == Some([])
  {
    match v
    case Backup(ts, _) => Some(ts)
    case DailyBackup(_, ts, _) => Some(ts)
    case TaskList(_) => Some([])       // an array has no `tasks` member
    case Metadata(_, _, _) => Some([])
    case Document(_) => Some([])
    case Raw(_) => None
  }

  /** Right after a save, slot 1 restores the saved tasks; and so does today's
      daily snapshot when the save wrote one. */
  lemma RestoreAfterSave(s: Store, ts: seq<Task>, c: Clock, order: KeyOrder)
    ensures Filled(Saved(s, ts, c, order), SlotKey(1))
    ensures RestoredTasks(Saved(s, ts, c, order)[SlotKey(1)]) == Some(ts)
    ensures !BackedUpToday(s, c.today) && !StaleDate(c.today, c.keepFrom) ==>
      Filled(Saved(s, ts, c, order), DailyKey(c.today))
      && RestoredTasks(Saved(s, ts, c, order)[DailyKey(c.today)]) == Some(ts)
  {
    SavedLiveCopy(s, ts, c, order);
    SavedDaily(s, ts, c, order);
  }

  // ---------------------------------------------------------------------------
  // Full wipe (clearAllData)

  /** The store after the slot-removal loop has removed slots `1 .. n - 1`. */
  function ClearedSlots(s: Store, n: nat): Store
    decreases n
  {
    if n <= 1 then s else ClearedSlots(s, n - 1) - {SlotKey(n - 1)}
  }

  lemma {:induction false} ClearedSlotsKeys(s: Store, n: nat)
    ensures forall k :: k in ClearedSlots(s, n) <==> k in s && !(exists j :: 1 <= j < n && k == SlotKey(j))
    ensures forall k :: k in ClearedSlots(s, n) ==> ClearedSlots(s, n)[k] == s[k]
    decreases n
  {
    if n > 1 {
      ClearedSlotsKeys(s, n - 1);
    }
  }

  /** What `clearAllData` as written leaves of the store: the live list, the
      metadata and the slots removed, then the daily loop as written run over the
      store in `order`. */
  function Cleared(s: Store, order: KeyOrder): Store {
    var base := ClearedSlots(s - {TasksKey} - {MetadataKey}, 6);
    base - SweptAsWritten(order(base), 0, AllDaily)
  }

  /** The wipe as written removes the live list, the metadata and the five slots,
      removes no key outside those and the daily family, and changes no value;
      which daily snapshots go depends on the key order. */
  lemma ClearedAsWrittenKeys(s: Store, order: KeyOrder)
    ensures var r := Cleared(s, order);
      && (forall k :: k in r ==> k in s && r[k] == s[k])
      && (forall k :: k in r ==> k != TasksKey && k != MetadataKey && !IsSlotKey(k))
      && (forall k :: k in s && k != TasksKey && k != MetadataKey && !IsSlotKey(k) && !IsDailyKey(k) ==> k in r)
  {
    var base := ClearedSlots(s - {TasksKey} - {MetadataKey}, 6);
    ClearedSlotsKeys(s - {TasksKey} - {MetadataKey}, 6);
    SweptAsWrittenEffect(base, order(base), AllDaily);
  }

  /** What `clearAllData` is meant to leave: every daily snapshot gone as well. */
  function ClearedIntended(s: Store): Store {
    Swept(ClearedSlots(s - {TasksKey} - {MetadataKey}, 6), AllDaily)
  }

  /** The intended wipe removes the live list, the metadata, the five slots and
      every daily snapshot, and keeps every other key (the date marker among them). */
  lemma ClearedKeys(s: Store)
    ensures forall k :: k in ClearedIntended(s) <==>
      k in s && k != TasksKey && k != MetadataKey && !IsSlotKey(k) && !IsDailyKey(k)
    ensures forall k :: k in ClearedIntended(s) ==> ClearedIntended(s)[k] == s[k]
  {
    ClearedSlotsKeys(s - {TasksKey} - {MetadataKey}, 6);
  }
}
