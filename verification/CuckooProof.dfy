/**
 * The cuckoo table refines a finite map; an insert neither loses nor invents
 * entries, and one that fails leaves exactly one entry without a place.
 */
module CuckooProof {
  import opened Cuckoo

  // ----- counting entries -----

  lemma {:induction false} RowSet(row: seq<Slot>, j: int, s: Slot)
    requires 0 <= j < |row|
    ensures RowEntries(row[j := s]) + One(row[j]) == RowEntries(row) + One(s)
  {
    var n := |row| - 1;
    if j < n {
      RowSet(row[..n], j, s);
      assert row[j := s][..n] == row[..n][j := s];
      assert row[..n][j] == row[j];
      Exchange(RowEntries(row[..n][j := s]), RowEntries(row[..n]), One(row[j]), One(s), One(row[n]));
    } else {
      assert row[j := s][..n] == row[..n];
    }
  }

  lemma Exchange(a: multiset<Pair>, b: multiset<Pair>, x: multiset<Pair>, y: multiset<Pair>, z: multiset<Pair>)
    requires a + x == b + y
    ensures (a + z) + x == (b + z) + y
  {
    assert (a + z) + x == (a + x) + z;
    assert (b + z) + y == (b + y) + z;
  }

  /** Overwriting a slot exchanges its entry. */
  lemma {:induction false} SetSlotEntries(rows: Rows, i: int, j: int, s: Slot)
    requires 0 <= i < |rows| && 0 <= j < |rows[i]|
    ensures Entries(SetSlot(rows, i, j, s)) + One(rows[i][j]) == Entries(rows) + One(s)
  {
    hide RowEntries, One;
    var n := |rows| - 1;
    var rows' := SetSlot(rows, i, j, s);
    var x, y := One(rows[i][j]), One(s);
    if i < n {
      SetSlotEntries(rows[..n], i, j, s);
      assert rows'[..n] == SetSlot(rows[..n], i, j, s);
      assert rows[..n][i] == rows[i];
      Exchange(Entries(rows'[..n]), Entries(rows[..n]), x, y, RowEntries(rows[n]));
    } else {
      RowSet(rows[n], j, s);
      assert rows'[..n] == rows[..n];
      var e := Entries(rows[..n]);
      Exchange(RowEntries(rows'[n]), RowEntries(rows[n]), x, y, e);
      assert RowEntries(rows'[n]) + e == e + RowEntries(rows'[n]);
      assert RowEntries(rows[n]) + e == e + RowEntries(rows[n]);
    }
  }

  ghost predicate InRow(row: seq<Slot>, p: Pair) {
    exists j :: 0 <= j < |row| && row[j].valid && Pair(row[j].key, row[j].value) == p
  }

  lemma {:induction false} RowMembers(row: seq<Slot>, p: Pair)
    ensures p in RowEntries(row) <==> InRow(row, p)
  {
    var n := |row| - 1;
    if |row| > 0 {
      RowMembers(row[..n], p);
      if InRow(row[..n], p) {
        var j :| 0 <= j < n && row[..n][j].valid && Pair(row[..n][j].key, row[..n][j].value) == p;
        assert row[j] == row[..n][j];
      }
      if InRow(row, p) {
        var j :| 0 <= j < |row| && row[j].valid && Pair(row[j].key, row[j].value) == p;
        assert j < n ==> row[..n][j] == row[j];
      }
    }
  }

  ghost predicate InRows(rows: Rows, p: Pair) {
    exists i :: 0 <= i < |rows| && InRow(rows[i], p)
  }

  lemma InRowsLast(rows: Rows, n: nat, p: Pair)
    requires |rows| == n + 1
    ensures InRows(rows, p) <==> InRows(rows[..n], p) || InRow(rows[n], p)
  {
    hide InRow;
    if i :| 0 <= i < n && InRow(rows[..n][i], p) {
      assert InRow(rows[i], p);
    }
    if i :| 0 <= i < |rows| && InRow(rows[i], p) {
      assert i < n ==> InRow(rows[..n][i], p);
    }
  }

  /** An entry counts exactly when some valid slot has it. */
  lemma {:induction false} Members(rows: Rows, p: Pair)
    ensures p in Entries(rows) <==> InRows(rows, p)
  {
    if |rows| > 0 {
      hide InRow;
      Members(rows[..|rows|-1], p);
      RowMembers(rows[|rows|-1], p);
      InRowsLast(rows, |rows| - 1, p);
    }
  }

  // ----- insert -----

  /** The entries without a place after an insert. */
  function Leftover(r: Outcome): multiset<Pair> {
    if r.success then multiset{} else One(r.homeless)
  }

  lemma PlacedSet(rows: Rows, h: Hashes, size: int, i: int, s: Slot)
    requires ValidRows(rows, size) && ValidHashes(h, size) && 0 <= i < NUM_TABLES && Placed(rows, h)
    ensures Placed(SetSlot(rows, i, h(i, s.key), s), h)
  {
  }

  /**
   * Conservation: whatever is evicted on the way, final entries plus the one left
   * without a place are the old entries plus the new one, and every entry is where
   * a lookup searches for it.
   */
  lemma {:induction false} TrialsConserve(rows: Rows, h: Hashes, size: int, e: Slot, victimIdx: int, victimBit: int, left: nat)
    requires ValidRows(rows, size) && ValidHashes(h, size) && 0 <= victimIdx < NUM_TABLES && 0 <= victimBit <= 1
    requires e.valid && Placed(rows, h)
    ensures var r := Trials(rows, h, size, e, victimIdx, victimBit, left);
      && Entries(r.rows) + Leftover(r) == Entries(rows) + One(e)
      && (!r.success ==> r.homeless.valid)
      && Placed(r.rows, h)
    decreases left
  {
    hide Entries, Placed, ValidRows, ValidHashes, Trial;
    if left > 0 {
      TrialConserves(rows, h, size, e, victimIdx, victimBit);
      var r := Trial(rows, h, size, e, victimIdx, victimBit);
      if !r.success {
        TrialsConserve(r.rows, h, size, r.homeless, (victimIdx + 1) % NUM_TABLES, r.victimBit, left - 1);
      }
    }
  }

  /** One trial keeps the tables' entries together with the entry in hand, and their places. */
  lemma TrialConserves(rows: Rows, h: Hashes, size: int, e: Slot, victimIdx: int, victimBit: int)
    requires ValidRows(rows, size) && ValidHashes(h, size) && 0 <= victimIdx < NUM_TABLES && 0 <= victimBit <= 1
    requires Placed(rows, h)
    ensures var r := Trial(rows, h, size, e, victimIdx, victimBit);
      && Entries(r.rows) + Leftover(r) == Entries(rows) + One(e)
      && (!r.success ==> r.homeless.valid)
      && Placed(r.rows, h)
  {
    hide Entries;
    var slot := FreeTable(rows, h, e.key, NUM_TABLES);
    var pos := if slot != -1 then slot else h(victimIdx, e.key) % (NUM_TABLES - 1) + victimBit;
    SetSlotEntries(rows, pos, h(pos, e.key), e);
    PlacedSet(rows, h, size, pos, e);
  }

  /** The number of occupied slots grows by one on success and is unchanged on failure. */
  lemma InsertOccupancy(rows: Rows, h: Hashes, size: int, key: Key, value: Value, victimBit: int)
    requires ValidRows(rows, size) && ValidHashes(h, size) && 0 <= victimBit <= 1 && Placed(rows, h)
    ensures var r := Inserted(rows, h, size, key, value, victimBit);
      |Entries(r.rows)| == |Entries(rows)| + (if r.success then 1 else 0)
  {
    var e := Slot(key, value, true);
    TrialsConserve(rows, h, size, e, 0, victimBit, MAX_TRIALS);
    var r := Inserted(rows, h, size, key, value, victimBit);
    assert |Entries(r.rows) + Leftover(r)| == |Entries(rows) + One(e)|;
  }

  // ----- lookup and remove -----

  /** A key is found exactly when some entry has it, and then the value found is that of an entry. */
  lemma FoundIffPresent(rows: Rows, h: Hashes, size: int, key: Key)
    requires ValidRows(rows, size) && ValidHashes(h, size) && Placed(rows, h)
    ensures var t := Found(rows, h, key, NUM_TABLES);
      && (t >= 0 <==> HasKey(Entries(rows), key))
      && (t >= 0 ==> Pair(key, rows[t][h(t, key)].value) in Entries(rows))
  {
    var t := Found(rows, h, key, NUM_TABLES);
    if t >= 0 {
      var p := Pair(key, rows[t][h(t, key)].value);
      Members(rows, p);
      assert InRow(rows[t], p);
    }
    if HasKey(Entries(rows), key) {
      var v :| Pair(key, v) in Entries(rows);
      Members(rows, Pair(key, v));
      var i :| 0 <= i < |rows| && InRow(rows[i], Pair(key, v));
      var j :| 0 <= j < |rows[i]| && rows[i][j].valid && Pair(rows[i][j].key, rows[i][j].value) == Pair(key, v);
      assert Holds(rows[i][h(i, key)], key);
    }
  }

  lemma {:induction false} RemovedCounts(rows: Rows, h: Hashes, size: int, key: Key, n: nat, p: Pair)
    requires ValidRows(rows, size) && ValidHashes(h, size) && n <= NUM_TABLES && p.key != key
    ensures Entries(RemovedBelow(rows, h, key, n))[p] == Entries(rows)[p]
  {
    if n > 0 {
      RemovedCounts(rows, h, size, key, n - 1, p);
      var r, j := RemovedBelow(rows, h, key, n - 1), h(n - 1, key);
      if Holds(r[n-1][j], key) {
        SetSlotEntries(r, n - 1, j, r[n-1][j].(valid := false));
        var r' := RemovedBelow(rows, h, key, n);
        assert (Entries(r') + One(r[n-1][j]))[p] == (Entries(r) + multiset{})[p];
      }
    }
  }

  /** A remove deletes all entries of its key and no other. */
  lemma RemoveDeletes(rows: Rows, h: Hashes, size: int, key: Key, p: Pair)
    requires ValidRows(rows, size) && ValidHashes(h, size) && Placed(rows, h)
    ensures var r := RemovedBelow(rows, h, key, NUM_TABLES);
      && Placed(r, h)
      && Entries(r)[p] == if p.key == key then 0 else Entries(rows)[p]
  {
    var r := RemovedBelow(rows, h, key, NUM_TABLES);
    if p.key != key {
      RemovedCounts(rows, h, size, key, NUM_TABLES, p);
    } else {
      Members(r, p);
      assert forall i, j | 0 <= i < |r| && 0 <= j < |r[i]| && r[i][j].valid :: r[i][j].key != key;
    }
  }

  // ----- the finite map -----

  /** No slot is in use. */
  ghost predicate Unused(rows: Rows) {
    forall i, j | 0 <= i < |rows| && 0 <= j < |rows[i]| :: !rows[i][j].valid
  }

  lemma EmptyRepresents(rows: Rows, h: Hashes)
    requires Unused(rows)
    ensures Placed(rows, h) && Entries(rows) == multiset{} && Represents(Entries(rows), map[])
  {
    forall p: Pair ensures p !in Entries(rows) {
      Members(rows, p);
    }
  }

  lemma AddedIsUpdate(m: multiset<Pair>, f: map<Key, Value>, key: Key, value: Value)
    requires Represents(m, f) && key !in f
    ensures Represents(m + multiset{Pair(key, value)}, f[key := value])
  {
    var m', f' := m + multiset{Pair(key, value)}, f[key := value];
    forall v ensures Pair(key, v) !in m { }
  }

  /** A successful insert of an absent key changes the map at that key only. */
  lemma InsertRefines(rows: Rows, h: Hashes, size: int, f: map<Key, Value>, key: Key, value: Value, victimBit: int)
    requires ValidRows(rows, size) && ValidHashes(h, size) && 0 <= victimBit <= 1 && Placed(rows, h)
    requires Represents(Entries(rows), f) && key !in f
    requires Inserted(rows, h, size, key, value, victimBit).success
    ensures Represents(Entries(Inserted(rows, h, size, key, value, victimBit).rows), f[key := value])
  {
    TrialsConserve(rows, h, size, Slot(key, value, true), 0, victimBit, MAX_TRIALS);
    AddedIsUpdate(Entries(rows), f, key, value);
    var r := Inserted(rows, h, size, key, value, victimBit);
    assert Entries(r.rows) == Entries(r.rows) + Leftover(r);
  }

  /**
   * insert does not search for its key: the tables still stand for a map exactly when
   * the key was absent, or an entry of that same key is the one left without a place.
   */
  lemma InsertKeepsMapIff(rows: Rows, h: Hashes, size: int, f: map<Key, Value>, key: Key, value: Value, victimBit: int)
    requires ValidRows(rows, size) && ValidHashes(h, size) && 0 <= victimBit <= 1 && Placed(rows, h)
    requires Represents(Entries(rows), f)
    ensures var r := Inserted(rows, h, size, key, value, victimBit);
      (exists g :: Represents(Entries(r.rows), g)) <==> key !in f || (!r.success && r.homeless.key == key)
  {
    hide Entries, Placed, ValidRows, ValidHashes, Trials, KeysUnique;
    var r := Inserted(rows, h, size, key, value, victimBit);
    if key !in f {
      var g := if r.success then f[key := value] else f[key := value] - {r.homeless.key};
      if r.success {
        InsertRefines(rows, h, size, f, key, value, victimBit);
      } else {
        FailedInsertDropsOne(rows, h, size, f, key, value, victimBit);
      }
      assert Represents(Entries(r.rows), g);
      assert exists f' :: Represents(Entries(r.rows), f');
    } else if !r.success && r.homeless.key == key {
      FailedInsertOfPresent(rows, h, size, f, key, value, victimBit);
      var g := f[key := if r.homeless.value == value then f[key] else value];
      assert Represents(Entries(r.rows), g);
      assert exists f' :: Represents(Entries(r.rows), f');
    } else {
      TrialsConserve(rows, h, size, Slot(key, value, true), 0, victimBit, MAX_TRIALS);
      forall g ensures !Represents(Entries(r.rows), g) {
        SecondEntryIsNoMap(Entries(rows), f, key, value, Entries(r.rows), Leftover(r), g);
      }
    }
  }

  /**
   * As seen by a caller: an insert reported as successful leaves a map exactly
   * when a lookup before it would have missed the key.
   */
  lemma ReportedInsertKeepsMapIff(rows: Rows, h: Hashes, size: int, f: map<Key, Value>, key: Key, value: Value, victimBit: int)
    requires ValidRows(rows, size) && ValidHashes(h, size) && 0 <= victimBit <= 1 && Placed(rows, h)
    requires Represents(Entries(rows), f)
    requires Inserted(rows, h, size, key, value, victimBit).success
    ensures (exists g :: Represents(Entries(Inserted(rows, h, size, key, value, victimBit).rows), g))
      <==> Found(rows, h, key, NUM_TABLES) == -1
  {
    hide Entries, Placed, ValidRows, ValidHashes, Trials, Represents;
    InsertKeepsMapIff(rows, h, size, f, key, value, victimBit);
    LookupRefines(rows, h, size, f, key);
  }

  /** A failed insert of a present key that leaves an entry of that key without a place: the other of the two values stays. */
  lemma FailedInsertOfPresent(rows: Rows, h: Hashes, size: int, f: map<Key, Value>, key: Key, value: Value, victimBit: int)
    requires ValidRows(rows, size) && ValidHashes(h, size) && 0 <= victimBit <= 1 && Placed(rows, h)
    requires Represents(Entries(rows), f) && key in f
    requires var r := Inserted(rows, h, size, key, value, victimBit); !r.success && r.homeless.key == key
    ensures var r := Inserted(rows, h, size, key, value, victimBit);
      && r.homeless.value in {value, f[key]}
      && Represents(Entries(r.rows), f[key := if r.homeless.value == value then f[key] else value])
  {
    TrialsConserve(rows, h, size, Slot(key, value, true), 0, victimBit, MAX_TRIALS);
    var r := Inserted(rows, h, size, key, value, victimBit);
    OneOfTwo(Entries(rows), f, key, value, Entries(r.rows), r.homeless.value);
  }

  lemma OneOfTwo(m: multiset<Pair>, f: map<Key, Value>, key: Key, value: Value, m': multiset<Pair>, gone: Value)
    requires Represents(m, f) && key in f && m' + multiset{Pair(key, gone)} == m + multiset{Pair(key, value)}
    ensures gone in {value, f[key]}
    ensures Represents(m', f[key := if gone == value then f[key] else value])
  {
    var p, q := Pair(key, gone), Pair(key, value);
    assert (m' + multiset{p})[p] == m'[p] + 1;
    assert p in m + multiset{q};
    assert m[Pair(key, f[key])] == 1;
    if gone == value {
      assert m' == (m' + multiset{p}) - multiset{p} == (m + multiset{q}) - multiset{q} == m;
      assert f[key := f[key]] == f;
    } else {
      var rest := m - multiset{p};
      assert m == rest + multiset{p};
      assert m' == (m' + multiset{p}) - multiset{p} == (m + multiset{q}) - multiset{p} == rest + multiset{q};
      TakenOut(rest, p, f);
      AddedIsUpdate(rest, f - {key}, key, value);
      assert (f - {key})[key := value] == f[key := value];
    }
  }

  lemma SecondEntryIsNoMap(m: multiset<Pair>, f: map<Key, Value>, key: Key, value: Value,
                           m': multiset<Pair>, gone: multiset<Pair>, g: map<Key, Value>)
    requires Represents(m, f) && key in f
    requires m' + gone == m + multiset{Pair(key, value)} && forall p | p in gone :: p.key != key
    ensures !Represents(m', g)
  {
    var p, q := Pair(key, f[key]), Pair(key, value);
    assert p in m;
    assert gone[p] == 0 && gone[q] == 0;
    assert (m' + gone)[p] == m'[p] && (m' + gone)[q] == m'[q];
    assert p in m' && q in m';
    assert f[key] == value ==> m'[q] >= 2;
  }

  /** A failed insert of an absent key leaves the updated map without one key, that of the homeless entry. */
  lemma FailedInsertDropsOne(rows: Rows, h: Hashes, size: int, f: map<Key, Value>, key: Key, value: Value, victimBit: int)
    requires ValidRows(rows, size) && ValidHashes(h, size) && 0 <= victimBit <= 1 && Placed(rows, h)
    requires Represents(Entries(rows), f) && key !in f
    requires !Inserted(rows, h, size, key, value, victimBit).success
    ensures var r := Inserted(rows, h, size, key, value, victimBit);
      && Pair(r.homeless.key, r.homeless.value) in Entries(rows) + multiset{Pair(key, value)}
      && Represents(Entries(r.rows), f[key := value] - {r.homeless.key})
  {
    TrialsConserve(rows, h, size, Slot(key, value, true), 0, victimBit, MAX_TRIALS);
    AddedIsUpdate(Entries(rows), f, key, value);
    var r := Inserted(rows, h, size, key, value, victimBit);
    var m, p := Entries(r.rows), Pair(r.homeless.key, r.homeless.value);
    TakenOut(m, p, f[key := value]);
  }

  lemma TakenOut(m: multiset<Pair>, p: Pair, f: map<Key, Value>)
    requires Represents(m + multiset{p}, f)
    ensures p in m + multiset{p} && Represents(m, f - {p.key})
  {
    var all := m + multiset{p};
    assert p in all && all[p] == 1;
    forall q | q in m ensures q in all && q.key != p.key { }
    forall k, v ensures Pair(k, v) in m <==> k in f - {p.key} && (f - {p.key})[k] == v {
      assert Pair(k, v) in all <==> Pair(k, v) in m || Pair(k, v) == p;
    }
  }

  /** A remove deletes its key from the map, present or not. */
  lemma RemoveRefines(rows: Rows, h: Hashes, size: int, f: map<Key, Value>, key: Key)
    requires ValidRows(rows, size) && ValidHashes(h, size) && Placed(rows, h) && Represents(Entries(rows), f)
    ensures Represents(Entries(RemovedBelow(rows, h, key, NUM_TABLES)), f - {key})
  {
    hide RemovedBelow, Entries, Placed;
    var m, m' := Entries(rows), Entries(RemovedBelow(rows, h, key, NUM_TABLES));
    forall p: Pair
      ensures m'[p] == if p.key == key then 0 else m[p]
    {
      RemoveDeletes(rows, h, size, key, p);
    }
    DeletedIsRestriction(m, m', f, key);
  }

  lemma DeletedIsRestriction(m: multiset<Pair>, m': multiset<Pair>, f: map<Key, Value>, key: Key)
    requires Represents(m, f)
    requires forall p: Pair :: m'[p] == if p.key == key then 0 else m[p]
    ensures Represents(m', f - {key})
  {
    forall p: Pair ensures p in m' <==> p in m && p.key != key {
      assert m'[p] == if p.key == key then 0 else m[p];
    }
  }

  /** A lookup hits exactly the keys of the map and returns their values. */
  lemma LookupRefines(rows: Rows, h: Hashes, size: int, f: map<Key, Value>, key: Key)
    requires ValidRows(rows, size) && ValidHashes(h, size) && Placed(rows, h) && Represents(Entries(rows), f)
    ensures var t := Found(rows, h, key, NUM_TABLES);
      (t >= 0 <==> key in f) && (t >= 0 ==> rows[t][h(t, key)].value == f[key])
  {
    FoundIffPresent(rows, h, size, key);
    if key in f {
      assert Pair(key, f[key]) in Entries(rows);
    }
  }

  // ----- every sequence of requests -----

  datatype Request = Lookup(key: Key) | Insert(key: Key, value: Value) | Remove(key: Key)

  // The tables and the bit that varies the choice of victims.
  datatype State = State(rows: Rows, victimBit: int)

  ghost predicate ValidState(s: State, h: Hashes, size: int) {
    ValidRows(s.rows, size) && ValidHashes(h, size) && 0 <= s.victimBit <= 1 && Placed(s.rows, h)
  }

  ghost function Serve(s: State, h: Hashes, size: int, q: Request): State
    requires ValidState(s, h, size)
  {
    match q
    case Lookup(_) => s
    case Insert(k, v) => var r := Inserted(s.rows, h, size, k, v, s.victimBit); State(r.rows, r.victimBit)
    case Remove(k) => s.(rows := RemovedBelow(s.rows, h, k, NUM_TABLES))
  }

  /** The effect on the map; a failed insert costs the key of the entry left without a place. */
  ghost function Expected(s: State, h: Hashes, size: int, f: map<Key, Value>, q: Request): map<Key, Value>
    requires ValidState(s, h, size)
  {
    match q
    case Lookup(_) => f
    case Insert(k, v) =>
      var r := Inserted(s.rows, h, size, k, v, s.victimBit);
      if r.success then f[k := v] else f[k := v] - {r.homeless.key}
    case Remove(k) => f - {k}
  }

  lemma ServeRefines(s: State, h: Hashes, size: int, f: map<Key, Value>, q: Request)
    requires ValidState(s, h, size) && Represents(Entries(s.rows), f)
    requires q.Insert? ==> q.key !in f
    ensures ValidState(Serve(s, h, size, q), h, size)
    ensures Represents(Entries(Serve(s, h, size, q).rows), Expected(s, h, size, f, q))
  {
    hide Entries, Represents;
    match q {
      case Lookup(_) =>
      case Insert(k, v) =>
        TrialsConserve(s.rows, h, size, Slot(k, v, true), 0, s.victimBit, MAX_TRIALS);
        if Inserted(s.rows, h, size, k, v, s.victimBit).success {
          InsertRefines(s.rows, h, size, f, k, v, s.victimBit);
        } else {
          FailedInsertDropsOne(s.rows, h, size, f, k, v, s.victimBit);
        }
      case Remove(k) =>
        RemoveRefines(s.rows, h, size, f, k);
        RemoveDeletes(s.rows, h, size, k, Pair(k, 0));
    }
  }

  /** The requests insert only keys that are absent at that time. */
  ghost predicate AbsentInserts(s: State, h: Hashes, size: int, f: map<Key, Value>, qs: seq<Request>)
    requires ValidState(s, h, size) && Represents(Entries(s.rows), f)
    decreases |qs|
  {
    |qs| == 0
    || ((qs[0].Insert? ==> qs[0].key !in f)
        && (ServeRefines(s, h, size, f, qs[0]);
            AbsentInserts(Serve(s, h, size, qs[0]), h, size, Expected(s, h, size, f, qs[0]), qs[1..])))
  }

  ghost function ServeAll(s: State, h: Hashes, size: int, f: map<Key, Value>, qs: seq<Request>): (r: (State, map<Key, Value>))
    requires ValidState(s, h, size) && Represents(Entries(s.rows), f) && AbsentInserts(s, h, size, f, qs)
    ensures ValidState(r.0, h, size) && Represents(Entries(r.0.rows), r.1)
    decreases |qs|
  {
    if |qs| == 0 then (s, f)
    else
      ServeRefines(s, h, size, f, qs[0]);
      ServeAll(Serve(s, h, size, qs[0]), h, size, Expected(s, h, size, f, qs[0]), qs[1..])
  }

  /** After any such sequence of requests, a lookup answers as the finite map does. */
  lemma RunsRefineMap(s: State, h: Hashes, size: int, f: map<Key, Value>, qs: seq<Request>, key: Key)
    requires ValidState(s, h, size) && Represents(Entries(s.rows), f) && AbsentInserts(s, h, size, f, qs)
    ensures var r := ServeAll(s, h, size, f, qs);
      var t := Found(r.0.rows, h, key, NUM_TABLES);
      (t >= 0 <==> key in r.1) && (t >= 0 ==> r.0.rows[t][h(t, key)].value == r.1[key])
  {
    var r := ServeAll(s, h, size, f, qs);
    LookupRefines(r.0.rows, h, size, r.1, key);
  }

  /** From the empty table on, a lookup answers as the map built by the requests. */
  lemma RunsFromEmpty(s: State, h: Hashes, size: int, qs: seq<Request>, key: Key)
    requires ValidRows(s.rows, size) && ValidHashes(h, size) && 0 <= s.victimBit <= 1 && Unused(s.rows)
    ensures ValidState(s, h, size) && Represents(Entries(s.rows), map[])
    ensures AbsentInserts(s, h, size, map[], qs) ==>
      var r := ServeAll(s, h, size, map[], qs);
      var t := Found(r.0.rows, h, key, NUM_TABLES);
      (t >= 0 <==> key in r.1) && (t >= 0 ==> r.0.rows[t][h(t, key)].value == r.1[key])
  {
    EmptyRepresents(s.rows, h);
    hide Entries, Represents, AbsentInserts, ServeAll, Placed;
    if AbsentInserts(s, h, size, map[], qs) {
      RunsRefineMap(s, h, size, map[], qs, key);
    }
  }
}
