/**
 * The cuckoo hash table: nine tables, each with its own hash function; an insert
 * that finds no free slot evicts an entry and tries to place that one, at most
 * MAX_TRIALS times.
 */
module Cuckoo {
  const NUM_TABLES: nat := 9
  const MAX_TRIALS: nat := 12

  type Key = k: int | 0 <= k < 0x1_0000_0000_0000_0000

  type Value = v: int | 0 <= v < 0x1_0000

  datatype Slot = Slot(key: Key, value: Value, valid: bool)

  type Rows = seq<seq<Slot>>

  // The hash of a key for each table; the tabulated random values are a parameter.
  type Hashes = (int, Key) -> int

  ghost predicate ValidHashes(h: Hashes, size: int) {
    forall i, k | 0 <= i < NUM_TABLES :: 0 <= h(i, k) < size
  }

  ghost predicate ValidRows(rows: Rows, size: int) {
    |rows| == NUM_TABLES && forall i | 0 <= i < NUM_TABLES :: |rows[i]| == size
  }

  function SetSlot(rows: Rows, i: int, j: int, s: Slot): Rows
    requires 0 <= i < |rows| && 0 <= j < |rows[i]|
  {
    rows[i := rows[i][j := s]]
  }

  /** Every valid entry is at the position its table's hash gives. */
  ghost predicate Placed(rows: Rows, h: Hashes) {
    forall i, j | 0 <= i < |rows| && 0 <= j < |rows[i]| && rows[i][j].valid :: h(i, rows[i][j].key) == j
  }

  // ----- insert -----

  /** The last of the first n tables whose slot for the key is free, or -1. */
  function FreeTable(rows: Rows, h: Hashes, key: Key, n: nat): (slot: int)
    requires n <= |rows| && forall i | 0 <= i < n :: 0 <= h(i, key) < |rows[i]|
    ensures -1 <= slot < n
    ensures slot >= 0 ==> !rows[slot][h(slot, key)].valid
    ensures forall i | slot < i < n :: rows[i][h(i, key)].valid
  {
    if n == 0 then -1
    else if !rows[n-1][h(n-1, key)].valid then n - 1
    else FreeTable(rows, h, key, n - 1)
  }

  // Result of an insert: the tables, whether all entries have a place, and the entry without one otherwise.
  datatype Outcome = Outcome(rows: Rows, success: bool, homeless: Slot, victimBit: int)

  /** One trial to place entry e: in a free slot, or else in the place of an evicted entry. */
  ghost function Trial(rows: Rows, h: Hashes, size: int, e: Slot, victimIdx: int, victimBit: int): (r: Outcome)
    requires ValidRows(rows, size) && ValidHashes(h, size) && 0 <= victimIdx < NUM_TABLES && 0 <= victimBit <= 1
    ensures ValidRows(r.rows, size) && 0 <= r.victimBit <= 1
  {
    var slot := FreeTable(rows, h, e.key, NUM_TABLES);
    if slot != -1 then
      Outcome(SetSlot(rows, slot, h(slot, e.key), e), true, e, (victimBit + 1) % 2)
    else
      var pos := h(victimIdx, e.key) % (NUM_TABLES - 1) + victimBit;
      Outcome(SetSlot(rows, pos, h(pos, e.key), e), false, rows[pos][h(pos, e.key)], (victimBit + 1) % 2)
  }

  /** At most left trials to place entry e. */
  ghost function Trials(rows: Rows, h: Hashes, size: int, e: Slot, victimIdx: int, victimBit: int, left: nat): (r: Outcome)
    requires ValidRows(rows, size) && ValidHashes(h, size) && 0 <= victimIdx < NUM_TABLES && 0 <= victimBit <= 1
    ensures ValidRows(r.rows, size) && 0 <= r.victimBit <= 1
    decreases left
  {
    if left == 0 then Outcome(rows, false, e, victimBit)
    else
      var r := Trial(rows, h, size, e, victimIdx, victimBit);
      if r.success then r
      else Trials(r.rows, h, size, r.homeless, (victimIdx + 1) % NUM_TABLES, r.victimBit, left - 1)
  }

  ghost function Inserted(rows: Rows, h: Hashes, size: int, key: Key, value: Value, victimBit: int): Outcome
    requires ValidRows(rows, size) && ValidHashes(h, size) && 0 <= victimBit <= 1
  {
    Trials(rows, h, size, Slot(key, value, true), 0, victimBit, MAX_TRIALS)
  }

  // ----- remove and lookup -----

  predicate Holds(s: Slot, key: Key) {
    s.valid && s.key == key
  }

  /** The slot without the key, if it is one to be searched. */
  function Without(s: Slot, key: Key, search: bool): Slot {
    if search && Holds(s, key) then s.(valid := false) else s
  }

  /** The key's slot invalidated in the first n tables. */
  function RemovedBelow(rows: Rows, h: Hashes, key: Key, n: nat): (rows': Rows)
    requires n <= |rows| && forall i | 0 <= i < n :: 0 <= h(i, key) < |rows[i]|
    ensures |rows'| == |rows| && forall i | 0 <= i < |rows| :: |rows'[i]| == |rows[i]|
    ensures forall i, j | 0 <= i < |rows| && 0 <= j < |rows[i]| ::
      rows'[i][j] == Without(rows[i][j], key, i < n && j == h(i, key))
  {
    if n == 0 then rows
    else
      var r := RemovedBelow(rows, h, key, n - 1);
      var j := h(n - 1, key);
      if Holds(r[n-1][j], key) then SetSlot(r, n - 1, j, r[n-1][j].(valid := false)) else r
  }

  /** The last of the first n tables that holds the key, or -1. */
  function Found(rows: Rows, h: Hashes, key: Key, n: nat): (slot: int)
    requires n <= |rows| && forall i | 0 <= i < n :: 0 <= h(i, key) < |rows[i]|
    ensures -1 <= slot < n
    ensures slot >= 0 ==> Holds(rows[slot][h(slot, key)], key)
    ensures forall i | slot < i < n :: !Holds(rows[i][h(i, key)], key)
  {
    if n == 0 then -1
    else if Holds(rows[n-1][h(n-1, key)], key) then n - 1
    else Found(rows, h, key, n - 1)
  }

  // ----- the simple form -----

  datatype Pair = Pair(key: Key, value: Value)

  function One(s: Slot): multiset<Pair> {
    if s.valid then multiset{Pair(s.key, s.value)} else multiset{}
  }

  function RowEntries(row: seq<Slot>): multiset<Pair> {
    if |row| == 0 then multiset{} else RowEntries(row[..|row|-1]) + One(row[|row|-1])
  }

  /** All entries of all tables, with multiplicity. */
  function Entries(rows: Rows): multiset<Pair> {
    if |rows| == 0 then multiset{} else Entries(rows[..|rows|-1]) + RowEntries(rows[|rows|-1])
  }

  /** No key occurs twice. */
  ghost predicate KeysUnique(m: multiset<Pair>) {
    forall p, q | p in m && q in m && p.key == q.key :: p == q && m[p] == 1
  }

  ghost predicate HasKey(m: multiset<Pair>, key: Key) {
    exists v :: Pair(key, v) in m
  }

  /** The finite map that a set of uniquely keyed entries stands for. */
  ghost predicate Represents(m: multiset<Pair>, f: map<Key, Value>) {
    && KeysUnique(m)
    && forall k, v :: Pair(k, v) in m <==> k in f && f[k] == v
  }
}
