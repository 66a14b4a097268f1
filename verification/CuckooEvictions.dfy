/**
 * What an insert comes to: entries are evicted one after another until one in hand
 * has a free slot.  The evictions are told without asking for free slots, so that
 * success can be read off them.
 */
module CuckooEvictions {
  import opened Cuckoo

  /** One of the nine slots for the key is not occupied. */
  ghost predicate HasFreeSlot(rows: Rows, h: Hashes, size: int, key: Key)
    requires ValidRows(rows, size) && ValidHashes(h, size)
  {
    exists i :: 0 <= i < NUM_TABLES && !rows[i][h(i, key)].valid
  }

  // The tables, and the entry that has no place in them yet.
  datatype Hand = Hand(rows: Rows, entry: Slot)

  /** The table from which the i-th eviction takes: the hash of the entry in hand at a running index picks a pair of tables, and a bit that flips each time one of the pair. */
  function VictimTable(h: Hashes, size: int, key: Key, i: nat, victimBit: int): (t: int)
    requires ValidHashes(h, size) && 0 <= victimBit <= 1
    ensures 0 <= t < NUM_TABLES
  {
    h(i % NUM_TABLES, key) % (NUM_TABLES - 1) + (victimBit + i) % 2
  }

  /** The entry in hand changes places with the one in its slot of table t. */
  function Exchanged(a: Hand, h: Hashes, size: int, t: int): (b: Hand)
    requires ValidRows(a.rows, size) && ValidHashes(h, size) && 0 <= t < NUM_TABLES
    ensures ValidRows(b.rows, size)
  {
    var j := h(t, a.entry.key);
    Hand(SetSlot(a.rows, t, j, a.entry), a.rows[t][j])
  }

  /** Tables and entry in hand after n evictions. */
  function Evicted(rows: Rows, h: Hashes, size: int, e: Slot, victimBit: int, n: nat): (b: Hand)
    requires ValidRows(rows, size) && ValidHashes(h, size) && 0 <= victimBit <= 1
    ensures ValidRows(b.rows, size)
  {
    if n == 0 then Hand(rows, e)
    else
      var a := Evicted(rows, h, size, e, victimBit, n - 1);
      Exchanged(a, h, size, VictimTable(h, size, a.entry.key, n - 1, victimBit))
  }

  /** After n evictions the entry in hand has a free slot. */
  ghost predicate FreeAfter(rows: Rows, h: Hashes, size: int, e: Slot, victimBit: int, n: nat)
    requires ValidRows(rows, size) && ValidHashes(h, size) && 0 <= victimBit <= 1
  {
    var b := Evicted(rows, h, size, e, victimBit, n);
    HasFreeSlot(b.rows, h, size, b.entry.key)
  }

  /** No entry in hand before the n-th eviction had a free slot. */
  ghost predicate AllOccupied(rows: Rows, h: Hashes, size: int, e: Slot, victimBit: int, n: nat)
    requires ValidRows(rows, size) && ValidHashes(h, size) && 0 <= victimBit <= 1
  {
    forall i: nat | i < n :: !FreeAfter(rows, h, size, e, victimBit, i)
  }

  /** rows' are the tables with the entry in hand put into the last slot for it that was free. */
  ghost predicate PutInFreeSlot(b: Hand, h: Hashes, size: int, rows': Rows)
    requires ValidRows(b.rows, size) && ValidHashes(h, size)
  {
    exists t :: 0 <= t < NUM_TABLES && LastFree(b, h, size, t) && rows' == SetSlot(b.rows, t, h(t, b.entry.key), b.entry)
  }

  ghost predicate LastFree(b: Hand, h: Hashes, size: int, t: int)
    requires ValidRows(b.rows, size) && ValidHashes(h, size) && 0 <= t < NUM_TABLES
  {
    !b.rows[t][h(t, b.entry.key)].valid && forall u | t < u < NUM_TABLES :: b.rows[u][h(u, b.entry.key)].valid
  }

  /** The entry placed is the first in hand that has a free slot, before the n-th eviction. */
  ghost predicate FirstFreeTakesIt(rows: Rows, h: Hashes, size: int, e: Slot, victimBit: int, n: nat, rows': Rows)
    requires ValidRows(rows, size) && ValidHashes(h, size) && 0 <= victimBit <= 1
  {
    exists i: nat :: i < n && AllOccupied(rows, h, size, e, victimBit, i)
                     && PutInFreeSlot(Evicted(rows, h, size, e, victimBit, i), h, size, rows')
  }

  /** One trial puts the entry into a free slot, or is one eviction if there is none. */
  lemma TrialEvicts(a: Hand, h: Hashes, size: int, i: nat, victimBit: int)
    requires ValidRows(a.rows, size) && ValidHashes(h, size) && 0 <= victimBit <= 1
    ensures var r := Trial(a.rows, h, size, a.entry, i % NUM_TABLES, (victimBit + i) % 2);
      && (r.success <==> HasFreeSlot(a.rows, h, size, a.entry.key))
      && (r.success ==> PutInFreeSlot(a, h, size, r.rows))
      && (!r.success ==> Hand(r.rows, r.homeless) == Exchanged(a, h, size, VictimTable(h, size, a.entry.key, i, victimBit)))
      && r.victimBit == (victimBit + (i + 1)) % 2
  {
    var slot := FreeTable(a.rows, h, a.entry.key, NUM_TABLES);
    if slot != -1 {
      assert LastFree(a, h, size, slot);
    }
  }

  /** From after n evictions on, with the trials that are left. */
  lemma {:induction false} TrialsEvict(rows: Rows, h: Hashes, size: int, e: Slot, victimBit: int, n: nat, left: nat)
    requires ValidRows(rows, size) && ValidHashes(h, size) && 0 <= victimBit <= 1
    requires AllOccupied(rows, h, size, e, victimBit, n)
    ensures var b := Evicted(rows, h, size, e, victimBit, n);
      var r := Trials(b.rows, h, size, b.entry, n % NUM_TABLES, (victimBit + n) % 2, left);
      && (r.success <==> !AllOccupied(rows, h, size, e, victimBit, n + left))
      && (r.success ==> FirstFreeTakesIt(rows, h, size, e, victimBit, n + left, r.rows))
      && (!r.success ==> Hand(r.rows, r.homeless) == Evicted(rows, h, size, e, victimBit, n + left))
    decreases left
  {
    hide ValidRows, ValidHashes, Trial, VictimTable, Exchanged, HasFreeSlot, PutInFreeSlot, AllOccupied, FirstFreeTakesIt;
    var b := Evicted(rows, h, size, e, victimBit, n);
    if left > 0 {
      TrialEvicts(b, h, size, n, victimBit);
      Looked(rows, h, size, e, victimBit, n);
      if FreeAfter(rows, h, size, e, victimBit, n) {
        var r := Trial(b.rows, h, size, b.entry, n % NUM_TABLES, (victimBit + n) % 2);
        Stopped(rows, h, size, e, victimBit, n, n + left, r.rows);
      } else {
        NextIndex(n);
        TrialsEvict(rows, h, size, e, victimBit, n + 1, left - 1);
      }
    }
  }

  lemma Looked(rows: Rows, h: Hashes, size: int, e: Slot, victimBit: int, n: nat)
    requires ValidRows(rows, size) && ValidHashes(h, size) && 0 <= victimBit <= 1
    requires AllOccupied(rows, h, size, e, victimBit, n)
    ensures AllOccupied(rows, h, size, e, victimBit, n + 1) <==> !FreeAfter(rows, h, size, e, victimBit, n)
  {
    hide FreeAfter;
  }

  lemma Stopped(rows: Rows, h: Hashes, size: int, e: Slot, victimBit: int, n: nat, m: nat, rows': Rows)
    requires ValidRows(rows, size) && ValidHashes(h, size) && 0 <= victimBit <= 1
    requires n < m && AllOccupied(rows, h, size, e, victimBit, n) && FreeAfter(rows, h, size, e, victimBit, n)
    requires PutInFreeSlot(Evicted(rows, h, size, e, victimBit, n), h, size, rows')
    ensures !AllOccupied(rows, h, size, e, victimBit, m) && FirstFreeTakesIt(rows, h, size, e, victimBit, m, rows')
  {
    hide FreeAfter, PutInFreeSlot;
  }

  lemma NextIndex(n: nat)
    ensures (n % NUM_TABLES + 1) % NUM_TABLES == (n + 1) % NUM_TABLES
  {
  }

  /**
   * An insert succeeds exactly if, among the entries in hand before its first MAX_TRIALS
   * evictions, one has a free slot; the first such is put there.  A failed insert has
   * made MAX_TRIALS evictions, and every entry in hand met nine occupied slots.
   */
  lemma InsertSucceedsIff(rows: Rows, h: Hashes, size: int, key: Key, value: Value, victimBit: int)
    requires ValidRows(rows, size) && ValidHashes(h, size) && 0 <= victimBit <= 1
    ensures var e, r := Slot(key, value, true), Inserted(rows, h, size, key, value, victimBit);
      && (r.success <==> !AllOccupied(rows, h, size, e, victimBit, MAX_TRIALS))
      && (r.success ==> FirstFreeTakesIt(rows, h, size, e, victimBit, MAX_TRIALS, r.rows))
      && (!r.success ==> Hand(r.rows, r.homeless) == Evicted(rows, h, size, e, victimBit, MAX_TRIALS))
  {
    hide ValidRows, ValidHashes, Trials, FreeAfter, PutInFreeSlot, FirstFreeTakesIt;
    TrialsEvict(rows, h, size, Slot(key, value, true), victimBit, 0, MAX_TRIALS);
  }

  /** Every slot but one is as it was; that one was free and holds the entry. */
  ghost predicate OnlyFills(rows: Rows, h: Hashes, size: int, e: Slot, rows': Rows)
    requires ValidRows(rows, size) && ValidHashes(h, size)
  {
    && ValidRows(rows', size)
    && exists t :: 0 <= t < NUM_TABLES && !rows[t][h(t, e.key)].valid && rows'[t][h(t, e.key)] == e
         && forall i, j | 0 <= i < NUM_TABLES && 0 <= j < size && (i != t || j != h(t, e.key)) :: rows'[i][j] == rows[i][j]
  }

  /** A new key with a free slot is put there, and nothing else moves. */
  lemma FreeSlotTakesIt(rows: Rows, h: Hashes, size: int, key: Key, value: Value, victimBit: int)
    requires ValidRows(rows, size) && ValidHashes(h, size) && 0 <= victimBit <= 1
    requires HasFreeSlot(rows, h, size, key)
    ensures var r := Inserted(rows, h, size, key, value, victimBit);
      r.success && OnlyFills(rows, h, size, Slot(key, value, true), r.rows)
  {
    var e := Slot(key, value, true);
    InsertSucceedsIff(rows, h, size, key, value, victimBit);
    assert FreeAfter(rows, h, size, e, victimBit, 0);
    hide Trials;
    var r := Inserted(rows, h, size, key, value, victimBit);
    var i: nat :| i < MAX_TRIALS && AllOccupied(rows, h, size, e, victimBit, i)
                  && PutInFreeSlot(Evicted(rows, h, size, e, victimBit, i), h, size, r.rows);
    assert i == 0;
    var t :| 0 <= t < NUM_TABLES && LastFree(Hand(rows, e), h, size, t) && r.rows == SetSlot(rows, t, h(t, key), e);
    assert r.rows[t][h(t, key)] == e;
  }
}
