/**
 * The hash table as it is written: nine tables in one two-dimensional array that
 * insert and remove change in place.
 */
module CuckooUnit {
  import opened Cuckoo
  import opened CuckooProof
  import opened CuckooEvictions

  class HashTable {
    const size: nat
    const hash: Hashes
    const tables: array2<Slot>
    var victimBit: int
    var insertFailureCounter: nat

    ghost predicate Valid()
      reads this, tables
    {
      && tables.Length0 == NUM_TABLES && tables.Length1 == size
      && ValidHashes(hash, size)
      && 0 <= victimBit <= 1
      && Placed(Rows(), hash)
    }

    ghost function Rows(): (rows: Rows)
      reads tables
      requires tables.Length0 == NUM_TABLES && tables.Length1 == size
      ensures ValidRows(rows, size)
    {
      seq(NUM_TABLES, i requires 0 <= i < NUM_TABLES reads tables =>
        seq(size, j requires 0 <= j < size reads tables => tables[i, j]))
    }

    constructor (size: nat, hash: Hashes)
      requires ValidHashes(hash, size)
      ensures Valid() && this.size == size && this.hash == hash
      ensures Unused(Rows()) && Entries(Rows()) == multiset{}
      ensures fresh(tables)
    {
      this.size, this.hash := size, hash;
      tables := new Slot[NUM_TABLES, size]((_, _) => Slot(0, 0, false));
      victimBit, insertFailureCounter := 0, 0;
      new;
      EmptyRepresents(Rows(), hash);
    }

    /** One write to the tables. */
    method Write(i: nat, j: nat, s: Slot)
      requires tables.Length0 == NUM_TABLES && tables.Length1 == size
      requires i < NUM_TABLES && j < size
      modifies tables
      ensures Rows() == SetSlot(old(Rows()), i, j, s)
    {
      tables[i, j] := s;
      ghost var before := old(Rows());
      assert Rows()[i] == before[i][j := s];
      assert forall k | 0 <= k < NUM_TABLES && k != i :: Rows()[k] == before[k];
    }

    /** One trial of insert. */
    method Attempt(entry: Slot, victimIdx: int) returns (success: bool, next: Slot)
      requires tables.Length0 == NUM_TABLES && tables.Length1 == size && ValidHashes(hash, size)
      requires 0 <= victimIdx < NUM_TABLES && 0 <= victimBit <= 1
      modifies `victimBit, tables
      ensures 0 <= victimBit <= 1
      ensures Outcome(Rows(), success, next, victimBit) == old(Trial(Rows(), hash, size, entry, victimIdx, victimBit))
    {
      var slot := FindFree(entry.key);
      if slot != -1 {
        Write(slot, hash(slot, entry.key), entry);
        success, next := true, entry;
      } else {
        var victimPos := hash(victimIdx, entry.key) % (NUM_TABLES - 1) + victimBit;
        var pos := hash(victimPos, entry.key);
        success, next := false, tables[victimPos, pos];
        assert next == Rows()[victimPos][pos];
        Write(victimPos, pos, entry);
      }
      victimBit := (victimBit + 1) % 2;
    }

    /** insert: at most MAX_TRIALS trials; returns whether it succeeded and the entry held last. */
    method Insert(key: Key, value: Value) returns (success: bool, currentEntry: Slot)
      requires Valid()
      modifies this, tables
      ensures Valid()
      ensures Outcome(Rows(), success, currentEntry, victimBit) == old(Inserted(Rows(), hash, size, key, value, victimBit))
      ensures success <==> old(!AllOccupied(Rows(), hash, size, Slot(key, value, true), victimBit, MAX_TRIALS))
      ensures insertFailureCounter == (old(insertFailureCounter) + (if success then 0 else 1)) % 0x1_0000
    {
      hide Placed, ValidHashes, ValidRows, Trial, Trials, Entries, AllOccupied, FirstFreeTakesIt;
      success := false;
      currentEntry := Slot(key, value, true);
      var victimIdx := 0;
      var trials := 0;
      ghost var result := Inserted(Rows(), hash, size, key, value, victimBit);
      TrialsConserve(Rows(), hash, size, currentEntry, 0, victimBit, MAX_TRIALS);
      InsertSucceedsIff(Rows(), hash, size, key, value, victimBit);
      while trials < MAX_TRIALS && !success
        invariant 0 <= trials <= MAX_TRIALS && 0 <= victimIdx < NUM_TABLES && 0 <= victimBit <= 1
        invariant !success ==>
          result == Trials(Rows(), hash, size, currentEntry, victimIdx, victimBit, MAX_TRIALS - trials)
        invariant success ==> result == Outcome(Rows(), true, currentEntry, victimBit)
        invariant insertFailureCounter == old(insertFailureCounter)
      {
        NextTrial(Rows(), hash, size, currentEntry, victimIdx, victimBit, MAX_TRIALS - trials);
        success, currentEntry := Attempt(currentEntry, victimIdx);
        if !success {
          victimIdx := victimIdx + 1;
          if victimIdx == NUM_TABLES {
            victimIdx := 0;
          }
        }
        trials := trials + 1;
      }
      NoTrialLeft(Rows(), hash, size, currentEntry, victimIdx, victimBit);
      insertFailureCounter := (insertFailureCounter + (if success then 0 else 1)) % 0x1_0000;
    }

    /** The last table with a free slot for the key, or -1. */
    method FindFree(key: Key) returns (slot: int)
      requires tables.Length0 == NUM_TABLES && tables.Length1 == size && ValidHashes(hash, size)
      ensures slot == FreeTable(Rows(), hash, key, NUM_TABLES)
    {
      slot := -1;
      for i := 0 to NUM_TABLES
        invariant slot == FreeTable(Rows(), hash, key, i)
      {
        if !tables[i, hash(i, key)].valid {
          slot := i;
        }
      }
    }

    /** remove: invalidate the key's slot in every table that holds it. */
    method Remove(key: Key) returns (success: bool)
      requires Valid()
      modifies tables
      ensures Valid()
      ensures Rows() == old(RemovedBelow(Rows(), hash, key, NUM_TABLES))
      ensures success <==> old(HasKey(Entries(Rows()), key))
    {
      hide Placed, Entries, HasKey, Found, RemovedBelow, Rows, SetSlot, Holds;
      success := false;
      ghost var before := Rows();
      RemoveDeletes(before, hash, size, key, Pair(key, 0));
      FoundIffPresent(before, hash, size, key);
      NoneRemoved(before, hash, key);
      for i := 0 to NUM_TABLES
        invariant Rows() == RemovedBelow(before, hash, key, i)
        invariant success <==> Found(before, hash, key, i) >= 0
      {
        OneMoreRemoved(before, hash, key, i);
        var hit := RemoveFrom(i, key);
        success := success || hit;
      }
    }

    /** remove in one table. */
    method RemoveFrom(i: nat, key: Key) returns (hit: bool)
      requires tables.Length0 == NUM_TABLES && tables.Length1 == size && ValidHashes(hash, size)
      requires i < NUM_TABLES
      modifies tables
      ensures hit <==> Holds(old(Rows())[i][hash(i, key)], key)
      ensures Rows() == if hit then SetSlot(old(Rows()), i, hash(i, key), old(Rows())[i][hash(i, key)].(valid := false))
                        else old(Rows())
    {
      hit := false;
      var pos := hash(i, key);
      if tables[i, pos].valid && tables[i, pos].key == key {
        Write(i, pos, tables[i, pos].(valid := false));
        hit := true;
      }
    }

    /** lookup */
    method Lookup(key: Key) returns (hit: bool, value: Value)
      requires Valid()
      ensures hit <==> HasKey(Entries(Rows()), key)
      ensures hit ==> Pair(key, value) in Entries(Rows())
      ensures forall f | Represents(Entries(Rows()), f) :: (hit <==> key in f) && (hit ==> value == f[key])
    {
      var slot := -1;
      for i := 0 to NUM_TABLES
        invariant slot == Found(Rows(), hash, key, i)
      {
        var entry := tables[i, hash(i, key)];
        if entry.valid && entry.key == key {
          slot := i;
        }
      }
      FoundIffPresent(Rows(), hash, size, key);
      hit, value := false, 0;
      if slot != -1 {
        hit, value := true, tables[slot, hash(slot, key)].value;
      }
      forall f | Represents(Entries(Rows()), f)
        ensures (hit <==> key in f) && (hit ==> value == f[key])
      {
        LookupRefines(Rows(), hash, size, f, key);
      }
    }
  }

  lemma NoTrialLeft(rows: Rows, h: Hashes, size: int, e: Slot, victimIdx: int, victimBit: int)
    requires ValidRows(rows, size) && ValidHashes(h, size) && 0 <= victimIdx < NUM_TABLES && 0 <= victimBit <= 1
    ensures Trials(rows, h, size, e, victimIdx, victimBit, 0) == Outcome(rows, false, e, victimBit)
  {
  }

  lemma NextTrial(rows: Rows, h: Hashes, size: int, e: Slot, victimIdx: int, victimBit: int, left: nat)
    requires ValidRows(rows, size) && ValidHashes(h, size) && 0 <= victimIdx < NUM_TABLES && 0 <= victimBit <= 1
    requires left > 0
    ensures var r := Trial(rows, h, size, e, victimIdx, victimBit);
      Trials(rows, h, size, e, victimIdx, victimBit, left)
      == if r.success then r
         else Trials(r.rows, h, size, r.homeless, if victimIdx == NUM_TABLES - 1 then 0 else victimIdx + 1, r.victimBit, left - 1)
  {
    hide Trial;
  }

  lemma NoneRemoved(rows: Rows, h: Hashes, key: Key)
    ensures RemovedBelow(rows, h, key, 0) == rows && Found(rows, h, key, 0) == -1
  {
  }

  lemma OneMoreRemoved(rows: Rows, h: Hashes, key: Key, n: nat)
    requires n < |rows| && forall i | 0 <= i <= n :: 0 <= h(i, key) < |rows[i]|
    ensures var r, j := RemovedBelow(rows, h, key, n), h(n, key);
      && (Holds(r[n][j], key) <==> Holds(rows[n][j], key))
      && RemovedBelow(rows, h, key, n + 1) == (if Holds(r[n][j], key) then SetSlot(r, n, j, r[n][j].(valid := false)) else r)
      && (Found(rows, h, key, n + 1) >= 0 <==> Holds(r[n][j], key) || Found(rows, h, key, n) >= 0)
  {
  }
}
