/**
 * The multi queue refines one sequence per key, in every interleaving of its
 * processes, and never loses or duplicates a node index.
 *
 * The proof follows two views that pending FIFO entries do not disturb: the
 * node table with all pending requests applied, and the pointer table with the
 * pending update applied.
 */
module MultiQueueProof {
  import opened MultiQueue

  // Auxiliary view of a state: the node indices of each queue from head to
  // tail, and the operations completed so far.
  datatype View<T> = View(chains: seq<seq<nat>>, done: seq<Op<T>>)

  // ----- pending requests applied -----

  ghost predicate IndexesBelow<T>(rs: seq<MetaReq<T>>, n: nat) {
    forall i | 0 <= i < |rs| :: rs[i].idx < n
  }

  ghost function StoreAll<T>(t: seq<MetaEntry<T>>, rs: seq<MetaReq<T>>): (t': seq<MetaEntry<T>>)
    requires IndexesBelow(rs, |t|)
    ensures |t'| == |t|
    decreases |rs|
  {
    if rs == [] then t else StoreAll(Store(t, rs[0]), rs[1..])
  }

  lemma {:induction false} StoreAllAppend<T>(t: seq<MetaEntry<T>>, rs: seq<MetaReq<T>>, r: MetaReq<T>)
    requires IndexesBelow(rs, |t|) && r.idx < |t|
    ensures IndexesBelow(rs + [r], |t|)
    ensures StoreAll(t, rs + [r]) == Store(StoreAll(t, rs), r)
    decreases |rs|
  {
    if rs == [] {
      assert rs + [r] == [r];
      assert StoreAll(Store(t, r), []) == Store(t, r);
    } else {
      StoreAllAppend(Store(t, rs[0]), rs[1..], r);
      assert (rs + [r])[1..] == rs[1..] + [r];
    }
  }

  ghost predicate NoReads<T>(rs: seq<MetaReq<T>>) {
    forall i | 0 <= i < |rs| :: !rs[i].Read?
  }

  ghost function Nodes<T>(s: System<T>): (nodes: seq<MetaEntry<T>>)
    requires IndexesBelow(s.metaReq, |s.metaTable|)
    ensures |nodes| == |s.metaTable|
  {
    StoreAll(s.metaTable, s.metaReq)
  }

  ghost function Pointer<T>(s: System<T>, k: nat): PtrEntry
    requires k < |s.ptrTable|
  {
    if s.ptrUpd != [] && s.ptrUpd[0].key == k then s.ptrUpd[0].entry else s.ptrTable[k]
  }

  // ----- conservation of node indices -----

  ghost function Members(chains: seq<seq<nat>>): multiset<nat> {
    if chains == [] then multiset{}
    else Members(chains[..|chains|-1]) + multiset(chains[|chains|-1])
  }

  ghost function Issued(c: nat): multiset<nat> {
    if c == 0 then multiset{} else Issued(c - 1)[c - 1 := 1]
  }

  lemma {:induction false} IssuedCounts(c: nat)
    ensures |Issued(c)| == c
    ensures forall i: nat :: Issued(c)[i] == if i < c then 1 else 0
  {
    if c > 0 {
      IssuedCounts(c - 1);
      assert Issued(c) == Issued(c - 1) + multiset{c - 1};
    }
  }

  lemma {:induction false} MembersUpdate(chains: seq<seq<nat>>, k: nat, c: seq<nat>)
    requires k < |chains|
    ensures Members(chains[k := c]) + multiset(chains[k]) == Members(chains) + multiset(c)
  {
    var n := |chains| - 1;
    var rest, last := Members(chains[..n]), multiset(chains[n]);
    if k < n {
      assert chains[k := c][..n] == chains[..n][k := c];
      assert chains[..n][k] == chains[k];
      MembersUpdate(chains[..n], k, c);
      var rest' := Members(chains[..n][k := c]);
      assert rest' + multiset(chains[k]) == rest + multiset(c);
      assert Members(chains[k := c]) == rest' + last;
      assert (rest' + last) + multiset(chains[k]) == (rest' + multiset(chains[k])) + last;
      assert (rest + multiset(c)) + last == (rest + last) + multiset(c);
    } else {
      assert chains[k := c][..n] == chains[..n];
      assert (rest + multiset(c)) + last == (rest + last) + multiset(c);
    }
  }

  lemma {:induction false} MembersInclude(chains: seq<seq<nat>>, k: nat)
    requires k < |chains|
    ensures multiset(chains[k]) <= Members(chains)
  {
    var n := |chains| - 1;
    if k < n {
      assert chains[..n][k] == chains[k];
      MembersInclude(chains[..n], k);
    }
  }

  ghost predicate Distinct(chains: seq<seq<nat>>) {
    forall k, i, l, j | 0 <= k < |chains| && 0 <= i < |chains[k]| && 0 <= l < |chains| && 0 <= j < |chains[l]| ::
      chains[k][i] == chains[l][j] ==> k == l && i == j
  }

  lemma CountTwice(c: seq<nat>, i: nat, j: nat)
    requires i < j < |c| && c[i] == c[j]
    ensures multiset(c)[c[i]] >= 2
  {
    assert c == c[..j] + c[j..];
    assert multiset(c) == multiset(c[..j]) + multiset(c[j..]);
    assert c[..j][i] == c[i] && c[j..][0] == c[i];
    assert c[i] in multiset(c[..j]) && c[i] in multiset(c[j..]);
  }

  lemma SharedCountsTwice(chains: seq<seq<nat>>, k: nat, l: nat, x: nat)
    requires k < |chains| && l < |chains| && k != l
    requires x in chains[k] && x in chains[l]
    ensures Members(chains)[x] >= 2
  {
    MembersUpdate(chains, k, []);
    MembersInclude(chains[k := []], l);
    assert chains[k := []][l] == chains[l];
    assert x in multiset(chains[k]) && x in multiset(chains[l]);
    assert (Members(chains[k := []]) + multiset(chains[k]))[x] >= 2;
    assert Members(chains) + multiset([]) == Members(chains);
  }

  /** Chains whose indices occur once overall are acyclic and pairwise disjoint. */
  lemma SingleCountsAreDistinct(chains: seq<seq<nat>>)
    requires forall x: nat :: Members(chains)[x] <= 1
    ensures Distinct(chains)
  {
    forall k, i, l, j | 0 <= k < |chains| && 0 <= i < |chains[k]| && 0 <= l < |chains| && 0 <= j < |chains[l]|
      && chains[k][i] == chains[l][j]
      ensures k == l && i == j
    {
      MembersInclude(chains, k);
      if k != l {
        SharedCountsTwice(chains, k, l, chains[k][i]);
      } else if i != j {
        CountTwice(chains[k], if i < j then i else j, if i < j then j else i);
      }
    }
  }

  ghost function HeldIndex<T>(s: System<T>): multiset<nat> {
    if s.phase == Push1 || s.phase == Push2 then multiset{s.newIdx} else multiset{}
  }

  /** The first c indices, each exactly once: free, being released, held by a push, or in a chain. */
  ghost predicate Partition(free: seq<nat>, release: seq<nat>, held: multiset<nat>, chains: seq<seq<nat>>, c: nat) {
    multiset(free) + multiset(release) + held + Members(chains) == Issued(c)
  }

  ghost predicate Conserved<T>(s: System<T>, chains: seq<seq<nat>>) {
    && s.counter <= |s.metaTable|
    && Partition(s.freeList, s.release, HeldIndex(s), chains, s.counter)
  }

  lemma Recycle(free: seq<nat>, release: seq<nat>, held: multiset<nat>, chains: seq<seq<nat>>, c: nat)
    requires release != [] && Partition(free, release, held, chains, c)
    ensures Partition(free + [release[0]], release[1..], held, chains, c)
  {
    assert release == [release[0]] + release[1..];
    assert multiset(release) == multiset{release[0]} + multiset(release[1..]);
  }

  lemma IssueNext(free: seq<nat>, release: seq<nat>, held: multiset<nat>, chains: seq<seq<nat>>, c: nat)
    requires Partition(free, release, held, chains, c)
    ensures Partition(free + [c], release, held, chains, c + 1)
  {
    IssuedCounts(c);
    assert Issued(c + 1) == Issued(c) + multiset{c};
    assert multiset(free + [c]) == multiset(free) + multiset{c};
  }

  lemma Cancel(a: multiset<nat>, b: multiset<nat>, c: multiset<nat>)
    requires a + c == b + c
    ensures a == b
  {
    forall x: nat
      ensures a[x] == b[x]
    {
      assert (a + c)[x] == (b + c)[x];
    }
  }

  /** A push takes the first free index. */
  lemma Take(free: seq<nat>, release: seq<nat>, chains: seq<seq<nat>>, c: nat)
    requires free != [] && Partition(free, release, multiset{}, chains, c)
    ensures Partition(free[1..], release, multiset{free[0]}, chains, c)
  {
    assert free == [free[0]] + free[1..];
    assert multiset(free) == multiset{free[0]} + multiset(free[1..]);
  }

  /** A completed push appends its index to a chain. */
  lemma Link(free: seq<nat>, release: seq<nat>, i: nat, chains: seq<seq<nat>>, c: nat, k: nat)
    requires k < |chains| && Partition(free, release, multiset{i}, chains, c)
    ensures Partition(free, release, multiset{}, chains[k := chains[k] + [i]], c)
  {
    MembersUpdate(chains, k, chains[k] + [i]);
    assert multiset(chains[k] + [i]) == multiset(chains[k]) + multiset{i};
    var members' := Members(chains[k := chains[k] + [i]]);
    assert members' + multiset(chains[k]) == (Members(chains) + multiset{i}) + multiset(chains[k]);
    Cancel(members', Members(chains) + multiset{i}, multiset(chains[k]));
  }

  /** A pop releases the head of a chain. */
  lemma Unlink(free: seq<nat>, release: seq<nat>, chains: seq<seq<nat>>, c: nat, k: nat)
    requires k < |chains| && chains[k] != [] && Partition(free, release, multiset{}, chains, c)
    ensures Partition(free, release + [chains[k][0]], multiset{}, chains[k := chains[k][1..]], c)
  {
    var head, tail := chains[k][0], chains[k][1..];
    MembersUpdate(chains, k, tail);
    assert chains[k] == [head] + tail;
    assert multiset(chains[k]) == multiset{head} + multiset(tail);
    assert (Members(chains[k := tail]) + multiset{head}) + multiset(tail) == Members(chains) + multiset(tail);
    Cancel(Members(chains[k := tail]) + multiset{head}, Members(chains), multiset(tail));
    assert multiset(release + [head]) == multiset(release) + multiset{head};
  }

  // ----- chains -----

  /** The nodes of one queue hold its values and are linked head to tail; an open chain's last node already points to next. */
  ghost predicate Chain<T>(nodes: seq<MetaEntry<T>>, c: seq<nat>, vals: seq<T>, open: bool, next: nat) {
    && |c| == |vals|
    && (forall i | 0 <= i < |c| :: c[i] < |nodes| && nodes[c[i]].valid && nodes[c[i]].value == vals[i])
    && (forall i | 0 <= i < |c| - 1 :: !nodes[c[i]].isTail && nodes[c[i]].next == c[i+1])
    && (c != [] ==> nodes[c[|c|-1]].isTail == !open)
    && (c != [] && open ==> nodes[c[|c|-1]].next == next)
  }

  ghost predicate Open<T>(s: System<T>, k: nat) {
    s.phase == Push2 && k == s.insert.key
  }

  ghost predicate Chains<T>(s: System<T>, v: View<T>)
    requires IndexesBelow(s.metaReq, |s.metaTable|) && KeysBelow(v.done, |s.ptrTable|)
  {
    && |v.chains| == |s.ptrTable|
    && var q := Performed(|s.ptrTable|, v.done);
    && (forall k | 0 <= k < |v.chains| :: Chain(Nodes(s), v.chains[k], q.contents[k], Open(s, k), s.newIdx))
    && s.popRsp == q.answers
  }

  ghost predicate PointsTo(p: PtrEntry, c: seq<nat>) {
    && p.valid == (c != [])
    && (c != [] ==> p.head == c[0] && p.tail == c[|c|-1])
  }

  // ----- the dialogue between the processes -----

  /** A lookup for key is under way: either still queued, or answered with the up-to-date entry. */
  ghost predicate Asking<T>(s: System<T>, key: nat, lock: bool) {
    && key < |s.ptrTable|
    && ((s.ptrReq == [PtrReq(key, lock)] && s.ptrRsp == [])
        || (s.ptrReq == [] && s.ptrUpd == [] && s.ptrRsp == [s.ptrTable[key]]
            && (lock ==> s.isLocked && s.lockedKey == key)))
  }

  ghost predicate Quiet<T>(s: System<T>) {
    s.ptrReq == [] && s.ptrRsp == []
  }

  ghost predicate Dialogue<T>(s: System<T>) {
    && |s.ptrUpd| <= 1
    && !s.waiting
    && (s.isLocked ==>
        || (s.phase == Push1 && s.ptrRsp != [] && s.lockedKey == s.insert.key)
        || (s.phase == Push2 && s.lockedKey == s.insert.key)
        || (s.ptrUpd != [] && s.ptrUpd[0].key == s.lockedKey))
    && match s.phase
       case Main => Quiet(s) && NoReads(s.metaReq) && s.metaRsp == []
       case Push1 => Asking(s, s.insert.key, true) && NoReads(s.metaReq) && s.metaRsp == []
       case Push2 => Quiet(s) && s.ptrUpd == [] && NoReads(s.metaReq) && s.metaRsp == []
       case Pop1 => Asking(s, s.popReq.key, false) && NoReads(s.metaReq) && s.metaRsp == []
       case Pop2 => Quiet(s) && s.ptrUpd == [] && Reading(s)
  }

  /** In Pop2 the head node of the popped queue is being read, behind all earlier table updates. */
  ghost predicate Reading<T>(s: System<T>) {
    && s.popReq.key < |s.ptrTable|
    && s.ptrMeta == s.ptrTable[s.popReq.key] && s.ptrMeta.valid
    && var n := |s.metaReq|;
    if n == 0 then s.ptrMeta.head < |s.metaTable| && s.metaRsp == [s.metaTable[s.ptrMeta.head]]
    else s.metaRsp == [] && s.metaReq[n-1] == Read(s.ptrMeta.head) && NoReads(s.metaReq[..n-1])
  }

  ghost predicate PointersRight<T>(s: System<T>, chains: seq<seq<nat>>)
    requires |chains| == |s.ptrTable|
  {
    && (forall k | 0 <= k < |chains| :: PointsTo(Pointer(s, k), chains[k]))
    && (s.phase == Push2 ==>
        && s.insert.key < |chains| && chains[s.insert.key] != []
        && s.ptrMeta == PtrEntry(chains[s.insert.key][0], s.newIdx, true))
  }

  ghost predicate Inv<T>(s: System<T>, v: View<T>) {
    && InRange(s)
    && KeysBelow(v.done, |s.ptrTable|)
    && Chains(s, v)
    && Conserved(s, v.chains)
    && PointersRight(s, v.chains)
    && Dialogue(s)
  }

  // ----- the pointer table, the node table and the free list keep the invariant -----

  /** What the conservation law says about single indices. */
  lemma Apart<T>(s: System<T>, v: View<T>)
    requires Inv(s, v)
    ensures Distinct(v.chains)
    ensures forall k, i | 0 <= k < |v.chains| && 0 <= i < |v.chains[k]| :: v.chains[k][i] < |s.metaTable|
    ensures HeldIndex(s) != multiset{} ==>
      s.newIdx < |s.metaTable| && forall k, i | 0 <= k < |v.chains| && 0 <= i < |v.chains[k]| :: v.chains[k][i] != s.newIdx
    ensures |s.freeList| + |s.release| <= |s.metaTable|
    ensures s.freeList != [] ==> s.freeList[0] < |s.metaTable|
  {
    IssuedCounts(s.counter);
    assert forall x: nat :: Members(v.chains)[x] <= Issued(s.counter)[x];
    SingleCountsAreDistinct(v.chains);
    forall k, i | 0 <= k < |v.chains| && 0 <= i < |v.chains[k]|
      ensures v.chains[k][i] < |s.metaTable|
      ensures HeldIndex(s) != multiset{} ==> v.chains[k][i] != s.newIdx
    {
      MembersInclude(v.chains, k);
      assert v.chains[k][i] in multiset(v.chains[k]);
      assert Issued(s.counter)[v.chains[k][i]] >= 1;
    }
    assert |multiset(s.freeList) + multiset(s.release) + HeldIndex(s) + Members(v.chains)| == s.counter;
    if HeldIndex(s) != multiset{} {
      assert s.newIdx in Issued(s.counter);
    }
    if s.freeList != [] {
      assert s.freeList[0] in multiset(s.freeList);
      assert s.freeList[0] in Issued(s.counter);
    }
  }

  lemma IndexesInRange<T>(s: System<T>)
    requires InRange(s)
    ensures IndexesBelow(s.metaReq, |s.metaTable|)
  {
  }

  /** A step that leaves both views as they are keeps the invariant if it keeps the dialogue and the conservation law. */
  lemma SameViews<T>(s: System<T>, s': System<T>, v: View<T>)
    requires Inv(s, v) && InRange(s') && Dialogue(s') && Conserved(s', v.chains)
    requires |s'.ptrTable| == |s.ptrTable|
    requires IndexesBelow(s.metaReq, |s.metaTable|) && IndexesBelow(s'.metaReq, |s'.metaTable|)
    requires Nodes(s') == Nodes(s)
    requires forall k | 0 <= k < |s.ptrTable| :: Pointer(s', k) == Pointer(s, k)
    requires (s'.phase == Push2) == (s.phase == Push2) && s'.popRsp == s.popRsp
    requires s.phase == Push2 ==> s'.insert == s.insert && s'.newIdx == s.newIdx && s'.ptrMeta == s.ptrMeta
    ensures Inv(s', v)
  {
    hide InRange, Dialogue, Conserved, Chain, PointsTo, Nodes, Pointer;
    var q := Performed(|s.ptrTable|, v.done);
    forall k | 0 <= k < |v.chains|
      ensures Chain(Nodes(s'), v.chains[k], q.contents[k], Open(s', k), s'.newIdx)
    {
      ClosedChain(Nodes(s), v.chains[k], q.contents[k], s.newIdx, s'.newIdx);
    }
  }

  lemma ClosedChain<T>(nodes: seq<MetaEntry<T>>, c: seq<nat>, vals: seq<T>, next: nat, next': nat)
    ensures Chain(nodes, c, vals, false, next) ==> Chain(nodes, c, vals, false, next')
  {
  }

  lemma PointerDialogue<T>(s: System<T>)
    requires InRange(s) && Dialogue(s)
    ensures InRange(PointerStep(s)) && Dialogue(PointerStep(s))
  {
  }

  lemma PointerFrame<T>(s: System<T>)
    requires InRange(s)
    ensures var s' := PointerStep(s);
      && s' == s.(ptrReq := s'.ptrReq, ptrUpd := s'.ptrUpd, ptrRsp := s'.ptrRsp, ptrTable := s'.ptrTable,
                  lockedKey := s'.lockedKey, isLocked := s'.isLocked, waiting := s'.waiting, held := s'.held)
      && |s'.ptrTable| == |s.ptrTable|
      && (|s.ptrUpd| <= 1 ==> forall k | 0 <= k < |s.ptrTable| :: Pointer(s', k) == Pointer(s, k))
  {
  }

  lemma PointerKeeps<T>(s: System<T>, v: View<T>)
    requires Inv(s, v)
    ensures Inv(PointerStep(s), v)
  {
    hide Chains, PointersRight, PointerStep, Issued, Members;
    PointerDialogue(s);
    PointerFrame(s);
    IndexesInRange(s);
    hide InRange;
    SameViews(s, PointerStep(s), v);
  }

  lemma MetaDialogue<T>(s: System<T>)
    requires InRange(s) && Dialogue(s)
    ensures InRange(MetaStep(s)) && Dialogue(MetaStep(s))
  {
    if s.metaReq != [] {
      var s' := MetaStep(s);
      assert forall i | 0 <= i < |s'.metaReq| :: s'.metaReq[i] == s.metaReq[i+1];
      if s.phase == Pop2 && |s.metaReq| > 1 {
        assert s.metaReq[..|s.metaReq|-1][0] == s.metaReq[0];
        assert s'.metaReq[..|s'.metaReq|-1] == s.metaReq[..|s.metaReq|-1][1..];
      }
    }
  }

  lemma MetaFrame<T>(s: System<T>)
    requires InRange(s)
    ensures var s' := MetaStep(s);
      && s' == s.(metaReq := s'.metaReq, metaRsp := s'.metaRsp, metaTable := s'.metaTable)
      && |s'.metaTable| == |s.metaTable|
      && IndexesBelow(s'.metaReq, |s'.metaTable|) && IndexesBelow(s.metaReq, |s.metaTable|)
      && Nodes(s') == Nodes(s)
  {
    if s.metaReq != [] {
      assert forall r <- s.metaReq[1..] :: r in s.metaReq;
    }
  }

  lemma MetaKeeps<T>(s: System<T>, v: View<T>)
    requires Inv(s, v)
    ensures Inv(MetaStep(s), v)
  {
    hide Chains, PointersRight, MetaStep, Issued, Members;
    MetaDialogue(s);
    MetaFrame(s);
    hide InRange, Dialogue;
    SameViews(s, MetaStep(s), v);
  }

  lemma FreeListFrame<T>(s: System<T>)
    ensures var s' := FreeListStep(s);
      s' == s.(freeList := s'.freeList, release := s'.release, counter := s'.counter)
  {
  }

  lemma FreeListConserves<T>(s: System<T>, chains: seq<seq<nat>>)
    requires |s.metaTable| < 0x1_0000 && Conserved(s, chains)
    ensures Conserved(FreeListStep(s), chains)
  {
    hide InRange, Partition;
    FreeListFrame(s);
    if s.release != [] {
      Recycle(s.freeList, s.release, HeldIndex(s), chains, s.counter);
    } else {
      IssueNext(s.freeList, s.release, HeldIndex(s), chains, s.counter);
    }
  }

  lemma FreeListKeeps<T>(s: System<T>, v: View<T>)
    requires Inv(s, v)
    ensures Inv(FreeListStep(s), v)
  {
    hide Chains, PointersRight, FreeListStep, Partition;
    FreeListFrame(s);
    FreeListConserves(s, v.chains);
    SameViews(s, FreeListStep(s), v);
  }

  // ----- the request processor, phase by phase -----

  ghost function PushInFlight<T>(s: System<T>): seq<Insert<T>> {
    if s.phase == Push1 || s.phase == Push2 then [s.insert] else []
  }

  ghost function PopInFlight<T>(s: System<T>): seq<PopReq> {
    if s.phase == Pop1 || s.phase == Pop2 then [s.popReq] else []
  }

  /** The invariant holds again, the operation completed is appended, and no request was lost, repeated or overtaken. */
  ghost predicate Advances<T>(s: System<T>, v: View<T>, s': System<T>, v': View<T>) {
    && Inv(s', v')
    && v'.done == v.done + Completed(s)
    && PushesOf(v'.done) + PushInFlight(s') + s'.pushIn == PushesOf(v.done) + PushInFlight(s) + s.pushIn
    && PopsOf(v'.done) + PopInFlight(s') + s'.popIn == PopsOf(v.done) + PopInFlight(s) + s.popIn
  }

  lemma TakePushDialogue<T>(s: System<T>)
    requires InRange(s) && Dialogue(s) && s.phase == Main && s.pushIn != [] && s.freeList != []
    ensures InRange(ProcessStep(s)) && Dialogue(ProcessStep(s))
  {
    assert s.pushIn[0] in s.pushIn;
  }

  lemma TakePush<T>(s: System<T>, v: View<T>)
    requires Inv(s, v) && s.phase == Main && s.pushIn != [] && s.freeList != []
    ensures Advances(s, v, ProcessStep(s), v)
  {
    hide InRange, Dialogue, Chains, PointersRight, Partition, PushesOf, PopsOf, StoreAll;
    TakePushDialogue(s);
    IndexesInRange(s);
    Take(s.freeList, s.release, v.chains, s.counter);
    SameViews(s, ProcessStep(s), v);
    assert s.pushIn == [s.pushIn[0]] + s.pushIn[1..];
  }

  lemma TakePopDialogue<T>(s: System<T>)
    requires InRange(s) && Dialogue(s) && s.phase == Main && (s.pushIn == [] || s.freeList == []) && s.popIn != []
    ensures InRange(ProcessStep(s)) && Dialogue(ProcessStep(s))
  {
    assert s.popIn[0] in s.popIn;
  }

  lemma TakePop<T>(s: System<T>, v: View<T>)
    requires Inv(s, v) && s.phase == Main && (s.pushIn == [] || s.freeList == []) && s.popIn != []
    ensures Advances(s, v, ProcessStep(s), v)
  {
    hide InRange, Dialogue, Chains, PointersRight, Partition, PushesOf, PopsOf, StoreAll;
    TakePopDialogue(s);
    IndexesInRange(s);
    var s' := s.(popReq := s.popIn[0], popIn := s.popIn[1..],
                 ptrReq := s.ptrReq + [PtrReq(s.popIn[0].key, false)], phase := Pop1);
    assert ProcessStep(s) == s';
    hide ProcessStep;
    SameViews(s, s', v);
    assert s.popIn == [s.popIn[0]] + s.popIn[1..];
  }

  /** Queues other than k keep their nodes and pointers, and no push to them is half done. */
  ghost predicate OthersKept<T>(s: System<T>, s': System<T>, chains: seq<seq<nat>>, k: nat)
    requires |chains| == |s.ptrTable| == |s'.ptrTable| && |s'.metaTable| == |s.metaTable|
    requires IndexesBelow(s.metaReq, |s.metaTable|) && IndexesBelow(s'.metaReq, |s'.metaTable|)
  {
    && (forall l | 0 <= l < |chains| && l != k :: Pointer(s', l) == Pointer(s, l) && !Open(s, l) && !Open(s', l))
    && (forall l, i | 0 <= l < |chains| && l != k && 0 <= i < |chains[l]| ::
          chains[l][i] < |s.metaTable| && Nodes(s')[chains[l][i]] == Nodes(s)[chains[l][i]])
  }

  /** A step that works on queue k only, and leaves it with nodes c and values vals. */
  lemma OneQueue<T>(s: System<T>, v: View<T>, s': System<T>, v': View<T>, k: nat, c: seq<nat>, vals: seq<T>)
    requires Inv(s, v) && InRange(s') && Dialogue(s') && Conserved(s', v'.chains)
    requires |s'.ptrTable| == |s.ptrTable| && k < |s.ptrTable| && |s'.metaTable| == |s.metaTable|
    requires IndexesBelow(s.metaReq, |s.metaTable|) && IndexesBelow(s'.metaReq, |s'.metaTable|)
    requires v'.chains == v.chains[k := c] && KeysBelow(v'.done, |s.ptrTable|)
    requires OthersKept(s, s', v.chains, k)
    requires var q, q' := Performed(|s.ptrTable|, v.done), Performed(|s.ptrTable|, v'.done);
      q'.contents == q.contents[k := vals] && q'.answers == s'.popRsp
    requires Chain(Nodes(s'), c, vals, Open(s', k), s'.newIdx)
    requires PointsTo(Pointer(s', k), c)
    requires s'.phase == Push2 ==> s'.insert.key == k && c != [] && s'.ptrMeta == PtrEntry(c[0], s'.newIdx, true)
    ensures Inv(s', v')
  {
    hide InRange, Dialogue, Conserved, PointsTo, Nodes, Pointer, Chain, Open, Performed, KeysBelow;
    var q, q' := Performed(|s.ptrTable|, v.done), Performed(|s.ptrTable|, v'.done);
    forall l | 0 <= l < |v.chains| && l != k
      ensures Chain(Nodes(s'), v'.chains[l], q'.contents[l], Open(s', l), s'.newIdx)
    {
      SameChain(Nodes(s), Nodes(s'), v.chains[l], q.contents[l], s.newIdx, s'.newIdx);
    }
  }

  lemma SameChain<T>(nodes: seq<MetaEntry<T>>, nodes': seq<MetaEntry<T>>, c: seq<nat>, vals: seq<T>, next: nat, next': nat)
    requires |nodes'| == |nodes|
    requires Chain(nodes, c, vals, false, next)
    requires forall i | 0 <= i < |c| :: nodes'[c[i]] == nodes[c[i]]
    ensures Chain(nodes', c, vals, false, next')
  {
  }

  lemma PerformedAppend<T>(n: nat, ops: seq<Op<T>>, op: Op<T>)
    requires KeysBelow(ops, n) && op.key < n
    ensures KeysBelow(ops + [op], n)
    ensures Performed(n, ops + [op]) == Perform(Performed(n, ops), op)
    ensures PushesOf(ops + [op]) == PushesOf(ops) + (if op.DoPush? then [Insert(op.key, op.value)] else [])
    ensures PopsOf(ops + [op]) == PopsOf(ops)
      + (match op case DoPush(_, _) => [] case DoPop(k) => [PopReq(Pop, k)] case DoFront(k) => [PopReq(Front, k)])
  {
    assert (ops + [op])[..|ops|] == ops;
  }

  /** What a step leaves alone while a push or pop is under way. */
  ghost predicate Frame<T>(s: System<T>, s': System<T>) {
    && s'.pushIn == s.pushIn && s'.popIn == s.popIn
    && s'.freeList == s.freeList && s'.counter == s.counter
    && s'.newIdx == s.newIdx && s'.insert == s.insert && s'.popReq == s.popReq
    && s'.ptrTable == s.ptrTable && s'.metaTable == s.metaTable
  }

  // --- a push to an empty queue ---

  lemma PushFirstEffect<T>(s: System<T>)
    requires InRange(s) && Dialogue(s) && s.phase == Push1 && s.ptrRsp != [] && !s.ptrRsp[0].valid
    requires s.newIdx < |s.metaTable|
    ensures var s', k := ProcessStep(s), s.insert.key;
      && InRange(s') && Dialogue(s') && Frame(s, s') && s'.phase == Main
      && s'.popRsp == s.popRsp && s'.release == s.release
      && k < |s.ptrTable| && !Pointer(s, k).valid
      && (forall l | 0 <= l < |s.ptrTable| ::
            Pointer(s', l) == if l == k then PtrEntry(s.newIdx, s.newIdx, true) else Pointer(s, l))
      && IndexesBelow(s.metaReq, |s.metaTable|) && IndexesBelow(s'.metaReq, |s'.metaTable|)
      && Nodes(s') == Nodes(s)[s.newIdx := NewNode(s.insert.value)]
  {
    IndexesInRange(s);
    StoreAllAppend(s.metaTable, s.metaReq, Write(s.newIdx, NewNode(s.insert.value)));
  }

  lemma ChainGrows<T>(nodes: seq<MetaEntry<T>>, c: seq<nat>, vals: seq<T>, open: bool, i: nat, x: T, next': nat)
    requires Chain(nodes, c, vals, open, i) && (c != [] ==> open)
    requires i < |nodes| && forall j | 0 <= j < |c| :: c[j] != i
    ensures Chain(nodes[i := NewNode(x)], c + [i], vals + [x], false, next')
  {
  }

  /** Both ways to complete a push: the new node becomes the tail of queue k. */
  lemma PushDone<T>(s: System<T>, v: View<T>, s': System<T>, p: PtrEntry) returns (v': View<T>)
    requires Inv(s, v) && InRange(s') && Dialogue(s') && Frame(s, s')
    requires s'.phase == Main && s'.popRsp == s.popRsp && s'.release == s.release
    requires s.insert.key < |s.ptrTable|
    requires s.phase == Push2 || (s.phase == Push1 && v.chains[s.insert.key] == [])
    requires p == PtrEntry(if v.chains[s.insert.key] == [] then s.newIdx else v.chains[s.insert.key][0], s.newIdx, true)
    requires forall l | 0 <= l < |s.ptrTable| :: Pointer(s', l) == if l == s.insert.key then p else Pointer(s, l)
    requires IndexesBelow(s.metaReq, |s.metaTable|) && IndexesBelow(s'.metaReq, |s'.metaTable|)
    requires s.newIdx < |s.metaTable| && Nodes(s') == Nodes(s)[s.newIdx := NewNode(s.insert.value)]
    requires Completed(s) == [DoPush(s.insert.key, s.insert.value)]
    ensures Advances(s, v, s', v')
    ensures v'.chains == v.chains[s.insert.key := v.chains[s.insert.key] + [s.newIdx]]
    ensures v'.done == v.done + [DoPush(s.insert.key, s.insert.value)]
  {
    hide Nodes, Pointer, InRange, Dialogue, Partition, Distinct, PushesOf, PopsOf, Performed, KeysBelow, Completed;
    var n, k, op := |s.ptrTable|, s.insert.key, DoPush(s.insert.key, s.insert.value);
    var c, vals := v.chains[k], Performed(n, v.done).contents[k];
    Apart(s, v);
    PerformedAppend(n, v.done, op);
    Link(s.freeList, s.release, s.newIdx, v.chains, s.counter, k);
    v' := View(v.chains[k := c + [s.newIdx]], v.done + [op]);
    ChainGrows(Nodes(s), c, vals, Open(s, k), s.newIdx, s.insert.value, s'.newIdx);
    assert OthersKept(s, s', v.chains, k);
    hide Chain, NewNode, OthersKept;
    OneQueue(s, v, s', v', k, c + [s.newIdx], vals + [s.insert.value]);
  }

  lemma PushFirst<T>(s: System<T>, v: View<T>) returns (v': View<T>)
    requires Inv(s, v) && s.phase == Push1 && s.ptrRsp != [] && !s.ptrRsp[0].valid
    ensures Advances(s, v, ProcessStep(s), v')
  {
    Apart(s, v);
    PushFirstEffect(s);
    hide ProcessStep, Nodes, Pointer, InRange, Dialogue, Partition, Distinct, PushesOf, PopsOf, Performed, Chain;
    v' := PushDone(s, v, ProcessStep(s), PtrEntry(s.newIdx, s.newIdx, true));
  }

  // --- a push behind the tail of a queue ---

  lemma PushTailEffect<T>(s: System<T>)
    requires InRange(s) && Dialogue(s) && s.phase == Push1 && s.ptrRsp != [] && s.ptrRsp[0].valid
    requires s.newIdx < |s.metaTable| && s.ptrRsp[0].tail < |s.metaTable|
    ensures var s', k := ProcessStep(s), s.insert.key;
      && InRange(s') && Dialogue(s') && Frame(s, s') && s'.phase == Push2
      && s'.popRsp == s.popRsp && s'.release == s.release
      && k < |s.ptrTable| && s.ptrRsp[0] == Pointer(s, k) && s'.ptrMeta == Pointer(s, k).(tail := s.newIdx)
      && (forall l | 0 <= l < |s.ptrTable| :: Pointer(s', l) == Pointer(s, l))
      && IndexesBelow(s.metaReq, |s.metaTable|) && IndexesBelow(s'.metaReq, |s'.metaTable|)
      && Nodes(s') == Store(Nodes(s), Append(s.ptrRsp[0].tail, s.newIdx))
  {
    IndexesInRange(s);
    StoreAllAppend(s.metaTable, s.metaReq, Append(s.ptrRsp[0].tail, s.newIdx));
  }

  lemma ChainOpens<T>(nodes: seq<MetaEntry<T>>, c: seq<nat>, vals: seq<T>, next: nat, i: nat)
    requires Chain(nodes, c, vals, false, next) && c != [] && Distinct([c])
    ensures Chain(Store(nodes, Append(c[|c|-1], i)), c, vals, true, i)
  {
    assert forall j | 0 <= j < |c| - 1 :: [c][0][j] != [c][0][|c|-1];
  }

  lemma PushTail<T>(s: System<T>, v: View<T>)
    requires Inv(s, v) && s.phase == Push1 && s.ptrRsp != [] && s.ptrRsp[0].valid
    ensures Advances(s, v, ProcessStep(s), v)
  {
    hide Nodes, Partition, PushesOf, PopsOf, Performed, KeysBelow, InRange;
    var s', k := ProcessStep(s), s.insert.key;
    Apart(s, v);
    var c := v.chains[k];
    assert PointsTo(Pointer(s, k), c) && Pointer(s, k) == s.ptrRsp[0];
    PushTailEffect(s);
    ChainOpens(Nodes(s), c, Performed(|s.ptrTable|, v.done).contents[k], s.newIdx, s.newIdx) by {
      assert Distinct([c]) by { assert forall i | 0 <= i < |c| :: [c][0][i] == v.chains[k][i]; }
    }
    assert forall l, i | 0 <= l < |v.chains| && l != k && 0 <= i < |v.chains[l]| :: v.chains[l][i] != v.chains[k][|c|-1];
    assert OthersKept(s, s', v.chains, k);
    hide ProcessStep, Pointer, Dialogue, Chain, Distinct, OthersKept;
    OneQueue(s, v, s', v, k, c, Performed(|s.ptrTable|, v.done).contents[k]);
  }

  lemma PushLinkEffect<T>(s: System<T>)
    requires InRange(s) && Dialogue(s) && s.phase == Push2
    requires s.newIdx < |s.metaTable| && s.insert.key < |s.ptrTable|
    ensures var s', k := ProcessStep(s), s.insert.key;
      && InRange(s') && Dialogue(s') && Frame(s, s') && s'.phase == Main
      && s'.popRsp == s.popRsp && s'.release == s.release
      && (forall l | 0 <= l < |s.ptrTable| :: Pointer(s', l) == if l == k then s.ptrMeta else Pointer(s, l))
      && IndexesBelow(s.metaReq, |s.metaTable|) && IndexesBelow(s'.metaReq, |s'.metaTable|)
      && Nodes(s') == Nodes(s)[s.newIdx := NewNode(s.insert.value)]
  {
    IndexesInRange(s);
    StoreAllAppend(s.metaTable, s.metaReq, Write(s.newIdx, NewNode(s.insert.value)));
  }

  lemma PushLink<T>(s: System<T>, v: View<T>) returns (v': View<T>)
    requires Inv(s, v) && s.phase == Push2
    ensures Advances(s, v, ProcessStep(s), v')
  {
    Apart(s, v);
    PushLinkEffect(s);
    hide ProcessStep, Nodes, Pointer, InRange, Dialogue, Partition, Distinct, PushesOf, PopsOf, Performed, Chain;
    v' := PushDone(s, v, ProcessStep(s), s.ptrMeta);
  }

  // --- a pop or front ---

  lemma PopEmptyEffect<T>(s: System<T>)
    requires InRange(s) && Dialogue(s) && s.phase == Pop1 && s.ptrRsp != [] && !s.ptrRsp[0].valid
    ensures var s', k := ProcessStep(s), s.popReq.key;
      && InRange(s') && Dialogue(s') && s'.phase == Main
      && k < |s.ptrTable| && !Pointer(s, k).valid
      && s' == s.(ptrRsp := s'.ptrRsp, ptrMeta := s'.ptrMeta, phase := Main)
  {
  }

  lemma PopEmpty<T>(s: System<T>, v: View<T>) returns (v': View<T>)
    requires Inv(s, v) && s.phase == Pop1 && s.ptrRsp != [] && !s.ptrRsp[0].valid
    ensures Advances(s, v, ProcessStep(s), v')
  {
    hide InRange, Dialogue, Partition, PushesOf, PopsOf, StoreAll, Performed, KeysBelow;
    var n, k, op := |s.ptrTable|, s.popReq.key, Answered(s.popReq);
    PopEmptyEffect(s);
    IndexesInRange(s);
    assert PointsTo(Pointer(s, k), v.chains[k]);
    PerformedAppend(n, v.done, op);
    assert |v.chains[k]| == |Performed(n, v.done).contents[k]|;
    assert Performed(n, v.done + [op]) == Performed(n, v.done);
    v' := View(v.chains, v.done + [op]);
    hide ProcessStep, PointersRight;
    SameViews(s, ProcessStep(s), v);
  }

  lemma PopReadEffect<T>(s: System<T>)
    requires InRange(s) && Dialogue(s) && s.phase == Pop1 && s.ptrRsp != [] && s.ptrRsp[0].valid
    requires s.ptrRsp[0].head < |s.metaTable|
    ensures var s' := ProcessStep(s);
      && InRange(s') && Dialogue(s') && s'.phase == Pop2
      && s' == s.(ptrRsp := s'.ptrRsp, ptrMeta := s'.ptrMeta, metaReq := s'.metaReq, phase := Pop2)
      && IndexesBelow(s.metaReq, |s.metaTable|) && IndexesBelow(s'.metaReq, |s'.metaTable|)
      && Nodes(s') == Nodes(s)
  {
    var s' := ProcessStep(s);
    IndexesInRange(s);
    StoreAllAppend(s.metaTable, s.metaReq, Read(s.ptrRsp[0].head));
    assert s'.metaReq[..|s'.metaReq|-1] == s.metaReq;
  }

  lemma AskedPointer<T>(s: System<T>)
    requires Dialogue(s) && s.phase == Pop1 && s.ptrRsp != []
    ensures s.popReq.key < |s.ptrTable| && s.ptrRsp[0] == Pointer(s, s.popReq.key)
  {
  }

  lemma PopRead<T>(s: System<T>, v: View<T>)
    requires Inv(s, v) && s.phase == Pop1 && s.ptrRsp != [] && s.ptrRsp[0].valid
    ensures Advances(s, v, ProcessStep(s), v)
  {
    hide InRange, Dialogue, Partition, PushesOf, PopsOf, StoreAll, Distinct;
    Apart(s, v);
    AskedPointer(s);
    assert PointsTo(Pointer(s, s.popReq.key), v.chains[s.popReq.key]);
    PopReadEffect(s);
    hide ProcessStep, PointersRight, Nodes, Chains;
    SameViews(s, ProcessStep(s), v);
  }

  lemma PopDoneEffect<T>(s: System<T>)
    requires InRange(s) && Dialogue(s) && s.phase == Pop2 && s.metaRsp != []
    ensures var s', k := ProcessStep(s), s.popReq.key;
      && k < |s.ptrTable| && s.ptrMeta == Pointer(s, k) && s.ptrMeta.valid && s.ptrMeta.head < |s.metaTable|
      && IndexesBelow(s.metaReq, |s.metaTable|) && Nodes(s) == s.metaTable && s.metaReq == []
      && var m := Nodes(s)[s.ptrMeta.head];
      s.metaRsp == [m] && (m.valid ==>
        && InRange(s') && Dialogue(s') && s'.phase == Main
        && IndexesBelow(s'.metaReq, |s'.metaTable|) && Nodes(s') == Nodes(s)
        && s'.popRsp == s.popRsp + [m.value]
        && s' == s.(metaRsp := [], phase := Main, popRsp := s'.popRsp, release := s'.release,
                    ptrMeta := s'.ptrMeta, ptrUpd := s'.ptrUpd)
        && if s.popReq.op == Front then s'.release == s.release && s'.ptrMeta == s.ptrMeta && s'.ptrUpd == s.ptrUpd
           else s'.release == s.release + [s.ptrMeta.head]
                && (forall l | 0 <= l < |s.ptrTable| ::
                      Pointer(s', l) == if l == k then PtrEntry(m.next, s.ptrMeta.tail, !m.isTail) else Pointer(s, l)))
  {
  }

  lemma FrontDone<T>(s: System<T>, v: View<T>) returns (v': View<T>)
    requires Inv(s, v) && s.phase == Pop2 && s.metaRsp != [] && s.popReq.op == Front
    ensures Advances(s, v, ProcessStep(s), v')
  {
    hide InRange, Dialogue, Partition, PushesOf, PopsOf, StoreAll, Performed, KeysBelow, Nodes;
    var n, k, op := |s.ptrTable|, s.popReq.key, DoFront(s.popReq.key);
    PopDoneEffect(s);
    assert PointsTo(Pointer(s, k), v.chains[k]);
    PerformedAppend(n, v.done, op);
    v' := View(v.chains, v.done + [op]);
    var s' := ProcessStep(s);
    assert Pointer(s, k).head == v.chains[k][0];
    assert Performed(n, v'.done) == Queues(Performed(n, v.done).contents, s'.popRsp);
    hide ProcessStep;
    assert forall l | 0 <= l < n :: Pointer(s', l) == Pointer(s, l);
    OneQueue(s, v, s', v', k, v.chains[k], Performed(n, v.done).contents[k]);
  }

  lemma ChainShrinks<T>(nodes: seq<MetaEntry<T>>, c: seq<nat>, vals: seq<T>, next: nat, next': nat)
    requires Chain(nodes, c, vals, false, next) && c != []
    ensures Chain(nodes, c[1..], vals[1..], false, next')
    ensures nodes[c[0]].valid && nodes[c[0]].value == vals[0]
    ensures PointsTo(PtrEntry(nodes[c[0]].next, c[|c|-1], !nodes[c[0]].isTail), c[1..])
  {
  }

  lemma PopDone<T>(s: System<T>, v: View<T>) returns (v': View<T>)
    requires Inv(s, v) && s.phase == Pop2 && s.metaRsp != [] && s.popReq.op == Pop
    ensures Advances(s, v, ProcessStep(s), v')
    ensures var s', k, vals := ProcessStep(s), s.popReq.key, Performed(|s.ptrTable|, v.done).contents;
      && k < |s.ptrTable| && v.chains[k] != [] && vals[k] != []
      && v'.chains == v.chains[k := v.chains[k][1..]] && v'.done == v.done + [DoPop(k)]
      && s'.popRsp == s.popRsp + [vals[k][0]] && s'.release == s.release + [v.chains[k][0]]
  {
    hide InRange, Dialogue, Partition, PushesOf, PopsOf, StoreAll, Performed, KeysBelow, Nodes, Distinct;
    var n, k, op := |s.ptrTable|, s.popReq.key, DoPop(s.popReq.key);
    Apart(s, v);
    PopDoneEffect(s);
    var c, vals := v.chains[k], Performed(n, v.done).contents[k];
    assert PointsTo(Pointer(s, k), c);
    assert Chain(Nodes(s), c, vals, Open(s, k), s.newIdx);
    var s' := ProcessStep(s);
    ChainShrinks(Nodes(s), c, vals, s.newIdx, s'.newIdx);
    PerformedAppend(n, v.done, op);
    Unlink(s.freeList, s.release, v.chains, s.counter, k);
    v' := View(v.chains[k := c[1..]], v.done + [op]);
    assert Performed(n, v'.done) == Queues(Performed(n, v.done).contents[k := vals[1..]], s'.popRsp);
    assert OthersKept(s, s', v.chains, k);
    hide ProcessStep, Chain, OthersKept;
    OneQueue(s, v, s', v', k, c[1..], vals[1..]);
  }

  lemma ProcessKeeps<T>(s: System<T>, v: View<T>) returns (v': View<T>)
    requires Inv(s, v)
    ensures Advances(s, v, ProcessStep(s), v')
  {
    hide InRange, Dialogue, Conserved, PushesOf, PopsOf, Chains, PointersRight;
    v' := v;
    match s.phase {
      case Main =>
        if s.pushIn != [] && s.freeList != [] {
          TakePush(s, v);
        } else if s.popIn != [] {
          TakePop(s, v);
        }
      case Push1 =>
        if s.ptrRsp != [] {
          if s.ptrRsp[0].valid { PushTail(s, v); } else { v' := PushFirst(s, v); }
        }
      case Push2 =>
        v' := PushLink(s, v);
      case Pop1 =>
        if s.ptrRsp != [] {
          if s.ptrRsp[0].valid { PopRead(s, v); } else { v' := PopEmpty(s, v); }
        }
      case Pop2 =>
        if s.metaRsp != [] {
          if s.popReq.op == Pop { v' := PopDone(s, v); } else { v' := FrontDone(s, v); }
        }
    }
  }

  // ----- every run -----

  /** A run from power-on under any schedule of the processes and of their users. */
  ghost predicate IsRun<T>(states: seq<System<T>>, schedule: seq<Action<T>>) {
    && |states| == |schedule| + 1
    && Init(states[0])
    && forall i | 0 <= i < |schedule| ::
         Permitted(states[i], schedule[i])
         && (InRange(states[i]) ==> states[i+1] == Step(states[i], schedule[i]))
  }

  ghost function OfferedPushes<T>(schedule: seq<Action<T>>): seq<Insert<T>> {
    if schedule == [] then []
    else
      var a := schedule[|schedule|-1];
      OfferedPushes(schedule[..|schedule|-1]) + (if a.OfferPush? then [a.push] else [])
  }

  ghost function OfferedPops<T>(schedule: seq<Action<T>>): seq<PopReq> {
    if schedule == [] then []
    else
      var a := schedule[|schedule|-1];
      OfferedPops(schedule[..|schedule|-1]) + (if a.OfferPop? then [a.pop] else [])
  }

  lemma InitInv<T>(s: System<T>) returns (v: View<T>)
    requires Init(s)
    ensures Inv(s, v) && v.done == []
  {
    v := View(seq(|s.ptrTable|, _ => []), []);
    EmptyMembers(v.chains);
  }

  lemma {:induction false} EmptyMembers(chains: seq<seq<nat>>)
    requires forall k | 0 <= k < |chains| :: chains[k] == []
    ensures Members(chains) == multiset{}
  {
    if chains != [] {
      EmptyMembers(chains[..|chains|-1]);
    }
  }

  lemma OfferKeeps<T>(s: System<T>, v: View<T>, a: Action<T>)
    requires Inv(s, v) && Permitted(s, a) && (a.OfferPush? || a.OfferPop?)
    ensures Inv(Step(s, a), v)
  {
    hide Chains, PointersRight, Conserved, StoreAll;
    var s' := Step(s, a);
    assert InRange(s') && Dialogue(s');
    IndexesInRange(s);
    IndexesInRange(s');
    assert Conserved(s', v.chains) by { SameIndexes(s, s', v.chains); }
    hide InRange, Dialogue;
    SameViews(s, s', v);
  }

  lemma SameIndexes<T>(s: System<T>, s': System<T>, chains: seq<seq<nat>>)
    requires Conserved(s, chains) && s'.phase == s.phase && s'.newIdx == s.newIdx && s'.counter == s.counter
    requires s'.freeList == s.freeList && s'.release == s.release && s'.metaTable == s.metaTable
    ensures Conserved(s', chains)
  {
  }

  /** The operation that a step of any kind completes. */
  ghost function CompletedBy<T>(s: System<T>, a: Action<T>): seq<Op<T>> {
    if a.RunProcess? then Completed(s) else []
  }

  lemma StepKeeps<T>(s: System<T>, v: View<T>, a: Action<T>) returns (v': View<T>)
    requires Inv(s, v) && Permitted(s, a)
    ensures Inv(Step(s, a), v') && v'.done == v.done + CompletedBy(s, a)
    ensures var s' := Step(s, a);
      && PushesOf(v'.done) + PushInFlight(s') + s'.pushIn
         == PushesOf(v.done) + PushInFlight(s) + s.pushIn + (if a.OfferPush? then [a.push] else [])
      && PopsOf(v'.done) + PopInFlight(s') + s'.popIn
         == PopsOf(v.done) + PopInFlight(s) + s.popIn + (if a.OfferPop? then [a.pop] else [])
  {
    v' := v;
    hide Dialogue, Conserved, Chains, PointersRight, PushesOf, PopsOf, Completed;
    match a {
      case OfferPush(_) => OfferKeeps(s, v, a);
      case OfferPop(_) => OfferKeeps(s, v, a);
      case RunProcess => v' := ProcessKeeps(s, v);
      case RunPointer => PointerKeeps(s, v); PointerFrame(s);
      case RunMeta => MetaKeeps(s, v); MetaFrame(s);
      case RunFreeList => FreeListKeeps(s, v); FreeListFrame(s);
    }
  }

  /**
   * Linearisation of a run: after every step the completed operations, in the order
   * of their completion, explain the state; they agree with both request streams,
   * and the chains hold what they left behind.
   */
  lemma {:induction false} RunInv<T>(states: seq<System<T>>, schedule: seq<Action<T>>, n: nat) returns (v: View<T>)
    requires IsRun(states, schedule) && n <= |schedule|
    ensures var s := states[n];
      && Inv(s, v) && v.done == Log(states, schedule, n)
      && |s.ptrTable| == |states[0].ptrTable| && |s.metaTable| == |states[0].metaTable|
      && PushesOf(v.done) + PushInFlight(s) + s.pushIn == OfferedPushes(schedule[..n])
      && PopsOf(v.done) + PopInFlight(s) + s.popIn == OfferedPops(schedule[..n])
    decreases n
  {
    if n == 0 {
      v := InitInv(states[0]);
    } else {
      var s, a := states[n-1], schedule[n-1];
      Offered(schedule, n);
      assert Log(states, schedule, n) == Log(states, schedule, n - 1) + CompletedBy(s, a);
      hide Init, Inv, InRange, Step, Log, CompletedBy, PushesOf, PopsOf, OfferedPushes, OfferedPops;
      var u := RunInv(states, schedule, n - 1);
      InvInRange(s, u);
      v := StepKeeps(s, u, a);
      TableSizes(s, u, a);
    }
  }

  lemma Offered<T>(schedule: seq<Action<T>>, n: nat)
    requires 0 < n <= |schedule|
    ensures var a := schedule[n-1];
      && OfferedPushes(schedule[..n]) == OfferedPushes(schedule[..n-1]) + (if a.OfferPush? then [a.push] else [])
      && OfferedPops(schedule[..n]) == OfferedPops(schedule[..n-1]) + (if a.OfferPop? then [a.pop] else [])
  {
    assert schedule[..n][..n-1] == schedule[..n-1];
  }

  lemma InvInRange<T>(s: System<T>, v: View<T>)
    requires Inv(s, v)
    ensures InRange(s)
  {
  }

  lemma TableSizes<T>(s: System<T>, v: View<T>, a: Action<T>)
    requires Inv(s, v) && Permitted(s, a)
    ensures |Step(s, a).ptrTable| == |s.ptrTable| && |Step(s, a).metaTable| == |s.metaTable|
  {
    hide Dialogue, Conserved, Chains, PointersRight;
    if a.RunPointer? { PointerFrame(s); }
    if a.RunMeta? { MetaFrame(s); }
  }

  /**
   * Refinement: under every schedule, after every step, the answers given so far are
   * those of one sequence per key for the operations completed so far, in the order
   * of their completion; these are the requests of both streams in their order, with
   * at most one further request in progress.  No array is ever indexed out of bounds.
   */
  lemma AnswersAreThoseOfQueues<T>(states: seq<System<T>>, schedule: seq<Action<T>>, n: nat)
    requires IsRun(states, schedule) && n <= |schedule|
    ensures var s, done := states[n], Log(states, schedule, n);
      && InRange(s) && KeysBelow(done, |s.ptrTable|)
      && PushesOf(done) + PushInFlight(s) + s.pushIn == OfferedPushes(schedule[..n])
      && PopsOf(done) + PopInFlight(s) + s.popIn == OfferedPops(schedule[..n])
      && s.popRsp == Performed(|s.ptrTable|, done).answers
  {
    var v := RunInv(states, schedule, n);
  }

  /** What is completed stays completed, in the same order. */
  lemma {:induction false} LogGrows<T>(states: seq<System<T>>, schedule: seq<Action<T>>, i: nat, n: nat)
    requires i <= n <= |schedule| <= |states|
    ensures Log(states, schedule, i) <= Log(states, schedule, n)
    decreases n
  {
    if i < n {
      LogGrows(states, schedule, i, n - 1);
    }
  }

  /** A read in the list counts among its reads, after those before it. */
  lemma {:induction false} ReadCounts<T>(ops: seq<Op<T>>, x: nat)
    requires x < |ops| && !ops[x].DoPush?
    ensures |PopsOf(ops[..x])| < |PopsOf(ops)|
  {
    var n := |ops| - 1;
    if x < n {
      ReadCounts(ops[..n], x);
      assert ops[..n][..x] == ops[..x];
    }
  }

  /**
   * Real-time order: a read offered after step i takes effect after every operation
   * completed by step i, so it finds what completed pushes have left.  The read is the
   * one at position x of the log; at least as many reads precede it as were offered by step i.
   */
  lemma LaterReadsComeLater<T>(states: seq<System<T>>, schedule: seq<Action<T>>, i: nat, n: nat, x: nat)
    requires IsRun(states, schedule) && i <= n <= |schedule|
    requires var done := Log(states, schedule, n);
      x < |done| && !done[x].DoPush? && |PopsOf(done[..x])| >= |OfferedPops(schedule[..i])|
    ensures x >= |Log(states, schedule, i)|
  {
    assert |states| == |schedule| + 1;
    hide IsRun, PushesOf, OfferedPops, Performed;
    var done, before := Log(states, schedule, n), Log(states, schedule, i);
    AnswersAreThoseOfQueues(states, schedule, i);
    LogGrows(states, schedule, i, n);
    assert forall y | 0 <= y <= |before| :: before[..y] == done[..y];
    if x < |before| {
      ReadCounts(before, x);
    }
  }

  /** The step that completes a read of key k answers with the head of its queue, and leaves it unanswered exactly if the queue is empty. */
  lemma ReadsAnswerHead<T>(states: seq<System<T>>, schedule: seq<Action<T>>, i: nat)
    requires IsRun(states, schedule) && i < |schedule|
    requires var ops := CompletedBy(states[i], schedule[i]); ops != [] && !ops[0].DoPush?
    ensures var op := CompletedBy(states[i], schedule[i])[0];
      && KeysBelow(Log(states, schedule, i), |states[i].ptrTable|) && op.key < |states[i].ptrTable|
      && var c := Performed(|states[i].ptrTable|, Log(states, schedule, i)).contents[op.key];
      states[i+1].popRsp == states[i].popRsp + (if c == [] then [] else [c[0]])
  {
    assert |states| == |schedule| + 1;
    hide IsRun, PushesOf, PopsOf, OfferedPops, OfferedPushes, InRange;
    var op, done := CompletedBy(states[i], schedule[i])[0], Log(states, schedule, i);
    AnswersAreThoseOfQueues(states, schedule, i);
    AnswersAreThoseOfQueues(states, schedule, i + 1);
    RunSizes(states, schedule, i);
    assert Log(states, schedule, i + 1) == done + [op];
    assert (done + [op])[|done|] == op;
    hide Log, Completed, CompletedBy;
    PerformedAppend(|states[i].ptrTable|, done, op);
  }

  lemma RunSizes<T>(states: seq<System<T>>, schedule: seq<Action<T>>, i: nat)
    requires IsRun(states, schedule) && i < |schedule|
    ensures |states[i+1].ptrTable| == |states[i].ptrTable|
  {
    var u := RunInv(states, schedule, i);
    var v := RunInv(states, schedule, i + 1);
  }

  /** The lock is free whenever it is requested: no schedule reaches the waiting branch, and the small streams hold at most one entry. */
  lemma NeverWaits<T>(states: seq<System<T>>, schedule: seq<Action<T>>, n: nat)
    requires IsRun(states, schedule) && n <= |schedule|
    ensures var s := states[n];
      !s.waiting && |s.ptrReq| <= 1 && |s.ptrUpd| <= 1 && |s.ptrRsp| <= 1 && |s.metaRsp| <= 1
  {
    var v := RunInv(states, schedule, n);
  }

  /** How often an index occurs overall: not yet issued, free, being released, held by a push, or in a chain. */
  ghost function Places(free: seq<nat>, release: seq<nat>, held: multiset<nat>, chains: seq<seq<nat>>, c: nat, i: nat): nat {
    (if i < c then 0 else 1) + multiset(free)[i] + multiset(release)[i] + held[i] + Members(chains)[i]
  }

  /** From node to node along the next fields, the last one marked as the tail unless a push behind it is half done. */
  ghost predicate Linked<T>(nodes: seq<MetaEntry<T>>, c: seq<nat>, open: bool) {
    && (forall i | 0 <= i < |c| :: c[i] < |nodes| && nodes[c[i]].valid)
    && (forall i | 0 <= i < |c| - 1 :: !nodes[c[i]].isTail && nodes[c[i]].next == c[i+1])
    && (c != [] ==> nodes[c[|c|-1]].isTail == !open)
  }

  /** Each index is in exactly one place; the chains are acyclic, disjoint, linked in the node table, and what the pointers point to. */
  ghost predicate Accounted<T>(s: System<T>, chains: seq<seq<nat>>) {
    && |chains| == |s.ptrTable| && Distinct(chains)
    && IndexesBelow(s.metaReq, |s.metaTable|)
    && (forall k | 0 <= k < |chains| :: PointsTo(Pointer(s, k), chains[k]) && Linked(Nodes(s), chains[k], Open(s, k)))
    && (forall i: nat | i < |s.metaTable| :: Places(s.freeList, s.release, HeldIndex(s), chains, s.counter, i) == 1)
    && |s.freeList| + |s.release| + |HeldIndex(s)| + |Members(chains)| == s.counter <= |s.metaTable|
  }

  lemma ChainLinked<T>(nodes: seq<MetaEntry<T>>, c: seq<nat>, vals: seq<T>, open: bool, next: nat)
    requires Chain(nodes, c, vals, open, next)
    ensures Linked(nodes, c, open)
  {
  }

  lemma InvAccounts<T>(s: System<T>, v: View<T>)
    requires Inv(s, v)
    ensures Accounted(s, v.chains)
  {
    hide Dialogue, InRange;
    Apart(s, v);
    IndexesInRange(s);
    PartitionCounts(s.freeList, s.release, HeldIndex(s), v.chains, s.counter, |s.metaTable|);
    var q := Performed(|s.ptrTable|, v.done);
    forall k | 0 <= k < |v.chains|
      ensures Linked(Nodes(s), v.chains[k], Open(s, k))
    {
      ChainLinked(Nodes(s), v.chains[k], q.contents[k], Open(s, k), s.newIdx);
    }
    hide Partition, Members, HeldIndex, Distinct, PointsTo, Pointer, Places, Issued, Chain, Linked, Performed, Nodes;
  }

  /**
   * Conservation: under every schedule each index below MULTI_QUEUE_SIZE is in
   * exactly one place (not yet issued, free, being released, held by the push in
   * progress, or in one acyclic chain disjoint from all others), so neither the free
   * list nor the queues together can outgrow the table.
   */
  lemma IndexesAreConserved<T>(states: seq<System<T>>, schedule: seq<Action<T>>, n: nat)
    requires IsRun(states, schedule) && n <= |schedule|
    ensures exists chains: seq<seq<nat>> :: Accounted(states[n], chains)
  {
    hide Inv, Accounted, Init;
    var v := RunInv(states, schedule, n);
    InvAccounts(states[n], v);
  }

  lemma PartitionCounts(free: seq<nat>, release: seq<nat>, held: multiset<nat>, chains: seq<seq<nat>>, c: nat, size: nat)
    requires Partition(free, release, held, chains, c)
    ensures forall i: nat | i < size :: Places(free, release, held, chains, c, i) == 1
    ensures |free| + |release| + |held| + |Members(chains)| == c
  {
    IssuedCounts(c);
    var all := multiset(free) + multiset(release) + held + Members(chains);
    assert |all| == c;
    forall i: nat | i < size
      ensures Places(free, release, held, chains, c, i) == 1
    {
      assert all[i] == Issued(c)[i];
    }
  }
}
