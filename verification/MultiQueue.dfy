/**
 * The multi queue: many FIFO queues, one per key, kept as linked lists in one
 * shared node table.  Four processes run concurrently and talk over FIFOs:
 * the request processor, the pointer table (head and tail per key), the node
 * ("meta") table and the free-list handler.
 *
 * This module defines the state of the whole system and what one activation of
 * each process does to it.  A hardware run is any interleaving of activations.
 * NUM_QUEUES is |ptrTable| and MULTI_QUEUE_SIZE is |metaTable|.
 */
module MultiQueue {

  datatype Insert<T> = Insert(key: nat, value: T)

  datatype PopOp = Pop | Front

  datatype PopReq = PopReq(op: PopOp, key: nat)

  datatype PtrEntry = PtrEntry(head: nat, tail: nat, valid: bool)

  datatype MetaEntry<T> = MetaEntry(value: T, next: nat, valid: bool, isTail: bool)

  // The (write, append) flag pair of a node-table request, as three shapes.
  datatype MetaReq<T> =
    | Write(idx: nat, entry: MetaEntry<T>)
    | Append(idx: nat, next: nat)
    | Read(idx: nat)

  datatype PtrReq = PtrReq(key: nat, lock: bool)

  datatype PtrUpd = PtrUpd(key: nat, entry: PtrEntry)

  datatype Phase = Main | Push1 | Push2 | Pop1 | Pop2

  datatype System<T> = System(
    // the streams to and from the users of the queue
    pushIn: seq<Insert<T>>, popIn: seq<PopReq>, popRsp: seq<T>,
    // the streams between the processes
    ptrReq: seq<PtrReq>, ptrUpd: seq<PtrUpd>, ptrRsp: seq<PtrEntry>,
    metaReq: seq<MetaReq<T>>, metaRsp: seq<MetaEntry<T>>,
    freeList: seq<nat>, release: seq<nat>,
    // request processor
    phase: Phase, newIdx: nat, insert: Insert<T>, popReq: PopReq, ptrMeta: PtrEntry,
    // pointer table
    ptrTable: seq<PtrEntry>, lockedKey: nat, isLocked: bool, waiting: bool, held: PtrReq,
    // node table and free-list handler
    metaTable: seq<MetaEntry<T>>, counter: nat)

  /** A fresh node: it is the tail of its list. */
  function NewNode<T>(value: T): MetaEntry<T> {
    MetaEntry(value, 0, true, true)
  }

  /** Every key and every node index that the processes will use as an array index is within its array. */
  ghost predicate InRange<T>(s: System<T>) {
    && 0 < |s.metaTable| < 0x1_0000
    && (forall p <- s.pushIn :: p.key < |s.ptrTable|)
    && (forall p <- s.popIn :: p.key < |s.ptrTable|)
    && (forall p <- s.ptrReq :: p.key < |s.ptrTable|)
    && (forall p <- s.ptrUpd :: p.key < |s.ptrTable|)
    && (forall r <- s.metaReq :: r.idx < |s.metaTable|)
    && (s.waiting ==> s.held.key < |s.ptrTable|)
  }

  // ----- the four processes -----

  /** mq_process_requests: one activation of the five-state request processor. */
  ghost function ProcessStep<T>(s: System<T>): System<T> {
    match s.phase
    case Main => TakeRequest(s)
    case Push1 => PlacePush(s)
    case Push2 => LinkPush(s)
    case Pop1 => PlacePop(s)
    case Pop2 => AnswerPop(s)
  }

  ghost function TakeRequest<T>(s: System<T>): System<T> {
    if s.pushIn != [] && s.freeList != [] then
      s.(newIdx := s.freeList[0], freeList := s.freeList[1..],
         insert := s.pushIn[0], pushIn := s.pushIn[1..],
         ptrReq := s.ptrReq + [PtrReq(s.pushIn[0].key, true)],
         phase := Push1)
    else if s.popIn != [] then
      s.(popReq := s.popIn[0], popIn := s.popIn[1..],
         ptrReq := s.ptrReq + [PtrReq(s.popIn[0].key, false)],
         phase := Pop1)
    else s
  }

  ghost function PlacePush<T>(s: System<T>): System<T> {
    if s.ptrRsp == [] then s
    else if !s.ptrRsp[0].valid then
      var p := PtrEntry(s.newIdx, s.newIdx, true);
      s.(ptrRsp := s.ptrRsp[1..], ptrMeta := p,
         metaReq := s.metaReq + [Write(s.newIdx, NewNode(s.insert.value))],
         ptrUpd := s.ptrUpd + [PtrUpd(s.insert.key, p)],
         phase := Main)
    else
      s.(ptrRsp := s.ptrRsp[1..], ptrMeta := s.ptrRsp[0].(tail := s.newIdx),
         metaReq := s.metaReq + [Append(s.ptrRsp[0].tail, s.newIdx)],
         phase := Push2)
  }

  ghost function LinkPush<T>(s: System<T>): System<T> {
    s.(metaReq := s.metaReq + [Write(s.newIdx, NewNode(s.insert.value))],
       ptrUpd := s.ptrUpd + [PtrUpd(s.insert.key, s.ptrMeta)],
       phase := Main)
  }

  ghost function PlacePop<T>(s: System<T>): System<T> {
    if s.ptrRsp == [] then s
    else if s.ptrRsp[0].valid then
      s.(ptrRsp := s.ptrRsp[1..], ptrMeta := s.ptrRsp[0],
         metaReq := s.metaReq + [Read(s.ptrRsp[0].head)],
         phase := Pop2)
    else
      s.(ptrRsp := s.ptrRsp[1..], ptrMeta := s.ptrRsp[0], phase := Main)
  }

  ghost function AnswerPop<T>(s: System<T>): System<T> {
    if s.metaRsp == [] then s
    else
      var m := s.metaRsp[0];
      if !m.valid then s.(metaRsp := s.metaRsp[1..], phase := Main)
      else if s.popReq.op == Front then
        s.(metaRsp := s.metaRsp[1..], phase := Main, popRsp := s.popRsp + [m.value])
      else
        var p := PtrEntry(m.next, s.ptrMeta.tail, !m.isTail);
        s.(metaRsp := s.metaRsp[1..], phase := Main, popRsp := s.popRsp + [m.value],
           release := s.release + [s.ptrMeta.head],
           ptrMeta := p,
           ptrUpd := s.ptrUpd + [PtrUpd(s.popReq.key, p)])
  }

  /** mq_pointer_table: updates first, then requests, then a request that waits for the lock. */
  ghost function PointerStep<T>(s: System<T>): System<T>
    requires InRange(s)
  {
    if s.ptrUpd != [] then WriteBack(s)
    else if s.ptrReq != [] && !s.waiting then Lookup(s)
    else if s.waiting && !s.isLocked then
      s.(ptrRsp := s.ptrRsp + [s.ptrTable[s.held.key]], isLocked := true, lockedKey := s.held.key, waiting := false)
    else s
  }

  ghost function WriteBack<T>(s: System<T>): System<T>
    requires InRange(s) && s.ptrUpd != []
  {
    s.(ptrUpd := s.ptrUpd[1..],
       ptrTable := s.ptrTable[s.ptrUpd[0].key := s.ptrUpd[0].entry],
       isLocked := s.isLocked && s.lockedKey != s.ptrUpd[0].key)
  }

  ghost function Lookup<T>(s: System<T>): System<T>
    requires InRange(s) && s.ptrReq != []
  {
    var r := s.ptrReq[0];
    if r.lock && s.isLocked then
      s.(ptrReq := s.ptrReq[1..], held := r, waiting := true)
    else
      s.(ptrReq := s.ptrReq[1..], held := r, ptrRsp := s.ptrRsp + [s.ptrTable[r.key]],
         isLocked := s.isLocked || r.lock,
         lockedKey := if r.lock then r.key else s.lockedKey)
  }

  /** mq_meta_table: serve one node-table request. */
  ghost function MetaStep<T>(s: System<T>): System<T>
    requires InRange(s)
  {
    if s.metaReq == [] then s
    else
      var r := s.metaReq[0];
      var s' := s.(metaReq := s.metaReq[1..], metaTable := Store(s.metaTable, r));
      if r.Read? then s'.(metaRsp := s.metaRsp + [s.metaTable[r.idx]]) else s'
  }

  /** What one node-table request does to the table. */
  ghost function Store<T>(t: seq<MetaEntry<T>>, r: MetaReq<T>): (t': seq<MetaEntry<T>>)
    requires r.idx < |t|
    ensures |t'| == |t|
  {
    match r
    case Write(i, e) => t[i := e]
    case Append(i, n) => t[i := t[i].(next := n, isTail := false)]
    case Read(_) => t
  }

  /** mq_freelist_handler: recycle a released index, else issue a new one from the 16-bit counter. */
  ghost function FreeListStep<T>(s: System<T>): System<T> {
    if s.release != [] then
      s.(freeList := s.freeList + [s.release[0]], release := s.release[1..])
    else if s.counter < |s.metaTable| && |s.freeList| < |s.metaTable| then
      s.(freeList := s.freeList + [s.counter], counter := (s.counter + 1) % 0x1_0000)
    else s
  }

  // ----- runs -----

  datatype Action<T> =
    | OfferPush(push: Insert<T>)
    | OfferPop(pop: PopReq)
    | RunProcess
    | RunPointer
    | RunMeta
    | RunFreeList

  predicate Permitted<T>(s: System<T>, a: Action<T>) {
    match a
    case OfferPush(p) => p.key < |s.ptrTable|
    case OfferPop(p) => p.key < |s.ptrTable|
    case _ => true
  }

  ghost function Step<T>(s: System<T>, a: Action<T>): System<T>
    requires InRange(s)
  {
    match a
    case OfferPush(p) => s.(pushIn := s.pushIn + [p])
    case OfferPop(p) => s.(popIn := s.popIn + [p])
    case RunProcess => ProcessStep(s)
    case RunPointer => PointerStep(s)
    case RunMeta => MetaStep(s)
    case RunFreeList => FreeListStep(s)
  }

  /** Power-on state of the statics: no valid queue, empty streams, nothing issued or locked. */
  ghost predicate Init<T>(s: System<T>) {
    && InRange(s)
    && s.pushIn == [] && s.popIn == [] && s.popRsp == []
    && s.ptrReq == [] && s.ptrUpd == [] && s.ptrRsp == []
    && s.metaReq == [] && s.metaRsp == [] && s.freeList == [] && s.release == []
    && s.phase == Main && !s.isLocked && !s.waiting && s.counter == 0
    && forall k | 0 <= k < |s.ptrTable| :: !s.ptrTable[k].valid
  }

  // ----- the simple form: one sequence per key -----

  datatype Op<T> = DoPush(key: nat, value: T) | DoPop(key: nat) | DoFront(key: nat)

  datatype Queues<T> = Queues(contents: seq<seq<T>>, answers: seq<T>)

  /** The effect of one whole operation on the per-key sequences; a read of an empty queue is not answered. */
  function Perform<T>(q: Queues<T>, op: Op<T>): (q': Queues<T>)
    requires op.key < |q.contents|
    ensures |q'.contents| == |q.contents|
  {
    var c := q.contents[op.key];
    match op
    case DoPush(k, v) => q.(contents := q.contents[k := c + [v]])
    case DoPop(k) => if |c| == 0 then q else Queues(q.contents[k := c[1..]], q.answers + [c[0]])
    case DoFront(k) => if |c| == 0 then q else q.(answers := q.answers + [c[0]])
  }

  predicate KeysBelow<T>(ops: seq<Op<T>>, n: nat) {
    forall i | 0 <= i < |ops| :: ops[i].key < n
  }

  /** The state of n initially empty queues after the given operations, one after another. */
  function Performed<T>(n: nat, ops: seq<Op<T>>): (q: Queues<T>)
    requires KeysBelow(ops, n)
    ensures |q.contents| == n
  {
    if |ops| == 0 then Queues(seq(n, _ => []), [])
    else Perform(Performed(n, ops[..|ops|-1]), ops[|ops|-1])
  }

  function Answered<T>(r: PopReq): Op<T> {
    if r.op == Pop then DoPop(r.key) else DoFront(r.key)
  }

  /** The operation that an activation of the request processor completes: with its last pointer update, or with its answer. */
  ghost function Completed<T>(s: System<T>): seq<Op<T>> {
    match s.phase
    case Main => []
    case Push1 => if s.ptrRsp != [] && !s.ptrRsp[0].valid then [DoPush(s.insert.key, s.insert.value)] else []
    case Push2 => [DoPush(s.insert.key, s.insert.value)]
    case Pop1 => if s.ptrRsp != [] && !s.ptrRsp[0].valid then [Answered(s.popReq)] else []
    case Pop2 => if s.metaRsp != [] && s.metaRsp[0].valid then [Answered(s.popReq)] else []
  }

  /** The operations completed in the first n steps of a run, in the order of their completion. */
  ghost function Log<T>(states: seq<System<T>>, schedule: seq<Action<T>>, n: nat): seq<Op<T>>
    requires n <= |schedule| <= |states|
  {
    if n == 0 then []
    else Log(states, schedule, n - 1) + if schedule[n-1].RunProcess? then Completed(states[n-1]) else []
  }

  function PushesOf<T>(ops: seq<Op<T>>): seq<Insert<T>> {
    if |ops| == 0 then []
    else
      var op := ops[|ops|-1];
      PushesOf(ops[..|ops|-1]) + (if op.DoPush? then [Insert(op.key, op.value)] else [])
  }

  function PopsOf<T>(ops: seq<Op<T>>): seq<PopReq> {
    if |ops| == 0 then []
    else
      var op := ops[|ops|-1];
      PopsOf(ops[..|ops|-1])
      + (match op
         case DoPush(_, _) => []
         case DoPop(k) => [PopReq(Pop, k)]
         case DoFront(k) => [PopReq(Front, k)])
  }
}
