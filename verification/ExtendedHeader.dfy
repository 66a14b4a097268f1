/**
 * rx_exh_fsm, the MSN table it reads and writes over FIFOs, and the queues of local
 * read addresses, interleaved in any order with each other, with new packets and
 * addresses, and with the transmit side's queries: packets are handled one after
 * another, each on the entry its predecessors left.
 */
module ExtendedHeader {
  import opened Transport
  import opened Segments

  // What rx_exh_fsm emits.
  datatype ExhOut = ExhOut(cmds: seq<MemCmd>, readRequests: seq<ReadRequestMeta>, acks: nat)

  function Pack(dma: DmaState, addrs: seq<nat>, out: ExhOut): Conn {
    Conn(dma, addrs, out.cmds, out.readRequests, out.acks)
  }

  function OutOf(c: Conn): ExhOut {
    ExhOut(c.cmds, c.readRequests, c.acks)
  }

  // ----- the machine -----

  datatype MsnReq = MsnRead(qp: nat) | MsnWrite(qp: nat, dma: DmaState)

  datatype ExhState = META | DMA_META | DATA

  datatype Fsm = Fsm(state: ExhState, packet: Arrival, consumeReadAddr: bool, dma: DmaState, readAddr: nat)

  // The streams of rx_exh_fsm; a packet arrives with its extended header and UDP length.
  datatype Ports = Ports(metaIn: seq<Arrival>, tableReq: seq<MsnReq>, tableRsp: seq<DmaState>,
                         popReq: seq<nat>, popRsp: seq<nat>, out: ExhOut)

  predicate TakesAddress(op: OpCode) {
    op == ReadRespOnly || op == ReadRespFirst
  }

  /** State DATA gets past the packet. */
  predicate Proceeds(p: Arrival) {
    match p.op
    case WriteOnly => p.rethLength != 0
    case WriteFirst => p.rethLength != 0
    case PartOnly => p.rethLength != 0
    case PartFirst => p.rethLength != 0
    case WriteLastWithImd => false
    case WriteOnlyWithImd => false
    case ReadPointerRequest => false
    case _ => true
  }

  /** State DATA writes the entry back. */
  predicate WritesEntry(p: Arrival) {
    match p.op
    case ReadRequest => p.rethLength != 0
    case ReadConsistentRequest => p.rethLength != 0
    case ReadRespLast => false
    case Ack => false
    case _ => true
  }

  function FsmStep(f: Fsm, io: Ports): (r: (Fsm, Ports)) {
    match f.state
    case META =>
      if |io.metaIn| == 0 then (f, io)
      else
        var p := io.metaIn[0];
        (f.(state := DMA_META, packet := p, consumeReadAddr := TakesAddress(p.op)),
         io.(metaIn := io.metaIn[1..], tableReq := io.tableReq + [MsnRead(p.qp)],
             popReq := if TakesAddress(p.op) then io.popReq + [p.qp] else io.popReq))
    case DMA_META =>
      if |io.tableRsp| == 0 || (f.consumeReadAddr && |io.popRsp| == 0) then (f, io)
      else
        (f.(state := DATA, dma := io.tableRsp[0], readAddr := if f.consumeReadAddr then io.popRsp[0] else f.readAddr),
         io.(tableRsp := io.tableRsp[1..], popRsp := if f.consumeReadAddr then io.popRsp[1..] else io.popRsp))
    case DATA =>
      if !Proceeds(f.packet) then (f, io)
      else
        var c := Receive(Pack(f.dma, [f.readAddr], io.out), f.packet);
        (f.(state := META),
         io.(out := OutOf(c), tableReq := if WritesEntry(f.packet) then io.tableReq + [MsnWrite(f.packet.qp, c.dma)] else io.tableReq))
  }

  // With the MSN table, the transmit side's queries of it, and the queues of read addresses, one per queue pair.
  datatype Node = Node(f: Fsm, io: Ports, table: seq<DmaState>, txReq: seq<nat>, txRsp: seq<nat>, queues: seq<seq<nat>>)

  predicate QpsExist(n: Node) {
    && |n.queues| == |n.table|
    && (forall i | 0 <= i < |n.io.metaIn| :: n.io.metaIn[i].qp < |n.table|)
    && (forall i | 0 <= i < |n.io.tableReq| :: n.io.tableReq[i].qp < |n.table|)
    && (forall i | 0 <= i < |n.io.popReq| :: n.io.popReq[i] < |n.table|)
    && (forall i | 0 <= i < |n.txReq| :: n.txReq[i] < |n.table|)
  }

  /** msn_table */
  function TableStep(n: Node): Node
    requires QpsExist(n)
  {
    if |n.io.tableReq| > 0 then
      var r := n.io.tableReq[0];
      var io := n.io.(tableReq := n.io.tableReq[1..]);
      if r.MsnWrite? then n.(io := io, table := n.table[r.qp := r.dma])
      else n.(io := io.(tableRsp := n.io.tableRsp + [n.table[r.qp]]))
    else if |n.txReq| > 0 then
      n.(txReq := n.txReq[1..], txRsp := n.txRsp + [n.table[n.txReq[0]].msn])
    else n
  }

  /** A pop of an empty queue is not answered. */
  function QueueStep(n: Node): Node
    requires QpsExist(n)
  {
    if |n.io.popReq| == 0 then n
    else
      var q := n.io.popReq[0];
      var io := n.io.(popReq := n.io.popReq[1..]);
      if |n.queues[q]| == 0 then n.(io := io)
      else n.(io := io.(popRsp := io.popRsp + [n.queues[q][0]]), queues := n.queues[q := n.queues[q][1..]])
  }

  datatype Action = Enter(p: Arrival) | Push(qp: nat, addr: nat) | Consult(qp: nat) | RunFsm | RunTable | RunQueue

  predicate Permitted(n: Node, a: Action) {
    match a
    case Enter(p) => p.qp < |n.table|
    case Push(q, _) => q < |n.table|
    case Consult(q) => q < |n.table|
    case _ => true
  }

  function Step(n: Node, a: Action): Node
    requires QpsExist(n) && Permitted(n, a)
  {
    match a
    case Enter(p) => n.(io := n.io.(metaIn := n.io.metaIn + [p]))
    case Push(q, addr) => n.(queues := n.queues[q := n.queues[q] + [addr]])
    case Consult(q) => n.(txReq := n.txReq + [q])
    case RunFsm => var r := FsmStep(n.f, n.io); n.(f := r.0, io := r.1)
    case RunTable => TableStep(n)
    case RunQueue => QueueStep(n)
  }

  ghost predicate Init(n: Node) {
    && n.f.state == META && |n.queues| == |n.table|
    && n.io == Ports([], [], [], [], [], ExhOut([], [], 0)) && n.txReq == n.txRsp == []
  }

  ghost predicate IsRun(nodes: seq<Node>, schedule: seq<Action>) {
    && |nodes| == |schedule| + 1
    && Init(nodes[0])
    && forall i | 0 <= i < |schedule| ::
         Permitted(nodes[i], schedule[i]) && (QpsExist(nodes[i]) ==> nodes[i+1] == Step(nodes[i], schedule[i]))
  }

  function Arrived(schedule: seq<Action>): seq<Arrival> {
    if |schedule| == 0 then []
    else
      var a := schedule[|schedule|-1];
      Arrived(schedule[..|schedule|-1]) + (if a.Enter? then [a.p] else [])
  }

  // ----- the simple form: whole packets, one at a time -----

  datatype Event = Handled(p: Arrival) | Pushed(qp: nat, addr: nat)

  datatype Spec = Spec(table: seq<DmaState>, queues: seq<seq<nat>>, out: ExhOut)

  /** All of one packet: entry read, address popped, DATA, entry written. */
  function Handle(s: Spec, p: Arrival): (s': Spec)
    requires p.qp < |s.table| == |s.queues|
    ensures |s'.table| == |s.table| && |s'.queues| == |s.queues|
  {
    var c := Receive(Pack(s.table[p.qp], s.queues[p.qp], s.out), p);
    Spec(s.table[p.qp := c.dma], s.queues[p.qp := c.addrs], OutOf(c))
  }

  predicate QpsBelow(log: seq<Event>, n: nat) {
    forall i | 0 <= i < |log| :: (if log[i].Handled? then log[i].p.qp else log[i].qp) < n
  }

  function After(s: Spec, log: seq<Event>): (s': Spec)
    requires QpsBelow(log, |s.table|) && |s.queues| == |s.table|
    ensures |s'.table| == |s.table| && |s'.queues| == |s.queues|
  {
    if |log| == 0 then s
    else
      var u := After(s, log[..|log|-1]);
      match log[|log|-1]
      case Handled(p) => Handle(u, p)
      case Pushed(q, a) => u.(queues := u.queues[q := u.queues[q] + [a]])
  }

  function HandledIn(log: seq<Event>): seq<Arrival> {
    if |log| == 0 then []
    else
      var e := log[|log|-1];
      HandledIn(log[..|log|-1]) + (if e.Handled? then [e.p] else [])
  }

  // ----- the invariant -----

  /** The entry written but not yet in the table. */
  ghost function Pending(n: Node): seq<MsnReq> {
    if n.f.state == META then n.io.tableReq
    else if n.f.state == DMA_META && |n.io.tableReq| > 0 then n.io.tableReq[..|n.io.tableReq|-1]
    else []
  }

  ghost function Apply(t: seq<DmaState>, rs: seq<MsnReq>): (t': seq<DmaState>)
    requires forall i | 0 <= i < |rs| :: rs[i].MsnWrite? && rs[i].qp < |t|
    ensures |t'| == |t|
  {
    if |rs| == 0 then t else t[rs[0].qp := rs[0].dma]
  }

  /** The address popped for the packet in progress. */
  ghost function Popped(n: Node, q: nat): seq<nat> {
    if n.f.state == META || q != n.f.packet.qp then []
    else if n.f.state == DMA_META then n.io.popRsp
    else if n.f.consumeReadAddr then [n.f.readAddr] else []
  }

  ghost predicate TableShape(n: Node) {
    && |Pending(n)| <= 1 && (forall i | 0 <= i < |Pending(n)| :: Pending(n)[i].MsnWrite? && Pending(n)[i].qp < |n.table|)
    && (n.f.state != META ==> n.f.packet.qp < |n.table|)
    && match n.f.state
       case META => n.io.tableRsp == []
       case DMA_META =>
         || (n.io.tableRsp == [] && n.io.tableReq == Pending(n) + [MsnRead(n.f.packet.qp)])
         || (n.io.tableReq == [] && n.io.tableRsp == [n.table[n.f.packet.qp]])
       case DATA => n.io.tableReq == [] && n.io.tableRsp == [] && n.f.dma == n.table[n.f.packet.qp]
  }

  ghost predicate QueueShape(n: Node) {
    && (n.f.state != META ==> n.f.consumeReadAddr == TakesAddress(n.f.packet.op))
    && if n.f.state == DMA_META && n.f.consumeReadAddr then
         (n.io.popReq == [n.f.packet.qp] && n.io.popRsp == []) || (n.io.popReq == [] && |n.io.popRsp| <= 1)
       else n.io.popReq == [] && n.io.popRsp == []
  }

  ghost predicate Matches(n: Node, s: Spec)
    requires TableShape(n)
  {
    && s.table == Apply(n.table, Pending(n)) && s.out == n.io.out
    && |s.queues| == |n.queues|
    && forall q | 0 <= q < |s.queues| :: s.queues[q] == Popped(n, q) + n.queues[q]
  }

  ghost predicate Inv(n: Node, s: Spec) {
    QpsExist(n) && TableShape(n) && QueueShape(n) && Matches(n, s)
  }

  /** The packet in progress. */
  ghost function Current(n: Node): seq<Arrival> {
    if n.f.state == META then [] else [n.f.packet]
  }

  /** What a step completes. */
  ghost function EventOf(n: Node, a: Action): seq<Event> {
    if a.RunFsm? && n.f.state == DATA && Proceeds(n.f.packet) then [Handled(n.f.packet)]
    else if a.Push? then [Pushed(a.qp, a.addr)]
    else []
  }

  ghost function Happen(s: Spec, es: seq<Event>): Spec
    requires |es| <= 1 && QpsBelow(es, |s.table|) && |s.queues| == |s.table|
  {
    if |es| == 0 then s
    else match es[0]
      case Handled(p) => Handle(s, p)
      case Pushed(q, a) => s.(queues := s.queues[q := s.queues[q] + [a]])
  }

  // ----- each step keeps it -----

  /** A packet looks at no other address than the first, and takes it exactly if it is a first or only response. */
  lemma FirstAddressOnly(dma: DmaState, a: nat, rest: seq<nat>, out: ExhOut, p: Arrival)
    ensures var one, all := Receive(Pack(dma, [a], out), p), Receive(Pack(dma, [a] + rest, out), p);
      TakesAddress(p.op) ==> all.dma == one.dma && OutOf(all) == OutOf(one) && all.addrs == rest
    ensures var one, all := Receive(Pack(dma, [a], out), p), Receive(Pack(dma, rest, out), p);
      !TakesAddress(p.op) ==> all.dma == one.dma && OutOf(all) == OutOf(one) && all.addrs == rest
    ensures !WritesEntry(p) ==> Receive(Pack(dma, [a], out), p).dma == dma
  {
    assert ([a] + rest)[1..] == rest;
    hide Payload;
  }

  lemma FsmMeta(n: Node, s: Spec)
    requires Inv(n, s) && n.f.state == META
    ensures Inv(Step(n, RunFsm), s)
    ensures Current(Step(n, RunFsm)) + Step(n, RunFsm).io.metaIn == Current(n) + n.io.metaIn
  {
    var n' := Step(n, RunFsm);
    if |n.io.metaIn| > 0 {
      assert n.io.metaIn == [n.io.metaIn[0]] + n.io.metaIn[1..];
      assert Pending(n') == Pending(n);
    }
  }

  lemma FsmDmaMeta(n: Node, s: Spec)
    requires Inv(n, s) && n.f.state == DMA_META
    ensures Inv(Step(n, RunFsm), s) && Current(Step(n, RunFsm)) == Current(n) && Step(n, RunFsm).io.metaIn == n.io.metaIn
  {
  }

  lemma FsmData(n: Node, s: Spec)
    requires Inv(n, s) && n.f.state == DATA && Proceeds(n.f.packet)
    ensures n.f.packet.qp < |s.table| == |s.queues|
    ensures Inv(Step(n, RunFsm), Handle(s, n.f.packet))
    ensures Step(n, RunFsm).io.metaIn == n.io.metaIn && Current(Step(n, RunFsm)) == [] && Current(n) == [n.f.packet]
  {
    hide Receive, WritesEntry, TakesAddress, Proceeds;
    var p, n', q := n.f.packet, Step(n, RunFsm), n.f.packet.qp;
    FirstAddressOnly(n.f.dma, n.f.readAddr, n.queues[q], n.io.out, p);
    assert s.table == n.table;
    assert s.queues[q] == (if TakesAddress(p.op) then [n.f.readAddr] else []) + n.queues[q];
    assert [] + n.queues[q] == n.queues[q];
    var c := Receive(Pack(n.f.dma, [n.f.readAddr], n.io.out), p);
    var s' := Handle(s, p);
    assert s'.table == n.table[q := c.dma] && s'.out == OutOf(c) && s'.queues[q] == n.queues[q];
    assert n.table[q := n.table[q]] == n.table;
    assert s'.table == Apply(n'.table, Pending(n'));
  }

  /** The table takes over the entry of the packet before. */
  lemma TableWrites(n: Node, s: Spec)
    requires Inv(n, s) && |n.io.tableReq| > 0 && n.io.tableReq[0].MsnWrite?
    ensures Inv(TableStep(n), s)
  {
    var n' := TableStep(n);
    assert Pending(n) == [n.io.tableReq[0]] && Pending(n') == [];
    assert QpsExist(n') && TableShape(n');
    hide TableStep, QpsExist;
    SameQueues(n, n', s);
  }

  /** The table answers for the packet in progress. */
  lemma TableAnswers(n: Node, s: Spec)
    requires Inv(n, s) && |n.io.tableReq| > 0 && n.io.tableReq[0].MsnRead?
    ensures Inv(TableStep(n), s)
  {
    var q := n.f.packet.qp;
    assert n.f.state == DMA_META && n.io.tableRsp == [] && n.io.tableReq == [MsnRead(q)];
    var n' := n.(io := n.io.(tableReq := [], tableRsp := [n.table[q]]));
    assert TableStep(n) == n' && Pending(n) == [] && Pending(n') == [];
    hide TableStep;
    SameQueues(n, n', s);
  }

  /** The table's streams play no part in the queues' invariant. */
  lemma SameQueues(n: Node, n': Node, s: Spec)
    requires TableShape(n) && QueueShape(n) && Matches(n, s) && TableShape(n')
    requires n'.f == n.f && n'.io.popReq == n.io.popReq && n'.io.popRsp == n.io.popRsp && n'.io.out == n.io.out && n'.queues == n.queues
    requires Apply(n'.table, Pending(n')) == Apply(n.table, Pending(n))
    ensures QueueShape(n') && Matches(n', s)
  {
    hide TableShape, Pending;
  }

  lemma TableKeeps(n: Node, s: Spec)
    requires Inv(n, s)
    ensures Inv(TableStep(n), s) && Current(TableStep(n)) == Current(n) && TableStep(n).io.metaIn == n.io.metaIn
  {
    if |n.io.tableReq| > 0 {
      hide Inv;
      if n.io.tableReq[0].MsnWrite? { TableWrites(n, s); } else { TableAnswers(n, s); }
    } else {
      TableAsked(n, s);
    }
  }

  /** A query of the transmit side changes nothing. */
  lemma TableAsked(n: Node, s: Spec)
    requires Inv(n, s) && |n.io.tableReq| == 0
    ensures Inv(TableStep(n), s)
  {
    var n' := TableStep(n);
    assert Pending(n) == [] == Pending(n');
    assert QpsExist(n') && TableShape(n');
    SameQueues(n, n', s);
  }

  lemma QueueKeeps(n: Node, s: Spec)
    requires Inv(n, s)
    ensures Inv(QueueStep(n), s) && Current(QueueStep(n)) == Current(n) && QueueStep(n).io.metaIn == n.io.metaIn
  {
    if |n.io.popReq| > 0 && |n.queues[n.io.popReq[0]]| > 0 {
      var q := n.io.popReq[0];
      assert n.queues[q] == [n.queues[q][0]] + n.queues[q][1..];
    }
  }

  lemma PushKeeps(n: Node, s: Spec, q: nat, a: nat)
    requires Inv(n, s) && Permitted(n, Push(q, a))
    ensures q < |s.queues| == |s.table|
    ensures Inv(Step(n, Push(q, a)), s.(queues := s.queues[q := s.queues[q] + [a]]))
    ensures var n' := Step(n, Push(q, a)); Current(n') == Current(n) && n'.io.metaIn == n.io.metaIn
  {
    assert (Popped(n, q) + n.queues[q]) + [a] == Popped(n, q) + (n.queues[q] + [a]);
  }

  /** Every step of every process keeps the invariant and the account of packets. */
  lemma StepKeeps(n: Node, s: Spec, a: Action)
    requires Inv(n, s) && Permitted(n, a)
    ensures var n', es := Step(n, a), EventOf(n, a);
      && |s.queues| == |s.table| && QpsBelow(es, |s.table|)
      && Inv(n', Happen(s, es))
      && HandledIn(es) + (Current(n') + n'.io.metaIn) == (Current(n) + n.io.metaIn) + (if a.Enter? then [a.p] else [])
  {
    OneHandled(n.f.packet);
    SameTables(n, s);
    hide Inv, HandledIn, FsmStep, TableStep, QueueStep, Handle, Current, Proceeds, QpsExist;
    match a {
      case Enter(p) => EnterKeeps(n, s, p);
      case Push(q, addr) => PushKeeps(n, s, q, addr);
      case Consult(q) => ConsultKeeps(n, s, q);
      case RunTable => TableKeeps(n, s);
      case RunQueue => QueueKeeps(n, s);
      case RunFsm => FsmKeeps(n, s);
    }
  }

  lemma SameTables(n: Node, s: Spec)
    requires Inv(n, s)
    ensures QpsExist(n) && |s.queues| == |s.table| == |n.table|
  {
  }

  lemma FsmKeeps(n: Node, s: Spec)
    requires Inv(n, s)
    ensures QpsExist(n) && |s.queues| == |s.table|
    ensures var n', es := Step(n, RunFsm), EventOf(n, RunFsm);
      && QpsBelow(es, |s.table|) && Inv(n', Happen(s, es))
      && HandledIn(es) + (Current(n') + n'.io.metaIn) == Current(n) + n.io.metaIn
  {
    hide Inv, HandledIn, FsmStep, Handle, Proceeds, QpsExist, Current;
    OneHandled(n.f.packet);
    SameTables(n, s);
    if n.f.state == META {
      FsmMeta(n, s);
    } else if n.f.state == DMA_META {
      FsmDmaMeta(n, s);
    } else if Proceeds(n.f.packet) {
      FsmData(n, s);
    } else {
      FsmStays(n);
    }
  }

  /** On other packets rx_exh_fsm stays in DATA. */
  lemma FsmStays(n: Node)
    requires QpsExist(n) && n.f.state == DATA && !Proceeds(n.f.packet)
    ensures Step(n, RunFsm) == n
  {
  }

  lemma EnterKeeps(n: Node, s: Spec, p: Arrival)
    requires Inv(n, s) && Permitted(n, Enter(p))
    ensures Inv(Step(n, Enter(p)), s)
    ensures var n' := Step(n, Enter(p)); Current(n') + n'.io.metaIn == (Current(n) + n.io.metaIn) + [p]
  {
    Associate(Current(n), n.io.metaIn, [p]);
    QpsAfterOffer(n, p, 0);
    hide Inv, Current, QpsExist;
    Offered(n, n.(io := n.io.(metaIn := n.io.metaIn + [p])), s);
  }

  lemma QpsAfterOffer(n: Node, p: Arrival, q: nat)
    requires QpsExist(n)
    ensures p.qp < |n.table| ==> QpsExist(n.(io := n.io.(metaIn := n.io.metaIn + [p])))
    ensures q < |n.table| ==> QpsExist(n.(txReq := n.txReq + [q]))
  {
  }

  /** What comes in from outside waits. */
  lemma Offered(n: Node, n': Node, s: Spec)
    requires Inv(n, s) && QpsExist(n')
    requires n' == n.(io := n.io.(metaIn := n'.io.metaIn), txReq := n'.txReq)
    ensures Inv(n', s) && Current(n') == Current(n)
  {
    assert Pending(n') == Pending(n) && TableShape(n');
    hide QpsExist, Pending;
    SameQueues(n, n', s);
  }

  lemma ConsultKeeps(n: Node, s: Spec, q: nat)
    requires Inv(n, s) && Permitted(n, Consult(q))
    ensures Inv(Step(n, Consult(q)), s)
    ensures var n' := Step(n, Consult(q)); Current(n') == Current(n) && n'.io.metaIn == n.io.metaIn
  {
    QpsAfterOffer(n, n.f.packet, q);
    hide Inv, Current, QpsExist;
    Offered(n, n.(txReq := n.txReq + [q]), s);
  }

  lemma OneHandled(p: Arrival)
    ensures HandledIn([Handled(p)]) == [p] && HandledIn([]) == []
    ensures forall q, a :: HandledIn([Pushed(q, a)]) == []
  {
    assert [Handled(p)][..0] == [];
  }

  // ----- every run -----

  /** What has completed in the first k steps, in order. */
  ghost function Log(nodes: seq<Node>, schedule: seq<Action>, k: nat): seq<Event>
    requires k <= |schedule| < |nodes|
  {
    if k == 0 then [] else Log(nodes, schedule, k - 1) + EventOf(nodes[k-1], schedule[k-1])
  }

  lemma {:induction false} LogGrows(nodes: seq<Node>, schedule: seq<Action>, i: nat, k: nat)
    requires i <= k <= |schedule| < |nodes|
    ensures Log(nodes, schedule, i) <= Log(nodes, schedule, k)
    decreases k
  {
    if i < k { LogGrows(nodes, schedule, i, k - 1); }
  }

  ghost function Start(n: Node): Spec {
    Spec(n.table, n.queues, n.io.out)
  }

  lemma HappenIsAfter(s: Spec, log: seq<Event>, es: seq<Event>)
    requires QpsBelow(log, |s.table|) && |s.queues| == |s.table| && |es| <= 1 && QpsBelow(es, |s.table|)
    ensures QpsBelow(log + es, |s.table|) && After(s, log + es) == Happen(After(s, log), es)
    ensures HandledIn(log + es) == HandledIn(log) + HandledIn(es)
  {
    if |es| == 0 {
      assert log + es == log;
    } else {
      assert (log + es)[..|log|] == log && es == [es[0]] && es[..0] == [];
      hide Handle;
    }
  }

  lemma RunSplit(nodes: seq<Node>, schedule: seq<Action>, k: nat)
    requires IsRun(nodes, schedule)
    ensures |nodes| == |schedule| + 1 && Init(nodes[0])
    ensures k < |schedule| ==> Permitted(nodes[k], schedule[k]) && (QpsExist(nodes[k]) ==> nodes[k+1] == Step(nodes[k], schedule[k]))
  {
    hide Init, QpsExist, Step, Permitted;
  }

  lemma InitInv(n: Node)
    requires Init(n)
    ensures Inv(n, Start(n)) && Current(n) == [] && n.io.metaIn == [] && |Start(n).queues| == |Start(n).table|
  {
  }

  /**
   * After every step of every interleaving: the packets completed are the first ones
   * that arrived, in their order, and table, read addresses and output are those after
   * handling them one at a time, up to the entry still on its way to the table and the
   * address already popped; no table access is out of range.
   */
  lemma {:induction false} RunsInOrder(nodes: seq<Node>, schedule: seq<Action>, k: nat)
    requires IsRun(nodes, schedule) && k <= |schedule|
    ensures |nodes| == |schedule| + 1
    ensures var n, s, log := nodes[k], Start(nodes[0]), Log(nodes, schedule, k);
      && |s.queues| == |s.table| && QpsBelow(log, |s.table|)
      && Inv(n, After(s, log))
      && HandledIn(log) + (Current(n) + n.io.metaIn) == Arrived(schedule[..k])
  {
    hide IsRun, Init, Inv, Step, Permitted, Current, EventOf, Handle, QpsBelow, QpsExist, HandledIn, Start;
    RunSplit(nodes, schedule, 0);
    InitInv(nodes[0]);
    if k == 0 {
      NothingHappened(Start(nodes[0]));
    } else {
      RunsInOrder(nodes, schedule, k - 1);
      RunSplit(nodes, schedule, k - 1);
      var n, s, log := nodes[k-1], Start(nodes[0]), Log(nodes, schedule, k - 1);
      var es := EventOf(n, schedule[k-1]);
      SameTables(n, After(s, log));
      StepKeeps(n, After(s, log), schedule[k-1]);
      OneEvent(n, schedule[k-1]);
      HappenIsAfter(s, log, es);
      assert schedule[..k][..k-1] == schedule[..k-1];
      Associate(HandledIn(log), HandledIn(es), Current(nodes[k]) + nodes[k].io.metaIn);
      Associate(HandledIn(log), Current(n) + n.io.metaIn, if schedule[k-1].Enter? then [schedule[k-1].p] else []);
    }
  }

  lemma OneEvent(n: Node, a: Action)
    ensures |EventOf(n, a)| <= 1
  {
  }

  lemma Associate<T>(a: seq<T>, b: seq<T>, c: seq<T>)
    ensures (a + b) + c == a + (b + c)
  {
  }

  lemma NothingHappened(s: Spec)
    requires |s.queues| == |s.table|
    ensures QpsBelow([], |s.table|) && After(s, []) == s && HandledIn([]) == []
  {
  }

  // ----- one queue pair -----

  function HandledAll(ps: seq<Arrival>): (log: seq<Event>)
    ensures |log| == |ps| && forall i | 0 <= i < |ps| :: log[i] == Handled(ps[i])
  {
    seq(|ps|, i requires 0 <= i < |ps| => Handled(ps[i]))
  }

  /** Handled one after another, the packets of one queue pair do to its entry, addresses and the output what ReceiveAll says. */
  lemma {:induction false} OneQueuePair(s: Spec, ps: seq<Arrival>, q: nat)
    requires q < |s.table| == |s.queues| && forall i | 0 <= i < |ps| :: ps[i].qp == q
    ensures QpsBelow(HandledAll(ps), |s.table|)
    ensures var s' := After(s, HandledAll(ps));
      && Pack(s'.table[q], s'.queues[q], s'.out) == ReceiveAll(Pack(s.table[q], s.queues[q], s.out), ps)
      && forall r | 0 <= r < |s.table| && r != q :: s'.table[r] == s.table[r] && s'.queues[r] == s.queues[r]
  {
    if |ps| == 0 {
    } else {
      var n := |ps| - 1;
      OneQueuePair(s, ps[..n], q);
      assert HandledAll(ps)[..n] == HandledAll(ps[..n]);
      var s' := After(s, HandledAll(ps[..n]));
      LastReceived(Pack(s.table[q], s.queues[q], s.out), ps);
      hide Receive, ReceiveAll;
    }
  }

  lemma {:induction false} LastReceived(c: Conn, ps: seq<Arrival>)
    requires |ps| > 0
    ensures ReceiveAll(c, ps) == Receive(ReceiveAll(c, ps[..|ps|-1]), ps[|ps|-1])
    decreases |ps|
  {
    hide Receive;
    if |ps| > 1 {
      LastReceived(Receive(c, ps[0]), ps[1..]);
      assert ps[1..][..|ps|-2] == ps[..|ps|-1][1..];
    } else {
      assert ps[..0] == [] && ps[1..] == [];
    }
  }
}
