/**
 * Reliable-connection transport (section 9.7 of the InfiniBand Architecture
 * Specification, Volume 1): the receive decision, the per-queue-pair state table,
 * and PSN assignment on the transmit side, as three processes that talk over
 * FIFOs.  MAX_QPS is |table|.
 */
module Transport {
  import opened Psn

  datatype OpCode =
    | WriteFirst | WriteMiddle | WriteLast | WriteLastWithImd | WriteOnly | WriteOnlyWithImd
    | ReadRequest | ReadRespFirst | ReadRespMiddle | ReadRespLast | ReadRespOnly | Ack
    | PartOnly | PartFirst | PartMiddle | PartLast | ReadPointerRequest | ReadConsistentRequest

  predicate IsResponse(op: OpCode) {
    op.ReadRespFirst? || op.ReadRespMiddle? || op.ReadRespLast? || op.ReadRespOnly? || op.Ack?
  }

  predicate IsWriteOrPart(op: OpCode) {
    || op.WriteFirst? || op.WriteMiddle? || op.WriteLast? || op.WriteOnly?
    || op.PartFirst? || op.PartMiddle? || op.PartLast? || op.PartOnly?
  }

  predicate IsReadRequest(op: OpCode) {
    op.ReadRequest? || op.ReadPointerRequest? || op.ReadConsistentRequest?
  }

  // What the header parsers report about a packet: base header, NAK flag, and the PSNs it takes up.
  datatype Packet = Packet(op: OpCode, qp: nat, psn: Psn, isNak: bool, numPkg: nat)

  // ----- state table -----

  datatype StateEntry = StateEntry(
    respEpsn: Psn, respOldOutstanding: Psn,
    reqNextPsn: Psn, reqOldUnack: Psn, reqOldValid: Psn,
    retryCounter: nat)

  datatype RxStateReq =
    | RxRead(qp: nat, isResponse: bool)
    | RxWrite(qp: nat, epsn: Psn, retryCounter: nat, isResponse: bool)

  datatype RxStateRsp = RxStateRsp(epsn: Psn, oldest: Psn, maxForward: Psn, retryCounter: nat)

  datatype TxStateReq = TxRead(qp: nat) | TxWrite(qp: nat, psn: Psn)

  datatype IfStateReq = IfRead(qp: nat) | IfWrite(qp: nat, remotePsn: Psn, localPsn: Psn)

  /** The window handed to the receive side: the responder's for requests, the requester's for responses. */
  function Window(e: StateEntry, isResponse: bool): RxStateRsp {
    if isResponse then RxStateRsp(e.reqOldUnack, e.reqOldValid, Add(e.reqNextPsn, -1), 0)
    else RxStateRsp(e.respEpsn, e.respOldOutstanding, e.respEpsn, e.retryCounter)
  }

  /** What a receive-side request does to the entry it names; reads change nothing. */
  function Updated(e: StateEntry, r: RxStateReq): StateEntry {
    if r.RxRead? then e
    else if r.isResponse then e.(reqOldUnack := r.epsn)
    else e.(respEpsn := r.epsn, retryCounter := r.retryCounter)
  }

  /** Connection setup; the retry counter has three bits, so 0xF is stored as 7. */
  function SetUp(remotePsn: Psn, localPsn: Psn): StateEntry {
    StateEntry(localPsn, localPsn, remotePsn, remotePsn, remotePsn, 0xF % 8)
  }

  // ----- the receive decision -----

  datatype AckEvent = AckEvent(qp: nat, psn: Psn, validPsn: bool, isNak: bool)

  datatype FwdPolicy = FwdPolicy(isDrop: bool, ackOnly: bool)

  // Everything the receive decision emits, in order.
  datatype RxOut = RxOut(forwarded: seq<Packet>, events: seq<AckEvent>, dropFlags: seq<bool>,
                         policies: seq<FwdPolicy>, dropped: nat)

  function Plus(a: RxOut, b: RxOut): RxOut {
    RxOut(a.forwarded + b.forwarded, a.events + b.events, a.dropFlags + b.dropFlags,
          a.policies + b.policies, a.dropped + b.dropped)
  }

  datatype Verdict = Verdict(updates: seq<RxStateReq>, out: RxOut)

  predicate InOrder(p: Packet, st: RxStateRsp) {
    st.epsn == p.psn || (p.op == Ack && AckTest(st.epsn, p.psn, st.maxForward))
  }

  /** rx_ibh_fsm, state PROCESS: accept, treat as duplicate, or reject and possibly send a NAK. */
  function Judge(p: Packet, st: RxStateRsp): Verdict {
    if InOrder(p, st) then
      Verdict(if p.isNak then [] else [RxWrite(p.qp, Add(p.psn, p.numPkg), 7, IsResponse(p.op))],
              RxOut([p], [], if p.op != Ack && !IsReadRequest(p.op) then [false] else [], [FwdPolicy(false, false)], 0))
    else if DuplicateTest(st.oldest, st.epsn, p.psn) then
      if IsReadRequest(p.op) then
        Verdict([], RxOut([p], [], [false], [FwdPolicy(false, false)], 0))
      else if IsWriteOrPart(p.op) then
        Verdict([], RxOut([], [AckEvent(p.qp, 0, false, false)], [true], [FwdPolicy(false, true)], 1))
      else
        Verdict([], RxOut([], [], if p.op != Ack then [true] else [], [FwdPolicy(true, false)], 0))
    else if p.op == Ack then
      Verdict([], RxOut([], [], [], [FwdPolicy(true, false)], 1))
    else if st.retryCounter == 7 then
      Verdict([RxWrite(p.qp, st.epsn, 6, IsResponse(p.op))],
              RxOut([], [AckEvent(p.qp, if IsResponse(p.op) then p.psn else st.epsn, true, true)],
                    [true], [FwdPolicy(true, false)], 1))
    else
      Verdict([RxWrite(p.qp, st.epsn, st.retryCounter, IsResponse(p.op))],
              RxOut([], [], [true], [FwdPolicy(true, false)], 1))
  }

  // ----- the transmit side -----

  // A packet to be sent: responses to reads and NAKs come with their PSN, all others get it from the state table.
  datatype SendMeta = SendMeta(op: OpCode, qp: nat, dstQp: nat, psn: Psn, validPsn: bool, numPkg: nat)

  datatype Header = Header(meta: SendMeta, psn: Psn)

  /** A request: it takes numPkg fresh PSNs. */
  predicate TakesPsns(m: SendMeta) {
    !m.validPsn && m.op != Ack
  }

  // ----- one node -----

  datatype Node = Node(
    rxIn: seq<Packet>, rxReq: seq<RxStateReq>, rxRsp: seq<RxStateRsp>, rxBusy: bool, packet: Packet, rxOut: RxOut,
    txIn: seq<SendMeta>, txReq: seq<TxStateReq>, txRsp: seq<StateEntry>, txBusy: bool, meta: SendMeta, headers: seq<Header>,
    ifReq: seq<IfStateReq>, ifRsp: seq<StateEntry>,
    table: seq<StateEntry>)

  /** Every queue pair number that indexes the table is below MAX_QPS. */
  ghost predicate InRange(n: Node) {
    && (forall i | 0 <= i < |n.rxIn| :: n.rxIn[i].qp < |n.table|)
    && (forall i | 0 <= i < |n.txIn| :: n.txIn[i].qp < |n.table|)
    && (forall i | 0 <= i < |n.rxReq| :: n.rxReq[i].qp < |n.table|)
    && (forall i | 0 <= i < |n.txReq| :: n.txReq[i].qp < |n.table|)
    && (forall i | 0 <= i < |n.ifReq| :: n.ifReq[i].qp < |n.table|)
    && (n.rxBusy ==> n.packet.qp < |n.table|)
    && (n.txBusy ==> n.meta.qp < |n.table|)
  }

  /** rx_ibh_fsm */
  ghost function RxStep(n: Node): Node {
    if !n.rxBusy then
      if n.rxIn == [] then n
      else
        n.(rxIn := n.rxIn[1..], packet := n.rxIn[0],
           rxReq := n.rxReq + [RxRead(n.rxIn[0].qp, IsResponse(n.rxIn[0].op))],
           rxBusy := true)
    else if n.rxRsp == [] then n
    else
      var v := Judge(n.packet, n.rxRsp[0]);
      n.(rxRsp := n.rxRsp[1..], rxReq := n.rxReq + v.updates, rxOut := Plus(n.rxOut, v.out), rxBusy := false)
  }

  /** generate_ibh */
  ghost function TxStep(n: Node): Node {
    if !n.txBusy then
      if n.txIn == [] then n
      else
        var m := n.txIn[0];
        var n' := n.(txIn := n.txIn[1..], meta := m);
        if m.validPsn then n'.(headers := n.headers + [Header(m, m.psn)])
        else n'.(txReq := n.txReq + [TxRead(m.qp)], txBusy := true)
    else if n.txRsp == [] then n
    else
      var e := n.txRsp[0];
      var n' := n.(txRsp := n.txRsp[1..], txBusy := false);
      if n.meta.op == Ack then n'.(headers := n.headers + [Header(n.meta, Add(e.respEpsn, -1))])
      else n'.(headers := n.headers + [Header(n.meta, e.reqNextPsn)],
               txReq := n.txReq + [TxWrite(n.meta.qp, Add(e.reqNextPsn, n.meta.numPkg))])
  }

  /** state_table: receive side first, then transmit side, then connection setup. */
  ghost function TableStep(n: Node): Node
    requires InRange(n)
  {
    if n.rxReq != [] then
      var r := n.rxReq[0];
      var n' := n.(rxReq := n.rxReq[1..]);
      if r.RxRead? then n'.(rxRsp := n.rxRsp + [Window(n.table[r.qp], r.isResponse)])
      else n'.(table := n.table[r.qp := Updated(n.table[r.qp], r)])
    else if n.txReq != [] then
      var r := n.txReq[0];
      var n' := n.(txReq := n.txReq[1..]);
      if r.TxRead? then n'.(txRsp := n.txRsp + [n.table[r.qp]])
      else n'.(table := n.table[r.qp := n.table[r.qp].(reqNextPsn := r.psn)])
    else if n.ifReq != [] then
      var r := n.ifReq[0];
      var n' := n.(ifReq := n.ifReq[1..]);
      if r.IfRead? then n'.(ifRsp := n.ifRsp + [n.table[r.qp]])
      else n'.(table := n.table[r.qp := SetUp(r.remotePsn, r.localPsn)])
    else n
  }

  // ----- runs -----

  datatype Action =
    | Arrive(p: Packet) | Request(m: SendMeta) | Query(qp: nat)
    | RunRx | RunTx | RunTable

  /** Queue pairs exist; connections are set up before traffic, so the setup interface only asks. */
  predicate Permitted(n: Node, a: Action) {
    match a
    case Arrive(p) => p.qp < |n.table|
    case Request(m) => m.qp < |n.table|
    case Query(qp) => qp < |n.table|
    case _ => true
  }

  ghost function Step(n: Node, a: Action): Node
    requires InRange(n)
  {
    match a
    case Arrive(p) => n.(rxIn := n.rxIn + [p])
    case Request(m) => n.(txIn := n.txIn + [m])
    case Query(qp) => n.(ifReq := n.ifReq + [IfRead(qp)])
    case RunRx => RxStep(n)
    case RunTx => TxStep(n)
    case RunTable => TableStep(n)
  }

  ghost predicate Init(n: Node) {
    && n.rxIn == [] && n.rxReq == [] && n.rxRsp == [] && !n.rxBusy && n.rxOut == RxOut([], [], [], [], 0)
    && n.txIn == [] && n.txReq == [] && n.txRsp == [] && !n.txBusy && n.headers == []
    && n.ifReq == [] && n.ifRsp == []
  }

  ghost predicate IsRun(nodes: seq<Node>, schedule: seq<Action>) {
    && |nodes| == |schedule| + 1
    && Init(nodes[0])
    && forall i | 0 <= i < |schedule| ::
         Permitted(nodes[i], schedule[i])
         && (InRange(nodes[i]) ==> nodes[i+1] == Step(nodes[i], schedule[i]))
  }

  ghost function Arrived(schedule: seq<Action>): seq<Packet> {
    if schedule == [] then []
    else
      var a := schedule[|schedule|-1];
      Arrived(schedule[..|schedule|-1]) + (if a.Arrive? then [a.p] else [])
  }

  ghost function Requested(schedule: seq<Action>): seq<SendMeta> {
    if schedule == [] then []
    else
      var a := schedule[|schedule|-1];
      Requested(schedule[..|schedule|-1]) + (if a.Request? && TakesPsns(a.m) then [a.m] else [])
  }

  // ----- the simple form: whole packets, one at a time -----

  datatype Event = Received(p: Packet) | Sent(m: SendMeta)

  predicate QpsBelow(log: seq<Event>, n: nat) {
    forall i | 0 <= i < |log| :: (if log[i].Received? then log[i].p.qp else log[i].m.qp) < n
  }

  function Verdicts(e: StateEntry, p: Packet): Verdict {
    Judge(p, Window(e, IsResponse(p.op)))
  }

  function Effect(e: StateEntry, v: Verdict): StateEntry {
    if |v.updates| == 0 then e else Updated(e, v.updates[0])
  }

  /** The table after the events of the log, one whole event after another. */
  function After(t: seq<StateEntry>, log: seq<Event>): (t': seq<StateEntry>)
    requires QpsBelow(log, |t|)
    ensures |t'| == |t|
  {
    if |log| == 0 then t
    else
      var u := After(t, log[..|log|-1]);
      match log[|log|-1]
      case Received(p) => u[p.qp := Effect(u[p.qp], Verdicts(u[p.qp], p))]
      case Sent(m) => u[m.qp := u[m.qp].(reqNextPsn := Add(u[m.qp].reqNextPsn, m.numPkg))]
  }

  /** What the receive side has emitted after the log. */
  function Emitted(t: seq<StateEntry>, log: seq<Event>): RxOut
    requires QpsBelow(log, |t|)
  {
    if |log| == 0 then RxOut([], [], [], [], 0)
    else
      var before := log[..|log|-1];
      match log[|log|-1]
      case Received(p) => Plus(Emitted(t, before), Verdicts(After(t, before)[p.qp], p).out)
      case Sent(_) => Emitted(t, before)
  }

  /** The request headers sent, each with its queue pair's next PSN. */
  function HeadersSent(t: seq<StateEntry>, log: seq<Event>): seq<Header>
    requires QpsBelow(log, |t|)
  {
    if |log| == 0 then []
    else
      var before := log[..|log|-1];
      match log[|log|-1]
      case Received(_) => HeadersSent(t, before)
      case Sent(m) => HeadersSent(t, before) + [Header(m, After(t, before)[m.qp].reqNextPsn)]
  }

  function ReceivedIn(log: seq<Event>): seq<Packet> {
    if |log| == 0 then []
    else
      var e := log[|log|-1];
      ReceivedIn(log[..|log|-1]) + (if e.Received? then [e.p] else [])
  }

  function SentIn(log: seq<Event>): seq<SendMeta> {
    if |log| == 0 then []
    else
      var e := log[|log|-1];
      SentIn(log[..|log|-1]) + (if e.Sent? then [e.m] else [])
  }

  function RequestHeaders(hs: seq<Header>): seq<Header> {
    if |hs| == 0 then []
    else
      var h := hs[|hs|-1];
      RequestHeaders(hs[..|hs|-1]) + (if TakesPsns(h.meta) then [h] else [])
  }
}
