/**
 * The three processes of a node, interleaved in any order, act as if every
 * packet and every send were handled in one piece: there is a log of whole
 * events that explains the table and everything emitted.
 */
module TransportNode {
  import opened Psn
  import opened Transport

  // ----- the receive side -----

  /** The receive-side updates already decided but not yet in the table. */
  ghost function PendingRx(n: Node): seq<RxStateReq> {
    if n.rxBusy then
      if n.rxRsp != [] then Judge(n.packet, n.rxRsp[0]).updates
      else if n.rxReq != [] then n.rxReq[..|n.rxReq|-1] else []
    else n.rxReq
  }

  ghost function Apply(t: seq<StateEntry>, rs: seq<RxStateReq>): (t': seq<StateEntry>)
    requires forall i | 0 <= i < |rs| :: rs[i].qp < |t|
    ensures |t'| == |t|
  {
    if rs == [] then t else t[rs[0].qp := Updated(t[rs[0].qp], rs[0])]
  }

  /** The packet taken from the input but not yet judged against the table. */
  ghost function Unread(n: Node): seq<Packet> {
    if n.rxBusy && n.rxRsp == [] then [n.packet] else []
  }

  ghost function OutOfRx(n: Node): RxOut {
    if n.rxBusy && n.rxRsp != [] then Plus(n.rxOut, Judge(n.packet, n.rxRsp[0]).out) else n.rxOut
  }

  ghost predicate RxShape(n: Node) {
    && |PendingRx(n)| <= 1
    && (forall i | 0 <= i < |PendingRx(n)| :: PendingRx(n)[i].RxWrite? && PendingRx(n)[i].qp < |n.table|)
    && (if !n.rxBusy then n.rxRsp == []
        else
          && n.packet.qp < |n.table|
          && (|| (n.rxRsp == [] && n.rxReq == PendingRx(n) + [RxRead(n.packet.qp, IsResponse(n.packet.op))])
              || (n.rxReq == [] && |n.rxRsp| == 1)))
  }

  ghost predicate RxInv(n: Node, t: seq<StateEntry>, log: seq<Event>) {
    && |n.table| == |t| && QpsBelow(log, |t|)
    && RxShape(n)
    && After(t, log) == Apply(n.table, PendingRx(n))
    && Emitted(t, log) == OutOfRx(n)
  }

  // ----- the transmit side -----

  ghost function Unsent(n: Node): seq<Header> {
    if n.txReq != [] && n.txReq[0].TxWrite? then
      var hs := RequestHeaders(n.headers);
      if hs == [] then [] else hs[|hs|-1..]
    else []
  }

  ghost predicate TxShape(n: Node) {
    && (forall i | 0 <= i < |n.txReq| :: n.txReq[i].qp < |n.table|)
    && (if !n.txBusy then n.txRsp == [] && (n.txReq == [] || (|n.txReq| == 1 && n.txReq[0].TxWrite?))
        else
          && !n.meta.validPsn && n.meta.qp < |n.table|
          && (|| (n.txRsp == [] && (n.txReq == [TxRead(n.meta.qp)]
                                    || (|n.txReq| == 2 && n.txReq[0].TxWrite? && n.txReq[1] == TxRead(n.meta.qp))))
              || (n.txReq == [] && |n.txRsp| == 1 && n.txRsp[0].reqNextPsn == n.table[n.meta.qp].reqNextPsn)))
    && (n.txReq != [] && n.txReq[0].TxWrite? ==>
          && |Unsent(n)| == 1
          && n.txReq[0].qp == Unsent(n)[0].meta.qp
          && Unsent(n)[0].psn == n.table[n.txReq[0].qp].reqNextPsn
          && n.txReq[0].psn == Add(n.table[n.txReq[0].qp].reqNextPsn, Unsent(n)[0].meta.numPkg))
  }

  ghost function FirstMeta(hs: seq<Header>): seq<SendMeta> {
    if hs == [] then [] else [hs[0].meta]
  }

  ghost function Requests(ms: seq<SendMeta>): seq<SendMeta> {
    if ms == [] then []
    else Requests(ms[..|ms|-1]) + (if TakesPsns(ms[|ms|-1]) then [ms[|ms|-1]] else [])
  }

  ghost predicate TxInv(n: Node, t: seq<StateEntry>, log: seq<Event>) {
    && |n.table| == |t| && QpsBelow(log, |t|)
    && TxShape(n)
    && RequestHeaders(n.headers) == HeadersSent(t, log) + Unsent(n)
  }

  /** The requests of the log, then those under way, then those waiting. */
  ghost function Underway(n: Node): seq<SendMeta> {
    FirstMeta(Unsent(n)) + (if n.txBusy && TakesPsns(n.meta) then [n.meta] else []) + Requests(n.txIn)
  }

  ghost predicate Inv(n: Node, t: seq<StateEntry>, log: seq<Event>) {
    && InRange(n)
    && (forall i | 0 <= i < |n.ifReq| :: n.ifReq[i].IfRead?)
    && |n.table| == |t| && QpsBelow(log, |t|)
    && RxInv(n, t, log)
    && TxInv(n, t, log)
  }

  // ----- each process keeps the invariant -----

  lemma RxSame(n: Node, n': Node, t: seq<StateEntry>, log: seq<Event>)
    requires RxInv(n, t, log)
    requires n'.rxReq == n.rxReq && n'.rxRsp == n.rxRsp && n'.rxBusy == n.rxBusy && n'.packet == n.packet
    requires n'.rxOut == n.rxOut && n'.table == n.table
    ensures RxInv(n', t, log)
  {
    hide Emitted, After, Judge, QpsBelow, Updated;
  }

  lemma TxSame(n: Node, n': Node, t: seq<StateEntry>, log: seq<Event>)
    requires TxInv(n, t, log)
    requires n'.txReq == n.txReq && n'.txRsp == n.txRsp && n'.txBusy == n.txBusy && n'.meta == n.meta
    requires n'.headers == n.headers
    requires |n'.table| == |n.table|
    requires forall q | 0 <= q < |n.table| :: n'.table[q].reqNextPsn == n.table[q].reqNextPsn
    ensures TxInv(n', t, log)
  {
    hide HeadersSent, RequestHeaders, QpsBelow;
  }

  lemma RxInRange(n: Node)
    requires InRange(n)
    ensures InRange(RxStep(n))
  {
    hide Judge;
    JudgeUpdates(n);
  }

  /** State LOAD of rx_ibh_fsm. */
  lemma RxLoad(n: Node, t: seq<StateEntry>, log: seq<Event>)
    requires RxInv(n, t, log) && !n.rxBusy && n.rxIn != [] && n.rxIn[0].qp < |n.table|
    ensures RxInv(RxStep(n), t, log)
    ensures Unread(RxStep(n)) + RxStep(n).rxIn == Unread(n) + n.rxIn
  {
    hide After, Emitted, Judge, QpsBelow, Updated;
    assert n.rxIn == [n.rxIn[0]] + n.rxIn[1..];
    assert PendingRx(RxStep(n)) == PendingRx(n);
  }

  /** State PROCESS of rx_ibh_fsm. */
  lemma RxJudge(n: Node, t: seq<StateEntry>, log: seq<Event>)
    requires RxInv(n, t, log) && n.rxBusy
    ensures RxInv(RxStep(n), t, log)
    ensures Unread(RxStep(n)) == Unread(n) && RxStep(n).rxIn == n.rxIn
  {
    hide After, Emitted, Judge, QpsBelow, Updated;
    JudgeUpdates(n);
    assert n.rxRsp != [] ==> PendingRx(RxStep(n)) == PendingRx(n);
  }

  lemma FirstInRange(n: Node)
    requires InRange(n)
    ensures n.rxIn != [] ==> n.rxIn[0].qp < |n.table|
  {
  }

  lemma RxKeeps(n: Node, t: seq<StateEntry>, log: seq<Event>)
    requires Inv(n, t, log)
    ensures var n' := RxStep(n);
      && Inv(n', t, log)
      && Unread(n') + n'.rxIn == Unread(n) + n.rxIn
      && n'.txIn == n.txIn && Underway(n') == Underway(n)
  {
    hide Requests, RequestHeaders, TxInv, Judge, Unread, RxInv, InRange;
    RxInRange(n);
    if n.rxBusy {
      RxJudge(n, t, log);
    } else if n.rxIn != [] {
      FirstInRange(n);
      RxLoad(n, t, log);
    }
    TxSame(n, RxStep(n), t, log);
  }

  lemma JudgeUpdates(n: Node)
    ensures n.rxRsp != [] ==>
      var us := Judge(n.packet, n.rxRsp[0]).updates;
      |us| <= 1 && forall i | 0 <= i < |us| :: us[i].RxWrite? && us[i].qp == n.packet.qp
  {
  }

  lemma {:induction false} RequestsSplit(ms: seq<SendMeta>, rest: seq<SendMeta>)
    ensures Requests(ms + rest) == Requests(ms) + Requests(rest)
  {
    if rest == [] {
      assert ms + rest == ms;
    } else {
      var k := |rest| - 1;
      assert (ms + rest)[..|ms + rest| - 1] == ms + rest[..k];
      RequestsSplit(ms, rest[..k]);
    }
  }

  lemma AddHeader(hs: seq<Header>, h: Header)
    ensures RequestHeaders(hs + [h]) == RequestHeaders(hs) + (if TakesPsns(h.meta) then [h] else [])
  {
    assert (hs + [h])[..|hs|] == hs;
  }

  lemma FirstRequest(ms: seq<SendMeta>)
    requires ms != []
    ensures Requests(ms) == (if TakesPsns(ms[0]) then [ms[0]] else []) + Requests(ms[1..])
  {
    assert ms == [ms[0]] + ms[1..];
    RequestsSplit([ms[0]], ms[1..]);
    assert [ms[0]][..0] == [];
    assert Requests([ms[0]]) == if TakesPsns(ms[0]) then [ms[0]] else [];
  }

  /** State META of generate_ibh, for a packet that brings its PSN. */
  lemma TxPass(n: Node, t: seq<StateEntry>, log: seq<Event>)
    requires TxInv(n, t, log) && !n.txBusy && n.txIn != [] && n.txIn[0].validPsn
    ensures TxInv(TxStep(n), t, log) && Underway(TxStep(n)) == Underway(n)
  {
    hide HeadersSent, Requests, RequestHeaders, QpsBelow;
    FirstRequest(n.txIn);
    AddHeader(n.headers, Header(n.txIn[0], n.txIn[0].psn));
    assert !TakesPsns(n.txIn[0]);
  }

  /** State META of generate_ibh, for a packet that needs a PSN. */
  lemma TxAskShape(n: Node, n': Node, m: SendMeta)
    requires TxShape(n) && !n.txBusy && m.qp < |n.table| && !m.validPsn
    requires n'.txReq == n.txReq + [TxRead(m.qp)] && n'.txRsp == n.txRsp && n'.txBusy && n'.meta == m
    requires n'.headers == n.headers && n'.table == n.table
    ensures TxShape(n') && Unsent(n') == Unsent(n)
  {
    hide RequestHeaders;
    if n.txReq == [] {
      assert n'.txReq == [TxRead(m.qp)];
    } else {
      assert n'.txReq == [n.txReq[0], TxRead(m.qp)];
    }
  }

  lemma TxAsk(n: Node, t: seq<StateEntry>, log: seq<Event>)
    requires TxInv(n, t, log) && !n.txBusy && n.txIn != [] && !n.txIn[0].validPsn && n.txIn[0].qp < |n.table|
    ensures TxInv(TxStep(n), t, log) && Underway(TxStep(n)) == Underway(n)
  {
    hide HeadersSent, Requests, RequestHeaders, QpsBelow, TakesPsns, TxShape, Unsent;
    FirstRequest(n.txIn);
    TxAskShape(n, TxStep(n), n.txIn[0]);
  }

  /** State GET_PSN of generate_ibh: fill in the PSN and hand back the next one. */
  lemma TxFill(n: Node, t: seq<StateEntry>, log: seq<Event>)
    requires TxInv(n, t, log) && n.txBusy && n.txRsp != []
    ensures TxInv(TxStep(n), t, log) && Underway(TxStep(n)) == Underway(n)
  {
    hide HeadersSent, Requests, RequestHeaders;
    var e := n.txRsp[0];
    AddHeader(n.headers, Header(n.meta, if n.meta.op == Ack then Add(e.respEpsn, -1) else e.reqNextPsn));
  }

  lemma TxKeeps(n: Node, t: seq<StateEntry>, log: seq<Event>)
    requires Inv(n, t, log)
    ensures var n' := TxStep(n);
      Inv(n', t, log) && n'.rxIn == n.rxIn && Unread(n') == Unread(n) && Underway(n') == Underway(n)
  {
    hide RxInv, TxInv, Underway;
    var n' := TxStep(n);
    TxInRange(n, t, log);
    RxSame(n, n', t, log);
    if n.txBusy && n.txRsp != [] {
      TxFill(n, t, log);
    } else if !n.txBusy && n.txIn != [] {
      if n.txIn[0].validPsn { TxPass(n, t, log); } else { TxAsk(n, t, log); }
    }
  }

  lemma TxInRange(n: Node, t: seq<StateEntry>, log: seq<Event>)
    requires InRange(n) && TxInv(n, t, log)
    ensures InRange(TxStep(n))
  {
    hide HeadersSent, RequestHeaders, Unsent;
  }

  // --- the state table ---

  lemma LogReceived(t: seq<StateEntry>, log: seq<Event>, p: Packet)
    requires QpsBelow(log, |t|) && p.qp < |t|
    ensures var log', u := log + [Received(p)], After(t, log);
      && QpsBelow(log', |t|)
      && After(t, log') == u[p.qp := Effect(u[p.qp], Verdicts(u[p.qp], p))]
      && Emitted(t, log') == Plus(Emitted(t, log), Verdicts(u[p.qp], p).out)
      && HeadersSent(t, log') == HeadersSent(t, log)
      && ReceivedIn(log') == ReceivedIn(log) + [p] && SentIn(log') == SentIn(log)
  {
    assert (log + [Received(p)])[..|log|] == log;
  }

  lemma LogSent(t: seq<StateEntry>, log: seq<Event>, m: SendMeta)
    requires QpsBelow(log, |t|) && m.qp < |t|
    ensures var log', u := log + [Sent(m)], After(t, log);
      && QpsBelow(log', |t|)
      && After(t, log') == u[m.qp := u[m.qp].(reqNextPsn := Add(u[m.qp].reqNextPsn, m.numPkg))]
      && Emitted(t, log') == Emitted(t, log)
      && HeadersSent(t, log') == HeadersSent(t, log) + [Header(m, u[m.qp].reqNextPsn)]
      && ReceivedIn(log') == ReceivedIn(log) && SentIn(log') == SentIn(log) + [m]
  {
    assert (log + [Sent(m)])[..|log|] == log;
  }

  /** The table answers the receive side: this is the moment at which a packet counts as received. */
  lemma RxAnswered(n: Node, t: seq<StateEntry>, log: seq<Event>)
    requires InRange(n) && RxInv(n, t, log) && n.rxReq != [] && n.rxReq[0].RxRead?
    ensures n.packet.qp < |t| && n.rxReq[0] == RxRead(n.packet.qp, IsResponse(n.packet.op)) && n.rxBusy && n.rxRsp == []
    ensures RxInv(TableStep(n), t, log + [Received(n.packet)])
  {
    hide Emitted, After, HeadersSent, Judge;
    var p, n' := n.packet, TableStep(n);
    assert n.rxReq == [RxRead(p.qp, IsResponse(p.op))] && PendingRx(n) == [];
    LogReceived(t, log, p);
    JudgeUpdates(n');
    assert n'.rxRsp == [Window(n.table[p.qp], IsResponse(p.op))];
    assert Judge(p, n'.rxRsp[0]) == Verdicts(After(t, log)[p.qp], p);
  }

  lemma TableAnswersRx(n: Node, t: seq<StateEntry>, log: seq<Event>)
    requires Inv(n, t, log) && n.rxReq != [] && n.rxReq[0].RxRead?
    ensures n.packet.qp < |t| && QpsBelow(log + [Received(n.packet)], |t|)
    ensures Inv(TableStep(n), t, log + [Received(n.packet)])
    ensures Unread(n) == [n.packet] && Unread(TableStep(n)) == [] && Underway(TableStep(n)) == Underway(n)
  {
    hide TxInv, RxInv, Requests, RequestHeaders;
    var n' := TableStep(n);
    RxAnswered(n, t, log);
    LogReceived(t, log, n.packet);
    TxSame(n, n', t, log);
    TxLog(n', t, log, log + [Received(n.packet)]);
  }

  lemma TxLog(n: Node, t: seq<StateEntry>, log: seq<Event>, log': seq<Event>)
    requires TxInv(n, t, log) && QpsBelow(log', |t|) && HeadersSent(t, log') == HeadersSent(t, log)
    ensures TxInv(n, t, log')
  {
    hide HeadersSent, RequestHeaders, QpsBelow, TxShape;
  }

  lemma RxWritten(n: Node, t: seq<StateEntry>, log: seq<Event>)
    requires InRange(n) && RxInv(n, t, log) && n.rxReq != [] && n.rxReq[0].RxWrite?
    ensures RxInv(TableStep(n), t, log) && Unread(TableStep(n)) == Unread(n)
  {
    hide Emitted, After, HeadersSent, Judge, Updated, InRange, QpsBelow;
    var n' := TableStep(n);
    assert PendingRx(n) == [n.rxReq[0]] && PendingRx(n') == [];
    assert OutOfRx(n') == OutOfRx(n);
    assert Apply(n'.table, PendingRx(n')) == Apply(n.table, PendingRx(n));
  }

  lemma TableWritesRx(n: Node, t: seq<StateEntry>, log: seq<Event>)
    requires Inv(n, t, log) && n.rxReq != [] && n.rxReq[0].RxWrite?
    ensures Inv(TableStep(n), t, log)
    ensures Unread(TableStep(n)) == Unread(n) && Underway(TableStep(n)) == Underway(n)
  {
    hide TxInv, RxInv, Unread, RequestHeaders, Requests;
    RxWritten(n, t, log);
    TxSame(n, TableStep(n), t, log);
  }

  lemma TableAnswersTx(n: Node, t: seq<StateEntry>, log: seq<Event>)
    requires Inv(n, t, log) && n.rxReq == [] && n.txReq != [] && n.txReq[0].TxRead?
    ensures Inv(TableStep(n), t, log)
    ensures Unread(TableStep(n)) == Unread(n) && Underway(TableStep(n)) == Underway(n)
  {
    hide RxInv, HeadersSent, RequestHeaders;
    var n' := TableStep(n);
    RxSame(n, n', t, log);
  }

  /** The table takes the next PSN: this is the moment at which a request counts as sent. */
  lemma TableWritesTx(n: Node, t: seq<StateEntry>, log: seq<Event>)
    requires Inv(n, t, log) && n.rxReq == [] && n.txReq != [] && n.txReq[0].TxWrite?
    ensures |Unsent(n)| == 1
    ensures var m, n' := Unsent(n)[0].meta, TableStep(n);
      && m.qp < |t| && QpsBelow(log + [Sent(m)], |t|) && Inv(n', t, log + [Sent(m)])
      && Unread(n') == Unread(n) && Underway(n) == [m] + Underway(n')
  {
    hide Emitted, After, HeadersSent, RequestHeaders, Judge, Requests;
    var m, n' := Unsent(n)[0].meta, TableStep(n);
    var log' := log + [Sent(m)];
    LogSent(t, log, m);
    assert PendingRx(n') == PendingRx(n) && OutOfRx(n') == OutOfRx(n);
    var u := After(t, log);
    assert u[m.qp].reqNextPsn == n.table[m.qp].reqNextPsn;
    assert After(t, log') == Apply(n'.table, PendingRx(n'));
    assert RxInv(n', t, log');
    assert TxInv(n', t, log');
  }

  lemma TableAnswersIf(n: Node, t: seq<StateEntry>, log: seq<Event>)
    requires Inv(n, t, log) && n.rxReq == [] && n.txReq == []
    ensures Inv(TableStep(n), t, log)
    ensures Unread(TableStep(n)) == Unread(n) && Underway(TableStep(n)) == Underway(n)
  {
    hide RxInv, TxInv;
    var n' := TableStep(n);
    RxSame(n, n', t, log);
    TxSame(n, n', t, log);
  }

  // ----- every run -----

  /** What completes with a step: the table answers for a packet received, or takes over the next PSN of a request sent. */
  ghost function EventOf(n: Node, a: Action): seq<Event> {
    if !a.RunTable? then []
    else if n.rxReq != [] then
      if n.rxReq[0].RxRead? then [Received(n.packet)] else []
    else if n.txReq != [] && n.txReq[0].TxWrite? && Unsent(n) != [] then [Sent(Unsent(n)[0].meta)]
    else []
  }

  /** The events completed in the first k steps, in the order in which they completed. */
  ghost function Log(nodes: seq<Node>, schedule: seq<Action>, k: nat): seq<Event>
    requires k <= |schedule| < |nodes|
  {
    if k == 0 then [] else Log(nodes, schedule, k - 1) + EventOf(nodes[k-1], schedule[k-1])
  }

  /** The invariant holds again, and the log, longer by what completed, still accounts for all packets and requests in their order. */
  ghost predicate Keeps(n: Node, log: seq<Event>, n': Node, log': seq<Event>, t: seq<StateEntry>, a: Action)
    requires Inv(n, t, log)
  {
    && Inv(n', t, log') && log' == log + EventOf(n, a)
    && ReceivedIn(log') + (Unread(n') + n'.rxIn)
       == ReceivedIn(log) + (Unread(n) + n.rxIn) + (if a.Arrive? then [a.p] else [])
    && SentIn(log') + Underway(n')
       == SentIn(log) + Underway(n) + (if a.Request? && TakesPsns(a.m) then [a.m] else [])
  }

  lemma RequestView(n: Node, m: SendMeta)
    requires InRange(n)
    ensures Underway(Step(n, Request(m))) == Underway(n) + (if TakesPsns(m) then [m] else [])
  {
    hide RequestHeaders, Requests, TakesPsns;
    OneMoreRequest(n.txIn, m);
    var n' := n.(txIn := n.txIn + [m]);
    assert Step(n, Request(m)) == n';
    assert Unsent(n') == Unsent(n);
    hide Unsent, Step, InRange;
    var now := FirstMeta(Unsent(n)) + (if n.txBusy && TakesPsns(n.meta) then [n.meta] else []);
    Associates(now, Requests(n.txIn), if TakesPsns(m) then [m] else []);
  }

  lemma OneMoreRequest(ms: seq<SendMeta>, m: SendMeta)
    ensures Requests(ms + [m]) == Requests(ms) + (if TakesPsns(m) then [m] else [])
  {
    assert (ms + [m])[..|ms|] == ms;
  }

  lemma OfferInv(n: Node, t: seq<StateEntry>, log: seq<Event>, a: Action)
    requires Inv(n, t, log) && Permitted(n, a) && (a.Arrive? || a.Request? || a.Query?)
    ensures Inv(Step(n, a), t, log) && Unread(Step(n, a)) == Unread(n)
  {
    hide RxInv, TxInv, QpsBelow;
    var n' := Step(n, a);
    RxSame(n, n', t, log);
    TxSame(n, n', t, log);
  }

  lemma ArriveKeeps(n: Node, t: seq<StateEntry>, log: seq<Event>, p: Packet)
    requires Inv(n, t, log) && Permitted(n, Arrive(p))
    ensures Keeps(n, log, Step(n, Arrive(p)), log, t, Arrive(p))
  {
    hide Inv, Unread, ReceivedIn, SentIn, Requests, RequestHeaders, TakesPsns;
    OfferInv(n, t, log, Arrive(p));
    Associates(Unread(n), n.rxIn, [p]);
    Associates(ReceivedIn(log), Unread(n) + n.rxIn, [p]);
  }

  lemma RequestKeeps(n: Node, t: seq<StateEntry>, log: seq<Event>, m: SendMeta)
    requires Inv(n, t, log) && InRange(n) && Permitted(n, Request(m))
    ensures Keeps(n, log, Step(n, Request(m)), log, t, Request(m))
  {
    hide Inv, InRange, Unread, ReceivedIn, SentIn, Underway, TakesPsns;
    OfferInv(n, t, log, Request(m));
    RequestView(n, m);
    Associates(SentIn(log), Underway(n), if TakesPsns(m) then [m] else []);
  }

  lemma QueryKeeps(n: Node, t: seq<StateEntry>, log: seq<Event>, qp: nat)
    requires Inv(n, t, log) && Permitted(n, Query(qp))
    ensures Keeps(n, log, Step(n, Query(qp)), log, t, Query(qp))
  {
    hide Inv, Unread, ReceivedIn, SentIn, Requests, RequestHeaders, TakesPsns;
    OfferInv(n, t, log, Query(qp));
  }

  lemma Associates<T>(a: seq<T>, b: seq<T>, c: seq<T>)
    ensures (a + b) + c == a + (b + c)
  {
  }

  lemma TableKeepsRx(n: Node, t: seq<StateEntry>, log: seq<Event>)
    requires Inv(n, t, log) && n.rxReq != []
    ensures Keeps(n, log, TableStep(n), log + EventOf(n, RunTable), t, RunTable)
  {
    hide InRange, RxInv, TxInv, Underway, Unread, ReceivedIn, SentIn;
    if n.rxReq[0].RxRead? {
      TableAnswersRx(n, t, log);
      LogReceived(t, log, n.packet);
      assert [] + n.rxIn == n.rxIn;
      Associates(ReceivedIn(log), [n.packet], n.rxIn);
    } else {
      assert log + EventOf(n, RunTable) == log;
      TableWritesRx(n, t, log);
    }
  }

  lemma TableKeepsTx(n: Node, t: seq<StateEntry>, log: seq<Event>)
    requires Inv(n, t, log) && n.rxReq == [] && n.txReq != []
    ensures Keeps(n, log, TableStep(n), log + EventOf(n, RunTable), t, RunTable)
  {
    hide InRange, RxInv, TxInv, Underway, Unread, ReceivedIn, SentIn, Unsent;
    if n.txReq[0].TxRead? {
      assert log + EventOf(n, RunTable) == log;
      TableAnswersTx(n, t, log);
    } else {
      TableWritesTx(n, t, log);
      var m := Unsent(n)[0].meta;
      LogSent(t, log, m);
      Associates(SentIn(log), [m], Underway(TableStep(n)));
    }
  }

  lemma TableKeepsIf(n: Node, t: seq<StateEntry>, log: seq<Event>)
    requires Inv(n, t, log) && n.rxReq == [] && n.txReq == []
    ensures Keeps(n, log, TableStep(n), log + EventOf(n, RunTable), t, RunTable)
  {
    hide InRange, RxInv, TxInv, Underway, Unread, ReceivedIn, SentIn, QpsBelow;
    assert log + EventOf(n, RunTable) == log;
    TableAnswersIf(n, t, log);
  }

  lemma TableKeeps(n: Node, t: seq<StateEntry>, log: seq<Event>)
    requires Inv(n, t, log)
    ensures Keeps(n, log, TableStep(n), log + EventOf(n, RunTable), t, RunTable)
  {
    hide InRange, RxInv, TxInv, QpsBelow, TableStep, Keeps, EventOf;
    if n.rxReq != [] {
      TableKeepsRx(n, t, log);
    } else if n.txReq != [] {
      TableKeepsTx(n, t, log);
    } else {
      TableKeepsIf(n, t, log);
    }
  }

  lemma StepKeeps(n: Node, t: seq<StateEntry>, log: seq<Event>, a: Action)
    requires Inv(n, t, log) && Permitted(n, a)
    ensures Keeps(n, log, Step(n, a), log + EventOf(n, a), t, a)
  {
    hide InRange, RxInv, TxInv, QpsBelow, Underway, Unread, RxStep, TxStep, TableStep, ReceivedIn, SentIn;
    assert !a.RunTable? ==> log + EventOf(n, a) == log;
    hide EventOf;
    match a {
      case RunRx => RxKeeps(n, t, log);
      case RunTx => TxKeeps(n, t, log);
      case RunTable => TableKeeps(n, t, log);
      case Arrive(p) => ArriveKeeps(n, t, log, p);
      case Request(m) => RequestKeeps(n, t, log, m);
      case Query(qp) => QueryKeeps(n, t, log, qp);
    }
  }

  lemma RunShape(nodes: seq<Node>, schedule: seq<Action>)
    requires IsRun(nodes, schedule)
    ensures |nodes| == |schedule| + 1 && Init(nodes[0])
  {
    hide Init, InRange, Step, Permitted;
  }

  lemma RunSplit(nodes: seq<Node>, schedule: seq<Action>, k: nat)
    requires IsRun(nodes, schedule) && k < |schedule|
    ensures |nodes| == |schedule| + 1 && Permitted(nodes[k], schedule[k])
    ensures InRange(nodes[k]) ==> nodes[k+1] == Step(nodes[k], schedule[k])
  {
    hide Init, InRange, Step, Permitted;
  }

  lemma InitInv(n: Node)
    requires Init(n)
    ensures Inv(n, n.table, []) && Underway(n) == [] && Unread(n) == [] && n.rxIn == []
    ensures ReceivedIn([]) == [] && SentIn([]) == []
  {
    assert After(n.table, []) == n.table;
  }

  lemma {:induction false} RunInv(nodes: seq<Node>, schedule: seq<Action>, k: nat)
    requires IsRun(nodes, schedule) && k <= |schedule|
    ensures |nodes| == |schedule| + 1
    ensures var n, log := nodes[k], Log(nodes, schedule, k);
      && Inv(n, nodes[0].table, log)
      && ReceivedIn(log) + (Unread(n) + n.rxIn) == Arrived(schedule[..k])
      && SentIn(log) + Underway(n) == Requested(schedule[..k])
  {
    hide IsRun, Init, Permitted, Step, Underway, Unread, TakesPsns, InRange, RxInv, TxInv, QpsBelow, EventOf, ReceivedIn, SentIn;
    RunShape(nodes, schedule);
    if k == 0 {
      InitInv(nodes[0]);
    } else {
      RunSplit(nodes, schedule, k - 1);
      RunInv(nodes, schedule, k - 1);
      assert schedule[..k][..k-1] == schedule[..k-1];
      StepKeeps(nodes[k-1], nodes[0].table, Log(nodes, schedule, k - 1), schedule[k-1]);
    }
  }

  lemma {:induction false} LogGrows(nodes: seq<Node>, schedule: seq<Action>, i: nat, k: nat)
    requires i <= k <= |schedule| < |nodes|
    ensures Log(nodes, schedule, i) <= Log(nodes, schedule, k)
    decreases k
  {
    if i < k { LogGrows(nodes, schedule, i, k - 1); }
  }

  /**
   * Atomicity: under every schedule and after every step, the events completed so far,
   * received packets in arrival order and sent requests in request order, explain the
   * node: the receive side has emitted what they say (the verdict on a packet already
   * looked up may still be on its way), every request header carries the next PSN of
   * its queue pair, and no table access was out of range.
   */
  lemma RunsAreAtomic(nodes: seq<Node>, schedule: seq<Action>, k: nat)
    requires IsRun(nodes, schedule) && k <= |schedule|
    ensures |nodes| == |schedule| + 1 && InRange(nodes[k])
    ensures var n, t, log := nodes[k], nodes[0].table, Log(nodes, schedule, k);
      && QpsBelow(log, |t|)
      && Emitted(t, log) == OutOfRx(n)
      && RequestHeaders(n.headers) == HeadersSent(t, log) + Unsent(n)
      && ReceivedIn(log) + Unread(n) + n.rxIn == Arrived(schedule[..k])
      && SentIn(log) + Underway(n) == Requested(schedule[..k])
    ensures forall i | 0 <= i <= k :: Log(nodes, schedule, i) <= Log(nodes, schedule, k)
  {
    RunInv(nodes, schedule, k);
    var n, log := nodes[k], Log(nodes, schedule, k);
    Associates(ReceivedIn(log), Unread(n), n.rxIn);
    hide RxShape, TxShape, Init, IsRun, Emitted, RequestHeaders, HeadersSent, ReceivedIn, SentIn, Log, InRange;
    forall i | 0 <= i <= k ensures Log(nodes, schedule, i) <= Log(nodes, schedule, k) {
      LogGrows(nodes, schedule, i, k);
    }
  }
}
