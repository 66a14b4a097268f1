/**
 * Packets that bring their PSN, read responses and NAKs: generate_ibh sends them under
 * that PSN and in the order in which they were requested, so that the requester accepts
 * the responses to a read one by one, and a NAK names the PSN that was expected.
 */
module TransportHeaders {
  import opened Psn
  import opened Transport
  import opened TransportNode
  import opened TransportSafety
  import opened TransportRuns
  import opened Segments
  import opened SegmentsCount
  import opened SegmentsUnit

  // ----- headers and requests -----

  function AllRequested(schedule: seq<Action>): seq<SendMeta> {
    if |schedule| == 0 then []
    else
      var a := schedule[|schedule|-1];
      AllRequested(schedule[..|schedule|-1]) + (if a.Request? then [a.m] else [])
  }

  function MetasOf(hs: seq<Header>): (ms: seq<SendMeta>)
    ensures |ms| == |hs| && forall i | 0 <= i < |hs| :: ms[i] == hs[i].meta
  {
    seq(|hs|, i requires 0 <= i < |hs| => hs[i].meta)
  }

  ghost function InHand(n: Node): seq<SendMeta> {
    if n.txBusy then [n.meta] else []
  }

  /** A packet that brings its PSN is sent with it. */
  ghost predicate OwnPsns(hs: seq<Header>) {
    forall i | 0 <= i < |hs| && hs[i].meta.validPsn :: hs[i].psn == hs[i].meta.psn
  }

  lemma OneMoreMeta(hs: seq<Header>, h: Header)
    ensures MetasOf(hs + [h]) == MetasOf(hs) + [h.meta]
    ensures OwnPsns(hs) && (h.meta.validPsn ==> h.psn == h.meta.psn) ==> OwnPsns(hs + [h])
  {
  }

  lemma TxInOrder(n: Node)
    requires TxShape(n) && OwnPsns(n.headers)
    ensures var n' := TxStep(n);
      && OwnPsns(n'.headers)
      && MetasOf(n'.headers) + InHand(n') + n'.txIn == MetasOf(n.headers) + InHand(n) + n.txIn
  {
    BusyHasNoPsn(n);
    hide TxShape, OwnPsns, MetasOf;
    if n.txBusy && n.txRsp != [] {
      OneMoreMeta(n.headers, Header(n.meta, if n.meta.op == Ack then Add(n.txRsp[0].respEpsn, -1) else n.txRsp[0].reqNextPsn));
      hide Add;
    } else if !n.txBusy && n.txIn != [] {
      assert n.txIn == [n.txIn[0]] + n.txIn[1..];
      if n.txIn[0].validPsn {
        OneMoreMeta(n.headers, Header(n.txIn[0], n.txIn[0].psn));
      }
    }
  }

  lemma BusyHasNoPsn(n: Node)
    requires TxShape(n)
    ensures n.txBusy ==> !n.meta.validPsn
  {
    hide Unsent;
  }

  lemma TableLeavesTx(n: Node)
    requires InRange(n)
    ensures var n' := TableStep(n); n'.headers == n.headers && InHand(n') == InHand(n) && n'.txIn == n.txIn
  {
    hide Window, Updated, SetUp;
  }

  lemma OthersInOrder(n: Node, a: Action)
    requires InRange(n) && !a.RunTx?
    ensures var n' := Step(n, a);
      && n'.headers == n.headers && InHand(n') == InHand(n)
      && n'.txIn == n.txIn + (if a.Request? then [a.m] else [])
  {
    TableLeavesTx(n);
    hide InRange, Judge, TableStep;
  }

  /** After every step the headers sent are those of the first packets requested, in order, each that brings its PSN with it. */
  lemma {:induction false} HeadersAreRequests(nodes: seq<Node>, schedule: seq<Action>, k: nat)
    requires IsRun(nodes, schedule) && k <= |schedule|
    ensures |nodes| == |schedule| + 1
    ensures var n := nodes[k];
      && OwnPsns(n.headers)
      && MetasOf(n.headers) + InHand(n) + n.txIn == AllRequested(schedule[..k])
  {
    hide IsRun, Init, Inv, InRange, Step, TxStep, TxShape, OwnPsns, MetasOf, InHand, Log, ReceivedIn, SentIn, Underway, Arrived, Requested, Permitted;
    RunShape(nodes, schedule);
    if k == 0 {
      NothingSentAtFirst(nodes[0]);
    } else {
      RunInv(nodes, schedule, k - 1);
      HeadersAreRequests(nodes, schedule, k - 1);
      RunSplit(nodes, schedule, k - 1);
      InvParts(nodes[k-1], nodes[0].table, Log(nodes, schedule, k - 1));
      assert schedule[..k][..k-1] == schedule[..k-1];
      var n, a := nodes[k-1], schedule[k-1];
      if a.RunTx? {
        StepIsTx(n);
        TxInOrder(n);
      } else {
        OthersInOrder(n, a);
        Associates(MetasOf(n.headers) + InHand(n), n.txIn, if a.Request? then [a.m] else []);
      }
    }
  }

  lemma StepIsTx(n: Node)
    requires InRange(n)
    ensures Step(n, RunTx) == TxStep(n)
  {
    hide InRange, TxStep;
  }

  lemma NothingSentAtFirst(n: Node)
    requires Init(n)
    ensures OwnPsns(n.headers) && MetasOf(n.headers) == InHand(n) == n.txIn == []
  {
  }

  // ----- the packets of a queue pair that bring their PSN -----

  /** Of queue pair q and with its own PSN: a NAK, or else a read response. */
  predicate Brings(m: SendMeta, q: nat, nak: bool) {
    m.validPsn && m.qp == q && (m.op == Ack <==> nak)
  }

  function Bringing(ms: seq<SendMeta>, q: nat, nak: bool): (r: seq<SendMeta>)
    ensures forall i | 0 <= i < |r| :: Brings(r[i], q, nak)
  {
    if |ms| == 0 then []
    else Bringing(ms[..|ms|-1], q, nak) + (if Brings(ms[|ms|-1], q, nak) then [ms[|ms|-1]] else [])
  }

  function SentBringing(hs: seq<Header>, q: nat, nak: bool): seq<Header> {
    if |hs| == 0 then []
    else SentBringing(hs[..|hs|-1], q, nak) + (if Brings(hs[|hs|-1].meta, q, nak) then [hs[|hs|-1]] else [])
  }

  lemma {:induction false} BringingSplit(a: seq<SendMeta>, b: seq<SendMeta>, q: nat, nak: bool)
    ensures Bringing(a + b, q, nak) == Bringing(a, q, nak) + Bringing(b, q, nak)
  {
    if |b| == 0 {
      assert a + b == a;
    } else {
      assert (a + b)[..|a + b| - 1] == a + b[..|b|-1];
      BringingSplit(a, b[..|b|-1], q, nak);
    }
  }

  lemma {:induction false} SentUnderOwn(hs: seq<Header>, q: nat, nak: bool)
    requires OwnPsns(hs)
    ensures MetasOf(SentBringing(hs, q, nak)) == Bringing(MetasOf(hs), q, nak)
    ensures forall i | 0 <= i < |SentBringing(hs, q, nak)| :: SentBringing(hs, q, nak)[i].psn == SentBringing(hs, q, nak)[i].meta.psn
  {
    if |hs| > 0 {
      SentUnderOwn(hs[..|hs|-1], q, nak);
      assert MetasOf(hs)[..|hs|-1] == MetasOf(hs[..|hs|-1]);
      var h := hs[|hs|-1];
      OneMoreMeta(SentBringing(hs[..|hs|-1], q, nak), h);
    }
  }

  /** After every step: the NAKs sent on q, and the read responses, are the first ones requested, each with the PSN it brought. */
  lemma SentAsBrought(nodes: seq<Node>, schedule: seq<Action>, k: nat, q: nat, nak: bool)
    requires IsRun(nodes, schedule) && k <= |schedule|
    ensures |nodes| == |schedule| + 1
    ensures var sent := SentBringing(nodes[k].headers, q, nak);
      && MetasOf(sent) + Bringing(nodes[k].txIn, q, nak) == Bringing(AllRequested(schedule[..k]), q, nak)
      && forall i | 0 <= i < |sent| :: sent[i].psn == sent[i].meta.psn
  {
    hide IsRun, Init, Inv, InRange, OwnPsns, MetasOf, AllRequested, Bringing, SentBringing;
    HeadersAreRequests(nodes, schedule, k);
    var n := nodes[k];
    SentUnderOwn(n.headers, q, nak);
    BringingSplit(MetasOf(n.headers) + InHand(n), n.txIn, q, nak);
    BringingSplit(MetasOf(n.headers), InHand(n), q, nak);
    RunInv(nodes, schedule, k);
    InvParts(n, nodes[0].table, Log(nodes, schedule, k));
    NothingBrought(n, q, nak);
    assert Bringing(MetasOf(n.headers), q, nak) + [] == Bringing(MetasOf(n.headers), q, nak);
  }

  lemma NothingBrought(n: Node, q: nat, nak: bool)
    requires TxShape(n)
    ensures Bringing(InHand(n), q, nak) == []
  {
    BusyHasNoPsn(n);
    hide TxShape;
    if n.txBusy { assert [n.meta][..0] == []; }
  }

  // ----- read responses -----

  /** What meta_merger makes of a read response. */
  function ResponseMeta(e: TxEvent, dstQp: nat): SendMeta {
    SendMeta(e.op, e.qp, dstQp, e.psn, e.validPsn, 1)
  }

  function ResponseMetas(es: seq<TxEvent>, dstQp: nat): (ms: seq<SendMeta>)
    ensures |ms| == |es| && forall i | 0 <= i < |es| :: ms[i] == ResponseMeta(es[i], dstQp)
  {
    seq(|es|, i requires 0 <= i < |es| => ResponseMeta(es[i], dstQp))
  }

  /** What the requester's header parsers report about a response. */
  function AsReceived(h: Header): Packet {
    Packet(h.meta.op, h.meta.dstQp, h.psn, false, 1)
  }

  /** The same events on queue pair q. */
  function Towards(es: seq<TxEvent>, q: nat): (r: seq<TxEvent>)
    ensures |r| == |es| && forall i | 0 <= i < |es| :: r[i] == es[i].(qp := q)
  {
    seq(|es|, i requires 0 <= i < |es| => es[i].(qp := q))
  }

  /** The number of PSNs the reads take up. */
  function Taken(rs: seq<ReadRequestMeta>, pmtu: int): nat
    requires pmtu > 0
  {
    if |rs| == 0 then 0
    else
      Taken(rs[..|rs|-1], pmtu) + NumPkg(rs[|rs|-1].length, pmtu)
  }

  /** Reads whose PSNs follow on each other from start. */
  ghost predicate InSequence(rs: seq<ReadRequestMeta>, start: Psn, pmtu: int)
    requires pmtu > 0
  {
    forall i | 0 <= i < |rs| :: rs[i].length > 0 && rs[i].psn == Add(start, Taken(rs[..i], pmtu))
  }

  lemma NumberedJoin(a: seq<TxEvent>, b: seq<TxEvent>, start: Psn)
    requires NumberedFrom(a, start) && NumberedFrom(b, Add(start, |a|))
    ensures NumberedFrom(a + b, start)
  {
    hide Add;
    forall i | 0 <= i < |a + b| ensures (a + b)[i].psn == Add(start, i) && (a + b)[i].validPsn {
      if i >= |a| {
        AddAdd(start, |a|, i - |a|);
        assert (a + b)[i] == b[i - |a|];
      }
    }
  }

  lemma {:induction false} AllResponsesSplit(a: seq<ReadRequestMeta>, b: seq<ReadRequestMeta>, pmtu: int)
    requires pmtu > 0
    ensures AllResponsesTo(a + b, pmtu) == AllResponsesTo(a, pmtu) + AllResponsesTo(b, pmtu)
  {
    hide ResponsesTo;
    if |a| == 0 {
      assert a + b == b;
    } else {
      assert (a + b)[1..] == a[1..] + b;
      AllResponsesSplit(a[1..], b, pmtu);
    }
  }

  lemma LastResponses(rs: seq<ReadRequestMeta>, pmtu: int)
    requires pmtu > 0 && |rs| > 0
    ensures AllResponsesTo(rs, pmtu) == AllResponsesTo(rs[..|rs|-1], pmtu) + ResponsesTo(rs[|rs|-1], pmtu)
  {
    hide ResponsesTo;
    var k := |rs| - 1;
    assert rs == rs[..k] + [rs[k]] && [rs[k]][1..] == [];
    AllResponsesSplit(rs[..k], [rs[k]], pmtu);
    assert AllResponsesTo([rs[k]], pmtu) == ResponsesTo(rs[k], pmtu) + [];
  }

  predicate PlainResponses(es: seq<TxEvent>) {
    forall i | 0 <= i < |es| :: IsResponse(es[i].op) && es[i].op != Ack
  }

  lemma ResponsesArePlain(r: ReadRequestMeta, pmtu: int)
    requires pmtu > 0 && r.length > 0
    ensures PlainResponses(ResponsesTo(r, pmtu))
  {
    hide NumPkg, NumberedFrom;
    ResponsesMatchCount(r, pmtu);
  }

  lemma SequenceBefore(rs: seq<ReadRequestMeta>, start: Psn, pmtu: int)
    requires pmtu > 0 && InSequence(rs, start, pmtu) && |rs| > 0
    ensures InSequence(rs[..|rs|-1], start, pmtu)
    ensures var r := rs[|rs|-1]; r.length > 0 && r.psn == Add(start, Taken(rs[..|rs|-1], pmtu))
  {
    hide Taken, Add;
    var k := |rs| - 1;
    forall i | 0 <= i < k ensures rs[..k][..i] == rs[..i] {
    }
  }

  /** The responses to such reads are as many as PSNs taken up, and numbered on, one after another. */
  lemma {:induction false} AllNumbered(rs: seq<ReadRequestMeta>, start: Psn, pmtu: int)
    requires pmtu > 0 && InSequence(rs, start, pmtu)
    ensures var es := AllResponsesTo(rs, pmtu);
      |es| == Taken(rs, pmtu) && NumberedFrom(es, start) && PlainResponses(es)
  {
    hide NumPkg, Add, NumberedFrom, ResponsesTo, AllResponsesTo, InSequence;
    if |rs| == 0 {
      NothingNumbered(start);
      NoResponses(pmtu);
    } else {
      var k := |rs| - 1;
      SequenceBefore(rs, start, pmtu);
      AllNumbered(rs[..k], start, pmtu);
      LastResponses(rs, pmtu);
      ResponsesMatchCount(rs[k], pmtu);
      ResponsesArePlain(rs[k], pmtu);
      NumberedJoin(AllResponsesTo(rs[..k], pmtu), ResponsesTo(rs[k], pmtu), start);
    }
  }

  lemma NoResponses(pmtu: int)
    requires pmtu > 0
    ensures AllResponsesTo([], pmtu) == []
  {
  }

  lemma Relabelled(es: seq<TxEvent>, q: nat, start: Psn, n: nat)
    requires NumberedFrom(es, start) && PlainResponses(es) && n <= |es|
    ensures NumberedFrom(Towards(es, q)[..n], start) && AllResponses(Towards(es, q)[..n])
  {
    hide Add;
  }

  /**
   * The headers of the responses to a sequence of reads are accepted one by one by the
   * requester whose oldest unacknowledged PSN is that of the first read.
   */
  lemma SentResponsesAccepted(nodes: seq<Node>, schedule: seq<Action>, k: nat, q: nat, dstQp: nat,
                              rs: seq<ReadRequestMeta>, pmtu: int, s: StateEntry)
    requires IsRun(nodes, schedule) && k <= |schedule| && |nodes| == |schedule| + 1
    requires pmtu > 0 && InSequence(rs, s.reqOldUnack, pmtu)
    requires Bringing(AllRequested(schedule[..k]), q, false) <= ResponseMetas(AllResponsesTo(rs, pmtu), dstQp)
    ensures var sent, es := SentBringing(nodes[k].headers, q, false), Towards(AllResponsesTo(rs, pmtu), dstQp);
      && |sent| <= |es|
      && (forall i | 0 <= i < |sent| ::
            && AsReceived(sent[i]) == AsPacket(es[i])
            && Accepted(Accepting(s, es[..i]), AsReceived(sent[i])))
      && Accepting(s, es[..|sent|]) == s.(reqOldUnack := Add(s.reqOldUnack, |sent|))
  {
    hide IsRun, AllRequested, Bringing, SentBringing, AllResponsesTo, InSequence, Add, Accepted, NumberedFrom, AllResponses, PlainResponses, Taken;
    SentAsBrought(nodes, schedule, k, q, false);
    AllNumbered(rs, s.reqOldUnack, pmtu);
    var sent, all := SentBringing(nodes[k].headers, q, false), AllResponsesTo(rs, pmtu);
    var es := Towards(all, dstQp);
    forall i | 0 <= i < |sent| ensures AsReceived(sent[i]) == AsPacket(es[i]) {
      assert MetasOf(sent)[i] == ResponseMetas(all, dstQp)[i];
    }
    Relabelled(all, dstQp, s.reqOldUnack, |sent|);
    ResponsesAccepted(s, es[..|sent|]);
    forall i | 0 <= i < |sent| ensures Accepted(Accepting(s, es[..i]), AsReceived(sent[i])) {
      assert es[..|sent|][..i] == es[..i] && es[..|sent|][i] == es[i];
    }
  }

  // ----- NAKs -----

  /** What meta_merger makes of an acknowledgement event. */
  function AckMeta(a: AckEvent, dstQp: nat): SendMeta {
    SendMeta(Ack, a.qp, dstQp, a.psn, a.validPsn, 1)
  }

  function AckMetas(events: seq<AckEvent>, dstQp: nat): (ms: seq<SendMeta>)
    ensures |ms| == |events| && forall i | 0 <= i < |events| :: ms[i] == AckMeta(events[i], dstQp)
  {
    seq(|events|, i requires 0 <= i < |events| => AckMeta(events[i], dstQp))
  }

  predicate OnlyNaksBring(events: seq<AckEvent>) {
    forall i | 0 <= i < |events| :: events[i].validPsn <==> events[i].isNak
  }

  lemma JudgeBrings(p: Packet, st: RxStateRsp)
    ensures OnlyNaksBring(Judge(p, st).out.events)
  {
  }

  lemma {:induction false} LogBrings(t: seq<StateEntry>, log: seq<Event>)
    requires QpsBelow(log, |t|)
    ensures OnlyNaksBring(Emitted(t, log).events)
  {
    hide Judge, After;
    if |log| > 0 {
      var before, e := log[..|log|-1], log[|log|-1];
      LogBrings(t, before);
      if e.Received? {
        JudgeBrings(e.p, Window(After(t, before)[e.p.qp], IsResponse(e.p.op)));
      }
    }
  }

  function PsnsOf(ms: seq<SendMeta>): (r: seq<Psn>)
    ensures |r| == |ms| && forall i | 0 <= i < |ms| :: r[i] == ms[i].psn
  {
    seq(|ms|, i requires 0 <= i < |ms| => ms[i].psn)
  }

  lemma {:induction false} NakPsnsBrought(events: seq<AckEvent>, q: nat, dstQp: nat)
    requires OnlyNaksBring(events)
    ensures PsnsOf(Bringing(AckMetas(events, dstQp), q, true)) == NakPsns(events, q)
  {
    if |events| > 0 {
      var k := |events| - 1;
      NakPsnsBrought(events[..k], q, dstQp);
      assert AckMetas(events, dstQp)[..k] == AckMetas(events[..k], dstQp);
    }
  }

  /**
   * If the acknowledgements requested on q with a PSN are those the receive side has
   * asked for, the NAKs sent name, in order, the PSNs expected at the packets they answer.
   */
  lemma SentNaksNameExpected(nodes: seq<Node>, schedule: seq<Action>, k: nat, q: nat, dstQp: nat)
    requires IsRun(nodes, schedule) && k <= |schedule| && |nodes| == |schedule| + 1 && q < |nodes[0].table|
    requires Bringing(AllRequested(schedule[..k]), q, true) <= Bringing(AckMetas(OutOfRx(nodes[k]).events, dstQp), q, true)
    ensures var r, ps := ResponderOf(nodes[0].table[q]), ReceivedIn(Log(nodes, schedule, k));
      var sent := SentBringing(nodes[k].headers, q, true);
      && |sent| <= |ExpectedAtNaks(r, ps, q)|
      && forall i | 0 <= i < |sent| :: sent[i].psn == ExpectedAtNaks(r, ps, q)[i]
  {
    hide IsRun, AllRequested, Bringing, SentBringing, OutOfRx, ExpectedAtNaks, NakPsns, OnlyNaksBring, ReceivedIn, Log, Arrived, OneNakPerAdvance, NoneRearms;
    SentAsBrought(nodes, schedule, k, q, true);
    RunNaks(nodes, schedule, k, q);
    EventsBring(nodes, schedule, k);
    NakPsnsBrought(OutOfRx(nodes[k]).events, q, dstQp);
    var sent, asked := SentBringing(nodes[k].headers, q, true), Bringing(AckMetas(OutOfRx(nodes[k]).events, dstQp), q, true);
    forall i | 0 <= i < |sent| ensures sent[i].psn == PsnsOf(asked)[i] {
      assert MetasOf(sent)[i] == asked[i];
    }
  }

  lemma EventsBring(nodes: seq<Node>, schedule: seq<Action>, k: nat)
    requires IsRun(nodes, schedule) && k <= |schedule| && |nodes| == |schedule| + 1
    ensures OnlyNaksBring(OutOfRx(nodes[k]).events)
  {
    hide IsRun, Log, OnlyNaksBring, ReceivedIn, Arrived, Emitted, Unread, Underway, SentIn, Requested, HeadersSent, RequestHeaders, InRange, Unsent, OutOfRx;
    RunsAreAtomic(nodes, schedule, k);
    LogBrings(nodes[0].table, Log(nodes, schedule, k));
  }
}
