/**
 * Whole runs of one node: the NAKs and drop flags it emits, what its acknowledgements
 * vouch for, and what a requester counts as acknowledged.
 */
module TransportRuns {
  import opened Psn
  import opened Transport
  import opened TransportNode
  import opened TransportSafety

  // ----- NAKs and drop flags -----

  ghost predicate NoneRearms(ps: seq<Packet>, q: nat) {
    forall i, k | 0 <= i < |ps| && 0 <= k < |ps| :: !Rearms(ps[k], ps[i], q)
  }

  /**
   * After every step the NAKs emitted for a queue pair name the PSNs expected at the
   * packets they answer, and if no idle request arrived beside one at another PSN, the
   * expected PSN moved between any two of them.
   */
  lemma RunNaks(nodes: seq<Node>, schedule: seq<Action>, k: nat, q: nat)
    requires IsRun(nodes, schedule) && k <= |schedule| && q < |nodes[0].table|
    ensures |nodes| == |schedule| + 1
    ensures var r, ps := ResponderOf(nodes[0].table[q]), ReceivedIn(Log(nodes, schedule, k));
      && ps <= Arrived(schedule[..k])
      && NakPsns(OutOfRx(nodes[k]).events, q) == ExpectedAtNaks(r, ps, q)
      && (NoneRearms(Arrived(schedule[..k]), q) ==> OneNakPerAdvance(r, ps, q))
  {
    RunInv(nodes, schedule, k);
    var t, log := nodes[0].table, Log(nodes, schedule, k);
    hide Init, IsRun, RxShape, TxInv, InRange, OneNakPerAdvance, Rearms, OutOfRx, NakPsns, ExpectedAtNaks, Log, ReceivedIn, Arrived;
    LogNaks(t, log, q);
    if NoneRearms(Arrived(schedule[..k]), q) {
      forall i, j | 0 <= i < |ReceivedIn(log)| && 0 <= j < |ReceivedIn(log)|
        ensures !Rearms(ReceivedIn(log)[j], ReceivedIn(log)[i], q)
      {
        var ps := Arrived(schedule[..k]);
        assert ReceivedIn(log)[i] == ps[i] && ReceivedIn(log)[j] == ps[j];
      }
      NaksAreSuppressed(ResponderOf(t[q]), ReceivedIn(log), q);
    }
  }

  /** After every step the drop flags match the payloads received exactly if no read request came at another PSN than the expected one. */
  lemma RunFlags(nodes: seq<Node>, schedule: seq<Action>, k: nat)
    requires IsRun(nodes, schedule) && k <= |schedule|
    ensures |nodes| == |schedule| + 1
    ensures var t, log := nodes[0].table, Log(nodes, schedule, k);
      && QpsBelow(log, |t|)
      && (|OutOfRx(nodes[k]).dropFlags| == PayloadCount(ReceivedIn(log)) <==> MisplacedReads(t, log) == 0)
  {
    RunInv(nodes, schedule, k);
    hide Init, IsRun, RxShape, TxInv, InRange, OutOfRx, Log, ReceivedIn, MisplacedReads, PayloadCount;
    FlagsInStepIff(nodes[0].table, Log(nodes, schedule, k));
  }

  // ----- what an acknowledgement vouches for -----

  /** After some of the first k steps, e was the PSN that the responder of q expected. */
  ghost predicate Expected(nodes: seq<Node>, schedule: seq<Action>, k: nat, q: nat, e: Psn)
    requires k <= |schedule| < |nodes|
  {
    exists b: nat :: b <= k && ExpectedAfter(nodes, schedule, b, q, e)
  }

  ghost predicate ExpectedAfter(nodes: seq<Node>, schedule: seq<Action>, b: nat, q: nat, e: Psn)
    requires b <= |schedule| < |nodes|
  {
    var t, log := nodes[0].table, Log(nodes, schedule, b);
    QpsBelow(log, |t|) && q < |t| && After(t, log)[q].respEpsn == e
  }

  /** An acknowledgement whose PSN is filled in from the state table. */
  predicate IsAck(m: SendMeta) {
    m.op == Ack && !m.validPsn
  }

  ghost predicate TableVouched(nodes: seq<Node>, schedule: seq<Action>, k: nat, table: seq<StateEntry>)
    requires k <= |schedule| < |nodes|
  {
    forall q | 0 <= q < |table| :: Expected(nodes, schedule, k, q, table[q].respEpsn)
  }

  ghost predicate AnswersVouched(nodes: seq<Node>, schedule: seq<Action>, k: nat, q: nat, answers: seq<StateEntry>)
    requires k <= |schedule| < |nodes|
  {
    forall i | 0 <= i < |answers| :: Expected(nodes, schedule, k, q, answers[i].respEpsn)
  }

  ghost predicate HeadersVouched(nodes: seq<Node>, schedule: seq<Action>, k: nat, headers: seq<Header>)
    requires k <= |schedule| < |nodes|
  {
    forall i | 0 <= i < |headers| && IsAck(headers[i].meta) ::
      Expected(nodes, schedule, k, headers[i].meta.qp, Add(headers[i].psn, 1))
  }

  /** What the table holds, what it has answered, and what the acknowledgements sent name, was expected at some time. */
  ghost predicate AcksInv(nodes: seq<Node>, schedule: seq<Action>, k: nat)
    requires k <= |schedule| < |nodes|
  {
    var n := nodes[k];
    && TableVouched(nodes, schedule, k, n.table)
    && AnswersVouched(nodes, schedule, k, n.meta.qp, n.txRsp)
    && HeadersVouched(nodes, schedule, k, n.headers)
  }

  lemma ExpectedLater(nodes: seq<Node>, schedule: seq<Action>, k: nat, q: nat, e: Psn)
    requires k < |schedule| < |nodes| && Expected(nodes, schedule, k, q, e)
    ensures Expected(nodes, schedule, k + 1, q, e)
  {
    hide ExpectedAfter;
  }

  /** Parts of a node that have not changed still hold what was expected. */
  lemma StillVouched(nodes: seq<Node>, schedule: seq<Action>, k: nat)
    requires k < |schedule| < |nodes| && AcksInv(nodes, schedule, k)
    ensures TableVouched(nodes, schedule, k + 1, nodes[k].table)
    ensures AnswersVouched(nodes, schedule, k + 1, nodes[k].meta.qp, nodes[k].txRsp)
    ensures HeadersVouched(nodes, schedule, k + 1, nodes[k].headers)
  {
    hide Expected, Add;
    forall q, e | Expected(nodes, schedule, k, q, e) ensures Expected(nodes, schedule, k + 1, q, e) {
      ExpectedLater(nodes, schedule, k, q, e);
    }
  }

  /** State GET_PSN names the PSN before the one the table answered with. */
  lemma OneMoreHeader(nodes: seq<Node>, schedule: seq<Action>, k: nat, headers: seq<Header>, h: Header, e: Psn)
    requires k <= |schedule| < |nodes| && HeadersVouched(nodes, schedule, k, headers)
    requires IsAck(h.meta) ==> h.psn == Add(e, -1) && Expected(nodes, schedule, k, h.meta.qp, e)
    ensures HeadersVouched(nodes, schedule, k, headers + [h])
  {
    AddAdd(e, -1, 1);
    AddZero(e);
    hide Expected, Add;
  }

  lemma AcksAfterTx(nodes: seq<Node>, schedule: seq<Action>, k: nat)
    requires k < |schedule| < |nodes| && AcksInv(nodes, schedule, k) && nodes[k+1] == TxStep(nodes[k])
    requires TxShape(nodes[k])
    ensures AcksInv(nodes, schedule, k + 1)
  {
    StillVouched(nodes, schedule, k);
    var n, n' := nodes[k], nodes[k+1];
    assert !n.txBusy ==> n.txRsp == [];
    assert AnswersVouched(nodes, schedule, k + 1, n'.meta.qp, n'.txRsp);
    assert n.txRsp != [] ==> Expected(nodes, schedule, k + 1, n.meta.qp, n.txRsp[0].respEpsn);
    hide Expected, Add, TxShape, HeadersVouched, TableVouched, AnswersVouched;
    if n.txBusy && n.txRsp != [] {
      var e := n.txRsp[0];
      OneMoreHeader(nodes, schedule, k + 1, n.headers, Header(n.meta, if n.meta.op == Ack then Add(e.respEpsn, -1) else e.reqNextPsn), e.respEpsn);
    } else if !n.txBusy && n.txIn != [] && n.txIn[0].validPsn {
      OneMoreHeader(nodes, schedule, k + 1, n.headers, Header(n.txIn[0], n.txIn[0].psn), 0);
    }
  }

  /** With no update pending the table is the one after the log. */
  lemma TableIsExpected(nodes: seq<Node>, schedule: seq<Action>, k: nat)
    requires k <= |schedule| < |nodes|
    requires RxInv(nodes[k], nodes[0].table, Log(nodes, schedule, k)) && PendingRx(nodes[k]) == []
    ensures TableVouched(nodes, schedule, k, nodes[k].table)
  {
    hide RxShape, Emitted, OutOfRx, Log, PendingRx;
    forall q | 0 <= q < |nodes[k].table|
      ensures Expected(nodes, schedule, k, q, nodes[k].table[q].respEpsn)
    {
      assert ExpectedAfter(nodes, schedule, k, q, nodes[k].table[q].respEpsn);
    }
  }

  lemma NothingPending(n: Node)
    requires InRange(n) && RxShape(n) && n.rxReq != [] && n.rxReq[0].RxWrite?
    ensures PendingRx(TableStep(n)) == []
    ensures TableStep(n).txRsp == n.txRsp && TableStep(n).meta == n.meta && TableStep(n).headers == n.headers
  {
    hide Judge;
  }

  /** The other table accesses leave the responder's PSNs as they are; an answer takes them over. */
  lemma TableAnswers(n: Node)
    requires InRange(n) && TxShape(n) && (forall i | 0 <= i < |n.ifReq| :: n.ifReq[i].IfRead?)
    requires n.rxReq != [] ==> n.rxReq[0].RxRead?
    ensures var n' := TableStep(n);
      && n'.meta == n.meta && n'.headers == n.headers && |n'.table| == |n.table|
      && (forall q | 0 <= q < |n.table| :: n'.table[q].respEpsn == n.table[q].respEpsn)
      && (n'.txRsp == n.txRsp || (n.meta.qp < |n.table| && n'.txRsp == n.txRsp + [n.table[n.meta.qp]]))
  {
    hide Unsent, Window;
  }

  lemma AnswerVouched(nodes: seq<Node>, schedule: seq<Action>, k: nat, n: Node)
    requires k <= |schedule| < |nodes| && InRange(n) && TxShape(n)
    requires forall i | 0 <= i < |n.ifReq| :: n.ifReq[i].IfRead?
    requires n.rxReq != [] ==> n.rxReq[0].RxRead?
    requires TableVouched(nodes, schedule, k, n.table) && AnswersVouched(nodes, schedule, k, n.meta.qp, n.txRsp)
    ensures var n' := TableStep(n);
      TableVouched(nodes, schedule, k, n'.table) && AnswersVouched(nodes, schedule, k, n.meta.qp, n'.txRsp)
  {
    TableAnswers(n);
    hide Expected, TableStep, TxShape;
  }

  lemma AcksAfterTable(nodes: seq<Node>, schedule: seq<Action>, k: nat)
    requires k < |schedule| < |nodes| && AcksInv(nodes, schedule, k)
    requires Inv(nodes[k], nodes[0].table, Log(nodes, schedule, k)) && nodes[k+1] == TableStep(nodes[k])
    requires RxInv(nodes[k+1], nodes[0].table, Log(nodes, schedule, k + 1))
    ensures AcksInv(nodes, schedule, k + 1)
  {
    hide *;
    StillVouched(nodes, schedule, k);
    var n := nodes[k];
    InvParts(n, nodes[0].table, Log(nodes, schedule, k));
    AcksParts(nodes, schedule, k + 1);
    if n.rxReq != [] && n.rxReq[0].RxWrite? {
      NothingPending(n);
      TableIsExpected(nodes, schedule, k + 1);
    } else {
      TableAnswers(n);
      AnswerVouched(nodes, schedule, k + 1, n);
    }
  }

  lemma AcksAtStart(nodes: seq<Node>, schedule: seq<Action>)
    requires |schedule| < |nodes| && Init(nodes[0]) && RxInv(nodes[0], nodes[0].table, Log(nodes, schedule, 0))
    ensures AcksInv(nodes, schedule, 0)
  {
    TableIsExpected(nodes, schedule, 0);
    hide Expected, Add, RxInv, TableVouched;
  }

  /** Every acknowledgement sent names a PSN whose successor the responder has expected. */
  lemma {:induction false} AcksAreVouched(nodes: seq<Node>, schedule: seq<Action>, k: nat)
    requires IsRun(nodes, schedule) && k <= |schedule|
    ensures |nodes| == |schedule| + 1 && AcksInv(nodes, schedule, k)
  {
    hide IsRun, Init, Log, RxInv, AcksInv, RxStep, TableStep, TxStep, TxShape, ReceivedIn, SentIn, Arrived, Requested, Underway, Inv, InRange, Unread, Permitted;
    RunShape(nodes, schedule);
    RunInv(nodes, schedule, k);
    InvParts(nodes[k], nodes[0].table, Log(nodes, schedule, k));
    if k == 0 {
      InvParts(nodes[0], nodes[0].table, Log(nodes, schedule, 0));
      AcksAtStart(nodes, schedule);
    } else {
      RunInv(nodes, schedule, k - 1);
      InvParts(nodes[k-1], nodes[0].table, Log(nodes, schedule, k - 1));
      AcksAreVouched(nodes, schedule, k - 1);
      RunSplit(nodes, schedule, k - 1);
      match schedule[k-1] {
        case RunTable => AcksAfterTable(nodes, schedule, k - 1);
        case RunTx => AcksAfterTx(nodes, schedule, k - 1);
        case RunRx => AcksUndisturbed(nodes, schedule, k - 1);
        case Arrive(_) => AcksUndisturbed(nodes, schedule, k - 1);
        case Request(_) => AcksUndisturbed(nodes, schedule, k - 1);
        case Query(_) => AcksUndisturbed(nodes, schedule, k - 1);
      }
    }
  }

  lemma InvParts(n: Node, t: seq<StateEntry>, log: seq<Event>)
    requires Inv(n, t, log)
    ensures RxInv(n, t, log) && InRange(n) && TxShape(n) && RxShape(n)
    ensures forall i | 0 <= i < |n.ifReq| :: n.ifReq[i].IfRead?
  {
    hide TxShape, RxShape, InRange;
  }

  lemma AcksParts(nodes: seq<Node>, schedule: seq<Action>, k: nat)
    requires k <= |schedule| < |nodes|
    ensures var n := nodes[k];
      AcksInv(nodes, schedule, k)
      <==> TableVouched(nodes, schedule, k, n.table) && AnswersVouched(nodes, schedule, k, n.meta.qp, n.txRsp)
           && HeadersVouched(nodes, schedule, k, n.headers)
  {
    hide TableVouched, AnswersVouched, HeadersVouched;
  }

  lemma AcksUndisturbed(nodes: seq<Node>, schedule: seq<Action>, k: nat)
    requires k < |schedule| < |nodes| && AcksInv(nodes, schedule, k)
    requires InRange(nodes[k]) && nodes[k+1] == Step(nodes[k], schedule[k])
    requires !schedule[k].RunTable? && !schedule[k].RunTx?
    ensures AcksInv(nodes, schedule, k + 1)
  {
    hide Expected, Add, InRange, IsAck, Judge, TableVouched, AnswersVouched, HeadersVouched;
    StillVouched(nodes, schedule, k);
  }

  // ----- what the requester counts as acknowledged -----

  /** The PSNs taken up by the requests sent on r. */
  function SentLength(log: seq<Event>, r: nat): nat {
    if |log| == 0 then 0
    else
      var e := log[|log|-1];
      SentLength(log[..|log|-1], r) + (if e.Sent? && e.m.qp == r then e.m.numPkg else 0)
  }

  /** The PSNs sent on r and counted as acknowledged: all but the outstanding ones. */
  function Acknowledged(e: StateEntry, sent: nat): int {
    sent - Outstanding(e)
  }

  /** Never 2^24 or more PSNs outstanding. */
  ghost predicate InFlightFits(t: seq<StateEntry>, log: seq<Event>, r: nat)
    requires QpsBelow(log, |t|) && r < |t|
  {
    forall j | 0 <= j < |log| && log[j].Sent? && log[j].m.qp == r ::
      Outstanding(After(t, log[..j])[r]) + log[j].m.numPkg < PSN_SPACE
  }

  /** A response that vouches for the PSNs up to its own, v of them, and is less than 2^24 PSNs old on arrival. */
  predicate Timely(p: Packet, start: Psn, v: nat, sent: nat) {
    p.numPkg == 1 && Add(p.psn, 1) == Add(start, v) && v <= sent < v + PSN_SPACE
  }

  ghost predicate ResponsesVouch(log: seq<Event>, r: nat, start: Psn, bound: nat) {
    forall j | 0 <= j < |log| && log[j].Received? && log[j].p.qp == r && IsResponse(log[j].p.op) && !log[j].p.isNak ::
      exists v: nat :: v <= bound && Timely(log[j].p, start, v, SentLength(log[..j], r))
  }

  lemma PositionOf(e: StateEntry, start: Psn, v: nat, sent: nat)
    requires e.reqOldUnack == Add(start, v) && e.reqNextPsn == Add(start, sent) && v <= sent < v + PSN_SPACE
    ensures Outstanding(e) == sent - v
  {
    AddAdd(start, v, sent - v);
    AddCases(Add(start, v), sent - v);
    hide Add;
    DistCases(e.reqOldUnack, e.reqNextPsn);
  }

  lemma ResponseEffect(e: StateEntry, p: Packet)
    ensures var e' := Effect(e, Verdicts(e, p));
      && e'.reqNextPsn == e.reqNextPsn
      && (!IsResponse(p.op) || p.isNak ==> e'.reqOldUnack == e.reqOldUnack)
      && e'.reqOldUnack in {e.reqOldUnack, Add(p.psn, p.numPkg)}
  {
  }

  /** The requester's two PSNs, as positions: v acknowledged out of sent. */
  predicate StandsAt(e: StateEntry, start: Psn, v: nat, sent: nat) {
    e.reqOldUnack == Add(start, v) && e.reqNextPsn == Add(start, sent) && v <= sent < v + PSN_SPACE
  }

  /** One event, as positions. */
  lemma OneEvent(t: seq<StateEntry>, log: seq<Event>, r: nat, start: Psn, bound: nat, v: nat) returns (v': nat)
    requires QpsBelow(log, |t|) && r < |t| && |log| > 0
    requires InFlightFits(t, log, r) && ResponsesVouch(log, r, start, bound)
    requires v <= bound && StandsAt(After(t, log[..|log|-1])[r], start, v, SentLength(log[..|log|-1], r))
    ensures v' <= bound && StandsAt(After(t, log)[r], start, v', SentLength(log, r))
  {
    hide Effect, Verdicts, Add;
    var before, e := log[..|log|-1], log[|log|-1];
    var u := After(t, before)[r];
    v' := v;
    if e.Sent? && e.m.qp == r {
      PositionOf(u, start, v, SentLength(before, r));
      AddAdd(start, SentLength(before, r), e.m.numPkg);
    } else if e.Received? && e.p.qp == r {
      ResponseEffect(u, e.p);
      if IsResponse(e.p.op) && !e.p.isNak && After(t, log)[r].reqOldUnack != u.reqOldUnack {
        v' :| v' <= bound && Timely(e.p, start, v', SentLength(before, r));
      }
    }
  }

  lemma HypothesesBefore(t: seq<StateEntry>, log: seq<Event>, r: nat, start: Psn, bound: nat)
    requires QpsBelow(log, |t|) && r < |t| && |log| > 0
    requires InFlightFits(t, log, r) && ResponsesVouch(log, r, start, bound)
    ensures var before := log[..|log|-1]; InFlightFits(t, before, r) && ResponsesVouch(before, r, start, bound)
  {
    hide After, SentLength, Timely, Outstanding;
    var before := log[..|log|-1];
    forall j | 0 <= j < |before| ensures before[..j] == log[..j] && before[j] == log[j] {
    }
  }

  lemma {:induction false} StandsWithin(t: seq<StateEntry>, log: seq<Event>, r: nat, start: Psn, bound: nat) returns (v: nat)
    requires QpsBelow(log, |t|) && r < |t|
    requires t[r].reqNextPsn == t[r].reqOldUnack == start
    requires InFlightFits(t, log, r) && ResponsesVouch(log, r, start, bound)
    ensures v <= bound && StandsAt(After(t, log)[r], start, v, SentLength(log, r))
    decreases |log|
  {
    if |log| == 0 {
      AddZero(start);
      v := 0;
    } else {
      HypothesesBefore(t, log, r, start, bound);
      hide InFlightFits, ResponsesVouch, After, SentLength, StandsAt;
      v := StandsWithin(t, log[..|log|-1], r, start, bound);
      v := OneEvent(t, log, r, start, bound, v);
    }
  }

  /** What is counted as acknowledged never exceeds what the responses received vouch for. */
  lemma NoMoreThanVouched(t: seq<StateEntry>, log: seq<Event>, r: nat, bound: nat)
    requires QpsBelow(log, |t|) && r < |t| && t[r].reqNextPsn == t[r].reqOldUnack
    requires InFlightFits(t, log, r) && ResponsesVouch(log, r, t[r].reqNextPsn, bound)
    ensures 0 <= Acknowledged(After(t, log)[r], SentLength(log, r)) <= bound
  {
    var start, e := t[r].reqNextPsn, After(t, log)[r];
    var v := StandsWithin(t, log, r, start, bound);
    PositionOf(e, start, v, SentLength(log, r));
  }

  /** As long as something is outstanding, a response never takes acknowledged PSNs back; it adds some exactly when it is accepted and no NAK. */
  lemma AcknowledgedGrows(e: StateEntry, p: Packet, sent: nat)
    requires IsResponse(p.op) && p.numPkg == 1 && Outstanding(e) > 0
    ensures var e' := Effect(e, Verdicts(e, p));
      if Accepted(e, p) && !p.isNak then Acknowledged(e', sent) == Acknowledged(e, sent) + Dist(e.reqOldUnack, p.psn) + 1
      else Acknowledged(e', sent) == Acknowledged(e, sent)
  {
    hide Add, Dist;
    if Accepted(e, p) && !p.isNak {
      ResponseAdvances(e, p);
    }
  }
}
