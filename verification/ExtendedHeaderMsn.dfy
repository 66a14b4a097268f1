/**
 * Message sequence numbers: the entry of a queue pair counts the packets that wrote or
 * asked for memory, and the transmit side is told that count whenever it asks.
 */
module ExtendedHeaderMsn {
  import opened Psn
  import T = Transport
  import opened Segments
  import opened ExtendedHeader
  import Queues = ExtendedHeaderQueues

  /** A write packet, a read request for any bytes, or a middle read response. */
  predicate Counts(p: Arrival) {
    || T.IsWriteOrPart(p.op)
    || ((p.op == T.ReadRequest || p.op == T.ReadConsistentRequest) && p.rethLength > 0)
    || p.op == T.ReadRespMiddle
  }

  function Counted(ps: seq<Arrival>): nat {
    if |ps| == 0 then 0 else (if Counts(ps[0]) then 1 else 0) + Counted(ps[1..])
  }

  lemma CountOne(c: Conn, p: Arrival)
    requires c.dma.msn < PSN_SPACE
    ensures Receive(c, p).dma.msn == if Counts(p) then (c.dma.msn + 1) % PSN_SPACE else c.dma.msn
  {
    hide Payload;
  }

  /** Whatever the packets of a queue pair are, its MSN counts these. */
  lemma {:induction false} MsnCounts(c: Conn, ps: seq<Arrival>)
    requires c.dma.msn < PSN_SPACE
    ensures ReceiveAll(c, ps).dma.msn == (c.dma.msn + Counted(ps)) % PSN_SPACE
    decreases |ps|
  {
    if |ps| > 0 {
      CountOne(c, ps[0]);
      hide Receive, Counts;
      MsnCounts(Receive(c, ps[0]), ps[1..]);
      AddAdd(c.dma.msn, 1, Counted(ps[1..]));
    }
  }

  // ----- the transmit side's questions -----

  function Consulted(schedule: seq<Action>): seq<nat> {
    if |schedule| == 0 then []
    else
      var a := schedule[|schedule|-1];
      Consulted(schedule[..|schedule|-1]) + (if a.Consult? then [a.qp] else [])
  }

  /** After b steps the packets of q completed count up to m. */
  ghost predicate MsnAfter(nodes: seq<Node>, schedule: seq<Action>, b: nat, q: nat, m: nat)
    requires b <= |schedule| < |nodes|
  {
    q < |nodes[0].table| && m == (nodes[0].table[q].msn + Counted(Queues.PacketsOf(Log(nodes, schedule, b), q))) % PSN_SPACE
  }

  ghost predicate MsnAtSomeTime(nodes: seq<Node>, schedule: seq<Action>, k: nat, q: nat, m: nat)
    requires k <= |schedule| < |nodes|
  {
    exists b: nat :: b <= k && MsnAfter(nodes, schedule, b, q, m)
  }

  ghost predicate Answered(nodes: seq<Node>, schedule: seq<Action>, k: nat, qs: seq<nat>, answers: seq<nat>)
    requires k <= |schedule| < |nodes|
  {
    |answers| <= |qs| && forall i | 0 <= i < |answers| :: MsnAtSomeTime(nodes, schedule, k, qs[i], answers[i])
  }

  lemma AnsweredLater(nodes: seq<Node>, schedule: seq<Action>, k: nat, qs: seq<nat>, answers: seq<nat>, more: seq<nat>)
    requires k < |schedule| < |nodes| && Answered(nodes, schedule, k, qs, answers)
    ensures Answered(nodes, schedule, k + 1, qs + more, answers)
  {
    hide MsnAfter;
    forall i | 0 <= i < |answers| ensures MsnAtSomeTime(nodes, schedule, k + 1, (qs + more)[i], answers[i]) {
      assert MsnAtSomeTime(nodes, schedule, k, qs[i], answers[i]);
    }
  }

  /** The queue pair's entry after the first steps has counted its packets. */
  lemma EntryCounts(nodes: seq<Node>, schedule: seq<Action>, k: nat, q: nat)
    requires IsRun(nodes, schedule) && k <= |schedule| && |nodes| == |schedule| + 1 && q < |nodes[0].table|
    requires nodes[0].table[q].msn < PSN_SPACE
    ensures var s, log := Start(nodes[0]), Log(nodes, schedule, k);
      && |s.queues| == |s.table| == |nodes[0].table| && QpsBelow(log, |s.table|)
      && MsnAfter(nodes, schedule, k, q, After(s, log).table[q].msn)
  {
    hide *;
    var s, log := Start(nodes[0]), Log(nodes, schedule, k);
    StartTable(nodes[0]);
    Queues.RunServes(nodes, schedule, k);
    CountedAlone(s, log, q);
    CountsUpTo(nodes, schedule, k, q, After(s, log).table[q].msn);
  }

  lemma CountsUpTo(nodes: seq<Node>, schedule: seq<Action>, b: nat, q: nat, m: nat)
    requires b <= |schedule| < |nodes| && q < |nodes[0].table|
    requires m == (nodes[0].table[q].msn + Counted(Queues.PacketsOf(Log(nodes, schedule, b), q))) % PSN_SPACE
    ensures MsnAfter(nodes, schedule, b, q, m)
  {
  }

  lemma CountedAlone(s: Spec, log: seq<Event>, q: nat)
    requires QpsBelow(log, |s.table|) && q < |s.table| == |s.queues| && Queues.AllServed(s, log)
    requires s.table[q].msn < PSN_SPACE
    ensures After(s, log).table[q].msn == (s.table[q].msn + Counted(Queues.PacketsOf(log, q))) % PSN_SPACE
  {
    hide After, ReceiveAll, Queues.PacketsOf, Queues.PushedTo, Queues.OutFor, Queues.AllServed, Queues.Fed, QpsBelow, Counted;
    Queues.QueuePairsAreSeparate(s, log, q);
    MsnCounts(Queues.Primed(s, log, q), Queues.PacketsOf(log, q));
  }

  /** The table answers the transmit side only when no update is on its way. */
  lemma AsksUpToDate(n: Node, s: Spec)
    requires Inv(n, s) && |n.io.tableReq| == 0
    ensures n.table == s.table
  {
  }

  lemma StepConsults(n: Node, a: Action)
    requires QpsExist(n) && Permitted(n, a)
    ensures var n' := Step(n, a);
      if a.RunTable? && |n.io.tableReq| == 0 && |n.txReq| > 0 then
        n.txReq[0] < |n.table| && n'.txReq == n.txReq[1..] && n'.txRsp == n.txRsp + [n.table[n.txReq[0]].msn]
      else
        n'.txRsp == n.txRsp && n'.txReq == n.txReq + (if a.Consult? then [a.qp] else [])
  {
    hide FsmStep;
  }

  ghost predicate CountsFit(n: Node) {
    forall q | 0 <= q < |n.table| :: n.table[q].msn < PSN_SPACE
  }

  lemma OneMoreAnswer(nodes: seq<Node>, schedule: seq<Action>, k: nat, qs: seq<nat>, answers: seq<nat>, m: nat)
    requires k <= |schedule| < |nodes| && Answered(nodes, schedule, k, qs, answers) && |answers| < |qs|
    requires MsnAtSomeTime(nodes, schedule, k, qs[|answers|], m)
    ensures Answered(nodes, schedule, k, qs, answers + [m])
  {
    hide MsnAtSomeTime;
  }

  /** After every step the transmit side's questions have been answered in order, each with the number of packets then completed on its queue pair. */
  lemma {:induction false} AnswersAreCounts(nodes: seq<Node>, schedule: seq<Action>, k: nat)
    requires IsRun(nodes, schedule) && k <= |schedule| && |nodes| == |schedule| + 1 && CountsFit(nodes[0])
    ensures var n, qs := nodes[k], Consulted(schedule[..k]);
      && Answered(nodes, schedule, k, qs, n.txRsp)
      && qs[|n.txRsp|..] == n.txReq
  {
    hide IsRun, Init, Inv, Step, Permitted, QpsExist, Log, After, Answered, MsnAtSomeTime, HandledIn, Arrived, Current, Start, MsnAfter;
    RunSplit(nodes, schedule, 0);
    if k == 0 {
      NothingAsked(nodes, schedule);
    } else {
      AnswersAreCounts(nodes, schedule, k - 1);
      RunSplit(nodes, schedule, k - 1);
      RunsInOrder(nodes, schedule, k - 1);
      var n, n', a, s := nodes[k-1], nodes[k], schedule[k-1], After(Start(nodes[0]), Log(nodes, schedule, k - 1));
      SameTables(n, s);
      StepConsults(n, a);
      assert schedule[..k][..k-1] == schedule[..k-1];
      var qs, more := Consulted(schedule[..k-1]), if a.Consult? then [a.qp] else [];
      AnsweredMeans(nodes, schedule, k - 1, qs, n.txRsp);
      AnsweredLater(nodes, schedule, k - 1, qs, n.txRsp, more);
      if a.RunTable? && |n.io.tableReq| == 0 && |n.txReq| > 0 {
        assert qs + more == qs && qs[|n.txRsp|] == n.txReq[0];
        AsksUpToDate(n, s);
        StartTable(nodes[0]);
        EntryCounts(nodes, schedule, k - 1, n.txReq[0]);
        WasThen(nodes, schedule, k, n.txReq[0], n.table[n.txReq[0]].msn);
        OneMoreAnswer(nodes, schedule, k, qs, n.txRsp, n.table[n.txReq[0]].msn);
      }
    }
  }

  lemma WasThen(nodes: seq<Node>, schedule: seq<Action>, k: nat, q: nat, m: nat)
    requires 0 < k <= |schedule| < |nodes| && MsnAfter(nodes, schedule, k - 1, q, m)
    ensures MsnAtSomeTime(nodes, schedule, k, q, m)
  {
    hide MsnAfter;
  }

  lemma StartTable(n: Node)
    ensures Start(n).table == n.table && Start(n).queues == n.queues
  {
  }

  lemma AnsweredMeans(nodes: seq<Node>, schedule: seq<Action>, k: nat, qs: seq<nat>, answers: seq<nat>)
    requires k <= |schedule| < |nodes| && Answered(nodes, schedule, k, qs, answers)
    ensures |answers| <= |qs|
  {
  }

  lemma NothingAsked(nodes: seq<Node>, schedule: seq<Action>)
    requires |schedule| < |nodes| && Init(nodes[0])
    ensures Answered(nodes, schedule, 0, Consulted(schedule[..0]), nodes[0].txRsp) && Consulted(schedule[..0])[|nodes[0].txRsp|..] == nodes[0].txReq
  {
  }
}
