/**
 * The extended header stage makes progress: under every fair schedule all packets are
 * completed, or the one in progress is of a kind that the machine does not get past, or
 * it takes a read address and there was none when it asked.
 */
module ExtendedHeaderProgress {
  import opened Segments
  import opened ExtendedHeader
  import opened FairRuns

  // ----- the work left -----

  function ReqWork(rs: seq<MsnReq>): nat {
    if |rs| == 0 then 0 else (if rs[0].MsnRead? then 2 else 1) + ReqWork(rs[1..])
  }

  function PhaseWork(s: ExhState): nat {
    match s
    case META => 0
    case DMA_META => 3
    case DATA => 2
  }

  /** An upper bound for the steps that still have an effect if nothing more comes in. */
  function Work(n: Node): nat {
    8 * |n.io.metaIn| + PhaseWork(n.f.state) + ReqWork(n.io.tableReq) + |n.io.tableRsp|
    + 2 * |n.io.popReq| + |n.io.popRsp| + |n.txReq|
  }

  lemma {:induction false} ReqSplit(a: seq<MsnReq>, b: seq<MsnReq>)
    ensures ReqWork(a + b) == ReqWork(a) + ReqWork(b)
  {
    if |a| == 0 {
      assert a + b == b;
    } else {
      assert (a + b)[1..] == a[1..] + b;
      ReqSplit(a[1..], b);
    }
  }

  lemma OneReq(r: MsnReq)
    ensures ReqWork([r]) == if r.MsnRead? then 2 else 1
  {
    assert [r][1..] == [];
  }

  lemma FsmWorks(n: Node)
    requires QpsExist(n)
    ensures var n' := Step(n, RunFsm); n' == n || Work(n') < Work(n)
  {
    hide Receive, Proceeds, WritesEntry, TakesAddress, QpsExist;
    var c := Receive(Pack(n.f.dma, [n.f.readAddr], n.io.out), n.f.packet);
    var write := MsnWrite(n.f.packet.qp, c.dma);
    ReqSplit(n.io.tableReq, [write]);
    OneReq(write);
    if |n.io.metaIn| > 0 {
      var read := MsnRead(n.io.metaIn[0].qp);
      ReqSplit(n.io.tableReq, [read]);
      OneReq(read);
    }
  }

  lemma TableWorks(n: Node)
    requires QpsExist(n)
    ensures TableStep(n) == n || Work(TableStep(n)) < Work(n)
  {
    hide QpsExist;
  }

  lemma QueueWorks(n: Node)
    requires QpsExist(n)
    ensures QueueStep(n) == n || Work(QueueStep(n)) < Work(n)
  {
    hide QpsExist;
  }

  ghost function Processes(): set<Action> {
    {RunFsm, RunTable, RunQueue}
  }

  lemma StepWorks(n: Node, a: Action)
    requires QpsExist(n) && a in Processes()
    ensures Permitted(n, a) && (Step(n, a) == n || Work(Step(n, a)) < Work(n))
  {
    hide QpsExist, Work, FsmStep, TableStep, QueueStep;
    match a {
      case RunFsm => FsmWorks(n);
      case RunTable => TableWorks(n);
      case RunQueue => QueueWorks(n);
    }
  }

  // ----- nothing left to do -----

  ghost predicate Stuck(n: Node) {
    QpsExist(n) && Step(n, RunFsm) == n && TableStep(n) == n && QueueStep(n) == n
  }

  /** Nothing waits and nothing is in progress. */
  predicate Finished(n: Node) {
    n.f.state == META && n.io.metaIn == []
  }

  /** The packet in progress is one that state DATA does not get past, or its read address was not there. */
  predicate Blocked(n: Node) {
    || (n.f.state == DATA && !Proceeds(n.f.packet))
    || (n.f.state == DMA_META && TakesAddress(n.f.packet.op) && n.io.popReq == n.io.popRsp == [])
  }

  lemma QueuesEmpty(n: Node)
    requires QpsExist(n) && TableStep(n) == n && QueueStep(n) == n
    ensures n.io.tableReq == [] && n.txReq == [] && n.io.popReq == []
  {
    hide QpsExist;
  }

  lemma FsmWaits(n: Node)
    requires QpsExist(n) && TableShape(n) && QueueShape(n) && Step(n, RunFsm) == n
    requires n.io.tableReq == [] && n.io.popReq == []
    ensures Finished(n) || Blocked(n)
  {
    hide Receive, Proceeds, WritesEntry, QpsExist;
  }

  /** Progress: nothing is left to do only if the machine has finished or is blocked. */
  lemma StuckMeans(n: Node, s: Spec)
    requires Inv(n, s) && Stuck(n)
    ensures Finished(n) || Blocked(n)
  {
    assert TableShape(n) && QueueShape(n);
    hide Inv, QpsExist, FsmStep, TableStep, QueueStep, TableShape, QueueShape, Finished, Blocked;
    QueuesEmpty(n);
    FsmWaits(n);
  }

  /** Once blocked it stays so, whatever comes in: an address queued too late is not taken. */
  lemma BlockedForever(n: Node, s: Spec, a: Action)
    requires Inv(n, s) && QpsExist(n) && Permitted(n, a) && Blocked(n)
    ensures Blocked(Step(n, a)) && HandledIn(EventOf(n, a)) == []
  {
    assert QueueShape(n);
    hide Inv, Receive, Proceeds, WritesEntry, QpsExist;
    assert !a.Push? ==> EventOf(n, a) == [];
    if a.Push? { OneHandled(n.f.packet); }
  }

  // ----- fair schedules -----

  lemma RunStep(nodes: seq<Node>, schedule: seq<Action>, i: nat)
    requires IsRun(nodes, schedule) && i < |schedule|
    ensures |nodes| == |schedule| + 1 && QpsExist(nodes[i]) && Permitted(nodes[i], schedule[i])
    ensures nodes[i+1] == Step(nodes[i], schedule[i])
  {
    hide IsRun, Inv, Step, Log, After, QpsExist, Permitted, HandledIn, Arrived, Current;
    RunsInOrder(nodes, schedule, i);
    SameTables(nodes[i], After(Start(nodes[0]), Log(nodes, schedule, i)));
    RunSplit(nodes, schedule, i);
  }

  lemma RunWorks(nodes: seq<Node>, schedule: seq<Action>, m: nat)
    requires IsRun(nodes, schedule) && m <= |schedule| && forall i | m <= i < |schedule| :: schedule[i] in Processes()
    ensures Works(nodes, schedule, Work, m) && Deterministic(nodes, schedule, m)
  {
    assert |nodes| == |schedule| + 1 by { RunSplit(nodes, schedule, 0); }
    hide IsRun, Work, Step, QpsExist, Permitted, Processes;
    forall i | m <= i < |schedule|
      ensures QpsExist(nodes[i]) && Permitted(nodes[i], schedule[i]) && nodes[i+1] == Step(nodes[i], schedule[i])
      ensures nodes[i+1] == nodes[i] || Work(nodes[i+1]) < Work(nodes[i])
    {
      RunStep(nodes, schedule, i);
      StepWorks(nodes[i], schedule[i]);
    }
  }

  lemma TriedInVain(nodes: seq<Node>, schedule: seq<Action>, a: Action)
    requires IsRun(nodes, schedule) && Tried(nodes, schedule, a)
    ensures |nodes| == |schedule| + 1 && QpsExist(nodes[|schedule|]) && Permitted(nodes[|schedule|], a)
    ensures Step(nodes[|schedule|], a) == nodes[|schedule|]
  {
    hide IsRun, Step, QpsExist, Permitted;
    var i :| 0 <= i < |schedule| && schedule[i] == a && nodes[i] == nodes[i+1] == nodes[|schedule|];
    RunStep(nodes, schedule, i);
  }

  lemma StepsInVain(n: Node)
    requires QpsExist(n) && Step(n, RunFsm) == n && Step(n, RunTable) == n && Step(n, RunQueue) == n
    ensures Stuck(n)
  {
    hide QpsExist, FsmStep, TableStep, QueueStep;
  }

  lemma AllHandled(n: Node)
    requires Finished(n)
    ensures Current(n) + n.io.metaIn == []
  {
  }

  lemma RoundsFinish(nodes: seq<Node>, schedule: seq<Action>, m: nat, rounds: seq<seq<Action>>)
    requires IsRun(nodes, schedule) && |nodes| == |schedule| + 1 && m <= |schedule|
    requires schedule[m..] == Flat(rounds) && FairRounds(rounds, Processes()) && |rounds| > Work(nodes[m])
    ensures Stuck(nodes[|schedule|])
  {
    FlatActivates(rounds, Processes());
    assert forall i | m <= i < |schedule| :: schedule[i] == schedule[m..][i - m];
    hide IsRun, Work, Step, QpsExist, Permitted, Works, Deterministic, Tried, FairRounds, Stuck;
    RunWorks(nodes, schedule, m);
    RoundsSettle(nodes, schedule, Processes(), Work, m, rounds);
    TriedInVain(nodes, schedule, RunFsm);
    TriedInVain(nodes, schedule, RunTable);
    TriedInVain(nodes, schedule, RunQueue);
    StepsInVain(nodes[|schedule|]);
  }

  /** In every run that ends with fair rounds, more than there was work, all packets that arrived are completed, unless the one in progress is blocked. */
  lemma CompletesUnlessBlocked(nodes: seq<Node>, schedule: seq<Action>, m: nat, rounds: seq<seq<Action>>)
    requires IsRun(nodes, schedule) && |nodes| == |schedule| + 1 && m <= |schedule|
    requires schedule[m..] == Flat(rounds) && FairRounds(rounds, Processes()) && |rounds| > Work(nodes[m])
    ensures HandledIn(Log(nodes, schedule, |schedule|)) == Arrived(schedule) || Blocked(nodes[|schedule|])
  {
    hide IsRun, Work, FairRounds, Stuck, Inv, Log, After, HandledIn, Arrived, Current, Blocked, Finished, Start, Flat;
    var n := nodes[|schedule|];
    RoundsFinish(nodes, schedule, m, rounds);
    RunsInOrder(nodes, schedule, |schedule|);
    assert schedule[..|schedule|] == schedule;
    StuckMeans(n, After(Start(nodes[0]), Log(nodes, schedule, |schedule|)));
    if Finished(n) {
      AllHandled(n);
      var log := Log(nodes, schedule, |schedule|);
      assert HandledIn(log) + [] == HandledIn(log);
    }
  }
}
