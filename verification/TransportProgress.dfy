/**
 * The processes of the transport make progress: under every fair schedule, once nothing
 * more is offered, all packets that have arrived are judged, all packets requested are
 * sent, and the table, the headers and the decisions are those of the whole log.  The
 * same holds for connection setup.
 */
module TransportProgress {
  import opened Psn
  import opened Transport
  import opened TransportNode
  import opened TransportHeaders
  import opened TransportSetup
  import opened FairRuns

  // ----- the work left -----

  function RxReqWork(rs: seq<RxStateReq>): nat {
    if |rs| == 0 then 0 else (if rs[0].RxRead? then 3 else 1) + RxReqWork(rs[1..])
  }

  function TxReqWork(rs: seq<TxStateReq>): nat {
    if |rs| == 0 then 0 else (if rs[0].TxRead? then 3 else 1) + TxReqWork(rs[1..])
  }

  /** An upper bound for the steps that still have an effect if nothing more is offered. */
  ghost function Work(n: Node): nat {
    4 * |n.rxIn| + RxReqWork(n.rxReq) + 2 * |n.rxRsp|
    + 4 * |n.txIn| + TxReqWork(n.txReq) + 2 * |n.txRsp| + |n.ifReq|
  }

  lemma {:induction false} RxReqSplit(a: seq<RxStateReq>, b: seq<RxStateReq>)
    ensures RxReqWork(a + b) == RxReqWork(a) + RxReqWork(b)
  {
    if |a| == 0 {
      assert a + b == b;
    } else {
      assert (a + b)[1..] == a[1..] + b;
      RxReqSplit(a[1..], b);
    }
  }

  lemma {:induction false} TxReqSplit(a: seq<TxStateReq>, b: seq<TxStateReq>)
    ensures TxReqWork(a + b) == TxReqWork(a) + TxReqWork(b)
  {
    if |a| == 0 {
      assert a + b == b;
    } else {
      assert (a + b)[1..] == a[1..] + b;
      TxReqSplit(a[1..], b);
    }
  }

  lemma OneRxReq(r: RxStateReq)
    ensures RxReqWork([r]) == if r.RxRead? then 3 else 1
  {
    assert [r][1..] == [];
  }

  lemma OneTxReq(r: TxStateReq)
    ensures TxReqWork([r]) == if r.TxRead? then 3 else 1
  {
    assert [r][1..] == [];
  }

  lemma RxWorks(n: Node)
    ensures var n' := RxStep(n); n' == n || Work(n') < Work(n)
  {
    JudgeUpdates(n);
    hide Judge, TxReqWork;
    if !n.rxBusy && n.rxIn != [] {
      var r := RxRead(n.rxIn[0].qp, IsResponse(n.rxIn[0].op));
      RxReqSplit(n.rxReq, [r]);
      OneRxReq(r);
    } else if n.rxBusy && n.rxRsp != [] {
      var us := Judge(n.packet, n.rxRsp[0]).updates;
      RxReqSplit(n.rxReq, us);
      if |us| == 1 {
        OneRxReq(us[0]);
        assert us == [us[0]];
      }
    }
  }

  lemma TxWorks(n: Node)
    ensures var n' := TxStep(n); n' == n || Work(n') < Work(n)
  {
    hide RxReqWork, Add;
    if !n.txBusy && n.txIn != [] && !n.txIn[0].validPsn {
      TxReqSplit(n.txReq, [TxRead(n.txIn[0].qp)]);
      OneTxReq(TxRead(n.txIn[0].qp));
    } else if n.txBusy && n.txRsp != [] && n.meta.op != Ack {
      var r := TxWrite(n.meta.qp, Add(n.txRsp[0].reqNextPsn, n.meta.numPkg));
      TxReqSplit(n.txReq, [r]);
      OneTxReq(r);
    }
  }

  lemma TableWorks(n: Node)
    requires InRange(n)
    ensures var n' := TableStep(n); n' == n || Work(n') < Work(n)
  {
    hide InRange, Window, Updated, SetUp;
    if n.rxReq != [] {
      TableServesRx(n);
    } else if n.txReq != [] {
      TableServesTx(n);
    }
  }

  lemma TableServesRx(n: Node)
    requires InRange(n) && n.rxReq != []
    ensures Work(TableStep(n)) < Work(n)
  {
    hide InRange, Window, Updated, SetUp, TxReqWork;
  }

  lemma TableServesTx(n: Node)
    requires InRange(n) && n.rxReq == [] && n.txReq != []
    ensures Work(TableStep(n)) < Work(n)
  {
    hide InRange, Window, Updated, SetUp, RxReqWork;
  }

  ghost function Processes(): set<Action> {
    {RunRx, RunTx, RunTable}
  }

  lemma StepWorks(n: Node, a: Action)
    requires InRange(n) && a in Processes()
    ensures Step(n, a) == n || Work(Step(n, a)) < Work(n)
  {
    hide InRange, Work, RxStep, TxStep, TableStep;
    match a {
      case RunRx => RxWorks(n);
      case RunTx => TxWorks(n);
      case RunTable => TableWorks(n);
    }
  }

  // ----- nothing left to do -----

  ghost predicate Stuck(n: Node) {
    InRange(n) && RxStep(n) == n && TxStep(n) == n && TableStep(n) == n
  }

  ghost predicate AtRest(n: Node) {
    && !n.rxBusy && n.rxIn == [] && n.rxReq == [] && n.rxRsp == []
    && !n.txBusy && n.txIn == [] && n.txReq == [] && n.txRsp == [] && n.ifReq == []
  }

  lemma TableEmpty(n: Node)
    requires InRange(n) && TableStep(n) == n
    ensures n.rxReq == [] && n.txReq == [] && n.ifReq == []
  {
    hide InRange, Window, Updated, SetUp;
  }

  lemma RxEmpty(n: Node)
    requires RxStep(n) == n && RxShape(n) && n.rxReq == []
    ensures !n.rxBusy && n.rxIn == [] && n.rxRsp == []
  {
    hide Judge, PendingRx;
  }

  lemma TxEmpty(n: Node)
    requires TxStep(n) == n && TxShape(n) && n.txReq == []
    ensures !n.txBusy && n.txIn == [] && n.txRsp == []
  {
    hide Add, Unsent;
  }

  /** The processes never wait for each other in a circle. */
  lemma StuckRests(n: Node, t: seq<StateEntry>, log: seq<Event>)
    requires Inv(n, t, log) && Stuck(n)
    ensures AtRest(n)
  {
    assert RxShape(n) && TxShape(n);
    hide Inv, InRange, RxStep, TxStep, TableStep, RxShape, TxShape;
    TableEmpty(n);
    RxEmpty(n);
    TxEmpty(n);
  }

  // ----- fair schedules -----

  lemma RunStep(nodes: seq<Node>, schedule: seq<Action>, i: nat)
    requires IsRun(nodes, schedule) && i < |schedule|
    ensures |nodes| == |schedule| + 1 && InRange(nodes[i]) && nodes[i+1] == Step(nodes[i], schedule[i])
  {
    hide IsRun, Inv, Step, Log, ReceivedIn, SentIn, Underway, Arrived, Requested, Unread;
    RunInv(nodes, schedule, i);
    assert InRange(nodes[i]) by { InvInRange(nodes[i], nodes[0].table, Log(nodes, schedule, i)); }
    RunSplit(nodes, schedule, i);
  }

  lemma InvInRange(n: Node, t: seq<StateEntry>, log: seq<Event>)
    requires Inv(n, t, log)
    ensures InRange(n)
  {
    hide InRange, RxInv, TxInv;
  }

  lemma RunWorks(nodes: seq<Node>, schedule: seq<Action>, m: nat)
    requires IsRun(nodes, schedule) && m <= |schedule| && forall i | m <= i < |schedule| :: schedule[i] in Processes()
    ensures Works(nodes, schedule, Work, m) && Deterministic(nodes, schedule, m)
  {
    RunShape(nodes, schedule);
    hide IsRun, Work, Step, InRange, Init, Processes;
    forall i | m <= i < |schedule|
      ensures InRange(nodes[i]) && nodes[i+1] == Step(nodes[i], schedule[i])
      ensures nodes[i+1] == nodes[i] || Work(nodes[i+1]) < Work(nodes[i])
    {
      RunStep(nodes, schedule, i);
      StepWorks(nodes[i], schedule[i]);
    }
  }

  lemma TriedInVain(nodes: seq<Node>, schedule: seq<Action>, a: Action)
    requires IsRun(nodes, schedule) && Tried(nodes, schedule, a)
    ensures |nodes| == |schedule| + 1 && InRange(nodes[|schedule|]) && Step(nodes[|schedule|], a) == nodes[|schedule|]
  {
    hide IsRun, Step, InRange;
    var i :| 0 <= i < |schedule| && schedule[i] == a && nodes[i] == nodes[i+1] == nodes[|schedule|];
    RunStep(nodes, schedule, i);
  }

  lemma StepsInVain(n: Node)
    requires InRange(n) && Step(n, RunRx) == n && Step(n, RunTx) == n && Step(n, RunTable) == n
    ensures Stuck(n)
  {
    hide InRange, RxStep, TxStep, TableStep;
  }

  lemma RoundsFinish(nodes: seq<Node>, schedule: seq<Action>, m: nat, rounds: seq<seq<Action>>)
    requires IsRun(nodes, schedule) && |nodes| == |schedule| + 1 && m <= |schedule|
    requires schedule[m..] == Flat(rounds) && FairRounds(rounds, Processes()) && |rounds| > Work(nodes[m])
    ensures Stuck(nodes[|schedule|])
  {
    FlatActivates(rounds, Processes());
    assert forall i | m <= i < |schedule| :: schedule[i] == schedule[m..][i - m];
    hide IsRun, Work, Step, InRange, Works, Deterministic, Tried, FairRounds, Stuck;
    RunWorks(nodes, schedule, m);
    RoundsSettle(nodes, schedule, Processes(), Work, m, rounds);
    TriedInVain(nodes, schedule, RunRx);
    TriedInVain(nodes, schedule, RunTx);
    TriedInVain(nodes, schedule, RunTable);
    StepsInVain(nodes[|schedule|]);
  }

  lemma RestMeans(n: Node, t: seq<StateEntry>, log: seq<Event>)
    requires Inv(n, t, log) && AtRest(n)
    ensures Unread(n) + n.rxIn == [] && Underway(n) == [] && Unsent(n) == []
    ensures QpsBelow(log, |t|) && n.table == After(t, log) && n.rxOut == Emitted(t, log) && RequestHeaders(n.headers) == HeadersSent(t, log)
  {
    hide After, Emitted, HeadersSent, RequestHeaders, Judge, InRange;
    assert PendingRx(n) == [];
    assert HeadersSent(t, log) + [] == HeadersSent(t, log);
  }

  /**
   * Progress: in every run that ends with fair rounds, more than there was work, all
   * packets that arrived have been judged and all packets requested have been sent; the
   * node holds and has emitted exactly what the whole log says.
   */
  lemma AllIsDone(nodes: seq<Node>, schedule: seq<Action>, m: nat, rounds: seq<seq<Action>>)
    requires IsRun(nodes, schedule) && |nodes| == |schedule| + 1 && m <= |schedule|
    requires schedule[m..] == Flat(rounds) && FairRounds(rounds, Processes()) && |rounds| > Work(nodes[m])
    ensures var n, t, log := nodes[|schedule|], nodes[0].table, Log(nodes, schedule, |schedule|);
      && AtRest(n) && QpsBelow(log, |t|)
      && ReceivedIn(log) == Arrived(schedule) && SentIn(log) == Requested(schedule)
      && n.table == After(t, log) && n.rxOut == Emitted(t, log)
      && RequestHeaders(n.headers) == HeadersSent(t, log) && MetasOf(n.headers) == AllRequested(schedule)
  {
    hide IsRun, Inv, Work, Stuck, AtRest, Log, ReceivedIn, SentIn, Arrived, Requested, After, Emitted, HeadersSent, RequestHeaders,
      MetasOf, AllRequested, QpsBelow, FairRounds, Flat, Unread, Underway, OwnPsns;
    RoundsFinish(nodes, schedule, m, rounds);
    RunInv(nodes, schedule, |schedule|);
    HeadersAreRequests(nodes, schedule, |schedule|);
    assert schedule[..|schedule|] == schedule;
    var n, t, log := nodes[|schedule|], nodes[0].table, Log(nodes, schedule, |schedule|);
    StuckRests(n, t, log);
    RestMeans(n, t, log);
    Emptied(n);
    assert ReceivedIn(log) + [] == ReceivedIn(log) && SentIn(log) + [] == SentIn(log);
    assert MetasOf(n.headers) + [] + [] == MetasOf(n.headers);
  }

  lemma Emptied(n: Node)
    requires AtRest(n)
    ensures TransportHeaders.InHand(n) == [] && n.txIn == []
  {
  }

  /** Every run can go on with any activations, so with fair rounds. */
  lemma {:induction false} Continues(nodes: seq<Node>, schedule: seq<Action>, more: seq<Action>) returns (nodes': seq<Node>)
    requires IsRun(nodes, schedule) && forall i | 0 <= i < |more| :: more[i] in Processes()
    ensures IsRun(nodes', schedule + more) && nodes <= nodes'
    decreases |more|
  {
    if |more| == 0 {
      nodes' := nodes;
      assert schedule + more == schedule;
    } else {
      hide IsRun;
      var m := more[..|more|-1];
      var u := Continues(nodes, schedule, m);
      assert schedule + more == (schedule + m) + [more[|more|-1]];
      nodes' := OneMore(u, schedule + m, more[|more|-1]);
    }
  }

  lemma OneMore(nodes: seq<Node>, schedule: seq<Action>, a: Action) returns (nodes': seq<Node>)
    requires IsRun(nodes, schedule) && a in Processes()
    ensures IsRun(nodes', schedule + [a]) && nodes <= nodes'
  {
    RunShape(nodes, schedule);
    var n := nodes[|schedule|];
    assert InRange(n) by {
      RunInv(nodes, schedule, |schedule|);
      InvInRange(n, nodes[0].table, Log(nodes, schedule, |schedule|));
    }
    nodes' := nodes + [Step(n, a)];
    forall i | 0 <= i < |schedule| + 1
      ensures Permitted(nodes'[i], (schedule + [a])[i])
      ensures InRange(nodes'[i]) ==> nodes'[i+1] == Step(nodes'[i], (schedule + [a])[i])
    {
      if i < |schedule| {
        RunSplit(nodes, schedule, i);
        assert nodes'[i] == nodes[i] && nodes'[i+1] == nodes[i+1];
      }
    }
    hide Init, InRange, Step, Permitted;
  }

  // ----- connection setup -----

  function IfReqWork(rs: seq<IfStateReq>): nat {
    if |rs| == 0 then 0 else (if rs[0].IfRead? then 3 else 1) + IfReqWork(rs[1..])
  }

  ghost function SettingWork(s: Setting): nat {
    4 * |s.qpi.contexts| + IfReqWork(s.node.ifReq) + 2 * |s.node.ifRsp|
  }

  ghost function Turns(): set<Turn> {
    {RunInterface, RunStateTable}
  }

  lemma {:induction false} IfReqSplit(a: seq<IfStateReq>, b: seq<IfStateReq>)
    ensures IfReqWork(a + b) == IfReqWork(a) + IfReqWork(b)
  {
    if |a| == 0 {
      assert a + b == b;
    } else {
      assert (a + b)[1..] == a[1..] + b;
      IfReqSplit(a[1..], b);
    }
  }

  lemma OneIfReq(r: IfStateReq)
    ensures IfReqWork([r]) == if r.IfRead? then 3 else 1
  {
    assert [r][1..] == [];
  }

  lemma InterfaceWorks(s: Setting)
    ensures var s' := InterfaceStep(s); s' == s || SettingWork(s') < SettingWork(s)
  {
    var i, n := s.qpi, s.node;
    if !i.waiting && i.contexts != [] {
      IfReqSplit(n.ifReq, [IfRead(i.contexts[0].qp)]);
      OneIfReq(IfRead(i.contexts[0].qp));
    } else if i.waiting && n.ifRsp != [] {
      var r := IfWrite(i.context.qp, i.context.remotePsn, i.context.localPsn);
      IfReqSplit(n.ifReq, [r]);
      OneIfReq(r);
    }
  }

  lemma TurnWorks(s: Setting, t: seq<StateEntry>, cs: seq<QpContext>, a: Turn)
    requires SetupInv(s, t, cs) && InRange(s.node) && a in Turns()
    ensures Next(s, a) == s || SettingWork(Next(s, a)) < SettingWork(s)
  {
    hide SetUpAll, SetUp, InRange, ContextsBelow, Written;
    if a.RunInterface? {
      InterfaceWorks(s);
    } else {
      var n := s.node;
      assert n.rxReq == [] && n.txReq == [];
      assert n.ifReq == [] ==> TableStep(n) == n;
    }
  }

  lemma SetupStep(run: seq<Setting>, schedule: seq<Turn>, i: nat)
    requires IsSetup(run, schedule) && i < |schedule|
    ensures |run| == |schedule| + 1 && InRange(run[i].node) && run[i+1] == Next(run[i], schedule[i])
    ensures SetupInv(run[i], run[0].node.table, Ordered(run, schedule, i))
  {
    hide IsSetup, SetupInv, Next, InRange, Idle, Ordered, Offered, TransportSetup.InHand;
    SetupRunInv(run, schedule, i);
    SetupInRange(run[i], run[0].node.table, Ordered(run, schedule, i));
    SetupSplit(run, schedule, i);
  }

  lemma SetupWorks(run: seq<Setting>, schedule: seq<Turn>, m: nat)
    requires IsSetup(run, schedule) && m <= |schedule| && forall i | m <= i < |schedule| :: schedule[i] in Turns()
    ensures Works(run, schedule, SettingWork, m) && Deterministic(run, schedule, m)
  {
    assert |run| == |schedule| + 1 by { SetupSplit(run, schedule, 0); }
    hide IsSetup, SettingWork, Next, InRange, Turns, SetupInv;
    forall i | m <= i < |schedule|
      ensures InRange(run[i].node) && run[i+1] == Next(run[i], schedule[i])
      ensures run[i+1] == run[i] || SettingWork(run[i+1]) < SettingWork(run[i])
    {
      SetupStep(run, schedule, i);
      TurnWorks(run[i], run[0].node.table, Ordered(run, schedule, i), schedule[i]);
    }
  }

  lemma TurnInVain(run: seq<Setting>, schedule: seq<Turn>, a: Turn)
    requires IsSetup(run, schedule) && Tried(run, schedule, a)
    ensures |run| == |schedule| + 1 && InRange(run[|schedule|].node) && Next(run[|schedule|], a) == run[|schedule|]
  {
    hide IsSetup, Next, InRange, SetupInv;
    var i :| 0 <= i < |schedule| && schedule[i] == a && run[i] == run[i+1] == run[|schedule|];
    SetupStep(run, schedule, i);
  }

  lemma StuckIsDone(s: Setting, t: seq<StateEntry>, cs: seq<QpContext>)
    requires SetupInv(s, t, cs) && InRange(s.node) && Next(s, RunInterface) == s && Next(s, RunStateTable) == s
    ensures Done(s)
  {
    hide SetUpAll, SetUp, ContextsBelow, Written;
    TableEmpty(s.node);
  }

  /** Progress of setup: after more fair rounds than there was work, all contexts are set up. */
  lemma SetupCompletes(run: seq<Setting>, schedule: seq<Turn>, m: nat, rounds: seq<seq<Turn>>)
    requires IsSetup(run, schedule) && |run| == |schedule| + 1 && m <= |schedule|
    requires schedule[m..] == Flat(rounds) && FairRounds(rounds, Turns()) && |rounds| > SettingWork(run[m])
    ensures Done(run[|schedule|])
  {
    FlatActivates(rounds, Turns());
    assert forall i | m <= i < |schedule| :: schedule[i] == schedule[m..][i - m];
    hide IsSetup, SettingWork, Next, InRange, Works, Deterministic, Tried, FairRounds, SetupInv, Done, Offered;
    SetupWorks(run, schedule, m);
    RoundsSettle(run, schedule, Turns(), SettingWork, m, rounds);
    TurnInVain(run, schedule, RunInterface);
    TurnInVain(run, schedule, RunStateTable);
    SetupRunInv(run, schedule, |schedule|);
    StuckIsDone(run[|schedule|], run[0].node.table, Ordered(run, schedule, |schedule|));
  }
}
