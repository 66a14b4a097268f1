/**
 * Connection setup: the connection interface asks the state table for a queue pair's
 * entry and then has it written.  What a queue pair does from then on, told by its
 * first requests, its first headers and its first NAK; two queue pairs set up with each
 * other's PSNs meet what the transport promises are stated for.
 */
module TransportSetup {
  import opened Psn
  import opened Transport
  import opened TransportNode
  import opened TransportSafety
  import opened TransportNetwork

  datatype QpContext = QpContext(qp: nat, remotePsn: Psn, localPsn: Psn)

  // qp_interface: contexts to set up, and the one in hand while it waits for the state table.
  datatype Interface = Interface(contexts: seq<QpContext>, waiting: bool, context: QpContext)

  datatype Setting = Setting(qpi: Interface, node: Node)

  /** qp_interface */
  ghost function InterfaceStep(s: Setting): Setting {
    var i, n := s.qpi, s.node;
    if !i.waiting then
      if i.contexts == [] then s
      else
        Setting(Interface(i.contexts[1..], true, i.contexts[0]), n.(ifReq := n.ifReq + [IfRead(i.contexts[0].qp)]))
    else if n.ifRsp == [] then s
    else
      Setting(i.(waiting := false),
              n.(ifRsp := n.ifRsp[1..], ifReq := n.ifReq + [IfWrite(i.context.qp, i.context.remotePsn, i.context.localPsn)]))
  }

  // ----- runs -----

  datatype Turn = Offer(c: QpContext) | RunInterface | RunStateTable

  ghost function Next(s: Setting, a: Turn): Setting
    requires InRange(s.node)
  {
    match a
    case Offer(c) => s.(qpi := s.qpi.(contexts := s.qpi.contexts + [c]))
    case RunInterface => InterfaceStep(s)
    case RunStateTable => s.(node := TableStep(s.node))
  }

  /** Before traffic: nothing waits anywhere. */
  ghost predicate Idle(s: Setting) {
    s.qpi.contexts == [] && !s.qpi.waiting && Init(s.node)
  }

  ghost predicate IsSetup(run: seq<Setting>, schedule: seq<Turn>) {
    && |run| == |schedule| + 1
    && Idle(run[0])
    && forall i | 0 <= i < |schedule| ::
         && (schedule[i].Offer? ==> schedule[i].c.qp < |run[i].node.table|)
         && (InRange(run[i].node) ==> run[i+1] == Next(run[i], schedule[i]))
  }

  ghost function Offered(schedule: seq<Turn>): seq<QpContext> {
    if schedule == [] then []
    else
      var a := schedule[|schedule|-1];
      Offered(schedule[..|schedule|-1]) + (if a.Offer? then [a.c] else [])
  }

  /** The contexts whose setup has been ordered. */
  ghost function Ordered(run: seq<Setting>, schedule: seq<Turn>, k: nat): seq<QpContext>
    requires k <= |schedule| < |run|
  {
    if k == 0 then [] else Ordered(run, schedule, k - 1) + OrderedBy(run[k-1], schedule[k-1])
  }

  /** The context whose setup is ordered by a step. */
  ghost function OrderedBy(s: Setting, a: Turn): seq<QpContext> {
    if a.RunInterface? && s.qpi.waiting && s.node.ifRsp != [] then [s.qpi.context] else []
  }

  predicate ContextsBelow(cs: seq<QpContext>, n: nat) {
    forall i | 0 <= i < |cs| :: cs[i].qp < n
  }

  function SetUpAll(t: seq<StateEntry>, cs: seq<QpContext>): (t': seq<StateEntry>)
    requires ContextsBelow(cs, |t|)
    ensures |t'| == |t|
  {
    if |cs| == 0 then t
    else
      var c := cs[|cs|-1];
      SetUpAll(t, cs[..|cs|-1])[c.qp := SetUp(c.remotePsn, c.localPsn)]
  }

  // ----- the invariant -----

  ghost function OrderedWrite(n: Node): seq<IfStateReq> {
    if n.ifReq != [] && n.ifReq[0].IfWrite? then [n.ifReq[0]] else []
  }

  ghost function Written(t: seq<StateEntry>, ws: seq<IfStateReq>): (t': seq<StateEntry>)
    requires forall i | 0 <= i < |ws| :: ws[i].IfWrite? && ws[i].qp < |t|
    ensures |t'| == |t|
  {
    if ws == [] then t else t[ws[0].qp := SetUp(ws[0].remotePsn, ws[0].localPsn)]
  }

  ghost function InHand(i: Interface): seq<QpContext> {
    (if i.waiting then [i.context] else []) + i.contexts
  }

  ghost predicate Quiet(n: Node) {
    n.rxIn == [] && n.rxReq == [] && n.rxRsp == [] && !n.rxBusy && n.rxOut == RxOut([], [], [], [], 0)
    && n.txIn == [] && n.txReq == [] && n.txRsp == [] && !n.txBusy && n.headers == []
  }

  ghost predicate SetupInv(s: Setting, t: seq<StateEntry>, cs: seq<QpContext>) {
    var n, ws := s.node, OrderedWrite(s.node);
    && Quiet(n) && |n.table| == |t| && ContextsBelow(cs, |t|) && ContextsBelow(InHand(s.qpi), |t|)
    && (forall i | 0 <= i < |ws| :: ws[i].qp < |n.table|)
    && Written(n.table, ws) == SetUpAll(t, cs)
    && (if !s.qpi.waiting then n.ifRsp == [] && n.ifReq == ws
        else
          || (n.ifRsp == [] && n.ifReq == ws + [IfRead(s.qpi.context.qp)])
          || (n.ifReq == [] && |n.ifRsp| == 1))
  }

  lemma SetupInRange(s: Setting, t: seq<StateEntry>, cs: seq<QpContext>)
    requires SetupInv(s, t, cs)
    ensures InRange(s.node)
  {
    hide SetUpAll, SetUp;
    var c := s.qpi.context;
    assert s.qpi.waiting ==> InHand(s.qpi)[0] == c;
  }

  lemma OneMoreContext(t: seq<StateEntry>, cs: seq<QpContext>, c: QpContext)
    requires ContextsBelow(cs, |t|) && c.qp < |t|
    ensures ContextsBelow(cs + [c], |t|)
    ensures SetUpAll(t, cs + [c]) == SetUpAll(t, cs)[c.qp := SetUp(c.remotePsn, c.localPsn)]
  {
    assert (cs + [c])[..|cs|] == cs;
  }

  lemma TakesContext(s: Setting, t: seq<StateEntry>, cs: seq<QpContext>)
    requires SetupInv(s, t, cs) && !s.qpi.waiting
    ensures SetupInv(InterfaceStep(s), t, cs) && InHand(InterfaceStep(s).qpi) == InHand(s.qpi)
  {
    hide SetUpAll, SetUp;
    var s' := InterfaceStep(s);
    if s.qpi.contexts != [] {
      assert InHand(s'.qpi) == InHand(s.qpi) == s.qpi.contexts;
      assert OrderedWrite(s'.node) == OrderedWrite(s.node);
    }
  }

  lemma OrdersSetup(s: Setting, t: seq<StateEntry>, cs: seq<QpContext>)
    requires SetupInv(s, t, cs) && s.qpi.waiting && s.node.ifRsp != []
    ensures SetupInv(InterfaceStep(s), t, cs + [s.qpi.context])
    ensures InHand(s.qpi) == [s.qpi.context] + InHand(InterfaceStep(s).qpi)
  {
    hide SetUpAll, SetUp;
    var s', c := InterfaceStep(s), s.qpi.context;
    assert InHand(s.qpi)[0] == c;
    assert forall i | 0 <= i < |s.qpi.contexts| :: InHand(s.qpi)[i + 1] == s.qpi.contexts[i];
    OneMoreContext(t, cs, c);
    assert OrderedWrite(s'.node) == [IfWrite(c.qp, c.remotePsn, c.localPsn)];
  }

  lemma TableSetsUp(s: Setting, t: seq<StateEntry>, cs: seq<QpContext>)
    requires SetupInv(s, t, cs) && InRange(s.node)
    ensures SetupInv(s.(node := TableStep(s.node)), t, cs)
  {
    hide SetUpAll, SetUp, InRange;
    var n, n' := s.node, TableStep(s.node);
    if n.ifReq != [] {
      assert OrderedWrite(n') == [];
    }
  }

  lemma OffersContext(s: Setting, t: seq<StateEntry>, cs: seq<QpContext>, c: QpContext)
    requires SetupInv(s, t, cs) && c.qp < |t|
    ensures var s' := s.(qpi := s.qpi.(contexts := s.qpi.contexts + [c]));
      SetupInv(s', t, cs) && InHand(s'.qpi) == InHand(s.qpi) + [c]
  {
    hide SetUpAll, SetUp;
    var s' := s.(qpi := s.qpi.(contexts := s.qpi.contexts + [c]));
    assert InHand(s'.qpi) == InHand(s.qpi) + [c];
  }

  lemma SetupSplit(run: seq<Setting>, schedule: seq<Turn>, k: nat)
    requires IsSetup(run, schedule)
    ensures |run| == |schedule| + 1 && Idle(run[0])
    ensures k < |schedule| ==>
      && (schedule[k].Offer? ==> schedule[k].c.qp < |run[k].node.table|)
      && (InRange(run[k].node) ==> run[k+1] == Next(run[k], schedule[k]))
  {
    hide Idle, InRange, Next;
  }

  lemma IdleInv(s: Setting)
    requires Idle(s)
    ensures SetupInv(s, s.node.table, []) && InHand(s.qpi) == []
  {
  }

  lemma SameLengths(s: Setting, t: seq<StateEntry>, cs: seq<QpContext>)
    requires SetupInv(s, t, cs)
    ensures |s.node.table| == |t|
  {
  }

  lemma InterfaceKeeps(s: Setting, t: seq<StateEntry>, cs: seq<QpContext>)
    requires SetupInv(s, t, cs)
    ensures var s', more := InterfaceStep(s), OrderedBy(s, RunInterface);
      SetupInv(s', t, cs + more) && InHand(s.qpi) == more + InHand(s'.qpi)
  {
    hide SetupInv, InHand;
    if s.qpi.waiting && s.node.ifRsp != [] {
      OrdersSetup(s, t, cs);
    } else {
      assert cs + OrderedBy(s, RunInterface) == cs;
      if !s.qpi.waiting { TakesContext(s, t, cs); }
    }
  }

  lemma TurnKeeps(s: Setting, t: seq<StateEntry>, cs: seq<QpContext>, a: Turn)
    requires SetupInv(s, t, cs) && InRange(s.node) && (a.Offer? ==> a.c.qp < |t|)
    ensures var s', more := Next(s, a), OrderedBy(s, a);
      && SetupInv(s', t, cs + more)
      && (cs + more) + InHand(s'.qpi) == (cs + InHand(s.qpi)) + (if a.Offer? then [a.c] else [])
  {
    hide SetupInv, InHand, InterfaceStep, TableStep, InRange;
    if a.RunInterface? {
      InterfaceKeeps(s, t, cs);
      Associates(cs, OrderedBy(s, a), InHand(Next(s, a).qpi));
    } else {
      assert cs + OrderedBy(s, a) == cs;
      if a.Offer? {
        OffersContext(s, t, cs, a.c);
        Associates(cs, InHand(s.qpi), [a.c]);
      } else {
        TableSetsUp(s, t, cs);
      }
    }
  }

  /** After every step of a setup the table is that of the setups ordered, in order, up to the one on its way. */
  lemma {:induction false} SetupRunInv(run: seq<Setting>, schedule: seq<Turn>, k: nat)
    requires IsSetup(run, schedule) && k <= |schedule|
    ensures |run| == |schedule| + 1
    ensures SetupInv(run[k], run[0].node.table, Ordered(run, schedule, k))
    ensures Ordered(run, schedule, k) + InHand(run[k].qpi) == Offered(schedule[..k])
  {
    hide IsSetup, Idle, SetupInv, Next, InRange, InHand, OrderedBy;
    SetupSplit(run, schedule, 0);
    if k == 0 {
      IdleInv(run[0]);
    } else {
      SetupRunInv(run, schedule, k - 1);
      SetupSplit(run, schedule, k - 1);
      var s, t, cs := run[k-1], run[0].node.table, Ordered(run, schedule, k - 1);
      SetupInRange(s, t, cs);
      SameLengths(s, t, cs);
      assert schedule[..k][..k-1] == schedule[..k-1];
      TurnKeeps(s, t, cs, schedule[k-1]);
    }
  }

  // ----- what a queue pair that has been set up does -----

  /** No request at this PSN has come in on q. */
  predicate NoneAt(ps: seq<Packet>, q: nat, psn: Psn) {
    forall i | 0 <= i < |ps| && RequestOn(ps[i], q) :: ps[i].psn != psn
  }

  predicate AnyOn(ps: seq<Packet>, q: nat) {
    exists i :: 0 <= i < |ps| && RequestOn(ps[i], q)
  }

  /** Until a request at the local PSN arrives none is accepted, and the first one there is draws the only NAK. */
  ghost predicate RespondsFrom(t: seq<StateEntry>, q: nat, localPsn: Psn)
    requires q < |t|
  {
    forall log: seq<Event> | QpsBelow(log, |t|) && NoneAt(ReceivedIn(log), q, localPsn) :: FirstAt(t, log, q, localPsn)
  }

  ghost predicate FirstAt(t: seq<StateEntry>, log: seq<Event>, q: nat, localPsn: Psn)
    requires q < |t| && QpsBelow(log, |t|)
  {
    && (forall p | RequestOn(p, q) :: Accepted(After(t, log)[q], p) <==> p.psn == localPsn)
    && NakPsns(Emitted(t, log).events, q) == (if AnyOn(ReceivedIn(log), q) then [localPsn] else [])
  }

  /** The requests sent start from the remote PSN and leave no gap; at first nothing is outstanding, and a read response is accepted at that PSN only. */
  ghost predicate RequestsFrom(t: seq<StateEntry>, q: nat, remotePsn: Psn)
    requires q < |t|
  {
    && (forall log: seq<Event> | QpsBelow(log, |t|) :: Consecutive(OnQp(HeadersSent(t, log), q), remotePsn))
    && Outstanding(t[q]) == 0
    && (forall p: Packet | p.qp == q && IsResponse(p.op) && p.op != Ack :: Accepted(t[q], p) <==> p.psn == remotePsn)
  }

  ghost predicate BeginsAt(t: seq<StateEntry>, q: nat, remotePsn: Psn, localPsn: Psn) {
    q < |t| && RespondsFrom(t, q, localPsn) && RequestsFrom(t, q, remotePsn)
  }

  /** The decision for a request that is not the first one. */
  lemma BeforeFirst(r: Responder, p: Packet, q: nat, localPsn: Psn)
    requires RequestOn(p, q) && p.psn != localPsn
    requires r == Responder(localPsn, localPsn, 7) || r == Responder(localPsn, localPsn, 6)
    ensures Handle(r, p) == Responder(localPsn, localPsn, 6)
    ensures var events := Judge(p, Asked(r)).out.events;
      |events| > 0 && events[0].isNak <==> r.retry == 7
  {
  }

  lemma {:induction false} UntilFirst(r: Responder, ps: seq<Packet>, q: nat, localPsn: Psn)
    requires r == Responder(localPsn, localPsn, 7) && NoneAt(ps, q, localPsn)
    ensures Handled(r, ps, q) == (if AnyOn(ps, q) then r.(retry := 6) else r)
    ensures ExpectedAtNaks(r, ps, q) == if AnyOn(ps, q) then [localPsn] else []
  {
    hide Handle, Judge;
    if |ps| > 0 {
      var k := |ps| - 1;
      UntilFirst(r, ps[..k], q, localPsn);
      AnyOfLast(ps, q);
      if RequestOn(ps[k], q) {
        BeforeFirst(Handled(r, ps[..k], q), ps[k], q, localPsn);
      }
    }
  }

  lemma AnyOfLast(ps: seq<Packet>, q: nat)
    requires |ps| > 0
    ensures AnyOn(ps, q) <==> AnyOn(ps[..|ps|-1], q) || RequestOn(ps[|ps|-1], q)
  {
    var k := |ps| - 1;
    if AnyOn(ps[..k], q) {
      var i :| 0 <= i < k && RequestOn(ps[..k][i], q);
      assert RequestOn(ps[i], q);
    }
    if AnyOn(ps, q) && !RequestOn(ps[k], q) {
      var i :| 0 <= i < |ps| && RequestOn(ps[i], q);
      assert RequestOn(ps[..k][i], q);
    }
  }

  lemma AcceptsAtExpected(e: StateEntry, p: Packet, q: nat)
    requires RequestOn(p, q)
    ensures Accepted(e, p) <==> p.psn == ResponderOf(e).epsn
  {
  }

  lemma SetUpResponds(t: seq<StateEntry>, q: nat, remotePsn: Psn, localPsn: Psn)
    requires q < |t| && t[q] == SetUp(remotePsn, localPsn)
    ensures RespondsFrom(t, q, localPsn)
  {
    assert ResponderOf(t[q]) == Responder(localPsn, localPsn, 7);
    hide SetUp, Accepted, Handled, ExpectedAtNaks, NakPsns, After, Emitted, NoneAt, AnyOn, QpsBelow, ReceivedIn, RequestOn;
    forall log: seq<Event> | QpsBelow(log, |t|) && NoneAt(ReceivedIn(log), q, localPsn)
      ensures FirstAt(t, log, q, localPsn)
    {
      UntilFirst(ResponderOf(t[q]), ReceivedIn(log), q, localPsn);
      LogHandles(t, log, q);
      LogNaks(t, log, q);
      forall p | RequestOn(p, q) ensures Accepted(After(t, log)[q], p) <==> p.psn == localPsn {
        AcceptsAtExpected(After(t, log)[q], p, q);
      }
    }
  }

  lemma SetUpRequests(t: seq<StateEntry>, q: nat, remotePsn: Psn, localPsn: Psn)
    requires q < |t| && t[q] == SetUp(remotePsn, localPsn)
    ensures RequestsFrom(t, q, remotePsn)
  {
    hide Consecutive, OnQp, HeadersSent, QpsBelow;
    forall log: seq<Event> | QpsBelow(log, |t|)
      ensures Consecutive(OnQp(HeadersSent(t, log), q), remotePsn)
    {
      PsnsAreConsecutive(t, log, q);
    }
    DistCases(remotePsn, remotePsn);
  }

  // ----- the contexts of a setup -----

  /** The last context for q among those offered. */
  predicate LastFor(cs: seq<QpContext>, q: nat, c: QpContext) {
    exists i :: 0 <= i < |cs| && cs[i] == c && c.qp == q && forall j | i < j < |cs| :: cs[j].qp != q
  }

  lemma LastBefore(cs: seq<QpContext>, q: nat, c: QpContext)
    requires |cs| > 0 && LastFor(cs, q, c)
    ensures if cs[|cs|-1].qp == q then c == cs[|cs|-1] else LastFor(cs[..|cs|-1], q, c)
  {
    var k := |cs| - 1;
    var i :| 0 <= i < |cs| && cs[i] == c && c.qp == q && forall j | i < j < |cs| :: cs[j].qp != q;
    if cs[k].qp != q {
      assert cs[..k][i] == c;
    }
  }

  lemma {:induction false} LastCounts(t: seq<StateEntry>, cs: seq<QpContext>, q: nat)
    requires ContextsBelow(cs, |t|) && q < |t|
    ensures forall c | LastFor(cs, q, c) :: SetUpAll(t, cs)[q] == SetUp(c.remotePsn, c.localPsn)
    ensures (forall i | 0 <= i < |cs| :: cs[i].qp != q) ==> SetUpAll(t, cs)[q] == t[q]
  {
    hide SetUp, LastFor;
    if |cs| == 0 {
      NoLast(q);
    } else {
      LastCounts(t, cs[..|cs|-1], q);
      forall c | LastFor(cs, q, c)
        ensures SetUpAll(t, cs)[q] == SetUp(c.remotePsn, c.localPsn)
      {
        LastBefore(cs, q, c);
      }
    }
  }

  lemma NoLast(q: nat)
    ensures forall c :: !LastFor([], q, c)
  {
  }

  /** Nothing is left to do. */
  ghost predicate Done(s: Setting) {
    s.qpi.contexts == [] && !s.qpi.waiting && s.node.ifReq == []
  }

  lemma DoneMeans(s: Setting, t: seq<StateEntry>, cs: seq<QpContext>)
    requires SetupInv(s, t, cs) && Done(s)
    ensures Init(s.node) && ContextsBelow(cs, |t|) && s.node.table == SetUpAll(t, cs) && InHand(s.qpi) == []
  {
    hide SetUpAll;
  }

  /**
   * Under any schedule of the connection interface and the state table: once all is
   * done the node is ready for traffic, every queue pair that was set up begins with the
   * PSNs of its last context, and the others are as before.
   */
  lemma SetupTakesEffect(run: seq<Setting>, schedule: seq<Turn>)
    requires IsSetup(run, schedule) && |run| == |schedule| + 1 && Done(run[|schedule|])
    ensures var n, t := run[|schedule|].node, run[0].node.table;
      && Init(n) && |n.table| == |t|
      && (forall q: nat, c | LastFor(Offered(schedule), q, c) :: BeginsAt(n.table, q, c.remotePsn, c.localPsn))
      && (forall q | 0 <= q < |t| && (forall i | 0 <= i < |Offered(schedule)| :: Offered(schedule)[i].qp != q) :: n.table[q] == t[q])
  {
    hide IsSetup, Idle, SetupInv, Ordered, SetUp, SetUpAll, RespondsFrom, RequestsFrom, Init;
    var s, t, cs := run[|schedule|], run[0].node.table, Offered(schedule);
    SetupRunInv(run, schedule, |schedule|);
    assert schedule[..|schedule|] == schedule;
    DoneMeans(s, t, Ordered(run, schedule, |schedule|));
    assert Ordered(run, schedule, |schedule|) == cs;
    forall q: nat, c | LastFor(cs, q, c)
      ensures BeginsAt(s.node.table, q, c.remotePsn, c.localPsn)
    {
      assert q < |t|;
      LastCounts(t, cs, q);
      SetUpResponds(s.node.table, q, c.remotePsn, c.localPsn);
      SetUpRequests(s.node.table, q, c.remotePsn, c.localPsn);
    }
    forall q | 0 <= q < |t| && (forall i | 0 <= i < |cs| :: cs[i].qp != q)
      ensures s.node.table[q] == t[q]
    {
      LastCounts(t, cs, q);
    }
  }

  // ----- two queue pairs -----

  /** The requester of one and the responder of the other start at the same PSN, and nothing is outstanding. */
  predicate Meet(a: StateEntry, b: StateEntry) {
    a.reqNextPsn == a.reqOldUnack == b.respEpsn
  }

  lemma FirstPsnExpected(t: seq<StateEntry>, q: nat, localPsn: Psn)
    requires q < |t| && RespondsFrom(t, q, localPsn)
    ensures t[q].respEpsn == localPsn
  {
    hide Judge, NakPsns;
    var request := Packet(WriteOnly, q, localPsn, false, 1);
    assert QpsBelow([], |t|) && NoneAt(ReceivedIn([]), q, localPsn);
    assert FirstAt(t, [], q, localPsn);
    assert RequestOn(request, q) && After(t, []) == t;
    assert Accepted(t[q], request);
  }

  lemma OneSent(t: seq<StateEntry>, m: SendMeta)
    requires m.qp < |t|
    ensures QpsBelow([Sent(m)], |t|) && HeadersSent(t, [Sent(m)]) == [Header(m, t[m.qp].reqNextPsn)]
  {
    assert [Sent(m)][..0] == [];
  }

  lemma StartOf(h: Header, start: Psn)
    requires Consecutive([h], start)
    ensures h.psn == start
  {
    AddZero(start);
    assert [h][0] == h && Pos([h], 0) == 0;
    hide Add, Pos;
  }

  lemma FirstPsnSent(t: seq<StateEntry>, q: nat, remotePsn: Psn)
    requires q < |t| && RequestsFrom(t, q, remotePsn)
    ensures t[q].reqNextPsn == remotePsn
  {
    hide Accepted, Outstanding, OnQp, HeadersSent, Consecutive, QpsBelow;
    var write := SendMeta(WriteOnly, q, 0, 0, false, 1);
    var h := Header(write, t[q].reqNextPsn);
    OneSent(t, write);
    NothingOnQp(q);
    OnQpAppend([], h, q);
    assert [] + [h] == [h];
    StartOf(h, remotePsn);
  }

  lemma BeginsMeans(t: seq<StateEntry>, q: nat, remotePsn: Psn, localPsn: Psn)
    requires BeginsAt(t, q, remotePsn, localPsn)
    ensures q < |t| && t[q].reqNextPsn == t[q].reqOldUnack == remotePsn && t[q].respEpsn == localPsn
  {
    hide RespondsFrom;
    FirstPsnExpected(t, q, localPsn);
    FirstPsnSent(t, q, remotePsn);
    hide Consecutive, Accepted;
    DistCases(t[q].reqOldUnack, t[q].reqNextPsn);
  }

  /** Set up with each other's PSNs, two queue pairs meet in both directions. */
  lemma ExchangedPsnsMeet(a: seq<StateEntry>, qa: nat, b: seq<StateEntry>, qb: nat, psnOfA: Psn, psnOfB: Psn)
    requires BeginsAt(a, qa, psnOfB, psnOfA) && BeginsAt(b, qb, psnOfA, psnOfB)
    ensures qa < |a| && qb < |b| && Meet(a[qa], b[qb]) && Meet(b[qb], a[qa])
  {
    hide BeginsAt;
    BeginsMeans(a, qa, psnOfB, psnOfA);
    BeginsMeans(b, qb, psnOfA, psnOfB);
  }

  /** The last context for q in a setup that is done. */
  ghost predicate SetUpWith(run: seq<Setting>, schedule: seq<Turn>, q: nat, c: QpContext) {
    IsSetup(run, schedule) && |run| == |schedule| + 1 && Done(run[|schedule|]) && LastFor(Offered(schedule), q, c)
  }

  /** Two nodes, each set up under its own schedule with the other's PSNs, are ready for traffic in both directions. */
  lemma SetupsMeet(a: seq<Setting>, scheduleA: seq<Turn>, qa: nat, ca: QpContext,
                   b: seq<Setting>, scheduleB: seq<Turn>, qb: nat, cb: QpContext)
    requires SetUpWith(a, scheduleA, qa, ca) && SetUpWith(b, scheduleB, qb, cb)
    requires ca.remotePsn == cb.localPsn && ca.localPsn == cb.remotePsn
    ensures |a| == |scheduleA| + 1 && |b| == |scheduleB| + 1
    ensures var na, nb := a[|scheduleA|].node, b[|scheduleB|].node;
      && Init(na) && Init(nb) && qa < |na.table| && qb < |nb.table|
      && Meet(na.table[qa], nb.table[qb]) && Meet(nb.table[qb], na.table[qa])
  {
    hide IsSetup, Done, LastFor, Init, BeginsAt, Meet, Offered;
    SetupTakesEffect(a, scheduleA);
    SetupTakesEffect(b, scheduleB);
    ExchangedPsnsMeet(a[|scheduleA|].node.table, qa, b[|scheduleB|].node.table, qb, ca.localPsn, cb.localPsn);
  }

  /** From setup to delivery: over the network that starts out like this, the writes handed on are a prefix of those issued. */
  lemma SetUpNetworkDelivers(a: seq<Setting>, scheduleA: seq<Turn>, qa: nat, ca: QpContext,
                             b: seq<Setting>, scheduleB: seq<Turn>, qb: nat, cb: QpContext,
                             sender: seq<Node>, senderSchedule: seq<Action>,
                             receiver: seq<Node>, receiverSchedule: seq<Action>, which: seq<nat>)
    requires SetUpWith(a, scheduleA, qa, ca) && SetUpWith(b, scheduleB, qb, cb)
    requires ca.remotePsn == cb.localPsn && ca.localPsn == cb.remotePsn
    requires IsRun(sender, senderSchedule) && sender[0] == a[|scheduleA|].node
    requires IsRun(receiver, receiverSchedule) && receiver[0] == b[|scheduleB|].node
    requires var hs := OnQp(RequestHeaders(sender[|senderSchedule|].headers), qa);
      NoneEmpty(hs) && Delivers(Arrived(receiverSchedule), which, hs, qb)
    requires qb < |receiver[0].table|
    requires Near(ResponderOf(receiver[0].table[qb]), Arrived(receiverSchedule), which,
                  OnQp(RequestHeaders(sender[|senderSchedule|].headers), qa), qb)
    ensures var hs := OnQp(RequestHeaders(sender[|senderSchedule|].headers), qa);
      Writes(receiver[|receiverSchedule|].rxOut.forwarded, qb) <= Writes(Copies(hs, qb), qb)
  {
    hide SetUpWith, IsRun, NoneEmpty, Delivers, Near, Writes, Copies, OnQp, RequestHeaders, Arrived, Init;
    SetupsMeet(a, scheduleA, qa, ca, b, scheduleB, qb, cb);
    NetworkDeliversInOrder(sender, senderSchedule, qa, receiver, receiverSchedule, qb, which);
  }
}
