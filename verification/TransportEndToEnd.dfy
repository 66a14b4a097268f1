/**
 * A requester, a responder and the network between them: what the requester counts as
 * acknowledged has been accepted, as long as the responder executes only accepted reads.
 */
module TransportEndToEnd {
  import opened Psn
  import opened Transport
  import opened TransportNode
  import opened TransportSafety
  import opened TransportNetwork
  import opened TransportReads
  import opened TransportRuns
  import opened Segments
  import opened SegmentsCount

  // ----- two nodes and the network -----

  /** The responder's side: what arrives on q are copies of the requests hs, none of them empty, none 2^24 PSNs off. */
  ghost predicate Carries(nodes: seq<Node>, schedule: seq<Action>, q: nat, which: seq<nat>, hs: seq<Header>) {
    && IsRun(nodes, schedule) && q < |nodes[0].table| && NoneEmpty(hs)
    && Delivers(Arrived(schedule), which, hs, q)
    && Near(ResponderOf(nodes[0].table[q]), Arrived(schedule), which, hs, q)
  }

  ghost predicate Answering(nodes: seq<Node>, schedule: seq<Action>, q: nat, which: seq<nat>, hs: seq<Header>) {
    Carries(nodes, schedule, q, which, hs) && Consecutive(hs, nodes[0].table[q].respEpsn)
  }

  /** How many requests the responder of q has accepted after b steps. */
  ghost function AcceptedCount(nodes: seq<Node>, schedule: seq<Action>, b: nat, q: nat, which: seq<nat>): nat
    requires b <= |schedule| < |nodes| && q < |nodes[0].table|
  {
    var ps := ReceivedIn(Log(nodes, schedule, b));
    if |ps| <= |which| then |AcceptedNumbers(ResponderOf(nodes[0].table[q]), ps, which[..|ps|], q)| else 0
  }

  lemma {:induction false} ReceivedSplit(a: seq<Event>, b: seq<Event>)
    ensures ReceivedIn(a + b) == ReceivedIn(a) + ReceivedIn(b)
  {
    if b == [] {
      assert a + b == a;
    } else {
      assert (a + b)[..|a + b| - 1] == a + b[..|b|-1];
      ReceivedSplit(a, b[..|b|-1]);
    }
  }

  lemma {:induction false} AcceptedPrefix(r: Responder, ps: seq<Packet>, which: seq<nat>, q: nat, m: nat)
    requires m <= |ps| == |which|
    ensures |AcceptedNumbers(r, ps[..m], which[..m], q)| <= |AcceptedNumbers(r, ps, which, q)|
    decreases |ps|
  {
    hide AcceptsLast;
    if m < |ps| {
      var k := |ps| - 1;
      assert ps[..k][..m] == ps[..m] && which[..k][..m] == which[..m];
      AcceptedPrefix(r, ps[..k], which[..k], q, m);
    } else {
      assert ps[..m] == ps && which[..m] == which;
    }
  }

  /** Everything received after b steps is a prefix of everything that arrives. */
  lemma ReceivedArrived(nodes: seq<Node>, schedule: seq<Action>, b: nat)
    requires IsRun(nodes, schedule) && b <= |schedule|
    ensures |nodes| == |schedule| + 1
    ensures ReceivedIn(Log(nodes, schedule, b)) <= ReceivedIn(Log(nodes, schedule, |schedule|)) <= Arrived(schedule)
  {
    hide IsRun, Inv, ReceivedIn, Log, Arrived, SentIn, Underway, Requested;
    RunInv(nodes, schedule, |schedule|);
    assert schedule[..|schedule|] == schedule;
    LogGrows(nodes, schedule, b, |schedule|);
    var log, all := Log(nodes, schedule, b), Log(nodes, schedule, |schedule|);
    assert all == log + all[|log|..];
    ReceivedSplit(log, all[|log|..]);
  }

  lemma AcceptedSoFar(r: Responder, arrived: seq<Packet>, ps: seq<Packet>, which: seq<nat>, hs: seq<Header>, q: nat)
    requires ps <= arrived && Consecutive(hs, r.epsn) && NoneEmpty(hs)
    requires Delivers(arrived, which, hs, q) && Near(r, arrived, which, hs, q)
    ensures |ps| <= |arrived| == |which|
    ensures var k := |AcceptedNumbers(r, ps, which[..|ps|], q)|;
      k <= |hs| && Handled(r, ps, q).epsn == Add(r.epsn, Pos(hs, k))
  {
    hide Add, Consecutive, NoneEmpty, Near, AcceptedNumbers, Pos, Numbers, AcceptedLength, Handled, Delivers;
    SameLength(arrived, which, hs, q);
    DeliversPrefix(r, arrived, which, hs, q, |ps|);
    assert arrived[..|ps|] == ps;
    AcceptedInOrderOnce(r, ps, which[..|ps|], hs, q);
  }

  lemma CountGrows(nodes: seq<Node>, schedule: seq<Action>, b: nat, q: nat, which: seq<nat>)
    requires IsRun(nodes, schedule) && b <= |schedule| && |nodes| == |schedule| + 1 && q < |nodes[0].table|
    requires |Arrived(schedule)| == |which|
    ensures AcceptedCount(nodes, schedule, b, q, which) <= AcceptedCount(nodes, schedule, |schedule|, q, which)
  {
    hide ReceivedIn, Log, IsRun, Arrived, AcceptedNumbers;
    ReceivedArrived(nodes, schedule, b);
    var ps, every := ReceivedIn(Log(nodes, schedule, b)), ReceivedIn(Log(nodes, schedule, |schedule|));
    assert every[..|ps|] == ps && which[..|every|][..|ps|] == which[..|ps|];
    AcceptedPrefix(ResponderOf(nodes[0].table[q]), every, which[..|every|], q, |ps|);
  }

  lemma CountFits(nodes: seq<Node>, schedule: seq<Action>, b: nat, q: nat, which: seq<nat>, hs: seq<Header>)
    requires Answering(nodes, schedule, q, which, hs) && b <= |schedule| && |nodes| == |schedule| + 1
    ensures AcceptedCount(nodes, schedule, b, q, which) <= |hs|
    ensures Handled(ResponderOf(nodes[0].table[q]), ReceivedIn(Log(nodes, schedule, b)), q).epsn
      == Add(nodes[0].table[q].respEpsn, Pos(hs, AcceptedCount(nodes, schedule, b, q, which)))
  {
    hide ReceivedIn, Log, IsRun, Arrived, AcceptedNumbers, Add, Consecutive, NoneEmpty, Near, Pos, Handled, Delivers;
    ReceivedArrived(nodes, schedule, b);
    AcceptedSoFar(ResponderOf(nodes[0].table[q]), Arrived(schedule), ReceivedIn(Log(nodes, schedule, b)), which, hs, q);
  }

  /** After every step, the responder expects the PSN of the next request, and the accepted requests only grow in number. */
  lemma ExpectsNext(nodes: seq<Node>, schedule: seq<Action>, b: nat, q: nat, which: seq<nat>, hs: seq<Header>)
    requires Answering(nodes, schedule, q, which, hs) && b <= |schedule|
    ensures |nodes| == |schedule| + 1
    ensures var k := AcceptedCount(nodes, schedule, b, q, which);
      && k <= AcceptedCount(nodes, schedule, |schedule|, q, which) <= |hs|
      && (forall e | ExpectedAfter(nodes, schedule, b, q, e) :: e == Add(nodes[0].table[q].respEpsn, Pos(hs, k)))
  {
    hide Add, AcceptedCount, ReceivedIn, Log, IsRun, Arrived, Pos, After, Handled, NoneEmpty, Near, Delivers, Consecutive;
    RunShape(nodes, schedule);
    SameLength(Arrived(schedule), which, hs, q);
    CountGrows(nodes, schedule, b, q, which);
    CountFits(nodes, schedule, b, q, which, hs);
    CountFits(nodes, schedule, |schedule|, q, which, hs);
    if QpsBelow(Log(nodes, schedule, b), |nodes[0].table|) {
      LogHandles(nodes[0].table, Log(nodes, schedule, b), q);
    }
  }

  /** The PSN before one expected after b steps, when v PSNs had been accepted. */
  ghost predicate NamesExpected(nodes: seq<Node>, schedule: seq<Action>, b: nat, q: nat, which: seq<nat>, hs: seq<Header>, psn: Psn, v: nat)
    requires b <= |schedule| < |nodes| && q < |nodes[0].table|
  {
    var k := AcceptedCount(nodes, schedule, b, q, which);
    ExpectedAfter(nodes, schedule, b, q, Add(psn, 1)) && k <= |hs| && v == Pos(hs, k)
  }

  /** A copy of an acknowledgement the responder of q has sent; v PSNs were accepted when it was. */
  ghost predicate Acknowledges(nodes: seq<Node>, schedule: seq<Action>, q: nat, which: seq<nat>, hs: seq<Header>, psn: Psn, v: nat)
    requires |schedule| + 1 == |nodes| && q < |nodes[0].table|
  {
    && (exists h: Header :: h in nodes[|schedule|].headers && IsAck(h.meta) && h.meta.qp == q && h.psn == psn)
    && (exists b: nat :: b <= |schedule| && NamesExpected(nodes, schedule, b, q, which, hs, psn, v))
  }

  /** p is the j-th response to the read request f, for some length that takes up as many PSNs. */
  ghost predicate IsResponseTo(p: Packet, f: Packet, j: nat) {
    exists g: ReadRequestMeta, pmtu: int :: ResponseOf(p, f, j, g, pmtu)
  }

  predicate ResponseOf(p: Packet, f: Packet, j: nat, g: ReadRequestMeta, pmtu: int) {
    && pmtu > 0 && g.psn == f.psn && g.length > 0 && NumPkg(g.length, pmtu) == f.numPkg
    && var es := ResponsesTo(g, pmtu);
    j < |es| && es[j].op == p.op && es[j].psn == p.psn
  }

  /** What is received after all steps. */
  ghost function ReceivedBy(nodes: seq<Node>, schedule: seq<Action>): seq<Packet>
    requires |schedule| < |nodes|
  {
    ReceivedIn(Log(nodes, schedule, |schedule|))
  }

  /** The j-th response to the i-th packet received, a read that was executed; v PSNs lead up to its own. */
  ghost predicate AnswersRead(nodes: seq<Node>, schedule: seq<Action>, q: nat, which: seq<nat>, hs: seq<Header>,
                              p: Packet, v: nat, i: nat, j: nat)
    requires |schedule| + 1 == |nodes| && q < |nodes[0].table|
  {
    var ps := ReceivedBy(nodes, schedule);
    && i < |ps| <= |which| && ForwardsReadAt(ResponderOf(nodes[0].table[q]), ps, q, i) && IsResponseTo(p, ps[i], j)
    && which[i] <= |hs| && v == Pos(hs, which[i]) + j + 1
  }

  ghost predicate Vouches(nodes: seq<Node>, schedule: seq<Action>, q: nat, which: seq<nat>, hs: seq<Header>, p: Packet, v: nat)
    requires |schedule| + 1 == |nodes| && q < |nodes[0].table|
  {
    if p.op == Ack then Acknowledges(nodes, schedule, q, which, hs, p.psn, v)
    else exists i: nat, j: nat :: AnswersRead(nodes, schedule, q, which, hs, p, v, i, j)
  }

  // ----- read responses come from reads executed -----

  lemma ForwardsFirst(e: StateEntry, p: Packet, q: nat)
    requires ReadOn(p, q)
    ensures Verdicts(e, p).out.forwarded == if |Judge(p, Asked(ResponderOf(e))).out.forwarded| > 0 then [p] else []
  {
  }

  lemma OnlyItself(e: StateEntry, p: Packet, f: Packet)
    requires f in Verdicts(e, p).out.forwarded
    ensures f == p
  {
  }

  lemma ForwardsBefore(r: Responder, ps: seq<Packet>, more: seq<Packet>, q: nat, i: nat)
    requires i < |ps|
    ensures ForwardsReadAt(r, ps + more, q, i) <==> ForwardsReadAt(r, ps, q, i)
  {
    assert (ps + more)[..i] == ps[..i];
  }

  /** Every read request handed on in a log is one of the packets received, executed when it was. */
  lemma {:induction false} LogForwardsReads(t: seq<StateEntry>, log: seq<Event>, q: nat, f: Packet) returns (i: nat)
    requires QpsBelow(log, |t|) && q < |t| && f in Emitted(t, log).forwarded && ReadOn(f, q)
    ensures i < |ReceivedIn(log)| && ReceivedIn(log)[i] == f && ForwardsReadAt(ResponderOf(t[q]), ReceivedIn(log), q, i)
  {
    hide Judge, Handled, After, Verdicts, ReadOn;
    var before, e := log[..|log|-1], log[|log|-1];
    var ps, r := ReceivedIn(before), ResponderOf(t[q]);
    if f in Emitted(t, before).forwarded {
      i := LogForwardsReads(t, before, q, f);
      hide ForwardsReadAt;
      if e.Received? {
        ForwardsBefore(r, ps, [e.p], q, i);
        assert ReceivedIn(log) == ps + [e.p];
      } else {
        assert ReceivedIn(log) == ps;
      }
    } else {
      i := |ps|;
      OnlyItself(After(t, before)[e.p.qp], e.p, f);
      ReadOnQp(f, q);
      assert ReceivedIn(log) == ps + [f] && (ps + [f])[..|ps|] == ps;
      LogHandles(t, before, q);
      ForwardsFirst(After(t, before)[q], f, q);
    }
  }

  lemma ReadOnQp(f: Packet, q: nat)
    requires ReadOn(f, q)
    ensures f.qp == q && !IsResponse(f.op)
  {
  }

  lemma ResponseNumber(p: Packet, f: Packet, j: nat)
    requires IsResponseTo(p, f, j)
    ensures j < f.numPkg && p.psn == Add(f.psn, j)
  {
    hide NumPkg, Add, ResponsesTo;
    var g: ReadRequestMeta, pmtu: int :| ResponseOf(p, f, j, g, pmtu);
    ResponsesMatchCount(g, pmtu);
  }

  /** Every response to a read that the responder of q has handed on vouches for the PSNs up to its own. */
  lemma SentResponsesVouch(nodes: seq<Node>, schedule: seq<Action>, q: nat, which: seq<nat>, hs: seq<Header>, f: Packet, p: Packet, j: nat)
    requires Answering(nodes, schedule, q, which, hs) && |nodes| == |schedule| + 1
    requires f in OutOfRx(nodes[|schedule|]).forwarded && ReadOn(f, q) && IsResponseTo(p, f, j) && p.op != Ack
    ensures exists v: nat :: Vouches(nodes, schedule, q, which, hs, p, v)
  {
    RunInv(nodes, schedule, |schedule|);
    ReceivedArrived(nodes, schedule, |schedule|);
    hide IsRun, Consecutive, NoneEmpty, Near, Arrived, Pos, TxInv, RxShape, InRange, IsResponseTo, ForwardsReadAt, OutOfRx, Log, ReadOn;
    SameLength(Arrived(schedule), which, hs, q);
    var t, ps := nodes[0].table, ReceivedBy(nodes, schedule);
    var i := LogForwardsReads(t, Log(nodes, schedule, |schedule|), q, f);
    ReadOnQp(f, q);
    assert Arrived(schedule)[i] == f;
    var v := Pos(hs, which[i]) + j + 1;
    assert AnswersRead(nodes, schedule, q, which, hs, p, v, i, j);
    assert Vouches(nodes, schedule, q, which, hs, p, v);
  }

  /** Every acknowledgement the responder of q has sent vouches for the requests it had accepted at some time. */
  lemma SentAcksVouch(nodes: seq<Node>, schedule: seq<Action>, q: nat, which: seq<nat>, hs: seq<Header>, h: Header)
    requires Answering(nodes, schedule, q, which, hs) && |nodes| == |schedule| + 1
    requires h in nodes[|schedule|].headers && IsAck(h.meta) && h.meta.qp == q
    ensures exists v: nat :: Acknowledges(nodes, schedule, q, which, hs, h.psn, v)
  {
    AcksAreVouched(nodes, schedule, |schedule|);
    hide IsRun, Consecutive, NoneEmpty, Near, Delivers, Arrived, AcceptedCount, Add, ExpectedAfter, TableVouched, AnswersVouched, Pos;
    var i :| 0 <= i < |nodes[|schedule|].headers| && nodes[|schedule|].headers[i] == h;
    assert Expected(nodes, schedule, |schedule|, q, Add(h.psn, 1));
    var b: nat :| b <= |schedule| && ExpectedAfter(nodes, schedule, b, q, Add(h.psn, 1));
    hide Answering;
    ExpectsNext(nodes, schedule, b, q, which, hs);
    var v := Pos(hs, AcceptedCount(nodes, schedule, b, q, which));
    assert NamesExpected(nodes, schedule, b, q, which, hs, h.psn, v);
    assert Acknowledges(nodes, schedule, q, which, hs, h.psn, v);
  }

  lemma AckPosition(nodes: seq<Node>, schedule: seq<Action>, q: nat, which: seq<nat>, hs: seq<Header>, psn: Psn, v: nat)
    requires Answering(nodes, schedule, q, which, hs) && |nodes| == |schedule| + 1
    requires Acknowledges(nodes, schedule, q, which, hs, psn, v)
    ensures AcceptedCount(nodes, schedule, |schedule|, q, which) <= |hs|
    ensures v <= Pos(hs, AcceptedCount(nodes, schedule, |schedule|, q, which))
    ensures Add(psn, 1) == Add(nodes[0].table[q].respEpsn, v)
  {
    assert q < |nodes[0].table|;
    hide Answering, AcceptedCount, Add, ExpectedAfter, Pos;
    var last := AcceptedCount(nodes, schedule, |schedule|, q, which);
    var b: nat :| b <= |schedule| && NamesExpected(nodes, schedule, b, q, which, hs, psn, v);
    ExpectsNext(nodes, schedule, b, q, which, hs);
    PosMonotonic(hs, AcceptedCount(nodes, schedule, b, q, which), last);
  }

  lemma ReadPosition(hs: seq<Header>, start: Psn, psn: Psn, j: nat, w: nat, accepted: nat)
    requires Consecutive(hs, start) && w < accepted <= |hs|
    requires j < hs[w].meta.numPkg && psn == Add(hs[w].psn, j)
    ensures Pos(hs, w) + j + 1 <= Pos(hs, accepted) && Add(psn, 1) == Add(start, Pos(hs, w) + j + 1)
  {
    hide Add, Pos;
    PosMonotonic(hs, w + 1, accepted);
    NextPos(hs, w);
    AddAdd(start, Pos(hs, w), j);
    AddAdd(start, Pos(hs, w) + j, 1);
  }

  /** No read reaches the responder of q while it is ahead and past the end of a turn. */
  ghost predicate ArriveOnTime(nodes: seq<Node>, schedule: seq<Action>, q: nat, which: seq<nat>, hs: seq<Header>) {
    |nodes| > 0 && q < |nodes[0].table| && ReadsOnTime(ResponderOf(nodes[0].table[q]), Arrived(schedule), which, hs, q)
  }

  lemma OnTimeBefore(r: Responder, ps: seq<Packet>, which: seq<nat>, hs: seq<Header>, q: nat, m: nat)
    requires ReadsOnTime(r, ps, which, hs, q) && m <= |ps|
    ensures ReadsOnTime(r, ps[..m], which[..m], hs, q)
  {
    hide AcceptedNumbers, Offset, Pos, PastWrap, ReadOn;
    forall i | 0 <= i < m && ReadOn(ps[..m][i], q) ensures OnTime(r, ps[..m], which[..m], hs, q, i) {
      assert OnTime(r, ps, which, hs, q, i);
      assert ps[..m][..i] == ps[..i] && which[..m][..i] == which[..i];
    }
  }

  /** Every read executed was among the requests accepted in the end. */
  lemma ExecutedWasAccepted(nodes: seq<Node>, schedule: seq<Action>, q: nat, which: seq<nat>, hs: seq<Header>, i: nat)
    requires Answering(nodes, schedule, q, which, hs) && |nodes| == |schedule| + 1 && ArriveOnTime(nodes, schedule, q, which, hs)
    requires ForwardsReadAt(ResponderOf(nodes[0].table[q]), ReceivedBy(nodes, schedule), q, i)
    ensures i < |ReceivedBy(nodes, schedule)| <= |which|
    ensures which[i] < AcceptedCount(nodes, schedule, |schedule|, q, which) <= |hs|
    ensures Copy(ReceivedBy(nodes, schedule)[i], hs[which[i]], q)
  {
    ReceivedArrived(nodes, schedule, |schedule|);
    var r, ps, m := ResponderOf(nodes[0].table[q]), ReceivedBy(nodes, schedule), |ReceivedBy(nodes, schedule)|;
    SameLength(Arrived(schedule), which, hs, q);
    ExpectsNext(nodes, schedule, |schedule|, q, which, hs);
    assert Arrived(schedule)[..m] == ps;
    DeliversPrefix(r, Arrived(schedule), which, hs, q, m);
    OnTimeBefore(r, Arrived(schedule), which, hs, q, m);
    assert Admitted(r, ps, which[..m], hs, q);
    ForwardedAreReads(r, ps, q);
    CopyAt(ps, which[..m], hs, q, i);
    hide IsRun, Consecutive, NoneEmpty, Near, Arrived, Pos, Log, ForwardsReadAt, Delivers, ReadsOnTime, Admitted, AcceptedNumbers;
    ForwardedAreAcceptedIff(r, ps, which[..m], hs, q);
    assert which[..m][i] < AcceptedOf(r, ps, which[..m], q, i + 1);
    AcceptedPrefix(r, ps, which[..m], q, i + 1);
  }

  lemma CopyAt(ps: seq<Packet>, which: seq<nat>, hs: seq<Header>, q: nat, i: nat)
    requires Delivers(ps, which, hs, q) && i < |ps| && ReadOn(ps[i], q)
    ensures |which| == |ps| && which[i] < |hs| && Copy(ps[i], hs[which[i]], q)
  {
  }

  lemma AnswersParts(nodes: seq<Node>, schedule: seq<Action>, q: nat, which: seq<nat>, hs: seq<Header>, p: Packet, v: nat, i: nat, j: nat)
    requires Answering(nodes, schedule, q, which, hs) && |nodes| == |schedule| + 1
    requires AnswersRead(nodes, schedule, q, which, hs, p, v, i, j)
    ensures q < |nodes[0].table| && Consecutive(hs, nodes[0].table[q].respEpsn)
    ensures var ps := ReceivedBy(nodes, schedule);
      && i < |ps| <= |which| && ForwardsReadAt(ResponderOf(nodes[0].table[q]), ps, q, i) && IsResponseTo(p, ps[i], j)
      && which[i] <= |hs| && v == Pos(hs, which[i]) + j + 1
  {
    hide IsRun, NoneEmpty, Delivers, Near, Arrived, Consecutive, ReceivedBy, ForwardsReadAt, IsResponseTo, Pos;
  }

  lemma CopyMeans(p: Packet, h: Header, q: nat)
    requires Copy(p, h, q)
    ensures p.numPkg == h.meta.numPkg && p.psn == h.psn
  {
  }

  lemma ReadResponsePosition(nodes: seq<Node>, schedule: seq<Action>, q: nat, which: seq<nat>, hs: seq<Header>,
                             p: Packet, v: nat, i: nat, j: nat)
    requires Answering(nodes, schedule, q, which, hs) && |nodes| == |schedule| + 1 && ArriveOnTime(nodes, schedule, q, which, hs)
    requires AnswersRead(nodes, schedule, q, which, hs, p, v, i, j)
    ensures AcceptedCount(nodes, schedule, |schedule|, q, which) <= |hs|
    ensures v <= Pos(hs, AcceptedCount(nodes, schedule, |schedule|, q, which))
    ensures Add(p.psn, 1) == Add(nodes[0].table[q].respEpsn, v)
  {
    hide *;
    AnswersParts(nodes, schedule, q, which, hs, p, v, i, j);
    ExecutedWasAccepted(nodes, schedule, q, which, hs, i);
    ResponseNumber(p, ReceivedBy(nodes, schedule)[i], j);
    CopyMeans(ReceivedBy(nodes, schedule)[i], hs[which[i]], q);
    ReadPosition(hs, nodes[0].table[q].respEpsn, p.psn, j, which[i], AcceptedCount(nodes, schedule, |schedule|, q, which));
  }

  /** Whatever vouches for v PSNs names the PSN before the one at position v, and v PSNs have been accepted. */
  lemma VouchedPosition(nodes: seq<Node>, schedule: seq<Action>, q: nat, which: seq<nat>, hs: seq<Header>, p: Packet, v: nat)
    requires Answering(nodes, schedule, q, which, hs) && |nodes| == |schedule| + 1 && ArriveOnTime(nodes, schedule, q, which, hs)
    requires Vouches(nodes, schedule, q, which, hs, p, v)
    ensures AcceptedCount(nodes, schedule, |schedule|, q, which) <= |hs|
    ensures v <= Pos(hs, AcceptedCount(nodes, schedule, |schedule|, q, which))
    ensures Add(p.psn, 1) == Add(nodes[0].table[q].respEpsn, v)
  {
    assert q < |nodes[0].table|;
    hide Answering, ArriveOnTime, AcceptedCount, Add, Pos, Acknowledges, AnswersRead;
    if p.op == Ack {
      AckPosition(nodes, schedule, q, which, hs, p.psn, v);
    } else {
      var i: nat, j: nat :| AnswersRead(nodes, schedule, q, which, hs, p, v, i, j);
      ReadResponsePosition(nodes, schedule, q, which, hs, p, v, i, j);
    }
  }

  /** Every response that arrives is a copy of one sent and arrives before 2^24 more PSNs are sent. */
  ghost predicate ResponsesArrive(log: seq<Event>, r: nat,
                                  nodes: seq<Node>, schedule: seq<Action>, q: nat, which: seq<nat>, hs: seq<Header>)
    requires |schedule| + 1 == |nodes| && q < |nodes[0].table|
  {
    forall j | 0 <= j < |log| && log[j].Received? && log[j].p.qp == r && IsResponse(log[j].p.op) && !log[j].p.isNak ::
      && log[j].p.numPkg == 1
      && var sent := SentLength(log[..j], r);
      exists v: nat :: Vouches(nodes, schedule, q, which, hs, log[j].p, v) && v <= sent < v + PSN_SPACE
  }

  lemma ResponsesVouched(log: seq<Event>, r: nat, nodes: seq<Node>, schedule: seq<Action>, q: nat, which: seq<nat>, hs: seq<Header>)
    requires Answering(nodes, schedule, q, which, hs) && |nodes| == |schedule| + 1 && ArriveOnTime(nodes, schedule, q, which, hs)
    requires ResponsesArrive(log, r, nodes, schedule, q, which, hs)
    ensures var k := AcceptedCount(nodes, schedule, |schedule|, q, which);
      k <= |hs| && ResponsesVouch(log, r, nodes[0].table[q].respEpsn, Pos(hs, k))
  {
    ExpectsNext(nodes, schedule, |schedule|, q, which, hs);
    hide IsRun, NoneEmpty, Near, Delivers, Arrived, AcceptedCount, Add, Vouches, Pos, Answering, SentLength, ArriveOnTime;
    var start, bound := nodes[0].table[q].respEpsn, Pos(hs, AcceptedCount(nodes, schedule, |schedule|, q, which));
    forall j | 0 <= j < |log| && log[j].Received? && log[j].p.qp == r && IsResponse(log[j].p.op) && !log[j].p.isNak
      ensures exists v: nat :: v <= bound && Timely(log[j].p, start, v, SentLength(log[..j], r))
    {
      var sent := SentLength(log[..j], r);
      var v: nat :| Vouches(nodes, schedule, q, which, hs, log[j].p, v) && v <= sent < v + PSN_SPACE;
      VouchedPosition(nodes, schedule, q, which, hs, log[j].p, v);
      assert Timely(log[j].p, start, v, sent);
    }
  }

  /** The number of PSNs taken up by the requests up to and including w. */
  function PosAfter(hs: seq<Header>, w: nat): nat
    requires w < |hs|
  {
    Pos(hs, w + 1)
  }

  /**
   * End to end: at every step of the requester, under any schedules of the two nodes
   * and any network of the assumed kind, a request whose PSNs all count as acknowledged
   * has been accepted by the responder, as long as reads arrive on time.
   */
  lemma AcknowledgedWereAccepted(sender: seq<Node>, senderSchedule: seq<Action>, i: nat, r: nat,
                                 receiver: seq<Node>, receiverSchedule: seq<Action>, q: nat, which: seq<nat>, hs: seq<Header>)
    requires IsRun(sender, senderSchedule) && i <= |senderSchedule| < |sender| && r < |sender[0].table|
    requires |receiver| == |receiverSchedule| + 1 && Carries(receiver, receiverSchedule, q, which, hs)
    requires ArriveOnTime(receiver, receiverSchedule, q, which, hs)
    requires hs == OnQp(RequestHeaders(sender[|senderSchedule|].headers), r)
    requires sender[0].table[r].reqNextPsn == sender[0].table[r].reqOldUnack == receiver[0].table[q].respEpsn
    requires var log := Log(sender, senderSchedule, i);
      && ResponsesArrive(log, r, receiver, receiverSchedule, q, which, hs)
      && (QpsBelow(log, |sender[0].table|) ==> InFlightFits(sender[0].table, log, r))
    ensures var n, accepted := sender[i], AcceptedCount(receiver, receiverSchedule, |receiverSchedule|, q, which);
      && RxInv(n, sender[0].table, Log(sender, senderSchedule, i))
      && accepted <= |hs|
      && var acked := Acknowledged(Apply(n.table, PendingRx(n))[r], SentLength(Log(sender, senderSchedule, i), r));
      && 0 <= acked <= Pos(hs, accepted)
      && forall w | 0 <= w < |hs| && PosAfter(hs, w) <= acked :: w < accepted
  {
    var log, t := Log(sender, senderSchedule, i), sender[0].table;
    RunInv(sender, senderSchedule, i);
    InvParts(sender[i], t, log);
    var accepted := AcceptedCount(receiver, receiverSchedule, |receiverSchedule|, q, which);
    assert NoneEmpty(hs) && t[r].reqNextPsn == receiver[0].table[q].respEpsn;
    assert Answering(receiver, receiverSchedule, q, which, hs) by {
      hide Carries, Inv, Consecutive;
      RunInv(sender, senderSchedule, |senderSchedule|);
      RunHeadersConsecutive(sender[|senderSchedule|], t, Log(sender, senderSchedule, |senderSchedule|), r);
    }
    hide *;
    ResponsesVouched(log, r, receiver, receiverSchedule, q, which, hs);
    RxParts(sender[i], t, log);
    NoMoreThanVouched(t, log, r, Pos(hs, accepted));
    var acked := Acknowledged(After(t, log)[r], SentLength(log, r));
    forall w | 0 <= w < |hs| && PosAfter(hs, w) <= acked ensures w < accepted {
      AllPositive(hs, accepted, w);
    }
  }

  lemma RxParts(n: Node, t: seq<StateEntry>, log: seq<Event>)
    requires RxInv(n, t, log)
    ensures QpsBelow(log, |t|) && RxShape(n) && |n.table| == |t| && After(t, log) == Apply(n.table, PendingRx(n))
  {
    hide RxShape;
  }

  lemma AllPositive(hs: seq<Header>, k: nat, w: nat)
    requires NoneEmpty(hs) && k <= |hs| && w < |hs| && PosAfter(hs, w) <= Pos(hs, k)
    ensures w < k
  {
    if k <= w { PosMonotonic(hs, k, w + 1); }
  }

  // ----- the condition is needed -----

  /** The start of the oldest PSN's second turn: the next PSN but one is 0, and the oldest PSN is 0. */
  function EndOfTurn(): StateEntry {
    StateEntry(PSN_SPACE - 2, 0, PSN_SPACE - 2, PSN_SPACE - 2, PSN_SPACE - 2, 7)
  }

  lemma OneMoreEvent(t: seq<StateEntry>, log: seq<Event>, e: Event)
    requires QpsBelow(log, |t|) && (if e.Received? then e.p.qp else e.m.qp) < |t|
    ensures QpsBelow(log + [e], |t|)
    ensures var u := After(t, log);
      After(t, log + [e]) ==
        if e.Received? then u[e.p.qp := Effect(u[e.p.qp], Verdicts(u[e.p.qp], e.p))]
        else u[e.m.qp := u[e.m.qp].(reqNextPsn := Add(u[e.m.qp].reqNextPsn, e.m.numPkg))]
    ensures SentLength(log + [e], 0) == SentLength(log, 0) + (if e.Sent? && e.m.qp == 0 then e.m.numPkg else 0)
  {
    assert (log + [e])[..|log|] == log;
  }

  /** Four requests sent, an acknowledgement of the third, and the response to the fourth, a read: four PSNs count as acknowledged. */
  lemma FourAcknowledged(write: SendMeta, read: SendMeta)
    requires write.qp == read.qp == 0 && write.numPkg == read.numPkg == 1
    ensures var t := [EndOfTurn()];
      var log := [Sent(write), Sent(write), Sent(write), Sent(read),
                  Received(Packet(Ack, 0, 0, false, 1)), Received(Packet(ReadRespOnly, 0, 1, false, 1))];
      QpsBelow(log, 1) && Acknowledged(After(t, log)[0], SentLength(log, 0)) == 4
  {
    var t := [EndOfTurn()];
    var ack, response := Received(Packet(Ack, 0, 0, false, 1)), Received(Packet(ReadRespOnly, 0, 1, false, 1));
    var d := [Sent(write), Sent(write), Sent(write), Sent(read)];
    FourSent(write, read);
    OneMoreEvent(t, d, ack);
    OneMoreEvent(t, d + [ack], response);
    hide After, SentLength;
    assert After(t, d + [ack])[0] == EndOfTurn().(reqNextPsn := 2, reqOldUnack := 1);
    assert After(t, d + [ack] + [response])[0] == EndOfTurn().(reqNextPsn := 2, reqOldUnack := 2);
    assert d + [ack] + [response] == [Sent(write), Sent(write), Sent(write), Sent(read), ack, response];
  }

  lemma FourSent(write: SendMeta, read: SendMeta)
    requires write.qp == read.qp == 0 && write.numPkg == read.numPkg == 1
    ensures var t, d := [EndOfTurn()], [Sent(write), Sent(write), Sent(write), Sent(read)];
      QpsBelow(d, 1) && After(t, d) == [EndOfTurn().(reqNextPsn := 2)] && SentLength(d, 0) == 4
  {
    var t, b, c := [EndOfTurn()], [Sent(write), Sent(write)], [Sent(write), Sent(write), Sent(write)];
    assert [] + [Sent(write)] == [Sent(write)] && [Sent(write)] + [Sent(write)] == b && b + [Sent(write)] == c;
    hide After, SentLength, QpsBelow, Add;
    NothingSentYet(t);
    OneSent(t, [], write, EndOfTurn());
    OneSent(t, [Sent(write)], write, EndOfTurn().(reqNextPsn := PSN_SPACE - 1));
    OneSent(t, b, write, EndOfTurn().(reqNextPsn := 0));
    OneSent(t, c, read, EndOfTurn().(reqNextPsn := 1));
    assert c + [Sent(read)] == [Sent(write), Sent(write), Sent(write), Sent(read)];
  }

  lemma NothingSentYet(t: seq<StateEntry>)
    ensures QpsBelow([], |t|) && After(t, []) == t && SentLength([], 0) == 0
  {
  }

  lemma OneSent(t: seq<StateEntry>, log: seq<Event>, m: SendMeta, e: StateEntry)
    requires QpsBelow(log, |t|) && m.qp == 0 && m.numPkg == 1 && After(t, log) == [e]
    ensures QpsBelow(log + [Sent(m)], |t|) && SentLength(log + [Sent(m)], 0) == SentLength(log, 0) + 1
    ensures After(t, log + [Sent(m)]) == [e.(reqNextPsn := if e.reqNextPsn + 1 < PSN_SPACE then e.reqNextPsn + 1 else 0)]
  {
    OneMoreEvent(t, log, Sent(m));
    AddCases(e.reqNextPsn, 1);
    hide After, SentLength, Add, Effect, Verdicts;
  }

  /**
   * The read arrives before the three writes and is executed at once; in the end the
   * responder has accepted the writes, and not the read that it has answered.
   */
  lemma ThreeAccepted(hs: seq<Header>)
    requires |hs| == 4 && Consecutive(hs, PSN_SPACE - 2)
    requires forall i | 0 <= i < 4 :: hs[i].meta.numPkg == 1 && hs[i].meta.op == (if i < 3 then WriteOnly else ReadRequest)
    ensures var r, ps, which := ResponderOf(EndOfTurn()), [CopyOf(hs[3], 0), CopyOf(hs[0], 0), CopyOf(hs[1], 0), CopyOf(hs[2], 0)], [3, 0, 1, 2];
      && Admitted(r, ps, which, hs, 0)
      && ForwardsReadAt(r, ps, 0, 0) && Judge(ps[0], Asked(r)).out.forwarded == [ps[0]]
      && AcceptedNumbers(r, ps, which, 0) == [0, 1, 2] && Handled(r, ps, 0).epsn == 1
  {
    var r, which: seq<nat> := ResponderOf(EndOfTurn()), [3, 0, 1, 2];
    var ps := [CopyOf(hs[3], 0), CopyOf(hs[0], 0), CopyOf(hs[1], 0), CopyOf(hs[2], 0)];
    assert Delivers(ps, which, hs, 0);
    FewPositions(hs);
    ReadFirst(r, ps);
    FewAreNear(r, ps, which, hs);
    hide Handled, Judge, Add, ForwardsReadAt, AcceptedNumbers, AcceptedLength, Consecutive, Near, Delivers, Pos;
    AcceptedInOrderOnce(r, ps, which, hs, 0);
    var k := |AcceptedNumbers(r, ps, which, 0)|;
    AddCases(r.epsn, 3);
    SamePsnSamePosition(r.epsn, 3, k);
    assert Numbers(3) == [0, 1, 2];
  }

  lemma FewPositions(hs: seq<Header>)
    requires |hs| == 4 && Consecutive(hs, PSN_SPACE - 2) && forall i | 0 <= i < 4 :: hs[i].meta.numPkg == 1
    ensures forall i | 0 <= i <= 4 :: Pos(hs, i) == i
    ensures hs[0].psn == PSN_SPACE - 2 && hs[1].psn == PSN_SPACE - 1 && hs[2].psn == 0 && hs[3].psn == 1
  {
    assert Pos(hs, 0) == 0 && Pos(hs, 1) == 1 && Pos(hs, 2) == 2 && Pos(hs, 3) == 3 && Pos(hs, 4) == 4;
  }

  /** The responder hands the read on without accepting it, and accepts the writes. */
  lemma ReadFirst(r: Responder, ps: seq<Packet>)
    requires r == ResponderOf(EndOfTurn()) && |ps| == 4 && ps[0].op == ReadRequest && ps[0].psn == 1
    requires forall i | 0 <= i < 4 :: ps[i].qp == 0 && !ps[i].isNak && ps[i].numPkg == 1
    requires forall i | 1 <= i < 4 :: ps[i].op == WriteOnly && ps[i].psn == Add(PSN_SPACE - 2, i - 1)
    ensures ForwardsReadAt(r, ps, 0, 0) && Judge(ps[0], Asked(r)).out.forwarded == [ps[0]] && Handled(r, ps, 0).epsn == 1
  {
    assert ps[..0] == [] && ps[..4] == ps && Handled(r, [], 0) == r;
    hide Handled;
    OneMore(r, ps, 0, 0);
    assert Handled(r, ps[..1], 0) == r;
    OneMore(r, ps, 0, 1);
    assert Handled(r, ps[..2], 0) == r.(epsn := PSN_SPACE - 1);
    OneMore(r, ps, 0, 2);
    assert Handled(r, ps[..3], 0) == r.(epsn := 0);
    OneMore(r, ps, 0, 3);
  }

  lemma {:induction false} AcceptedFew(r: Responder, ps: seq<Packet>, q: nat)
    requires forall i | 0 <= i < |ps| :: ps[i].numPkg == 1
    ensures AcceptedLength(r, ps, q) <= |ps|
  {
    hide AcceptsLast;
    if |ps| > 0 { AcceptedFew(r, ps[..|ps|-1], q); }
  }

  lemma FewAreNear(r: Responder, ps: seq<Packet>, which: seq<nat>, hs: seq<Header>)
    requires |ps| == |hs| == 4 && Delivers(ps, which, hs, 0)
    requires (forall i | 0 <= i < 4 :: ps[i].numPkg == 1) && forall i | 0 <= i <= 4 :: Pos(hs, i) == i
    ensures Near(r, ps, which, hs, 0)
  {
    hide Pos, AcceptedLength;
    forall i | 0 <= i < |ps| && RequestOn(ps[i], 0)
      ensures -PSN_SPACE < Pos(hs, which[i]) - AcceptedLength(r, ps[..i], 0) < PSN_SPACE
    {
      AcceptedFew(r, ps[..i], 0);
    }
  }
}
