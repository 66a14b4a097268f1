/**
 * Writes from one memory to the other: cut into packets, numbered, carried over a
 * network that loses, repeats and reorders, accepted, and turned into memory commands
 * among the packets of other queue pairs.
 */
module WritesEndToEnd {
  import opened Psn
  import opened Segments
  import opened SegmentsProof
  import opened SegmentsUnit
  import opened SegmentsReads
  import T = Transport
  import Safety = TransportSafety
  import Node = TransportNode
  import Net = TransportNetwork
  import Ext = ExtendedHeader
  import Queues = ExtendedHeaderQueues

  ghost predicate WritesOnly(ms: seq<TxMeta>) {
    forall i | 0 <= i < |ms| :: ValidMeta(ms[i]) && ms[i].op == AppWrite && ms[i].length > 0
  }

  predicate WriteOp(op: T.OpCode) {
    op.WriteOnly? || op.WriteFirst? || op.WriteMiddle? || op.WriteLast?
  }

  ghost predicate WriteOps(ps: seq<Arrival>) {
    forall i | 0 <= i < |ps| :: WriteOp(ps[i].op)
  }

  // ----- the packets of the writes -----

  function AsWrites(ms: seq<TxMeta>): (gs: seq<Message>)
    ensures |gs| == |ms| && forall i | 0 <= i < |gs| :: gs[i] == Write(ms[i])
  {
    if |ms| == 0 then [] else [Write(ms[0])] + AsWrites(ms[1..])
  }

  lemma {:induction false} WriteTrains(ms: seq<TxMeta>, pmtu: int)
    requires pmtu > 0
    ensures Train(AllPackets(ms, pmtu), pmtu) == Trains(AsWrites(ms), pmtu) && ReadCount(AsWrites(ms)) == 0
  {
    if |ms| > 0 {
      WriteTrains(ms[1..], pmtu);
      assert AsWrites(ms)[1..] == AsWrites(ms[1..]);
      TrainSplit(PacketsOf(ms[0], pmtu), AllPackets(ms[1..], pmtu), pmtu);
    }
  }

  lemma {:induction false} RestAreWrites(m: TxMeta, pmtu: int)
    requires pmtu > 0 && m.op == AppWrite
    ensures forall i | 0 <= i < |RestOfWrite(m, pmtu)| :: WriteOp(RestOfWrite(m, pmtu)[i].op)
    decreases m.length
  {
    if m.length > pmtu { RestAreWrites(Advance(m, pmtu), pmtu); }
  }

  lemma {:induction false} PacketsAreWrites(ms: seq<TxMeta>, pmtu: int)
    requires pmtu > 0 && WritesOnly(ms)
    ensures forall i | 0 <= i < |AllPackets(ms, pmtu)| :: WriteOp(AllPackets(ms, pmtu)[i].op)
  {
    if |ms| > 0 {
      if ms[0].length > pmtu { RestAreWrites(Advance(ms[0], pmtu), pmtu); }
      PacketsAreWrites(ms[1..], pmtu);
    }
  }

  lemma {:induction false} TrainAt(es: seq<TxEvent>, pmtu: int)
    ensures forall i | 0 <= i < |es| :: Train(es, pmtu)[i] == OnWire(es[i], pmtu)
  {
    if |es| > 0 { TrainAt(es[1..], pmtu); }
  }

  // ----- receiving a part of them -----

  ghost predicate NoRequests(ps: seq<Arrival>) {
    forall i | 0 <= i < |ps| :: !T.IsReadRequest(ps[i].op)
  }

  /** Sequence number and queue pair play no part in what a packet does, unless it is a read request. */
  lemma LabelPlaysNoPart(c: Conn, p: Arrival, psn: Psn, q: nat)
    requires !T.IsReadRequest(p.op)
    ensures Receive(c, p.(psn := psn, qp := q)) == Receive(c, p)
  {
  }

  lemma {:induction false} LabelsPlayNoPart(c: Conn, ps: seq<Arrival>, cut: seq<Arrival>)
    requires |ps| == |cut| && NoRequests(cut)
    requires forall i | 0 <= i < |ps| :: ps[i] == cut[i].(psn := ps[i].psn, qp := ps[i].qp)
    ensures ReceiveAll(c, ps) == ReceiveAll(c, cut)
    decreases |ps|
  {
    hide Receive, T.IsReadRequest;
    if |ps| > 0 {
      LabelPlaysNoPart(c, cut[0], ps[0].psn, ps[0].qp);
      LabelsPlayNoPart(Receive(c, cut[0]), ps[1..], cut[1..]);
    }
  }

  lemma {:induction false} CmdsGrow(c: Conn, ps: seq<Arrival>)
    ensures c.cmds <= ReceiveAll(c, ps).cmds
    decreases |ps|
  {
    hide Receive;
    if |ps| > 0 {
      Queues.CmdsAppended(c, ps[0]);
      CmdsGrow(Receive(c, ps[0]), ps[1..]);
    }
  }

  /** The commands for the first packets of some writes are the first of the writes' tilings. */
  lemma PartTiles(c: Conn, ms: seq<TxMeta>, ps: seq<Arrival>, pmtu: int) returns (t: seq<seq<MemCmd>>)
    requires ValidPmtu(pmtu) && WritesOnly(ms) && c.addrs == [] && c.cmds == []
    requires var cut := Train(AllPackets(ms, pmtu), pmtu);
      && |ps| <= |cut|
      && forall i | 0 <= i < |ps| :: ps[i] == cut[i].(psn := ps[i].psn, qp := ps[i].qp)
    ensures |t| == |ms| && forall i | 0 <= i < |ms| :: Tiles(t[i], ms[i].remoteAddr, ms[i].length)
    ensures ReceiveAll(c, ps).cmds <= Flat(t)
    ensures |ps| == |AllPackets(ms, pmtu)| ==> ReceiveAll(c, ps).cmds == Flat(t)
  {
    hide ReceiveAll, AllConsumable, Train, AllPackets, Tiles, TilesAll, Trains, Flat, ReadCount;
    var cut := Train(AllPackets(ms, pmtu), pmtu);
    WriteTrains(ms, pmtu);
    t := MessagesTile(c, AsWrites(ms), pmtu);
    WriteTilings(t, ms);
    CutAreWrites(ms, pmtu);
    PartOfAll(c, ps, cut);
    assert [] + Flat(t) == Flat(t);
  }

  lemma CutAreWrites(ms: seq<TxMeta>, pmtu: int)
    requires pmtu > 0 && WritesOnly(ms)
    ensures NoRequests(Train(AllPackets(ms, pmtu), pmtu))
  {
    PacketsAreWrites(ms, pmtu);
    TrainAt(AllPackets(ms, pmtu), pmtu);
    hide Train, AllPackets, UdpLength;
  }

  lemma PartOfAll(c: Conn, ps: seq<Arrival>, cut: seq<Arrival>)
    requires NoRequests(cut) && |ps| <= |cut|
    requires forall i | 0 <= i < |ps| :: ps[i] == cut[i].(psn := ps[i].psn, qp := ps[i].qp)
    ensures ReceiveAll(c, ps).cmds <= ReceiveAll(c, cut).cmds
    ensures |ps| == |cut| ==> ReceiveAll(c, ps) == ReceiveAll(c, cut)
  {
    hide ReceiveAll, AllConsumable, T.IsReadRequest;
    var n := |ps|;
    assert n == |cut| ==> cut[..n] == cut;
    assert cut[..n] + cut[n..] == cut;
    ReceiveSplit(c, cut[..n], cut[n..]);
    LabelsPlayNoPart(c, ps, cut[..n]);
    CmdsGrow(ReceiveAll(c, cut[..n]), cut[n..]);
  }

  lemma {:induction false} WriteTilings(t: seq<seq<MemCmd>>, ms: seq<TxMeta>)
    requires ReadCount(AsWrites(ms)) == 0 && TilesAll(t, AsWrites(ms), [])
    ensures |t| == |ms| && forall i | 0 <= i < |ms| :: Tiles(t[i], ms[i].remoteAddr, ms[i].length)
    decreases |ms|
  {
    if |ms| > 0 {
      assert AsWrites(ms)[1..] == AsWrites(ms[1..]);
      assert AsWrites(ms)[0] == Write(ms[0]);
      WriteTilings(t[1..], ms[1..]);
    }
  }

  // ----- from the transport to the extended headers -----

  /** The request headers are those of the packets as they were cut; each takes up one PSN. */
  predicate Numbered(hs: seq<T.Header>, es: seq<TxEvent>) {
    |hs| <= |es| && forall i | 0 <= i < |hs| :: hs[i].meta.op == es[i].op && hs[i].meta.numPkg == 1
  }

  /** The packets handed on, which are copies of the requests ns, each arrives with its own extended header and length. */
  ghost predicate HandedOn(ps: seq<Arrival>, ns: seq<nat>, hs: seq<T.Header>, es: seq<TxEvent>, q: nat, pmtu: int) {
    && |ps| <= |ns|
    && forall i | 0 <= i < |ps| :: ns[i] < |hs| <= |es| && ps[i] == OnWire(es[ns[i]], pmtu).(qp := q, psn := hs[ns[i]].psn)
  }

  function OfQp(ps: seq<Arrival>, q: nat): seq<Arrival> {
    if |ps| == 0 then []
    else OfQp(ps[..|ps|-1], q) + (if ps[|ps|-1].qp == q then [ps[|ps|-1]] else [])
  }

  lemma {:induction false} OfQpSplit(a: seq<Arrival>, b: seq<Arrival>, q: nat)
    ensures OfQp(a + b, q) == OfQp(a, q) + OfQp(b, q)
  {
    if |b| == 0 {
      assert a + b == a;
    } else {
      assert (a + b)[..|a + b| - 1] == a + b[..|b|-1];
      OfQpSplit(a, b[..|b|-1], q);
    }
  }

  lemma {:induction false} PacketsAreHandled(log: seq<Ext.Event>, q: nat)
    ensures Queues.PacketsOf(log, q) == OfQp(Ext.HandledIn(log), q)
  {
    if |log| > 0 {
      var before, e := log[..|log|-1], log[|log|-1];
      PacketsAreHandled(before, q);
      if e.Handled? {
        assert Ext.HandledIn(log)[..|Ext.HandledIn(log)|-1] == Ext.HandledIn(before);
      } else {
        assert Ext.HandledIn(log) == Ext.HandledIn(before);
      }
    }
  }

  lemma {:induction false} ArrivedGrows(schedule: seq<Ext.Action>, k: nat)
    requires k <= |schedule|
    ensures Ext.Arrived(schedule[..k]) <= Ext.Arrived(schedule)
    decreases |schedule|
  {
    if k < |schedule| {
      var n := |schedule| - 1;
      assert schedule[..n][..k] == schedule[..k];
      ArrivedGrows(schedule[..n], k);
    } else {
      assert schedule[..k] == schedule;
    }
  }

  lemma OfQpPrefix(a: seq<Arrival>, b: seq<Arrival>, q: nat)
    requires a <= b
    ensures OfQp(a, q) <= OfQp(b, q)
  {
    assert b == a + b[|a|..];
    OfQpSplit(a, b[|a|..], q);
  }

  /** The packets of q completed at the extended header stage are the first ones that arrive on q. */
  lemma CompletedInOrder(nodes: seq<Ext.Node>, schedule: seq<Ext.Action>, k: nat, q: nat)
    requires Ext.IsRun(nodes, schedule) && k <= |schedule|
    ensures |nodes| == |schedule| + 1
    ensures Queues.PacketsOf(Ext.Log(nodes, schedule, k), q) <= OfQp(Ext.Arrived(schedule), q)
  {
    hide Ext.IsRun, Ext.Inv, Ext.Log, Ext.HandledIn, Ext.Arrived, OfQp, Queues.PacketsOf, Ext.Current;
    Ext.RunsInOrder(nodes, schedule, k);
    var log := Ext.Log(nodes, schedule, k);
    PacketsAreHandled(log, q);
    ArrivedGrows(schedule, k);
    OfQpPrefix(Ext.HandledIn(log), Ext.Arrived(schedule), q);
  }

  // ----- what the responder hands on -----

  lemma {:induction false} AllWritesAreKept(hs: seq<T.Header>, q: nat, k: nat)
    requires k <= |hs| && forall i | 0 <= i < |hs| :: WriteOp(hs[i].meta.op)
    ensures Net.Writes(Net.Copies(hs[..k], q), q) == Net.Copies(hs[..k], q)
  {
    hide Net.CopyOf, Net.Copies, Net.Writes, WriteOp;
    if k == 0 {
      NoCopies(hs, q);
    } else {
      AllWritesAreKept(hs, q, k - 1);
      OneMoreCopy(hs, q, k);
      OneWrite(hs[k-1], q);
      Net.WritesSplit(Net.Copies(hs[..k-1], q), [Net.CopyOf(hs[k-1], q)], q);
    }
  }

  lemma NoCopies(hs: seq<T.Header>, q: nat)
    ensures Net.Copies(hs[..0], q) == [] && Net.Writes([], q) == []
  {
  }

  lemma OneMoreCopy(hs: seq<T.Header>, q: nat, k: nat)
    requires 0 < k <= |hs|
    ensures Net.Copies(hs[..k], q) == Net.Copies(hs[..k-1], q) + [Net.CopyOf(hs[k-1], q)]
  {
  }

  lemma OneWrite(h: T.Header, q: nat)
    requires WriteOp(h.meta.op)
    ensures Net.Writes([Net.CopyOf(h, q)], q) == [Net.CopyOf(h, q)]
  {
    assert [Net.CopyOf(h, q)][..0] == [];
  }

  /** The requester's and the responder's side, and the network between them. */
  ghost predicate Connected(sender: seq<T.Node>, senderSchedule: seq<T.Action>, r: nat,
                            receiver: seq<T.Node>, receiverSchedule: seq<T.Action>, q: nat, which: seq<nat>, hs: seq<T.Header>) {
    && T.IsRun(sender, senderSchedule) && |sender| == |senderSchedule| + 1 && r < |sender[0].table|
    && T.IsRun(receiver, receiverSchedule) && |receiver| == |receiverSchedule| + 1 && q < |receiver[0].table|
    && sender[0].table[r].reqNextPsn == receiver[0].table[q].respEpsn
    && hs == Net.OnQp(T.RequestHeaders(sender[|senderSchedule|].headers), r)
    && Net.Delivers(T.Arrived(receiverSchedule), which, hs, q)
    && Net.Near(Safety.ResponderOf(receiver[0].table[q]), T.Arrived(receiverSchedule), which, hs, q)
  }

  /** The requests that the responder has accepted in the end. */
  ghost function Accepted(receiver: seq<T.Node>, receiverSchedule: seq<T.Action>, q: nat, which: seq<nat>): seq<nat>
    requires |receiver| == |receiverSchedule| + 1 && q < |receiver[0].table|
  {
    var ps := T.ReceivedIn(Node.Log(receiver, receiverSchedule, |receiverSchedule|));
    if |ps| <= |which| then Net.AcceptedNumbers(Safety.ResponderOf(receiver[0].table[q]), ps, which[..|ps|], q) else []
  }

  /** On a queue pair that carries writes only, the packets handed on are copies of the requests accepted, which are the first ones. */
  lemma HandsOnAccepted(sender: seq<T.Node>, senderSchedule: seq<T.Action>, r: nat,
                        receiver: seq<T.Node>, receiverSchedule: seq<T.Action>, q: nat, which: seq<nat>, hs: seq<T.Header>)
    requires Connected(sender, senderSchedule, r, receiver, receiverSchedule, q, which, hs)
    requires forall i | 0 <= i < |hs| :: WriteOp(hs[i].meta.op) && hs[i].meta.numPkg == 1
    ensures |receiver| == |receiverSchedule| + 1 && q < |receiver[0].table|
    ensures var ns := Accepted(receiver, receiverSchedule, q, which);
      && |ns| <= |hs| && (forall i | 0 <= i < |ns| :: ns[i] == i)
      && Net.Writes(Node.OutOfRx(receiver[|receiverSchedule|]).forwarded, q) == Net.Copies(hs[..|ns|], q)
  {
    hide *;
    ConnectedParts(sender, senderSchedule, r, receiver, receiverSchedule, q, which, hs);
    SenderNumbers(sender, senderSchedule, r, hs);
    ReceiverHandsOn(receiver, receiverSchedule, q, which, hs);
  }

  lemma ConnectedParts(sender: seq<T.Node>, senderSchedule: seq<T.Action>, r: nat,
                       receiver: seq<T.Node>, receiverSchedule: seq<T.Action>, q: nat, which: seq<nat>, hs: seq<T.Header>)
    requires Connected(sender, senderSchedule, r, receiver, receiverSchedule, q, which, hs)
    ensures T.IsRun(sender, senderSchedule) && |sender| == |senderSchedule| + 1 && r < |sender[0].table|
    ensures T.IsRun(receiver, receiverSchedule) && |receiver| == |receiverSchedule| + 1 && q < |receiver[0].table|
    ensures sender[0].table[r].reqNextPsn == receiver[0].table[q].respEpsn
    ensures hs == Net.OnQp(T.RequestHeaders(sender[|senderSchedule|].headers), r)
    ensures Net.Delivers(T.Arrived(receiverSchedule), which, hs, q)
    ensures Net.Near(Safety.ResponderOf(receiver[0].table[q]), T.Arrived(receiverSchedule), which, hs, q)
  {
  }

  lemma SenderNumbers(sender: seq<T.Node>, senderSchedule: seq<T.Action>, r: nat, hs: seq<T.Header>)
    requires T.IsRun(sender, senderSchedule) && |sender| == |senderSchedule| + 1 && r < |sender[0].table|
    requires hs == Net.OnQp(T.RequestHeaders(sender[|senderSchedule|].headers), r)
    ensures Net.Consecutive(hs, sender[0].table[r].reqNextPsn)
  {
    hide *;
    Node.RunInv(sender, senderSchedule, |senderSchedule|);
    Net.RunHeadersConsecutive(sender[|senderSchedule|], sender[0].table, Node.Log(sender, senderSchedule, |senderSchedule|), r);
  }

  lemma ReceiverHandsOn(receiver: seq<T.Node>, receiverSchedule: seq<T.Action>, q: nat, which: seq<nat>, hs: seq<T.Header>)
    requires T.IsRun(receiver, receiverSchedule) && |receiver| == |receiverSchedule| + 1 && q < |receiver[0].table|
    requires Net.Consecutive(hs, receiver[0].table[q].respEpsn)
    requires Net.Delivers(T.Arrived(receiverSchedule), which, hs, q)
    requires Net.Near(Safety.ResponderOf(receiver[0].table[q]), T.Arrived(receiverSchedule), which, hs, q)
    requires forall i | 0 <= i < |hs| :: WriteOp(hs[i].meta.op) && hs[i].meta.numPkg == 1
    ensures var ns := Accepted(receiver, receiverSchedule, q, which);
      && |ns| <= |hs| && (forall i | 0 <= i < |ns| :: ns[i] == i)
      && Net.Writes(Node.OutOfRx(receiver[|receiverSchedule|]).forwarded, q) == Net.Copies(hs[..|ns|], q)
  {
    hide *;
    var t, log, arrived := receiver[0].table, Node.Log(receiver, receiverSchedule, |receiverSchedule|), T.Arrived(receiverSchedule);
    var rr, ps := Safety.ResponderOf(t[q]), T.ReceivedIn(log);
    Node.RunsAreAtomic(receiver, receiverSchedule, |receiverSchedule|);
    assert receiverSchedule[..|receiverSchedule|] == receiverSchedule;
    assert |ps| <= |arrived| && arrived[..|ps|] == ps;
    Net.SameLength(arrived, which, hs, q);
    AllPositive(hs);
    Net.DeliversPrefix(rr, arrived, which, hs, q, |ps|);
    SameStart(t[q]);
    Net.AcceptedInOrderOnce(rr, ps, which[..|ps|], hs, q);
    Net.WritesForwardedOnce(t, log, which[..|ps|], hs, q);
    var k := |Net.AcceptedNumbers(rr, ps, which[..|ps|], q)|;
    Net.NumbersAre(k);
    AllWritesAreKept(hs, q, k);
    AcceptedIs(receiver, receiverSchedule, q, which);
  }

  lemma SameStart(e: T.StateEntry)
    ensures Safety.ResponderOf(e).epsn == e.respEpsn
  {
  }

  lemma AcceptedIs(receiver: seq<T.Node>, receiverSchedule: seq<T.Action>, q: nat, which: seq<nat>)
    requires |receiver| == |receiverSchedule| + 1 && q < |receiver[0].table|
    requires |T.ReceivedIn(Node.Log(receiver, receiverSchedule, |receiverSchedule|))| <= |which|
    ensures var ps := T.ReceivedIn(Node.Log(receiver, receiverSchedule, |receiverSchedule|));
      Accepted(receiver, receiverSchedule, q, which)
      == Net.AcceptedNumbers(Safety.ResponderOf(receiver[0].table[q]), ps, which[..|ps|], q)
  {
  }

  lemma AllPositive(hs: seq<T.Header>)
    requires forall i | 0 <= i < |hs| :: hs[i].meta.numPkg == 1
    ensures Net.NoneEmpty(hs)
  {
  }

  /**
   * End to end: writes issued on one queue pair, over the lossy network, next to any
   * traffic of other queue pairs and under any schedules.  At every step the memory
   * commands issued for them are the first commands of tilings of the writes' remote
   * ranges, in the order of issue, and all of them once all packets are completed.
   */
  lemma WritesReachMemory(ms: seq<TxMeta>, pmtu: int,
                          sender: seq<T.Node>, senderSchedule: seq<T.Action>, r: nat,
                          receiver: seq<T.Node>, receiverSchedule: seq<T.Action>, q: nat, which: seq<nat>, hs: seq<T.Header>,
                          nodes: seq<Ext.Node>, schedule: seq<Ext.Action>, k: nat) returns (t: seq<seq<MemCmd>>)
    requires ValidPmtu(pmtu) && WritesOnly(ms) && Numbered(hs, AllPackets(ms, pmtu))
    requires Connected(sender, senderSchedule, r, receiver, receiverSchedule, q, which, hs)
    requires Ext.IsRun(nodes, schedule) && k <= |schedule| && |nodes| == |schedule| + 1 && q < |nodes[0].table|
    requires |receiver| == |receiverSchedule| + 1 && q < |receiver[0].table|
    requires HandedOn(OfQp(Ext.Arrived(schedule), q), Accepted(receiver, receiverSchedule, q, which), hs, AllPackets(ms, pmtu), q, pmtu)
    ensures |t| == |ms| && forall i | 0 <= i < |ms| :: Tiles(t[i], ms[i].remoteAddr, ms[i].length)
    ensures var s, log := Ext.Start(nodes[0]), Ext.Log(nodes, schedule, k);
      && |s.queues| == |s.table| && Ext.QpsBelow(log, |s.table|)
      && Queues.TaggedFor(Queues.TaggedCmds(s, log), q) <= Flat(t)
      && (|Queues.PacketsOf(log, q)| == |AllPackets(ms, pmtu)| ==> Queues.TaggedFor(Queues.TaggedCmds(s, log), q) == Flat(t))
  {
    var es, s, log := AllPackets(ms, pmtu), Ext.Start(nodes[0]), Ext.Log(nodes, schedule, k);
    PacketsAreWrites(ms, pmtu);
    TrainAt(es, pmtu);
    assert |s.table| == |nodes[0].table|;
    hide Connected, WritesOnly, Accepted, OfQp, Ext.IsRun, Ext.Log, Ext.Arrived, AllPackets, Train, Queues.PacketsOf, Queues.PushedTo, Queues.OutFor,
      Queues.TaggedCmds, Queues.TaggedFor, Ext.After, Queues.AllServed, ReceiveAll, Tiles, Ext.Start, Queues.Fed, Ext.QpsBelow, OnWire;
    HandsOnAccepted(sender, senderSchedule, r, receiver, receiverSchedule, q, which, hs);
    CompletedInOrder(nodes, schedule, k, q);
    Queues.RunServes(nodes, schedule, k);
    Queues.QueuePairsAreSeparate(s, log, q);
    Queues.CommandsAreSeparate(s, log, q);
    var c, ps := Queues.Primed(s, log, q), Queues.PacketsOf(log, q);
    LabelsOnly(ps, OfQp(Ext.Arrived(schedule), q), Accepted(receiver, receiverSchedule, q, which), hs, es, q, pmtu);
    AddressesUnused(c, ps);
    t := PartTiles(c.(addrs := []), ms, ps, pmtu);
  }

  lemma LabelsOnly(ps: seq<Arrival>, all: seq<Arrival>, ns: seq<nat>, hs: seq<T.Header>, es: seq<TxEvent>, q: nat, pmtu: int)
    requires ps <= all && HandedOn(all, ns, hs, es, q, pmtu) && forall i | 0 <= i < |ns| :: ns[i] == i
    requires |ns| <= |hs| <= |es| && forall i | 0 <= i < |es| :: WriteOp(es[i].op)
    ensures |ps| <= |es| && WriteOps(ps)
    ensures forall i | 0 <= i < |ps| :: ps[i] == OnWire(es[i], pmtu).(psn := ps[i].psn, qp := ps[i].qp)
  {
    hide UdpLength;
  }

  /** Write packets take no read address. */
  lemma {:induction false} AddressesUnused(c: Conn, ps: seq<Arrival>)
    requires WriteOps(ps)
    ensures ReceiveAll(c.(addrs := []), ps).cmds == ReceiveAll(c, ps).cmds
    decreases |ps|
  {
    if |ps| > 0 {
      AddressUnused(c, ps[0]);
      hide Receive;
      AddressesUnused(Receive(c, ps[0]), ps[1..]);
    }
  }

  lemma AddressUnused(c: Conn, p: Arrival)
    requires WriteOp(p.op)
    ensures Receive(c.(addrs := []), p) == Receive(c, p).(addrs := [])
  {
    hide Payload;
  }

  // ----- the bytes read locally -----

  function Bytes(cmds: seq<MemCmd>): nat {
    if |cmds| == 0 then 0 else cmds[0].length + Bytes(cmds[1..])
  }

  lemma {:induction false} TilesBytes(cmds: seq<MemCmd>, base: nat, length: nat)
    requires Tiles(cmds, base, length)
    ensures Bytes(cmds) == length
    decreases |cmds|
  {
    if |cmds| > 0 { TilesBytes(cmds[1..], base + cmds[0].length, length - cmds[0].length); }
  }

  /** For each write as many bytes are read, from its local address on, as are written to its remote range. */
  lemma {:induction false} BytesReadAreWritten(ms: seq<TxMeta>, t: seq<seq<MemCmd>>)
    requires WritesOnly(ms) && |t| == |ms| && forall i | 0 <= i < |ms| :: Tiles(t[i], ms[i].remoteAddr, ms[i].length)
    ensures |AllCmds(ms)| == |ms|
    ensures forall i | 0 <= i < |ms| :: AllCmds(ms)[i].addr == ms[i].localAddr && AllCmds(ms)[i].length == Bytes(t[i])
  {
    hide Tiles, Bytes;
    if |ms| > 0 {
      BytesReadAreWritten(ms[1..], t[1..]);
      TilesBytes(t[0], ms[0].remoteAddr, ms[0].length);
    }
  }
}
