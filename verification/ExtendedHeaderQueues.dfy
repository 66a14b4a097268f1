/**
 * Interleaved queue pairs at the extended header stage: whatever the others do in
 * between, the entry, the read addresses and the commands of one queue pair are those
 * of its own packets received one after another.
 */
module ExtendedHeaderQueues {
  import opened Segments
  import opened SegmentsProof
  import opened ExtendedHeader

  /** If the packet takes a read address, there is one. */
  predicate Served(s: Spec, p: Arrival) {
    p.qp < |s.queues| && (TakesAddress(p.op) ==> |s.queues[p.qp]| > 0)
  }

  ghost predicate AllServed(s: Spec, log: seq<Event>)
    requires QpsBelow(log, |s.table|) && |s.queues| == |s.table|
  {
    |log| == 0
    || (AllServed(s, log[..|log|-1])
        && (log[|log|-1].Handled? ==> Served(After(s, log[..|log|-1]), log[|log|-1].p)))
  }

  /** A packet gets to state DATA only with the address it takes. */
  lemma DataIsServed(n: Node, s: Spec)
    requires Inv(n, s) && n.f.state == DATA
    ensures Served(s, n.f.packet)
  {
    var q := n.f.packet.qp;
    assert s.queues[q] == Popped(n, q) + n.queues[q];
    assert TakesAddress(n.f.packet.op) ==> Popped(n, q) == [n.f.readAddr];
  }

  lemma ServedMore(s: Spec, log: seq<Event>, es: seq<Event>)
    requires QpsBelow(log, |s.table|) && |s.queues| == |s.table|
    requires |es| <= 1 && QpsBelow(es, |s.table|) && AllServed(s, log)
    requires |es| == 1 && es[0].Handled? ==> Served(After(s, log), es[0].p)
    ensures QpsBelow(log + es, |s.table|) && AllServed(s, log + es)
  {
    if |es| == 0 {
      assert log + es == log;
    } else {
      assert (log + es)[..|log|] == log;
    }
  }

  /** In every run every packet completed had the read address it takes. */
  lemma {:induction false} RunServes(nodes: seq<Node>, schedule: seq<Action>, k: nat)
    requires IsRun(nodes, schedule) && k <= |schedule|
    ensures |nodes| == |schedule| + 1
    ensures var s, log := Start(nodes[0]), Log(nodes, schedule, k);
      |s.queues| == |s.table| && QpsBelow(log, |s.table|) && AllServed(s, log)
  {
    hide IsRun, Inv, After, AllServed, Served, Start, HandledIn, EventOf, QpsBelow;
    RunsInOrder(nodes, schedule, k);
    if k == 0 {
      NoneServed(Start(nodes[0]));
    } else {
      RunServes(nodes, schedule, k - 1);
      RunsInOrder(nodes, schedule, k - 1);
      var n, s, log := nodes[k-1], Start(nodes[0]), Log(nodes, schedule, k - 1);
      var es := EventOf(n, schedule[k-1]);
      EventIsServed(n, schedule[k-1], After(s, log));
      PartBelow(Log(nodes, schedule, k), log, es, |s.table|);
      ServedMore(s, log, es);
    }
  }

  lemma NoneServed(s: Spec)
    requires |s.queues| == |s.table|
    ensures QpsBelow([], |s.table|) && AllServed(s, [])
  {
  }

  lemma EventIsServed(n: Node, a: Action, s: Spec)
    requires Inv(n, s)
    ensures var es := EventOf(n, a); |es| <= 1 && (|es| == 1 && es[0].Handled? ==> Served(s, es[0].p))
  {
    if n.f.state == DATA { DataIsServed(n, s); }
    hide Inv, Served;
  }

  lemma PartBelow(all: seq<Event>, log: seq<Event>, es: seq<Event>, n: nat)
    requires all == log + es && QpsBelow(all, n)
    ensures QpsBelow(es, n)
  {
    forall i | 0 <= i < |es| ensures es[i] == all[|log| + i] { }
  }

  // ----- what a log means for one queue pair -----

  function PacketsOf(log: seq<Event>, q: nat): seq<Arrival> {
    if |log| == 0 then []
    else
      var e := log[|log|-1];
      PacketsOf(log[..|log|-1], q) + (if e.Handled? && e.p.qp == q then [e.p] else [])
  }

  function PushedTo(log: seq<Event>, q: nat): seq<nat> {
    if |log| == 0 then []
    else
      var e := log[|log|-1];
      PushedTo(log[..|log|-1], q) + (if e.Pushed? && e.qp == q then [e.addr] else [])
  }

  /** What the packets of q have caused. */
  function OutFor(s: Spec, log: seq<Event>, q: nat): ExhOut
    requires QpsBelow(log, |s.table|) && |s.queues| == |s.table|
  {
    if |log| == 0 then ExhOut([], [], 0)
    else
      var before, e := log[..|log|-1], log[|log|-1];
      var out := OutFor(s, before, q);
      if e.Handled? && e.p.qp == q then
        var u := After(s, before);
        OutOf(Receive(Pack(u.table[q], u.queues[q], out), e.p))
      else out
  }

  /** Packets that find the addresses they take. */
  predicate Fed(c: Conn, ps: seq<Arrival>)
    decreases |ps|
  {
    |ps| == 0 || ((TakesAddress(ps[0].op) ==> |c.addrs| > 0) && Fed(Receive(c, ps[0]), ps[1..]))
  }

  lemma {:induction false} FedSplit(c: Conn, ps: seq<Arrival>, p: Arrival)
    ensures Fed(c, ps + [p]) <==> Fed(c, ps) && (TakesAddress(p.op) ==> |ReceiveAll(c, ps).addrs| > 0)
    ensures ReceiveAll(c, ps + [p]) == Receive(ReceiveAll(c, ps), p)
    decreases |ps|
  {
    hide Receive;
    if |ps| == 0 {
      assert ps + [p] == [p] && [p][1..] == [];
    } else {
      assert (ps + [p])[1..] == ps[1..] + [p];
      FedSplit(Receive(c, ps[0]), ps[1..], p);
    }
  }

  lemma ExtraForOne(c: Conn, p: Arrival, a: nat)
    requires TakesAddress(p.op) ==> |c.addrs| > 0
    ensures var d := c.(addrs := c.addrs + [a]); Receive(d, p) == Receive(c, p).(addrs := Receive(c, p).addrs + [a])
  {
    hide Payload;
    assert |c.addrs| > 0 ==> (c.addrs + [a])[1..] == c.addrs[1..] + [a];
  }

  /** The commands that a packet causes. */
  function NewCmds(c: Conn, p: Arrival): seq<MemCmd> {
    Receive(c.(cmds := []), p).cmds
  }

  /** What has been emitted before plays no part in what a packet does. */
  lemma OutputPlaysNoPart(dma: DmaState, addrs: seq<nat>, a: ExhOut, b: ExhOut, p: Arrival)
    ensures var c, d := Receive(Pack(dma, addrs, a), p), Receive(Pack(dma, addrs, b), p);
      c.dma == d.dma && c.addrs == d.addrs && NewCmds(Pack(dma, addrs, a), p) == NewCmds(Pack(dma, addrs, b), p)
  {
    hide Payload;
  }

  /** An address queued early is still there afterwards, behind the others. */
  lemma {:induction false} ExtraAddress(c: Conn, ps: seq<Arrival>, a: nat)
    requires Fed(c, ps)
    ensures var d := c.(addrs := c.addrs + [a]);
      Fed(d, ps) && ReceiveAll(d, ps) == ReceiveAll(c, ps).(addrs := ReceiveAll(c, ps).addrs + [a])
    decreases |ps|
  {
    hide Receive;
    if |ps| > 0 {
      ExtraForOne(c, ps[0], a);
      ExtraAddress(Receive(c, ps[0]), ps[1..], a);
    }
  }

  /** The connection of q with all addresses queued beforehand. */
  function Primed(s: Spec, log: seq<Event>, q: nat): Conn
    requires q < |s.table| == |s.queues|
  {
    Pack(s.table[q], s.queues[q] + PushedTo(log, q), ExhOut([], [], 0))
  }

  /**
   * After any log in which packets found the addresses they take: entry, remaining
   * addresses and commands of a queue pair are those of its packets alone.
   */
  lemma {:induction false} QueuePairsAreSeparate(s: Spec, log: seq<Event>, q: nat)
    requires QpsBelow(log, |s.table|) && q < |s.table| == |s.queues| && AllServed(s, log)
    ensures var s' := After(s, log);
      && Fed(Primed(s, log, q), PacketsOf(log, q))
      && ReceiveAll(Primed(s, log, q), PacketsOf(log, q)) == Pack(s'.table[q], s'.queues[q], OutFor(s, log, q))
  {
    hide Receive;
    if |log| == 0 {
      assert s.queues[q] + [] == s.queues[q];
    } else {
      var before, e := log[..|log|-1], log[|log|-1];
      var u := After(s, before);
      QueuePairsAreSeparate(s, before, q);
      var c, ps := Primed(s, before, q), PacketsOf(before, q);
      if e.Handled? {
        assert PushedTo(log, q) == PushedTo(before, q);
        if e.p.qp == q {
          FedSplit(c, ps, e.p);
          OutputPlaysNoPart(u.table[q], u.queues[q], u.out, OutFor(s, before, q), e.p);
        } else {
          assert PacketsOf(log, q) == ps;
        }
      } else {
        assert PacketsOf(log, q) == ps;
        if e.qp == q {
          ExtraAddress(c, ps, e.addr);
          assert Primed(s, log, q).addrs == c.addrs + [e.addr];
        } else {
          assert PushedTo(log, q) == PushedTo(before, q);
        }
      }
    }
  }

  // ----- the commands of all queue pairs -----

  datatype Tagged = Tagged(qp: nat, cmd: MemCmd)

  function WithTag(q: nat, cmds: seq<MemCmd>): (r: seq<Tagged>)
    ensures |r| == |cmds| && forall i | 0 <= i < |r| :: r[i] == Tagged(q, cmds[i])
  {
    seq(|cmds|, i requires 0 <= i < |cmds| => Tagged(q, cmds[i]))
  }

  lemma CmdsAppended(c: Conn, p: Arrival)
    ensures Receive(c, p).cmds == c.cmds + NewCmds(c, p)
  {
    hide Payload;
  }

  /** The commands issued, in order, each with the queue pair of the packet that caused it. */
  function TaggedCmds(s: Spec, log: seq<Event>): seq<Tagged>
    requires QpsBelow(log, |s.table|) && |s.queues| == |s.table|
  {
    if |log| == 0 then []
    else
      var before, e := log[..|log|-1], log[|log|-1];
      var u := After(s, before);
      TaggedCmds(s, before)
      + (if e.Handled? then WithTag(e.p.qp, NewCmds(Pack(u.table[e.p.qp], u.queues[e.p.qp], u.out), e.p)) else [])
  }

  function Untagged(ts: seq<Tagged>): seq<MemCmd> {
    if |ts| == 0 then [] else Untagged(ts[..|ts|-1]) + [ts[|ts|-1].cmd]
  }

  function TaggedFor(ts: seq<Tagged>, q: nat): seq<MemCmd> {
    if |ts| == 0 then []
    else TaggedFor(ts[..|ts|-1], q) + (if ts[|ts|-1].qp == q then [ts[|ts|-1].cmd] else [])
  }

  lemma OneMoreTag(ts: seq<Tagged>, x: Tagged, q: nat)
    ensures Untagged(ts + [x]) == Untagged(ts) + [x.cmd]
    ensures TaggedFor(ts + [x], q) == TaggedFor(ts, q) + (if x.qp == q then [x.cmd] else [])
  {
    assert (ts + [x])[..|ts|] == ts;
  }

  lemma {:induction false} TagsConcat(ts: seq<Tagged>, p: nat, cmds: seq<MemCmd>, q: nat)
    ensures Untagged(ts + WithTag(p, cmds)) == Untagged(ts) + cmds
    ensures TaggedFor(ts + WithTag(p, cmds), q) == TaggedFor(ts, q) + (if p == q then cmds else [])
  {
    if |cmds| == 0 {
      assert ts + WithTag(p, cmds) == ts;
    } else {
      var n := |cmds| - 1;
      TagsConcat(ts, p, cmds[..n], q);
      OneMoreTag(ts + WithTag(p, cmds[..n]), Tagged(p, cmds[n]), q);
      hide Untagged, TaggedFor;
      assert ts + WithTag(p, cmds) == (ts + WithTag(p, cmds[..n])) + [Tagged(p, cmds[n])];
      assert cmds == cmds[..n] + [cmds[n]];
    }
  }

  /** One packet: the commands it adds, to those of all queue pairs and to those of its own. */
  lemma OneMoreHandled(u: Spec, p: Arrival, out: ExhOut)
    requires p.qp < |u.table| == |u.queues|
    ensures var cmds := NewCmds(Pack(u.table[p.qp], u.queues[p.qp], u.out), p);
      && Handle(u, p).out.cmds == u.out.cmds + cmds
      && OutOf(Receive(Pack(u.table[p.qp], u.queues[p.qp], out), p)).cmds == out.cmds + cmds
  {
    hide Receive, NewCmds;
    CmdsAppended(Pack(u.table[p.qp], u.queues[p.qp], u.out), p);
    CmdsAppended(Pack(u.table[p.qp], u.queues[p.qp], out), p);
    OutputPlaysNoPart(u.table[p.qp], u.queues[p.qp], u.out, out, p);
  }

  /** All commands issued carry a queue pair, and those of a queue pair are what its own packets cause, in order. */
  lemma {:induction false} CommandsAreSeparate(s: Spec, log: seq<Event>, q: nat)
    requires QpsBelow(log, |s.table|) && q < |s.table| == |s.queues|
    ensures After(s, log).out.cmds == s.out.cmds + Untagged(TaggedCmds(s, log))
    ensures OutFor(s, log, q).cmds == TaggedFor(TaggedCmds(s, log), q)
  {
    hide Receive, NewCmds, Handle, OutOf, Untagged, TaggedFor;
    if |log| == 0 {
      NoTags(q);
    } else {
      var before, e := log[..|log|-1], log[|log|-1];
      var u, ts := After(s, before), TaggedCmds(s, before);
      CommandsAreSeparate(s, before, q);
      if e.Handled? {
        var cmds := NewCmds(Pack(u.table[e.p.qp], u.queues[e.p.qp], u.out), e.p);
        OneMoreHandled(u, e.p, OutFor(s, before, q));
        TagsConcat(ts, e.p.qp, cmds, q);
        assert (s.out.cmds + Untagged(ts)) + cmds == s.out.cmds + (Untagged(ts) + cmds);
      } else {
        assert ts + [] == ts;
      }
    }
  }

  lemma NoTags(q: nat)
    ensures Untagged([]) == [] && TaggedFor([], q) == []
  {
  }

  /** So whole writes and read responses of a queue pair land where they belong, however the packets of others come in between. */
  lemma InterleavedMessagesTile(s: Spec, log: seq<Event>, q: nat, gs: seq<Message>, pmtu: int) returns (t: seq<seq<MemCmd>>)
    requires QpsBelow(log, |s.table|) && q < |s.table| == |s.queues| && AllServed(s, log)
    requires ValidPmtu(pmtu) && PacketsOf(log, q) == Trains(gs, pmtu)
    requires var addrs := s.queues[q] + PushedTo(log, q);
      && ReadCount(gs) <= |addrs| && (forall i | 0 <= i < |addrs| :: addrs[i] < ADDRESSES)
    requires forall i | 0 <= i < |gs| :: ValidMessage(gs[i])
    ensures TaggedFor(TaggedCmds(s, log), q) == Flat(t)
    ensures TilesAll(t, gs, s.queues[q] + PushedTo(log, q))
  {
    hide AllServed, PacketsOf, PushedTo, OutFor, TaggedCmds, TaggedFor, TilesAll, After, ReceiveAll, AllConsumable, Trains;
    t := MessagesTile(Primed(s, log, q), gs, pmtu);
    QueuePairsAreSeparate(s, log, q);
    CommandsAreSeparate(s, log, q);
    assert [] + Flat(t) == Flat(t);
  }
}
