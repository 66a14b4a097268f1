/**
 * Reads from one memory to the other: numbered, answered by the responder, the answers
 * carried over a network that loses, repeats and reorders, handed on by the requester's
 * receive side, and turned into memory commands among the packets of other queue pairs.
 */
module ReadsEndToEnd {
  import opened Psn
  import opened Segments
  import opened SegmentsProof
  import opened SegmentsUnit
  import opened SegmentsReads
  import opened SegmentsCount
  import T = Transport
  import Node = TransportNode
  import Safety = TransportSafety
  import Net = TransportNetwork
  import Headers = TransportHeaders
  import Responses = TransportResponses
  import Ext = ExtendedHeader
  import Queues = ExtendedHeaderQueues
  import Writes = WritesEndToEnd

  // ----- the reads asked for -----

  /** The request headers are those of the reads as they were issued; each takes up as many PSNs as it has responses. */
  predicate NumberedReads(hs: seq<T.Header>, ms: seq<TxMeta>, pmtu: int)
    requires pmtu > 0
  {
    |hs| <= |ms| && forall i | 0 <= i < |hs| :: hs[i].meta.numPkg == NumPkg(ms[i].length, pmtu)
  }

  /** The first n reads, as the responder's queue pair q is asked for them: those that ask for any bytes. */
  function Asked(ms: seq<TxMeta>, hs: seq<T.Header>, q: nat, n: nat): seq<ReadRequestMeta>
    requires n <= |hs| <= |ms|
  {
    if n == 0 then []
    else
      var m := ms[n-1];
      Asked(ms, hs, q, n - 1) + (if m.length > 0 then [ReadRequestMeta(q, m.remoteAddr, m.length, hs[n-1].psn)] else [])
  }

  lemma NumPkgOfNothing(pmtu: int)
    requires pmtu > 0
    ensures NumPkg(0, pmtu) == 0
  {
    DivSmall(pmtu - 1, pmtu);
  }

  lemma OneMoreTaken(rs: seq<ReadRequestMeta>, r: ReadRequestMeta, pmtu: int)
    requires pmtu > 0
    ensures Headers.Taken(rs + [r], pmtu) == Headers.Taken(rs, pmtu) + NumPkg(r.length, pmtu)
  {
    hide NumPkg;
    assert (rs + [r])[..|rs|] == rs;
  }

  lemma StillInSequence(rs: seq<ReadRequestMeta>, r: ReadRequestMeta, start: Psn, pmtu: int, i: nat)
    requires pmtu > 0 && Headers.InSequence(rs, start, pmtu) && i <= |rs|
    requires r.length > 0 && r.psn == Add(start, Headers.Taken(rs, pmtu))
    ensures var all := rs + [r]; all[i].length > 0 && all[i].psn == Add(start, Headers.Taken(all[..i], pmtu))
  {
    hide Headers.Taken, Add;
    if i < |rs| {
      assert (rs + [r])[..i] == rs[..i] && (rs + [r])[i] == rs[i];
    } else {
      assert (rs + [r])[..i] == rs;
    }
  }

  lemma OneMoreInSequence(rs: seq<ReadRequestMeta>, r: ReadRequestMeta, start: Psn, pmtu: int)
    requires pmtu > 0 && Headers.InSequence(rs, start, pmtu)
    requires r.length > 0 && r.psn == Add(start, Headers.Taken(rs, pmtu))
    ensures Headers.InSequence(rs + [r], start, pmtu)
  {
    var all := rs + [r];
    hide Headers.Taken, Add;
    forall i | 0 <= i < |all|
      ensures all[i].length > 0 && all[i].psn == Add(start, Headers.Taken(all[..i], pmtu))
    {
      StillInSequence(rs, r, start, pmtu, i);
    }
  }

  lemma LastAsked(ms: seq<TxMeta>, hs: seq<T.Header>, q: nat, n: nat)
    requires 0 < n <= |hs| <= |ms|
    ensures Asked(ms, hs, q, n)
      == if ms[n-1].length > 0
         then Asked(ms, hs, q, n - 1) + [ReadRequestMeta(q, ms[n-1].remoteAddr, ms[n-1].length, hs[n-1].psn)]
         else Asked(ms, hs, q, n - 1)
  {
  }

  lemma LastNumbered(hs: seq<T.Header>, ms: seq<TxMeta>, start: Psn, pmtu: int, n: nat)
    requires pmtu > 0 && NumberedReads(hs, ms, pmtu) && Net.Consecutive(hs, start) && 0 < n <= |hs|
    ensures |hs| <= |ms| && hs[n-1].psn == Add(start, Net.Pos(hs, n - 1))
    ensures Net.Pos(hs, n) == Net.Pos(hs, n - 1) + NumPkg(ms[n-1].length, pmtu)
  {
    hide NumPkg, Add;
  }

  /** They follow on each other from the first PSN on. */
  lemma {:induction false} AskedInSequence(ms: seq<TxMeta>, hs: seq<T.Header>, q: nat, start: Psn, pmtu: int, n: nat)
    requires pmtu > 0 && |hs| <= |ms| && NumberedReads(hs, ms, pmtu) && Net.Consecutive(hs, start) && n <= |hs|
    ensures var rs := Asked(ms, hs, q, n);
      Headers.InSequence(rs, start, pmtu) && Headers.Taken(rs, pmtu) == Net.Pos(hs, n)
  {
    hide *;
    if n == 0 {
      NoneAsked(ms, hs, q);
      NothingAsked(start, pmtu);
    } else {
      AskedInSequence(ms, hs, q, start, pmtu, n - 1);
      NumPkgOfNothing(pmtu);
      LastNumbered(hs, ms, start, pmtu, n);
      LastAsked(ms, hs, q, n);
      if ms[n-1].length > 0 {
        var before, x := Asked(ms, hs, q, n - 1), ReadRequestMeta(q, ms[n-1].remoteAddr, ms[n-1].length, hs[n-1].psn);
        OneMoreInSequence(before, x, start, pmtu);
        OneMoreTaken(before, x, pmtu);
      }
    }
  }

  lemma NoneAsked(ms: seq<TxMeta>, hs: seq<T.Header>, q: nat)
    requires |hs| <= |ms|
    ensures Asked(ms, hs, q, 0) == [] && Net.Pos(hs, 0) == 0
  {
  }

  lemma NothingAsked(start: Psn, pmtu: int)
    requires pmtu > 0
    ensures Headers.InSequence([], start, pmtu) && Headers.Taken([], pmtu) == 0
  {
  }

  lemma {:induction false} NonemptySplit(a: seq<TxMeta>, b: seq<TxMeta>)
    ensures Nonempty(a + b) == Nonempty(a) + Nonempty(b)
  {
    if |a| == 0 {
      assert a + b == b;
    } else {
      assert (a + b)[1..] == a[1..] + b;
      NonemptySplit(a[1..], b);
    }
  }

  /** They are the nonempty ones among the first n reads issued. */
  lemma {:induction false} AskedAreNonempty(ms: seq<TxMeta>, hs: seq<T.Header>, q: nat, n: nat)
    requires n <= |hs| <= |ms|
    ensures var rs, asked := Asked(ms, hs, q, n), Nonempty(ms[..n]);
      |rs| == |asked| && forall k | 0 <= k < |rs| :: rs[k].qp == q && rs[k].vaddr == asked[k].remoteAddr && rs[k].length == asked[k].length
  {
    if n > 0 {
      AskedAreNonempty(ms, hs, q, n - 1);
      assert ms[..n] == ms[..n-1] + [ms[n-1]];
      NonemptySplit(ms[..n-1], [ms[n-1]]);
      assert [ms[n-1]][1..] == [];
    }
  }

  // ----- what the responder sends -----

  /** The packets handed on at the responder are copies of the requests issued; w[i] says of which. */
  ghost predicate CopiesOfRequests(ps: seq<Arrival>, w: seq<nat>, ms: seq<TxMeta>, hs: seq<T.Header>, q: nat, pmtu: int)
    requires pmtu > 0 && |hs| <= |ms|
  {
    && |ps| == |w|
    && forall i | 0 <= i < |ps| ::
         && w[i] < |hs| && |PacketsOf(ms[w[i]], pmtu)| == 1
         && ps[i] == OnWire(PacketsOf(ms[w[i]], pmtu)[0], pmtu).(qp := q, psn := hs[w[i]].psn)
  }

  lemma {:induction false} AskedHas(ms: seq<TxMeta>, hs: seq<T.Header>, q: nat, n: nat, i: nat)
    requires i < n <= |hs| <= |ms| && ms[i].length > 0
    ensures ReadRequestMeta(q, ms[i].remoteAddr, ms[i].length, hs[i].psn) in Asked(ms, hs, q, n)
    decreases n
  {
    if i < n - 1 { AskedHas(ms, hs, q, n - 1, i); }
  }

  /** Whatever order and number the requests come in, the responder is asked only for reads that were issued. */
  lemma {:induction false} ExecutedWereAsked(ps: seq<Arrival>, w: seq<nat>, ms: seq<TxMeta>, hs: seq<T.Header>, q: nat, r: nat, pmtu: int)
    requires pmtu > 0 && |hs| <= |ms| && ReadsOn(ms, r) && CopiesOfRequests(ps, w, ms, hs, q, pmtu)
    ensures forall x | x in ReadsIn(ps) :: x in Asked(ms, hs, q, |hs|)
    decreases |ps|
  {
    hide UdpLength, PacketsOf;
    if |ps| > 0 {
      assert CopiesOfRequests(ps[1..], w[1..], ms, hs, q, pmtu);
      ExecutedWereAsked(ps[1..], w[1..], ms, hs, q, r, pmtu);
      OneRequest(ms[w[0]], pmtu);
      if ms[w[0]].length > 0 {
        AskedHas(ms, hs, q, |hs|, w[0]);
      }
    }
  }

  lemma {:induction false} AmongAll(rs: seq<ReadRequestMeta>, x: ReadRequestMeta, e: TxEvent, pmtu: int)
    requires pmtu > 0 && x in rs && e in ResponsesTo(x, pmtu)
    ensures e in AllResponsesTo(rs, pmtu)
  {
    if rs[0] != x { AmongAll(rs[1..], x, e, pmtu); }
  }

  lemma {:induction false} OfSomeRead(rs: seq<ReadRequestMeta>, e: TxEvent, pmtu: int) returns (x: ReadRequestMeta)
    requires pmtu > 0 && e in AllResponsesTo(rs, pmtu)
    ensures x in rs && e in ResponsesTo(x, pmtu)
  {
    hide ResponsesTo;
    if e in ResponsesTo(rs[0], pmtu) {
      x := rs[0];
    } else {
      x := OfSomeRead(rs[1..], e, pmtu);
    }
  }

  /** So every response it sends is one of the responses to the reads issued. */
  lemma SentWereAsked(d: Conn, ps: seq<Arrival>, w: seq<nat>, ms: seq<TxMeta>, hs: seq<T.Header>, q: nat, r: nat, pmtu: int)
    requires pmtu > 0 && |hs| <= |ms| && ReadsOn(ms, r) && CopiesOfRequests(ps, w, ms, hs, q, pmtu) && d.readRequests == []
    ensures var executed := ReceiveAll(d, ps).readRequests;
      forall e | e in AllResponsesTo(executed, pmtu) :: e in AllResponsesTo(Asked(ms, hs, q, |hs|), pmtu)
  {
    hide ResponsesTo, AllResponsesTo, ReadsIn, Receive, ReceiveAll, Asked, CopiesOfRequests, ReadsOn;
    ReceiveAccounts(d, ps);
    assert [] + ReadsIn(ps) == ReadsIn(ps);
    ExecutedWereAsked(ps, w, ms, hs, q, r, pmtu);
    forall e | e in AllResponsesTo(ReadsIn(ps), pmtu)
      ensures e in AllResponsesTo(Asked(ms, hs, q, |hs|), pmtu)
    {
      var x := OfSomeRead(ReadsIn(ps), e, pmtu);
      AmongAll(Asked(ms, hs, q, |hs|), x, e, pmtu);
    }
  }

  // ----- the extended header stage -----

  /** The packets that are no acknowledgements. */
  function DataOf(ps: seq<Arrival>): seq<Arrival> {
    if |ps| == 0 then [] else DataOf(ps[..|ps|-1]) + (if ps[|ps|-1].op != T.Ack then [ps[|ps|-1]] else [])
  }

  lemma {:induction false} DataSplit(a: seq<Arrival>, b: seq<Arrival>)
    ensures DataOf(a + b) == DataOf(a) + DataOf(b)
  {
    if |b| == 0 {
      assert a + b == a;
    } else {
      assert (a + b)[..|a + b| - 1] == a + b[..|b|-1];
      DataSplit(a, b[..|b|-1]);
    }
  }

  lemma DataPrefix(a: seq<Arrival>, b: seq<Arrival>)
    requires a <= b
    ensures DataOf(a) <= DataOf(b)
  {
    assert b == a + b[|a|..];
    DataSplit(a, b[|a|..]);
  }

  /** Acknowledgements get past the stage without a trace. */
  lemma {:induction false} AcksPass(c: Conn, ps: seq<Arrival>)
    requires Queues.Fed(c, ps)
    ensures Queues.Fed(c, DataOf(ps)) && ReceiveAll(c, DataOf(ps)) == ReceiveAll(c, ps)
    decreases |ps|
  {
    if |ps| > 0 {
      var k, p := |ps| - 1, ps[|ps|-1];
      assert ps == ps[..k] + [p];
      AckLeavesNoTrace(ReceiveAll(c, ps[..k]), p);
      hide Receive, Queues.Fed, ReceiveAll;
      Queues.FedSplit(c, ps[..k], p);
      AcksPass(c, ps[..k]);
      if p.op == T.Ack {
        assert DataOf(ps) == DataOf(ps[..k]);
      } else {
        Queues.FedSplit(c, DataOf(ps[..k]), p);
      }
    }
  }

  lemma AckLeavesNoTrace(c: Conn, p: Arrival)
    ensures p.op == T.Ack ==> Receive(c, p) == c
  {
  }

  /** Addresses queued behind those taken play no part. */
  lemma {:induction false} MoreAddresses(c: Conn, ps: seq<Arrival>, more: seq<nat>)
    requires Queues.Fed(c, ps)
    ensures var d := c.(addrs := c.addrs + more);
      Queues.Fed(d, ps) && ReceiveAll(d, ps).cmds == ReceiveAll(c, ps).cmds
    decreases |more|
  {
    hide Queues.Fed, ReceiveAll;
    if |more| == 0 {
      assert c.addrs + more == c.addrs;
    } else {
      var k := |more| - 1;
      MoreAddresses(c, ps, more[..k]);
      Queues.ExtraAddress(c.(addrs := c.addrs + more[..k]), ps, more[k]);
      assert c.addrs + more == (c.addrs + more[..k]) + [more[k]];
    }
  }

  predicate ReadResponseOp(op: T.OpCode) {
    T.IsResponse(op) && op != T.Ack
  }

  ghost predicate ReadResponseOps(ps: seq<Arrival>) {
    forall i | 0 <= i < |ps| :: ReadResponseOp(ps[i].op)
  }

  /** Each read response that finds its address causes one command. */
  lemma {:induction false} OneCommandEach(c: Conn, ps: seq<Arrival>)
    requires Queues.Fed(c, ps) && ReadResponseOps(ps)
    ensures |ReceiveAll(c, ps).cmds| == |c.cmds| + |ps|
    decreases |ps|
  {
    if |ps| > 0 {
      OneCommand(c, ps[0]);
      hide Receive, ReadResponseOp;
      OneCommandEach(Receive(c, ps[0]), ps[1..]);
    }
  }

  lemma OneCommand(c: Conn, p: Arrival)
    requires ReadResponseOp(p.op) && (Ext.TakesAddress(p.op) ==> |c.addrs| > 0)
    ensures |Receive(c, p).cmds| == |c.cmds| + 1
  {
    hide Payload;
  }

  /** The responses completed, which are the first ones, issue the first commands of the tilings of the local ranges, one each. */
  lemma PartTiles(c: Conn, addrs: seq<nat>, rs: seq<ReadRequestMeta>, ps: seq<Arrival>, pmtu: int) returns (t: seq<seq<MemCmd>>)
    requires ValidPmtu(pmtu) && c.cmds == [] && c.addrs <= addrs && |rs| <= |addrs| && Queues.Fed(c, ps)
    requires forall k | 0 <= k < |rs| :: 0 < rs[k].length < LENGTHS
    requires forall i | 0 <= i < |addrs| :: addrs[i] < ADDRESSES
    requires var cut := Train(AllResponsesTo(rs, pmtu), pmtu);
      && |ps| <= |cut| && ReadResponseOps(cut)
      && forall i | 0 <= i < |ps| :: ps[i] == cut[i].(psn := ps[i].psn, qp := ps[i].qp)
    ensures |t| == |rs| && forall k | 0 <= k < |rs| :: Tiles(t[k], addrs[k], rs[k].length)
    ensures ReceiveAll(c, ps).cmds <= Flat(t) && |ReceiveAll(c, ps).cmds| == |ps|
    ensures |ps| == |AllResponsesTo(rs, pmtu)| ==> ReceiveAll(c, ps).cmds == Flat(t)
  {
    hide ReceiveAll, AllConsumable, Train, AllResponsesTo, Tiles, Flat, Queues.Fed;
    var cut, d := Train(AllResponsesTo(rs, pmtu), pmtu), c.(addrs := addrs);
    assert Writes.NoRequests(cut) by {
      forall i | 0 <= i < |cut| ensures !T.IsReadRequest(cut[i].op) {
        assert ReadResponseOp(cut[i].op);
      }
    }
    assert ReadResponseOps(ps);
    hide ReadResponseOp;
    t := AnswersTile(d, rs, pmtu);
    OneCommandEach(c, ps);
    assert addrs == c.addrs + addrs[|c.addrs|..];
    MoreAddresses(c, ps, addrs[|c.addrs|..]);
    Writes.PartOfAll(d, ps, cut);
    assert [] + Flat(t) == Flat(t);
  }

  // ----- from the transport to the extended headers -----

  /** The read responses that arrive at the stage on r are the ones handed on, copies of the responses ns, each with its own extended header and length. */
  ghost predicate CarriedOn(ps: seq<Arrival>, ns: seq<nat>, es: seq<TxEvent>, r: nat, pmtu: int) {
    && |ps| <= |ns|
    && forall i | 0 <= i < |ps| :: ns[i] < |es| && ps[i] == OnWire(es[ns[i]], pmtu).(qp := r)
  }

  /** The requester's side of the transport: reads only on r, numbered from the oldest unacknowledged PSN, and their answers from the network. */
  ghost predicate Asking(requester: seq<T.Node>, schedule: seq<T.Action>, r: nat, hs: seq<T.Header>,
                         ms: seq<TxMeta>, which: seq<nat>, q: nat, pmtu: int) {
    && pmtu > 0 && T.IsRun(requester, schedule) && |requester| == |schedule| + 1 && r < |requester[0].table|
    && requester[0].table[r].reqNextPsn == requester[0].table[r].reqOldUnack
    && hs == Net.OnQp(T.RequestHeaders(requester[|schedule|].headers), r) && NumberedReads(hs, ms, pmtu)
    && var log := Node.Log(requester, schedule, |schedule|);
       T.QpsBelow(log, |requester[0].table|)
       && Responses.AnswersArrive(requester[0].table, log, which, AllResponsesTo(Asked(ms, hs, q, |hs|), pmtu), r)
  }

  /** The responses handed on in the end. */
  ghost function HandedOn(requester: seq<T.Node>, schedule: seq<T.Action>, r: nat, which: seq<nat>): seq<nat>
    requires |requester| == |schedule| + 1
  {
    var log := Node.Log(requester, schedule, |schedule|);
    if T.QpsBelow(log, |requester[0].table|) && |which| == |log|
    then Responses.HandedOnNumbers(requester[0].table, log, which, r) else []
  }

  lemma AskingParts(requester: seq<T.Node>, schedule: seq<T.Action>, r: nat, hs: seq<T.Header>,
                    ms: seq<TxMeta>, which: seq<nat>, q: nat, pmtu: int)
    requires Asking(requester, schedule, r, hs, ms, which, q, pmtu)
    ensures pmtu > 0 && T.IsRun(requester, schedule) && |requester| == |schedule| + 1 && r < |requester[0].table|
    ensures requester[0].table[r].reqNextPsn == requester[0].table[r].reqOldUnack
    ensures hs == Net.OnQp(T.RequestHeaders(requester[|schedule|].headers), r) && NumberedReads(hs, ms, pmtu)
    ensures var log := Node.Log(requester, schedule, |schedule|);
      T.QpsBelow(log, |requester[0].table|)
      && Responses.AnswersArrive(requester[0].table, log, which, AllResponsesTo(Asked(ms, hs, q, |hs|), pmtu), r)
  {
  }

  /** The requester hands on the first responses, and has acknowledged as many PSNs. */
  lemma HandsOnFirst(requester: seq<T.Node>, schedule: seq<T.Action>, r: nat, hs: seq<T.Header>,
                     ms: seq<TxMeta>, which: seq<nat>, q: nat, pmtu: int)
    requires Asking(requester, schedule, r, hs, ms, which, q, pmtu)
    ensures |requester| == |schedule| + 1 && pmtu > 0 && |hs| <= |ms| && r < |requester[0].table|
    ensures var ns, es := HandedOn(requester, schedule, r, which), AllResponsesTo(Asked(ms, hs, q, |hs|), pmtu);
      var n := requester[|schedule|];
      && |ns| <= |es| && (forall i | 0 <= i < |ns| :: ns[i] == i) && Headers.PlainResponses(es)
      && Responses.ReadResponses(Node.OutOfRx(n).forwarded, r) == Responses.FirstCopies(es, r, |ns|)
      && Node.RxInv(n, requester[0].table, Node.Log(requester, schedule, |schedule|))
      && Node.Apply(n.table, Node.PendingRx(n))[r].reqOldUnack == Add(requester[0].table[r].reqOldUnack, |ns|)
  {
    hide *;
    AskingParts(requester, schedule, r, hs, ms, which, q, pmtu);
    var t, log := requester[0].table, Node.Log(requester, schedule, |schedule|);
    var es := AllResponsesTo(Asked(ms, hs, q, |hs|), pmtu);
    Writes.SenderNumbers(requester, schedule, r, hs);
    NoMoreHeaders(hs, ms, pmtu);
    AskedInSequence(ms, hs, q, t[r].reqOldUnack, pmtu, |hs|);
    Headers.AllNumbered(Asked(ms, hs, q, |hs|), t[r].reqOldUnack, pmtu);
    Responses.AnswersHandedOnOnce(t, log, which, es, r);
    HandedOnIs(requester, schedule, r, which);
    AccountMeans(t, log, which, es, r);
    Node.RunInv(requester, schedule, |schedule|);
    RxParts(requester[|schedule|], t, log);
  }

  lemma NoMoreHeaders(hs: seq<T.Header>, ms: seq<TxMeta>, pmtu: int)
    requires pmtu > 0 && NumberedReads(hs, ms, pmtu)
    ensures |hs| <= |ms|
  {
  }

  lemma HandedOnIs(requester: seq<T.Node>, schedule: seq<T.Action>, r: nat, which: seq<nat>)
    requires |requester| == |schedule| + 1
    requires var log := Node.Log(requester, schedule, |schedule|); T.QpsBelow(log, |requester[0].table|) && |which| == |log|
    ensures HandedOn(requester, schedule, r, which)
      == Responses.HandedOnNumbers(requester[0].table, Node.Log(requester, schedule, |schedule|), which, r)
  {
  }

  lemma AccountMeans(t: seq<T.StateEntry>, log: seq<T.Event>, which: seq<nat>, es: seq<TxEvent>, q: nat)
    requires T.QpsBelow(log, |t|) && q < |t| && |which| == |log| && Responses.FirstHandedOn(t, log, which, es, q)
    ensures var ns := Responses.HandedOnNumbers(t, log, which, q);
      && |ns| <= |es| && (forall i | 0 <= i < |ns| :: ns[i] == i)
      && Responses.ReadResponses(T.Emitted(t, log).forwarded, q) == Responses.FirstCopies(es, q, |ns|)
      && T.After(t, log)[q].reqOldUnack == Add(t[q].reqOldUnack, |ns|)
  {
  }

  lemma RxParts(n: T.Node, t: seq<T.StateEntry>, log: seq<T.Event>)
    requires Node.Inv(n, t, log)
    ensures Node.RxInv(n, t, log) && T.QpsBelow(log, |t|) && |n.table| == |t| && Node.RxShape(n)
    ensures T.After(t, log) == Node.Apply(n.table, Node.PendingRx(n))
    ensures T.Emitted(t, log) == Node.OutOfRx(n)
  {
  }

  lemma FirstOnWire(ps: seq<Arrival>, all: seq<Arrival>, ns: seq<nat>, es: seq<TxEvent>, r: nat, pmtu: int)
    requires ps <= all && CarriedOn(all, ns, es, r, pmtu) && |ns| <= |es| && forall i | 0 <= i < |ns| :: ns[i] == i
    ensures |ps| <= |es| && forall i | 0 <= i < |ps| :: ps[i] == OnWire(es[i], pmtu).(psn := ps[i].psn, qp := ps[i].qp)
  {
    hide UdpLength;
  }

  lemma PlainTrain(es: seq<TxEvent>, pmtu: int)
    requires Headers.PlainResponses(es)
    ensures ReadResponseOps(Train(es, pmtu))
    ensures forall i | 0 <= i < |es| :: Train(es, pmtu)[i] == OnWire(es[i], pmtu)
  {
    Writes.TrainAt(es, pmtu);
    hide UdpLength, Train;
  }

  /** What the stage does for r with the responses it has completed, as one connection of its own. */
  lemma CompletedAlone(nodes: seq<Ext.Node>, schedule: seq<Ext.Action>, k: nat, r: nat) returns (c: Conn, ps: seq<Arrival>)
    requires Ext.IsRun(nodes, schedule) && k <= |schedule| && |nodes| == |schedule| + 1 && r < |nodes[0].table|
    ensures var s, log := Ext.Start(nodes[0]), Ext.Log(nodes, schedule, k);
      && |s.queues| == |s.table| && r < |s.queues| && Ext.QpsBelow(log, |s.table|)
      && ps == DataOf(Queues.PacketsOf(log, r)) && ps <= DataOf(Writes.OfQp(Ext.Arrived(schedule), r))
      && c.addrs == s.queues[r] + Queues.PushedTo(log, r) && c.cmds == []
      && Queues.Fed(c, ps) && Queues.TaggedFor(Queues.TaggedCmds(s, log), r) == ReceiveAll(c, ps).cmds
  {
    var s, log := Ext.Start(nodes[0]), Ext.Log(nodes, schedule, k);
    hide Writes.OfQp, Ext.IsRun, Ext.Log, Ext.Arrived, Queues.PacketsOf, Queues.PushedTo, Queues.OutFor, Queues.TaggedCmds,
      Queues.TaggedFor, Ext.After, Queues.AllServed, ReceiveAll, Queues.Fed, Ext.QpsBelow, DataOf;
    Writes.CompletedInOrder(nodes, schedule, k, r);
    Queues.RunServes(nodes, schedule, k);
    Queues.QueuePairsAreSeparate(s, log, r);
    Queues.CommandsAreSeparate(s, log, r);
    c := Queues.Primed(s, log, r);
    AcksPass(c, Queues.PacketsOf(log, r));
    DataPrefix(Queues.PacketsOf(log, r), Writes.OfQp(Ext.Arrived(schedule), r));
    ps := DataOf(Queues.PacketsOf(log, r));
  }

  /** The local addresses and lengths of the reads. */
  lemma AddressesAndLengths(ms: seq<TxMeta>, hs: seq<T.Header>, q: nat, r: nat)
    requires ReadsOn(ms, r) && |hs| <= |ms|
    ensures var rs, asked, addrs := Asked(ms, hs, q, |hs|), Nonempty(ms[..|hs|]), AddressesOf(AllAddrs(ms));
      && |rs| == |asked| <= |hs| <= |addrs| == |ms|
      && (forall i | 0 <= i < |addrs| :: addrs[i] == ms[i].localAddr < ADDRESSES)
      && (forall k | 0 <= k < |rs| :: 0 < rs[k].length < LENGTHS && rs[k].length == asked[k].length)
  {
    hide Asked, Nonempty, AllAddrs;
    OneAddressEach(ms, r);
    AskedAreNonempty(ms, hs, q, |hs|);
    FewerNonempty(ms[..|hs|]);
    var asked := Nonempty(ms[..|hs|]);
    forall k | 0 <= k < |asked| ensures 0 < asked[k].length < LENGTHS {
      var j :| k <= j < |ms[..|hs|]| && asked[k] == ms[..|hs|][j];
      assert ValidMeta(ms[j]);
    }
  }

  /** Tilings from the queued addresses are tilings of the reads' own ranges exactly for aligned reads. */
  lemma AtHomeIff(t: seq<seq<MemCmd>>, ms: seq<TxMeta>)
    requires |t| == |Nonempty(ms)| <= |ms|
    requires forall k | 0 <= k < |t| :: Tiles(t[k], ms[k].localAddr, Nonempty(ms)[k].length)
    ensures (forall k | 0 <= k < |t| :: Tiles(t[k], Nonempty(ms)[k].localAddr, Nonempty(ms)[k].length)) <==> Aligned(ms)
  {
    FewerNonempty(ms);
    hide Tiles, Nonempty;
    var asked := Nonempty(ms);
    forall k | 0 <= k < |t|
      ensures Tiles(t[k], asked[k].localAddr, asked[k].length) <==> ms[k].localAddr == asked[k].localAddr
    {
      TilesFromOne(t[k], ms[k].localAddr, asked[k].localAddr, asked[k].length);
    }
    if forall k | 0 <= k < |t| :: Tiles(t[k], asked[k].localAddr, asked[k].length) {
      forall k | 0 <= k < |ms| && k < |asked| ensures ms[k].localAddr == asked[k].localAddr {
        assert Tiles(t[k], asked[k].localAddr, asked[k].length);
      }
    }
  }

  /**
   * End to end: reads issued on one queue pair, their answers over the lossy network,
   * next to any traffic of other queue pairs and under any schedules.  Exactly the
   * responses handed on are acknowledged, one PSN each; at every step each response
   * completed has issued one command, and these are, in order, the first commands of
   * tilings of the reads' local ranges; all of them once all responses are completed.
   */
  lemma ReadsReachMemory(ms: seq<TxMeta>, pmtu: int,
                         requester: seq<T.Node>, schedule: seq<T.Action>, r: nat, hs: seq<T.Header>, which: seq<nat>, q: nat,
                         nodes: seq<Ext.Node>, extSchedule: seq<Ext.Action>, k: nat) returns (t: seq<seq<MemCmd>>)
    requires ValidPmtu(pmtu) && ReadsOn(ms, r) && Asking(requester, schedule, r, hs, ms, which, q, pmtu)
    requires Ext.IsRun(nodes, extSchedule) && k <= |extSchedule| && |nodes| == |extSchedule| + 1 && r < |nodes[0].table|
    requires |requester| == |schedule| + 1 && |hs| <= |ms| && r < |nodes[0].queues|
    requires CarriedOn(DataOf(Writes.OfQp(Ext.Arrived(extSchedule), r)), HandedOn(requester, schedule, r, which),
                       AllResponsesTo(Asked(ms, hs, q, |hs|), pmtu), r, pmtu)
    requires nodes[0].queues[r] + Queues.PushedTo(Ext.Log(nodes, extSchedule, k), r) <= AddressesOf(AllAddrs(ms))
    ensures var issued, asked, n := ms[..|hs|], Nonempty(ms[..|hs|]), requester[|schedule|];
      && |t| == |asked| <= |hs|
      && (forall i | 0 <= i < |t| :: Tiles(t[i], ms[i].localAddr, asked[i].length))
      && ((forall i | 0 <= i < |t| :: Tiles(t[i], asked[i].localAddr, asked[i].length)) <==> Aligned(issued))
    ensures var n, t0, handedOn := requester[|schedule|], requester[0].table, HandedOn(requester, schedule, r, which);
      && r < |t0| && Node.RxInv(n, t0, Node.Log(requester, schedule, |schedule|))
      && Node.Apply(n.table, Node.PendingRx(n))[r].reqOldUnack == Add(t0[r].reqOldUnack, |handedOn|)
    ensures var s, log := Ext.Start(nodes[0]), Ext.Log(nodes, extSchedule, k);
      && |s.queues| == |s.table| && Ext.QpsBelow(log, |s.table|)
      && var completed, cmds := DataOf(Queues.PacketsOf(log, r)), Queues.TaggedFor(Queues.TaggedCmds(s, log), r);
      && |cmds| == |completed| <= |HandedOn(requester, schedule, r, which)|
      && cmds <= Flat(t)
      && (|completed| == |AllResponsesTo(Asked(ms, hs, q, |hs|), pmtu)| ==> cmds == Flat(t))
  {
    hide *;
    HandsOnFirst(requester, schedule, r, hs, ms, which, q, pmtu);
    var rs, es := Asked(ms, hs, q, |hs|), AllResponsesTo(Asked(ms, hs, q, |hs|), pmtu);
    var ns, addrs := HandedOn(requester, schedule, r, which), AddressesOf(AllAddrs(ms));
    var c, ps := CompletedAlone(nodes, extSchedule, k, r);
    var all := DataOf(Writes.OfQp(Ext.Arrived(extSchedule), r));
    StartQueues(nodes[0]);
    FirstOnWire(ps, all, ns, es, r, pmtu);
    FewerCarried(all, ns, es, r, pmtu);
    PlainTrain(es, pmtu);
    AddressesAndLengths(ms, hs, q, r);
    PmtuPositive(pmtu);
    t := PartTiles(c, addrs, rs, ps, pmtu);
    var issued := ms[..|hs|];
    assert forall i | 0 <= i < |t| :: ms[i] == issued[i];
    AtHomeIff(t, issued);
  }

  lemma PmtuPositive(pmtu: int)
    requires ValidPmtu(pmtu)
    ensures pmtu > 0
  {
  }

  lemma StartQueues(n: Ext.Node)
    ensures Ext.Start(n).queues == n.queues && Ext.Start(n).table == n.table
  {
  }

  lemma FewerCarried(ps: seq<Arrival>, ns: seq<nat>, es: seq<TxEvent>, r: nat, pmtu: int)
    requires CarriedOn(ps, ns, es, r, pmtu)
    ensures |ps| <= |ns|
  {
  }

  // ----- the bytes read at the responder -----

  lemma {:induction false} ReadsOfEach(rs: seq<ReadRequestMeta>)
    ensures |AllReads(rs)| == |rs|
    ensures forall k | 0 <= k < |rs| :: AllReads(rs)[k] == ReadCmd(rs[k].qp, rs[k].vaddr, rs[k].length)
  {
    if |rs| > 0 { ReadsOfEach(rs[1..]); }
  }

  /** For each nonempty read the responder reads its remote range, and as many bytes are written locally. */
  lemma BytesReadAreWritten(ms: seq<TxMeta>, hs: seq<T.Header>, q: nat, t: seq<seq<MemCmd>>)
    requires |hs| <= |ms| && |t| == |Nonempty(ms[..|hs|])| <= |ms|
    requires forall i | 0 <= i < |t| :: Tiles(t[i], ms[i].localAddr, Nonempty(ms[..|hs|])[i].length)
    ensures var cmds, asked := AllReads(Asked(ms, hs, q, |hs|)), Nonempty(ms[..|hs|]);
      && |cmds| == |t|
      && forall i | 0 <= i < |t| :: cmds[i].addr == asked[i].remoteAddr && cmds[i].length == Writes.Bytes(t[i])
  {
    hide Tiles, Asked, AllReads, Nonempty, Writes.Bytes;
    AskedAreNonempty(ms, hs, q, |hs|);
    ReadsOfEach(Asked(ms, hs, q, |hs|));
    forall i | 0 <= i < |t| ensures Writes.Bytes(t[i]) == Nonempty(ms[..|hs|])[i].length {
      Writes.TilesBytes(t[i], ms[i].localAddr, Nonempty(ms[..|hs|])[i].length);
    }
  }
}
