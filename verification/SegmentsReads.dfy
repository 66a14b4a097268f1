/**
 * Reads from end to end: issued, cut into requests, answered, and written to local
 * memory.  The requester queues a local address for every read, the responder answers
 * only those that ask for any bytes, so the data of a read lands at its own address
 * exactly as long as no empty read has left an address of another kind in front.
 */
module SegmentsReads {
  import opened Psn
  import opened Transport
  import opened Segments
  import opened SegmentsProof
  import opened SegmentsUnit

  /** Read messages of queue pair q. */
  ghost predicate ReadsOn(ms: seq<TxMeta>, q: nat) {
    forall i | 0 <= i < |ms| :: ValidMeta(ms[i]) && ms[i].qp == q && (ms[i].op == AppRead || ms[i].op == AppReadConsistent)
  }

  function Nonempty(ms: seq<TxMeta>): seq<TxMeta> {
    if |ms| == 0 then [] else (if ms[0].length > 0 then [ms[0]] else []) + Nonempty(ms[1..])
  }

  /** The packets as they were cut, each with the PSN that the header generator gave it. */
  ghost predicate Stamped(ps: seq<Arrival>, cut: seq<Arrival>) {
    |ps| == |cut| && forall i | 0 <= i < |ps| :: ps[i] == cut[i].(psn := ps[i].psn)
  }

  function AddressesOf(queued: seq<ReadAddr>): seq<nat> {
    seq(|queued|, i requires 0 <= i < |queued| => queued[i].addr)
  }

  // ----- the requests -----

  lemma {:induction false} OneAddressEach(ms: seq<TxMeta>, q: nat)
    requires ReadsOn(ms, q)
    ensures |AllAddrs(ms)| == |ms|
    ensures forall i | 0 <= i < |ms| :: AllAddrs(ms)[i] == ReadAddr(q, ms[i].localAddr)
  {
    if |ms| > 0 {
      assert IsRead(ms[0].op);
      OneAddressEach(ms[1..], q);
    }
  }

  /** The responder is asked for the nonempty reads, in the order in which they were issued. */
  lemma {:induction false} NonemptyAreAsked(ms: seq<TxMeta>, q: nat, ps: seq<Arrival>, pmtu: int)
    requires ReadsOn(ms, q) && pmtu > 0 && Stamped(ps, Train(AllPackets(ms, pmtu), pmtu))
    ensures |ReadsIn(ps)| == |Nonempty(ms)|
    ensures forall k | 0 <= k < |ReadsIn(ps)| :: var r, m := ReadsIn(ps)[k], Nonempty(ms)[k];
      r.qp == q && r.vaddr == m.remoteAddr && 0 < r.length == m.length < LENGTHS
    decreases |ms|
  {
    hide OnWire, PacketsOf, IsReadRequest, Train, AllPackets;
    if |ms| == 0 {
      NothingCut(pmtu);
    } else {
      FirstCut(ms, q, pmtu);
      NonemptyAreAsked(ms[1..], q, ps[1..], pmtu);
      assert ReadsIn(ps) == (if ms[0].length > 0 then [ReadRequestMeta(q, ms[0].remoteAddr, ms[0].length, ps[0].psn)] else [])
                            + ReadsIn(ps[1..]);
    }
  }

  lemma NothingCut(pmtu: int)
    requires pmtu > 0
    ensures Train(AllPackets([], pmtu), pmtu) == []
  {
  }

  /** A read is cut into one packet, a request for its remote range. */
  lemma FirstCut(ms: seq<TxMeta>, q: nat, pmtu: int)
    requires ReadsOn(ms, q) && pmtu > 0 && |ms| > 0
    ensures var cut := Train(AllPackets(ms, pmtu), pmtu);
      && |cut| > 0 && cut[1..] == Train(AllPackets(ms[1..], pmtu), pmtu)
      && IsReadRequest(cut[0].op) && (cut[0].op == ReadRequest || cut[0].op == ReadConsistentRequest) && cut[0].qp == q
      && cut[0].rethAddr % ADDRESSES == ms[0].remoteAddr && cut[0].rethLength == ms[0].length
  {
    hide OnWire, PacketsOf, IsReadRequest;
    OneRequest(ms[0], pmtu);
    var es := AllPackets(ms, pmtu);
    assert es[1..] == AllPackets(ms[1..], pmtu) && es[0] == PacketsOf(ms[0], pmtu)[0];
  }

  lemma OneRequest(m: TxMeta, pmtu: int)
    requires pmtu > 0 && ValidMeta(m) && (m.op == AppRead || m.op == AppReadConsistent)
    ensures |PacketsOf(m, pmtu)| == 1
    ensures var p := OnWire(PacketsOf(m, pmtu)[0], pmtu);
      && IsReadRequest(p.op) && (p.op == ReadRequest || p.op == ReadConsistentRequest) && p.qp == m.qp
      && p.rethAddr % ADDRESSES == m.remoteAddr && p.rethLength == m.length
  {
    hide UdpLength;
  }

  lemma {:induction false} RequestsGetThrough(d: Conn, ps: seq<Arrival>)
    requires forall i | 0 <= i < |ps| :: ps[i].op == ReadRequest || ps[i].op == ReadConsistentRequest
    ensures AllConsumable(d, ps)
    decreases |ps|
  {
    if |ps| > 0 { RequestsGetThrough(Receive(d, ps[0]), ps[1..]); }
  }

  lemma {:induction false} RequestOps(ms: seq<TxMeta>, q: nat, pmtu: int)
    requires ReadsOn(ms, q) && pmtu > 0
    ensures var cut := Train(AllPackets(ms, pmtu), pmtu);
      forall i | 0 <= i < |cut| :: cut[i].op == ReadRequest || cut[i].op == ReadConsistentRequest
  {
    hide OnWire, PacketsOf, Train, AllPackets;
    if |ms| == 0 {
      NothingCut(pmtu);
    } else {
      FirstCut(ms, q, pmtu);
      RequestOps(ms[1..], q, pmtu);
      var cut := Train(AllPackets(ms, pmtu), pmtu);
      assert forall i | 1 <= i < |cut| :: cut[i] == cut[1..][i-1];
    }
  }

  // ----- the responses -----

  function AsMessages(rs: seq<ReadRequestMeta>): seq<Message> {
    if |rs| == 0 then [] else [Responses(rs[0])] + AsMessages(rs[1..])
  }

  lemma {:induction false} TrainSplit(a: seq<TxEvent>, b: seq<TxEvent>, pmtu: int)
    ensures Train(a + b, pmtu) == Train(a, pmtu) + Train(b, pmtu)
  {
    if |a| == 0 {
      assert a + b == b;
    } else {
      assert (a + b)[1..] == a[1..] + b;
      TrainSplit(a[1..], b, pmtu);
    }
  }

  lemma {:induction false} ResponseTrains(rs: seq<ReadRequestMeta>, pmtu: int)
    requires pmtu > 0
    ensures Train(AllResponsesTo(rs, pmtu), pmtu) == Trains(AsMessages(rs), pmtu)
    ensures ReadCount(AsMessages(rs)) == |AsMessages(rs)| == |rs|
    ensures forall k | 0 <= k < |rs| :: AsMessages(rs)[k] == Responses(rs[k])
  {
    if |rs| > 0 {
      ResponseTrains(rs[1..], pmtu);
      TrainSplit(ResponsesTo(rs[0], pmtu), AllResponsesTo(rs[1..], pmtu), pmtu);
    }
  }

  lemma {:induction false} EachTiles(t: seq<seq<MemCmd>>, rs: seq<ReadRequestMeta>, addrs: seq<nat>)
    requires ReadCount(AsMessages(rs)) == |rs| <= |addrs|
    requires TilesAll(t, AsMessages(rs), addrs)
    ensures |t| == |rs| && forall k | 0 <= k < |rs| :: Tiles(t[k], addrs[k], rs[k].length)
    decreases |rs|
  {
    if |rs| > 0 {
      assert AsMessages(rs)[1..] == AsMessages(rs[1..]);
      EachTiles(t[1..], rs[1..], addrs[1..]);
    }
  }

  /** All responses, received in order, put the k-th read answered at the k-th local address queued. */
  lemma AnswersTile(c: Conn, rs: seq<ReadRequestMeta>, pmtu: int) returns (t: seq<seq<MemCmd>>)
    requires ValidPmtu(pmtu) && |rs| <= |c.addrs|
    requires forall k | 0 <= k < |rs| :: 0 < rs[k].length < LENGTHS
    requires forall i | 0 <= i < |c.addrs| :: c.addrs[i] < ADDRESSES
    ensures Writes(c, Train(AllResponsesTo(rs, pmtu), pmtu), Flat(t))
    ensures |t| == |rs| && forall k | 0 <= k < |rs| :: Tiles(t[k], c.addrs[k], rs[k].length)
  {
    hide Writes, Tiles, TilesAll, AsMessages, ReadCount;
    ResponseTrains(rs, pmtu);
    t := MessagesTile(c, AsMessages(rs), pmtu);
    EachTiles(t, rs, c.addrs);
  }

  // ----- from issue to memory -----

  /** The k-th read that asks for bytes has the local address of the k-th read. */
  ghost predicate Aligned(ms: seq<TxMeta>) {
    forall k | 0 <= k < |ms| && k < |Nonempty(ms)| :: ms[k].localAddr == Nonempty(ms)[k].localAddr
  }

  /**
   * For every run of reads of a queue pair, the requests get through at the responder,
   * which is asked for reads rs, and the responses to them get through at the requester
   * and write each nonempty read's length in one tiling.  These are the reads' own
   * local ranges exactly if the reads are aligned.
   */
  lemma ReadsLandAtHomeIff(ms: seq<TxMeta>, q: nat, ps: seq<Arrival>, d: Conn, c: Conn, pmtu: int) returns (t: seq<seq<MemCmd>>)
    requires ReadsOn(ms, q) && ValidPmtu(pmtu)
    requires Stamped(ps, Train(AllPackets(ms, pmtu), pmtu))
    requires c.addrs == AddressesOf(AllAddrs(ms))
    ensures AllConsumable(d, ps) && d.readRequests <= ReceiveAll(d, ps).readRequests
    ensures var rs, asked := ReceiveAll(d, ps).readRequests[|d.readRequests|..], Nonempty(ms);
      && Writes(c, Train(AllResponsesTo(rs, pmtu), pmtu), Flat(t))
      && |t| == |asked| <= |ms|
      && (forall k | 0 <= k < |t| :: Tiles(t[k], ms[k].localAddr, asked[k].length))
      && ((forall k | 0 <= k < |t| :: Tiles(t[k], asked[k].localAddr, asked[k].length)) <==> Aligned(ms))
  {
    hide Writes, Tiles, AllResponsesTo, Train, AllPackets, ReadsIn, Receive, AllAddrs, Nonempty;
    RequestOps(ms, q, pmtu);
    RequestsGetThrough(d, ps);
    ReceiveAccounts(d, ps);
    NonemptyAreAsked(ms, q, ps, pmtu);
    OneAddressEach(ms, q);
    FewerNonempty(ms);
    var rs, asked := ReadsIn(ps), Nonempty(ms);
    assert ReceiveAll(d, ps).readRequests[|d.readRequests|..] == rs;
    t := AnswersTile(c, rs, pmtu);
    forall k | 0 <= k < |t| ensures Tiles(t[k], ms[k].localAddr, asked[k].length) {
      assert c.addrs[k] == ms[k].localAddr;
    }
    forall k | 0 <= k < |t|
      ensures Tiles(t[k], asked[k].localAddr, asked[k].length) <==> ms[k].localAddr == asked[k].localAddr
    {
      TilesFromOne(t[k], ms[k].localAddr, asked[k].localAddr, asked[k].length);
    }
    if forall k | 0 <= k < |t| :: Tiles(t[k], asked[k].localAddr, asked[k].length) {
      forall k | 0 <= k < |ms| && k < |Nonempty(ms)| ensures ms[k].localAddr == Nonempty(ms)[k].localAddr {
        assert Tiles(t[k], asked[k].localAddr, asked[k].length);
      }
    }
  }

  lemma TilesFromOne(t: seq<MemCmd>, a: nat, b: nat, length: nat)
    requires Tiles(t, a, length) && length > 0
    ensures Tiles(t, b, length) <==> a == b
  {
  }

  lemma {:induction false} FewerNonempty(ms: seq<TxMeta>)
    ensures |Nonempty(ms)| <= |ms|
    ensures forall k | 0 <= k < |Nonempty(ms)| :: Nonempty(ms)[k].length > 0
    ensures forall k | 0 <= k < |Nonempty(ms)| :: exists j :: k <= j < |ms| && Nonempty(ms)[k] == ms[j]
  {
    if |ms| > 0 {
      FewerNonempty(ms[1..]);
      var rest, shift := Nonempty(ms[1..]), if ms[0].length > 0 then 1 else 0;
      forall k | 0 <= k < |Nonempty(ms)|
        ensures exists j :: k <= j < |ms| && Nonempty(ms)[k] == ms[j]
      {
        if k < shift {
          assert Nonempty(ms)[k] == ms[0];
        } else {
          var j :| k - shift <= j < |ms[1..]| && rest[k - shift] == ms[1..][j];
          assert Nonempty(ms)[k] == ms[j + 1];
        }
      }
    }
  }

  // ----- which reads are aligned -----

  ghost predicate EmptyReadsLast(ms: seq<TxMeta>) {
    forall i, j | 0 <= i < j < |ms| && ms[i].length == 0 :: ms[j].length == 0
  }

  ghost predicate AddressesDiffer(ms: seq<TxMeta>) {
    forall i, j | 0 <= i < j < |ms| :: ms[i].localAddr != ms[j].localAddr
  }

  lemma {:induction false} NoneLeft(ms: seq<TxMeta>)
    ensures |Nonempty(ms)| == 0 <==> forall i | 0 <= i < |ms| :: ms[i].length == 0
  {
    if |ms| > 0 {
      NoneLeft(ms[1..]);
      assert (forall i | 0 <= i < |ms| :: ms[i].length == 0)
        <==> ms[0].length == 0 && (forall i | 0 <= i < |ms[1..]| :: ms[1..][i].length == 0) by { HeadAndTail(ms); }
    }
  }

  lemma HeadAndTail(ms: seq<TxMeta>)
    requires |ms| > 0
    ensures (forall i | 0 <= i < |ms| :: ms[i].length == 0)
      <==> ms[0].length == 0 && (forall i | 0 <= i < |ms[1..]| :: ms[1..][i].length == 0)
  {
    assert ms == [ms[0]] + ms[1..];
  }

  /** Reads with no empty one before a nonempty one are aligned; with different local addresses, only those are. */
  lemma {:induction false} AlignedIffEmptyReadsLast(ms: seq<TxMeta>)
    ensures EmptyReadsLast(ms) ==> Aligned(ms)
    ensures AddressesDiffer(ms) ==> (Aligned(ms) <==> EmptyReadsLast(ms))
  {
    if |Nonempty(ms)| == 0 {
      NoneLeft(ms);
    } else if ms[0].length > 0 {
      AlignedIffEmptyReadsLast(ms[1..]);
      AlignedTail(ms);
      OthersTail(ms);
    } else {
      EmptyFirst(ms);
    }
  }

  lemma EmptyFirst(ms: seq<TxMeta>)
    requires |ms| > 0 && ms[0].length == 0 && |Nonempty(ms)| > 0
    ensures !EmptyReadsLast(ms) && (AddressesDiffer(ms) ==> !Aligned(ms))
  {
    FewerNonempty(ms);
    hide Nonempty;
    var j :| 0 <= j < |ms| && Nonempty(ms)[0] == ms[j];
    assert j > 0 && ms[j].length > 0;
    assert ms[0].localAddr == ms[j].localAddr ==> !AddressesDiffer(ms);
  }

  lemma AlignedTail(ms: seq<TxMeta>)
    requires |ms| > 0 && ms[0].length > 0
    ensures Aligned(ms) <==> Aligned(ms[1..])
  {
    var rest := ms[1..];
    assert Nonempty(ms) == [ms[0]] + Nonempty(rest);
    hide Nonempty;
    assert forall k | 1 <= k < |Nonempty(ms)| :: Nonempty(ms)[k] == Nonempty(rest)[k - 1];
    assert forall k | 0 <= k < |Nonempty(rest)| :: Nonempty(rest)[k] == Nonempty(ms)[k + 1];
  }

  lemma OthersTail(ms: seq<TxMeta>)
    requires |ms| > 0 && ms[0].length > 0
    ensures EmptyReadsLast(ms) <==> EmptyReadsLast(ms[1..])
    ensures AddressesDiffer(ms) ==> AddressesDiffer(ms[1..])
  {
    var rest := ms[1..];
    assert forall i | 0 <= i < |rest| :: rest[i] == ms[i + 1];
    assert forall i | 1 <= i < |ms| :: ms[i] == rest[i - 1];
  }

  /** The failing input: after an empty read of address a, the data of a read of address b is written to a. */
  lemma EmptyReadShiftsNext(q: nat, a: nat, b: nat, remote: nat, length: nat, d: Conn, c: Conn, pmtu: int) returns (t: seq<MemCmd>)
    requires ValidPmtu(pmtu) && a < ADDRESSES && b < ADDRESSES && remote < ADDRESSES && 0 < length < LENGTHS && a != b
    requires var ms := [TxMeta(AppRead, q, a, remote, 0), TxMeta(AppRead, q, b, remote, length)];
      c.addrs == AddressesOf(AllAddrs(ms)) && d.readRequests == []
    ensures var ms := [TxMeta(AppRead, q, a, remote, 0), TxMeta(AppRead, q, b, remote, length)];
      var rs := ReceiveAll(d, Train(AllPackets(ms, pmtu), pmtu)).readRequests;
      && c.addrs == [a, b] && !Aligned(ms)
      && Writes(c, Train(AllResponsesTo(rs, pmtu), pmtu), t) && Tiles(t, a, length) && !Tiles(t, b, length)
  {
    var ms := [TxMeta(AppRead, q, a, remote, 0), TxMeta(AppRead, q, b, remote, length)];
    var ps := Train(AllPackets(ms, pmtu), pmtu);
    assert Nonempty(ms) == [ms[1]] by {
      assert ms[1..] == [ms[1]] && [ms[1]][1..] == [];
      assert Nonempty([ms[1]]) == [ms[1]] + Nonempty([]);
    }
    hide Writes, Tiles, AllResponsesTo, Train, AllPackets, Receive, ReceiveAll, AllAddrs, Nonempty;
    OneAddressEach(ms, q);
    var ts := ReadsLandAtHomeIff(ms, q, ps, d, c, pmtu);
    t := ts[0];
    OneFlat(ts);
    var all := ReceiveAll(d, ps).readRequests;
    assert all[0..] == all;
    TilesFromOne(t, a, b, length);
  }

  lemma OneFlat(ts: seq<seq<MemCmd>>)
    requires |ts| == 1
    ensures Flat(ts) == ts[0]
  {
    assert ts[1..] == [];
    assert ts[0] + [] == ts[0];
  }
}
