/**
 * Cutting a message into packets and receiving them in order writes exactly the
 * message's bytes to exactly its addresses.
 */
module SegmentsProof {
  import opened Psn
  import opened Transport
  import opened Segments

  // ----- tilings -----

  /** The commands cover [base, base + length) from left to right without gap or overlap. */
  predicate Tiles(cmds: seq<MemCmd>, base: nat, length: nat) {
    if |cmds| == 0 then length == 0
    else
      && cmds[0].addr == base && 0 < cmds[0].length <= length
      && Tiles(cmds[1..], base + cmds[0].length, length - cmds[0].length)
  }

  predicate Covers(c: MemCmd, a: int) {
    c.addr <= a < c.addr + c.length
  }

  function CoverCount(cmds: seq<MemCmd>, a: int): nat {
    if |cmds| == 0 then 0 else (if Covers(cmds[0], a) then 1 else 0) + CoverCount(cmds[1..], a)
  }

  /** A tiling writes every address of the range once and no other address. */
  lemma {:induction false} TilesCoverOnce(cmds: seq<MemCmd>, base: nat, length: nat, a: int)
    requires Tiles(cmds, base, length)
    ensures CoverCount(cmds, a) == if base <= a < base + length then 1 else 0
    decreases |cmds|
  {
    if |cmds| > 0 {
      TilesCoverOnce(cmds[1..], base + cmds[0].length, length - cmds[0].length, a);
    }
  }

  lemma {:induction false} TilesJoin(a: seq<MemCmd>, b: seq<MemCmd>, base: nat, m: nat, n: nat)
    requires Tiles(a, base, m) && Tiles(b, base + m, n)
    ensures Tiles(a + b, base, m + n)
    decreases |a|
  {
    if |a| == 0 {
      assert a + b == b;
    } else {
      TilesJoin(a[1..], b, base + a[0].length, m - a[0].length, n);
      assert (a + b)[1..] == a[1..] + b;
    }
  }

  // ----- runs of packets -----

  lemma {:induction false} ReceiveSplit(c: Conn, ps: seq<Arrival>, qs: seq<Arrival>)
    ensures ReceiveAll(c, ps + qs) == ReceiveAll(ReceiveAll(c, ps), qs)
    ensures AllConsumable(c, ps + qs) <==> AllConsumable(c, ps) && AllConsumable(ReceiveAll(c, ps), qs)
    decreases |ps|
  {
    if |ps| == 0 {
      assert ps + qs == qs;
    } else {
      assert (ps + qs)[1..] == ps[1..] + qs;
      ReceiveSplit(Receive(c, ps[0]), ps[1..], qs);
    }
  }

  /** The outcome of receiving ps on c: the packets get through, and new commands t were issued. */
  predicate Writes(c: Conn, ps: seq<Arrival>, t: seq<MemCmd>) {
    && AllConsumable(c, ps)
    && ReceiveAll(c, ps).cmds == c.cmds + t
  }

  lemma WritesJoin(c: Conn, ps: seq<Arrival>, t: seq<MemCmd>, qs: seq<Arrival>, u: seq<MemCmd>)
    requires Writes(c, ps, t) && Writes(ReceiveAll(c, ps), qs, u)
    ensures Writes(c, ps + qs, t + u)
  {
    ReceiveSplit(c, ps, qs);
  }

  lemma FirstThenRest(c: Conn, p: Arrival, cmd: MemCmd, ps: seq<Arrival>, u: seq<MemCmd>)
    requires Consumable(c, p) && Receive(c, p).cmds == c.cmds + [cmd]
    requires Writes(Receive(c, p), ps, u)
    ensures Writes(c, [p] + ps, [cmd] + u)
    ensures ReceiveAll(c, [p] + ps) == ReceiveAll(Receive(c, p), ps)
  {
    assert ([p] + ps)[1..] == ps;
  }

  // ----- writes -----

  /** No 16-bit length wraps, so each side recovers the payload length from the UDP length. */
  lemma PayloadRecovered(e: TxEvent, pmtu: int)
    requires ValidPmtu(pmtu) && e.length <= pmtu
    ensures (e.op == WriteOnly || e.op == PartOnly) ==> Payload(OnWire(e, pmtu), 40) == e.length
    ensures (e.op == ReadRespOnly || e.op == ReadRespFirst || e.op == ReadRespLast) ==> Payload(OnWire(e, pmtu), 28) == e.length
    ensures (e.op == WriteMiddle || e.op == WriteLast || e.op == PartMiddle || e.op == PartLast || e.op == ReadRespMiddle) ==>
      Payload(OnWire(e, pmtu), 24) == e.length
    ensures (e.op == ReadRequest || e.op == ReadConsistentRequest) ==> Payload(OnWire(e, pmtu), 40) == 0
    ensures e.op == Ack ==> Payload(OnWire(e, pmtu), 28) == 0
  {
  }

  /** One more packet of a write: it is written where the previous one ended. */
  lemma NextSegment(c: Conn, m: TxMeta, pmtu: int)
    requires ValidPmtu(pmtu) && ValidMeta(m) && m.op == AppWrite && m.length > 0
    requires c.dma.vaddr + m.length < ADDRESSES64
    ensures var e := RestOfWrite(m, pmtu)[0];
      var p, n := OnWire(e, pmtu), if m.length > pmtu then pmtu else m.length;
      && Consumable(c, p)
      && Receive(c, p).cmds == c.cmds + [MemCmd(c.dma.vaddr, n, false)]
      && Receive(c, p).dma.vaddr == c.dma.vaddr + n
      && (c.dma.length == m.length ==> Receive(c, p).dma.length == m.length - n)
      && Receive(c, p).addrs == c.addrs
      && (m.length <= pmtu ==> p.op == WriteLast)
  {
    hide UdpLength, Receive, Consumable, Payload;
    var e := RestOfWrite(m, pmtu)[0];
    var n := if m.length > pmtu then pmtu else m.length;
    PayloadRecovered(e, pmtu);
    ContinuesAt(c, OnWire(e, pmtu), n);
    assert c.dma.length == m.length ==> (m.length - n) % LENGTHS == m.length - n;
  }

  lemma ContinuesAt(c: Conn, p: Arrival, n: nat)
    requires (p.op == WriteMiddle || p.op == WriteLast) && Payload(p, 24) == n && c.dma.vaddr + n < ADDRESSES64
    ensures Consumable(c, p) && Receive(c, p).cmds == c.cmds + [MemCmd(c.dma.vaddr, n, false)]
    ensures Receive(c, p).dma.vaddr == c.dma.vaddr + n && Receive(c, p).dma.length == (c.dma.length - n) % LENGTHS
    ensures Receive(c, p).addrs == c.addrs
  {
  }

  /** The packets of a write after its first continue at the running address. */
  lemma {:induction false} RestTiles(c: Conn, m: TxMeta, pmtu: int) returns (t: seq<MemCmd>)
    requires ValidPmtu(pmtu) && ValidMeta(m) && m.op == AppWrite && m.length > 0
    requires c.dma.vaddr + m.length < ADDRESSES64
    ensures var ps := Train(RestOfWrite(m, pmtu), pmtu);
      && Writes(c, ps, t) && Tiles(t, c.dma.vaddr, m.length)
      && ReceiveAll(c, ps).dma.vaddr == c.dma.vaddr + m.length
      && (c.dma.length == m.length ==> ReceiveAll(c, ps).dma.length == 0)
      && ReceiveAll(c, ps).addrs == c.addrs
    decreases m.length
  {
    hide OnWire, Receive, Consumable, Writes;
    NextSegment(c, m, pmtu);
    var es := RestOfWrite(m, pmtu);
    var p := OnWire(es[0], pmtu);
    var c' := Receive(c, p);
    if m.length > pmtu {
      AdvanceValid(m, pmtu);
      assert es[1..] == RestOfWrite(Advance(m, pmtu), pmtu);
      var u := RestTiles(c', Advance(m, pmtu), pmtu);
      FirstThenRest(c, p, MemCmd(c.dma.vaddr, pmtu, false), Train(es[1..], pmtu), u);
      t := [MemCmd(c.dma.vaddr, pmtu, false)] + u;
      assert t[1..] == u;
    } else {
      NothingMore(c', pmtu);
      assert es[1..] == [];
      FirstThenRest(c, p, MemCmd(c.dma.vaddr, m.length, false), [], []);
      t := [MemCmd(c.dma.vaddr, m.length, false)] + [];
      assert Train(es, pmtu) == [p] + [];
    }
  }

  lemma AdvanceValid(m: TxMeta, n: nat)
    requires ValidMeta(m) && n <= m.length
    ensures ValidMeta(Advance(m, n)) && Advance(m, n).op == m.op && Advance(m, n).length == m.length - n
  {
  }

  lemma NothingMore(c: Conn, pmtu: int)
    ensures Writes(c, [], []) && ReceiveAll(c, []) == c && Train([], pmtu) == []
  {
  }

  lemma FirstPayload(e: TxEvent, pmtu: int)
    requires ValidPmtu(pmtu) && (e.op == WriteFirst || e.op == PartFirst)
    ensures Payload(OnWire(e, pmtu), 40) == pmtu
  {
  }

  lemma FirstSegment(c: Conn, m: TxMeta, pmtu: int)
    requires ValidPmtu(pmtu) && ValidMeta(m) && m.op == AppWrite && m.length > 0
    ensures var p, n := OnWire(PacketsOf(m, pmtu)[0], pmtu), if m.length > pmtu then pmtu else m.length;
      && Consumable(c, p)
      && Receive(c, p).cmds == c.cmds + [MemCmd(m.remoteAddr, n, false)]
      && Receive(c, p).dma.vaddr == m.remoteAddr + n && Receive(c, p).dma.length == m.length - n
      && Receive(c, p).addrs == c.addrs
  {
    hide UdpLength;
    var e, n := PacketsOf(m, pmtu)[0], if m.length > pmtu then pmtu else m.length;
    if m.length > pmtu { FirstPayload(e, pmtu); } else { PayloadRecovered(e, pmtu); }
    hide Payload;
    assert (m.remoteAddr + n) % ADDRESSES64 == m.remoteAddr + n;
    assert (m.length - n) % LENGTHS == m.length - n;
  }

  /** The packets of a write of any nonzero length write exactly [remote, remote + length), and no length is left over. */
  lemma WriteTiles(c: Conn, m: TxMeta, pmtu: int) returns (t: seq<MemCmd>)
    requires ValidPmtu(pmtu) && ValidMeta(m) && m.op == AppWrite && m.length > 0
    ensures var ps := Train(PacketsOf(m, pmtu), pmtu);
      && Writes(c, ps, t) && Tiles(t, m.remoteAddr, m.length)
      && ReceiveAll(c, ps).dma.vaddr == m.remoteAddr + m.length
      && ReceiveAll(c, ps).dma.length == 0
      && ReceiveAll(c, ps).addrs == c.addrs
  {
    var es := PacketsOf(m, pmtu);
    var p := OnWire(es[0], pmtu);
    FirstSegment(c, m, pmtu);
    hide OnWire, Receive, Consumable, Writes;
    var c' := Receive(c, p);
    if m.length > pmtu {
      AdvanceValid(m, pmtu);
      assert es[1..] == RestOfWrite(Advance(m, pmtu), pmtu);
      var u := RestTiles(c', Advance(m, pmtu), pmtu);
      FirstThenRest(c, p, MemCmd(m.remoteAddr, pmtu, false), Train(es[1..], pmtu), u);
      t := [MemCmd(m.remoteAddr, pmtu, false)] + u;
      assert t[1..] == u;
    } else {
      NothingMore(c', pmtu);
      assert es[1..] == [];
      FirstThenRest(c, p, MemCmd(m.remoteAddr, m.length, false), [], []);
      t := [MemCmd(m.remoteAddr, m.length, false)] + [];
      assert Train(es, pmtu) == [p] + [];
    }
  }

  // ----- what must not come in between -----

  /** The packet, received on this connection, leaves the running address where it is. */
  predicate AddressKept(c: Conn, x: Arrival) {
    match x.op
    case WriteOnly => (x.rethAddr + Payload(x, 40)) % ADDRESSES64 == c.dma.vaddr
    case WriteFirst => (x.rethAddr + Payload(x, 40)) % ADDRESSES64 == c.dma.vaddr
    case PartOnly => (x.rethAddr + Payload(x, 40)) % ADDRESSES64 == c.dma.vaddr
    case PartFirst => (x.rethAddr + Payload(x, 40)) % ADDRESSES64 == c.dma.vaddr
    case WriteMiddle => Payload(x, 24) == 0
    case WriteLast => Payload(x, 24) == 0
    case PartMiddle => Payload(x, 24) == 0
    case PartLast => Payload(x, 24) == 0
    case ReadRequest => x.rethLength == 0 || c.dma.vaddr == 0
    case ReadConsistentRequest => x.rethLength == 0 || c.dma.vaddr == 0
    case ReadRespOnly => |c.addrs| == 0 || (c.addrs[0] + Payload(x, 28)) % ADDRESSES64 == c.dma.vaddr
    case ReadRespFirst => |c.addrs| == 0 || (c.addrs[0] + Payload(x, 28)) % ADDRESSES64 == c.dma.vaddr
    case ReadRespMiddle => Payload(x, 24) == 0
    case _ => true
  }

  /** The packet leaves the remaining length of a write as it is. */
  predicate LengthKept(c: Conn, x: Arrival) {
    match x.op
    case WriteOnly => (x.rethLength - Payload(x, 40)) % LENGTHS == c.dma.length
    case WriteFirst => (x.rethLength - Payload(x, 40)) % LENGTHS == c.dma.length
    case PartOnly => (x.rethLength - Payload(x, 40)) % LENGTHS == c.dma.length
    case PartFirst => (x.rethLength - Payload(x, 40)) % LENGTHS == c.dma.length
    case WriteMiddle => Payload(x, 24) == 0
    case WriteLast => Payload(x, 24) == 0
    case PartMiddle => Payload(x, 24) == 0
    case PartLast => Payload(x, 24) == 0
    case ReadRequest => x.rethLength == 0 || c.dma.length == 0
    case ReadConsistentRequest => x.rethLength == 0 || c.dma.length == 0
    case ReadRespOnly => |c.addrs| == 0 || c.dma.length == 0
    case ReadRespFirst => |c.addrs| == 0 || c.dma.length == 0
    case ReadRespMiddle => c.dma.length == 0
    case _ => true
  }

  predicate FitsRegisters(dma: DmaState) {
    dma.vaddr < ADDRESSES64 && dma.length < LENGTHS
  }

  lemma KeptMeans(c: Conn, x: Arrival)
    requires FitsRegisters(c.dma)
    ensures AddressKept(c, x) <==> Receive(c, x).dma.vaddr == c.dma.vaddr
    ensures LengthKept(c, x) <==> Receive(c, x).dma.length == c.dma.length
    ensures FitsRegisters(Receive(c, x).dma)
  {
    var n := Payload(x, 24);
    AddingKeeps(c.dma.vaddr, n, ADDRESSES64);
    TakingKeeps(c.dma.length, n, LENGTHS);
    hide Payload;
  }

  lemma AddingKeeps(a: nat, n: nat, space: int)
    requires a < space && n < space
    ensures (a + n) % space == a <==> n == 0
  {
    if a + n < space {
    } else {
      assert a + n == 1 * space + (a + n - space);
      assert (a + n) % space == a + n - space;
    }
  }

  lemma TakingKeeps(a: nat, n: nat, space: int)
    requires a < space && n < space
    ensures (a - n) % space == a <==> n == 0
  {
    if a < n {
      assert a - n == -1 * space + (a - n + space);
      assert (a - n) % space == a - n + space;
    }
  }

  lemma SegmentIssued(c: Conn, m: TxMeta, pmtu: int)
    requires ValidPmtu(pmtu) && ValidMeta(m) && m.op == AppWrite && m.length > 0
    ensures var p, n := OnWire(RestOfWrite(m, pmtu)[0], pmtu), if m.length > pmtu then pmtu else m.length;
      && Consumable(c, p)
      && Receive(c, p).cmds == c.cmds + [MemCmd(c.dma.vaddr, n, false)]
      && Receive(c, p).dma.length == (c.dma.length - n) % LENGTHS
  {
    hide UdpLength, Payload, Receive, Consumable;
    var e, n := RestOfWrite(m, pmtu)[0], if m.length > pmtu then pmtu else m.length;
    PayloadRecovered(e, pmtu);
    IssuedAt(c, OnWire(e, pmtu), n);
  }

  lemma IssuedAt(c: Conn, p: Arrival, n: nat)
    requires (p.op == WriteMiddle || p.op == WriteLast) && Payload(p, 24) == n
    ensures Consumable(c, p) && Receive(c, p).cmds == c.cmds + [MemCmd(c.dma.vaddr, n, false)]
    ensures Receive(c, p).dma.length == (c.dma.length - n) % LENGTHS
  {
    hide Payload;
  }

  lemma TakeTwice(a: nat, n: nat, k: nat)
    requires n <= k
    ensures ((a - n) % LENGTHS - (k - n)) % LENGTHS == (a - k) % LENGTHS
  {
  }

  /** Wherever the running address stands, the rest of a write starts there and takes its length off the remaining length. */
  lemma {:induction false} RestIssued(c: Conn, m: TxMeta, pmtu: int) returns (t: seq<MemCmd>)
    requires ValidPmtu(pmtu) && ValidMeta(m) && m.op == AppWrite && m.length > 0
    ensures var ps := Train(RestOfWrite(m, pmtu), pmtu);
      && Writes(c, ps, t) && |t| > 0 && t[0].addr == c.dma.vaddr
      && ReceiveAll(c, ps).dma.length == (c.dma.length - m.length) % LENGTHS
    decreases m.length
  {
    hide OnWire, Receive, Consumable, Writes;
    var es, n := RestOfWrite(m, pmtu), if m.length > pmtu then pmtu else m.length;
    var p, cmd := OnWire(es[0], pmtu), MemCmd(c.dma.vaddr, n, false);
    var c' := Receive(c, p);
    SegmentIssued(c, m, pmtu);
    if m.length > pmtu {
      AdvanceValid(m, pmtu);
      assert es[1..] == RestOfWrite(Advance(m, pmtu), pmtu);
      var u := RestIssued(c', Advance(m, pmtu), pmtu);
      FirstThenRest(c, p, cmd, Train(es[1..], pmtu), u);
      TakeTwice(c.dma.length, pmtu, m.length);
      t := [cmd] + u;
    } else {
      NothingMore(c', pmtu);
      assert es[1..] == [];
      FirstThenRest(c, p, cmd, [], []);
      t := [cmd] + [];
      assert Train(es, pmtu) == [p] + [];
    }
  }

  /**
   * If another packet x of the queue pair is processed inside a write, the remaining
   * packets still land where they belong exactly if x keeps the running address, and
   * no length is left over exactly if x keeps the remaining length.
   */
  lemma InterruptedWriteTilesIff(c: Conn, x: Arrival, m: TxMeta, pmtu: int) returns (t: seq<MemCmd>)
    requires ValidPmtu(pmtu) && ValidMeta(m) && m.op == AppWrite && m.length > 0
    requires FitsRegisters(c.dma) && c.dma.vaddr + m.length < ADDRESSES64 && c.dma.length == m.length
    ensures var ps := Train(RestOfWrite(m, pmtu), pmtu);
      && Writes(Receive(c, x), ps, t)
      && (Tiles(t, c.dma.vaddr, m.length) <==> AddressKept(c, x))
      && (ReceiveAll(Receive(c, x), ps).dma.length == 0 <==> LengthKept(c, x))
  {
    hide Writes, Receive, AddressKept, LengthKept, Payload;
    KeptMeans(c, x);
    TakenOff(Receive(c, x).dma.length, m.length);
    if AddressKept(c, x) {
      t := RestTiles(Receive(c, x), m, pmtu);
      var u := RestIssued(Receive(c, x), m, pmtu);
    } else {
      t := RestIssued(Receive(c, x), m, pmtu);
    }
  }

  lemma TakenOff(a: nat, n: nat)
    requires a < LENGTHS && n < LENGTHS
    ensures (a - n) % LENGTHS == 0 <==> a == n
  {
  }

  /** Acknowledgements, last read responses and empty reads leave it alone. */
  lemma QuietPackets(c: Conn, x: Arrival)
    requires x.op == Ack || x.op == ReadRespLast || (IsReadRequest(x.op) && x.rethLength == 0)
    ensures Receive(c, x).dma == c.dma
  {
  }

  /**
   * A read request, such as a repeated one that is executed again, resets the running
   * address: the rest of a write that it interrupts is written from address 0 on.
   */
  lemma ReadRequestMovesWrite(c: Conn, x: Arrival, m: TxMeta, pmtu: int) returns (t: seq<MemCmd>)
    requires ValidPmtu(pmtu) && ValidMeta(m) && m.op == AppWrite && m.length > 0
    requires (x.op == ReadRequest || x.op == ReadConsistentRequest) && x.rethLength > 0
    ensures Writes(Receive(c, x), Train(RestOfWrite(m, pmtu), pmtu), t)
    ensures Tiles(t, 0, m.length)
  {
    t := RestTiles(Receive(c, x), m, pmtu);
  }

  // ----- reads -----

  lemma {:induction false} RestOfReadTiles(c: Conn, r: ReadRequestMeta, pmtu: int) returns (t: seq<MemCmd>)
    requires ValidPmtu(pmtu) && r.length > 0 && c.dma.vaddr + r.length < ADDRESSES64
    ensures var ps := Train(RestOfRead(r, pmtu), pmtu);
      && Writes(c, ps, t) && Tiles(t, c.dma.vaddr, r.length)
      && ReceiveAll(c, ps).addrs == c.addrs
    decreases r.length
  {
    var es := RestOfRead(r, pmtu);
    var p, n := OnWire(es[0], pmtu), es[0].length;
    var c', cmd := Receive(c, p), MemCmd(c.dma.vaddr, n, false);
    NextResponse(c, r, pmtu);
    hide OnWire, Receive, Consumable, Writes;
    if r.length > pmtu {
      assert es[1..] == RestOfRead(NextRead(r, pmtu), pmtu);
      var u := RestOfReadTiles(c', NextRead(r, pmtu), pmtu);
      FirstThenRest(c, p, cmd, Train(es[1..], pmtu), u);
      t := [cmd] + u;
      assert t[1..] == u;
    } else {
      NothingMore(c', pmtu);
      assert es[1..] == [];
      FirstThenRest(c, p, cmd, [], []);
      t := [cmd] + [];
      assert Train(es, pmtu) == [p] + [];
    }
  }

  lemma NextResponse(c: Conn, r: ReadRequestMeta, pmtu: int)
    requires ValidPmtu(pmtu) && r.length > 0 && c.dma.vaddr + r.length < ADDRESSES64
    ensures var p, n := OnWire(RestOfRead(r, pmtu)[0], pmtu), if r.length > pmtu then pmtu else r.length;
      && Consumable(c, p)
      && Receive(c, p).cmds == c.cmds + [MemCmd(c.dma.vaddr, n, false)]
      && (r.length > pmtu ==> Receive(c, p).dma.vaddr == c.dma.vaddr + n)
      && Receive(c, p).addrs == c.addrs
  {
    hide UdpLength;
    var e := RestOfRead(r, pmtu)[0];
    PayloadRecovered(e, pmtu);
    hide Payload;
    assert (c.dma.vaddr + e.length) % ADDRESSES64 == c.dma.vaddr + e.length;
  }

  /** The responses to a read of any nonzero length write exactly its length from the first queued local address on. */
  lemma ReadTiles(c: Conn, r: ReadRequestMeta, pmtu: int) returns (t: seq<MemCmd>)
    requires ValidPmtu(pmtu) && 0 < r.length < LENGTHS && |c.addrs| > 0 && c.addrs[0] < ADDRESSES
    ensures var ps := Train(ResponsesTo(r, pmtu), pmtu);
      && Writes(c, ps, t) && Tiles(t, c.addrs[0], r.length)
      && ReceiveAll(c, ps).addrs == c.addrs[1..]
  {
    var es := ResponsesTo(r, pmtu);
    var p, n := OnWire(es[0], pmtu), es[0].length;
    var c', cmd := Receive(c, p), MemCmd(c.addrs[0], n, false);
    FirstResponse(c, r, pmtu);
    hide OnWire, Receive, Consumable, Writes;
    if r.length > pmtu {
      assert es[1..] == RestOfRead(NextRead(r, pmtu), pmtu);
      var u := RestOfReadTiles(c', NextRead(r, pmtu), pmtu);
      FirstThenRest(c, p, cmd, Train(es[1..], pmtu), u);
      t := [cmd] + u;
      assert t[1..] == u;
    } else {
      NothingMore(c', pmtu);
      assert es[1..] == [];
      FirstThenRest(c, p, cmd, [], []);
      t := [cmd] + [];
      assert Train(es, pmtu) == [p] + [];
    }
  }

  lemma FirstResponse(c: Conn, r: ReadRequestMeta, pmtu: int)
    requires ValidPmtu(pmtu) && 0 < r.length < LENGTHS && |c.addrs| > 0 && c.addrs[0] < ADDRESSES
    ensures var p, n := OnWire(ResponsesTo(r, pmtu)[0], pmtu), if r.length > pmtu then pmtu else r.length;
      && Consumable(c, p)
      && Receive(c, p).cmds == c.cmds + [MemCmd(c.addrs[0], n, false)]
      && Receive(c, p).dma.vaddr == c.addrs[0] + n
      && Receive(c, p).addrs == c.addrs[1..]
  {
    hide UdpLength;
    var e := ResponsesTo(r, pmtu)[0];
    PayloadRecovered(e, pmtu);
    hide Payload;
    assert (c.addrs[0] + e.length) % ADDRESSES64 == c.addrs[0] + e.length;
  }

  // ----- whole messages in any order -----

  datatype Message = Write(m: TxMeta) | Responses(r: ReadRequestMeta)

  predicate ValidMessage(g: Message) {
    match g
    case Write(m) => ValidMeta(m) && m.op == AppWrite && m.length > 0
    case Responses(r) => 0 < r.length < LENGTHS
  }

  function MessageTrain(g: Message, pmtu: int): seq<Arrival>
    requires pmtu > 0
  {
    match g
    case Write(m) => Train(PacketsOf(m, pmtu), pmtu)
    case Responses(r) => Train(ResponsesTo(r, pmtu), pmtu)
  }

  function Trains(gs: seq<Message>, pmtu: int): seq<Arrival>
    requires pmtu > 0
  {
    if |gs| == 0 then [] else MessageTrain(gs[0], pmtu) + Trains(gs[1..], pmtu)
  }

  function ReadCount(gs: seq<Message>): nat {
    if |gs| == 0 then 0 else (if gs[0].Responses? then 1 else 0) + ReadCount(gs[1..])
  }

  /** The commands are those of the messages in order: each write to its remote range, the n-th read to the n-th local address. */
  predicate TilesAll(t: seq<seq<MemCmd>>, gs: seq<Message>, addrs: seq<nat>)
    requires ReadCount(gs) <= |addrs|
    decreases |gs|
  {
    if |gs| == 0 then |t| == 0
    else
      |t| > 0
      && match gs[0]
         case Write(m) => Tiles(t[0], m.remoteAddr, m.length) && TilesAll(t[1..], gs[1..], addrs)
         case Responses(r) => Tiles(t[0], addrs[0], r.length) && TilesAll(t[1..], gs[1..], addrs[1..])
  }

  function Flat(t: seq<seq<MemCmd>>): seq<MemCmd> {
    if |t| == 0 then [] else t[0] + Flat(t[1..])
  }

  /** Any sequence of whole writes and whole read responses: every message's bytes go exactly where they belong. */
  lemma {:induction false} MessagesTile(c: Conn, gs: seq<Message>, pmtu: int) returns (t: seq<seq<MemCmd>>)
    requires ValidPmtu(pmtu) && ReadCount(gs) <= |c.addrs|
    requires forall i | 0 <= i < |gs| :: ValidMessage(gs[i])
    requires forall i | 0 <= i < |c.addrs| :: c.addrs[i] < ADDRESSES
    ensures Writes(c, Trains(gs, pmtu), Flat(t)) && TilesAll(t, gs, c.addrs)
    decreases |gs|
  {
    if |gs| == 0 {
      t := [];
      NothingMore(c, pmtu);
    } else {
      var first: seq<MemCmd>;
      var ps := MessageTrain(gs[0], pmtu);
      match gs[0] {
        case Write(m) => first := WriteTiles(c, m, pmtu);
        case Responses(r) => first := ReadTiles(c, r, pmtu);
      }
      hide Writes, Tiles, ReceiveAll;
      var rest := MessagesTile(ReceiveAll(c, ps), gs[1..], pmtu);
      WritesJoin(c, ps, first, Trains(gs[1..], pmtu), Flat(rest));
      t := [first] + rest;
      assert t[1..] == rest;
    }
  }

  // ----- what else the packets cause -----

  /** The packets that are acknowledged one by one. */
  function WritesIn(ps: seq<Arrival>): nat {
    if |ps| == 0 then 0 else (if IsWriteOrPart(ps[0].op) then 1 else 0) + WritesIn(ps[1..])
  }

  /** The reads asked for, by the requests that ask for any bytes. */
  function ReadsIn(ps: seq<Arrival>): seq<ReadRequestMeta> {
    if |ps| == 0 then []
    else
      var p := ps[0];
      (if IsReadRequest(p.op) && !p.op.ReadPointerRequest? && p.rethLength > 0
       then [ReadRequestMeta(p.qp, p.rethAddr % ADDRESSES, p.rethLength, p.psn)] else [])
      + ReadsIn(ps[1..])
  }

  /** Whatever arrives, every write packet triggers one acknowledgement and every nonempty read request one read, in order. */
  lemma {:induction false} ReceiveAccounts(c: Conn, ps: seq<Arrival>)
    ensures ReceiveAll(c, ps).acks == c.acks + WritesIn(ps)
    ensures ReceiveAll(c, ps).readRequests == c.readRequests + ReadsIn(ps)
    decreases |ps|
  {
    if |ps| > 0 {
      ReceiveAccounts(Receive(c, ps[0]), ps[1..]);
      hide Payload;
      assert Receive(c, ps[0]).acks == c.acks + if IsWriteOrPart(ps[0].op) then 1 else 0;
    }
  }
}
