/**
 * Messages and packets: how writes, reads and their responses are cut into packets
 * of at most PMTU bytes, and how the receive side turns packets back into memory
 * commands with the help of the MSN table and the queue of local read addresses.
 */
module Segments {
  import opened Psn
  import opened Transport

  const ADDRESSES: int := 0x1_0000_0000_0000      // 48-bit local and remote addresses
  const LENGTHS: int := 0x1_0000_0000             // 32-bit message lengths
  const UDP_LENGTHS: int := 0x1_0000              // 16-bit UDP lengths
  const ADDRESSES64: int := 0x1_0000_0000_0000_0000

  /** The largest packet must fit a UDP length; the shipped configuration has 1408. */
  predicate ValidPmtu(pmtu: int) {
    0 < pmtu && pmtu + 40 < UDP_LENGTHS
  }

  datatype AppOp = AppRead | AppWrite | AppPart | AppPointer | AppReadConsistent

  datatype TxMeta = TxMeta(op: AppOp, qp: nat, localAddr: nat, remoteAddr: nat, length: nat)

  predicate ValidMeta(m: TxMeta) {
    m.localAddr < ADDRESSES && m.remoteAddr < ADDRESSES && m.length < LENGTHS
  }

  // The unit handed to the header generator: an application packet, or a read response with its PSN.
  datatype TxEvent = TxEvent(op: OpCode, qp: nat, addr: nat, length: nat, psn: Psn, validPsn: bool)

  datatype ReadCmd = ReadCmd(qp: nat, addr: nat, length: nat)

  // ----- cutting a message -----

  /** The packets of a write after its first: all but the last are full. */
  function RestOfWrite(m: TxMeta, pmtu: int): seq<TxEvent>
    requires pmtu > 0
    decreases m.length
  {
    if m.length > pmtu then
      [TxEvent(if m.op == AppPart then PartMiddle else WriteMiddle, m.qp, m.remoteAddr, pmtu, 0, false)]
      + RestOfWrite(Advance(m, pmtu), pmtu)
    else
      [TxEvent(if m.op == AppPart then PartLast else WriteLast, m.qp, m.remoteAddr, m.length, 0, false)]
  }

  function Advance(m: TxMeta, n: nat): TxMeta
    requires n <= m.length
  {
    m.(localAddr := (m.localAddr + n) % ADDRESSES, remoteAddr := (m.remoteAddr + n) % ADDRESSES, length := m.length - n)
  }

  /** The packets of a message, in order. */
  function PacketsOf(m: TxMeta, pmtu: int): seq<TxEvent>
    requires pmtu > 0
  {
    match m.op
    case AppRead => [TxEvent(ReadRequest, m.qp, m.remoteAddr, m.length, 0, false)]
    case AppReadConsistent => [TxEvent(ReadConsistentRequest, m.qp, m.remoteAddr, m.length, 0, false)]
    case AppPointer => []
    case _ =>
      if m.length > pmtu then
        [TxEvent(if m.op == AppPart then PartFirst else WriteFirst, m.qp, m.remoteAddr, m.length, 0, false)]
        + RestOfWrite(Advance(m, pmtu), pmtu)
      else
        [TxEvent(if m.op == AppPart then PartOnly else WriteOnly, m.qp, m.remoteAddr, m.length, 0, false)]
  }

  datatype ReadRequestMeta = ReadRequestMeta(qp: nat, vaddr: nat, length: nat, psn: Psn)

  function RestOfRead(r: ReadRequestMeta, pmtu: int): seq<TxEvent>
    requires pmtu > 0
    decreases r.length
  {
    if r.length > pmtu then
      [TxEvent(ReadRespMiddle, r.qp, 0, pmtu, r.psn, true)] + RestOfRead(NextRead(r, pmtu), pmtu)
    else
      [TxEvent(ReadRespLast, r.qp, 0, r.length, r.psn, true)]
  }

  function NextRead(r: ReadRequestMeta, n: nat): ReadRequestMeta
    requires n <= r.length
  {
    r.(vaddr := (r.vaddr + n) % ADDRESSES, length := r.length - n, psn := Add(r.psn, 1))
  }

  /** The responses to a read, in order, from the PSN of the request on. */
  function ResponsesTo(r: ReadRequestMeta, pmtu: int): seq<TxEvent>
    requires pmtu > 0
  {
    if r.length > pmtu then
      [TxEvent(ReadRespFirst, r.qp, 0, pmtu, r.psn, true)] + RestOfRead(NextRead(r, pmtu), pmtu)
    else
      [TxEvent(ReadRespOnly, r.qp, 0, r.length, r.psn, true)]
  }

  /** The number of PSNs a read takes up, as both sides compute it. */
  function NumPkg(length: nat, pmtu: int): nat
    requires pmtu > 0
  {
    (length + (pmtu - 1)) / pmtu
  }

  // ----- on the wire -----

  // What the receive side gets from a packet: base and extended header, and the UDP length.
  datatype Arrival = Arrival(op: OpCode, qp: nat, psn: Psn, rethAddr: nat, rethLength: nat, udpLength: nat)

  /** The length written by generate_exh, plus the UDP header, each in 16 bits. */
  function UdpLength(e: TxEvent, pmtu: int): nat {
    var transport :=
      match e.op
      case WriteFirst => 12 + 16 + pmtu + 4
      case PartFirst => 12 + 16 + pmtu + 4
      case WriteOnly => 12 + 16 + e.length + 4
      case PartOnly => 12 + 16 + e.length + 4
      case ReadRequest => 12 + 16 + 0 + 4
      case ReadConsistentRequest => 12 + 16 + 0 + 4
      case ReadRespOnly => 12 + 4 + e.length + 4
      case ReadRespFirst => 12 + 4 + e.length + 4
      case ReadRespLast => 12 + 4 + e.length + 4
      case Ack => 12 + 4 + 4
      case _ => 12 + e.length + 4;
    (transport % UDP_LENGTHS + 8) % UDP_LENGTHS
  }

  function OnWire(e: TxEvent, pmtu: int): Arrival {
    Arrival(e.op, e.qp, e.psn, e.addr, e.length, UdpLength(e, pmtu))
  }

  function Train(es: seq<TxEvent>, pmtu: int): (ps: seq<Arrival>)
    ensures |ps| == |es|
  {
    if |es| == 0 then [] else [OnWire(es[0], pmtu)] + Train(es[1..], pmtu)
  }

  // ----- the receive side of one queue pair -----

  datatype DmaState = DmaState(msn: nat, vaddr: nat, length: nat)

  datatype MemCmd = MemCmd(addr: nat, length: nat, custom: bool)

  // MSN table entry, queue of local addresses of outstanding reads, and what was emitted.
  datatype Conn = Conn(dma: DmaState, addrs: seq<nat>, cmds: seq<MemCmd>, readRequests: seq<ReadRequestMeta>, acks: nat)

  /** 32-bit payload length after removing the headers. */
  function Payload(p: Arrival, headers: nat): nat {
    (p.udpLength - headers) % LENGTHS
  }

  /** rx_exh_fsm gets past the packet: its length is not zero, or its read address is there. */
  predicate Consumable(c: Conn, p: Arrival) {
    match p.op
    case WriteOnly => p.rethLength != 0
    case WriteFirst => p.rethLength != 0
    case PartOnly => p.rethLength != 0
    case PartFirst => p.rethLength != 0
    case WriteMiddle => true
    case WriteLast => true
    case PartMiddle => true
    case PartLast => true
    case ReadRequest => true
    case ReadConsistentRequest => true
    case ReadRespOnly => |c.addrs| > 0
    case ReadRespFirst => |c.addrs| > 0
    case ReadRespMiddle => true
    case ReadRespLast => true
    case Ack => true
    case _ => false
  }

  /** rx_exh_fsm on one packet, together with the MSN table and the read address queue it asks. */
  function Receive(c: Conn, p: Arrival): Conn {
    var msn := (c.dma.msn + 1) % PSN_SPACE;
    match p.op
    case WriteOnly => ReceiveFirst(c, p, false)
    case WriteFirst => ReceiveFirst(c, p, false)
    case PartOnly => ReceiveFirst(c, p, true)
    case PartFirst => ReceiveFirst(c, p, true)
    case WriteMiddle => ReceiveNext(c, p, false)
    case WriteLast => ReceiveNext(c, p, false)
    case PartMiddle => ReceiveNext(c, p, true)
    case PartLast => ReceiveNext(c, p, true)
    case ReadRequest => ReceiveRead(c, p)
    case ReadConsistentRequest => ReceiveRead(c, p)
    case ReadRespOnly => ReceiveResponse(c, p)
    case ReadRespFirst => ReceiveResponse(c, p)
    case ReadRespLast =>
      c.(cmds := c.cmds + [MemCmd(c.dma.vaddr, Payload(p, 28), false)])
    case ReadRespMiddle =>
      var n := Payload(p, 24);
      c.(cmds := c.cmds + [MemCmd(c.dma.vaddr, n, false)],
         dma := DmaState(msn, (c.dma.vaddr + n) % ADDRESSES64, 0))
    case _ => c
  }

  function ReceiveFirst(c: Conn, p: Arrival, part: bool): Conn {
    var n := Payload(p, 40);
    c.(cmds := c.cmds + [MemCmd(p.rethAddr, if part then p.rethLength else n, part)],
       dma := DmaState((c.dma.msn + 1) % PSN_SPACE, (p.rethAddr + n) % ADDRESSES64, (p.rethLength - n) % LENGTHS),
       acks := c.acks + 1)
  }

  function ReceiveNext(c: Conn, p: Arrival, part: bool): Conn {
    var n := Payload(p, 24);
    c.(cmds := if part then c.cmds else c.cmds + [MemCmd(c.dma.vaddr, n, false)],
       dma := DmaState((c.dma.msn + 1) % PSN_SPACE, (c.dma.vaddr + n) % ADDRESSES64, (c.dma.length - n) % LENGTHS),
       acks := c.acks + 1)
  }

  function ReceiveRead(c: Conn, p: Arrival): Conn {
    if p.rethLength == 0 then c
    else
      c.(readRequests := c.readRequests + [ReadRequestMeta(p.qp, p.rethAddr % ADDRESSES, p.rethLength, p.psn)],
         dma := DmaState((c.dma.msn + 1) % PSN_SPACE, 0, 0))
  }

  function ReceiveResponse(c: Conn, p: Arrival): Conn {
    if |c.addrs| == 0 then c
    else
      var n := Payload(p, 28);
      c.(addrs := c.addrs[1..], cmds := c.cmds + [MemCmd(c.addrs[0], n, false)],
         dma := DmaState(c.dma.msn, (c.addrs[0] + n) % ADDRESSES64, 0))
  }

  function ReceiveAll(c: Conn, ps: seq<Arrival>): Conn
    decreases |ps|
  {
    if |ps| == 0 then c else ReceiveAll(Receive(c, ps[0]), ps[1..])
  }

  predicate AllConsumable(c: Conn, ps: seq<Arrival>)
    decreases |ps|
  {
    |ps| == 0 || (Consumable(c, ps[0]) && AllConsumable(Receive(c, ps[0]), ps[1..]))
  }
}
