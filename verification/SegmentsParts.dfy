/**
 * Partial messages: however many packets one is cut into, the receive side issues one
 * command for its whole range, keeps count of what is still to come, and acknowledges
 * every packet.
 */
module SegmentsParts {
  import opened Transport
  import opened Segments
  import opened SegmentsProof

  ghost predicate PartOfMessage(m: TxMeta) {
    ValidMeta(m) && m.op == AppPart && m.length > 0
  }

  /** What a part packet after the first does: it issues no command. */
  lemma NextPart(c: Conn, m: TxMeta, pmtu: int)
    requires ValidPmtu(pmtu) && PartOfMessage(m) && c.dma.vaddr + m.length < ADDRESSES64 && c.dma.length == m.length
    ensures var p, n := OnWire(RestOfWrite(m, pmtu)[0], pmtu), if m.length > pmtu then pmtu else m.length;
      var d := Receive(c, p);
      && Consumable(c, p) && d.cmds == c.cmds && d.addrs == c.addrs && d.acks == c.acks + 1
      && d.dma.vaddr == c.dma.vaddr + n && d.dma.length == m.length - n
  {
    hide UdpLength, Receive, Consumable, Payload;
    var e, n := RestOfWrite(m, pmtu)[0], if m.length > pmtu then pmtu else m.length;
    PayloadRecovered(e, pmtu);
    PartContinues(c, OnWire(e, pmtu), n);
    assert (m.length - n) % LENGTHS == m.length - n;
  }

  lemma PartContinues(c: Conn, p: Arrival, n: nat)
    requires (p.op == PartMiddle || p.op == PartLast) && Payload(p, 24) == n && c.dma.vaddr + n < ADDRESSES64
    ensures var d := Receive(c, p);
      && Consumable(c, p) && d.cmds == c.cmds && d.addrs == c.addrs && d.acks == c.acks + 1
      && d.dma.vaddr == c.dma.vaddr + n && d.dma.length == (c.dma.length - n) % LENGTHS
  {
  }

  lemma {:induction false} RestOfPart(c: Conn, m: TxMeta, pmtu: int)
    requires ValidPmtu(pmtu) && PartOfMessage(m) && c.dma.vaddr + m.length < ADDRESSES64 && c.dma.length == m.length
    ensures var ps := Train(RestOfWrite(m, pmtu), pmtu);
      var d := ReceiveAll(c, ps);
      && AllConsumable(c, ps) && d.cmds == c.cmds && d.addrs == c.addrs && d.acks == c.acks + |ps|
      && d.dma.vaddr == c.dma.vaddr + m.length && d.dma.length == 0
    decreases m.length
  {
    hide OnWire, Receive, Consumable;
    NextPart(c, m, pmtu);
    var es := RestOfWrite(m, pmtu);
    var p := OnWire(es[0], pmtu);
    assert Train(es, pmtu)[1..] == Train(es[1..], pmtu);
    if m.length > pmtu {
      AdvanceValid(m, pmtu);
      assert es[1..] == RestOfWrite(Advance(m, pmtu), pmtu);
      RestOfPart(Receive(c, p), Advance(m, pmtu), pmtu);
    } else {
      assert es[1..] == [];
    }
  }

  lemma FirstPart(c: Conn, m: TxMeta, pmtu: int)
    requires ValidPmtu(pmtu) && PartOfMessage(m)
    ensures var p, n := OnWire(PacketsOf(m, pmtu)[0], pmtu), if m.length > pmtu then pmtu else m.length;
      var d := Receive(c, p);
      && Consumable(c, p) && d.cmds == c.cmds + [MemCmd(m.remoteAddr, m.length, true)]
      && d.addrs == c.addrs && d.acks == c.acks + 1
      && d.dma.vaddr == m.remoteAddr + n && d.dma.length == m.length - n
  {
    hide UdpLength;
    var e, n := PacketsOf(m, pmtu)[0], if m.length > pmtu then pmtu else m.length;
    if m.length > pmtu { FirstPayload(e, pmtu); } else { PayloadRecovered(e, pmtu); }
    hide Payload;
    assert (m.remoteAddr + n) % ADDRESSES64 == m.remoteAddr + n;
    assert (m.length - n) % LENGTHS == m.length - n;
  }

  /** The packets of a partial message of any nonzero length: one command for the whole range, one acknowledgement each, nothing left over. */
  lemma PartIsOneCommand(c: Conn, m: TxMeta, pmtu: int)
    requires ValidPmtu(pmtu) && PartOfMessage(m)
    ensures var ps := Train(PacketsOf(m, pmtu), pmtu);
      var d := ReceiveAll(c, ps);
      && AllConsumable(c, ps) && d.cmds == c.cmds + [MemCmd(m.remoteAddr, m.length, true)]
      && d.addrs == c.addrs && d.acks == c.acks + |ps|
      && d.dma.vaddr == m.remoteAddr + m.length && d.dma.length == 0
  {
    FirstPart(c, m, pmtu);
    hide OnWire, Receive, Consumable;
    var es := PacketsOf(m, pmtu);
    var p := OnWire(es[0], pmtu);
    assert Train(es, pmtu)[1..] == Train(es[1..], pmtu);
    if m.length > pmtu {
      AdvanceValid(m, pmtu);
      assert es[1..] == RestOfWrite(Advance(m, pmtu), pmtu);
      RestOfPart(Receive(c, p), Advance(m, pmtu), pmtu);
    } else {
      assert es[1..] == [];
    }
  }
}
