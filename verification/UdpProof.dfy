/**
 * What is sent over UDP arrives: transmit followed by receive is the identity on
 * ports, length and payload, at every width.
 */
module UdpProof {
  import opened Streams
  import opened Shift
  import opened Packet
  import opened Udp

  // ----- the metadata around the two state machines -----

  type Address = a: int | 0 <= a < 0x1_0000_0000_0000_0000_0000_0000_0000_0000

  datatype IpMeta = IpMeta(theirAddress: Address, length: U16)

  datatype IpUdpMeta = IpUdpMeta(theirAddress: Address, theirPort: U16, myPort: U16, length: U16)

  /** split_tx_meta: 8 bytes more for the header, in 16 bits. */
  function SplitTx(m: IpUdpMeta): (IpMeta, UdpMeta) {
    var length := (m.length + 8) % 0x1_0000;
    (IpMeta(m.theirAddress, length), UdpMeta(m.theirPort, m.myPort, length, true))
  }

  /** merge_rx_meta: only for packets to the listen port. */
  function MergeRx(ip: IpMeta, udp: UdpMeta): seq<IpUdpMeta> {
    if udp.valid then [IpUdpMeta(ip.theirAddress, udp.theirPort, udp.myPort, udp.length)] else []
  }

  /** The metadata at the receiver. */
  function Arrived(m: UdpMeta, listen: U16): UdpMeta {
    UdpMeta(m.myPort, m.theirPort, m.length, m.theirPort == listen)
  }

  /** The payloads of the packets sent to the listen port. */
  function Delivered(ms: seq<UdpMeta>, ps: seq<seq<Byte>>, listen: U16): seq<seq<Byte>>
    requires |ms| == |ps|
  {
    if |ps| == 0 then []
    else Delivered(ms[..|ms|-1], ps[..|ps|-1], listen) + if ms[|ms|-1].theirPort == listen then [ps[|ps|-1]] else []
  }

  lemma HeaderRoundTrip(m: UdpMeta, checksum: seq<Byte>, listen: U16)
    requires |checksum| == 2
    ensures MetaOf(HeaderBytes(m, checksum), listen) == Arrived(m, listen)
    ensures DstPort(HeaderBytes(m, checksum)) == m.theirPort
  {
  }

  lemma DropAllConcat(ps: seq<seq<Byte>>, q: seq<seq<Byte>>, k: nat)
    requires |q| <= 1
    ensures DropAll(ps + q, k) == DropAll(ps, k) + if |q| == 0 then [] else [Drop(q[0], k)]
  {
    if |q| == 0 {
      assert ps + q == ps;
    } else {
      assert q == [q[0]];
      DropAllSnoc(ps, q[0], k);
    }
  }

  lemma ReceivedOne(m: UdpMeta, checksum: seq<Byte>, p: seq<Byte>, W: nat, listen: U16)
    requires |checksum| == 2 && W >= UDP_HEADER && |p| > 0
    ensures var h := HeaderBytes(m, checksum);
      var r := Received(h + p, h, W, listen);
      && |r| == (if m.theirPort == listen then 1 else 0)
      && (|r| > 0 ==> Drop(r[0], Offset(W)) == p && (W > UDP_HEADER ==> |r[0]| > UDP_HEADER))
  {
    HeaderRoundTrip(m, checksum, listen);
    var h := HeaderBytes(m, checksum);
    assert (h + p)[UDP_HEADER..] == p;
    hide HeaderBytes, MetaOf, DstPort;
  }

  /** Receiving what was printed leaves exactly the payloads for the listen port. */
  lemma {:induction false} ReceivesDelivered(ms: seq<UdpMeta>, checksum: seq<Byte>, ps: seq<seq<Byte>>, W: nat, listen: U16)
    requires |checksum| == 2 && W >= UDP_HEADER && |ms| == |ps| && forall i | 0 <= i < |ps| :: |ps[i]| > 0
    ensures var hs := Headers(ms, checksum);
      var r := ReceivedAll(PrependAll(hs, ps), hs, W, listen);
      && DropAll(r, Offset(W)) == Delivered(ms, ps, listen)
      && (W > UDP_HEADER ==> Longer(Parsed(r, []), UDP_HEADER))
  {
    hide HeaderBytes, Received, Offset, DropAll, Drop, ReceivedAll, PrependAll, Headers, Longer;
    if |ps| == 0 {
      NothingReceived(W, listen);
      NoHeaders(ms, checksum, ps);
    } else {
      var n := |ps| - 1;
      var hs', h := Headers(ms[..n], checksum), HeaderBytes(ms[n], checksum);
      var qs := PrependAll(hs', ps[..n]);
      ReceivesDelivered(ms[..n], checksum, ps[..n], W, listen);
      LastHeader(ms, checksum, ps);
      var r, x := ReceivedAll(qs, hs', W, listen), Received(h + ps[n], h, W, listen);
      ReceivedSnoc(qs, hs', h + ps[n], h, W, listen);
      ReceivedOne(ms[n], checksum, ps[n], W, listen);
      DropAllConcat(r, x, Offset(W));
      if W > UDP_HEADER { LongerConcat(r, x); }
    }
  }

  lemma NothingReceived(W: nat, listen: U16)
    requires W >= UDP_HEADER
    ensures ReceivedAll([], [], W, listen) == [] && DropAll([], Offset(W)) == [] && Longer(Parsed([], []), UDP_HEADER)
  {
  }

  lemma NoHeaders(ms: seq<UdpMeta>, checksum: seq<Byte>, ps: seq<seq<Byte>>)
    requires |checksum| == 2 && |ms| == |ps| == 0
    ensures Headers(ms, checksum) == [] && PrependAll(Headers(ms, checksum), ps) == []
  {
  }

  lemma LastHeader(ms: seq<UdpMeta>, checksum: seq<Byte>, ps: seq<seq<Byte>>)
    requires |checksum| == 2 && |ms| == |ps| > 0
    ensures var n := |ps| - 1;
      var hs, hs', h := Headers(ms, checksum), Headers(ms[..n], checksum), HeaderBytes(ms[n], checksum);
      hs == hs' + [h] && PrependAll(hs, ps) == PrependAll(hs', ps[..n]) + [h + ps[n]]
  {
    hide HeaderBytes;
    var n := |ps| - 1;
    assert Headers(ms, checksum)[..n] == Headers(ms[..n], checksum);
  }

  lemma LongerConcat(r: seq<seq<Byte>>, x: seq<seq<Byte>>)
    requires Longer(Parsed(r, []), UDP_HEADER) && |x| <= 1 && (|x| > 0 ==> |x[0]| > UDP_HEADER)
    ensures Longer(Parsed(r + x, []), UDP_HEADER)
  {
  }

  lemma ArrivedMetas(ms: seq<UdpMeta>, checksum: seq<Byte>, listen: U16)
    requires |checksum| == 2
    ensures forall i | 0 <= i < |ms| :: MetasOf(Headers(ms, checksum), listen)[i] == Arrived(ms[i], listen)
  {
    hide HeaderBytes, MetaOf;
    forall i | 0 <= i < |ms|
      ensures MetasOf(Headers(ms, checksum), listen)[i] == Arrived(ms[i], listen)
    {
      HeaderRoundTrip(ms[i], checksum, listen);
    }
  }

  lemma UdpTransmits(W: nat, ms: seq<UdpMeta>, checksum: seq<Byte>, a: seq<Word>, b: seq<Word>, c: seq<Word>, prev: Word, tx: HeaderState)
    requires W >= UDP_HEADER && |checksum| == 2
    requires LeftIdle(W, Offset(W), a, b, prev) && PrintInv(W, Headers(ms, checksum), b, c, META, tx)
    ensures AllFramed(a, W) && AllFramed(c, W) && (Filled(a) ==> Filled(c)) && |ms| == |Parse(a, W).done|
    ensures Parse(c, W) == Parsed(PrependAll(Headers(ms, checksum), Parse(a, W).done), [])
  {
    hide HeaderBytes, PrintInv, LeftIdle, AllFramed, Filled, PrependAll;
    TransmitPrepends(W, UDP_HEADER, Offset(W), Headers(ms, checksum), a, b, c, prev, tx);
  }

  lemma ProcessIdle(W: nat, listen: U16, c: seq<Word>, qs: seq<seq<Byte>>, d: seq<Word>, ms: seq<UdpMeta>, rx: HeaderState)
    requires ProcessInv(W, listen, c, qs, d, ms, false, rx)
    ensures AllFramed(c, W) && AllFramed(d, W) && (Filled(c) ==> Filled(d)) && Heads(qs) && AllBegin(qs, Parse(c, W).done, UDP_HEADER)
    ensures Parse(d, W) == Parsed(ReceivedAll(Parse(c, W).done, qs, W, listen), []) && ms == MetasOf(qs, listen)
  {
  }

  /**
   * Any number of packets with any ports and nonempty payloads, through the shifter
   * and generate_udp at the sender (a to b to c), process_udp and the shifter at the
   * receiver (c to d to e): exactly the payloads for the listen port arrive, in
   * order, and the metadata of every packet, with the ports seen from the other end.
   */
  lemma UdpDelivers(W: nat, ms: seq<UdpMeta>, checksum: seq<Byte>, listen: U16, heads: seq<seq<Byte>>, arrived: seq<UdpMeta>,
                    a: seq<Word>, b: seq<Word>, c: seq<Word>, d: seq<Word>, e: seq<Word>,
                    prev: Word, tx: HeaderState, rx: HeaderState, prev': Word)
    requires W >= UDP_HEADER && |checksum| == 2
    requires LeftIdle(W, Offset(W), a, b, prev) && PrintInv(W, Headers(ms, checksum), b, c, META, tx)
    requires ProcessInv(W, listen, c, heads, d, arrived, false, rx) && RightIdle(W, Offset(W), d, e, prev')
    requires Filled(a)
    ensures AllFramed(a, W) && AllFramed(e, W) && Filled(e) && |ms| == |Parse(a, W).done| == |arrived|
    ensures Parse(e, W) == Parsed(Delivered(ms, Parse(a, W).done, listen), [])
    ensures forall i | 0 <= i < |ms| :: arrived[i] == Arrived(ms[i], listen)
  {
    hide LeftIdle, PrintInv, ProcessInv, RightIdle, AllFramed, Filled, HeaderBytes, ReceivedAll, MetasOf, Longer, Delivered, DropAll, Offset, PrependAll;
    ProcessIdle(W, listen, c, heads, d, arrived, rx);
    UdpTransmits(W, ms, checksum, a, b, c, prev, tx);
    BeginsPrepended(Headers(ms, checksum), heads, Parse(a, W).done, UDP_HEADER);
    FilledPackets(a, W);
    ReceivesDelivered(ms, checksum, Parse(a, W).done, W, listen);
    ArrivedMetas(ms, checksum, listen);
    RightShiftsPackets(W, Offset(W), d, e, prev');
  }

  lemma {:induction false} AllDelivered(ms: seq<UdpMeta>, ps: seq<seq<Byte>>, listen: U16)
    requires |ms| == |ps| && forall i | 0 <= i < |ms| :: ms[i].theirPort == listen
    ensures Delivered(ms, ps, listen) == ps
  {
    if |ps| > 0 {
      AllDelivered(ms[..|ms|-1], ps[..|ps|-1], listen);
      assert ps == ps[..|ps|-1] + [ps[|ps|-1]];
    }
  }

  /** With the listen port as destination, receive undoes transmit: the same words come out, up to bytes that are not valid. */
  lemma UdpRoundTrip(W: nat, ms: seq<UdpMeta>, checksum: seq<Byte>, listen: U16, heads: seq<seq<Byte>>, arrived: seq<UdpMeta>,
                     a: seq<Word>, b: seq<Word>, c: seq<Word>, d: seq<Word>, e: seq<Word>,
                     prev: Word, tx: HeaderState, rx: HeaderState, prev': Word)
    requires W >= UDP_HEADER && |checksum| == 2
    requires LeftIdle(W, Offset(W), a, b, prev) && PrintInv(W, Headers(ms, checksum), b, c, META, tx)
    requires ProcessInv(W, listen, c, heads, d, arrived, false, rx) && RightIdle(W, Offset(W), d, e, prev')
    requires Filled(a) && forall i | 0 <= i < |ms| :: ms[i].theirPort == listen
    ensures AllFramed(a, W) && AllFramed(e, W) && Parse(e, W) == Parse(a, W) && SameWords(a, e)
    ensures |arrived| == |ms| && forall i | 0 <= i < |ms| :: arrived[i] == UdpMeta(ms[i].myPort, listen, ms[i].length, true)
  {
    hide PrintInv, ProcessInv, RightIdle, AllFramed, Filled, SameWords, Delivered;
    UdpDelivers(W, ms, checksum, listen, heads, arrived, a, b, c, d, e, prev, tx, rx, prev');
    LeftShiftsPackets(W, Offset(W), a, b, prev);
    hide LeftIdle;
    AllDelivered(ms, Parse(a, W).done, listen);
    ParseDetermines(a, e, W);
  }

  /** The application's view: the length that arrives is the length sent and the 8 bytes of the header, in 16 bits. */
  lemma MetaRoundTrip(m: IpUdpMeta, listen: U16, from: Address)
    ensures var s := SplitTx(m);
      MergeRx(IpMeta(from, s.0.length), Arrived(s.1, listen))
      == if m.theirPort == listen then [IpUdpMeta(from, m.myPort, listen, (m.length + 8) % 0x1_0000)] else []
  {
  }
}
