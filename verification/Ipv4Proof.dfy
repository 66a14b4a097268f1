/**
 * The receive path of IPv4 as a whole: which headers are stripped at which width, and
 * that what is sent arrives.
 */
module Ipv4Proof {
  import opened Streams
  import opened Shift
  import opened Packet
  import opened Ipv4
  import Receive = Ipv4Receive
  import Remove = Ipv4Drop

  // ----- which headers are stripped -----

  /** The length in units of 4 bytes that the second unit is told, for a header length. */
  function Told(ihl: nat, W: nat): (l: nat)
    requires Width(W)
    ensures l < 16
  {
    (ihl - Receive.Start(W) / 4) % 16
  }

  /** The bytes that the two units take off a packet. */
  function Removed(ihl: nat, W: nat): nat
    requires Width(W)
  {
    Receive.Start(W) + Remove.Dropped(Told(ihl, W), W)
  }

  /** Header lengths for which that is the header. */
  predicate StripsAt(ihl: nat, W: nat) {
    ihl == 5 || (W == 8 && ihl % 2 == 0) || (W == 16 && ihl == 9)
  }

  /** With options, exactly the header is removed for even header lengths at 64 bits and for 9 at 128 bits. */
  lemma RemovedIff(ihl: nat, W: nat)
    requires Width(W) && 5 <= ihl < 16
    ensures Removed(ihl, W) == 4 * ihl <==> StripsAt(ihl, W)
  {
    assert Told(ihl, W) == if Remove.Narrow(W) then ihl - 4 else ihl;
    hide Told;
    if W == 8 {
      Removed64(ihl);
    } else if W == 16 {
      Removed128(ihl);
    }
  }

  lemma Removed64(ihl: nat)
    requires 5 <= ihl < 16 && Told(ihl, 8) == ihl - 4
    ensures Removed(ihl, 8) == if ihl == 5 || ihl % 2 == 0 then 4 * ihl else 4 * ihl - 8
  {
    hide Told;
  }

  lemma Removed128(ihl: nat)
    requires 5 <= ihl < 16 && Told(ihl, 16) == ihl - 4
    ensures Removed(ihl, 16) == if ihl == 5 then 20 else if ihl % 2 == 0 then 8 * ihl - 16 else 8 * ihl - 36
  {
    hide Told;
  }

  /** The packet has words left after those that are read before anything is written; only at 64 and 128 bits that matters. */
  predicate Roomy(p: seq<Byte>, W: nat)
    requires Width(W) && |p| >= IPV4_HEADER
  {
    Remove.Narrow(W) ==> |p| > Receive.Start(W) + Remove.Words(W, Remove.Skip(Told(HeaderLength(p), W), W))
  }

  /** What the receive path can handle: headers of at least 5 units, without options at 256 and 512 bits, and enough words. */
  ghost predicate Manageable(ps: seq<seq<Byte>>, W: nat)
    requires Width(W)
  {
    forall i | 0 <= i < |ps| ::
      && |ps[i]| >= IPV4_HEADER && HeaderLength(ps[i]) >= 5 && Roomy(ps[i], W)
      && (Remove.Narrow(W) || HeaderLength(ps[i]) == 5)
  }

  lemma {:induction false} AllReached(ps: seq<seq<Byte>>, W: nat)
    requires Width(W) && forall i | 0 <= i < |ps| :: |ps[i]| >= IPV4_HEADER
    ensures Receive.Reached(ps, W) == ps && |Receive.PassedAll(ps, W)| == |ps|
    ensures forall i | 0 <= i < |ps| :: Receive.PassedAll(ps, W)[i] == ps[i][Receive.Start(W)..]
  {
    if |ps| > 0 {
      AllReached(ps[..|ps|-1], W);
      assert ps == ps[..|ps|-1] + [ps[|ps|-1]];
    }
  }

  lemma HeadOf(h: seq<Byte>, p: seq<Byte>)
    requires |h| == IPV4_HEADER && |p| >= IPV4_HEADER && Begins(h, p)
    ensures h == p[..IPV4_HEADER] && HeaderLength(h) == HeaderLength(p) && MetaOf(h) == MetaOf(p)
  {
    assert h == p[..IPV4_HEADER];
    assert h[12..16] == p[12..16];
  }

  lemma Reports(W: nat, ps: seq<seq<Byte>>, hs: seq<seq<Byte>>, out: seq<seq<Byte>>, ms: seq<Ipv4Meta>, ls: seq<nat>, rx: HeaderState)
    requires Width(W) && Receive.Done(W, ps, hs, out) && Receive.Reported(W, hs, ms, ls, rx) && !rx.ready
    requires forall i | 0 <= i < |ps| :: |ps[i]| >= IPV4_HEADER
    ensures |ms| == |ls| == |ps| == |out|
    ensures forall i | 0 <= i < |ps| :: ms[i] == MetaOf(ps[i]) && ls[i] == Told(HeaderLength(ps[i]), W)
    ensures forall i | 0 <= i < |ps| :: out[i] == ps[i][Receive.Start(W)..]
  {
    hide MetaOf, HeaderLength, Begins, Receive.Reached, Receive.PassedAll;
    AllReached(ps, W);
    forall i | 0 <= i < |ps|
      ensures ms[i] == MetaOf(ps[i]) && ls[i] == Told(HeaderLength(ps[i]), W)
    {
      assert |hs[i]| == IPV4_HEADER && Begins(hs[i], ps[i]);
      HeadOf(hs[i], ps[i]);
    }
  }

  /** What process_ipv4 has reported and passed on between packets. */
  lemma ReceivedAll(W: nat, p: Receive.History, rx: HeaderState)
    requires Receive.ProcessInv(W, p, rx) && !rx.ready
    ensures Width(W) && AllFramed(p.taken, W) && AllFramed(p.written, W) && (Filled(p.taken) ==> Filled(p.written))
    ensures var ps := Parse(p.taken, W).done;
      (forall i | 0 <= i < |ps| :: |ps[i]| >= IPV4_HEADER) ==>
        && |p.metas| == |p.lengths| == |ps| == |Parse(p.written, W).done|
        && (forall i | 0 <= i < |ps| :: p.metas[i] == MetaOf(ps[i]) && p.lengths[i] == Told(HeaderLength(ps[i]), W))
        && (forall i | 0 <= i < |ps| :: Parse(p.written, W).done[i] == ps[i][Receive.Start(W)..])
  {
    var ps := Parse(p.taken, W).done;
    hide AllFramed, Filled, Receive.Done, Receive.Reported, Receive.Reading;
    if forall i | 0 <= i < |ps| :: |ps[i]| >= IPV4_HEADER {
      Reports(W, ps, p.heads, Parse(p.written, W).done, p.metas, p.lengths, rx);
    }
  }

  /** What the second unit has written between packets, if every length read was that of a packet with room. */
  lemma RemovedAll(W: nat, lengths: seq<nat>, d: seq<Word>, e: seq<Word>, reg: Remove.Reg)
    requires Remove.DropInv(W, lengths, d, e, reg) && reg.state == Remove.META
    requires Width(W) && AllFramed(d, W)
    requires |lengths| == |Parse(d, W).done|
    requires forall i | 0 <= i < |lengths| :: Remove.LongEnough(Parse(d, W).done[i], lengths[i], W) && (Remove.Narrow(W) || lengths[i] == 5)
    ensures AllFramed(e, W) && Parse(d, W).open == []
    ensures Parse(e, W) == Parsed(Remove.DropEach(Parse(d, W).done, lengths, W), [])
    ensures Filled(d) && Remove.AllLonger(W, Parse(d, W).done, lengths) ==> Filled(e)
  {
    hide AllFramed, Filled, Remove.LongEnough, Remove.DropEach, Remove.Begun, Remove.AllLonger;
    Remove.BegunAllIff(lengths, W);
  }

  /** At 256 and 512 bits, the lengths stay in step with the packets exactly if all are 5. */
  lemma InStepIff(W: nat, lengths: seq<nat>, d: seq<Word>, e: seq<Word>, reg: Remove.Reg)
    requires Remove.DropInv(W, lengths, d, e, reg) && reg.state == Remove.META && !Remove.Narrow(W)
    ensures AllFramed(d, W) && |Parse(d, W).done| <= |lengths|
    ensures |Parse(d, W).done| == |lengths| <==> forall i | 0 <= i < |lengths| :: lengths[i] == 5
  {
    hide AllFramed, Filled, Remove.DropEach, Remove.Begun, Remove.AllLonger;
    Remove.BegunAllIff(lengths, W);
  }

  /**
   * Between packets, at every width, as many packets have been taken as lengths that go
   * with one have been read exactly if no packet ended within the words read first.
   */
  lemma PacketsInStepIff(W: nat, lengths: seq<nat>, d: seq<Word>, e: seq<Word>, reg: Remove.Reg)
    requires Remove.DropInv(W, lengths, d, e, reg) && reg.state == Remove.META && Filled(d)
    ensures Width(W) && AllFramed(d, W)
    ensures var ls, n := Remove.Begun(lengths, W), |Parse(d, W).done|;
      && |ls| <= n && Remove.Lasts(e) == |ls|
      && (n == |ls| <==> !Remove.ShortOne(W, Parse(d, W).done, ls))
  {
    Remove.LastsAreDone(d, W);
    hide AllFramed, Filled, Remove.DropRel, Remove.Begun, Remove.AllLonger, Remove.ShortOne;
  }

  lemma RoomIsEnough(p: seq<Byte>, W: nat)
    requires Width(W) && |p| >= IPV4_HEADER && HeaderLength(p) >= 5 && Roomy(p, W)
    requires Remove.Narrow(W) || HeaderLength(p) == 5
    ensures var q, l := p[Receive.Start(W)..], Told(HeaderLength(p), W);
      && Remove.LongEnough(q, l, W) && (Remove.Narrow(W) || l == 5)
      && Drop(q, Remove.Dropped(l, W)) == Drop(p, Removed(HeaderLength(p), W))
      && (Remove.Narrow(W) || |p| > IPV4_HEADER ==> |p| > Removed(HeaderLength(p), W) && |q| > Remove.Dropped(l, W))
      && (Remove.Narrow(W) ==> HeaderLength(p) < 16)
  {
    var q, s, d := p[Receive.Start(W)..], Receive.Start(W), Remove.Dropped(Told(HeaderLength(p), W), W);
    DropTwice(p, s, d);
  }

  lemma DropTwice(p: seq<Byte>, s: nat, d: nat)
    requires s <= |p|
    ensures Drop(p[s..], d) == Drop(p, s + d)
  {
  }

  lemma DropsDiffer(p: seq<Byte>, a: nat, b: nat)
    requires |p| > a
    ensures Drop(p, a) == Drop(p, b) <==> a == b
  {
  }

  /** Both units, between packets, after the stream of packets p.taken. */
  ghost predicate Received(W: nat, p: Receive.History, rx: HeaderState, e: seq<Word>, reg: Remove.Reg) {
    && Receive.ProcessInv(W, p, rx) && !rx.ready
    && Remove.DropInv(W, p.lengths, p.written, e, reg) && reg.state == Remove.META
  }

  ghost predicate AllManageable(ws: seq<Word>, W: nat) {
    Width(W) && AllFramed(ws, W) && Manageable(Parse(ws, W).done, W)
  }

  /**
   * Between packets, for every stream of packets that the receive path can handle: each
   * packet comes out without its first bytes, and these are exactly its header if and
   * only if it has no options, or at 64 bits an even number of units, or 9 at 128 bits.
   */
  lemma HeadersStrippedIff(W: nat, p: Receive.History, rx: HeaderState, e: seq<Word>, reg: Remove.Reg)
    requires Received(W, p, rx, e, reg) && AllManageable(p.taken, W)
    ensures AllFramed(e, W)
    ensures var ps := Parse(p.taken, W).done;
      && |Parse(e, W).done| == |ps| && Parse(e, W).open == []
      && forall i | 0 <= i < |ps| :: StrippedIff(ps[i], Parse(e, W).done[i], W)
  {
    hide Receive.ProcessInv, Remove.DropInv, AllFramed, Filled, HeaderLength, Drop, Removed, StripsAt, Told, Roomy,
      Remove.LongEnough, Remove.Dropped, Receive.Start;
    var ps := Parse(p.taken, W).done;
    ReceivedAll(W, p, rx);
    forall i | 0 <= i < |ps|
      ensures StrippedIff(ps[i], Drop(Parse(p.written, W).done[i], Remove.Dropped(p.lengths[i], W)), W)
      ensures Remove.LongEnough(Parse(p.written, W).done[i], p.lengths[i], W) && (Remove.Narrow(W) || p.lengths[i] == 5)
    {
      OnePacket(ps[i], W);
    }
    RemovedAll(W, p.lengths, p.written, e, reg);
  }

  /** q is p without its first bytes, and without exactly its header under the stated condition. */
  ghost predicate StrippedIff(p: seq<Byte>, q: seq<Byte>, W: nat) {
    && Width(W) && |p| >= IPV4_HEADER
    && q == Drop(p, Removed(HeaderLength(p), W))
    && (|p| > IPV4_HEADER ==> (q == Drop(p, 4 * HeaderLength(p)) <==> StripsAt(HeaderLength(p), W)))
  }

  lemma OnePacket(p: seq<Byte>, W: nat)
    requires Width(W) && |p| >= IPV4_HEADER && HeaderLength(p) >= 5 && Roomy(p, W)
    requires Remove.Narrow(W) || HeaderLength(p) == 5
    ensures var q, l := p[Receive.Start(W)..], Told(HeaderLength(p), W);
      && Remove.LongEnough(q, l, W) && (Remove.Narrow(W) || l == 5)
      && StrippedIff(p, Drop(q, Remove.Dropped(l, W)), W)
  {
    RoomIsEnough(p, W);
    Units(p);
    RemovedIff(HeaderLength(p), W);
    hide Removed, StripsAt, Drop, Told, Receive.Start, Remove.Dropped, HeaderLength;
    if |p| > IPV4_HEADER {
      DropsDiffer(p, Removed(HeaderLength(p), W), 4 * HeaderLength(p));
    }
  }

  lemma Units(p: seq<Byte>)
    requires |p| >= IPV4_HEADER
    ensures HeaderLength(p) < 16
  {
  }

  // ----- round trip -----

  lemma HeaderRoundTrip(m: Ipv4Meta, local: U32, protocol: Byte, rest: seq<Byte>, p: seq<Byte>)
    requires |rest| == 7
    ensures var q := HeaderBytes(m, local, protocol, rest) + p;
      MetaOf(q) == Ipv4Meta(local, (m.length + 20) % 0x1_0000) && HeaderLength(q) == 5
  {
    var h := HeaderBytes(m, local, protocol, rest);
    assert (h + p)[..IPV4_HEADER] == h;
    assert (h + p)[12..16] == h[12..16];
    AddressRoundTrip(local);
    hide Le32, FromLe32;
    assert h[12..16] == Le32(local);
  }

  /** The payload fills more than a word together with what is left of the header. */
  predicate Carried(payload: seq<Byte>, W: nat) {
    |payload| > 0 && (Remove.Narrow(W) ==> |payload| > W - 4)
  }

  ghost predicate AllCarried(ws: seq<Word>, W: nat) {
    AllFramed(ws, W) && forall i | 0 <= i < |Parse(ws, W).done| :: Carried(Parse(ws, W).done[i], W)
  }

  lemma PrintedIsManageable(m: Ipv4Meta, local: U32, protocol: Byte, rest: seq<Byte>, p: seq<Byte>, W: nat)
    requires |rest| == 7 && Width(W) && Carried(p, W)
    ensures var q := HeaderBytes(m, local, protocol, rest) + p;
      && HeaderLength(q) == 5 && Roomy(q, W) && StripsAt(5, W) && Drop(q, 20) == p
      && MetaOf(q) == Ipv4Meta(local, (m.length + 20) % 0x1_0000)
  {
    HeaderRoundTrip(m, local, protocol, rest, p);
    var h := HeaderBytes(m, local, protocol, rest);
    hide HeaderBytes, HeaderLength, MetaOf;
    assert (h + p)[20..] == p;
  }

  lemma Transmits(W: nat, ms: seq<Ipv4Meta>, local: U32, protocol: Byte, unset: seq<Byte>,
                  a: seq<Word>, b: seq<Word>, c: seq<Word>, prev: Word, tx: HeaderState)
    requires Width(W) && |unset| == 7
    requires LeftIdle(W, Rem(IPV4_HEADER, W), a, b, prev) && PrintInv(W, Headers(ms, local, protocol, unset), b, c, META, tx)
    ensures AllFramed(a, W) && AllFramed(c, W) && (Filled(a) ==> Filled(c)) && |ms| == |Parse(a, W).done| && Parse(a, W).open == []
    ensures Parse(c, W) == Parsed(PrependAll(Headers(ms, local, protocol, unset), Parse(a, W).done), [])
  {
    hide LeftIdle, PrintInv, PrependAll, HeaderBytes, Rem;
    TransmitPrepends(W, IPV4_HEADER, Rem(IPV4_HEADER, W), Headers(ms, local, protocol, unset), a, b, c, prev, tx);
    LeftShiftsPackets(W, Rem(IPV4_HEADER, W), a, b, prev);
  }

  /** The packets that arrive are those sent. */
  ghost predicate Arrives(a: seq<Word>, e: seq<Word>, W: nat) {
    AllFramed(a, W) && AllFramed(e, W) && Parse(e, W) == Parse(a, W)
  }

  /** So does the metadata: the sender's address, and the length with the 20 bytes of the header. */
  predicate MetasArrive(ms: seq<Ipv4Meta>, arrived: seq<Ipv4Meta>, local: U32) {
    |ms| == |arrived| && forall i | 0 <= i < |ms| :: arrived[i] == Ipv4Meta(local, (ms[i].length + 20) % 0x1_0000)
  }

  /**
   * Through the shifter and generate_ipv4 at the sender (a to b to p.taken), process_ipv4
   * and ipv4_drop_optional_ip_header at the receiver (to p.written to e), at every width:
   * the same payloads arrive as the same words, with the sender's address and the length
   * of the payload and the header.
   */
  lemma Ipv4RoundTrip(W: nat, ms: seq<Ipv4Meta>, local: U32, protocol: Byte, unset: seq<Byte>,
                      a: seq<Word>, b: seq<Word>, p: Receive.History, e: seq<Word>,
                      prev: Word, tx: HeaderState, rx: HeaderState, reg: Remove.Reg)
    requires Width(W) && |unset| == 7 && AllCarried(a, W) && Filled(a)
    requires LeftIdle(W, Rem(IPV4_HEADER, W), a, b, prev) && PrintInv(W, Headers(ms, local, protocol, unset), b, p.taken, META, tx)
    requires Received(W, p, rx, e, reg)
    ensures Arrives(a, e, W) && SameWords(a, e) && MetasArrive(ms, p.metas, local)
  {
    hide LeftIdle, PrintInv, Receive.ProcessInv, Remove.DropInv, AllFramed, Filled, HeaderBytes, PrependAll, SameWords, MetaOf, HeaderLength,
      Rem, Drop, Removed, Roomy, Carried, StripsAt, Told, Remove.Dropped;
    Transmits(W, ms, local, protocol, unset, a, b, p.taken, prev, tx);
    var hs, payloads, ps := Headers(ms, local, protocol, unset), Parse(a, W).done, Parse(p.taken, W).done;
    forall i | 0 <= i < |ps|
      ensures HeaderLength(ps[i]) == 5 && Roomy(ps[i], W) && StripsAt(5, W) && Drop(ps[i], 20) == payloads[i]
      ensures |ps[i]| > IPV4_HEADER && MetaOf(ps[i]) == Ipv4Meta(local, (ms[i].length + 20) % 0x1_0000)
    {
      PrintedIsManageable(ms[i], local, protocol, unset, payloads[i], W);
      CarriedIsNonempty(payloads[i], W);
      assert ps[i] == hs[i] + payloads[i];
    }
    HeadersStrippedIff(W, p, rx, e, reg);
    ReceivedAll(W, p, rx);
    forall i | 0 <= i < |ps| ensures Parse(e, W).done[i] == payloads[i] {
      assert StrippedIff(ps[i], Parse(e, W).done[i], W);
      assert 4 * HeaderLength(ps[i]) == 20;
    }
    assert Parse(e, W).done == payloads;
    ArrivesFilled(W, p, e, reg);
    ParseDetermines(a, e, W);
  }

  lemma CarriedIsNonempty(payload: seq<Byte>, W: nat)
    requires Carried(payload, W)
    ensures |payload| > 0
  {
  }

  lemma ArrivesFilled(W: nat, p: Receive.History, e: seq<Word>, reg: Remove.Reg)
    requires Width(W) && Remove.DropInv(W, p.lengths, p.written, e, reg) && reg.state == Remove.META
    requires AllFramed(p.taken, W) && AllFramed(p.written, W) && Filled(p.written)
    requires var ps, qs := Parse(p.taken, W).done, Parse(p.written, W).done;
      && |p.lengths| == |ps| == |qs|
      && forall i | 0 <= i < |ps| ::
           && |ps[i]| > IPV4_HEADER && HeaderLength(ps[i]) == 5 && Roomy(ps[i], W)
           && p.lengths[i] == Told(HeaderLength(ps[i]), W) && qs[i] == ps[i][Receive.Start(W)..]
    ensures Filled(e)
  {
    hide Remove.DropInv, AllFramed, Filled, HeaderLength, Drop, Removed, Roomy, Told, Remove.Dropped, Remove.LongEnough;
    var ps, qs := Parse(p.taken, W).done, Parse(p.written, W).done;
    forall i | 0 <= i < |ps|
      ensures Remove.LongEnough(qs[i], p.lengths[i], W) && (Remove.Narrow(W) || p.lengths[i] == 5)
      ensures |qs[i]| > Remove.Dropped(p.lengths[i], W)
    {
      RoomIsEnough(ps[i], W);
    }
    RemovedAll(W, p.lengths, p.written, e, reg);
  }

  // ----- exactly which payloads arrive -----

  /** The second unit has nothing more to write: it waits for a length or a word. */
  predicate Waits(reg: Remove.Reg) {
    reg.state != Remove.LAST && reg.state != Remove.LAST_FIVE
  }

  /** What process_ipv4 has passed on of packets without options, each with its length. */
  ghost predicate Passed(W: nat, d: seq<Word>, ls: seq<nat>, payloads: seq<seq<Byte>>) {
    && Width(W) && AllFramed(d, W) && Filled(d) && Parse(d, W).open == []
    && |Parse(d, W).done| == |ls| == |payloads|
    && forall i | 0 <= i < |ls| :: ls[i] == Told(5, W) && FitsIff(Parse(d, W).done[i], payloads[i], W)
  }

  /** A packet passed on without options is long enough exactly if its payload is. */
  predicate FitsIff(q: seq<Byte>, payload: seq<Byte>, W: nat)
    requires Width(W)
  {
    Remove.LongEnough(q, Told(5, W), W) <==> (Remove.Narrow(W) ==> |payload| > W - 4)
  }

  lemma PassedOne(m: Ipv4Meta, local: U32, protocol: Byte, rest: seq<Byte>, p: seq<Byte>, W: nat)
    requires |rest| == 7 && Width(W)
    ensures var q := HeaderBytes(m, local, protocol, rest) + p;
      Receive.Start(W) <= IPV4_HEADER <= |q| && HeaderLength(q) == 5 && FitsIff(q[Receive.Start(W)..], p, W)
  {
    HeaderRoundTrip(m, local, protocol, rest, p);
    hide HeaderBytes, HeaderLength, MetaOf;
  }

  lemma PassedAll(W: nat, ms: seq<Ipv4Meta>, local: U32, protocol: Byte, unset: seq<Byte>,
                  a: seq<Word>, b: seq<Word>, p: Receive.History, prev: Word, tx: HeaderState, rx: HeaderState)
    requires Width(W) && |unset| == 7 && AllFramed(a, W) && Filled(a)
    requires LeftIdle(W, Rem(IPV4_HEADER, W), a, b, prev) && PrintInv(W, Headers(ms, local, protocol, unset), b, p.taken, META, tx)
    requires Receive.ProcessInv(W, p, rx) && !rx.ready
    ensures Passed(W, p.written, p.lengths, Parse(a, W).done) && Parse(a, W).open == []
  {
    hide *;
    PrintedPackets(W, ms, local, protocol, unset, a, b, p.taken, prev, tx);
    ReceivedAll(W, p, rx);
    ReceivedOpen(W, p, rx);
    AssemblePassed(W, p.written, p.lengths, Parse(a, W).done, Parse(p.taken, W).done);
  }

  lemma AssemblePassed(W: nat, d: seq<Word>, ls: seq<nat>, payloads: seq<seq<Byte>>, ps: seq<seq<Byte>>)
    requires Width(W) && AllFramed(d, W) && Filled(d) && Parse(d, W).open == [] && Receive.Start(W) <= IPV4_HEADER
    requires |Parse(d, W).done| == |ls| == |ps| == |payloads|
    requires forall i | 0 <= i < |ps| ::
      |ps[i]| >= IPV4_HEADER && HeaderLength(ps[i]) == 5 && FitsIff(ps[i][Receive.Start(W)..], payloads[i], W)
    requires forall i | 0 <= i < |ps| :: ls[i] == Told(HeaderLength(ps[i]), W)
    requires forall i | 0 <= i < |ps| :: Parse(d, W).done[i] == ps[i][Receive.Start(W)..]
    ensures Passed(W, d, ls, payloads)
  {
    hide AllFramed, Filled, HeaderLength, Told, Receive.Start, FitsIff, Parse;
  }

  /** The packets that the sender writes, one by one. */
  lemma PrintedPackets(W: nat, ms: seq<Ipv4Meta>, local: U32, protocol: Byte, unset: seq<Byte>,
                       a: seq<Word>, b: seq<Word>, c: seq<Word>, prev: Word, tx: HeaderState)
    requires Width(W) && |unset| == 7
    requires LeftIdle(W, Rem(IPV4_HEADER, W), a, b, prev) && PrintInv(W, Headers(ms, local, protocol, unset), b, c, META, tx)
    ensures AllFramed(a, W) && AllFramed(c, W) && (Filled(a) ==> Filled(c)) && Parse(a, W).open == [] == Parse(c, W).open
    ensures var ps, payloads := Parse(c, W).done, Parse(a, W).done;
      && |ps| == |payloads| && Receive.Start(W) <= IPV4_HEADER
      && forall i | 0 <= i < |ps| ::
           |ps[i]| >= IPV4_HEADER && HeaderLength(ps[i]) == 5 && FitsIff(ps[i][Receive.Start(W)..], payloads[i], W)
  {
    assert Receive.Start(W) <= IPV4_HEADER;
    hide LeftIdle, PrintInv, AllFramed, Filled, HeaderBytes, PrependAll, HeaderLength, Rem, FitsIff, Parse, Receive.Start;
    Transmits(W, ms, local, protocol, unset, a, b, c, prev, tx);
    var hs, payloads, ps := Headers(ms, local, protocol, unset), Parse(a, W).done, Parse(c, W).done;
    forall i | 0 <= i < |ps|
      ensures |ps[i]| >= IPV4_HEADER && HeaderLength(ps[i]) == 5 && Receive.Start(W) <= IPV4_HEADER
        && FitsIff(ps[i][Receive.Start(W)..], payloads[i], W)
    {
      PassedOne(ms[i], local, protocol, unset, payloads[i], W);
      assert ps[i] == hs[i] + payloads[i];
    }
  }

  lemma ReceivedOpen(W: nat, p: Receive.History, rx: HeaderState)
    requires Receive.ProcessInv(W, p, rx) && !rx.ready
    ensures AllFramed(p.taken, W) && AllFramed(p.written, W)
    ensures Parse(p.taken, W).open == [] ==> Parse(p.written, W).open == []
  {
    hide AllFramed, Filled, Receive.Done, Receive.Reported;
  }

  /** Once everything passed on is taken, all packets are written to their end exactly if none was too short. */
  lemma WrittenIff(W: nat, d: seq<Word>, ls: seq<nat>, payloads: seq<seq<Byte>>, lengths: seq<nat>, e: seq<Word>, reg: Remove.Reg)
    requires Passed(W, d, ls, payloads) && lengths <= ls
    requires Remove.DropInv(W, lengths, d, e, reg) && Waits(reg)
    ensures Remove.Lasts(e) == |ls| ==> lengths == ls && reg.state == Remove.META
    ensures Remove.Lasts(e) == |ls| <==> forall i | 0 <= i < |ls| :: Remove.LongEnough(Parse(d, W).done[i], ls[i], W)
  {
    Remove.LastsAreDone(d, W);
    BegunHere(W, lengths);
    var done := Parse(d, W).done;
    hide AllFramed, Filled, Remove.LongEnough, Remove.DropRel, Remove.Begun, Remove.AllLonger, Remove.Lasts, Told;
    if forall i | 0 <= i < |ls| :: Remove.LongEnough(done[i], ls[i], W) {
      assert !Remove.ShortOne(W, done, lengths);
      SoundIsMeta(W, Parse(d, W), lengths, Parse(e, W), reg);
    }
    if Remove.Lasts(e) == |ls| {
      assert lengths == ls;
      assert !Remove.ShortOne(W, done, ls);
    }
  }

  lemma SoundIsMeta(W: nat, t: Parsed, ls: seq<nat>, o: Parsed, r: Remove.Reg)
    requires Width(W) && Remove.DropRel(W, t, ls, o, r) && t.open == [] && |ls| <= |t.done| && Waits(r)
    ensures r.state == Remove.META && |ls| == |t.done|
  {
    hide Remove.OpenRel;
  }

  lemma BegunHere(W: nat, lengths: seq<nat>)
    requires Width(W) && forall i | 0 <= i < |lengths| :: lengths[i] == Told(5, W)
    ensures Remove.Begun(lengths, W) == lengths
  {
    Remove.BegunAllIff(lengths, W);
  }

  /**
   * What is sent without options arrives, once both receiving units have taken all of
   * it, exactly if at 64 and 128 bits every payload is longer than the rest of a word
   * after the 4 bytes of the header that are left in it.
   */
  lemma Ipv4ArrivesIff(W: nat, ms: seq<Ipv4Meta>, local: U32, protocol: Byte, unset: seq<Byte>,
                       a: seq<Word>, b: seq<Word>, p: Receive.History, lengths: seq<nat>, e: seq<Word>,
                       prev: Word, tx: HeaderState, rx: HeaderState, reg: Remove.Reg)
    requires Width(W) && |unset| == 7 && AllFramed(a, W) && Filled(a)
    requires LeftIdle(W, Rem(IPV4_HEADER, W), a, b, prev) && PrintInv(W, Headers(ms, local, protocol, unset), b, p.taken, META, tx)
    requires Receive.ProcessInv(W, p, rx) && !rx.ready
    requires Remove.DropInv(W, lengths, p.written, e, reg) && lengths <= p.lengths && Waits(reg)
    ensures Arrives(a, e, W) <==> (Remove.Narrow(W) ==> forall i | 0 <= i < |Parse(a, W).done| :: |Parse(a, W).done[i]| > W - 4)
  {
    hide LeftIdle, PrintInv, Receive.ProcessInv, Remove.DropInv, AllFramed, Filled, HeaderBytes, Rem, Remove.LongEnough, Told, Remove.Lasts,
      Remove.Narrow, Parse, Waits, AllCarried, SameWords;
    var payloads := Parse(a, W).done;
    PassedAll(W, ms, local, protocol, unset, a, b, p, prev, tx, rx);
    WrittenIff(W, p.written, p.lengths, payloads, lengths, e, reg);
    if Remove.Narrow(W) ==> forall i | 0 <= i < |payloads| :: |payloads[i]| > W - 4 {
      AllAreCarried(a, W);
      Ipv4RoundTrip(W, ms, local, protocol, unset, a, b, p, e, prev, tx, rx, reg);
    } else if Arrives(a, e, W) {
      Remove.LastsAreDone(e, W);
    }
  }

  lemma AllAreCarried(a: seq<Word>, W: nat)
    requires AllFramed(a, W) && Filled(a)
    requires Remove.Narrow(W) ==> forall i | 0 <= i < |Parse(a, W).done| :: |Parse(a, W).done[i]| > W - 4
    ensures AllCarried(a, W)
  {
    FilledPackets(a, W);
  }
}
