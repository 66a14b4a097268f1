/**
 * UDP: generate_udp prints the header in front of every packet, process_udp reads
 * it, keeps the packets for the listen port and passes the ports on.
 */
module Udp {
  import opened Streams
  import opened Shift
  import opened Packet

  const UDP_HEADER: nat := 8

  /** The part of the header that does not fill whole words, as the offset of the shifters. */
  function Offset(W: nat): (k: nat)
    requires W >= UDP_HEADER
    ensures k == if W == UDP_HEADER then 0 else UDP_HEADER
  {
    Rem(UDP_HEADER, W)
  }

  datatype UdpMeta = UdpMeta(theirPort: U16, myPort: U16, length: U16, valid: bool)

  /** Network byte order: the first byte is the high one. */
  function Be(hi: Byte, lo: Byte): U16 {
    hi * 256 + lo
  }

  /** The header set from the metadata; the checksum bytes are what they were. */
  function HeaderBytes(m: UdpMeta, checksum: seq<Byte>): (h: seq<Byte>)
    requires |checksum| == 2
    ensures |h| == UDP_HEADER
  {
    [m.myPort / 256, m.myPort % 256, m.theirPort / 256, m.theirPort % 256, m.length / 256, m.length % 256] + checksum
  }

  function Headers(ms: seq<UdpMeta>, checksum: seq<Byte>): (hs: seq<seq<Byte>>)
    requires |checksum| == 2
    ensures |hs| == |ms| && forall i | 0 <= i < |ms| :: hs[i] == HeaderBytes(ms[i], checksum)
  {
    if |ms| == 0 then [] else Headers(ms[..|ms|-1], checksum) + [HeaderBytes(ms[|ms|-1], checksum)]
  }

  function DstPort(h: seq<Byte>): U16
    requires |h| >= UDP_HEADER
  {
    Be(h[2], h[3])
  }

  /** The metadata read from a header. */
  function MetaOf(h: seq<Byte>, listen: U16): UdpMeta
    requires |h| >= UDP_HEADER
  {
    UdpMeta(Be(h[0], h[1]), DstPort(h), Be(h[4], h[5]), DstPort(h) == listen)
  }

  /** The fields of RFC 768 where they stand in a header printed, and in one read. */
  lemma HeaderLayout(m: UdpMeta, checksum: seq<Byte>, h: seq<Byte>, listen: U16)
    requires |checksum| == 2 && |h| >= UDP_HEADER
    ensures var sent := HeaderBytes(m, checksum);
      && sent[0] as int * 256 + sent[1] as int == m.myPort
      && sent[2] as int * 256 + sent[3] as int == m.theirPort
      && sent[4] as int * 256 + sent[5] as int == m.length
      && sent[6..] == checksum
    ensures var read := MetaOf(h, listen);
      && read.theirPort == h[0] as int * 256 + h[1] as int
      && read.myPort == h[2] as int * 256 + h[3] as int
      && read.length == h[4] as int * 256 + h[5] as int
      && (read.valid <==> h[2] as int * 256 + h[3] as int == listen)
  {
  }

  // ----- generate_udp -----

  class GenerateUdp {
    const W: nat
    const checksum: seq<Byte>
    var state: PrintState
    var header: HeaderState
    ghost var metas: seq<UdpMeta>
    ghost var taken: seq<Word>
    ghost var written: seq<Word>

    ghost predicate Valid()
      reads this
    {
      && |checksum| == 2 && |header.bytes| == UDP_HEADER && header.bytes[6..] == checksum
      && PrintInv(W, Headers(metas, checksum), taken, written, state, header)
    }

    constructor (W: nat, initial: seq<Byte>)
      requires W > 0 && |initial| == UDP_HEADER
      ensures Valid() && this.W == W && checksum == initial[6..] && metas == [] && taken == written == []
    {
      this.W, checksum, state := W, initial[6..], META;
      header := HeaderState(false, 0, initial);
      metas, taken, written := [], [], [];
    }

    method Step(metaIn: seq<UdpMeta>, input: seq<Word>)
      returns (metaRest: seq<UdpMeta>, rest: seq<Word>, output: seq<Word>)
      requires Valid() && AllFramed(input, W)
      modifies this
      ensures Valid()
      ensures old(metas) + metaIn == metas + metaRest
      ensures old(taken) + input == taken + rest && written == old(written) + output
      ensures metaRest == if old(state) == META && |metaIn| > 0 then metaIn[1..] else metaIn
      ensures rest == if (old(state) == PARTIAL_HEADER || old(state) == BODY) && |input| > 0 then input[1..] else input
      ensures |output| == if old(state) == HEADER || rest != input then 1 else 0
    {
      hide PrintInv, ConsumeWord, HeaderBytes, Headers, Framed, AllFramed;
      metaRest, rest, output := metaIn, input, [];
      PrintWidth(W, Headers(metas, checksum), taken, written, state, header);
      if state == META {
        if |metaIn| > 0 {
          var meta := metaIn[0];
          metaRest := metaIn[1..];
          var h := HeaderState(false, 0, HeaderBytes(meta, header.bytes[6..]));
          PrintMeta(W, Headers(metas, checksum), taken, written, header, h);
          HeadersSnoc(metas, meta, checksum);
          header := h;
          state := if UDP_HEADER >= W then HEADER else PARTIAL_HEADER;
          metas := metas + [meta];
          assert metaIn == [meta] + metaRest;
        }
      } else if state == HEADER {
        var c := ConsumeWord(header, Zeros(W), W);
        PrintHeader(W, Headers(metas, checksum), taken, written, header, Zeros(W));
        output := [Word(c.1, Low(32, W), false)];
        header := c.0;
        if c.2 < W {
          state := PARTIAL_HEADER;
        }
      } else if |input| > 0 {
        var currWord := input[0];
        rest := input[1..];
        FirstFramed(input, W);
        FramedShape(currWord, W);
        if state == PARTIAL_HEADER {
          var c := ConsumeWord(header, currWord.data, W);
          PrintPartial(W, Headers(metas, checksum), taken, written, header, currWord, currWord.(data := c.1));
          output := [currWord.(data := c.1)];
          header := c.0;
        } else {
          PrintBody(W, Headers(metas, checksum), taken, written, header, currWord);
          output := [currWord];
        }
        state := if currWord.last then META else BODY;
        taken := taken + [currWord];
        assert input == [currWord] + rest;
      }
      assert output == [] ==> written + output == written;
      written := written + output;
    }
  }

  lemma HeadersSnoc(ms: seq<UdpMeta>, m: UdpMeta, checksum: seq<Byte>)
    requires |checksum| == 2
    ensures Headers(ms + [m], checksum) == Headers(ms, checksum) + [HeaderBytes(m, checksum)]
    ensures HeaderBytes(m, checksum)[6..] == checksum
  {
    assert (ms + [m])[..|ms|] == ms;
  }

  // ----- process_udp -----

  ghost predicate Heads(hs: seq<seq<Byte>>) {
    forall i | 0 <= i < |hs| :: |hs[i]| == UDP_HEADER
  }

  /** What is passed on of a packet read with header h: at 8 bytes width without the header word, else with the header. */
  function Received(p: seq<Byte>, h: seq<Byte>, W: nat, listen: U16): seq<seq<Byte>>
    requires |h| == UDP_HEADER
  {
    if DstPort(h) != listen then []
    else if W > UDP_HEADER then [p]
    else if |p| > UDP_HEADER then [p[UDP_HEADER..]]
    else []
  }

  ghost function ReceivedAll(ps: seq<seq<Byte>>, hs: seq<seq<Byte>>, W: nat, listen: U16): seq<seq<Byte>>
    requires |hs| == |ps| && Heads(hs)
  {
    if |ps| == 0 then []
    else ReceivedAll(ps[..|ps|-1], hs[..|hs|-1], W, listen) + Received(ps[|ps|-1], hs[|hs|-1], W, listen)
  }

  ghost function MetasOf(hs: seq<seq<Byte>>, listen: U16): (ms: seq<UdpMeta>)
    requires Heads(hs)
    ensures |ms| == |hs| && forall i | 0 <= i < |hs| :: ms[i] == MetaOf(hs[i], listen)
  {
    seq(|hs|, i requires 0 <= i < |hs| => MetaOf(hs[i], listen))
  }

  lemma ReceivedSnoc(ps: seq<seq<Byte>>, hs: seq<seq<Byte>>, p: seq<Byte>, h: seq<Byte>, W: nat, listen: U16)
    requires |hs| == |ps| && Heads(hs) && |h| == UDP_HEADER
    ensures Heads(hs + [h])
    ensures ReceivedAll(ps + [p], hs + [h], W, listen) == ReceivedAll(ps, hs, W, listen) + Received(p, h, W, listen)
  {
    assert (ps + [p])[..|ps|] == ps && (hs + [h])[..|hs|] == hs;
  }

  lemma MetasSnoc(hs: seq<seq<Byte>>, h: seq<Byte>, listen: U16)
    requires Heads(hs) && |h| == UDP_HEADER
    ensures Heads(hs + [h]) && MetasOf(hs + [h], listen) == MetasOf(hs, listen) + [MetaOf(h, listen)]
  {
  }

  /** The part of an unfinished packet that has been passed on. */
  function OpenPart(p: seq<Byte>, h: seq<Byte>, W: nat, listen: U16): seq<Byte>
    requires |h| == UDP_HEADER && |p| >= UDP_HEADER
  {
    if DstPort(h) != listen then [] else if W > UDP_HEADER then p else p[UDP_HEADER..]
  }

  /** Of the packets completed, the headers read begin them, and what is written follows from them. */
  ghost predicate Done(W: nat, listen: U16, ps: seq<seq<Byte>>, hs: seq<seq<Byte>>, out: seq<seq<Byte>>) {
    Heads(hs) && AllBegin(hs, ps, UDP_HEADER) && out == ReceivedAll(ps, hs, W, listen)
  }

  ghost predicate ProcessRel(W: nat, listen: U16, t: Parsed, hs: seq<seq<Byte>>, o: Parsed, ms: seq<UdpMeta>,
                             metaWritten: bool, header: HeaderState) {
    && W >= UDP_HEADER && |header.bytes| == UDP_HEADER
    && Done(W, listen, t.done, hs, o.done)
    && if metaWritten then
         && |t.open| >= W && header.ready && Begins(header.bytes, t.open)
         && o.open == OpenPart(t.open, header.bytes, W, listen)
         && ms == MetasOf(hs, listen) + [MetaOf(header.bytes, listen)]
       else !header.ready && header.idx == 0 && t.open == [] && o.open == [] && ms == MetasOf(hs, listen)
  }

  ghost predicate ProcessInv(W: nat, listen: U16, taken: seq<Word>, hs: seq<seq<Byte>>, written: seq<Word>, ms: seq<UdpMeta>,
                             metaWritten: bool, header: HeaderState) {
    && AllFramed(taken, W) && AllFramed(written, W) && (Filled(taken) ==> Filled(written))
    && ProcessRel(W, listen, Parse(taken, W), hs, Parse(written, W), ms, metaWritten, header)
  }

  function Cleared(h: HeaderState): HeaderState {
    h.(ready := false, idx := 0)
  }

  lemma ProcessStep(W: nat, listen: U16, t: Parsed, hs: seq<seq<Byte>>, o: Parsed, ms: seq<UdpMeta>, metaWritten: bool, header: HeaderState,
                    cur: Word, h: HeaderState, output: seq<Word>, metaOut: seq<UdpMeta>)
    requires ProcessRel(W, listen, t, hs, o, ms, metaWritten, header) && Framed(cur, W) && Len(cur.keep) > 0
    requires |cur.data| == W && h == ParseWord(header, cur.data, W)
    requires output == if DstPort(h.bytes) == listen && (W > UDP_HEADER || metaWritten) then [cur] else []
    requires metaOut == if metaWritten then [] else [MetaOf(h.bytes, listen)]
    ensures h.ready
    ensures ProcessRel(W, listen, Next(t, cur), if cur.last then hs + [h.bytes] else hs, NextAll(o, output), ms + metaOut,
                       !cur.last, if cur.last then Cleared(h) else h)
  {
    FramedShape(cur, W);
    hide Framed, MetasOf, Received, OpenPart, NextAll, DstPort, MetaOf, Begins, Done;
    var p := t.open + Bytes(cur);
    assert Heads(hs) by { DoneHeads(W, listen, t.done, hs, o.done); }
    HeaderOf(t.open, cur, W, metaWritten, header, h);
    assert metaWritten ==> ms + metaOut == ms;
    PassedOn(W, listen, t.open, h.bytes, o, cur, metaWritten, p, output);
    if cur.last {
      MetasSnoc(hs, h.bytes, listen);
      DoneSnoc(W, listen, t.done, hs, o.done, p, h.bytes);
    }
  }

  lemma DoneHeads(W: nat, listen: U16, ps: seq<seq<Byte>>, hs: seq<seq<Byte>>, out: seq<seq<Byte>>)
    requires Done(W, listen, ps, hs, out)
    ensures Heads(hs)
  {
  }

  lemma DoneSnoc(W: nat, listen: U16, ps: seq<seq<Byte>>, hs: seq<seq<Byte>>, out: seq<seq<Byte>>, p: seq<Byte>, h: seq<Byte>)
    requires Done(W, listen, ps, hs, out) && |h| == UDP_HEADER && Begins(h, p)
    ensures Done(W, listen, ps + [p], hs + [h], out + Received(p, h, W, listen))
  {
    hide Received, Begins;
    AllBeginSnoc(hs, ps, UDP_HEADER, h, p);
    ReceivedSnoc(ps, hs, p, h, W, listen);
  }

  lemma PassedOn(W: nat, listen: U16, open: seq<Byte>, h: seq<Byte>, o: Parsed, cur: Word, metaWritten: bool, p: seq<Byte>, output: seq<Word>)
    requires W >= UDP_HEADER && |cur.data| == |cur.keep| == W && Len(cur.keep) > 0 && (!cur.last ==> Len(cur.keep) == W)
    requires p == open + Bytes(cur) && |h| == UDP_HEADER
    requires if metaWritten then |open| >= W && o.open == OpenPart(open, h, W, listen) else open == [] && o.open == []
    requires output == if DstPort(h) == listen && (W > UDP_HEADER || metaWritten) then [cur] else []
    ensures !cur.last ==> |p| >= UDP_HEADER
    ensures NextAll(o, output) == if cur.last then Parsed(o.done + Received(p, h, W, listen), []) else Parsed(o.done, OpenPart(p, h, W, listen))
  {
    hide DstPort;
    if metaWritten {
      assert p[UDP_HEADER..] == open[UDP_HEADER..] + Bytes(cur);
    } else {
      assert p == Bytes(cur);
    }
    assert o.done + [] == o.done;
  }

  lemma HeaderOf(open: seq<Byte>, cur: Word, W: nat, metaWritten: bool, header: HeaderState, h: HeaderState)
    requires W >= UDP_HEADER && |cur.data| == |cur.keep| == W && |header.bytes| == UDP_HEADER
    requires if metaWritten then |open| >= W && header.ready && Begins(header.bytes, open)
             else open == [] && !header.ready && header.idx == 0
    requires h == ParseWord(header, cur.data, W)
    ensures h.ready && |h.bytes| == UDP_HEADER && Begins(h.bytes, open + Bytes(cur)) && (metaWritten ==> h == header)
  {
    if !metaWritten {
      assert h.bytes == cur.data[..UDP_HEADER];
    }
  }

  lemma ProcessWord(W: nat, listen: U16, taken: seq<Word>, hs: seq<seq<Byte>>, written: seq<Word>, ms: seq<UdpMeta>,
                    metaWritten: bool, header: HeaderState, cur: Word, h: HeaderState, output: seq<Word>, metaOut: seq<UdpMeta>)
    requires ProcessInv(W, listen, taken, hs, written, ms, metaWritten, header) && Framed(cur, W) && W >= UDP_HEADER
    requires Len(cur.keep) > 0 && |cur.data| == W && |header.bytes| == UDP_HEADER
    requires !metaWritten ==> !header.ready && header.idx == 0
    requires metaWritten ==> header.ready
    requires h == ParseWord(header, cur.data, W)
    requires output == if DstPort(h.bytes) == listen && (W > UDP_HEADER || metaWritten) then [cur] else []
    requires metaOut == if metaWritten then [] else [MetaOf(h.bytes, listen)]
    ensures h.ready
    ensures ProcessInv(W, listen, taken + [cur], if cur.last then hs + [h.bytes] else hs, written + output, ms + metaOut,
                       !cur.last, if cur.last then Cleared(h) else h)
  {
    hide AllFramed, Filled, Framed, ProcessRel, ParseWord, MetaOf, DstPort, Next;
    FramedShape(cur, W);
    ProcessStep(W, listen, Parse(taken, W), hs, Parse(written, W), ms, metaWritten, header, cur, h, output, metaOut);
    ParseSnoc(taken, cur, W);
    if output == [cur] {
      ParseSnoc(written, cur, W);
    } else {
      assert written + output == written;
    }
  }

  class ProcessUdp {
    const W: nat
    const listenPort: U16
    var metaWritten: bool
    var header: HeaderState
    ghost var metas: seq<UdpMeta>
    ghost var heads: seq<seq<Byte>>
    ghost var taken: seq<Word>
    ghost var written: seq<Word>

    ghost predicate Valid()
      reads this
    {
      && W >= UDP_HEADER && |header.bytes| == UDP_HEADER && metaWritten == header.ready && (!header.ready ==> header.idx == 0)
      && ProcessInv(W, listenPort, taken, heads, written, metas, metaWritten, header)
    }

    constructor (W: nat, listenPort: U16, initial: seq<Byte>)
      requires W >= UDP_HEADER && |initial| == UDP_HEADER
      ensures Valid() && this.W == W && this.listenPort == listenPort && metas == [] && heads == [] && taken == written == []
    {
      this.W, this.listenPort, metaWritten := W, listenPort, false;
      header := HeaderState(false, 0, initial);
      metas, heads, taken, written := [], [], [], [];
    }

    method Step(input: seq<Word>) returns (rest: seq<Word>, output: seq<Word>, metaOut: seq<UdpMeta>)
      requires Valid() && AllFramed(input, W) && Filled(input)
      modifies this
      ensures Valid()
      ensures old(taken) + input == taken + rest && written == old(written) + output && metas == old(metas) + metaOut
      ensures rest == if |input| == 0 then input else input[1..]
    {
      hide ProcessInv, Framed, AllFramed, Filled, DstPort, MetaOf;
      rest, output, metaOut := input, [], [];
      if |input| > 0 {
        var currWord := input[0];
        rest := input[1..];
        FirstFramed(input, W);
        FramedShape(currWord, W);
        var h := ParseWord(header, currWord.data, W);
        if metaWritten && DstPort(h.bytes) == listenPort && W <= UDP_HEADER {
          output := [currWord];
        }
        if h.ready {
          if DstPort(h.bytes) == listenPort && W > UDP_HEADER {
            output := [currWord];
          }
          if !metaWritten {
            metaOut := [MetaOf(h.bytes, listenPort)];
          }
        }
        ProcessWord(W, listenPort, taken, heads, written, metas, metaWritten, header, currWord, h, output, metaOut);
        metaWritten := true;
        header := h;
        if currWord.last {
          metaWritten := false;
          header := Cleared(h);
          heads := heads + [h.bytes];
        }
        taken := taken + [currWord];
        assert input == [currWord] + rest;
      }
      assert output == [] ==> written + output == written;
      assert metaOut == [] ==> metas + metaOut == metas;
      written := written + output;
      metas := metas + metaOut;
    }
  }
}
