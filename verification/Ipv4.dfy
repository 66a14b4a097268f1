/**
 * IPv4 headers, and generate_ipv4, which prints one in front of every packet.
 */
module Ipv4 {
  import opened Streams
  import opened Shift
  import opened Packet

  type U32 = x: int | 0 <= x < 0x1_0000_0000

  const IPV4_HEADER: nat := 20

  datatype Ipv4Meta = Ipv4Meta(theirAddress: U32, length: U16)

  /** The bytes of an address as a register holds them: the first byte is the low one. */
  function Le32(x: U32): (b: seq<Byte>)
    ensures |b| == 4
  {
    [x % 256, x / 0x100 % 256, x / 0x1_0000 % 256, x / 0x100_0000]
  }

  function FromLe32(b: seq<Byte>): U32
    requires |b| == 4
  {
    b[0] as int + 0x100 * (b[1] as int) + 0x1_0000 * (b[2] as int) + 0x100_0000 * (b[3] as int)
  }

  lemma AddressRoundTrip(x: U32)
    ensures FromLe32(Le32(x)) == x
  {
    assert x / 0x1_0000 == x / 0x100 / 0x100;
    assert x / 0x100_0000 == x / 0x1_0000 / 0x100;
  }

  /** Version 4, 5 words, TTL 64; the bytes never set (service, identification, fragment, checksum) are rest. */
  function HeaderBytes(m: Ipv4Meta, local: U32, protocol: Byte, rest: seq<Byte>): (h: seq<Byte>)
    requires |rest| == 7
    ensures |h| == IPV4_HEADER
  {
    var length := (m.length + 20) % 0x1_0000;
    [0x45, rest[0], length / 256, length % 256] + rest[1..5] + [0x40, protocol] + rest[5..7]
    + Le32(local) + Le32(m.theirAddress)
  }

  function Headers(ms: seq<Ipv4Meta>, local: U32, protocol: Byte, rest: seq<Byte>): (hs: seq<seq<Byte>>)
    requires |rest| == 7
    ensures |hs| == |ms| && forall i | 0 <= i < |ms| :: hs[i] == HeaderBytes(ms[i], local, protocol, rest)
  {
    if |ms| == 0 then []
    else Headers(ms[..|ms|-1], local, protocol, rest) + [HeaderBytes(ms[|ms|-1], local, protocol, rest)]
  }

  lemma HeadersSnoc(ms: seq<Ipv4Meta>, m: Ipv4Meta, local: U32, protocol: Byte, rest: seq<Byte>)
    requires |rest| == 7
    ensures Headers(ms + [m], local, protocol, rest) == Headers(ms, local, protocol, rest) + [HeaderBytes(m, local, protocol, rest)]
  {
    assert (ms + [m])[..|ms|] == ms;
  }

  /** The fields of section 3.1 of RFC 791 as they stand in the header printed. */
  lemma HeaderLayout(m: Ipv4Meta, local: U32, protocol: Byte, rest: seq<Byte>)
    requires |rest| == 7
    ensures var h := HeaderBytes(m, local, protocol, rest);
      && h[0] / 16 == 4 && h[0] % 16 == 5
      && h[2] as int * 256 + h[3] as int == (m.length + 20) % 0x1_0000
      && h[8] == 64 && h[9] == protocol
      && FromLe32(h[12..16]) == local && FromLe32(h[16..20]) == m.theirAddress
  {
    AddressRoundTrip(local);
    AddressRoundTrip(m.theirAddress);
    hide Le32, FromLe32;
    var h := HeaderBytes(m, local, protocol, rest);
    assert h[12..16] == Le32(local) && h[16..20] == Le32(m.theirAddress);
  }

  /** getHeaderLength, getSrcAddr and getLength. */
  function HeaderLength(h: seq<Byte>): nat
    requires |h| >= IPV4_HEADER
  {
    h[0] % 16
  }

  function MetaOf(h: seq<Byte>): Ipv4Meta
    requires |h| >= IPV4_HEADER
  {
    Ipv4Meta(FromLe32(h[12..16]), (h[2] as int) * 256 + h[3] as int)
  }

  // ----- generate_ipv4 -----

  class GenerateIpv4 {
    const W: nat
    const local: U32
    const protocol: Byte
    const unset: seq<Byte>
    var state: PrintState
    var header: HeaderState
    ghost var metas: seq<Ipv4Meta>
    ghost var taken: seq<Word>
    ghost var written: seq<Word>

    ghost predicate Valid()
      reads this
    {
      |unset| == 7 && PrintInv(W, Headers(metas, local, protocol, unset), taken, written, state, header)
    }

    constructor (W: nat, local: U32, protocol: Byte, unset: seq<Byte>)
      requires W > 0 && |unset| == 7
      ensures Valid() && this.W == W && this.local == local && this.protocol == protocol && this.unset == unset
      ensures metas == [] && taken == written == []
    {
      this.W, this.local, this.protocol, this.unset := W, local, protocol, unset;
      state, header := META, HeaderState(false, 0, []);
      metas, taken, written := [], [], [];
    }

    method Step(metaIn: seq<Ipv4Meta>, input: seq<Word>)
      returns (metaRest: seq<Ipv4Meta>, rest: seq<Word>, output: seq<Word>)
      requires Valid() && AllFramed(input, W)
      modifies this
      ensures Valid()
      ensures old(metas) + metaIn == metas + metaRest
      ensures old(taken) + input == taken + rest && written == old(written) + output
      ensures metaRest == if old(state) == META && |metaIn| > 0 then metaIn[1..] else metaIn
      ensures rest == if (old(state) == PARTIAL_HEADER || old(state) == BODY) && |input| > 0 then input[1..] else input
      ensures |output| == if old(state) == HEADER || rest != input then 1 else 0
    {
      hide PrintInv, ConsumeWord, HeaderBytes, Headers, Framed, AllFramed;
      metaRest, rest, output := metaIn, input, [];
      ghost var hs := Headers(metas, local, protocol, unset);
      PrintWidth(W, hs, taken, written, state, header);
      if state == META {
        if |metaIn| > 0 {
          var meta := metaIn[0];
          metaRest := metaIn[1..];
          var h := HeaderState(false, 0, HeaderBytes(meta, local, protocol, unset));
          PrintMeta(W, hs, taken, written, header, h);
          HeadersSnoc(metas, meta, local, protocol, unset);
          header := h;
          state := if IPV4_HEADER >= W then HEADER else PARTIAL_HEADER;
          metas := metas + [meta];
          assert metaIn == [meta] + metaRest;
        }
      } else if state == HEADER {
        var c := ConsumeWord(header, Zeros(W), W);
        PrintHeader(W, hs, taken, written, header, Zeros(W));
        output := [Word(c.1, Low(32, W), false)];
        header := c.0;
        if c.2 < W {
          state := PARTIAL_HEADER;
        }
      } else if |input| > 0 {
        var currWord := input[0];
        rest := input[1..];
        FirstFramed(input, W);
        FramedShape(currWord, W);
        if state == PARTIAL_HEADER {
          var c := ConsumeWord(header, currWord.data, W);
          PrintPartial(W, hs, taken, written, header, currWord, currWord.(data := c.1));
          output := [currWord.(data := c.1)];
          header := c.0;
        } else {
          PrintBody(W, hs, taken, written, header, currWord);
          output := [currWord];
        }
        state := if currWord.last then META else BODY;
        taken := taken + [currWord];
        assert input == [currWord] + rest;
      }
      assert output == [] ==> written + output == written;
      written := written + output;
    }
  }
}
