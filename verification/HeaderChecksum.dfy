/**
 * A header checksum computed at any width, finalized and inserted always passes the
 * check at any width.
 */
module HeaderChecksum {
  import opened Streams
  import opened Checksum
  import opened ChecksumUnit
  import opened HeaderSum
  import Packet
  import Ipv4

  // ----- insert_ip_checksum -----

  /** The two bytes of c, high byte first, at a position of b, as far as b has it. */
  function PatchAt(b: seq<Byte>, at: int, c: U16): (r: seq<Byte>)
    ensures |r| == |b|
    ensures forall i | 0 <= i < |b| :: r[i] == if i == at then c / 256 else if i == at + 1 then c % 256 else b[i]
  {
    seq(|b|, i requires 0 <= i < |b| => if i == at then c / 256 else if i == at + 1 then c % 256 else b[i])
  }

  function PatchAll(ps: seq<seq<Byte>>, cs: seq<U16>): (r: seq<seq<Byte>>)
    requires |ps| == |cs|
    ensures |r| == |ps| && forall i | 0 <= i < |ps| :: r[i] == PatchAt(ps[i], 10, cs[i])
  {
    if |ps| == 0 then [] else PatchAll(ps[..|ps|-1], cs[..|cs|-1]) + [PatchAt(ps[|ps|-1], 10, cs[|cs|-1])]
  }

  lemma PatchAllSnoc(ps: seq<seq<Byte>>, cs: seq<U16>, p: seq<Byte>, c: U16)
    requires |ps| == |cs|
    ensures PatchAll(ps + [p], cs + [c]) == PatchAll(ps, cs) + [PatchAt(p, 10, c)]
  {
    assert (ps + [p])[..|ps|] == ps && (cs + [c])[..|cs|] == cs;
  }

  lemma PatchConcat(a: seq<Byte>, b: seq<Byte>, at: int, c: U16)
    ensures PatchAt(a + b, at, c) == PatchAt(a, at, c) + PatchAt(b, at - |a|, c)
  {
  }

  lemma PatchNothing(b: seq<Byte>, at: int, c: U16)
    requires at >= |b| || at <= -2
    ensures PatchAt(b, at, c) == b
  {
  }

  lemma PatchBytes(w: Word, at: int, c: U16)
    requires |w.data| == |w.keep|
    ensures Bytes(w.(data := PatchAt(w.data, at, c))) == PatchAt(Bytes(w), at, c)
  {
  }

  ghost predicate InsertRel(W: nat, t: Parsed, o: Parsed, cs: seq<U16>, wordCount: nat, checksum: U16) {
    && Width(W) && Whole(|t.open|, W)
    && if wordCount == 0 then
         && |cs| == |t.done| && o.done == PatchAll(t.done, cs) && t.open == [] && o.open == []
       else
         && |cs| == |t.done| + 1 && cs[|t.done|] == checksum
         && o.done == PatchAll(t.done, cs[..|t.done|])
         && |t.open| >= W && wordCount == (if |t.open| == W then 1 else 2) && o.open == PatchAt(t.open, 10, checksum)
  }

  ghost predicate InsertInv(W: nat, taken: seq<Word>, written: seq<Word>, cs: seq<U16>, wordCount: nat, checksum: U16) {
    && AllFramed(taken, W) && AllFramed(written, W) && (Filled(taken) ==> Filled(written))
    && InsertRel(W, Parse(taken, W), Parse(written, W), cs, wordCount, checksum)
  }

  /** Where a word is patched: in the first at more than 64 bits, in the second at 64. */
  function Place(W: nat, wordCount: nat): int {
    if wordCount == 0 && W > 8 then 10 else if wordCount == 1 && W == 8 then 2 else -2
  }

  lemma PlaceIsTen(W: nat, d: nat, wordCount: nat, b: seq<Byte>, c: U16)
    requires Width(W) && Whole(d, W) && |b| <= W
    requires if d == 0 then wordCount == 0 else d >= W && wordCount == if d == W then 1 else 2
    ensures PatchAt(b, Place(W, wordCount), c) == PatchAt(b, 10 - d, c)
  {
    if Place(W, wordCount) == -2 {
      assert d == 0 || d == W || d >= 2 * W by { if d > W { assert Whole(d - W, W); } }
      PatchNothing(b, -2, c);
      PatchNothing(b, 10 - d, c);
    }
  }

  lemma InsertStep(W: nat, t: Parsed, o: Parsed, cs: seq<U16>, wordCount: nat, checksum: U16, cur: Word, more: seq<U16>, c: U16)
    requires InsertRel(W, t, o, cs, wordCount, checksum) && Framed(cur, W)
    requires if wordCount == 0 then more == [c] else more == [] && c == checksum
    requires |cur.data| == |cur.keep| == W
    ensures var send := cur.(data := PatchAt(cur.data, Place(W, wordCount), c));
      && Framed(send, W)
      && InsertRel(W, Next(t, cur), Next(o, send), cs + more,
                   if cur.last then 0 else if wordCount == 0 then 1 else 2, c)
  {
    hide PatchAt, PatchAll, Place, Framed;
    FramedShape(cur, W);
    WholeNext(|t.open|, W);
    PatchNothing([], 10, c);
    InsertBytes(W, t.open, o.open, wordCount, cur, c);
    var p, n, cs' := t.open + Bytes(cur), |t.done|, cs + more;
    assert cs' == cs'[..n] + [c] && cs'[..n] == cs[..n];
    PatchAllSnoc(t.done, cs[..n], p, c);
  }

  lemma InsertBytes(W: nat, open: seq<Byte>, out: seq<Byte>, wordCount: nat, cur: Word, c: U16)
    requires Width(W) && Whole(|open|, W) && Framed(cur, W) && |cur.data| == |cur.keep| == W
    requires if |open| == 0 then wordCount == 0 else |open| >= W && wordCount == if |open| == W then 1 else 2
    requires out == PatchAt(open, 10, c)
    ensures var send := cur.(data := PatchAt(cur.data, Place(W, wordCount), c));
      && Framed(send, W) && |send.data| == |send.keep| && Len(send.keep) == Len(cur.keep)
      && out + Bytes(send) == PatchAt(open + Bytes(cur), 10, c)
  {
    hide Whole, PatchAt, Place, Framed;
    var at := Place(W, wordCount);
    PatchedFramed(cur, W, at, c);
    PatchBytes(cur, at, c);
    PlaceIsTen(W, |open|, wordCount, Bytes(cur), c);
    PatchConcat(open, Bytes(cur), 10, c);
  }

  lemma PatchedFramed(cur: Word, W: nat, at: int, c: U16)
    requires Framed(cur, W)
    ensures |cur.data| == W && Framed(cur.(data := PatchAt(cur.data, at, c)), W)
  {
  }

  lemma InsertWord(W: nat, taken: seq<Word>, written: seq<Word>, cs: seq<U16>, wordCount: nat, checksum: U16,
                   cur: Word, more: seq<U16>, c: U16)
    requires InsertInv(W, taken, written, cs, wordCount, checksum) && Framed(cur, W)
    requires if wordCount == 0 then more == [c] else more == [] && c == checksum
    requires |cur.data| == |cur.keep| == W
    ensures InsertInv(W, taken + [cur], written + [cur.(data := PatchAt(cur.data, Place(W, wordCount), c))], cs + more,
                      if cur.last then 0 else if wordCount == 0 then 1 else 2, c)
  {
    hide InsertRel, AllFramed, Filled, Framed, PatchAt, Place, Next;
    InsertStep(W, Parse(taken, W), Parse(written, W), cs, wordCount, checksum, cur, more, c);
    ParseSnoc(taken, cur, W);
    ParseSnoc(written, cur.(data := PatchAt(cur.data, Place(W, wordCount), c)), W);
  }

  class InsertChecksum {
    const W: nat
    var wordCount: nat
    var checksum: U16
    ghost var checksums: seq<U16>
    ghost var taken: seq<Word>
    ghost var written: seq<Word>

    ghost predicate Valid()
      reads this
    {
      InsertInv(W, taken, written, checksums, wordCount, checksum)
    }

    constructor (W: nat)
      requires Width(W)
      ensures Valid() && this.W == W && checksums == [] && taken == written == []
    {
      this.W, wordCount, checksum := W, 0, 0;
      checksums, taken, written := [], [], [];
    }

    method Step(checksumIn: seq<U16>, input: seq<Word>)
      returns (checksumRest: seq<U16>, rest: seq<Word>, output: seq<Word>)
      requires Valid() && AllFramed(input, W)
      modifies this
      ensures Valid()
      ensures old(checksums) + checksumIn == checksums + checksumRest
      ensures old(taken) + input == taken + rest && written == old(written) + output
      ensures rest == if |input| == 0 || (old(wordCount) == 0 && |checksumIn| == 0) then input else input[1..]
    {
      hide InsertInv, PatchAt, Framed, AllFramed;
      checksumRest, rest, output := checksumIn, input, [];
      if |input| > 0 && (wordCount == 0 ==> |checksumIn| > 0) {
        var currWord := input[0];
        rest := input[1..];
        FirstFramed(input, W);
        FramedShape(currWord, W);
        ghost var more: seq<U16> := [];
        var before := checksum;
        if wordCount == 0 {
          checksum, checksumRest := checksumIn[0], checksumIn[1..];
          more := [checksum];
          assert checksumIn == more + checksumRest;
        }
        InsertWord(W, taken, written, checksums, wordCount, before, currWord, more, checksum);
        var sendWord := currWord;
        if wordCount == 0 && W > 8 {
          sendWord := currWord.(data := PatchAt(currWord.data, 10, checksum));
        } else if wordCount == 1 && W == 8 {
          sendWord := currWord.(data := PatchAt(currWord.data, 2, checksum));
        } else {
          PatchNothing(currWord.data, -2, checksum);
        }
        output := [sendWord];
        wordCount := if currWord.last then 0 else if wordCount == 0 then 1 else 2;
        checksums := checksums + more;
        taken := taken + [currWord];
        assert input == [currWord] + rest;
      }
      assert output == [] ==> written + output == written;
      written := written + output;
    }
  }

  // ----- the arithmetic of a correct checksum -----

  lemma SplitAtField(h: seq<Byte>, x: seq<Byte>)
    requires |h| >= 12 && |x| == 2
    ensures Total(Words16(h[..10] + x + h[12..])) == Total(Words16(h[..10])) + x[0] as int * 256 + x[1] as int + Total(Words16(h[12..]))
  {
    assert h[..10] + x + h[12..] == h[..10] + (x + h[12..]);
    Words16Concat(h[..10], x + h[12..]);
    Words16Concat(x, h[12..]);
    TotalConcat(Words16(h[..10]), Words16(x + h[12..]));
    TotalConcat(Words16(x), Words16(h[12..]));
    hide Words16, Total;
    OneWord(x, x[0] as int * 256 + x[1] as int);
  }

  /** With the field filled in, the header sums to what it summed to without it, and the field. */
  lemma PatchedTotal(h: seq<Byte>, c: U16)
    requires |h| >= 12
    ensures HeaderTotal(PatchAt(h, 10, c), false) == HeaderTotal(h, true) + c as int
  {
    SplitAtField(h, [c / 256, c % 256]);
    SplitAtField(h, [0, 0]);
    hide Words16, Total;
    assert PatchAt(h, 10, c) == h[..10] + [c / 256, c % 256] + h[12..];
  }

  /** The complement of a sum completes it to a positive multiple of 65535, whatever the sum. */
  lemma ComplementCompletes(n: nat)
    ensures var t := n + Complement(Canon(n)) as int; t > 0 && t % 0xFFFF == 0
  {
    if n > 0 {
      var k := (n - 1) / 0xFFFF;
      assert n == Canon(n) as int + 0xFFFF * k;
      assert n + Complement(Canon(n)) as int == 0xFFFF * (k + 1);
    }
  }

  lemma PatchedHeader(p: seq<Byte>, c: U16)
    requires Headed(p)
    ensures Headed(PatchAt(p, 10, c)) && Header(PatchAt(p, 10, c)) == PatchAt(Header(p), 10, c) && |Header(p)| >= 20
  {
    assert PatchAt(p, 10, c)[0] == p[0];
  }

  /** For every packet with a header of 5 to 15 units: the header with its checksum passes. */
  lemma InsertedHeaderPasses(p: seq<Byte>, c: U16)
    requires Headed(p) && c == Complement(Canon(HeaderTotal(Header(p), true)))
    ensures Headed(PatchAt(p, 10, c))
    ensures var t := HeaderTotal(Header(PatchAt(p, 10, c)), false); t > 0 && t % 0xFFFF == 0
  {
    hide HeaderTotal, Canon, PatchAt, Complement;
    PatchedHeader(p, c);
    PatchedTotal(Header(p), c);
    ComplementCompletes(HeaderTotal(Header(p), true));
  }

  // ----- the whole path -----

  /** Every checksum is the finalized sum of its packet's lanes. */
  ghost predicate Finalized(sums: seq<seq<U16>>, cs: seq<U16>) {
    |cs| == |sums| && forall k | 0 <= k < |cs| :: cs[k] == Complement(Canon(Total(sums[k])))
  }

  /** Whole packets, each with a proper header. */
  ghost predicate AllHeaded(a: seq<Word>, W: nat) {
    && AllFramed(a, W) && Parse(a, W).open == []
    && forall k | 0 <= k < |Parse(a, W).done| :: Headed(Parse(a, W).done[k])
  }

  /** Every packet that generate_ipv4 sends has a proper header. */
  lemma SentPacketsAreHeaded(ms: seq<Ipv4.Ipv4Meta>, local: Ipv4.U32, protocol: Byte, unset: seq<Byte>, ps: seq<seq<Byte>>, a: seq<Word>, W: nat)
    requires |unset| == 7 && |ms| == |ps| && AllFramed(a, W)
    requires Parse(a, W) == Parsed(Packet.PrependAll(Ipv4.Headers(ms, local, protocol, unset), ps), [])
    ensures AllHeaded(a, W)
  {
    hide Headed, Parse, AllFramed, Ipv4.HeaderBytes, Ipv4.Headers, Packet.PrependAll;
    forall k | 0 <= k < |ps| ensures Headed(Parse(a, W).done[k]) {
      PrintedIsHeaded(ms[k], local, protocol, unset, ps[k]);
    }
  }

  lemma PrintedIsHeaded(m: Ipv4.Ipv4Meta, local: Ipv4.U32, protocol: Byte, unset: seq<Byte>, p: seq<Byte>)
    requires |unset| == 7
    ensures Headed(Ipv4.HeaderBytes(m, local, protocol, unset) + p)
  {
    var h := Ipv4.HeaderBytes(m, local, protocol, unset);
    assert h[0] == 0x45;
    hide Ipv4.HeaderBytes;
    assert (h + p)[0] == h[0];
  }

  lemma SumOfHeader(W: nat, skip: bool, a: seq<Word>, s: seq<seq<U16>>, lanes: seq<U16>, wordCount: nat, n: nat, k: nat)
    requires SumValid(W, skip, a, s, lanes, wordCount, n) && AllHeaded(a, W) && k < |Parse(a, W).done|
    ensures |s| == |Parse(a, W).done| && Headed(Parse(a, W).done[k]) && SumIs(s[k], Parse(a, W).done[k], skip)
  {
    hide SumValid, AllFramed, Headed, SumIs;
    HeadedAreSummed(W, skip, a, s, lanes, wordCount, n);
  }

  lemma OneSumEach(W: nat, skip: bool, a: seq<Word>, s: seq<seq<U16>>, lanes: seq<U16>, wordCount: nat, n: nat)
    requires SumValid(W, skip, a, s, lanes, wordCount, n) && AllHeaded(a, W)
    ensures |s| == |Parse(a, W).done|
  {
    hide SumValid, AllFramed, Headed, SumIs;
    HeadedAreSummed(W, skip, a, s, lanes, wordCount, n);
  }

  /**
   * The sums of a packet's header at two widths, and the sequential sum of section 2
   * of RFC 1071, are the same.
   */
  lemma WidthsAgree(W: nat, V: nat, skip: bool, a: seq<Word>, b: seq<Word>, s: seq<seq<U16>>, r: seq<seq<U16>>,
                    lanes: seq<U16>, lanes': seq<U16>, i: nat, j: nat, n: nat, m: nat, k: nat)
    requires SumValid(W, skip, a, s, lanes, i, n) && SumValid(V, skip, b, r, lanes', j, m)
    requires AllHeaded(a, W) && AllHeaded(b, V) && Parse(a, W).done == Parse(b, V).done && k < |Parse(a, W).done|
    ensures |s| == |r| == |Parse(a, W).done| && |Parse(a, W).done[k]| > 0
    ensures Canon(Total(s[k])) == Canon(Total(r[k]))
    ensures Canon(Total(s[k])) == OnesSum(Words16(if skip then Masked(Header(Parse(a, W).done[k]), 10) else Header(Parse(a, W).done[k])))
  {
    SumOfHeader(W, skip, a, s, lanes, i, n, k);
    SumOfHeader(V, skip, b, r, lanes', j, m, k);
    hide SumValid, AllHeaded, AllFramed, Canon, Total, OnesSum, Words16;
    var h := Header(Parse(a, W).done[k]);
    OnesSumIsCanon(Words16(if skip then Masked(h, 10) else h));
  }

  /**
   * compute with the checksum field skipped (a), finalize, insert (a to b): every
   * header that then arrives at a checking unit (d) is accepted, at any width.
   */
  lemma ComputedHeadersPass(W: nat, V: nat, a: seq<Word>, b: seq<Word>, d: seq<Word>, s: seq<seq<U16>>, cs: seq<U16>, r: seq<seq<U16>>,
                            lanes: seq<U16>, lanes': seq<U16>, i: nat, j: nat, n: nat, m: nat, c: U16, k: nat)
    requires SumValid(W, true, a, s, lanes, i, n) && AllHeaded(a, W) && Finalized(s, cs)
    requires InsertInv(W, a, b, cs, 0, c)
    requires SumValid(V, false, d, r, lanes', j, m)
    requires AllFramed(b, W) && AllFramed(d, V) && Parse(d, V) == Parse(b, W)
    requires k < |r|
    ensures Total(r[k]) > 0 && Total(r[k]) % 0xFFFF == 0
  {
    hide InsertInv, SumValid, AllFramed, PatchAll, Headed, Finalized;
    InsertedPackets(W, a, b, cs, c);
    PatchedAreHeaded(Parse(a, W).done, cs);
    OneSumEach(V, false, d, r, lanes', j, m);
    SumOfHeader(W, true, a, s, lanes, i, n, k);
    SumOfHeader(V, false, d, r, lanes', j, m, k);
    var p := Parse(a, W).done[k];
    FinalizedAt(s, cs, k);
    hide Canon, Total, HeaderTotal, Complement, AllHeaded;
    InsertedHeaderPasses(p, cs[k]);
    var t := HeaderTotal(Header(PatchAt(p, 10, cs[k])), false);
    CanonFull(t);
    CanonFull(Total(r[k]));
  }

  lemma FinalizedAt(sums: seq<seq<U16>>, cs: seq<U16>, k: nat)
    requires Finalized(sums, cs) && k < |sums|
    ensures |cs| == |sums| && cs[k] == Complement(Canon(Total(sums[k])))
  {
  }

  lemma PatchedAreHeaded(ps: seq<seq<Byte>>, cs: seq<U16>)
    requires |ps| == |cs| && forall k | 0 <= k < |ps| :: Headed(ps[k])
    ensures forall k | 0 <= k < |ps| :: Headed(PatchAll(ps, cs)[k])
  {
    hide PatchAt, Headed;
    forall k | 0 <= k < |ps| ensures Headed(PatchAll(ps, cs)[k]) {
      PatchedHeader(ps[k], cs[k]);
    }
  }

  lemma InsertedPackets(W: nat, a: seq<Word>, b: seq<Word>, cs: seq<U16>, c: U16)
    requires InsertInv(W, a, b, cs, 0, c)
    ensures AllFramed(a, W) && AllFramed(b, W) && |cs| == |Parse(a, W).done|
    ensures Parse(b, W) == Parsed(PatchAll(Parse(a, W).done, cs), [])
  {
  }
}
