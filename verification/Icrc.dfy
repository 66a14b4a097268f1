/**
 * The invariant CRC field of RoCEv2 packets with the CRC check disabled: insert_icrc
 * appends a fixed value to every packet, extract_icrc removes the last four bytes.
 */
module Icrc {
  import opened Streams

  // 0xdeadbeef, lowest byte first.
  const CRC: seq<Byte> := [0xef, 0xbe, 0xad, 0xde]

  // ----- whole packets -----

  predicate Fours(n: int) {
    n % 4 == 0
  }

  lemma FoursPlus(a: int, b: int)
    requires Fours(a)
    ensures Fours(a + b) <==> Fours(b)
  {
  }

  /** insert_icrc knows packets of a multiple of 4 bytes only and passes others on. */
  function Sealed(p: seq<Byte>): seq<Byte> {
    if Fours(|p|) then p + CRC else p
  }

  function SealAll(ps: seq<seq<Byte>>): (r: seq<seq<Byte>>)
    ensures |r| == |ps|
  {
    if |ps| == 0 then [] else SealAll(ps[..|ps|-1]) + [Sealed(ps[|ps|-1])]
  }

  /** The number of bytes in the last of the words of W bytes that hold m bytes. */
  function Tail(m: nat, W: nat): (n: nat)
    requires W > 0
    ensures n <= W && (m > 0 ==> n > 0)
  {
    if m <= W then m else Tail(m - W, W)
  }

  /** A last word of at most 4 bytes is dropped, unless it is the only one; otherwise 4 bytes are cut off a multiple of 4. */
  function Unsealed(p: seq<Byte>, W: nat): seq<Byte>
    requires W > 0
  {
    var n := Tail(|p|, W);
    if |p| > W && n <= 4 then p[..|p| - n]
    else if n % 4 == 0 && n >= 8 && n <= |p| then p[..|p| - 4]
    else p
  }

  function UnsealAll(ps: seq<seq<Byte>>, W: nat): (r: seq<seq<Byte>>)
    requires W > 0
    ensures |r| == |ps|
  {
    if |ps| == 0 then [] else UnsealAll(ps[..|ps|-1], W) + [Unsealed(ps[|ps|-1], W)]
  }

  lemma SealAllSnoc(ps: seq<seq<Byte>>, p: seq<Byte>)
    ensures SealAll(ps + [p]) == SealAll(ps) + [Sealed(p)]
  {
    assert (ps + [p])[..|ps|] == ps;
  }

  lemma UnsealAllSnoc(ps: seq<seq<Byte>>, p: seq<Byte>, W: nat)
    requires W > 0
    ensures UnsealAll(ps + [p], W) == UnsealAll(ps, W) + [Unsealed(p, W)]
  {
    assert (ps + [p])[..|ps|] == ps;
  }

  lemma {:induction false} TailMod(m: nat, W: nat)
    requires W > 0 && W % 4 == 0
    ensures Tail(m, W) % 4 == m % 4 && Tail(m, W) <= m
  {
    if m > W { TailMod(m - W, W); }
  }

  lemma {:induction false} TailIs(a: nat, n: nat, W: nat)
    requires W > 0 && Whole(a, W) && 0 < n <= W
    ensures Tail(a + n, W) == n
  {
    if a > 0 { TailIs(a - W, n, W); }
  }

  /** Removing undoes inserting exactly for packets of a multiple of 4 bytes, and for others with a last word that survives. */
  lemma UnsealSealIff(p: seq<Byte>, W: nat)
    requires W >= 8 && W % 4 == 0 && |p| > 0
    ensures Unsealed(Sealed(p), W) == p <==> |p| % 4 == 0 || |p| <= W || Tail(|p|, W) > 4
  {
    if |p| % 4 == 0 {
      var q := p + CRC;
      assert Unsealed(q, W) == p by {
        TailMod(|q|, W);
        CutsFour(q, Tail(|q|, W), W);
        assert q[..|p|] == p;
      }
    } else {
      TailMod(|p|, W);
    }
  }

  lemma CutsFour(q: seq<Byte>, n: nat, W: nat)
    requires W >= 8 && W % 4 == 0 && |q| >= 8 && |q| % 4 == 0 && n == Tail(|q|, W) && n % 4 == 0
    ensures Unsealed(q, W) == q[..|q| - 4]
  {
    TailMod(|q|, W);
    if n <= 4 {
      assert n == 4;
    }
  }

  // ----- insert_icrc -----

  /** The switch over keep: the CRC after the lowest n bytes for n a multiple of 4, anything else unchanged. */
  function WithCrc(cur: Word): Word
    requires |cur.data| == |cur.keep| >= 8 && |cur.keep| % 4 == 0 && !cur.keep[|cur.keep|-1]
  {
    var n, W := Len(cur.keep), |cur.keep|;
    if cur.keep == Low(n, W) && n % 4 == 0 && 4 <= n <= 60 then
      RoomForCrc(cur.keep);
      Word(cur.data[..n] + CRC + cur.data[n+4..], cur.keep[..n] + Low(4, 4) + cur.keep[n+4..], cur.last)
    else cur
  }

  lemma RoomForCrc(keep: seq<bool>)
    requires |keep| > 0 && |keep| % 4 == 0 && !keep[|keep|-1]
    ensures Len(keep) < |keep| && (Len(keep) % 4 == 0 ==> Len(keep) + 4 <= |keep|)
  {
  }

  /** The word after a full last word. */
  function CrcWord(W: nat): Word
    requires W >= 4
  {
    Word(CRC + Zeros(W - 4), Low(4, 4) + Low(0, W - 4), true)
  }

  lemma CrcWordBytes(W: nat)
    requires W >= 4
    ensures Framed(CrcWord(W), W) && Len(CrcWord(W).keep) == 4 && Bytes(CrcWord(W)) == CRC
  {
    LowFramed(CrcWord(W), 4, W);
  }

  lemma WithCrcBytes(cur: Word, W: nat)
    requires Framed(cur, W) && cur.last && 8 <= W <= 64 && W % 4 == 0 && !cur.keep[W-1] && Len(cur.keep) > 0
    ensures var n, w := Len(cur.keep), WithCrc(cur);
      && Framed(w, W) && w.last && Len(w.keep) > 0
      && Bytes(w) == if Fours(n) then Bytes(cur) + CRC else Bytes(cur)
  {
    var n, w := Len(cur.keep), WithCrc(cur);
    RoomForCrc(cur.keep);
    forall i | 0 <= i < W ensures cur.keep[i] <==> i < n { KeepAt(cur, W, i); }
    hide None;
    assert cur.keep == Low(n, W);
    if n % 4 == 0 {
      assert forall i | 0 <= i < W :: w.keep[i] <==> i < n + 4;
      LowFramed(w, n + 4, W);
      assert w.data[..n + 4] == cur.data[..n] + CRC;
    }
  }

  ghost predicate InsertRel(W: nat, t: Parsed, o: Parsed, post: bool) {
    && Fours(|t.open|)
    && if post then
         && t.open == [] && |t.done| > 0
         && var n := |t.done| - 1;
         && o.done == SealAll(t.done[..n]) && o.open == t.done[n] && Fours(|t.done[n]|)
       else
         o.done == SealAll(t.done) && o.open == t.open
  }

  ghost predicate InsertInv(W: nat, taken: seq<Word>, written: seq<Word>, post: bool) {
    && 8 <= W <= 64 && W % 4 == 0 && AllFramed(taken, W) && AllFramed(written, W) && Filled(written)
    && InsertRel(W, Parse(taken, W), Parse(written, W), post)
  }

  lemma Associates(a: seq<Byte>, b: seq<Byte>, c: seq<Byte>)
    ensures (a + b) + c == a + (b + c)
  {
  }

  lemma InsertStep(W: nat, t: Parsed, o: Parsed, cur: Word, send: Word, post: bool)
    requires InsertRel(W, t, o, false) && Framed(cur, W) && Len(cur.keep) > 0 && 8 <= W <= 64 && W % 4 == 0
    requires |cur.data| == |cur.keep| == W && post == (cur.last && cur.keep[W-1])
    requires send == if post then cur.(last := false) else if cur.last then WithCrc(cur) else cur
    ensures Framed(send, W) && Len(send.keep) > 0
    ensures InsertRel(W, Next(t, cur), Next(o, send), post)
  {
    assert Fours(W) && Fours(0);
    hide None, WithCrc, SealAll, Fours;
    KeepAt(cur, W, W - 1);
    var p := t.open + Bytes(cur);
    FoursPlus(|t.open|, Len(cur.keep));
    if cur.last {
      SealAllSnoc(t.done, p);
      if post {
        assert (t.done + [p])[..|t.done|] == t.done;
      } else {
        WithCrcBytes(cur, W);
        Associates(t.open, Bytes(cur), CRC);
      }
    }
  }

  lemma InsertWord(W: nat, taken: seq<Word>, written: seq<Word>, cur: Word, send: Word, post: bool)
    requires InsertInv(W, taken, written, false) && Framed(cur, W) && Len(cur.keep) > 0
    requires |cur.data| == |cur.keep| == W && post == (cur.last && cur.keep[W-1])
    requires send == if post then cur.(last := false) else if cur.last then WithCrc(cur) else cur
    ensures InsertInv(W, taken + [cur], written + [send], post)
  {
    hide InsertRel, AllFramed, Filled, Framed, WithCrc;
    InsertStep(W, Parse(taken, W), Parse(written, W), cur, send, post);
    ParseSnoc(taken, cur, W);
    ParseSnoc(written, send, W);
  }

  lemma InsertPost(W: nat, taken: seq<Word>, written: seq<Word>)
    requires InsertInv(W, taken, written, true)
    ensures InsertInv(W, taken, written + [CrcWord(W)], false)
  {
    hide CrcWord, AllFramed, Filled, Framed;
    CrcWordBytes(W);
    FramedShape(CrcWord(W), W);
    ParseSnoc(written, CrcWord(W), W);
    var t := Parse(taken, W);
    var n := |t.done| - 1;
    SealAllSnoc(t.done[..n], t.done[n]);
    assert t.done == t.done[..n] + [t.done[n]];
  }

  class IcrcInserter {
    const W: nat
    var post: bool
    ghost var taken: seq<Word>
    ghost var written: seq<Word>

    ghost predicate Valid()
      reads this
    {
      InsertInv(W, taken, written, post)
    }

    constructor (W: nat)
      requires 8 <= W <= 64 && W % 4 == 0
      ensures Valid() && this.W == W && taken == written == []
    {
      this.W, post := W, false;
      taken, written := [], [];
    }

    method Step(input: seq<Word>) returns (rest: seq<Word>, output: seq<Word>)
      requires Valid() && AllFramed(input, W) && Filled(input)
      modifies this
      ensures Valid()
      ensures old(taken) + input == taken + rest && written == old(written) + output
      ensures if old(post) || |input| == 0 then rest == input else rest == input[1..]
      ensures |output| == if old(post) || |input| > 0 then 1 else 0
    {
      hide InsertInv, WithCrc, CrcWord, Framed, AllFramed, Filled;
      rest, output := input, [];
      InsertWidth(W, taken, written, post);
      if post {
        InsertPost(W, taken, written);
        output := [CrcWord(W)];
        post := false;
      } else if |input| > 0 {
        var currWord := input[0];
        rest := input[1..];
        FirstFramed(input, W);
        FramedShape(currWord, W);
        var sendWord := currWord;
        if currWord.last {
          if currWord.keep[W-1] {
            sendWord := currWord.(last := false);
            post := true;
          } else {
            sendWord := WithCrc(currWord);
          }
        }
        InsertWord(W, taken, written, currWord, sendWord, post);
        output := [sendWord];
        taken := taken + [currWord];
        assert input == [currWord] + rest;
      }
      assert output == [] ==> written + output == written;
      written := written + output;
    }
  }

  lemma InsertWidth(W: nat, taken: seq<Word>, written: seq<Word>, post: bool)
    requires InsertInv(W, taken, written, post)
    ensures 8 <= W <= 64 && W % 4 == 0
  {
  }

  // ----- extract_icrc -----

  datatype ExtractState = FIRST | PKG | LAST

  ghost predicate ExtractRel(W: nat, t: Parsed, o: Parsed, state: ExtractState, prev: Word)
    requires W > 0
  {
    match state
    case FIRST => o.done == UnsealAll(t.done, W) && t.open == [] && o.open == []
    case PKG =>
      && o.done == UnsealAll(t.done, W) && Framed(prev, W) && !prev.last
      && o.open + Bytes(prev) == t.open && Whole(|o.open|, W)
    case LAST =>
      && t.open == [] && |t.done| > 0 && Framed(prev, W) && prev.last && Len(prev.keep) > 0
      && var n := |t.done| - 1;
      && o.done == UnsealAll(t.done[..n], W) && o.open + Bytes(prev) == t.done[n] && Whole(|o.open|, W)
      && (|o.open| > 0 ==> Len(prev.keep) > 4)
  }

  ghost predicate ExtractInv(W: nat, taken: seq<Word>, written: seq<Word>, state: ExtractState, prev: Word) {
    && 8 <= W <= 64 && W % 4 == 0 && AllFramed(taken, W) && AllFramed(written, W) && Filled(written)
    && ExtractRel(W, Parse(taken, W), Parse(written, W), state, prev)
  }

  /** The first word of a packet is held back. */
  lemma ExtractFirst(W: nat, taken: seq<Word>, written: seq<Word>, prev: Word, cur: Word)
    requires ExtractInv(W, taken, written, FIRST, prev) && Framed(cur, W) && Len(cur.keep) > 0
    ensures ExtractInv(W, taken + [cur], written, if cur.last then LAST else PKG, cur)
  {
    hide AllFramed, Filled, None, UnsealAll;
    ParseSnoc(taken, cur, W);
    var t, b := Parse(taken, W), Bytes(cur);
    assert t.open + b == b;
    assert (t.done + [b])[..|t.done|] == t.done;
    assert Parse(written, W).open + b == b;
  }

  lemma ExtractStep(W: nat, t: Parsed, o: Parsed, prev: Word, cur: Word, send: Word, state: ExtractState)
    requires 8 <= W <= 64 && ExtractRel(W, t, o, PKG, prev) && Framed(cur, W) && Len(cur.keep) > 0
    requires |cur.keep| == W && state == if !cur.last then PKG else if !cur.keep[4] then FIRST else LAST
    requires send == if state == FIRST then prev.(last := true) else prev
    ensures Framed(send, W) && Len(send.keep) > 0
    ensures ExtractRel(W, Next(t, cur), Next(o, send), state, cur)
  {
    hide None;
    KeepAt(cur, W, 4);
    var p := t.open + Bytes(cur);
    if cur.last {
      UnsealAllSnoc(t.done, p, W);
      assert (t.done + [p])[..|t.done|] == t.done;
      if state == FIRST {
        TailIs(|t.open|, Len(cur.keep), W);
        assert p[..|t.open|] == t.open;
      }
    }
  }

  lemma ExtractWord(W: nat, taken: seq<Word>, written: seq<Word>, prev: Word, cur: Word, send: Word, state: ExtractState)
    requires ExtractInv(W, taken, written, PKG, prev) && Framed(cur, W) && Len(cur.keep) > 0
    requires |cur.keep| == W && state == if !cur.last then PKG else if !cur.keep[4] then FIRST else LAST
    requires send == if state == FIRST then prev.(last := true) else prev
    ensures ExtractInv(W, taken + [cur], written + [send], state, cur)
  {
    hide ExtractRel, AllFramed, Filled, Framed;
    ExtractStep(W, Parse(taken, W), Parse(written, W), prev, cur, send, state);
    ParseSnoc(taken, cur, W);
    ParseSnoc(written, send, W);
  }

  /** The switch over keep: the highest 4 of n bytes are no longer valid for n = 8, 12, .. 64. */
  function WithoutCrc(w: Word): Word
    requires |w.data| == |w.keep|
  {
    var n, W := Len(w.keep), |w.keep|;
    if w.keep == Low(n, W) && n % 4 == 0 && 8 <= n <= 64 then
      w.(keep := w.keep[..n-4] + Low(0, 4) + w.keep[n..])
    else w
  }

  lemma WithoutCrcBytes(w: Word, W: nat)
    requires Framed(w, W) && w.last && W <= 64
    ensures var n, x := Len(w.keep), WithoutCrc(w);
      && Framed(x, W) && x.last
      && Len(x.keep) == (if n % 4 == 0 && n >= 8 then n - 4 else n)
      && Bytes(x) == Bytes(w)[..if n % 4 == 0 && n >= 8 then n - 4 else n]
  {
    var n, x := Len(w.keep), WithoutCrc(w);
    forall i | 0 <= i < W ensures w.keep[i] <==> i < n { KeepAt(w, W, i); }
    hide None;
    assert w.keep == Low(n, W);
    if n % 4 == 0 && n >= 8 {
      assert forall i | 0 <= i < W :: x.keep[i] <==> i < n - 4;
      LowFramed(x, n - 4, W);
    }
  }

  lemma ExtractLast(W: nat, taken: seq<Word>, written: seq<Word>, prev: Word)
    requires ExtractInv(W, taken, written, LAST, prev)
    ensures |prev.data| == |prev.keep|
    ensures ExtractInv(W, taken, written + [WithoutCrc(prev)], FIRST, prev)
  {
    hide AllFramed, Filled, WithoutCrc, None;
    WithoutCrcBytes(prev, W);
    var send := WithoutCrc(prev);
    ParseSnoc(written, send, W);
    var t, o := Parse(taken, W), Parse(written, W);
    var n := |t.done| - 1;
    UnsealAllSnoc(t.done[..n], t.done[n], W);
    assert t.done == t.done[..n] + [t.done[n]];
    UnsealedTail(o.open, Bytes(prev), W);
  }

  /** What Unsealed does, told by the last word alone. */
  lemma UnsealedTail(a: seq<Byte>, b: seq<Byte>, W: nat)
    requires W > 0 && Whole(|a|, W) && 0 < |b| <= W && (|a| > 0 ==> |b| > 4)
    ensures Unsealed(a + b, W) == a + b[..if |b| % 4 == 0 && |b| >= 8 then |b| - 4 else |b|]
  {
    TailIs(|a|, |b|, W);
    if |b| % 4 == 0 && |b| >= 8 {
      assert (a + b)[..|a| + |b| - 4] == a + b[..|b| - 4];
    } else {
      assert b[..|b|] == b;
    }
  }

  class IcrcExtractor {
    const W: nat
    var state: ExtractState
    var prevWord: Word
    ghost var taken: seq<Word>
    ghost var written: seq<Word>

    ghost predicate Valid()
      reads this
    {
      ExtractInv(W, taken, written, state, prevWord)
    }

    constructor (W: nat)
      requires 8 <= W <= 64 && W % 4 == 0
      ensures Valid() && this.W == W && taken == written == []
    {
      this.W, state, prevWord := W, FIRST, Word([], [], false);
      taken, written := [], [];
    }

    method Step(input: seq<Word>) returns (rest: seq<Word>, output: seq<Word>)
      requires Valid() && AllFramed(input, W) && Filled(input)
      modifies this
      ensures Valid()
      ensures old(taken) + input == taken + rest && written == old(written) + output
      ensures if old(state) == LAST || |input| == 0 then rest == input else rest == input[1..]
      ensures |output| == if old(state) == LAST || (old(state) == PKG && |input| > 0) then 1 else 0
    {
      hide ExtractInv, WithoutCrc, Framed, AllFramed, Filled;
      rest, output := input, [];
      ExtractShape(W, taken, written, state, prevWord);
      if state == LAST {
        ExtractLast(W, taken, written, prevWord);
        prevWord := WithoutCrc(prevWord);
        output := [prevWord];
        state := FIRST;
        FirstForgets(W, taken, written + output, old(prevWord), prevWord);
      } else if |input| > 0 {
        var currWord := input[0];
        rest := input[1..];
        FirstFramed(input, W);
        FramedShape(currWord, W);
        if state == FIRST {
          ExtractFirst(W, taken, written, prevWord, currWord);
          state := if currWord.last then LAST else PKG;
        } else {
          var next := PKG;
          if currWord.last {
            if !currWord.keep[4] {
              prevWord := prevWord.(last := true);
              next := FIRST;
            } else {
              next := LAST;
            }
          }
          output := [prevWord];
          ExtractWord(W, taken, written, old(prevWord), currWord, prevWord, next);
          state := next;
        }
        prevWord := currWord;
        taken := taken + [currWord];
        assert input == [currWord] + rest;
      }
      assert output == [] ==> written + output == written;
      written := written + output;
    }
  }

  lemma ExtractShape(W: nat, taken: seq<Word>, written: seq<Word>, state: ExtractState, prev: Word)
    requires ExtractInv(W, taken, written, state, prev)
    ensures 8 <= W <= 64 && (state != FIRST ==> |prev.data| == |prev.keep| == W)
  {
  }

  lemma FirstForgets(W: nat, taken: seq<Word>, written: seq<Word>, prev: Word, prev': Word)
    requires ExtractInv(W, taken, written, FIRST, prev)
    ensures ExtractInv(W, taken, written, FIRST, prev')
  {
  }

  // ----- round trip -----

  lemma {:induction false} UnsealSealAll(ps: seq<seq<Byte>>, W: nat)
    requires W >= 8 && W % 4 == 0
    requires forall i | 0 <= i < |ps| :: |ps[i]| > 0 && |ps[i]| % 4 == 0
    ensures UnsealAll(SealAll(ps), W) == ps
  {
    if |ps| > 0 {
      var n := |ps| - 1;
      UnsealSealAll(ps[..n], W);
      UnsealSealIff(ps[n], W);
      UnsealAllSnoc(SealAll(ps[..n]), Sealed(ps[n]), W);
      assert ps == ps[..n] + [ps[n]];
    }
  }

  /** On packets of a multiple of 4 bytes, extracting undoes inserting: the same words up to bytes that are not valid. */
  lemma IcrcRoundTrip(W: nat, a: seq<Word>, b: seq<Word>, c: seq<Word>, prev: Word)
    requires InsertInv(W, a, b, false) && ExtractInv(W, b, c, FIRST, prev) && Filled(a)
    requires forall i | 0 <= i < |Parse(a, W).done| :: |Parse(a, W).done[i]| % 4 == 0
    requires Parse(a, W).open == []
    ensures Parse(c, W) == Parse(a, W) && SameWords(a, c)
  {
    hide AllFramed, SameWords, UnsealAll, SealAll;
    FilledPackets(a, W);
    UnsealSealAll(Parse(a, W).done, W);
    ParseDetermines(a, c, W);
  }
}
