/**
 * Words of a stream, and the packets a stream of words stands for.
 */
module Streams {
  type Byte = b: int | 0 <= b < 256

  type U16 = x: int | 0 <= x < 0x1_0000

  /** The bus widths of the units written out per width: 64, 128, 256 and 512 bits. */
  predicate Width(W: nat) {
    W == 8 || W == 16 || W == 32 || W == 64
  }

  // net_axis: the bytes of one bus word, which of them are valid, and the end of the packet.
  datatype Word = Word(data: seq<Byte>, keep: seq<bool>, last: bool)

  /** The lowest n of width byte lanes. */
  function Low(n: nat, width: nat): (keep: seq<bool>)
    ensures |keep| == width && forall i | 0 <= i < width :: keep[i] <==> i < n
  {
    seq(width, i => i < n)
  }

  function Zeros(n: nat): (z: seq<Byte>)
    ensures |z| == n && forall i | 0 <= i < n :: z[i] == 0
  {
    seq(n, _ => 0)
  }

  predicate None(keep: seq<bool>) {
    forall i | 0 <= i < |keep| :: !keep[i]
  }

  /** The number of valid bytes at the low end. */
  function Len(keep: seq<bool>): (n: nat)
    ensures n <= |keep| && (forall i | 0 <= i < n :: keep[i]) && (n < |keep| ==> !keep[n])
  {
    if |keep| == 0 || !keep[0] then 0 else 1 + Len(keep[1..])
  }

  lemma LenIs(keep: seq<bool>, n: nat)
    requires n <= |keep| && (forall i | 0 <= i < n :: keep[i]) && (n < |keep| ==> !keep[n])
    ensures Len(keep) == n
  {
  }

  function Bytes(w: Word): (b: seq<Byte>)
    requires |w.data| == |w.keep|
    ensures |b| == Len(w.keep)
  {
    w.data[..Len(w.keep)]
  }

  /** A word of a well-formed packet; a final word without valid bytes is told apart by Filled. */
  ghost predicate Framed(w: Word, W: nat) {
    && |w.data| == |w.keep| == W
    && None(w.keep[Len(w.keep)..])
    && (!w.last ==> Len(w.keep) == W)
  }

  ghost predicate AllFramed(ws: seq<Word>, W: nat) {
    forall i | 0 <= i < |ws| :: Framed(ws[i], W)
  }

  /** No word is without valid bytes. */
  ghost predicate Filled(ws: seq<Word>) {
    forall i | 0 <= i < |ws| :: Len(ws[i].keep) > 0
  }

  // The packets completed by a stream of words, and the bytes of the one still open.
  datatype Parsed = Parsed(done: seq<seq<Byte>>, open: seq<Byte>)

  function Next(p: Parsed, w: Word): Parsed
    requires |w.data| == |w.keep|
  {
    if w.last then Parsed(p.done + [p.open + Bytes(w)], []) else Parsed(p.done, p.open + Bytes(w))
  }

  /** After at most one more word. */
  function NextAll(o: Parsed, ws: seq<Word>): Parsed
    requires |ws| <= 1 && forall i | 0 <= i < |ws| :: |ws[i].data| == |ws[i].keep|
  {
    if |ws| == 0 then o else Next(o, ws[0])
  }

  ghost function Parse(ws: seq<Word>, W: nat): Parsed
    requires AllFramed(ws, W)
  {
    if |ws| == 0 then Parsed([], [])
    else Next(Parse(ws[..|ws|-1], W), ws[|ws|-1])
  }

  lemma ParseSnoc(ws: seq<Word>, w: Word, W: nat)
    requires AllFramed(ws, W) && Framed(w, W)
    ensures AllFramed(ws + [w], W) && Parse(ws + [w], W) == Next(Parse(ws, W), w)
    ensures Filled(ws + [w]) <==> Filled(ws) && Len(w.keep) > 0
  {
    assert (ws + [w])[..|ws|] == ws;
    if Filled(ws + [w]) {
      forall i | 0 <= i < |ws| ensures Len(ws[i].keep) > 0 { assert (ws + [w])[i] == ws[i]; }
      assert (ws + [w])[|ws|] == w;
    }
  }

  // ----- a packet has one form as words -----

  /** Equal except in bytes that are not valid. */
  ghost predicate SameWords(a: seq<Word>, b: seq<Word>) {
    |a| == |b| && forall i | 0 <= i < |a| ::
      && a[i].keep == b[i].keep && a[i].last == b[i].last
      && |a[i].data| == |a[i].keep| && |b[i].data| == |b[i].keep| && Bytes(a[i]) == Bytes(b[i])
  }

  /** n is the length of some number of full words. */
  ghost predicate Whole(n: nat, W: nat) {
    n == 0 || (n >= W > 0 && Whole(n - W, W))
  }

  lemma {:induction false} WholeUnits(a: nat, W: nat)
    requires Whole(a, W) && W % 4 == 0
    ensures a % 4 == 0
  {
    if a > 0 {
      WholeUnits(a - W, W);
      UnitsPlus(a - W, W);
    }
  }

  lemma UnitsPlus(a: nat, b: nat)
    requires a % 4 == 0 && b % 4 == 0
    ensures (a + b) % 4 == 0
  {
  }

  /** The open bytes are those of full words. */
  lemma {:induction false} OpenIsWhole(ws: seq<Word>, W: nat)
    requires W > 0 && AllFramed(ws, W)
    ensures Whole(|Parse(ws, W).open|, W)
  {
    if |ws| > 0 {
      OpenIsWhole(ws[..|ws|-1], W);
    }
  }

  /** The last word of a packet holds what the full words before it leave. */
  lemma {:induction false} LastChunk(a: nat, b: nat, n: nat, m: nat, W: nat)
    requires Whole(a, W) && Whole(b, W) && 0 < n <= W && 0 < m <= W && a + n == b + m
    ensures a == b && n == m
  {
    if a >= W && b >= W {
      LastChunk(a - W, b - W, n, m, W);
    }
  }

  /** Two well-formed streams with the same packets are the same words: same length, keep, last and valid bytes. */
  lemma {:induction false} ParseDetermines(a: seq<Word>, b: seq<Word>, W: nat)
    requires W > 0 && AllFramed(a, W) && AllFramed(b, W) && Filled(a) && Filled(b)
    requires Parse(a, W) == Parse(b, W)
    ensures SameWords(a, b)
  {
    hide Framed, Bytes;
    if |a| == 0 || |b| == 0 {
      NonEmptyParse(a, W);
      NonEmptyParse(b, W);
    } else {
      var a', b', v, w := a[..|a|-1], b[..|b|-1], a[|a|-1], b[|b|-1];
      PrefixFramed(a, W);
      PrefixFramed(b, W);
      OpenIsWhole(a', W);
      OpenIsWhole(b', W);
      LastWordSame(Parse(a', W), Parse(b', W), v, w, W);
      ParseDetermines(a', b', W);
      SameSnoc(a, b, W);
    }
  }

  lemma PrefixFramed(a: seq<Word>, W: nat)
    requires |a| > 0 && AllFramed(a, W) && Filled(a)
    ensures AllFramed(a[..|a|-1], W) && Filled(a[..|a|-1]) && Framed(a[|a|-1], W) && Len(a[|a|-1].keep) > 0
    ensures Parse(a, W) == Next(Parse(a[..|a|-1], W), a[|a|-1])
  {
  }

  lemma SameSnoc(a: seq<Word>, b: seq<Word>, W: nat)
    requires |a| > 0 && |b| > 0 && SameWords(a[..|a|-1], b[..|b|-1])
    requires var v, w := a[|a|-1], b[|b|-1];
      Framed(v, W) && Framed(w, W) && v.keep == w.keep && v.last == w.last && Bytes(v) == Bytes(w)
    ensures SameWords(a, b)
  {
    hide Bytes;
    forall i | 0 <= i < |a| - 1
      ensures a[i] == a[..|a|-1][i] && b[i] == b[..|b|-1][i]
    {
    }
  }

  lemma NonEmptyParse(a: seq<Word>, W: nat)
    requires AllFramed(a, W) && Filled(a)
    ensures |a| > 0 ==> Parse(a, W) != Parsed([], [])
  {
    if |a| > 0 {
      assert Len(a[|a|-1].keep) > 0;
    }
  }

  lemma LastWordSame(p: Parsed, q: Parsed, v: Word, w: Word, W: nat)
    requires W > 0 && Framed(v, W) && Framed(w, W) && Len(v.keep) > 0 && Len(w.keep) > 0
    requires Whole(|p.open|, W) && Whole(|q.open|, W)
    requires Next(p, v) == Next(q, w)
    ensures p == q && v.keep == w.keep && v.last == w.last && Bytes(v) == Bytes(w)
  {
    var x, y := p.open + Bytes(v), q.open + Bytes(w);
    if v.last {
      assert Next(p, v).open == [];
      assert w.last;
      assert (p.done + [x])[|p.done|] == x && (q.done + [y])[|q.done|] == y;
      assert (p.done + [x])[..|p.done|] == p.done && (q.done + [y])[..|q.done|] == q.done;
    } else {
      assert !w.last;
    }
    assert x == y;
    LastChunk(|p.open|, |q.open|, Len(v.keep), Len(w.keep), W);
    assert x[..|p.open|] == p.open && y[..|q.open|] == q.open;
    assert x[|p.open|..] == Bytes(v) && y[|q.open|..] == Bytes(w);
    forall i | 0 <= i < W ensures v.keep[i] == w.keep[i] {
      KeepAt(v, W, i);
      KeepAt(w, W, i);
    }
  }

  lemma FramedShape(w: Word, W: nat)
    requires Framed(w, W)
    ensures |w.data| == |w.keep| == W && (!w.last ==> Len(w.keep) == W)
  {
  }

  lemma FirstFramed(input: seq<Word>, W: nat)
    requires AllFramed(input, W) && |input| > 0
    ensures Framed(input[0], W) && (Filled(input) ==> Len(input[0].keep) > 0)
  {
  }

  lemma KeepAt(w: Word, W: nat, i: nat)
    requires Framed(w, W) && i < W
    ensures w.keep[i] <==> i < Len(w.keep)
  {
    if i >= Len(w.keep) {
      assert w.keep[Len(w.keep)..][i - Len(w.keep)] == w.keep[i];
    }
  }

  /** A word whose keep is the lowest n lanes. */
  lemma LowFramed(w: Word, n: nat, W: nat)
    requires |w.data| == |w.keep| == W && n <= W && (forall i | 0 <= i < W :: w.keep[i] <==> i < n) && (!w.last ==> n == W)
    ensures Framed(w, W) && Len(w.keep) == n && Bytes(w) == w.data[..n]
  {
    LenIs(w.keep, n);
  }

  lemma {:induction false} FilledPackets(ws: seq<Word>, W: nat)
    requires AllFramed(ws, W) && Filled(ws)
    ensures forall i | 0 <= i < |Parse(ws, W).done| :: |Parse(ws, W).done[i]| > 0
  {
    if |ws| > 0 {
      PrefixFramed(ws, W);
      FilledPackets(ws[..|ws|-1], W);
    }
  }
}
