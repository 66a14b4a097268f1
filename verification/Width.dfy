/**
 * The width converters: reduceStreamWidth cuts every word into D slices,
 * increaseStreamWidth collects D words into one.
 */
module Width {
  import opened Streams

  // ----- arithmetic on slices -----

  /** The bytes of a word of D slices of w bytes that remain after count slices. */
  function Left(w: nat, D: nat, count: nat): nat
    requires count <= D
  {
    (D - count) * w
  }

  lemma LeftFacts(w: nat, D: nat, count: nat)
    requires w > 0 && count < D
    ensures Left(w, D, count) == w + Left(w, D, count + 1)
    ensures Left(w, D, count) <= w <==> count + 1 == D
    ensures Left(w, D, 0) == D * w && Left(w, D, count) <= D * w
  {
    var r := D - count - 1;
    assert (r + 1) * w == r * w + w;
    assert r > 0 ==> r * w >= w;
    assert D * w == (D - count) * w + count * w;
    assert count * w >= 0;
  }

  // ----- reduceStreamWidth -----

  ghost predicate Contiguous(x: Word, W: nat) {
    |x.data| == |x.keep| == W && None(x.keep[Len(x.keep)..])
  }

  /** The lowest slice of a word. */
  function Slice(x: Word, w: nat, last: bool): Word
    requires w <= |x.data| && w <= |x.keep|
  {
    Word(x.data[..w], x.keep[..w], last)
  }

  /** The word moved down by a slice; the bytes at the top stay, without being valid. */
  function Shifted(x: Word, w: nat): Word
    requires w <= |x.data| == |x.keep|
  {
    Word(x.data[w..] + x.data[|x.data|-w..], x.keep[w..] + Low(0, w), x.last)
  }

  lemma ContiguousAt(x: Word, W: nat)
    requires Contiguous(x, W)
    ensures forall i | 0 <= i < W :: x.keep[i] <==> i < Len(x.keep)
  {
    var n := Len(x.keep);
    forall i | 0 <= i < W ensures x.keep[i] <==> i < n {
      if i >= n { assert x.keep[n..][i - n] == x.keep[i]; }
    }
  }

  lemma LowContiguous(x: Word, n: nat, W: nat)
    requires |x.data| == |x.keep| == W && n <= W && forall i | 0 <= i < W :: x.keep[i] <==> i < n
    ensures Contiguous(x, W) && Len(x.keep) == n && Bytes(x) == x.data[..n]
  {
    LenIs(x.keep, n);
  }

  lemma SliceBytes(x: Word, W: nat, w: nat, last: bool)
    requires Contiguous(x, W) && w <= W
    ensures var n := Len(x.keep);
      && Contiguous(Slice(x, w, last), w)
      && Len(Slice(x, w, last).keep) == (if n <= w then n else w)
      && Bytes(Slice(x, w, last)) == Bytes(x)[..if n <= w then n else w]
  {
    ContiguousAt(x, W);
    var n := if Len(x.keep) <= w then Len(x.keep) else w;
    LowContiguous(Slice(x, w, last), n, w);
    assert x.data[..w][..n] == Bytes(x)[..n];
  }

  lemma ShiftedBytes(x: Word, W: nat, w: nat)
    requires Contiguous(x, W) && w <= W
    ensures var n := Len(x.keep);
      && Contiguous(Shifted(x, w), W)
      && Len(Shifted(x, w).keep) == (if n <= w then 0 else n - w)
      && (n > w ==> Bytes(Shifted(x, w)) == Bytes(x)[w..])
  {
    ContiguousAt(x, W);
    hide Contiguous;
    var n := Len(x.keep);
    var m := if n <= w then 0 else n - w;
    var y := Shifted(x, w);
    forall i | 0 <= i < W ensures y.keep[i] <==> i < m {
      if i < W - w { assert y.keep[i] == x.keep[w + i]; }
    }
    LowContiguous(y, m, W);
    if n > w {
      assert y.data[..m] == x.data[..n][w..];
    }
  }

  /** Between the packets taken (t) and written (o) are the valid bytes of the word being cut up. */
  ghost predicate Pending(t: Parsed, o: Parsed, x: Word, W: nat) {
    && Contiguous(x, W)
    && if x.last then
         && t.open == [] && |t.done| > 0
         && var n := |t.done| - 1;
         && o.done == t.done[..n] && o.open + Bytes(x) == t.done[n]
       else
         o.done == t.done && o.open + Bytes(x) == t.open
  }

  lemma BeginWord(t: Parsed, x: Word, W: nat)
    requires Framed(x, W)
    ensures Pending(Next(t, x), t, x, W)
  {
    assert (t.done + [t.open + Bytes(x)])[..|t.done|] == t.done;
  }

  /** Writing a slice leaves the rest of the word pending, or nothing. */
  lemma WriteSlice(t: Parsed, o: Parsed, x: Word, W: nat, w: nat)
    requires Pending(t, o, x, W) && w <= W && (!x.last ==> Len(x.keep) >= w)
    ensures var send := Slice(x, w, x.last && Len(x.keep) <= w);
      && Framed(send, w)
      && (Len(x.keep) > 0 && w > 0 ==> Len(send.keep) > 0)
      && if Len(x.keep) <= w then Next(o, send) == t else Pending(t, Next(o, send), Shifted(x, w), W)
  {
    var send := Slice(x, w, x.last && Len(x.keep) <= w);
    SliceBytes(x, W, w, send.last);
    ShiftedBytes(x, W, w);
    hide Slice, Shifted, None;
    if Len(x.keep) <= w {
      assert Bytes(x)[..Len(x.keep)] == Bytes(x);
      if x.last {
        assert t.done == t.done[..|t.done|-1] + [t.done[|t.done|-1]];
      }
    } else {
      CutAt(o.open, Bytes(x), w);
    }
  }

  lemma CutAt(o: seq<Byte>, b: seq<Byte>, w: nat)
    requires w <= |b|
    ensures (o + b[..w]) + b[w..] == o + b
  {
    assert b == b[..w] + b[w..];
  }

  ghost predicate ReduceInv(w: nat, D: nat, taken: seq<Word>, written: seq<Word>, second: bool, x: Word, count: nat) {
    && w > 0 && D >= 2 && AllFramed(taken, D * w) && AllFramed(written, w)
    && (Filled(taken) ==> Filled(written))
    && var t, o := Parse(taken, D * w), Parse(written, w);
    && if second then
         && 1 <= count < D && Pending(t, o, x, D * w)
         && 0 < Len(x.keep) <= Left(w, D, count) && (!x.last ==> Len(x.keep) == Left(w, D, count))
       else o == t
  }

  lemma SliceStep(w: nat, D: nat, taken: seq<Word>, written: seq<Word>, x: Word, count: nat, send: Word)
    requires w > 0 && D >= 2 && count < D && AllFramed(taken, D * w) && AllFramed(written, w)
    requires Pending(Parse(taken, D * w), Parse(written, w), x, D * w)
    requires Filled(taken) ==> Filled(written) && Len(x.keep) > 0
    requires Len(x.keep) <= Left(w, D, count) && (!x.last ==> Len(x.keep) == Left(w, D, count))
    requires |x.data| == |x.keep| == D * w >= w && send == Slice(x, w, x.last && Len(x.keep) <= w)
    ensures ReduceInv(w, D, taken, written + [send], Len(x.keep) > w, Shifted(x, w), count + 1)
    ensures Len(x.keep) <= w <==> count + 1 == D || send.last
  {
    LeftFacts(w, D, count);
    WriteSlice(Parse(taken, D * w), Parse(written, w), x, D * w, w);
    ShiftedBytes(x, D * w, w);
    ParseSnoc(written, send, w);
    hide Left, Slice, Shifted, Filled, AllFramed, Pending;
  }

  /** A word taken, and its first slice written. */
  lemma ReduceFirst(w: nat, D: nat, taken: seq<Word>, written: seq<Word>, x: Word, prev: Word, count: nat, send: Word)
    requires ReduceInv(w, D, taken, written, false, prev, count) && Framed(x, D * w)
    requires |x.data| == |x.keep| == D * w > w && send == Slice(x, w, !x.keep[w])
    ensures ReduceInv(w, D, taken + [x], written + [send], x.keep[w], Shifted(x, w), 1)
  {
    hide AllFramed, Filled, Slice, Shifted;
    ParseSnoc(taken, x, D * w);
    BeginWord(Parse(taken, D * w), x, D * w);
    LeftFacts(w, D, 0);
    KeepAt(x, D * w, w);
    SliceStep(w, D, taken + [x], written, x, 0, send);
  }

  /** One more slice of the word, at the latest the D-th. */
  lemma ReduceMore(w: nat, D: nat, taken: seq<Word>, written: seq<Word>, x: Word, count: nat, send: Word)
    requires ReduceInv(w, D, taken, written, true, x, count)
    requires |x.data| == |x.keep| == D * w > w && send == Slice(x, w, if count < D - 1 then !x.keep[w] else x.last)
    ensures ReduceInv(w, D, taken, written + [send], !(count + 1 == D || send.last), Shifted(x, w), count + 1)
  {
    hide AllFramed, Filled, Slice, Shifted;
    LeftFacts(w, D, count);
    ContiguousAt(x, D * w);
    SliceStep(w, D, taken, written, x, count, send);
  }

  class WidthReducer {
    const w: nat
    const D: nat
    var second: bool
    var count: nat
    var currWord: Word
    ghost var taken: seq<Word>
    ghost var written: seq<Word>

    ghost predicate Valid()
      reads this
    {
      ReduceInv(w, D, taken, written, second, currWord, count)
    }

    constructor (w: nat, D: nat)
      requires w > 0 && D >= 2
      ensures Valid() && this.w == w && this.D == D && taken == written == []
    {
      this.w, this.D := w, D;
      second, count, currWord := false, 0, Word([], [], false);
      taken, written := [], [];
    }

    method Step(input: seq<Word>) returns (rest: seq<Word>, output: seq<Word>)
      requires Valid() && AllFramed(input, D * w)
      modifies this
      ensures Valid()
      ensures old(taken) + input == taken + rest && written == old(written) + output
      ensures if old(second) || |input| == 0 then rest == input else rest == input[1..]
      ensures |output| == if old(second) || |input| > 0 then 1 else 0
    {
      hide ReduceInv, Slice, Shifted, Framed;
      rest, output := input, [];
      ReduceShape(w, D, taken, written, second, currWord, count);
      if !second {
        if |input| > 0 {
          currWord, rest := input[0], input[1..];
          assert Framed(currWord, D * w);
          FramedShape(currWord, D * w);
          var send := Slice(currWord, w, !currWord.keep[w]);
          ReduceFirst(w, D, taken, written, currWord, old(currWord), old(count), send);
          output := [send];
          taken := taken + [currWord];
          assert input == [currWord] + rest;
          if currWord.keep[w] {
            count := 1;
            second := true;
          }
          ReduceIdle(w, D, taken, written + [send], second, Shifted(currWord, w), 1, count);
          currWord := Shifted(currWord, w);
        }
      } else {
        var send := Slice(currWord, w, if count < D - 1 then !currWord.keep[w] else currWord.last);
        ReduceMore(w, D, taken, written, currWord, count, send);
        output := [send];
        currWord := Shifted(currWord, w);
        count := count + 1;
        if count == D || send.last {
          second := false;
        }
      }
      assert output == [] ==> written + output == written;
      written := written + output;
    }
  }

  lemma ReduceShape(w: nat, D: nat, taken: seq<Word>, written: seq<Word>, second: bool, x: Word, count: nat)
    requires ReduceInv(w, D, taken, written, second, x, count)
    ensures D >= 2 && D * w > w && (second ==> |x.data| == |x.keep| == D * w && count < D)
  {
    assert D * w == (D - 1) * w + w && (D - 1) * w > 0 by { LeftFacts(w, D, 0); LeftFacts(w, D, 1); }
  }

  /** Between words the count does not matter. */
  lemma ReduceIdle(w: nat, D: nat, taken: seq<Word>, written: seq<Word>, second: bool, x: Word, count: nat, count': nat)
    requires ReduceInv(w, D, taken, written, second, x, count) && (second ==> count' == count)
    ensures ReduceInv(w, D, taken, written, second, x, count')
  {
  }

  // ----- increaseStreamWidth -----

  /** Word x with slice y at position a. */
  function Placed(x: Word, a: nat, y: Word): Word
    requires |x.data| == |x.keep| && |y.data| == |y.keep| && a + |y.data| <= |x.data|
  {
    Word(x.data[..a] + y.data + x.data[a + |y.data|..], x.keep[..a] + y.keep + x.keep[a + |y.data|..], y.last)
  }

  /** temp holds, in its first a lanes, the bytes taken and not yet written. */
  ghost predicate Collected(t: Parsed, o: Parsed, temp: Word, a: nat, W: nat) {
    && |temp.data| == |temp.keep| == W && a <= W && (forall i | 0 <= i < W :: temp.keep[i] <==> i < a)
    && o.done == t.done && o.open + temp.data[..a] == t.open
  }

  lemma PlacedBytes(temp: Word, a: nat, y: Word, W: nat, w: nat)
    requires |temp.data| == |temp.keep| == W && a + w <= W && (forall i | 0 <= i < W :: temp.keep[i] <==> i < a)
    requires Framed(y, w)
    ensures var z := Placed(temp, a, y);
      && |z.data| == |z.keep| == W && Len(z.keep) == a + Len(y.keep)
      && (forall i | 0 <= i < W :: z.keep[i] <==> i < a + Len(y.keep))
      && Bytes(z) == temp.data[..a] + Bytes(y)
      && (y.last || a + w == W ==> Framed(z, W))
  {
    FramedShape(y, w);
    PlacedKeep(temp.keep, a, y, w);
    hide Framed, None;
    var z, n := Placed(temp, a, y), Len(y.keep);
    assert |z.data| == |z.keep| == W;
    LenIs(z.keep, a + n);
    PlacedData(temp.data, a, y.data, n);
    if y.last || a + w == W {
      LowFramed(z, a + n, W);
    }
  }

  lemma PlacedData(d: seq<Byte>, a: nat, y: seq<Byte>, n: nat)
    requires n <= |y| && a + |y| <= |d|
    ensures (d[..a] + y + d[a + |y|..])[..a + n] == d[..a] + y[..n]
  {
  }

  lemma PlacedKeep(k: seq<bool>, a: nat, y: Word, w: nat)
    requires Framed(y, w) && a + w <= |k| && forall i | 0 <= i < |k| :: k[i] <==> i < a
    ensures var k' := k[..a] + y.keep + k[a + w..];
      |k'| == |k| && forall i | 0 <= i < |k| :: k'[i] <==> i < a + Len(y.keep)
  {
    var k' := k[..a] + y.keep + k[a + w..];
    forall i | 0 <= i < |k| ensures k'[i] <==> i < a + Len(y.keep) {
      if i < a {
      } else if i < a + w {
        assert k'[i] == y.keep[i - a];
        KeepAt(y, w, i - a);
      } else {
        assert k'[i] == k[i];
      }
    }
  }

  /** A slice added to the word; the word is complete with the packet, or when it is full. */
  lemma CollectSlice(t: Parsed, o: Parsed, temp: Word, a: nat, y: Word, W: nat, w: nat)
    requires Collected(t, o, temp, a, W) && Framed(y, w) && a + w <= W
    ensures var z := Placed(temp, a, y);
      && (y.last || a + w == W ==> Framed(z, W) && Next(o, z) == Next(t, y))
      && (!y.last ==> Collected(Next(t, y), o, z, a + w, W))
      && |z.data| == |z.keep| == W && Len(z.keep) == a + Len(y.keep)
  {
    PlacedBytes(temp, a, y, W, w);
    hide Placed, Framed;
    FramedShape(y, w);
    var z := Placed(temp, a, y);
    assert (o.open + temp.data[..a]) + Bytes(y) == o.open + (temp.data[..a] + Bytes(y));
    if !y.last {
      assert z.data[..a + w] == Bytes(z);
    }
  }

  ghost predicate IncreaseInv(w: nat, D: nat, taken: seq<Word>, written: seq<Word>, temp: Word, count: nat) {
    && w > 0 && count < D && AllFramed(taken, w) && AllFramed(written, D * w)
    && (Filled(taken) ==> Filled(written))
    && Collected(Parse(taken, w), Parse(written, D * w), temp, count * w, D * w)
  }

  lemma SliceRoom(w: nat, D: nat, count: nat)
    requires w > 0 && count < D
    ensures count * w + w <= D * w && (count + 1) * w == count * w + w
    ensures count + 1 == D <==> count * w + w == D * w
  {
    LeftFacts(w, D, count);
    assert D * w == (D - count) * w + count * w;
  }

  lemma IncreaseStep(w: nat, D: nat, taken: seq<Word>, written: seq<Word>, temp: Word, count: nat, y: Word, z: Word)
    requires IncreaseInv(w, D, taken, written, temp, count) && Framed(y, w)
    requires |temp.data| == |temp.keep| && |y.data| == |y.keep| && count * w + |y.data| <= |temp.data| && z == Placed(temp, count * w, y)
    ensures |z.data| == |z.keep| == D * w
    ensures if y.last || count + 1 == D
      then IncreaseInv(w, D, taken + [y], written + [z], z.(keep := Low(0, D * w)), 0)
      else IncreaseInv(w, D, taken + [y], written, z, count + 1)
  {
    SliceRoom(w, D, count);
    CollectSlice(Parse(taken, w), Parse(written, D * w), temp, count * w, y, D * w, w);
    ParseSnoc(taken, y, w);
    if y.last || count + 1 == D {
      ParseSnoc(written, z, D * w);
      CollectNothing(w, D, taken + [y], written + [z], z);
    } else {
      hide Placed, AllFramed, Filled, Collected;
    }
  }

  lemma CollectNothing(w: nat, D: nat, taken: seq<Word>, written: seq<Word>, z: Word)
    requires w > 0 && D > 0 && AllFramed(taken, w) && AllFramed(written, D * w) && (Filled(taken) ==> Filled(written))
    requires Parse(taken, w) == Parse(written, D * w) && |z.data| == D * w
    ensures IncreaseInv(w, D, taken, written, z.(keep := Low(0, D * w)), 0)
  {
    var o := Parse(written, D * w);
    assert o.open + z.data[..0] == o.open;
  }

  class WidthIncreaser {
    const w: nat
    const D: nat
    var count: nat
    var temp: Word
    ghost var taken: seq<Word>
    ghost var written: seq<Word>

    ghost predicate Valid()
      reads this
    {
      IncreaseInv(w, D, taken, written, temp, count)
    }

    constructor (w: nat, D: nat)
      requires w > 0 && D > 0
      ensures Valid() && this.w == w && this.D == D && taken == written == [] && count == 0
    {
      this.w, this.D := w, D;
      count, temp := 0, Word(Zeros(D * w), Low(0, D * w), false);
      taken, written := [], [];
      new;
      CollectNothing(w, D, [], [], temp);
    }

    method Step(input: seq<Word>) returns (rest: seq<Word>, output: seq<Word>)
      requires Valid() && AllFramed(input, w)
      modifies this
      ensures Valid()
      ensures old(taken) + input == taken + rest && written == old(written) + output
      ensures rest == if |input| == 0 then input else input[1..]
    {
      hide IncreaseInv, Placed, Framed;
      rest, output := input, [];
      if |input| > 0 {
        var currWord := input[0];
        rest := input[1..];
        assert Framed(currWord, w);
        FramedShape(currWord, w);
        IncreaseShape(w, D, taken, written, temp, count);
        IncreaseStep(w, D, taken, written, temp, count, currWord, Placed(temp, count * w, currWord));
        temp := Placed(temp, count * w, currWord);
        count := count + 1;
        if currWord.last || count == D {
          output := [temp];
          count := 0;
          temp := temp.(keep := Low(0, D * w));
        }
        taken := taken + [currWord];
        assert input == [currWord] + rest;
      }
      assert output == [] ==> written + output == written;
      written := written + output;
    }
  }

  lemma IncreaseShape(w: nat, D: nat, taken: seq<Word>, written: seq<Word>, temp: Word, count: nat)
    requires IncreaseInv(w, D, taken, written, temp, count)
    ensures |temp.data| == |temp.keep| == D * w && count * w + w <= D * w && D > 0
  {
    SliceRoom(w, D, count);
  }

  // ----- round trip -----

  /** Increasing the width undoes reducing it, for every factor: the same words up to bytes that are not valid. */
  lemma WidthRoundTrip(w: nat, D: nat, a: seq<Word>, b: seq<Word>, c: seq<Word>, x: Word, n: nat, temp: Word)
    requires ReduceInv(w, D, a, b, false, x, n) && IncreaseInv(w, D, b, c, temp, 0)
    ensures Parse(c, D * w) == Parse(a, D * w)
    ensures Filled(a) ==> SameWords(a, c)
  {
    hide AllFramed, SameWords, Filled;
    var o := Parse(c, D * w);
    assert o.open + temp.data[..0] == o.open;
    if Filled(a) {
      LeftFacts(w, D, 0);
      ParseDetermines(a, c, D * w);
    }
  }
}
