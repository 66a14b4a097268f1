/**
 * The byte shifters: lshiftWordByOctet makes room at the front of every packet,
 * rshiftWordByOctet closes it again. Both hold back part of a word from one word
 * to the next, and may need one more word after the last.
 */
module Shift {
  import opened Streams

  // ----- the simple form: shifting whole packets -----

  /** z in front of every packet. */
  function PrefixAll(z: seq<Byte>, ps: seq<seq<Byte>>): (r: seq<seq<Byte>>)
    ensures |r| == |ps|
  {
    if |ps| == 0 then [] else PrefixAll(z, ps[..|ps|-1]) + [z + ps[|ps|-1]]
  }

  /** Without the first k bytes, or all if there are fewer. */
  function Drop(p: seq<Byte>, k: nat): seq<Byte> {
    if |p| <= k then [] else p[k..]
  }

  function DropAll(ps: seq<seq<Byte>>, k: nat): (r: seq<seq<Byte>>)
    ensures |r| == |ps|
  {
    if |ps| == 0 then [] else DropAll(ps[..|ps|-1], k) + [Drop(ps[|ps|-1], k)]
  }

  lemma PrefixAllSnoc(z: seq<Byte>, ps: seq<seq<Byte>>, p: seq<Byte>)
    ensures PrefixAll(z, ps + [p]) == PrefixAll(z, ps) + [z + p]
  {
    assert (ps + [p])[..|ps|] == ps;
  }

  lemma DropAllSnoc(ps: seq<seq<Byte>>, p: seq<Byte>, k: nat)
    ensures DropAll(ps + [p], k) == DropAll(ps, k) + [Drop(p, k)]
  {
    assert (ps + [p])[..|ps|] == ps;
  }

  lemma {:induction false} DropUndoesPrefix(z: seq<Byte>, ps: seq<seq<Byte>>)
    ensures DropAll(PrefixAll(z, ps), |z|) == ps
  {
    if |ps| > 0 {
      var n := |ps| - 1;
      DropUndoesPrefix(z, ps[..n]);
      DropAllSnoc(PrefixAll(z, ps[..n]), z + ps[n], |z|);
      assert (z + ps[n])[|z|..] == ps[n];
      assert ps == ps[..n] + [ps[n]];
    }
  }

  // ----- words that join the end of one word with the start of the next -----

  /** The bytes of prev from lane c on, then as many of cur as fit. */
  function Join(prev: Word, cur: Word, c: nat, last: bool): Word
    requires |prev.data| == |prev.keep| && |cur.data| == |cur.keep| && c <= |prev.data| && c <= |cur.data|
  {
    Word(prev.data[c..] + cur.data[..c], prev.keep[c..] + cur.keep[..c], last)
  }

  /** The bytes of prev from lane c on and nothing else. */
  function Rest(prev: Word, c: nat): Word
    requires |prev.data| == |prev.keep| && c <= |prev.data|
  {
    Word(prev.data[c..] + Zeros(c), prev.keep[c..] + Low(0, c), true)
  }

  predicate NoneFrom(w: Word, c: nat)
    requires c <= |w.keep|
  {
    None(w.keep[c..])
  }

  lemma NoneFromLen(w: Word, W: nat, c: nat)
    requires Framed(w, W) && c <= W
    ensures NoneFrom(w, c) <==> Len(w.keep) <= c
  {
    if Len(w.keep) > c {
      assert w.keep[c..][0];
    } else {
      forall i | 0 <= i < W - c ensures !w.keep[c..][i] { KeepAt(w, W, c + i); }
    }
  }

  lemma SpliceKeep(a: seq<bool>, b: seq<bool>, W: nat, c: nat, m: nat, n: nat)
    requires |a| == |b| == W && c <= W && n <= c && m <= W - c && (n > 0 ==> m == W - c)
    requires forall i | c <= i < W :: a[i] <==> i < c + m
    requires forall i | 0 <= i < c :: b[i] <==> i < n
    ensures forall i | 0 <= i < W :: (a[c..] + b[..c])[i] <==> i < m + n
  {
    forall i | 0 <= i < W
      ensures (a[c..] + b[..c])[i] <==> i < m + n
    {
      assert (a[c..] + b[..c])[i] == if i < W - c then a[c + i] else b[i - (W - c)];
    }
  }

  lemma SpliceData(a: seq<Byte>, b: seq<Byte>, c: nat, m: nat, n: nat)
    requires c <= |a| && c <= |b| && n <= c && m <= |a| - c && (n > 0 ==> m == |a| - c)
    ensures (a[c..] + b[..c])[..m + n] == a[c..c + m] + b[..n]
  {
  }

  lemma KeepIs(w: Word, W: nat)
    requires Framed(w, W)
    ensures forall i | 0 <= i < W :: w.keep[i] <==> i < Len(w.keep)
  {
    forall i | 0 <= i < W ensures w.keep[i] <==> i < Len(w.keep) { KeepAt(w, W, i); }
  }

  /** A joined word carries the rest of a full word and the start of the next. */
  lemma JoinBytes(prev: Word, cur: Word, W: nat, c: nat)
    requires Framed(prev, W) && Len(prev.keep) == W && Framed(cur, W) && c <= W
    ensures var w := Join(prev, cur, c, NoneFrom(cur, c));
      && var n := if Len(cur.keep) <= c then Len(cur.keep) else c;
      && Framed(w, W) && Len(w.keep) == W - c + n && w.last == (Len(cur.keep) <= c)
      && Bytes(w) == Bytes(prev)[c..] + Bytes(cur)[..n]
  {
    hide None, NoneFrom, Framed, Len;
    FramedShape(prev, W);
    FramedShape(cur, W);
    var w := Join(prev, cur, c, NoneFrom(cur, c));
    var n := if Len(cur.keep) <= c then Len(cur.keep) else c;
    NoneFromLen(cur, W, c);
    JoinFramed(prev, cur, W, c, w, n);
    JoinData(prev.data, cur.data, c, Len(cur.keep), n);
  }

  lemma JoinData(a: seq<Byte>, b: seq<Byte>, c: nat, l: nat, n: nat)
    requires c <= |a| && c <= |b| && n <= l <= |b| && n <= c
    ensures (a[c..] + b[..c])[..|a| - c + n] == a[..|a|][c..] + b[..l][..n]
  {
    assert a[..|a|] == a;
    assert b[..l][..n] == b[..n];
    SpliceData(a, b, c, |a| - c, n);
    assert a[c..c + (|a| - c)] == a[c..];
  }

  lemma JoinFramed(prev: Word, cur: Word, W: nat, c: nat, w: Word, n: nat)
    requires Framed(prev, W) && Len(prev.keep) == W && Framed(cur, W) && c <= W
    requires n == if Len(cur.keep) <= c then Len(cur.keep) else c
    requires w == Join(prev, cur, c, Len(cur.keep) <= c)
    ensures Framed(w, W) && Len(w.keep) == W - c + n && Bytes(w) == w.data[..W - c + n]
  {
    hide None;
    KeepIs(prev, W);
    KeepIs(cur, W);
    SpliceKeep(prev.keep, cur.keep, W, c, W - c, n);
    LowFramed(w, W - c + n, W);
  }

  lemma RestBytes(prev: Word, W: nat, c: nat)
    requires Framed(prev, W) && c <= W
    ensures var w := Rest(prev, c);
      && Framed(w, W) && w.last && Bytes(w) == Drop(Bytes(prev), c)
      && Len(w.keep) == (if Len(prev.keep) <= c then 0 else Len(prev.keep) - c)
  {
    var n := if Len(prev.keep) <= c then 0 else Len(prev.keep) - c;
    RestFramed(prev, W, c, Rest(prev, c), n);
    SpliceData(prev.data, Zeros(W), c, n, 0);
  }

  lemma RestFramed(prev: Word, W: nat, c: nat, w: Word, n: nat)
    requires Framed(prev, W) && c <= W && w == Rest(prev, c)
    requires n == if Len(prev.keep) <= c then 0 else Len(prev.keep) - c
    ensures Framed(w, W) && Len(w.keep) == n && Bytes(w) == w.data[..n]
  {
    hide None;
    KeepIs(prev, W);
    var padded := Low(0, c) + Low(0, W - c);
    SpliceKeep(prev.keep, padded, W, c, n, 0);
    assert padded[..c] == Low(0, c);
    LowFramed(w, n, W);
  }

  // ----- left shift -----

  /** The packets written (o) for those taken (t), in each of the left shifter's three states. */
  ghost predicate LeftRel(W: nat, k: nat, t: Parsed, o: Parsed, first: bool, remainder: bool, prev: Word) {
    && k <= W
    && if remainder then
         && first && t.open == [] && |t.done| > 0
         && var n := |t.done| - 1;
         && o.done == PrefixAll(Zeros(k), t.done[..n])
         && Framed(prev, W) && Len(prev.keep) > W - k
         && o.open + Bytes(prev)[W-k..] == Zeros(k) + t.done[n]
       else
         && o.done == PrefixAll(Zeros(k), t.done)
         && if first then t.open == [] && o.open == []
            else Framed(prev, W) && Len(prev.keep) == W && |t.open| >= W && o.open + Bytes(prev)[W-k..] == Zeros(k) + t.open
  }

  ghost predicate LeftInv(W: nat, k: nat, taken: seq<Word>, written: seq<Word>, first: bool, remainder: bool, prev: Word) {
    && 0 < k < W && AllFramed(taken, W) && AllFramed(written, W) && Filled(written)
    && LeftRel(W, k, Parse(taken, W), Parse(written, W), first, remainder, prev)
  }

  /** Before the first word of a packet, what is held back are the k filler bytes. */
  function Filler(W: nat, k: nat): Word
    requires k <= W
  {
    Word(Zeros(W), Low(W, W), false)
  }

  lemma FillerBytes(W: nat, k: nat)
    requires k <= W
    ensures Framed(Filler(W, k), W) && Len(Filler(W, k).keep) == W && Bytes(Filler(W, k))[W-k..] == Zeros(k)
  {
    LowFramed(Filler(W, k), W, W);
  }

  /** A word taken: the word sent joins what was held back and the start of this one. */
  lemma LeftWord(W: nat, k: nat, taken: seq<Word>, written: seq<Word>, first: bool, prev: Word, cur: Word, send: Word)
    requires LeftInv(W, k, taken, written, first, false, prev) && Framed(cur, W)
    requires var held := if first then Filler(W, k) else prev;
      |held.data| == |held.keep| == W && send == Join(held, cur, W - k, NoneFrom(cur, W - k))
    ensures LeftInv(W, k, taken + [cur], written + [send], cur.last, cur.last && !send.last, cur)
  {
    hide Join, Filled, AllFramed, NoneFrom, Filler, Framed, Bytes, Next;
    LeftStep(W, k, Parse(taken, W), Parse(written, W), first, prev, cur, send);
    ParseSnoc(taken, cur, W);
    ParseSnoc(written, send, W);
  }

  lemma LeftStep(W: nat, k: nat, t: Parsed, o: Parsed, first: bool, prev: Word, cur: Word, send: Word)
    requires LeftRel(W, k, t, o, first, false, prev) && 0 < k < W && Framed(cur, W)
    requires var held := if first then Filler(W, k) else prev;
      |held.data| == |held.keep| == W && send == Join(held, cur, W - k, NoneFrom(cur, W - k))
    ensures Framed(send, W) && Len(send.keep) > 0
    ensures LeftRel(W, k, Next(t, cur), Next(o, send), cur.last, cur.last && !send.last, cur)
  {
    hide Join, NoneFrom, Filler, None, PrefixAll;
    var held := if first then Filler(W, k) else prev;
    FillerBytes(W, k);
    JoinBytes(held, cur, W, W - k);
    LeftBytes(Zeros(k), t.open, o.open, Bytes(held), Bytes(cur), Bytes(send), W - k);
    PrefixAllSnoc(Zeros(k), t.done, t.open + Bytes(cur));
    assert (t.done + [t.open + Bytes(cur)])[..|t.done|] == t.done;
  }

  /** The bytes sent move the boundary between what is out and what is held back. */
  lemma LeftBytes(z: seq<Byte>, t: seq<Byte>, o: seq<Byte>, held: seq<Byte>, cur: seq<Byte>, send: seq<Byte>, c: nat)
    requires c <= |held| && o + held[c..] == z + t
    requires send == held[c..] + cur[..if |cur| <= c then |cur| else c]
    ensures |cur| <= c ==> o + send == z + (t + cur)
    ensures |cur| > c ==> (o + send) + cur[c..] == z + (t + cur)
  {
    if |cur| <= c {
      assert o + send == (o + held[c..]) + cur;
    } else {
      assert cur == cur[..c] + cur[c..];
      assert (o + send) + cur[c..] == (o + held[c..]) + cur;
    }
  }

  lemma LeftRemainder(W: nat, k: nat, taken: seq<Word>, written: seq<Word>, first: bool, prev: Word)
    requires LeftInv(W, k, taken, written, first, true, prev)
    ensures LeftInv(W, k, taken, written + [Rest(prev, W - k)], first, false, prev)
  {
    hide Rest, Framed, Bytes, AllFramed, Filled;
    FramedShape(prev, W);
    RestBytes(prev, W, W - k);
    ParseSnoc(written, Rest(prev, W - k), W);
    var t, o := Parse(taken, W), Parse(written, W);
    var n := |t.done| - 1;
    PrefixAllSnoc(Zeros(k), t.done[..n], t.done[n]);
    assert t.done == t.done[..n] + [t.done[n]];
  }

  // ----- right shift -----

  /** The packets written (o) for those taken (t), in each of the right shifter's states. */
  ghost predicate RightRel(W: nat, k: nat, t: Parsed, o: Parsed, first: bool, remainder: bool, prev: Word) {
    if remainder then
      && first && t.open == [] && |t.done| > 0
      && var n := |t.done| - 1;
      && o.done == DropAll(t.done[..n], k)
      && Framed(prev, W) && o.open + Drop(Bytes(prev), k) == Drop(t.done[n], k)
      && (|t.done[n]| > k ==> Len(prev.keep) > k)
    else
      && o.done == DropAll(t.done, k)
      && if first then t.open == [] && o.open == []
         else Framed(prev, W) && Len(prev.keep) == W && |t.open| >= W && o.open + Drop(Bytes(prev), k) == Drop(t.open, k)
  }

  /** Every packet is longer than k. */
  ghost predicate Longer(t: Parsed, k: nat) {
    forall i | 0 <= i < |t.done| :: |t.done[i]| > k
  }

  ghost predicate RightInv(W: nat, k: nat, taken: seq<Word>, written: seq<Word>, first: bool, remainder: bool, prev: Word) {
    && 0 < k < W && AllFramed(taken, W) && AllFramed(written, W)
    && (Longer(Parse(taken, W), k) ==> Filled(written))
    && RightRel(W, k, Parse(taken, W), Parse(written, W), first, remainder, prev)
  }

  lemma LongerBefore(t: Parsed, w: Word, k: nat)
    requires |w.data| == |w.keep| && Longer(Next(t, w), k)
    ensures Longer(t, k)
  {
    forall i | 0 <= i < |t.done| ensures |t.done[i]| > k { assert Next(t, w).done[i] == t.done[i]; }
  }

  /** The first word of a packet is only held back. */
  lemma RightFirst(W: nat, k: nat, taken: seq<Word>, written: seq<Word>, prev: Word, cur: Word)
    requires RightInv(W, k, taken, written, true, false, prev) && Framed(cur, W)
    ensures RightInv(W, k, taken + [cur], written, cur.last, cur.last, cur)
  {
    hide Framed, AllFramed, Longer, Filled, Bytes, DropAll;
    FramedShape(cur, W);
    ParseSnoc(taken, cur, W);
    if Longer(Parse(taken + [cur], W), k) {
      LongerBefore(Parse(taken, W), cur, k);
    }
    var t, b := Parse(taken, W), Bytes(cur);
    assert t.open + b == b;
    assert (t.done + [b])[..|t.done|] == t.done;
    assert Parse(written, W).open + Drop(b, k) == Drop(b, k);
  }

  /** Every further word: the word sent joins what was held back and the start of this one. */
  lemma RightWord(W: nat, k: nat, taken: seq<Word>, written: seq<Word>, prev: Word, cur: Word, send: Word)
    requires RightInv(W, k, taken, written, false, false, prev) && Framed(cur, W)
    requires |prev.data| == |prev.keep| == W && send == Join(prev, cur, k, NoneFrom(cur, k))
    ensures RightInv(W, k, taken + [cur], written + [send], cur.last, cur.last && !send.last, cur)
  {
    hide Join, NoneFrom, Framed, AllFramed, Longer, Filled, Bytes, Next;
    FramedShape(cur, W);
    RightStep(W, k, Parse(taken, W), Parse(written, W), prev, cur, send);
    ParseSnoc(taken, cur, W);
    ParseSnoc(written, send, W);
    if Longer(Parse(taken + [cur], W), k) {
      LongerBefore(Parse(taken, W), cur, k);
    }
  }

  lemma RightStep(W: nat, k: nat, t: Parsed, o: Parsed, prev: Word, cur: Word, send: Word)
    requires RightRel(W, k, t, o, false, false, prev) && 0 < k < W && Framed(cur, W)
    requires send == Join(prev, cur, k, NoneFrom(cur, k))
    ensures Framed(send, W) && Len(send.keep) > 0
    ensures RightRel(W, k, Next(t, cur), Next(o, send), cur.last, cur.last && !send.last, cur)
  {
    hide Join, NoneFrom, None, DropAll;
    JoinBytes(prev, cur, W, k);
    LeftBytes([], t.open[k..], o.open, Bytes(prev), Bytes(cur), Bytes(send), k);
    assert [] + (t.open[k..] + Bytes(cur)) == (t.open + Bytes(cur))[k..];
    DropAllSnoc(t.done, t.open + Bytes(cur), k);
    assert (t.done + [t.open + Bytes(cur)])[..|t.done|] == t.done;
  }

  lemma RightRemainder(W: nat, k: nat, taken: seq<Word>, written: seq<Word>, first: bool, prev: Word)
    requires RightInv(W, k, taken, written, first, true, prev)
    ensures RightInv(W, k, taken, written + [Rest(prev, k)], first, false, prev)
  {
    hide Rest, Framed, Bytes, AllFramed, Filled, Drop, DropAll;
    FramedShape(prev, W);
    RestBytes(prev, W, k);
    ParseSnoc(written, Rest(prev, k), W);
    var t := Parse(taken, W);
    var n := |t.done| - 1;
    DropAllSnoc(t.done[..n], t.done[n], k);
    assert t.done == t.done[..n] + [t.done[n]];
  }

  // ----- the shifters, one call of Step per clock -----

  class LeftShifter {
    const W: nat
    const offset: nat
    var firstWord: bool
    var writeRemainder: bool
    var prevWord: Word
    ghost var taken: seq<Word>
    ghost var written: seq<Word>

    ghost predicate Valid()
      reads this
    {
      if offset == 0 then written == taken && !writeRemainder
      else offset <= 32 && LeftInv(W, offset, taken, written, firstWord, writeRemainder, prevWord)
    }

    constructor (W: nat, offset: nat)
      requires offset < W && offset <= 32
      ensures Valid() && this.W == W && this.offset == offset && taken == written == []
    {
      this.W, this.offset := W, offset;
      firstWord, writeRemainder, prevWord := true, false, Word([], [], false);
      taken, written := [], [];
    }

    method Step(input: seq<Word>) returns (rest: seq<Word>, output: seq<Word>)
      requires Valid() && AllFramed(input, W)
      modifies this
      ensures Valid()
      ensures old(taken) + input == taken + rest && written == old(written) + output
      ensures if old(writeRemainder) || |input| == 0 then rest == input else rest == input[1..]
      ensures |output| == if old(writeRemainder) || |input| > 0 then 1 else 0
    {
      hide LeftInv, Join, Rest, NoneFrom, Framed;
      rest, output := input, [];
      if writeRemainder {
        LeftRemainder(W, offset, taken, written, firstWord, prevWord);
        LeftShapes(W, offset, taken, written, firstWord, true, prevWord);
        output := [Rest(prevWord, W - offset)];
        writeRemainder := false;
      } else if |input| > 0 {
        var cur := input[0];
        assert Framed(cur, W);
        rest := input[1..];
        if offset == 0 {
          output := [cur];
        } else {
          LeftShapes(W, offset, taken, written, firstWord, false, prevWord);
          FramedShape(cur, W);
          var held := if firstWord then Word(Zeros(W), Low(W - offset, W - offset) + Low(32, offset), false) else prevWord;
          var send := Join(held, cur, W - offset, NoneFrom(cur, W - offset));
          if firstWord {
            assert send == Join(Filler(W, offset), cur, W - offset, NoneFrom(cur, W - offset)) by {
              FirstHeld(W, offset, cur, NoneFrom(cur, W - offset));
            }
          }
          LeftWord(W, offset, taken, written, firstWord, prevWord, cur, send);
          output := [send];
          prevWord := cur;
          firstWord := false;
          if cur.last {
            firstWord := true;
            writeRemainder := !send.last;
          }
        }
        taken := taken + [cur];
        assert input == [cur] + rest;
      }
      assert output == [] ==> written + output == written;
      written := written + output;
    }
  }

  lemma LeftShapes(W: nat, k: nat, taken: seq<Word>, written: seq<Word>, first: bool, remainder: bool, prev: Word)
    requires LeftInv(W, k, taken, written, first, remainder, prev)
    ensures 0 < k < W && (remainder || !first ==> |prev.data| == |prev.keep| == W) && (remainder ==> first)
  {
  }

  /** The mask 0xFFFFFFFF cut to the offset covers all filler bytes, as the offset is at most 32. */
  lemma FirstHeld(W: nat, k: nat, cur: Word, last: bool)
    requires k <= W && k <= 32 && |cur.data| == |cur.keep| == W
    ensures Join(Word(Zeros(W), Low(W - k, W - k) + Low(32, k), false), cur, W - k, last) == Join(Filler(W, k), cur, W - k, last)
  {
    assert Low(W - k, W - k) + Low(32, k) == Low(W, W);
  }

  class RightShifter {
    const W: nat
    const offset: nat
    var firstWord: bool
    var remainder: bool
    var prevWord: Word
    ghost var taken: seq<Word>
    ghost var written: seq<Word>

    ghost predicate Valid()
      reads this
    {
      if offset == 0 then written == taken && !remainder && !firstWord
      else RightInv(W, offset, taken, written, firstWord, remainder, prevWord)
    }

    constructor (W: nat, offset: nat)
      requires offset < W
      ensures Valid() && this.W == W && this.offset == offset && taken == written == []
    {
      this.W, this.offset := W, offset;
      firstWord, remainder, prevWord := offset != 0, false, Word([], [], false);
      taken, written := [], [];
    }

    method Step(input: seq<Word>) returns (rest: seq<Word>, output: seq<Word>)
      requires Valid() && AllFramed(input, W)
      modifies this
      ensures Valid()
      ensures old(taken) + input == taken + rest && written == old(written) + output
      ensures if old(remainder) || |input| == 0 then rest == input else rest == input[1..]
      ensures |output| == if old(remainder) || (|input| > 0 && !old(firstWord)) then 1 else 0
    {
      hide RightInv, Join, Rest, NoneFrom, Framed;
      rest, output := input, [];
      if remainder {
        RightShapes(W, offset, taken, written, firstWord, true, prevWord);
        RightRemainder(W, offset, taken, written, firstWord, prevWord);
        output := [Rest(prevWord, offset)];
        remainder := false;
      } else if |input| > 0 {
        var cur := input[0];
        assert Framed(cur, W);
        rest := input[1..];
        var sendLast := false;
        if firstWord {
          RightFirst(W, offset, taken, written, prevWord, cur);
        } else if offset == 0 {
          output := [cur];
          sendLast := cur.last;
        } else {
          RightShapes(W, offset, taken, written, false, false, prevWord);
          FramedShape(cur, W);
          var send := Join(prevWord, cur, offset, NoneFrom(cur, offset));
          RightWord(W, offset, taken, written, prevWord, cur, send);
          output := [send];
          sendLast := send.last;
        }
        prevWord := cur;
        firstWord := false;
        if cur.last {
          firstWord := offset != 0;
          if !sendLast {
            remainder := true;
          }
        }
        taken := taken + [cur];
        assert input == [cur] + rest;
      }
      assert output == [] ==> written + output == written;
      written := written + output;
    }
  }

  lemma RightShapes(W: nat, k: nat, taken: seq<Word>, written: seq<Word>, first: bool, remainder: bool, prev: Word)
    requires RightInv(W, k, taken, written, first, remainder, prev)
    ensures 0 < k < W && (remainder || !first ==> |prev.data| == |prev.keep| == W) && (remainder ==> first)
  {
  }

  // ----- what the shifters do to whole streams -----

  /** The left shifter, idle between packets, has taken a and written b; an offset of 0 shifts nothing. */
  ghost predicate LeftIdle(W: nat, k: nat, a: seq<Word>, b: seq<Word>, prev: Word) {
    if k == 0 then AllFramed(a, W) && b == a && Parse(a, W).open == [] else LeftInv(W, k, a, b, true, false, prev)
  }

  ghost predicate RightIdle(W: nat, k: nat, a: seq<Word>, b: seq<Word>, prev: Word) {
    if k == 0 then AllFramed(a, W) && b == a && Parse(a, W).open == [] else RightInv(W, k, a, b, true, false, prev)
  }

  /** After each packet, and the word it may have left over, the shifters are in their initial state. */
  lemma ShiftersReturn(W: nat, k: nat, taken: seq<Word>, written: seq<Word>, first: bool, remainder: bool, prev: Word)
    requires AllFramed(taken, W) && Parse(taken, W).open == []
    ensures LeftInv(W, k, taken, written, first, remainder, prev) ==>
      && (remainder ==> |prev.data| == |prev.keep| == W)
      && LeftIdle(W, k, taken, if remainder then written + [Rest(prev, W - k)] else written, prev)
    ensures RightInv(W, k, taken, written, first, remainder, prev) ==>
      && (remainder ==> |prev.data| == |prev.keep| == W)
      && RightIdle(W, k, taken, if remainder then written + [Rest(prev, k)] else written, prev)
  {
    if LeftInv(W, k, taken, written, first, remainder, prev) {
      LeftShapes(W, k, taken, written, first, remainder, prev);
      if remainder { LeftRemainder(W, k, taken, written, first, prev); }
    }
    if RightInv(W, k, taken, written, first, remainder, prev) {
      RightShapes(W, k, taken, written, first, remainder, prev);
      if remainder { RightRemainder(W, k, taken, written, first, prev); }
    }
    hide Rest, Framed, Filled, AllFramed;
  }

  lemma {:induction false} PrefixNothing(ps: seq<seq<Byte>>)
    ensures PrefixAll(Zeros(0), ps) == ps && DropAll(ps, 0) == ps
  {
    if |ps| > 0 {
      PrefixNothing(ps[..|ps|-1]);
      assert Zeros(0) + ps[|ps|-1] == ps[|ps|-1];
      assert ps == ps[..|ps|-1] + [ps[|ps|-1]];
    }
  }

  /**
   * Between packets, and for any number of packets of any length, the left shifter
   * has written every packet taken with k filler bytes in front, and nothing else.
   */
  lemma LeftShiftsPackets(W: nat, k: nat, a: seq<Word>, b: seq<Word>, prev: Word)
    requires LeftIdle(W, k, a, b, prev)
    ensures AllFramed(a, W) && AllFramed(b, W) && (Filled(a) ==> Filled(b))
    ensures Parse(b, W) == Parsed(PrefixAll(Zeros(k), Parse(a, W).done), []) && Parse(a, W).open == []
  {
    if k == 0 { PrefixNothing(Parse(a, W).done); }
  }

  /** Between packets, the right shifter has written every packet taken without its first k bytes. */
  lemma RightShiftsPackets(W: nat, k: nat, a: seq<Word>, b: seq<Word>, prev: Word)
    requires RightIdle(W, k, a, b, prev)
    ensures AllFramed(a, W) && AllFramed(b, W)
    ensures Parse(b, W) == Parsed(DropAll(Parse(a, W).done, k), [])
    ensures k == 0 && Filled(a) ==> Filled(b)
    ensures k > 0 && Longer(Parse(a, W), k) ==> Filled(b)
  {
    if k == 0 { PrefixNothing(Parse(a, W).done); }
  }

  lemma {:induction false} PrefixedAreLonger(z: seq<Byte>, t: seq<seq<Byte>>)
    requires forall i | 0 <= i < |t| :: |t[i]| > 0
    ensures Longer(Parsed(PrefixAll(z, t), []), |z|)
  {
    if |t| > 0 {
      PrefixedAreLonger(z, t[..|t|-1]);
    }
  }

  /** The right shifter undoes the left shifter: the same words come out, up to bytes that are not valid. */
  lemma ShiftRoundTrip(W: nat, k: nat, a: seq<Word>, b: seq<Word>, c: seq<Word>, prev: Word, prev': Word)
    requires LeftInv(W, k, a, b, true, false, prev) && RightInv(W, k, b, c, true, false, prev')
    ensures Parse(c, W) == Parse(a, W)
    ensures Filled(a) ==> SameWords(a, c)
  {
    hide AllFramed, SameWords, Filled;
    DropUndoesPrefix(Zeros(k), Parse(a, W).done);
    if Filled(a) {
      FilledPackets(a, W);
      PrefixedAreLonger(Zeros(k), Parse(a, W).done);
      ParseDetermines(a, c, W);
    }
  }

  /** Why the offset is at most 32: beyond that the first word of any packet with a valid byte has a gap in its keep. */
  lemma FirstWordFramedIff(W: nat, k: nat, cur: Word)
    requires 0 < k < W && Framed(cur, W)
    ensures var held := Word(Zeros(W), Low(W - k, W - k) + Low(32, k), false);
      Framed(Join(held, cur, W - k, NoneFrom(cur, W - k)), W) <==> k <= 32 || Len(cur.keep) == 0
  {
    hide None;
    var held := Word(Zeros(W), Low(W - k, W - k) + Low(32, k), false);
    var w := Join(held, cur, W - k, NoneFrom(cur, W - k));
    if k <= 32 {
      FirstHeld(W, k, cur, NoneFrom(cur, W - k));
      FillerBytes(W, k);
      JoinBytes(Filler(W, k), cur, W, W - k);
    } else {
      NoneFromLen(cur, W, W - k);
      FirstKeep(W, k, cur, w.keep);
      if Len(cur.keep) > 0 {
        assert !w.keep[32] && w.keep[k];
        GapIsNotFramed(w, W, 32, k);
      } else {
        LowFramed(w, 32, W);
      }
    }
  }

  lemma FirstKeep(W: nat, k: nat, cur: Word, keep: seq<bool>)
    requires 32 < k < W && Framed(cur, W)
    requires keep == (Low(W - k, W - k) + Low(32, k))[W-k..] + cur.keep[..W-k]
    ensures |keep| == W && forall i | 0 <= i < W :: keep[i] <==> i < 32 || (k <= i && i - k < Len(cur.keep))
  {
    KeepIs(cur, W);
    assert (Low(W - k, W - k) + Low(32, k))[W-k..] == Low(32, k);
  }

  lemma GapIsNotFramed(w: Word, W: nat, i: nat, j: nat)
    requires i < j < |w.keep| && !w.keep[i] && w.keep[j]
    ensures !Framed(w, W)
  {
    if Framed(w, W) {
      KeepAt(w, W, i);
      KeepAt(w, W, j);
    }
  }
}
