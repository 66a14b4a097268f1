/**
 * ipv4_drop_optional_ip_header: takes what is left of the header off every packet, at
 * 64, 128, 256 and 512 bits.  Nothing checks for the end of a packet while words are
 * dropped, and nothing is dropped at all for other lengths than 5 at 256 and 512 bits.
 */
module Ipv4Drop {
  import opened Streams
  import opened Shift

  // ----- how much is dropped for a length -----

  predicate Narrow(W: nat) {
    W == 8 || W == 16
  }

  /** The bytes of n words. */
  function Words(W: nat, n: nat): nat
    requires Width(W)
  {
    if W == 8 then 8 * n else if W == 16 then 16 * n else if W == 32 then 32 * n else 64 * n
  }

  /** The bytes cut off the word at the border. */
  function Cut(W: nat): (k: nat)
    requires Width(W)
    ensures 0 < k < W
  {
    if Narrow(W) then 4 else 20
  }

  /** The rest of the packet is realigned, not only passed on. */
  predicate Shifts(length: nat, W: nat) {
    !Narrow(W) || length <= 1 || length % 2 == 1
  }

  /** The words read before anything is written. */
  function Skip(length: nat, W: nat): (n: nat)
    ensures n > 0
  {
    if !Narrow(W) || length <= 1 then 1 else length / 2
  }

  function Dropped(length: nat, W: nat): nat
    requires Width(W)
  {
    if Shifts(length, W) then Words(W, Skip(length, W) - 1) + Cut(W) else Words(W, Skip(length, W))
  }

  /** There are words left after those read first. */
  predicate LongEnough(q: seq<Byte>, length: nat, W: nat)
    requires Width(W)
  {
    Narrow(W) ==> |q| > Words(W, Skip(length, W))
  }

  function DropEach(qs: seq<seq<Byte>>, ls: seq<nat>, W: nat): (r: seq<seq<Byte>>)
    requires Width(W) && |qs| == |ls|
    ensures |r| == |qs| && forall i | 0 <= i < |qs| :: r[i] == Drop(qs[i], Dropped(ls[i], W))
  {
    seq(|qs|, i requires 0 <= i < |qs| => Drop(qs[i], Dropped(ls[i], W)))
  }

  /** The lengths that go with a packet: at 256 and 512 bits only those that are 5. */
  function Begun(ls: seq<nat>, W: nat): (r: seq<nat>)
    ensures |r| <= |ls|
  {
    if |ls| == 0 then []
    else Begun(ls[..|ls|-1], W) + (if Narrow(W) || ls[|ls|-1] == 5 then [ls[|ls|-1]] else [])
  }

  lemma BegunSnoc(ls: seq<nat>, l: nat, W: nat)
    ensures Begun(ls + [l], W) == Begun(ls, W) + (if Narrow(W) || l == 5 then [l] else [])
  {
    assert (ls + [l])[..|ls|] == ls;
  }

  /** Every length goes with a packet exactly if the width is small or all lengths are 5. */
  lemma {:induction false} BegunAllIff(ls: seq<nat>, W: nat)
    ensures Begun(ls, W) == ls <==> Narrow(W) || forall i | 0 <= i < |ls| :: ls[i] == 5
    ensures |Begun(ls, W)| == |ls| <==> Begun(ls, W) == ls
  {
    if |ls| > 0 {
      BegunAllIff(ls[..|ls|-1], W);
      assert ls == ls[..|ls|-1] + [ls[|ls|-1]];
    }
  }

  // ----- the machine -----

  datatype DropState = META | DROP | BODY | SHIFT | LAST | SHIFT_FIVE | LAST_FIVE

  datatype Reg = Reg(state: DropState, length: nat, prevWord: Word)

  datatype Moved = Moved(reg: Reg, lengthRest: seq<nat>, rest: seq<Word>, output: seq<Word>)

  predicate Shaped(w: Word, W: nat) {
    |w.data| == |w.keep| == W
  }

  predicate AllShaped(ws: seq<Word>, W: nat) {
    forall i | 0 <= i < |ws| :: Shaped(ws[i], W)
  }

  /** A joined word is the last if the next lane of the word read is not valid. */
  function SendJoined(prev: Word, cur: Word, k: nat): Word
    requires |prev.data| == |prev.keep| == |cur.data| == |cur.keep| > k
  {
    Join(prev, cur, k, !cur.keep[k])
  }

  function DropStep(W: nat, r: Reg, lengthIn: seq<nat>, input: seq<Word>): (m: Moved)
    requires Width(W) && Shaped(r.prevWord, W) && AllShaped(input, W)
    ensures Shaped(m.reg.prevWord, W)
  {
    match r.state
    case META =>
      if |lengthIn| == 0 || |input| == 0 then Moved(r, lengthIn, input, [])
      else
        var l := lengthIn[0];
        if Narrow(W) then
          if l > 1 then Moved(r.(state := DROP, length := l), lengthIn[1..], input, [])
          else Moved(Reg(SHIFT, l, input[0]), lengthIn[1..], input[1..], [])
        else if l == 5 then
          Moved(Reg(if input[0].last then LAST_FIVE else SHIFT_FIVE, l, input[0]), lengthIn[1..], input[1..], [])
        else Moved(r.(length := l), lengthIn[1..], input, [])
    case DROP =>
      if |input| == 0 then Moved(r, lengthIn, input, [])
      else
        var l := (r.length - 2) % 16;
        Moved(Reg(if l == 1 then SHIFT else if l == 0 then BODY else DROP, l, input[0]), lengthIn, input[1..], [])
    case BODY =>
      if |input| == 0 then Moved(r, lengthIn, input, [])
      else Moved(r.(state := if input[0].last then META else BODY), lengthIn, input[1..], [input[0]])
    case SHIFT => ShiftStep(W, r, lengthIn, input, 4, LAST)
    case SHIFT_FIVE => if Narrow(W) then Moved(r, lengthIn, input, []) else ShiftStep(W, r, lengthIn, input, 20, LAST_FIVE)
    case LAST => Moved(r.(state := META), lengthIn, input, [Rest(r.prevWord, 4)])
    case LAST_FIVE => if Narrow(W) then Moved(r, lengthIn, input, []) else Moved(r.(state := META), lengthIn, input, [Rest(r.prevWord, 20)])
  }

  function ShiftStep(W: nat, r: Reg, lengthIn: seq<nat>, input: seq<Word>, k: nat, lastState: DropState): (m: Moved)
    requires k < W && Shaped(r.prevWord, W) && AllShaped(input, W)
    ensures Shaped(m.reg.prevWord, W)
  {
    if |input| == 0 then Moved(r, lengthIn, input, [])
    else
      var send := SendJoined(r.prevWord, input[0], k);
      Moved(Reg(if send.last then META else if input[0].last then lastState else r.state, r.length, input[0]), lengthIn, input[1..], [send])
  }

  // ----- the packets -----

  /** Some packet ended before the words read first did. */
  ghost predicate ShortOne(W: nat, qs: seq<seq<Byte>>, ls: seq<nat>)
    requires Width(W)
  {
    exists i :: 0 <= i < |qs| && i < |ls| && !LongEnough(qs[i], ls[i], W)
  }

  ghost predicate AllLonger(W: nat, qs: seq<seq<Byte>>, ls: seq<nat>)
    requires Width(W)
  {
    forall i | 0 <= i < |qs| && i < |ls| :: |qs[i]| > Dropped(ls[i], W)
  }

  /** What has been written of an unfinished packet, in each state. */
  ghost predicate OpenRel(W: nat, open: seq<Byte>, out: seq<Byte>, l: nat, r: Reg)
    requires Width(W)
  {
    match r.state
    case META => false
    case LAST => false
    case LAST_FIVE => false
    case DROP =>
      && Narrow(W) && out == [] && 2 <= r.length <= l < 16 && (l - r.length) % 2 == 0
      && |open| == Words(W, (l - r.length) / 2)
    case BODY => !Shifts(l, W) && |open| >= Dropped(l, W) && |open| >= Words(W, Skip(l, W)) && out == open[Dropped(l, W)..]
    case _ =>
      && (r.state == SHIFT <==> Narrow(W)) && Shifts(l, W)
      && |open| >= Words(W, Skip(l, W)) && Dropped(l, W) <= |open|
      && Framed(r.prevWord, W) && Len(r.prevWord.keep) == W
      && out + Bytes(r.prevWord)[Cut(W)..] == open[Dropped(l, W)..]
  }

  /** The packets written (o) for those taken (t), one length (ls) each. */
  ghost predicate DropRel(W: nat, t: Parsed, ls: seq<nat>, o: Parsed, r: Reg)
    requires Width(W)
  {
    var n := |t.done|;
    if r.state == META then |ls| == n && t.open == [] && o == Parsed(DropEach(t.done, ls, W), [])
    else if r.state == LAST || r.state == LAST_FIVE then
      && |ls| == n > 0 && t.open == [] && (r.state == LAST <==> Narrow(W))
      && o.done == DropEach(t.done[..n-1], ls[..n-1], W)
      && Framed(r.prevWord, W) && Shifts(ls[n-1], W)
      && o.open + Drop(Bytes(r.prevWord), Cut(W)) == Drop(t.done[n-1], Dropped(ls[n-1], W))
      && (|t.done[n-1]| > Dropped(ls[n-1], W) ==> Len(r.prevWord.keep) > Cut(W))
    else
      && |ls| == n + 1 && o.done == DropEach(t.done, ls[..n], W)
      && OpenRel(W, t.open, o.open, ls[n], r)
  }

  lemma DropEachSnoc(qs: seq<seq<Byte>>, ls: seq<nat>, q: seq<Byte>, l: nat, W: nat)
    requires Width(W) && |qs| == |ls|
    ensures DropEach(qs + [q], ls + [l], W) == DropEach(qs, ls, W) + [Drop(q, Dropped(l, W))]
  {
  }

  // ----- one word of an open packet -----

  lemma DropWord(W: nat, open: seq<Byte>, out: seq<Byte>, l: nat, r: Reg, cur: Word)
    requires Width(W) && Shaped(cur, W) && OpenRel(W, open, out, l, r) && r.state == DROP
    requires Framed(cur, W) && !cur.last
    ensures var l' := (r.length - 2) % 16;
      out == [] && OpenRel(W, open + Bytes(cur), out, l, Reg(if l' == 1 then SHIFT else if l' == 0 then BODY else DROP, l', cur))
  {
    FramedShape(cur, W);
    DropCounts(W, l, r.length);
    var l', p := (r.length - 2) % 16, open + Bytes(cur);
    hide Framed, Bytes, Skip, Dropped, Shifts, Words, Cut;
    if l' == 0 {
      assert p[Dropped(l, W)..] == [];
    } else if l' == 1 {
      assert p[Dropped(l, W)..] == Bytes(cur)[Cut(W)..];
    }
  }

  /** The counter of the bytes still to be dropped, two units to a word. */
  lemma DropCounts(W: nat, l: nat, left: nat)
    requires Narrow(W) && Width(W) && 2 <= left <= l < 16 && (l - left) % 2 == 0
    ensures var left' := (left - 2) % 16; var before, after := Words(W, (l - left) / 2), Words(W, (l - left') / 2);
      && left' == left - 2 && after == before + W
      && (left' >= 2 ==> (l - left') % 2 == 0)
      && (left' == 0 ==> !Shifts(l, W) && after == Words(W, Skip(l, W)) == Dropped(l, W))
      && (left' == 1 ==> Shifts(l, W) && after == Words(W, Skip(l, W)) && Dropped(l, W) == before + Cut(W) && Cut(W) < W)
  {
    assert (l - (left - 2)) / 2 == (l - left) / 2 + 1;
  }

  lemma DropEnds(W: nat, open: seq<Byte>, out: seq<Byte>, l: nat, r: Reg, cur: Word)
    requires Width(W) && |cur.data| == |cur.keep| == W && OpenRel(W, open, out, l, r) && r.state == DROP
    ensures !LongEnough(open + Bytes(cur), l, W)
  {
    assert (l - r.length) / 2 + 1 <= Skip(l, W);
  }

  lemma BodyWord(W: nat, open: seq<Byte>, out: seq<Byte>, l: nat, r: Reg, cur: Word)
    requires Width(W) && |cur.data| == |cur.keep| == W && OpenRel(W, open, out, l, r) && r.state == BODY
    ensures out + Bytes(cur) == Drop(open + Bytes(cur), Dropped(l, W))
    ensures OpenRel(W, open + Bytes(cur), out + Bytes(cur), l, r)
  {
    hide Bytes, Words, Skip;
    var d := Dropped(l, W);
    hide Dropped, Shifts;
    assert (open + Bytes(cur))[d..] == open[d..] + Bytes(cur);
  }

  lemma ShiftWord(W: nat, open: seq<Byte>, out: seq<Byte>, l: nat, r: Reg, cur: Word)
    requires Width(W) && Framed(cur, W) && OpenRel(W, open, out, l, r) && (r.state == SHIFT || r.state == SHIFT_FIVE)
    ensures |r.prevWord.data| == |r.prevWord.keep| == |cur.data| == |cur.keep| == W
    ensures var send := SendJoined(r.prevWord, cur, Cut(W));
      && var p, d := open + Bytes(cur), Dropped(l, W);
      && Framed(send, W) && |send.data| == |send.keep| && Len(send.keep) > 0 && d <= |open|
      && (send.last ==> cur.last && out + Bytes(send) == Drop(p, d))
      && (!send.last ==> out + Bytes(send) + Bytes(cur)[Cut(W)..] == p[d..] && Len(cur.keep) > Cut(W))
  {
    var k, d, p := Cut(W), Dropped(l, W), open + Bytes(cur);
    FramedShape(cur, W);
    FramedShape(r.prevWord, W);
    KeepBit(cur, W, k);
    hide Framed, Words, Dropped, Cut, NoneFrom, Join, Shifts, Skip, Len;
    JoinBytes(r.prevWord, cur, W, k);
    LeftBytes([], open[d..], out, Bytes(r.prevWord), Bytes(cur), Bytes(SendJoined(r.prevWord, cur, k)), k);
    assert p[d..] == [] + (open[d..] + Bytes(cur));
    DropIs(p, d);
  }

  lemma DropIs(p: seq<Byte>, d: nat)
    requires d <= |p|
    ensures Drop(p, d) == p[d..]
  {
  }

  lemma KeepBit(cur: Word, W: nat, k: nat)
    requires Framed(cur, W) && k < W
    ensures |cur.keep| == W && (NoneFrom(cur, k) <==> !cur.keep[k])
  {
    NoneFromLen(cur, W, k);
    KeepAt(cur, W, k);
  }

  /** The first word of a packet that is realigned from its first word on. */
  lemma FirstHeldBack(W: nat, l: nat, cur: Word, r: Reg)
    requires Width(W) && Framed(cur, W) && !cur.last && Skip(l, W) == 1 && Shifts(l, W)
    requires r.prevWord == cur && r.state == if Narrow(W) then SHIFT else SHIFT_FIVE
    ensures Shaped(cur, W) && OpenRel(W, Bytes(cur), [], l, r)
  {
    FramedShape(cur, W);
    hide Framed;
    assert [] + Bytes(cur)[Cut(W)..] == Bytes(cur)[Dropped(l, W)..];
  }

  // ----- one step -----

  /** What a step adds to the history of lengths, of words taken and of words written. */
  datatype Added = Added(lengths: seq<nat>, taken: seq<Word>)

  function AddedBy(W: nat, r: Reg, lengthIn: seq<nat>, input: seq<Word>): Added {
    if r.state == META then
      if |lengthIn| == 0 || |input| == 0 then Added([], [])
      else Added([lengthIn[0]], if (Narrow(W) && lengthIn[0] > 1) || (!Narrow(W) && lengthIn[0] != 5) then [] else [input[0]])
    else if r.state == LAST || r.state == LAST_FIVE || |input| == 0 then Added([], [])
    else Added([], [input[0]])
  }

  lemma MetaLength(W: nat, t: Parsed, ls: seq<nat>, o: Parsed, r: Reg, l: nat)
    requires Width(W) && DropRel(W, t, ls, o, r) && r.state == META && Narrow(W) && 1 < l < 16
    ensures DropRel(W, t, ls + [l], o, r.(state := DROP, length := l))
  {
    assert (ls + [l])[..|t.done|] == ls;
  }

  lemma MetaWord(W: nat, t: Parsed, ls: seq<nat>, o: Parsed, r: Reg, l: nat, cur: Word, r': Reg)
    requires Width(W) && DropRel(W, t, ls, o, r) && r.state == META && Framed(cur, W) && |cur.data| == |cur.keep|
    requires if Narrow(W) then l <= 1 && r' == Reg(SHIFT, l, cur)
             else l == 5 && r' == Reg(if cur.last then LAST_FIVE else SHIFT_FIVE, l, cur)
    ensures if Narrow(W) && cur.last then ShortOne(W, Next(t, cur).done, ls + [l]) else DropRel(W, Next(t, cur), ls + [l], o, r')
  {
    hide Framed, OpenRel, DropEach, Bytes;
    var n, b := |t.done|, Bytes(cur);
    FramedShape(cur, W);
    assert (ls + [l])[..n] == ls && t.open + b == b;
    if !cur.last {
      FirstHeldBack(W, l, cur, r');
    } else if Narrow(W) {
      assert !LongEnough((t.done + [b])[n], (ls + [l])[n], W);
    } else {
      OnlyWord(W, b, l);
      assert (t.done + [b])[..n] == t.done;
    }
  }

  lemma OnlyWord(W: nat, b: seq<Byte>, l: nat)
    requires Width(W) && !Narrow(W)
    ensures Shifts(l, W) && Dropped(l, W) == Cut(W) && [] + Drop(b, Cut(W)) == Drop(b, Dropped(l, W))
  {
  }

  lemma StepDrop(W: nat, t: Parsed, ls: seq<nat>, o: Parsed, r: Reg, cur: Word, r': Reg)
    requires Width(W) && DropRel(W, t, ls, o, r) && r.state == DROP && Framed(cur, W) && |cur.data| == |cur.keep| == W
    requires var l' := (r.length - 2) % 16; r' == Reg(if l' == 1 then SHIFT else if l' == 0 then BODY else DROP, l', cur)
    ensures if cur.last then ShortOne(W, Next(t, cur).done, ls) else DropRel(W, Next(t, cur), ls, o, r')
  {
    hide Framed, OpenRel, DropEach;
    var n := |t.done|;
    if cur.last {
      DropEnds(W, t.open, o.open, ls[n], r, cur);
      assert !LongEnough(Next(t, cur).done[n], ls[n], W);
    } else {
      DropWord(W, t.open, o.open, ls[n], r, cur);
    }
  }

  /** Past the words read first, any further byte makes the packet long enough. */
  lemma LongNow(W: nat, open: seq<Byte>, out: seq<Byte>, l: nat, r: Reg, cur: Word)
    requires Width(W) && OpenRel(W, open, out, l, r) && |cur.data| == |cur.keep|
    requires r.state == BODY || r.state == SHIFT || r.state == SHIFT_FIVE
    ensures Len(cur.keep) > 0 ==> LongEnough(open + Bytes(cur), l, W)
  {
    hide Words, Skip, Dropped, Framed, Shifts;
  }

  lemma StepBody(W: nat, t: Parsed, ls: seq<nat>, o: Parsed, r: Reg, cur: Word)
    requires Width(W) && DropRel(W, t, ls, o, r) && r.state == BODY && Framed(cur, W) && |cur.data| == |cur.keep| == W
    ensures DropRel(W, Next(t, cur), ls, Next(o, cur), r.(state := if cur.last then META else BODY))
    ensures Len(cur.keep) > 0 ==> LongEnough(t.open + Bytes(cur), ls[|t.done|], W)
  {
    LongNow(W, t.open, o.open, ls[|t.done|], r, cur);
    hide Framed, OpenRel, DropEach;
    var n := |t.done|;
    BodyWord(W, t.open, o.open, ls[n], r, cur);
    assert OpenRel(W, t.open + Bytes(cur), o.open + Bytes(cur), ls[n], r);
    if cur.last {
      DropEachSnoc(t.done, ls[..n], t.open + Bytes(cur), ls[n], W);
      assert ls == ls[..n] + [ls[n]];
    }
  }

  lemma StepShift(W: nat, t: Parsed, ls: seq<nat>, o: Parsed, r: Reg, cur: Word, send: Word, r': Reg)
    requires Width(W) && DropRel(W, t, ls, o, r) && (r.state == SHIFT || r.state == SHIFT_FIVE)
    requires Framed(cur, W) && |cur.data| == |cur.keep| == W && Shaped(r.prevWord, W)
    requires send == SendJoined(r.prevWord, cur, Cut(W))
    requires r' == Reg(if send.last then META else if cur.last then (if Narrow(W) then LAST else LAST_FIVE) else r.state, r.length, cur)
    ensures Framed(send, W) && |send.data| == |send.keep| && Len(send.keep) > 0
    ensures DropRel(W, Next(t, cur), ls, Next(o, send), r')
    ensures Len(cur.keep) > 0 ==> LongEnough(t.open + Bytes(cur), ls[|t.done|], W)
  {
    LongNow(W, t.open, o.open, ls[|t.done|], r, cur);
    var n, p := |t.done|, t.open + Bytes(cur);
    FramedShape(cur, W);
    ShiftKeeps(W, t.open, o.open, ls[n], r, cur, send);
    hide Framed, OpenRel, DropEach, Dropped, Shifts, SendJoined;
    assert ls == ls[..n] + [ls[n]];
    if send.last {
      DropEachSnoc(t.done, ls[..n], p, ls[n], W);
    } else if cur.last {
      assert (t.done + [p])[..n] == t.done;
    }
  }

  /** The word read, seen from the next state. */
  lemma ShiftKeeps(W: nat, open: seq<Byte>, out: seq<Byte>, l: nat, r: Reg, cur: Word, send: Word)
    requires Width(W) && Framed(cur, W) && OpenRel(W, open, out, l, r) && (r.state == SHIFT || r.state == SHIFT_FIVE)
    requires |cur.data| == |cur.keep| == W && Shaped(r.prevWord, W) && send == SendJoined(r.prevWord, cur, Cut(W))
    ensures Shifts(l, W) && (r.state == SHIFT <==> Narrow(W))
    ensures Framed(send, W) && |send.data| == |send.keep| && Len(send.keep) > 0 && Dropped(l, W) <= |open|
    ensures var p := open + Bytes(cur);
      && (send.last ==> cur.last && out + Bytes(send) == Drop(p, Dropped(l, W)))
      && (!send.last ==> out + Bytes(send) + Drop(Bytes(cur), Cut(W)) == Drop(p, Dropped(l, W)) && Len(cur.keep) > Cut(W))
      && (!send.last && !cur.last ==> OpenRel(W, p, out + Bytes(send), l, Reg(r.state, r.length, cur)))
  {
    ShiftWord(W, open, out, l, r, cur);
    FramedShape(cur, W);
    hide Framed, SendJoined, Dropped, Shifts, Skip, Words, Cut;
    if !send.last {
      DropIs(Bytes(cur), Cut(W));
      DropIs(open + Bytes(cur), Dropped(l, W));
    }
  }

  lemma StepLast(W: nat, t: Parsed, ls: seq<nat>, o: Parsed, r: Reg)
    requires Width(W) && DropRel(W, t, ls, o, r) && (r.state == LAST || r.state == LAST_FIVE) && Shaped(r.prevWord, W)
    ensures var send := Rest(r.prevWord, Cut(W));
      && Framed(send, W) && |send.data| == |send.keep| && (AllLonger(W, t.done, ls) ==> Len(send.keep) > 0)
      && DropRel(W, t, ls, Next(o, send), r.(state := META))
  {
    RestBytes(r.prevWord, W, Cut(W));
    hide Framed, DropEach, Dropped, Shifts, Rest, Drop, Len, Bytes, Cut;
    var n := |t.done|;
    DropEachSnoc(t.done[..n-1], ls[..n-1], t.done[n-1], ls[n-1], W);
    assert t.done == t.done[..n-1] + [t.done[n-1]] && ls == ls[..n-1] + [ls[n-1]];
  }

  // ----- the histories -----

  lemma ShortStays(W: nat, qs: seq<seq<Byte>>, ls: seq<nat>, more: seq<seq<Byte>>, ls': seq<nat>)
    requires Width(W)
    ensures ShortOne(W, qs, ls) ==> ShortOne(W, qs + more, ls + ls')
    ensures AllLonger(W, qs + more, ls + ls') ==> AllLonger(W, qs, ls)
  {
    if ShortOne(W, qs, ls) {
      var i :| 0 <= i < |qs| && i < |ls| && !LongEnough(qs[i], ls[i], W);
      assert !LongEnough((qs + more)[i], (ls + ls')[i], W);
    }
    if AllLonger(W, qs + more, ls + ls') {
      forall i | 0 <= i < |qs| && i < |ls| ensures |qs[i]| > Dropped(ls[i], W) {
        assert |(qs + more)[i]| > Dropped((ls + ls')[i], W);
      }
    }
  }

  /** The part of the invariant that holds until some packet is too short. */
  ghost predicate Sound(W: nat, ls: seq<nat>, taken: seq<Word>, written: seq<Word>, r: Reg)
    requires Width(W) && AllFramed(taken, W)
  {
    && AllFramed(written, W) && (Filled(taken) && AllLonger(W, Parse(taken, W).done, ls) ==> Filled(written))
    && (Filled(taken) ==> !ShortOne(W, Parse(taken, W).done, ls))
    && DropRel(W, Parse(taken, W), ls, Parse(written, W), r)
  }

  lemma EnoughLengths(W: nat, t: Parsed, ls: seq<nat>, o: Parsed, r: Reg)
    requires Width(W) && DropRel(W, t, ls, o, r)
    ensures |t.done| <= |ls|
  {
    hide OpenRel;
  }

  /** A packet that is long enough does not make the first short one. */
  lemma NoneShort(W: nat, qs: seq<seq<Byte>>, ls: seq<nat>, more: seq<seq<Byte>>, ls': seq<nat>)
    requires Width(W) && |qs| <= |ls| && |more| <= 1 && !ShortOne(W, qs, ls)
    requires |more| == 1 && |qs| < |ls + ls'| ==> LongEnough(more[0], (ls + ls')[|qs|], W)
    ensures !ShortOne(W, qs + more, ls + ls')
  {
    hide LongEnough;
    forall i | 0 <= i < |qs + more| && i < |ls + ls'| ensures LongEnough((qs + more)[i], (ls + ls')[i], W) {
      if i < |qs| { assert LongEnough(qs[i], ls[i], W); }
    }
  }

  lemma SoundLength(W: nat, ls: seq<nat>, taken: seq<Word>, written: seq<Word>, r: Reg, more: seq<nat>, r': Reg)
    requires Width(W) && AllFramed(taken, W) && Sound(W, ls, taken, written, r)
    requires DropRel(W, Parse(taken, W), ls + more, Parse(written, W), r')
    ensures Sound(W, ls + more, taken, written, r')
  {
    EnoughLengths(W, Parse(taken, W), ls, Parse(written, W), r);
    hide DropRel, Filled, AllFramed, ShortOne;
    ShortStays(W, Parse(taken, W).done, ls, [], more);
    if Filled(taken) { NoneShort(W, Parse(taken, W).done, ls, [], more); }
    assert Parse(taken, W).done + [] == Parse(taken, W).done;
  }

  lemma TakenMore(taken: seq<Word>, cur: Word, W: nat)
    requires AllFramed(taken, W) && Framed(cur, W)
    ensures AllFramed(taken + [cur], W) && |cur.data| == |cur.keep| == W
    ensures Parse(taken + [cur], W) == Next(Parse(taken, W), cur)
    ensures Filled(taken + [cur]) ==> Filled(taken) && Len(cur.keep) > 0
    ensures Parse(taken + [cur], W).done == Parse(taken, W).done + NewPacket(Parse(taken, W), cur)
  {
    ParseSnoc(taken, cur, W);
  }

  /** The packet that a word completes. */
  function NewPacket(t: Parsed, cur: Word): seq<seq<Byte>>
    requires |cur.data| == |cur.keep|
  {
    if cur.last then [t.open + Bytes(cur)] else []
  }

  lemma SoundWord(W: nat, ls: seq<nat>, taken: seq<Word>, written: seq<Word>, r: Reg, more: seq<nat>, cur: Word, output: seq<Word>, r': Reg)
    requires Width(W) && AllFramed(taken, W) && Sound(W, ls, taken, written, r) && Framed(cur, W) && |cur.data| == |cur.keep|
    requires |output| <= 1 && forall i | 0 <= i < |output| :: Framed(output[i], W) && |output[i].data| == |output[i].keep|
    requires |output| == 1 && Len(cur.keep) > 0 ==> Len(output[0].keep) > 0
    requires DropRel(W, Next(Parse(taken, W), cur), ls + more, NextAll(Parse(written, W), output), r')
    requires var t := Parse(taken, W);
      cur.last && Len(cur.keep) > 0 && |t.done| < |ls + more| ==> LongEnough(t.open + Bytes(cur), (ls + more)[|t.done|], W)
    ensures AllFramed(taken + [cur], W) && Sound(W, ls + more, taken + [cur], written + output, r')
  {
    EnoughLengths(W, Parse(taken, W), ls, Parse(written, W), r);
    hide DropRel, Filled, AllFramed, Next, Framed, AllLonger, ShortOne, LongEnough;
    TakenMore(taken, cur, W);
    var more' := NewPacket(Parse(taken, W), cur);
    ShortStays(W, Parse(taken, W).done, ls, more', more);
    if Filled(taken + [cur]) { NoneShort(W, Parse(taken, W).done, ls, more', more); }
    if |output| == 1 {
      ParseSnoc(written, output[0], W);
      assert output == [output[0]];
    } else {
      assert written + output == written;
    }
  }

  /** A word read before anything is written ends its packet. */
  predicate EndsEarly(W: nat, r: Reg, a: Added) {
    ((r.state == META && Narrow(W)) || r.state == DROP) && |a.taken| == 1 && a.taken[0].last
  }

  /** The number of packets that end in ws. */
  function Lasts(ws: seq<Word>): nat {
    if |ws| == 0 then 0 else Lasts(ws[..|ws|-1]) + (if ws[|ws|-1].last then 1 else 0)
  }

  lemma LastsMore(ws: seq<Word>, more: seq<Word>)
    requires |more| <= 1
    ensures Lasts(ws + more) == Lasts(ws) + (if |more| == 1 && more[0].last then 1 else 0)
  {
    if |more| == 1 {
      assert (ws + more)[..|ws|] == ws;
    } else {
      assert ws + more == ws;
    }
  }

  lemma {:induction false} LastsAreDone(ws: seq<Word>, W: nat)
    requires AllFramed(ws, W)
    ensures Lasts(ws) == |Parse(ws, W).done|
  {
    if |ws| > 0 { LastsAreDone(ws[..|ws|-1], W); }
  }

  /** Lengths read whose packet has not been written to its end. */
  function Unwritten(r: Reg): nat {
    if r.state == META then 0 else 1
  }

  /** Lengths read whose packet has not been taken to its end. */
  function Untaken(r: Reg): nat {
    if r.state == META || r.state == LAST || r.state == LAST_FIVE then 0 else 1
  }

  /** Which states and words can be in the registers, whatever the input. */
  ghost predicate Regular(W: nat, r: Reg) {
    && Shaped(r.prevWord, W)
    && (r.state == SHIFT || r.state == LAST || r.state == DROP || r.state == BODY ==> Narrow(W))
    && (r.state == SHIFT_FIVE || r.state == LAST_FIVE ==> !Narrow(W))
  }

  /**
   * One packet is written to its end for every length read.  As long as as many packets
   * have been taken, each comes out without what is dropped; there are more exactly if
   * some packet has ended within the words read first.
   */
  ghost predicate DropInv(W: nat, lengths: seq<nat>, taken: seq<Word>, written: seq<Word>, r: Reg) {
    && Width(W) && AllFramed(taken, W) && Regular(W, r)
    && var ls := Begun(lengths, W);
    && Lasts(written) + Unwritten(r) == |ls| <= Lasts(taken) + Untaken(r)
    && if Lasts(taken) + Untaken(r) == |ls| then Sound(W, ls, taken, written, r)
       else ShortOne(W, Parse(taken, W).done, ls)
  }

  lemma FramedAreShaped(input: seq<Word>, W: nat)
    requires AllFramed(input, W)
    ensures AllShaped(input, W)
  {
    forall i | 0 <= i < |input| ensures Shaped(input[i], W) { FramedShape(input[i], W); }
  }

  lemma StepRegular(W: nat, r: Reg, lengthIn: seq<nat>, input: seq<Word>)
    requires Width(W) && Regular(W, r) && AllShaped(input, W)
    ensures Regular(W, DropStep(W, r, lengthIn, input).reg)
  {
    hide SendJoined, Rest, Shaped, AllShaped;
  }

  lemma StepFlow(W: nat, r: Reg, lengthIn: seq<nat>, input: seq<Word>)
    requires Width(W) && Regular(W, r) && AllShaped(input, W)
    ensures var m, a := DropStep(W, r, lengthIn, input), AddedBy(W, r, lengthIn, input);
      && lengthIn == a.lengths + m.lengthRest && input == a.taken + m.rest
      && |a.taken| <= 1 && (|a.taken| == 1 ==> |input| > 0 && a.taken[0] == input[0])
  {
    hide SendJoined, Rest, Shaped, Framed;
    var m, a := DropStep(W, r, lengthIn, input), AddedBy(W, r, lengthIn, input);
    assert m.lengthRest == (if |a.lengths| == 0 then lengthIn else lengthIn[1..]);
    assert m.rest == (if |a.taken| == 0 then input else input[1..]);
    assert |a.lengths| <= 1 && (|a.lengths| == 1 ==> |lengthIn| > 0 && a.lengths == [lengthIn[0]]);
    assert |a.taken| <= 1 && (|a.taken| == 1 ==> |input| > 0 && a.taken == [input[0]]);
    hide DropStep, AddedBy, AllShaped, Regular;
    Split(lengthIn);
    Split(input);
  }

  lemma Split<T>(s: seq<T>)
    ensures s == [] + s && (|s| > 0 ==> s == [s[0]] + s[1..])
  {
  }

  lemma SoundMeta(W: nat, ls: seq<nat>, taken: seq<Word>, written: seq<Word>, r: Reg, lengthIn: seq<nat>, input: seq<Word>)
    requires Width(W) && AllFramed(taken, W) && Sound(W, ls, taken, written, r) && Regular(W, r) && r.state == META
    requires AllFramed(input, W) && AllShaped(input, W) && |input| > 0 && |lengthIn| > 0 && lengthIn[0] < 16
    ensures var m, a := DropStep(W, r, lengthIn, input), AddedBy(W, r, lengthIn, input);
      var ls' := ls + (if Narrow(W) || lengthIn[0] == 5 then [lengthIn[0]] else []);
      && m.output == [] && AllFramed(taken + a.taken, W)
      && if EndsEarly(W, r, a) then ShortOne(W, Parse(taken + a.taken, W).done, ls') else Sound(W, ls', taken + a.taken, written, m.reg)
  {
    var m, l, cur := DropStep(W, r, lengthIn, input), lengthIn[0], input[0];
    var t, o := Parse(taken, W), Parse(written, W);
    assert taken + [] == taken && ls + [] == ls && written + [] == written;
    FirstFramed(input, W);
    hide DropRel, ShortOne, Framed, AllFramed, Filled;
    if Narrow(W) && l > 1 {
      MetaLength(W, t, ls, o, r, l);
      SoundLength(W, ls, taken, written, r, [l], m.reg);
    } else if Narrow(W) || l == 5 {
      MetaWord(W, t, ls, o, r, l, cur, m.reg);
      TakenMore(taken, cur, W);
      if !Narrow(W) || !cur.last {
        SoundWord(W, ls, taken, written, r, [l], cur, [], m.reg);
      }
    } else {
      StaysMeta(W, t, ls, o, r, l);
      SoundLength(W, ls, taken, written, r, [], m.reg);
    }
  }

  lemma StaysMeta(W: nat, t: Parsed, ls: seq<nat>, o: Parsed, r: Reg, l: nat)
    requires Width(W) && DropRel(W, t, ls, o, r) && r.state == META
    ensures DropRel(W, t, ls, o, r.(length := l))
  {
  }

  /** Any word of an open packet, given what becomes of the relation. */
  lemma SoundOrShort(W: nat, ls: seq<nat>, taken: seq<Word>, written: seq<Word>, r: Reg, cur: Word, output: seq<Word>, r': Reg, early: bool)
    requires Width(W) && AllFramed(taken, W) && Sound(W, ls, taken, written, r) && Framed(cur, W) && |cur.data| == |cur.keep|
    requires |output| <= 1 && forall i | 0 <= i < |output| :: Framed(output[i], W) && |output[i].data| == |output[i].keep|
    requires |output| == 1 && Len(cur.keep) > 0 ==> Len(output[0].keep) > 0
    requires var t := Next(Parse(taken, W), cur);
      if early then ShortOne(W, t.done, ls) else DropRel(W, t, ls, NextAll(Parse(written, W), output), r')
    requires var t := Parse(taken, W);
      !early && cur.last && Len(cur.keep) > 0 && |t.done| < |ls| ==> LongEnough(t.open + Bytes(cur), ls[|t.done|], W)
    ensures AllFramed(taken + [cur], W)
    ensures if early then ShortOne(W, Parse(taken + [cur], W).done, ls) else Sound(W, ls, taken + [cur], written + output, r')
  {
    hide DropRel, ShortOne, Framed, AllFramed, Filled, Next, NextAll, Sound;
    assert ls + [] == ls;
    TakenMore(taken, cur, W);
    if !early {
      SoundWord(W, ls, taken, written, r, [], cur, output, r');
    }
  }

  lemma SoundWords(W: nat, ls: seq<nat>, taken: seq<Word>, written: seq<Word>, r: Reg, lengthIn: seq<nat>, input: seq<Word>)
    requires Width(W) && AllFramed(taken, W) && Sound(W, ls, taken, written, r) && Regular(W, r)
    requires r.state == DROP || r.state == BODY || r.state == SHIFT || r.state == SHIFT_FIVE
    requires AllFramed(input, W) && AllShaped(input, W) && |input| > 0
    ensures var m := DropStep(W, r, lengthIn, input);
      && AllFramed(taken + [input[0]], W)
      && if r.state == DROP && input[0].last then ShortOne(W, Parse(taken + [input[0]], W).done, ls)
         else Sound(W, ls, taken + [input[0]], written + m.output, m.reg)
  {
    var m, cur := DropStep(W, r, lengthIn, input), input[0];
    var t, o := Parse(taken, W), Parse(written, W);
    FirstFramed(input, W);
    assert DropRel(W, t, ls, o, r) && Shaped(cur, W);
    hide DropRel, ShortOne, Framed, AllFramed, AllShaped, Filled, SendJoined, Sound, Next, NextAll, Parse, DropStep, LongEnough;
    WordMoves(W, r, lengthIn, input);
    NextOf(o, m.output);
    if r.state == DROP {
      StepDrop(W, t, ls, o, r, cur, m.reg);
    } else if r.state == BODY {
      StepBody(W, t, ls, o, r, cur);
    } else {
      StepShift(W, t, ls, o, r, cur, SendJoined(r.prevWord, cur, Cut(W)), m.reg);
    }
    SoundOrShort(W, ls, taken, written, r, cur, m.output, m.reg, r.state == DROP && cur.last);
  }

  lemma NextOf(o: Parsed, output: seq<Word>)
    requires |output| <= 1 && forall i | 0 <= i < |output| :: |output[i].data| == |output[i].keep|
    ensures NextAll(o, output) == if |output| == 0 then o else Next(o, output[0])
  {
  }

  /** What the states that read words do with one. */
  lemma WordMoves(W: nat, r: Reg, lengthIn: seq<nat>, input: seq<Word>)
    requires Width(W) && Regular(W, r) && AllShaped(input, W) && |input| > 0
    ensures var m, cur, l' := DropStep(W, r, lengthIn, input), input[0], (r.length - 2) % 16;
      && (r.state == DROP ==> m.output == [] && m.reg == Reg(if l' == 1 then SHIFT else if l' == 0 then BODY else DROP, l', cur))
      && (r.state == BODY ==> m.output == [cur] && m.reg == r.(state := if cur.last then META else BODY))
      && (r.state == SHIFT || r.state == SHIFT_FIVE ==>
            var send := SendJoined(r.prevWord, cur, Cut(W));
            && m.output == [send] && |send.data| == |send.keep|
            && m.reg == Reg(if send.last then META else if cur.last then (if Narrow(W) then LAST else LAST_FIVE) else r.state, r.length, cur))
  {
    hide Rest;
  }

  lemma SoundLast(W: nat, ls: seq<nat>, taken: seq<Word>, written: seq<Word>, r: Reg)
    requires Width(W) && AllFramed(taken, W) && Sound(W, ls, taken, written, r) && Regular(W, r)
    requires r.state == LAST || r.state == LAST_FIVE
    ensures Sound(W, ls, taken, written + [Rest(r.prevWord, Cut(W))], r.(state := META))
  {
    hide DropRel, Framed, AllFramed, Filled, Rest, AllLonger;
    StepLast(W, Parse(taken, W), ls, Parse(written, W), r);
    ParseSnoc(written, Rest(r.prevWord, Cut(W)), W);
  }

  lemma ShortPersists(W: nat, ls: seq<nat>, taken: seq<Word>, input: seq<Word>, more: seq<nat>, now: seq<Word>)
    requires Width(W) && AllFramed(taken, W) && ShortOne(W, Parse(taken, W).done, ls)
    requires AllFramed(input, W) && |now| <= 1 && (|now| == 1 ==> |input| > 0 && now[0] == input[0])
    ensures AllFramed(taken + now, W) && ShortOne(W, Parse(taken + now, W).done, ls + more)
  {
    hide ShortOne, Framed, Filled;
    if |now| == 1 {
      TakenMore(taken, input[0], W);
      ShortStays(W, Parse(taken, W).done, ls, NewPacket(Parse(taken, W), input[0]), more);
      assert now == [input[0]];
    } else {
      ShortStays(W, Parse(taken, W).done, ls, [], more);
      assert taken + now == taken && Parse(taken, W).done + [] == Parse(taken, W).done;
    }
  }

  /** The length read, if it goes with a packet. */
  function NewLength(W: nat, a: Added): seq<nat> {
    if |a.lengths| == 1 && (Narrow(W) || a.lengths[0] == 5) then a.lengths else []
  }

  lemma SoundStep(W: nat, ls: seq<nat>, taken: seq<Word>, written: seq<Word>, r: Reg, lengthIn: seq<nat>, input: seq<Word>)
    requires Width(W) && AllFramed(taken, W) && Sound(W, ls, taken, written, r) && Regular(W, r)
    requires AllFramed(input, W) && AllShaped(input, W) && forall i | 0 <= i < |lengthIn| :: lengthIn[i] < 16
    ensures var m, a := DropStep(W, r, lengthIn, input), AddedBy(W, r, lengthIn, input);
      var ls' := ls + NewLength(W, a);
      && AllFramed(taken + a.taken, W)
      && if EndsEarly(W, r, a) then ShortOne(W, Parse(taken + a.taken, W).done, ls')
         else Sound(W, ls', taken + a.taken, written + m.output, m.reg)
  {
    hide AllFramed, ShortOne, Sound, Rest, DropStep, AddedBy, Regular;
    StepKinds(W, r, lengthIn, input);
    if r.state == META && |input| > 0 && |lengthIn| > 0 {
      SoundMeta(W, ls, taken, written, r, lengthIn, input);
      assert written + [] == written;
    } else {
      assert ls + [] == ls;
      if r.state == LAST || r.state == LAST_FIVE {
        SoundLast(W, ls, taken, written, r);
        assert taken + [] == taken;
      } else if r.state != META && |input| > 0 {
        SoundWords(W, ls, taken, written, r, lengthIn, input);
      } else {
        assert taken + [] == taken && written + [] == written;
      }
    }
  }

  lemma BegunMore(W: nat, lengths: seq<nat>, a: Added)
    requires |a.lengths| <= 1
    ensures Begun(lengths + a.lengths, W) == Begun(lengths, W) + NewLength(W, a)
  {
    if |a.lengths| == 1 {
      BegunSnoc(lengths, a.lengths[0], W);
      assert a.lengths == [a.lengths[0]];
    } else {
      assert lengths + a.lengths == lengths;
    }
  }

  /** Whatever arrives, a step keeps the invariant, and nothing gets lost on the way in. */
  lemma DropStepKeeps(W: nat, lengths: seq<nat>, taken: seq<Word>, written: seq<Word>, r: Reg, lengthIn: seq<nat>, input: seq<Word>)
    requires DropInv(W, lengths, taken, written, r) && AllFramed(input, W) && forall i | 0 <= i < |lengthIn| :: lengthIn[i] < 16
    ensures Width(W) && AllShaped(input, W) && Shaped(r.prevWord, W)
    ensures var m, a := DropStep(W, r, lengthIn, input), AddedBy(W, r, lengthIn, input);
      && lengthIn == a.lengths + m.lengthRest && input == a.taken + m.rest
      && DropInv(W, lengths + a.lengths, taken + a.taken, written + m.output, m.reg)
  {
    FramedAreShaped(input, W);
    var m, a, ls := DropStep(W, r, lengthIn, input), AddedBy(W, r, lengthIn, input), Begun(lengths, W);
    StepRegular(W, r, lengthIn, input);
    StepFlow(W, r, lengthIn, input);
    StepKinds(W, r, lengthIn, input);
    BegunMore(W, lengths, a);
    StepCounts(W, r, lengthIn, input);
    LastsMore(taken, a.taken);
    LastsMore(written, m.output);
    hide AllFramed, ShortOne, Sound, Begun, DropStep, AddedBy, Regular, NewLength, Lasts, Untaken, Unwritten;
    if Lasts(taken) + Untaken(r) == |ls| {
      SoundStep(W, ls, taken, written, r, lengthIn, input);
    } else {
      ShortPersists(W, ls, taken, input, NewLength(W, a), a.taken);
    }
  }

  /** A step starts a packet with each length, ends it with the last word written, and is ahead by one more for each packet that ends early. */
  lemma StepCounts(W: nat, r: Reg, lengthIn: seq<nat>, input: seq<Word>)
    requires Width(W) && Regular(W, r) && AllFramed(input, W) && AllShaped(input, W)
    ensures var m, a := DropStep(W, r, lengthIn, input), AddedBy(W, r, lengthIn, input);
      && |m.output| <= 1 && |a.taken| <= 1
      && Unwritten(m.reg) + (if |m.output| == 1 && m.output[0].last then 1 else 0) == Unwritten(r) + |NewLength(W, a)|
      && Untaken(m.reg) + (if |a.taken| == 1 && a.taken[0].last then 1 else 0)
         == Untaken(r) + |NewLength(W, a)| + (if EndsEarly(W, r, a) then 1 else 0)
  {
    if |input| > 0 {
      FirstFramed(input, W);
      LastJoined(r.prevWord, input[0], W, Cut(W));
    }
    hide Framed, AllFramed, Join;
  }

  lemma LastJoined(prev: Word, cur: Word, W: nat, k: nat)
    requires Framed(cur, W) && Shaped(prev, W) && k < W
    ensures Shaped(cur, W) && (SendJoined(prev, cur, k).last ==> cur.last)
  {
    FramedShape(cur, W);
    KeepAt(cur, W, k);
  }

  /** Which steps read a length or a word, and what the others do. */
  lemma StepKinds(W: nat, r: Reg, lengthIn: seq<nat>, input: seq<Word>)
    requires Width(W) && Regular(W, r) && AllShaped(input, W)
    ensures var m, a := DropStep(W, r, lengthIn, input), AddedBy(W, r, lengthIn, input);
      && a.lengths == (if r.state == META && |input| > 0 && |lengthIn| > 0 then [lengthIn[0]] else [])
      && (r.state != META && r.state != LAST && r.state != LAST_FIVE && |input| > 0 ==> a.taken == [input[0]])
      && (r.state == LAST || r.state == LAST_FIVE ==>
            a.taken == [] && m.output == [Rest(r.prevWord, Cut(W))] && m.reg == r.(state := META))
      && (r.state != LAST && r.state != LAST_FIVE && (|input| == 0 || (r.state == META && |lengthIn| == 0)) ==>
            a.taken == [] && m.output == [] && m.reg == r)
  {
    hide SendJoined, Rest;
  }

  class DropHeader {
    const W: nat
    var state: DropState
    var length: nat
    var prevWord: Word
    ghost var lengths: seq<nat>
    ghost var taken: seq<Word>
    ghost var written: seq<Word>

    ghost predicate Valid()
      reads this
    {
      DropInv(W, lengths, taken, written, Regs())
    }

    ghost function Regs(): Reg
      reads this
    {
      Reg(state, length, prevWord)
    }

    constructor (W: nat)
      requires Width(W)
      ensures Valid() && this.W == W && lengths == [] && taken == written == []
      ensures Regs() == Reg(META, 0, Word(Zeros(W), Low(0, W), false))
    {
      this.W, state, length, prevWord := W, META, 0, Word(Zeros(W), Low(0, W), false);
      lengths, taken, written := [], [], [];
    }

    method Step(lengthIn: seq<nat>, input: seq<Word>)
      returns (lengthRest: seq<nat>, rest: seq<Word>, output: seq<Word>)
      requires Valid() && AllFramed(input, W) && forall i | 0 <= i < |lengthIn| :: lengthIn[i] < 16
      modifies this
      ensures Valid()
      ensures old(lengths) + lengthIn == lengths + lengthRest && old(taken) + input == taken + rest
      ensures written == old(written) + output
      ensures Width(W) && AllShaped(input, W) && Shaped(old(prevWord), W)
      ensures Moved(Regs(), lengthRest, rest, output) == DropStep(W, old(Regs()), lengthIn, input)
    {
      hide DropInv, AllFramed, Join, Rest;
      DropStepKeeps(W, lengths, taken, written, Regs(), lengthIn, input);
      ghost var a := AddedBy(W, Regs(), lengthIn, input);
      lengthRest, rest, output := Move(lengthIn, input);
      Regroup(lengths, lengthIn, a.lengths, lengthRest);
      Regroup(taken, input, a.taken, rest);
      lengths, taken, written := lengths + a.lengths, taken + a.taken, written + output;
    }

    /** The switch over the states. */
    method Move(lengthIn: seq<nat>, input: seq<Word>)
      returns (lengthRest: seq<nat>, rest: seq<Word>, output: seq<Word>)
      requires Width(W) && Shaped(prevWord, W) && AllShaped(input, W)
      modifies `state, `length, `prevWord
      ensures Moved(Regs(), lengthRest, rest, output) == DropStep(W, old(Regs()), lengthIn, input)
    {
      lengthRest, rest, output := lengthIn, input, [];
      match state {
        case META =>
          if |lengthIn| > 0 && |input| > 0 {
            length, lengthRest := lengthIn[0], lengthIn[1..];
            if W == 8 || W == 16 {
              if length > 1 {
                state := DROP;
              } else {
                prevWord, rest := input[0], input[1..];
                state := SHIFT;
              }
            }
            if W == 32 || W == 64 {
              if length == 5 {
                prevWord, rest := input[0], input[1..];
                state := SHIFT_FIVE;
                if prevWord.last {
                  state := LAST_FIVE;
                }
              }
            }
          }
        case DROP =>
          if |input| > 0 {
            prevWord, rest := input[0], input[1..];
            length := (length - 2) % 16;
            if length == 1 {
              state := SHIFT;
            } else if length == 0 {
              state := BODY;
            }
          }
        case BODY =>
          if |input| > 0 {
            var currWord := input[0];
            rest, output := input[1..], [currWord];
            if currWord.last {
              state := META;
            }
          }
        case SHIFT =>
          rest, output := Realign(input, 4, LAST);
        case SHIFT_FIVE =>
          if W > 20 {
            rest, output := Realign(input, 20, LAST_FIVE);
          }
        case LAST =>
          output := [Rest(prevWord, 4)];
          state := META;
        case LAST_FIVE =>
          if W > 20 {
            output := [Rest(prevWord, 20)];
            state := META;
          }
      }
    }

    method Realign(input: seq<Word>, k: nat, lastState: DropState) returns (rest: seq<Word>, output: seq<Word>)
      requires k < W && Shaped(prevWord, W) && AllShaped(input, W)
      modifies `state, `prevWord
      ensures forall lengthIn :: Moved(Regs(), lengthIn, rest, output) == ShiftStep(W, old(Regs()), lengthIn, input, k, lastState)
    {
      rest, output := input, [];
      if |input| > 0 {
        var currWord := input[0];
        rest := input[1..];
        var sendWord := Join(prevWord, currWord, k, !currWord.keep[k]);
        output := [sendWord];
        prevWord := currWord;
        if sendWord.last {
          state := META;
        } else if currWord.last {
          state := lastState;
        }
      }
    }
  }

  lemma Regroup<T>(past: seq<T>, input: seq<T>, now: seq<T>, rest: seq<T>)
    requires input == now + rest
    ensures past + input == (past + now) + rest
  {
  }

  // ----- the input the unit gets out of step on -----

  /**
   * At 64 and 128 bits, with a length of 1: a packet of one word is held back without
   * a look at its end, so the word written joins it with the start of the next packet
   * (cur), and that packet's length is never read with it.
   */
  lemma OneWordPacketMerges(W: nat, r: Reg, only: Word, cur: Word, more: seq<nat>)
    requires Narrow(W) && r.state == META && Shaped(r.prevWord, W)
    requires Framed(only, W) && only.last && Framed(cur, W)
    ensures Shaped(only, W) && Shaped(cur, W)
    ensures !LongEnough(Bytes(only), 1, W)
    ensures var first := DropStep(W, r, [1] + more, [only, cur]);
      && first.output == [] && first.reg.state == SHIFT
      && var next := DropStep(W, first.reg, first.lengthRest, first.rest);
      && next.rest == [] && next.lengthRest == more
      && |next.output| == 1 && Shaped(next.output[0], W) && next.output[0].data[W-4..] == cur.data[..4]
  {
    FramedShape(only, W);
    FramedShape(cur, W);
    var first := DropStep(W, r, [1] + more, [only, cur]);
    assert first.lengthRest == more && first.rest == [cur];
  }
}
