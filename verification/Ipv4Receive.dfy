/**
 * process_ipv4: reads the header of every packet, reports address, length and header
 * length, and passes the packet on from the word that completes the header.
 */
module Ipv4Receive {
  import opened Streams
  import opened Shift
  import opened Packet
  import opened Ipv4

  // ----- what is passed on -----

  /** The bytes in the words before the one that completes the header. */
  function Start(W: nat): nat
    requires Width(W)
  {
    if W < IPV4_HEADER then 16 else 0
  }

  /** The header length in units of 4 bytes, less what is not passed on, in 4 bits. */
  function LengthOut(h: seq<Byte>, W: nat): nat
    requires Width(W) && |h| == IPV4_HEADER
  {
    (HeaderLength(h) - Start(W) / 4) % 16
  }

  /** Packets that have a word to complete the header. */
  function Reached(ps: seq<seq<Byte>>, W: nat): seq<seq<Byte>>
    requires Width(W)
  {
    if |ps| == 0 then [] else Reached(ps[..|ps|-1], W) + (if |ps[|ps|-1]| > Start(W) then [ps[|ps|-1]] else [])
  }

  function PassedAll(ps: seq<seq<Byte>>, W: nat): (qs: seq<seq<Byte>>)
    requires Width(W)
    ensures |qs| == |Reached(ps, W)|
  {
    if |ps| == 0 then []
    else PassedAll(ps[..|ps|-1], W) + (if |ps[|ps|-1]| > Start(W) then [ps[|ps|-1][Start(W)..]] else [])
  }

  ghost predicate Heads(hs: seq<seq<Byte>>) {
    forall i | 0 <= i < |hs| :: |hs[i]| == IPV4_HEADER
  }

  ghost function MetasOf(hs: seq<seq<Byte>>): (ms: seq<Ipv4Meta>)
    requires Heads(hs)
    ensures |ms| == |hs| && forall i | 0 <= i < |hs| :: ms[i] == MetaOf(hs[i])
  {
    seq(|hs|, i requires 0 <= i < |hs| => MetaOf(hs[i]))
  }

  ghost function LengthsOf(hs: seq<seq<Byte>>, W: nat): (ls: seq<nat>)
    requires Width(W) && Heads(hs)
    ensures |ls| == |hs| && forall i | 0 <= i < |hs| :: ls[i] == LengthOut(hs[i], W)
  {
    seq(|hs|, i requires 0 <= i < |hs| => LengthOut(hs[i], W))
  }

  lemma ReportsSnoc(hs: seq<seq<Byte>>, h: seq<Byte>, W: nat)
    requires Width(W) && Heads(hs) && |h| == IPV4_HEADER
    ensures Heads(hs + [h])
    ensures MetasOf(hs + [h]) == MetasOf(hs) + [MetaOf(h)] && LengthsOf(hs + [h], W) == LengthsOf(hs, W) + [LengthOut(h, W)]
  {
  }

  // ----- the relation -----

  /** Of the packets completed, the headers read begin those that reach the end of their header, and these are passed on. */
  ghost predicate Done(W: nat, ps: seq<seq<Byte>>, hs: seq<seq<Byte>>, out: seq<seq<Byte>>)
    requires Width(W)
  {
    Heads(hs) && AllBegin(hs, Reached(ps, W), IPV4_HEADER) && out == PassedAll(ps, W)
  }

  lemma DoneSnoc(W: nat, ps: seq<seq<Byte>>, hs: seq<seq<Byte>>, out: seq<seq<Byte>>, p: seq<Byte>, h: seq<Byte>)
    requires Width(W) && Done(W, ps, hs, out)
    ensures |p| <= Start(W) ==> Done(W, ps + [p], hs, out)
    ensures |p| > Start(W) && |h| == IPV4_HEADER && Begins(h, p) ==> Done(W, ps + [p], hs + [h], out + [p[Start(W)..]])
  {
    hide Begins, AllBegin;
    assert (ps + [p])[..|ps|] == ps;
    if |p| > Start(W) && |h| == IPV4_HEADER && Begins(h, p) {
      AllBeginSnoc(hs, Reached(ps, W), IPV4_HEADER, h, p);
    } else {
      assert Reached(ps, W) + [] == Reached(ps, W) && PassedAll(ps, W) + [] == PassedAll(ps, W);
    }
  }

  lemma DoneHeads(W: nat, ps: seq<seq<Byte>>, hs: seq<seq<Byte>>, out: seq<seq<Byte>>)
    requires Width(W) && Done(W, ps, hs, out)
    ensures Heads(hs)
  {
  }

  /** The header register after the open bytes of a packet; dropped counts units of 4 bytes. */
  ghost predicate Reading(W: nat, open: seq<Byte>, out: seq<Byte>, header: HeaderState, dropped: nat)
    requires Width(W)
  {
    && |header.bytes| == IPV4_HEADER
    && if header.ready then
         |open| >= Start(W) + W && Begins(header.bytes, open) && out == open[Start(W)..]
       else
         && |open| == At(header.idx, W) <= Start(W) && header.bytes[..|open|] == open
         && out == [] && 4 * dropped == |open|
  }

  // What has been read and written, the headers read, what was reported, and the units of 4 bytes of the open packet.
  datatype History = History(taken: seq<Word>, written: seq<Word>, heads: seq<seq<Byte>>,
                             metas: seq<Ipv4Meta>, lengths: seq<nat>, dropped: nat)

  ghost predicate Reported(W: nat, hs: seq<seq<Byte>>, ms: seq<Ipv4Meta>, ls: seq<nat>, header: HeaderState)
    requires Width(W)
  {
    && Heads(hs) && |header.bytes| == IPV4_HEADER
    && ms == MetasOf(hs) + (if header.ready then [MetaOf(header.bytes)] else [])
    && ls == LengthsOf(hs, W) + (if header.ready then [LengthOut(header.bytes, W)] else [])
  }

  ghost predicate ProcessRel(W: nat, t: Parsed, o: Parsed, hs: seq<seq<Byte>>, header: HeaderState, dropped: nat) {
    Width(W) && Done(W, t.done, hs, o.done) && Reading(W, t.open, o.open, header, dropped)
  }

  ghost predicate ProcessInv(W: nat, p: History, header: HeaderState) {
    && AllFramed(p.taken, W) && AllFramed(p.written, W) && (Filled(p.taken) ==> Filled(p.written))
    && ProcessRel(W, Parse(p.taken, W), Parse(p.written, W), p.heads, header, p.dropped)
    && Reported(W, p.heads, p.metas, p.lengths, header)
  }

  /** The words of the header, one by one. */
  lemma HeaderWord(W: nat, open: seq<Byte>, out: seq<Byte>, header: HeaderState, dropped: nat, cur: Word, h: HeaderState)
    requires Width(W) && Reading(W, open, out, header, dropped) && !header.ready
    requires |cur.data| == |cur.keep| == W && 0 < Len(cur.keep)
    requires At(header.idx, W) < |header.bytes| && h == ParseWord(header, cur.data, W)
    ensures |h.bytes| == IPV4_HEADER
    ensures h.ready ==> |open| == Start(W) && Begins(h.bytes, open + Bytes(cur)) && 4 * dropped == Start(W)
    ensures !h.ready ==> |open| + W <= Start(W) && At(h.idx, W) == |open| + W
    ensures !h.ready && Len(cur.keep) == W ==> h.bytes[..|open| + W] == open + Bytes(cur)
  {
    AtNext(header.idx, W);
    AtWhole(header.idx, W);
    hide At;
    hide Begins;
    if h.ready {
      BeginsData(open, cur.data, Len(cur.keep), h.bytes);
    } else {
      assert h.bytes[..|open| + W] == header.bytes[..|open|] + cur.data;
    }
  }

  lemma BeginsData(open: seq<Byte>, data: seq<Byte>, n: nat, h: seq<Byte>)
    requires n <= |data| && |open| <= |h| <= |open| + |data| && h == open + data[..|h| - |open|]
    ensures Begins(h, open + data[..n])
  {
  }

  lemma AtWhole(idx: nat, W: nat)
    requires Width(W)
    ensures At(idx, W) < W ==> At(idx, W) == 0
    ensures W == 8 && At(idx, W) <= 16 ==> At(idx, W) == 0 || At(idx, W) == 8 || At(idx, W) == 16
    ensures W == 16 && At(idx, W) <= 16 ==> At(idx, W) == 0 || At(idx, W) == 16
  {
    if idx > 0 {
      AtNext(idx - 1, W);
      if W == 8 {
        assert At(idx, 8) == 8 * idx;
      } else if W == 16 {
        assert At(idx, 16) == 16 * idx;
      } else {
        assert At(idx - 1, W) >= 0;
      }
    }
  }

  function Cleared(h: HeaderState): HeaderState {
    h.(ready := false, idx := 0)
  }

  lemma ReadingNext(W: nat, open: seq<Byte>, out: seq<Byte>, header: HeaderState, dropped: nat, cur: Word, h: HeaderState)
    requires Width(W) && Reading(W, open, out, header, dropped) && Framed(cur, W) && Len(cur.keep) > 0
    requires |cur.data| == |cur.keep| == W && (header.ready || At(header.idx, W) < |header.bytes|)
    requires h == ParseWord(header, cur.data, W)
    ensures |h.bytes| == IPV4_HEADER && (header.ready ==> h == header)
    ensures h.ready <==> |open + Bytes(cur)| > Start(W)
    ensures h.ready ==> Begins(h.bytes, open + Bytes(cur)) && out + Bytes(cur) == (open + Bytes(cur))[Start(W)..]
    ensures h.ready && !header.ready ==> 4 * dropped == Start(W)
    ensures !cur.last ==> Reading(W, open + Bytes(cur), if h.ready then out + Bytes(cur) else out, h, dropped + W / 4)
    ensures Reading(W, [], [], Cleared(h), 0)
  {
    FramedShape(cur, W);
    hide Framed, At, Begins, ParseWord;
    AtNext(0, W);
    if header.ready {
      ReadyStays(header, cur.data, W);
      BeginsMore(header.bytes, open, Bytes(cur));
      assert (open + Bytes(cur))[Start(W)..] == open[Start(W)..] + Bytes(cur);
    } else {
      HeaderWord(W, open, out, header, dropped, cur, h);
      if h.ready {
        assert (open + Bytes(cur))[Start(W)..] == Bytes(cur);
      }
    }
  }

  lemma ReadyStays(header: HeaderState, data: seq<Byte>, W: nat)
    requires W > 0 && |data| == W && header.ready
    ensures ParseWord(header, data, W) == header
  {
  }

  lemma BeginsMore(h: seq<Byte>, p: seq<Byte>, more: seq<Byte>)
    requires Begins(h, p) && |p| >= |h|
    ensures Begins(h, p + more)
  {
  }

  /** A word that does not end its packet. */
  lemma ProcessMore(W: nat, t: Parsed, o: Parsed, hs: seq<seq<Byte>>, header: HeaderState, dropped: nat,
                    cur: Word, h: HeaderState, output: seq<Word>)
    requires ProcessRel(W, t, o, hs, header, dropped) && Framed(cur, W) && Len(cur.keep) > 0 && !cur.last
    requires |cur.data| == |cur.keep| == W && (header.ready || At(header.idx, W) < |header.bytes|)
    requires h == ParseWord(header, cur.data, W) && output == if h.ready then [cur] else []
    ensures ProcessRel(W, Next(t, cur), NextAll(o, output), hs, h, dropped + W / 4)
  {
    hide Framed, ParseWord, Reading, Done, Begins, Start, NextAll;
    ReadingNext(W, t.open, o.open, header, dropped, cur, h);
    NextOut(o, cur, output);
  }

  /** A word that ends its packet. */
  lemma ProcessLast(W: nat, t: Parsed, o: Parsed, hs: seq<seq<Byte>>, header: HeaderState, dropped: nat,
                    cur: Word, h: HeaderState, output: seq<Word>)
    requires ProcessRel(W, t, o, hs, header, dropped) && Framed(cur, W) && Len(cur.keep) > 0 && cur.last
    requires |cur.data| == |cur.keep| == W && (header.ready || At(header.idx, W) < |header.bytes|)
    requires h == ParseWord(header, cur.data, W) && output == if h.ready then [cur] else []
    ensures ProcessRel(W, Next(t, cur), NextAll(o, output), if h.ready then hs + [h.bytes] else hs, Cleared(h), 0)
  {
    hide Framed, ParseWord, Reading, Done, Begins, Start, NextAll;
    ReadingNext(W, t.open, o.open, header, dropped, cur, h);
    NextOut(o, cur, output);
    DoneSnoc(W, t.done, hs, o.done, t.open + Bytes(cur), h.bytes);
    if !h.ready {
      NothingOut(W, t.open, o.open, header, dropped);
    }
  }

  lemma NextOut(o: Parsed, cur: Word, output: seq<Word>)
    requires |cur.data| == |cur.keep| && (output == [cur] || output == [])
    ensures NextAll(o, output) == if output == [] then o else Next(o, cur)
  {
  }

  lemma NothingOut(W: nat, open: seq<Byte>, out: seq<Byte>, header: HeaderState, dropped: nat)
    requires Width(W) && Reading(W, open, out, header, dropped) && !header.ready
    ensures out == []
  {
  }

  /** The length in 4 bits, as it is reported with the header. */
  lemma ReportsGrow(W: nat, hs: seq<seq<Byte>>, ms: seq<Ipv4Meta>, ls: seq<nat>, header: HeaderState, dropped: nat, h: HeaderState,
                    metaOut: seq<Ipv4Meta>, lengthOut: seq<nat>)
    requires Width(W) && Reported(W, hs, ms, ls, header) && |h.bytes| == IPV4_HEADER && (header.ready ==> h == header)
    requires h.ready && !header.ready ==> 4 * dropped == Start(W)
    requires metaOut == if h.ready && !header.ready then [MetaOf(h.bytes)] else []
    requires lengthOut == if h.ready && !header.ready then [(HeaderLength(h.bytes) - dropped) % 16] else []
    ensures Reported(W, hs, ms + metaOut, ls + lengthOut, h)
    ensures Reported(W, if h.ready then hs + [h.bytes] else hs, ms + metaOut, ls + lengthOut, Cleared(h))
  {
    hide MetaOf, HeaderLength, MetasOf, LengthsOf;
    ReportsSnoc(hs, h.bytes, W);
    if h.ready && !header.ready {
      assert lengthOut == [LengthOut(h.bytes, W)];
    } else {
      assert ms + metaOut == ms && ls + lengthOut == ls;
    }
  }

  function Extended(W: nat, p: History, cur: Word, h: HeaderState, output: seq<Word>, metaOut: seq<Ipv4Meta>, lengthOut: seq<nat>): History {
    History(p.taken + [cur], p.written + output, if cur.last && h.ready then p.heads + [h.bytes] else p.heads,
            p.metas + metaOut, p.lengths + lengthOut, if cur.last then 0 else p.dropped + W / 4)
  }

  lemma ProcessWord(W: nat, p: History, header: HeaderState, cur: Word, h: HeaderState,
                    output: seq<Word>, metaOut: seq<Ipv4Meta>, lengthOut: seq<nat>)
    requires ProcessInv(W, p, header) && Framed(cur, W) && Len(cur.keep) > 0
    requires |cur.data| == |cur.keep| == W > 0 && (header.ready || At(header.idx, W) < |header.bytes|)
    requires h == ParseWord(header, cur.data, W) && |h.bytes| == IPV4_HEADER
    requires output == if h.ready then [cur] else []
    requires metaOut == if h.ready && !header.ready then [MetaOf(h.bytes)] else []
    requires lengthOut == if h.ready && !header.ready then [(HeaderLength(h.bytes) - p.dropped) % 16] else []
    ensures ProcessInv(W, Extended(W, p, cur, h, output, metaOut, lengthOut), if cur.last then Cleared(h) else h)
  {
    hide ProcessRel, Reported, AllFramed, Filled, Framed, MetaOf, HeaderLength, ParseWord, At, Next, Cleared;
    ProcessShape(W, p, header);
    var t, o := Parse(p.taken, W), Parse(p.written, W);
    assert Reported(W, p.heads, p.metas, p.lengths, header) && ProcessRel(W, t, o, p.heads, header, p.dropped);
    Completes(W, t, o, p.heads, header, p.dropped, cur, h);
    ReportsGrow(W, p.heads, p.metas, p.lengths, header, p.dropped, h, metaOut, lengthOut);
    if cur.last {
      ProcessLast(W, t, o, p.heads, header, p.dropped, cur, h, output);
    } else {
      ProcessMore(W, t, o, p.heads, header, p.dropped, cur, h, output);
    }
    ParseSnoc(p.taken, cur, W);
    if h.ready {
      ParseSnoc(p.written, cur, W);
    } else {
      assert p.written + output == p.written;
    }
  }

  lemma Completes(W: nat, t: Parsed, o: Parsed, hs: seq<seq<Byte>>, header: HeaderState, dropped: nat, cur: Word, h: HeaderState)
    requires ProcessRel(W, t, o, hs, header, dropped) && Framed(cur, W) && Len(cur.keep) > 0
    requires |cur.data| == |cur.keep| == W && (header.ready || At(header.idx, W) < |header.bytes|)
    requires h == ParseWord(header, cur.data, W)
    ensures Width(W) && (header.ready ==> h == header) && (h.ready && !header.ready ==> 4 * dropped == Start(W))
  {
    hide Framed, ParseWord, Reading, Done, Begins, Start;
    ReadingNext(W, t.open, o.open, header, dropped, cur, h);
  }

  lemma ProcessShape(W: nat, p: History, header: HeaderState)
    requires ProcessInv(W, p, header)
    ensures Width(W) && |header.bytes| == IPV4_HEADER && (header.ready || At(header.idx, W) < |header.bytes|)
  {
  }

  class ProcessIpv4 {
    const W: nat
    var metaWritten: bool
    var header: HeaderState
    var headerWordsDropped: nat
    ghost var past: History

    ghost predicate Valid()
      reads this
    {
      metaWritten == header.ready && headerWordsDropped == past.dropped % 16 && ProcessInv(W, past, header)
    }

    constructor (W: nat, initial: seq<Byte>)
      requires Width(W) && |initial| == IPV4_HEADER
      ensures Valid() && this.W == W && past == History([], [], [], [], [], 0)
    {
      this.W, metaWritten, header, headerWordsDropped := W, false, HeaderState(false, 0, initial), 0;
      past := History([], [], [], [], [], 0);
      AtNext(0, W);
    }

    /** One word: parse it into the header, and report the header once. */
    method Inspect(currWord: Word) returns (h: HeaderState, output: seq<Word>, metaOut: seq<Ipv4Meta>, lengthOut: seq<nat>)
      requires Valid() && |currWord.data| == |currWord.keep| == W > 0
      requires |header.bytes| == IPV4_HEADER && (header.ready || At(header.idx, W) < |header.bytes|)
      ensures h == ParseWord(header, currWord.data, W) && |h.bytes| == IPV4_HEADER && (header.ready ==> h.ready)
      ensures output == if h.ready then [currWord] else []
      ensures metaOut == if h.ready && !header.ready then [MetaOf(h.bytes)] else []
      ensures lengthOut == if h.ready && !header.ready then [(HeaderLength(h.bytes) - past.dropped) % 16] else []
    {
      hide ParseWord, MetaOf, HeaderLength, At, ProcessInv;
      output, metaOut, lengthOut := [], [], [];
      h := ParseWord(header, currWord.data, W);
      if header.ready { ReadyStays(header, currWord.data, W); }
      if h.ready {
        output := [currWord];
        if !metaWritten {
          lengthOut := [(HeaderLength(h.bytes) - headerWordsDropped) % 16];
          metaOut := [MetaOf(h.bytes)];
          LengthIn4Bits(HeaderLength(h.bytes), past.dropped);
        }
      }
    }

    method Step(input: seq<Word>) returns (rest: seq<Word>, output: seq<Word>, metaOut: seq<Ipv4Meta>, lengthOut: seq<nat>)
      requires Valid() && AllFramed(input, W) && Filled(input)
      modifies this
      ensures Valid()
      ensures old(past.taken) + input == past.taken + rest && past.written == old(past.written) + output
      ensures past.metas == old(past.metas) + metaOut && past.lengths == old(past.lengths) + lengthOut
      ensures rest == if |input| == 0 then input else input[1..]
    {
      hide Framed, AllFramed, Filled, ProcessInv, ParseWord, MetaOf, HeaderLength, At, Cleared, Extended;
      rest, output, metaOut, lengthOut := input, [], [], [];
      if |input| > 0 {
        var currWord, h := input[0], header;
        rest := input[1..];
        FirstFramed(input, W);
        FramedShape(currWord, W);
        ProcessShape(W, past, header);
        h, output, metaOut, lengthOut := Inspect(currWord);
        ProcessWord(W, past, header, currWord, h, output, metaOut, lengthOut);
        CountIn4Bits(past.dropped, W / 4);
        metaWritten, header, headerWordsDropped := h.ready, h, (headerWordsDropped + W / 4) % 16;
        if currWord.last {
          metaWritten, header, headerWordsDropped := false, Cleared(h), 0;
          ClearedIsEmpty(h);
        }
        ExtendedBy(W, past, currWord, h, output, metaOut, lengthOut);
        past := Extended(W, past, currWord, h, output, metaOut, lengthOut);
        Continued(old(past.taken), input);
      }
    }
  }

  lemma ExtendedBy(W: nat, p: History, cur: Word, h: HeaderState, output: seq<Word>, metaOut: seq<Ipv4Meta>, lengthOut: seq<nat>)
    ensures var p' := Extended(W, p, cur, h, output, metaOut, lengthOut);
      && p'.taken == p.taken + [cur] && p'.written == p.written + output
      && p'.metas == p.metas + metaOut && p'.lengths == p.lengths + lengthOut
      && p'.dropped == if cur.last then 0 else p.dropped + W / 4
  {
  }

  lemma Continued(taken: seq<Word>, input: seq<Word>)
    requires |input| > 0
    ensures taken + input == (taken + [input[0]]) + input[1..]
  {
  }

  lemma ClearedIsEmpty(h: HeaderState)
    ensures !Cleared(h).ready
  {
  }

  lemma CountIn4Bits(dropped: nat, more: nat)
    ensures (dropped % 16 + more) % 16 == (dropped + more) % 16
  {
  }

  lemma LengthIn4Bits(length: nat, dropped: nat)
    ensures (length - dropped % 16) % 16 == (length - dropped) % 16
  {
  }
}
