/**
 * Headers that are read from, and written into, the first words of a packet, at
 * any bus width and for any header length.
 */
module Packet {
  import opened Streams
  import opened Shift

  // packetHeader, in bytes.
  datatype HeaderState = HeaderState(ready: bool, idx: nat, bytes: seq<Byte>)

  /** The position of word idx in the header. */
  function At(idx: nat, W: nat): nat {
    idx * W
  }

  lemma AtNext(idx: nat, W: nat)
    ensures At(idx + 1, W) == At(idx, W) + W && At(0, W) == 0
  {
    assert (idx + 1) * W == idx * W + W;
  }

  /** What n bytes leave over after whole words. */
  function Rem(n: nat, W: nat): (r: nat)
    requires W > 0
    ensures r < W && r <= n
  {
    n % W
  }

  /** parseWord: the next word of the header. */
  function ParseWord(h: HeaderState, w: seq<Byte>, W: nat): (h': HeaderState)
    requires W > 0 && |w| == W && (h.ready || At(h.idx, W) < |h.bytes|)
    ensures |h'.bytes| == |h.bytes|
  {
    if h.ready then h
    else
      var at := At(h.idx, W);
      if at + W < |h.bytes| then HeaderState(false, h.idx + 1, h.bytes[..at] + w + h.bytes[at+W..])
      else HeaderState(true, h.idx + 1, h.bytes[..at] + w[..|h.bytes|-at])
  }

  /** consumeWord: the word with the next bytes of the header, and how many are left after a whole word. */
  function ConsumeWord(h: HeaderState, w: seq<Byte>, W: nat): (r: (HeaderState, seq<Byte>, nat))
    requires W > 0 && |w| == W
    ensures |r.1| == W && r.0.bytes == h.bytes
  {
    var at, H := At(h.idx, W), |h.bytes|;
    if at + W <= H then (h.(idx := h.idx + 1), h.bytes[at..at+W], (H - (at + W)) % 256)
    else if at < H then (h.(idx := h.idx + 1), h.bytes[at..] + w[H-at..], 0)
    else (h, w, 0)
  }

  class PacketHeader {
    const W: nat
    var ready: bool
    var idx: nat
    var header: seq<Byte>

    ghost predicate Valid()
      reads this
    {
      W > 0 && (ready || At(idx, W) < |header|)
    }

    ghost function State(): HeaderState
      reads this
    {
      HeaderState(ready, idx, header)
    }

    constructor (W: nat, header: seq<Byte>)
      requires W > 0 && |header| > 0
      ensures Valid() && this.W == W && State() == HeaderState(false, 0, header)
    {
      this.W, ready, idx, this.header := W, false, 0, header;
    }

    method Parse(w: seq<Byte>)
      requires Valid() && |w| == W
      modifies this
      ensures State() == old(ParseWord(State(), w, W))
      ensures Valid()
    {
      if ready {
        return;
      }
      AtNext(idx, W);
      if idx * W + W < |header| {
        header := header[..idx * W] + w + header[idx * W + W..];
      } else {
        header := header[..idx * W] + w[..|header| - idx * W];
        ready := true;
      }
      idx := idx + 1;
    }

    method Consume(w: seq<Byte>) returns (w': seq<Byte>, remaining: nat)
      requires W > 0 && |w| == W
      modifies `idx
      ensures (State(), w', remaining) == old(ConsumeWord(State(), w, W))
    {
      w', remaining := w, 0;
      AtNext(idx, W);
      if (idx + 1) * W <= |header| {
        w' := header[idx * W..(idx + 1) * W];
        idx := idx + 1;
        remaining := (|header| - idx * W) % 256;
      } else if idx * W < |header| {
        RemainderIs(|header|, W, idx);
        w' := header[idx * W..] + w[|header| % W..];
        idx := idx + 1;
      }
    }

    method Clear()
      requires W > 0 && |header| > 0
      modifies `ready, `idx
      ensures Valid() && State() == HeaderState(false, 0, old(header))
    {
      ready, idx := false, 0;
    }
  }

  lemma RemainderIs(H: nat, W: nat, q: nat)
    requires W > 0 && At(q, W) <= H < At(q, W) + W
    ensures Rem(H, W) == H % W == H - At(q, W)
  {
    var d := H / W - q;
    assert H == W * (H / W) + H % W;
    assert W * (H / W) == W * q + W * d;
    assert d > 0 ==> W * d >= W;
    assert d < 0 ==> W * d + W <= 0;
  }

  // ----- a whole header -----

  function Flat(ws: seq<seq<Byte>>): seq<Byte> {
    if |ws| == 0 then [] else Flat(ws[..|ws|-1]) + ws[|ws|-1]
  }

  ghost predicate AllWords(ws: seq<seq<Byte>>, W: nat) {
    forall i | 0 <= i < |ws| :: |ws[i]| == W
  }

  function Min(a: nat, b: nat): nat {
    if a <= b then a else b
  }

  lemma {:induction false} FlatLength(ws: seq<seq<Byte>>, W: nat)
    requires AllWords(ws, W)
    ensures |Flat(ws)| == At(|ws|, W)
  {
    if |ws| > 0 {
      FlatLength(ws[..|ws|-1], W);
      AtNext(|ws| - 1, W);
    }
  }

  /** The header after parsing the words of a packet, and whether it can take more. */
  ghost predicate ParsedFrom(h: HeaderState, W: nat, H: nat, p: seq<Byte>) {
    && |h.bytes| == H
    && h.bytes[..Min(H, |p|)] == p[..Min(H, |p|)]
    && (h.ready <==> |p| >= H)
    && (!h.ready ==> At(h.idx, W) == |p|)
  }

  /** Whatever the width, the header is the first H bytes of the packet, and ready once they are there. */
  lemma ParsesPrefix(h: HeaderState, W: nat, H: nat, p: seq<Byte>, w: seq<Byte>)
    requires W > 0 && |w| == W && ParsedFrom(h, W, H, p)
    ensures ParsedFrom(ParseWord(h, w, W), W, H, p + w)
  {
    var h' := ParseWord(h, w, W);
    AtNext(h.idx, W);
    hide At;
    if h.ready {
      assert (p + w)[..H] == p[..H];
    } else {
      assert h.bytes[..|p|] == p;
      if |p| + W < H {
        assert h'.bytes[..|p| + W] == p + w;
        assert (p + w)[..|p| + W] == p + w;
      } else {
        assert h'.bytes == (p + w)[..H];
      }
    }
  }

  ghost function ParseAll(h: HeaderState, ws: seq<seq<Byte>>, W: nat): (h': HeaderState)
    requires W > 0 && |h.bytes| > 0 && !h.ready && h.idx == 0 && AllWords(ws, W)
    ensures ParsedFrom(h', W, |h.bytes|, Flat(ws))
  {
    if |ws| == 0 then h
    else
      var n := |ws| - 1;
      ParsesPrefix(ParseAll(h, ws[..n], W), W, |h.bytes|, Flat(ws[..n]), ws[n]);
      ParseWord(ParseAll(h, ws[..n], W), ws[n], W)
  }

  /** The words with the header consumed into them. */
  ghost function ConsumeAll(h: HeaderState, ws: seq<seq<Byte>>, W: nat): (r: (HeaderState, seq<seq<Byte>>))
    requires W > 0 && h.idx == 0 && AllWords(ws, W)
    ensures |r.1| == |ws| && AllWords(r.1, W) && r.0.bytes == h.bytes
  {
    if |ws| == 0 then (h, [])
    else
      var n := |ws| - 1;
      var r := ConsumeAll(h, ws[..n], W);
      var c := ConsumeWord(r.0, ws[n], W);
      (c.0, r.1 + [c.1])
  }

  /** Consuming overwrites exactly the first bytes of the packet with the header. */
  lemma {:induction false} ConsumesPrefix(h: HeaderState, ws: seq<seq<Byte>>, W: nat)
    requires W > 0 && h.idx == 0 && AllWords(ws, W)
    ensures var r, m := ConsumeAll(h, ws, W), Min(|h.bytes|, |Flat(ws)|);
      && Flat(r.1) == h.bytes[..m] + Flat(ws)[m..]
      && (|Flat(ws)| <= |h.bytes| ==> r.0.idx == |ws|)
      && At(r.0.idx, W) >= m
  {
    hide At, ConsumeWord;
    AtNext(0, W);
    if |ws| > 0 {
      var n := |ws| - 1;
      ConsumesPrefix(h, ws[..n], W);
      FlatLength(ws[..n], W);
      var r := ConsumeAll(h, ws[..n], W);
      var c := ConsumeWord(r.0, ws[n], W);
      ConsumesIdx(r.0, ws[n], W, n, |Flat(ws[..n])|);
      ConsumesWord(h.bytes, Flat(ws[..n]), ws[n], c.1, At(r.0.idx, W), W);
      FlatSnoc(r.1, c.1);
    }
  }

  lemma FlatSnoc(ws: seq<seq<Byte>>, w: seq<Byte>)
    ensures Flat(ws + [w]) == Flat(ws) + w
  {
    assert (ws + [w])[..|ws|] == ws;
  }

  lemma ConsumesIdx(h: HeaderState, w: seq<Byte>, W: nat, n: nat, m: nat)
    requires W > 0 && |w| == W && m == At(n, W) && At(h.idx, W) >= Min(|h.bytes|, m) && (m <= |h.bytes| ==> h.idx == n)
    ensures var c := ConsumeWord(h, w, W);
      && c.1 == (if At(h.idx, W) + W <= |h.bytes| then h.bytes[At(h.idx, W)..At(h.idx, W) + W]
                 else if At(h.idx, W) < |h.bytes| then h.bytes[At(h.idx, W)..] + w[|h.bytes| - At(h.idx, W)..] else w)
      && At(c.0.idx, W) >= Min(|h.bytes|, m + W)
      && (m + W <= |h.bytes| ==> c.0.idx == n + 1)
  {
    AtNext(h.idx, W);
    hide At;
  }

  lemma ConsumesWord(h: seq<Byte>, p: seq<Byte>, w: seq<Byte>, c: seq<Byte>, at: nat, W: nat)
    requires |w| == W && at >= Min(|h|, |p|) && (|p| <= |h| ==> at == |p|)
    requires c == if at + W <= |h| then h[at..at+W] else if at < |h| then h[at..] + w[|h|-at..] else w
    ensures var m, m' := Min(|h|, |p|), Min(|h|, |p| + W);
      (h[..m] + p[m..]) + c == h[..m'] + (p + w)[m'..]
  {
    var H := |h|;
    if |p| + W <= H {
      assert h[..|p|] + c == h[..|p| + W];
    } else if |p| < H {
      assert h[..|p|] + c == h + w[H - |p|..];
      assert (p + w)[H..] == w[H - |p|..];
    } else {
      assert (p + w)[H..] == p[H..] + w;
    }
  }

  /** A header printed into the words of a packet that has room for it is parsed back. */
  lemma ParseUndoesConsume(h: HeaderState, h0: HeaderState, ws: seq<seq<Byte>>, W: nat)
    requires W > 0 && h.idx == 0 && AllWords(ws, W) && At(|ws|, W) >= |h.bytes| == |h0.bytes| > 0
    requires !h0.ready && h0.idx == 0
    ensures ParseAll(h0, ConsumeAll(h, ws, W).1, W).ready
    ensures ParseAll(h0, ConsumeAll(h, ws, W).1, W).bytes == h.bytes
  {
    ConsumesPrefix(h, ws, W);
    FlatLength(ws, W);
    var r := ParseAll(h0, ConsumeAll(h, ws, W).1, W);
    assert r.bytes == r.bytes[..|h.bytes|];
  }

  // ----- header printing: the state machine of generate_udp and generate_ipv4 -----

  datatype PrintState = META | HEADER | PARTIAL_HEADER | BODY

  /** x over the first bytes of p. */
  function Overlay(x: seq<Byte>, p: seq<Byte>): seq<Byte> {
    if |p| <= |x| then x[..|p|] else x + p[|x|..]
  }

  /** The whole words of header h, then packet p, its first bytes replaced by the rest of h. */
  function Printed(h: seq<Byte>, p: seq<Byte>, W: nat): seq<Byte>
    requires W > 0
  {
    var r := Rem(|h|, W);
    h[..|h|-r] + Overlay(h[|h|-r..], p)
  }

  function PrintAll(hs: seq<seq<Byte>>, ps: seq<seq<Byte>>, W: nat): (r: seq<seq<Byte>>)
    requires W > 0 && |hs| == |ps|
    ensures |r| == |ps|
  {
    if |ps| == 0 then []
    else PrintAll(hs[..|hs|-1], ps[..|ps|-1], W) + [Printed(hs[|hs|-1], ps[|ps|-1], W)]
  }

  lemma PrintAllSnoc(hs: seq<seq<Byte>>, h: seq<Byte>, ps: seq<seq<Byte>>, p: seq<Byte>, W: nat)
    requires W > 0 && |hs| == |ps|
    ensures PrintAll(hs + [h], ps + [p], W) == PrintAll(hs, ps, W) + [Printed(h, p, W)]
  {
    assert (ps + [p])[..|ps|] == ps && (hs + [h])[..|hs|] == hs;
  }

  /** What has been written (o) for the packets taken (t) and the headers hs asked for. */
  ghost predicate PrintRel(W: nat, hs: seq<seq<Byte>>, t: Parsed, o: Parsed, state: PrintState, header: HeaderState) {
    && W > 0
    && if state == META then
         && |hs| == |t.done| && o.done == PrintAll(hs, t.done, W) && t.open == [] && o.open == []
       else
         && |hs| == |t.done| + 1
         && var n := |t.done|;
         && header.bytes == hs[n] && |hs[n]| <= 32
         && o.done == PrintAll(hs[..n], t.done, W)
         && if state == BODY then |t.open| >= W && o.open == Printed(hs[n], t.open, W)
            else
              && t.open == [] && At(header.idx, W) <= |hs[n]| && o.open == hs[n][..At(header.idx, W)]
              && (state == HEADER <==> At(header.idx, W) + W <= |hs[n]|)
  }

  ghost predicate PrintInv(W: nat, hs: seq<seq<Byte>>, taken: seq<Word>, written: seq<Word>, state: PrintState, header: HeaderState) {
    && W > 0 && AllFramed(taken, W) && AllFramed(written, W) && (Filled(taken) ==> Filled(written))
    && PrintRel(W, hs, Parse(taken, W), Parse(written, W), state, header)
  }

  lemma PrintWidth(W: nat, hs: seq<seq<Byte>>, taken: seq<Word>, written: seq<Word>, state: PrintState, header: HeaderState)
    requires PrintInv(W, hs, taken, written, state, header)
    ensures W > 0
  {
  }

  /** META: a header to print. */
  lemma PrintMeta(W: nat, hs: seq<seq<Byte>>, taken: seq<Word>, written: seq<Word>, header: HeaderState, h: HeaderState)
    requires PrintInv(W, hs, taken, written, META, header) && h.idx == 0 && |h.bytes| <= 32
    ensures PrintInv(W, hs + [h.bytes], taken, written, if |h.bytes| >= W then HEADER else PARTIAL_HEADER, h)
  {
    assert (hs + [h.bytes])[..|hs|] == hs;
    assert h.bytes[..0] == [];
    AtNext(0, W);
  }

  /** HEADER: a whole word of it. */
  lemma PrintHeader(W: nat, hs: seq<seq<Byte>>, taken: seq<Word>, written: seq<Word>, header: HeaderState, junk: seq<Byte>)
    requires PrintInv(W, hs, taken, written, HEADER, header) && |junk| == W
    ensures var c := ConsumeWord(header, junk, W);
      PrintInv(W, hs, taken, written + [Word(c.1, Low(32, W), false)], if c.2 < W then PARTIAL_HEADER else HEADER, c.0)
  {
    hide AllFramed, Filled, PrintRel, ConsumeWord, Framed, Next;
    var send := Word(ConsumeWord(header, junk, W).1, Low(32, W), false);
    PrintHeaderStep(W, hs, Parse(taken, W), Parse(written, W), header, junk, send);
    ParseSnoc(written, send, W);
  }

  lemma PrintHeaderStep(W: nat, hs: seq<seq<Byte>>, t: Parsed, o: Parsed, header: HeaderState, junk: seq<Byte>, send: Word)
    requires PrintRel(W, hs, t, o, HEADER, header) && |junk| == W
    requires send == Word(ConsumeWord(header, junk, W).1, Low(32, W), false)
    ensures Framed(send, W) && Len(send.keep) > 0
    ensures var c := ConsumeWord(header, junk, W);
      PrintRel(W, hs, t, Next(o, send), if c.2 < W then PARTIAL_HEADER else HEADER, c.0)
  {
    AtNext(header.idx, W);
    hide At, PrintAll, Framed;
    LowFramed(send, W, W);
    var at := At(header.idx, W);
    assert send.data[..W] == send.data;
    assert header.bytes[..at] + header.bytes[at..at+W] == header.bytes[..at+W];
  }

  lemma OverlayBytes(cur: Word, x: seq<Byte>, W: nat, send: Word)
    requires Framed(cur, W) && |x| < W
    requires |cur.data| == W && send == cur.(data := x + cur.data[|x|..])
    ensures Framed(send, W) && Len(send.keep) == Len(cur.keep) && Bytes(send) == Overlay(x, Bytes(cur))
  {
  }

  /** PARTIAL_HEADER: the first word of the packet, with the rest of the header. */
  lemma PrintPartial(W: nat, hs: seq<seq<Byte>>, taken: seq<Word>, written: seq<Word>, header: HeaderState, cur: Word, send: Word)
    requires PrintInv(W, hs, taken, written, PARTIAL_HEADER, header) && Framed(cur, W)
    requires |cur.data| == W && send == cur.(data := ConsumeWord(header, cur.data, W).1)
    ensures PrintInv(W, hs, taken + [cur], written + [send], if cur.last then META else BODY, ConsumeWord(header, cur.data, W).0)
  {
    hide AllFramed, Filled, Framed, PrintRel, ConsumeWord, Next;
    PrintPartialStep(W, hs, Parse(taken, W), Parse(written, W), header, cur, send);
    ParseSnoc(taken, cur, W);
    ParseSnoc(written, send, W);
  }

  lemma PrintPartialStep(W: nat, hs: seq<seq<Byte>>, t: Parsed, o: Parsed, header: HeaderState, cur: Word, send: Word)
    requires PrintRel(W, hs, t, o, PARTIAL_HEADER, header) && Framed(cur, W)
    requires |cur.data| == W && send == cur.(data := ConsumeWord(header, cur.data, W).1)
    ensures Framed(send, W) && Len(send.keep) == Len(cur.keep)
    ensures PrintRel(W, hs, Next(t, cur), Next(o, send), if cur.last then META else BODY, ConsumeWord(header, cur.data, W).0)
  {
    hide At, PrintAll, Printed, Overlay, None;
    var h := header.bytes;
    PartialBytes(h, W, header.idx, cur, send);
    FramedShape(cur, W);
    hide Framed, ConsumeWord;
    assert t.open + Bytes(cur) == Bytes(cur);
    PrintedNext(W, hs, t, o, h, cur, send);
  }

  lemma PartialBytes(h: seq<Byte>, W: nat, idx: nat, cur: Word, send: Word)
    requires W > 0 && At(idx, W) <= |h| < At(idx, W) + W && Framed(cur, W) && |cur.data| == W
    requires send == cur.(data := if At(idx, W) < |h| then h[At(idx, W)..] + cur.data[|h| - At(idx, W)..] else cur.data)
    ensures Framed(send, W) && Len(send.keep) == Len(cur.keep)
    ensures h[..At(idx, W)] + Bytes(send) == Printed(h, Bytes(cur), W)
  {
    RemainderIs(|h|, W, idx);
    hide At, Rem, Framed, Overlay, Bytes;
    var x := h[At(idx, W)..];
    assert send.data == x + cur.data[|x|..];
    OverlayBytes(cur, x, W, send);
  }

  lemma PrintedNext(W: nat, hs: seq<seq<Byte>>, t: Parsed, o: Parsed, h: seq<Byte>, cur: Word, send: Word)
    requires W > 0 && |hs| == |t.done| + 1 && hs[|t.done|] == h && o.done == PrintAll(hs[..|t.done|], t.done, W)
    requires |cur.data| == |cur.keep| && |send.data| == |send.keep| && send.last == cur.last
    requires o.open + Bytes(send) == Printed(h, t.open + Bytes(cur), W)
    ensures cur.last ==> Next(o, send).done == PrintAll(hs, Next(t, cur).done, W)
  {
    hide PrintAll, Printed;
    PrintAllSnoc(hs[..|t.done|], h, t.done, t.open + Bytes(cur), W);
    assert hs == hs[..|t.done|] + [h];
  }

  lemma OverlayMore(x: seq<Byte>, p: seq<Byte>, b: seq<Byte>, y: seq<Byte>)
    requires |p| >= |x|
    ensures (y + Overlay(x, p)) + b == y + Overlay(x, p + b)
  {
    assert p[|x|..] + b == (p + b)[|x|..];
    assert Overlay(x, p) == x + p[|x|..];
    assert (y + (x + p[|x|..])) + b == y + (x + (p[|x|..] + b));
  }

  /** BODY: every further word unchanged. */
  lemma PrintBody(W: nat, hs: seq<seq<Byte>>, taken: seq<Word>, written: seq<Word>, header: HeaderState, cur: Word)
    requires PrintInv(W, hs, taken, written, BODY, header) && Framed(cur, W)
    ensures PrintInv(W, hs, taken + [cur], written + [cur], if cur.last then META else BODY, header)
  {
    hide AllFramed, Filled, Framed, PrintRel, Next;
    PrintBodyStep(W, hs, Parse(taken, W), Parse(written, W), header, cur);
    ParseSnoc(taken, cur, W);
    ParseSnoc(written, cur, W);
  }

  lemma PrintBodyStep(W: nat, hs: seq<seq<Byte>>, t: Parsed, o: Parsed, header: HeaderState, cur: Word)
    requires PrintRel(W, hs, t, o, BODY, header) && Framed(cur, W)
    ensures PrintRel(W, hs, Next(t, cur), Next(o, cur), if cur.last then META else BODY, header)
  {
    FramedShape(cur, W);
    PrintedMore(header.bytes, t.open, Bytes(cur), W);
    hide PrintAll, Printed, Framed;
    PrintedNext(W, hs, t, o, header.bytes, cur, cur);
  }

  lemma PrintedMore(h: seq<Byte>, p: seq<Byte>, b: seq<Byte>, W: nat)
    requires 0 < W <= |p|
    ensures Printed(h, p, W) + b == Printed(h, p + b, W)
  {
    var r := Rem(|h|, W);
    OverlayMore(h[|h|-r..], p, b, h[..|h|-r]);
  }

  /** A packet with room in front for what the whole words of the header leave gets just the header in front. */
  lemma PrintedOverFiller(h: seq<Byte>, z: seq<Byte>, p: seq<Byte>, W: nat)
    requires W > 0 && |z| == Rem(|h|, W)
    ensures Printed(h, z + p, W) == h + p
  {
    var r := Rem(|h|, W);
    assert h == h[..|h|-r] + h[|h|-r..];
    if |p| > 0 {
      assert (z + p)[r..] == p;
    }
  }

  /** Every packet with its header in front. */
  function PrependAll(hs: seq<seq<Byte>>, ps: seq<seq<Byte>>): (r: seq<seq<Byte>>)
    requires |hs| == |ps|
    ensures |r| == |ps| && forall i | 0 <= i < |ps| :: r[i] == hs[i] + ps[i]
  {
    if |ps| == 0 then []
    else PrependAll(hs[..|hs|-1], ps[..|ps|-1]) + [hs[|hs|-1] + ps[|ps|-1]]
  }

  lemma {:induction false} PrintOverFiller(hs: seq<seq<Byte>>, ps: seq<seq<Byte>>, H: nat, W: nat)
    requires W > 0 && |hs| == |ps| && forall i | 0 <= i < |hs| :: |hs[i]| == H
    ensures PrintAll(hs, PrefixAll(Zeros(Rem(H, W)), ps), W) == PrependAll(hs, ps)
  {
    if |ps| > 0 {
      hide Printed, Rem;
      var n := |ps| - 1;
      PrintOverFiller(hs[..n], ps[..n], H, W);
      PrintedOverFiller(hs[n], Zeros(Rem(H, W)), ps[n], W);
      assert PrefixAll(Zeros(Rem(H, W)), ps)[..n] == PrefixAll(Zeros(Rem(H, W)), ps[..n]);
    }
  }

  /**
   * The transmit path of any layer, at any width: room is made for the part of the
   * header that does not fill whole words, and the header printed. Every packet
   * comes out as its header followed by its bytes.
   */
  lemma TransmitPrepends(W: nat, H: nat, k: nat, hs: seq<seq<Byte>>, a: seq<Word>, b: seq<Word>, c: seq<Word>, prev: Word, header: HeaderState)
    requires W > 0 && k == Rem(H, W) && LeftIdle(W, k, a, b, prev) && PrintInv(W, hs, b, c, META, header)
    requires forall i | 0 <= i < |hs| :: |hs[i]| == H
    ensures AllFramed(a, W) && AllFramed(c, W) && (Filled(a) ==> Filled(c)) && |hs| == |Parse(a, W).done|
    ensures Parse(c, W) == Parsed(PrependAll(hs, Parse(a, W).done), [])
  {
    hide LeftIdle, AllFramed, Filled, PrintAll, Rem;
    LeftShiftsPackets(W, k, a, b, prev);
    PrintOverFiller(hs, Parse(a, W).done, H, W);
  }

  // ----- the header as the receiver reads it -----

  /** h starts with the bytes of p, as far as both go: a packet shorter than its header is read with bytes that are not valid. */
  predicate Begins(h: seq<Byte>, p: seq<Byte>) {
    var n := if |p| < |h| then |p| else |h|;
    h[..n] == p[..n]
  }

  ghost predicate AllBegin(hs: seq<seq<Byte>>, ps: seq<seq<Byte>>, H: nat) {
    |hs| == |ps| && forall i | 0 <= i < |hs| :: |hs[i]| == H && Begins(hs[i], ps[i])
  }

  lemma AllBeginSnoc(hs: seq<seq<Byte>>, ps: seq<seq<Byte>>, H: nat, h: seq<Byte>, p: seq<Byte>)
    requires AllBegin(hs, ps, H) && |h| == H && Begins(h, p)
    ensures AllBegin(hs + [h], ps + [p], H)
  {
  }

  /** With the whole header in front of every packet, exactly that is read. */
  lemma BeginsPrepended(hs: seq<seq<Byte>>, qs: seq<seq<Byte>>, ps: seq<seq<Byte>>, H: nat)
    requires |hs| == |ps| && (forall i | 0 <= i < |hs| :: |hs[i]| == H) && AllBegin(qs, PrependAll(hs, ps), H)
    ensures qs == hs
  {
    forall i | 0 <= i < |hs| ensures qs[i] == hs[i] {
      assert Begins(qs[i], hs[i] + ps[i]);
      assert qs[i][..H] == qs[i] && (hs[i] + ps[i])[..H] == hs[i];
    }
  }
}
