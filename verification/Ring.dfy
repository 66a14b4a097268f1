/**
 * Reading a ring buffer of 64 KiB: rxAppMemAccessBreakdown splits a read that
 * crosses the end into two, rxAppMemDataRead joins the two answers into one packet,
 * at a width of 8 bytes.
 */
module Ring {
  import opened Streams

  const SIZE: nat := 0x1_0000
  const W: nat := 8

  // ----- splitting the command -----

  // A read of bbt bytes; bbt has 23 bits, saddr 32.
  datatype Cmd = Cmd(saddr: nat, bbt: nat)

  predicate Crosses(c: Cmd) {
    c.saddr % SIZE + c.bbt > SIZE
  }

  /** The first length, in 16 bits. */
  function FirstLength(c: Cmd): nat {
    (SIZE - c.saddr) % SIZE
  }

  function FirstPart(c: Cmd): Cmd {
    Cmd(c.saddr, FirstLength(c))
  }

  /** The second part starts at the buffer's first byte; its length has 16 bits as well. */
  function SecondPart(c: Cmd): Cmd {
    Cmd(c.saddr - c.saddr % SIZE, (c.bbt - FirstLength(c)) % SIZE)
  }

  function Parts(c: Cmd): seq<Cmd> {
    if Crosses(c) then [FirstPart(c), SecondPart(c)] else [c]
  }

  function AllParts(cs: seq<Cmd>): seq<Cmd> {
    if |cs| == 0 then [] else AllParts(cs[..|cs|-1]) + Parts(cs[|cs|-1])
  }

  function AllFlags(cs: seq<Cmd>): (fs: seq<bool>)
    ensures |fs| == |cs|
  {
    if |cs| == 0 then [] else AllFlags(cs[..|cs|-1]) + [Crosses(cs[|cs|-1])]
  }

  lemma PartsSnoc(cs: seq<Cmd>, c: Cmd)
    ensures AllParts(cs + [c]) == AllParts(cs) + Parts(c) && AllFlags(cs + [c]) == AllFlags(cs) + [Crosses(c)]
  {
    assert (cs + [c])[..|cs|] == cs;
  }

  class AccessBreakdown {
    var breakdown: bool
    var tempCmd: Cmd
    var accLength: nat
    ghost var taken: seq<Cmd>
    ghost var written: seq<Cmd>
    ghost var flags: seq<bool>

    ghost predicate Valid()
      reads this
    {
      && flags == AllFlags(taken)
      && if breakdown then
           && |taken| > 0 && tempCmd == taken[|taken|-1] && Crosses(tempCmd) && accLength == FirstLength(tempCmd)
           && written + [SecondPart(tempCmd)] == AllParts(taken)
         else
           written == AllParts(taken)
    }

    constructor ()
      ensures Valid() && !breakdown && taken == [] && written == [] && flags == []
    {
      breakdown, tempCmd, accLength := false, Cmd(0, 0), 0;
      taken, written, flags := [], [], [];
    }

    method Step(input: seq<Cmd>) returns (rest: seq<Cmd>, output: seq<Cmd>, double: seq<bool>)
      requires Valid()
      modifies this
      ensures Valid()
      ensures old(taken) + input == taken + rest && written == old(written) + output && flags == old(flags) + double
      ensures if old(breakdown) || |input| == 0 then rest == input else rest == input[1..]
      ensures |output| == if old(breakdown) || |input| > 0 then 1 else 0
    {
      hide Crosses, FirstLength, AllParts, AllFlags;
      rest, output, double := input, [], [];
      if !breakdown {
        if |input| > 0 {
          tempCmd, rest := input[0], input[1..];
          if Crosses(tempCmd) {
            accLength := FirstLength(tempCmd);
            output := [Cmd(tempCmd.saddr, accLength)];
            breakdown := true;
          } else {
            output := [tempCmd];
          }
          double := [breakdown];
          PartsSnoc(taken, tempCmd);
          taken := taken + [tempCmd];
          assert input == [tempCmd] + rest;
        }
      } else {
        tempCmd := tempCmd.(saddr := tempCmd.saddr - tempCmd.saddr % SIZE);
        accLength := (tempCmd.bbt - accLength) % SIZE;
        output := [Cmd(tempCmd.saddr, accLength)];
        breakdown := false;
      }
      assert output == [] ==> written + output == written;
      assert double == [] ==> flags + double == flags;
      written := written + output;
      flags := flags + double;
    }
  }

  // ----- what is read -----

  type Memory = int -> Byte

  function Read(mem: Memory, c: Cmd): (b: seq<Byte>)
    ensures |b| == c.bbt && forall i | 0 <= i < c.bbt :: b[i] == mem(c.saddr + i)
  {
    seq(c.bbt, i requires 0 <= i < c.bbt => mem(c.saddr + i))
  }

  /** The unsplit read: the address wraps at the end of the buffer. */
  function Circular(mem: Memory, c: Cmd): (b: seq<Byte>)
    ensures |b| == c.bbt && forall i | 0 <= i < c.bbt :: b[i] == mem(c.saddr - c.saddr % SIZE + (c.saddr + i) % SIZE)
  {
    seq(c.bbt, i requires 0 <= i < c.bbt => mem(c.saddr - c.saddr % SIZE + (c.saddr + i) % SIZE))
  }

  function ReadAll(mem: Memory, cs: seq<Cmd>): (ps: seq<seq<Byte>>)
    ensures |ps| == |cs| && forall i | 0 <= i < |cs| :: ps[i] == Read(mem, cs[i])
  {
    seq(|cs|, i requires 0 <= i < |cs| => Read(mem, cs[i]))
  }

  function CircularAll(mem: Memory, cs: seq<Cmd>): (ps: seq<seq<Byte>>)
    ensures |ps| == |cs| && forall i | 0 <= i < |cs| :: ps[i] == Circular(mem, cs[i])
  {
    seq(|cs|, i requires 0 <= i < |cs| => Circular(mem, cs[i]))
  }

  /** The reads whose parts have the lengths meant: up to 64 KiB from anywhere, and somewhat more. */
  predicate Splits(c: Cmd) {
    Crosses(c) ==> c.saddr % SIZE > 0 && c.saddr % SIZE + c.bbt < 2 * SIZE
  }

  lemma LengthFacts(c: Cmd)
    requires Crosses(c)
    ensures FirstLength(c) == if c.saddr % SIZE == 0 then 0 else SIZE - c.saddr % SIZE
  {
  }

  /** Exactly then the lengths of the parts add up to the length of the read. */
  lemma SplitsIff(c: Cmd)
    requires Crosses(c)
    ensures FirstPart(c).bbt + SecondPart(c).bbt == c.bbt <==> Splits(c)
  {
    LengthFacts(c);
    hide FirstLength;
    if c.saddr % SIZE == 0 {
      assert c.bbt > SIZE;
    }
  }

  lemma WrapsAt(a: nat, i: nat)
    requires a % SIZE + i < 2 * SIZE
    ensures (a + i) % SIZE == if a % SIZE + i < SIZE then a % SIZE + i else a % SIZE + i - SIZE
  {
  }

  /** The bytes of the two parts are those of the unsplit read. */
  lemma PartsReadCircular(mem: Memory, c: Cmd)
    requires Splits(c)
    ensures Crosses(c) ==> Read(mem, FirstPart(c)) + Read(mem, SecondPart(c)) == Circular(mem, c)
    ensures !Crosses(c) ==> Read(mem, c) == Circular(mem, c)
  {
    if Crosses(c) {
      LengthFacts(c);
      SplitsIff(c);
      hide FirstLength, Splits;
      var a, b := Read(mem, FirstPart(c)), Read(mem, SecondPart(c));
      forall i | 0 <= i < c.bbt
        ensures (a + b)[i] == Circular(mem, c)[i]
      {
        WrapsAt(c.saddr, i);
      }
    } else {
      forall i | 0 <= i < c.bbt
        ensures Read(mem, c)[i] == Circular(mem, c)[i]
      {
        WrapsAt(c.saddr, i);
      }
    }
  }

  // ----- joining the answers -----

  /** The number of packets that belong to the reads with these flags. */
  function Pieces(fs: seq<bool>): nat {
    if |fs| == 0 then 0 else Pieces(fs[..|fs|-1]) + if fs[|fs|-1] then 2 else 1
  }

  /** For every flag one packet, or two put together. */
  function Merge(fs: seq<bool>, ps: seq<seq<Byte>>): (r: seq<seq<Byte>>)
    requires Pieces(fs) == |ps|
    ensures |r| == |fs|
  {
    if |fs| == 0 then []
    else
      var m, n := |fs| - 1, |ps|;
      if fs[m] then Merge(fs[..m], ps[..n-2]) + [ps[n-2] + ps[n-1]]
      else Merge(fs[..m], ps[..n-1]) + [ps[n-1]]
  }

  lemma MergeOne(fs: seq<bool>, ps: seq<seq<Byte>>, p: seq<Byte>)
    requires Pieces(fs) == |ps|
    ensures Pieces(fs + [false]) == |ps| + 1 && Merge(fs + [false], ps + [p]) == Merge(fs, ps) + [p]
  {
    assert (fs + [false])[..|fs|] == fs && (ps + [p])[..|ps|] == ps;
  }

  lemma MergeTwo(fs: seq<bool>, ps: seq<seq<Byte>>, p: seq<Byte>, q: seq<Byte>)
    requires Pieces(fs) == |ps|
    ensures Pieces(fs + [true]) == |ps| + 2 && Merge(fs + [true], ps + [p, q]) == Merge(fs, ps) + [p + q]
  {
    assert (fs + [true])[..|fs|] == fs && (ps + [p, q])[..|ps|] == ps;
  }

  datatype JoinState = IDLE | STREAM | JOIN | STREAMMERGED | STREAMUNMERGED | RESIDUE

  // The registers: the state, the flag of the current read, the word held, the valid bytes of the word
  // the first answer ended with, and the bytes left for the residue.
  datatype Registers = Registers(state: JoinState, double: bool, word: Word, offset: nat, left: nat)

  /** The bytes held back. */
  function Held(r: Registers): seq<Byte> {
    if |r.word.data| != W || r.offset > W then []
    else if r.state == JOIN then r.word.data[..r.offset]
    else if r.state == STREAMMERGED then r.word.data[W-r.offset..]
    else if r.state == RESIDUE && r.left <= r.offset then r.word.data[W-r.offset..W-r.offset+r.left]
    else []
  }

  /** The packets written (o) for the flags (fs) and packets (t) taken. */
  ghost predicate JoinRel(fs: seq<bool>, t: Parsed, o: Parsed, r: Registers) {
    match r.state
    case IDLE =>
      Pieces(fs) == |t.done| && o.done == Merge(fs, t.done) && t.open == [] && o.open == []
    case STREAM =>
      && |fs| > 0 && fs[|fs|-1] == r.double
      && var before := fs[..|fs|-1];
      && Pieces(before) == |t.done| && o.done == Merge(before, t.done) && o.open == t.open
    case RESIDUE =>
      && |fs| > 0 && fs[|fs|-1] && Pieces(fs) == |t.done| && t.open == []
      && 0 < r.left <= r.offset < W && |r.word.data| == W
      && var before, n := fs[..|fs|-1], |t.done|;
      && o.done == Merge(before, t.done[..n-2]) && o.open + Held(r) == t.done[n-2] + t.done[n-1]
    case _ =>
      && |fs| > 0 && fs[|fs|-1]
      && var before, n := fs[..|fs|-1], |t.done|;
      && Pieces(before) + 1 == n && o.done == Merge(before, t.done[..n-1])
      && o.open + Held(r) == t.done[n-1] + t.open
      && (r.state != STREAMUNMERGED ==> 0 < r.offset < W && |r.word.data| == W)
  }

  ghost predicate JoinInv(fs: seq<bool>, taken: seq<Word>, written: seq<Word>, r: Registers) {
    && AllFramed(taken, W) && AllFramed(written, W) && Filled(written)
    && JoinRel(fs, Parse(taken, W), Parse(written, W), r)
  }

  /** The word of an answer that is passed on or held back, in IDLE and STREAM. */
  function FirstWord(r: Registers, x: Word): (Registers, seq<Word>)
    requires |x.data| == |x.keep|
  {
    var n := Len(x.keep);
    if x.last && r.double then
      if n == W then (Registers(STREAMUNMERGED, true, x.(last := false), n, r.left), [x.(last := false)])
      else (Registers(JOIN, true, x.(last := false), n, r.left), [])
    else (Registers(if x.last then IDLE else STREAM, r.double, x, n, r.left), [x])
  }

  /** The held bytes and the start of the next word, in JOIN and STREAMMERGED. */
  function JoinedWord(r: Registers, y: Word): (Registers, Word)
    requires |y.data| == |y.keep| == W && r.offset <= W && |Held(r)| == r.offset
  {
    var n := Len(y.keep);
    var data := Held(r) + y.data[..W-r.offset];
    if y.last && n + r.offset <= W then (Registers(IDLE, r.double, y, r.offset, r.left), Word(data, Low(n + r.offset, W), true))
    else
      var left := if n + r.offset >= W then n + r.offset - W else 0;
      (Registers(if y.last then RESIDUE else STREAMMERGED, r.double, y, r.offset, left), Word(data, Low(W, W), false))
  }

  lemma FirstWordStep(fs: seq<bool>, t: Parsed, o: Parsed, r: Registers, x: Word)
    requires r.state == STREAM && JoinRel(fs, t, o, r) && Framed(x, W) && Len(x.keep) > 0
    ensures |x.data| == |x.keep|
    ensures var s := FirstWord(r, x);
      && (|s.1| > 0 ==> |s.1| == 1 && Framed(s.1[0], W) && Len(s.1[0].keep) > 0)
      && |s.1| <= 1
      && JoinRel(fs, Next(t, x), NextAll(o, s.1), s.0)
  {
    FramedShape(x, W);
    hide None;
    var before, p := fs[..|fs|-1], t.open + Bytes(x);
    assert fs == before + [r.double];
    assert (t.done + [p])[..|t.done|] == t.done;
    if x.last {
      if r.double {
        assert p + [] == p;
      } else {
        MergeOne(before, t.done, p);
      }
    }
  }

  lemma FirstWordInv(fs: seq<bool>, taken: seq<Word>, written: seq<Word>, r: Registers, x: Word)
    requires r.state == STREAM && JoinInv(fs, taken, written, r) && Framed(x, W) && Len(x.keep) > 0
    ensures |x.data| == |x.keep|
    ensures JoinInv(fs, taken + [x], written + FirstWord(r, x).1, FirstWord(r, x).0)
  {
    hide AllFramed, Filled, Framed, JoinRel, FirstWord, Next;
    FirstWordStep(fs, Parse(taken, W), Parse(written, W), r, x);
    ParseSnoc(taken, x, W);
    var s := FirstWord(r, x);
    if |s.1| == 0 {
      assert written + s.1 == written;
    } else {
      ParseSnoc(written, s.1[0], W);
      assert s.1 == [s.1[0]];
    }
  }

  /** Reading a flag in IDLE begins a stream of no words. */
  lemma BeginRead(fs: seq<bool>, taken: seq<Word>, written: seq<Word>, r: Registers, double: bool)
    requires r.state == IDLE && JoinInv(fs, taken, written, r)
    ensures JoinInv(fs + [double], taken, written, r.(state := STREAM, double := double))
  {
    assert (fs + [double])[..|fs|] == fs;
  }

  lemma JoinedBytes(r: Registers, y: Word)
    requires r.state == JOIN || r.state == STREAMMERGED
    requires 0 < r.offset < W && |r.word.data| == W && Framed(y, W) && Len(y.keep) > 0
    ensures |Held(r)| == r.offset && |y.data| == |y.keep| == W
    ensures var s := JoinedWord(r, y);
      && Framed(s.1, W) && Len(s.1.keep) > 0
      && (s.0.state == IDLE <==> s.1.last)
      && (s.1.last ==> Bytes(s.1) == Held(r) + Bytes(y) && y.last)
      && (!s.1.last ==> Bytes(s.1) + Held(s.0) == Held(r) + Bytes(y) && s.0.offset == r.offset && |s.0.word.data| == W)
      && (s.0.state == RESIDUE ==> y.last && 0 < s.0.left <= r.offset)
      && (s.0.state == STREAMMERGED ==> !y.last)
  {
    FramedShape(y, W);
    var s, n := JoinedWord(r, y), Len(y.keep);
    JoinedData(Held(r), y.data, n);
    if y.last && n + r.offset <= W {
      LowFramed(s.1, n + r.offset, W);
    } else {
      LowFramed(s.1, W, W);
    }
  }

  lemma JoinedData(h: seq<Byte>, d: seq<Byte>, n: nat)
    requires 0 < |h| < W == |d| && n <= W
    ensures var o, data := |h|, h + d[..W-|h|];
      && |data| == W && data[..W] == data
      && (n + o <= W ==> data[..n + o] == h + d[..n])
      && (n + o >= W ==> data + d[W-o..n] == h + d[..n])
  {
    var o := |h|;
    if n + o >= W {
      assert d[..n] == d[..W-o] + d[W-o..n];
    }
  }

  lemma JoinedStep(fs: seq<bool>, t: Parsed, o: Parsed, r: Registers, y: Word)
    requires r.state == JOIN || r.state == STREAMMERGED
    requires JoinRel(fs, t, o, r) && Framed(y, W) && Len(y.keep) > 0
    ensures |Held(r)| == r.offset && |y.data| == |y.keep| == W && r.offset <= W
    ensures var s := JoinedWord(r, y);
      Framed(s.1, W) && Len(s.1.keep) > 0 && JoinRel(fs, Next(t, y), Next(o, s.1), s.0)
  {
    JoinedBytes(r, y);
    hide JoinedWord, Held, Framed, Pieces, Merge;
    var s, n := JoinedWord(r, y), |t.done|;
    var p, q := t.done[n-1], t.open + Bytes(y);
    Regroup(o.open, Held(r), p, t.open, Bytes(y), Bytes(s.1), if s.1.last then [] else Held(s.0));
    hide JoinRel;
    JoinedNext(fs, t.done, q, y.last, o.done, o.open + Bytes(s.1), s.0);
  }

  /** The three ways on from a joined word: the read complete, a residue, or more words to come. */
  lemma JoinedNext(fs: seq<bool>, done: seq<seq<Byte>>, q: seq<Byte>, last: bool, out: seq<seq<Byte>>, b: seq<Byte>, r: Registers)
    requires |fs| > 0 && fs[|fs|-1] && Pieces(fs[..|fs|-1]) + 1 == |done|
    requires out == Merge(fs[..|fs|-1], done[..|done|-1])
    requires r.state == IDLE || r.state == RESIDUE || r.state == STREAMMERGED
    requires r.state == IDLE ==> last && b == done[|done|-1] + q
    requires r.state != IDLE ==> b + Held(r) == done[|done|-1] + q && 0 < r.offset < W && |r.word.data| == W
    requires r.state == RESIDUE ==> last && 0 < r.left <= r.offset
    requires r.state == STREAMMERGED ==> !last
    ensures JoinRel(fs, if last then Parsed(done + [q], []) else Parsed(done, q),
                    if r.state == IDLE then Parsed(out + [b], []) else Parsed(out, b), r)
  {
    hide Held, Pieces, Merge;
    MergeCompletes(fs, done, q);
  }

  /** The second answer completes the read. */
  lemma MergeCompletes(fs: seq<bool>, ps: seq<seq<Byte>>, q: seq<Byte>)
    requires |fs| > 0 && fs[|fs|-1] && Pieces(fs[..|fs|-1]) + 1 == |ps|
    ensures var before, n := fs[..|fs|-1], |ps|;
      && Pieces(fs) == n + 1 && (ps + [q])[..n-1] == ps[..n-1]
      && Merge(fs, ps + [q]) == Merge(before, ps[..n-1]) + [ps[n-1] + q]
  {
    assert (ps + [q])[..|ps|-1] == ps[..|ps|-1];
  }

  lemma Regroup(o: seq<Byte>, h: seq<Byte>, p: seq<Byte>, t: seq<Byte>, y: seq<Byte>, s: seq<Byte>, h': seq<Byte>)
    requires o + h == p + t && s + h' == h + y
    ensures (o + s) + h' == p + (t + y)
    ensures h' == [] ==> o + s == p + (t + y)
  {
    assert (o + s) + h' == o + (s + h');
    assert o + (h + y) == (o + h) + y;
    assert (p + t) + y == p + (t + y);
  }

  lemma JoinedInv(fs: seq<bool>, taken: seq<Word>, written: seq<Word>, r: Registers, y: Word)
    requires r.state == JOIN || r.state == STREAMMERGED
    requires JoinInv(fs, taken, written, r) && Framed(y, W) && Len(y.keep) > 0
    ensures |Held(r)| == r.offset && |y.data| == |y.keep| == W && r.offset <= W
    ensures JoinInv(fs, taken + [y], written + [JoinedWord(r, y).1], JoinedWord(r, y).0)
  {
    hide AllFramed, Filled, Framed, JoinRel, JoinedWord, Held, Next;
    JoinedStep(fs, Parse(taken, W), Parse(written, W), r, y);
    ParseSnoc(taken, y, W);
    ParseSnoc(written, JoinedWord(r, y).1, W);
  }

  /** The second answer needs no realignment when the first filled its last word. */
  lemma UnmergedInv(fs: seq<bool>, taken: seq<Word>, written: seq<Word>, r: Registers, y: Word)
    requires r.state == STREAMUNMERGED && JoinInv(fs, taken, written, r) && Framed(y, W) && Len(y.keep) > 0
    ensures JoinInv(fs, taken + [y], written + [y], r.(state := if y.last then IDLE else STREAMUNMERGED))
  {
    hide AllFramed, Filled, Framed, JoinRel, Next;
    FramedShape(y, W);
    UnmergedStep(fs, Parse(taken, W), Parse(written, W), r, y);
    ParseSnoc(taken, y, W);
    ParseSnoc(written, y, W);
  }

  lemma UnmergedStep(fs: seq<bool>, t: Parsed, o: Parsed, r: Registers, y: Word)
    requires r.state == STREAMUNMERGED && JoinRel(fs, t, o, r) && |y.data| == |y.keep|
    ensures JoinRel(fs, Next(t, y), Next(o, y), r.(state := if y.last then IDLE else STREAMUNMERGED))
  {
    hide Pieces, Merge;
    var p, q := t.done[|t.done|-1], t.open + Bytes(y);
    assert o.open + [] == o.open;
    Regroup(o.open, [], p, t.open, Bytes(y), Bytes(y), []);
    MergeCompletes(fs, t.done, q);
    assert (o.open + Bytes(y)) + [] == o.open + Bytes(y);
  }

  function ResidueWord(r: Registers): Word
    requires r.offset <= W && |r.word.data| == W
  {
    Word(r.word.data[W-r.offset..] + Zeros(W - r.offset), Low(r.left, W), true)
  }

  lemma ResidueInv(fs: seq<bool>, taken: seq<Word>, written: seq<Word>, r: Registers)
    requires r.state == RESIDUE && JoinInv(fs, taken, written, r)
    ensures r.offset <= W && |r.word.data| == W
    ensures JoinInv(fs, taken, written + [ResidueWord(r)], r.(state := IDLE))
  {
    hide AllFramed, Filled, Framed, ResidueWord, Next;
    ResidueStep(fs, Parse(taken, W), Parse(written, W), r);
    ParseSnoc(written, ResidueWord(r), W);
  }

  lemma ResidueBytes(r: Registers)
    requires r.state == RESIDUE && 0 < r.left <= r.offset < W && |r.word.data| == W
    ensures Framed(ResidueWord(r), W) && Len(ResidueWord(r).keep) > 0 && ResidueWord(r).last
    ensures Bytes(ResidueWord(r)) == Held(r)
  {
    var send := ResidueWord(r);
    LowFramed(send, r.left, W);
    assert send.data[..r.left] == Held(r);
  }

  lemma ResidueStep(fs: seq<bool>, t: Parsed, o: Parsed, r: Registers)
    requires r.state == RESIDUE && JoinRel(fs, t, o, r)
    ensures Framed(ResidueWord(r), W) && Len(ResidueWord(r).keep) > 0
    ensures JoinRel(fs, t, Next(o, ResidueWord(r)), r.(state := IDLE))
  {
    ResidueBytes(r);
    MergedLast(fs, t.done);
    hide Pieces, Merge, ResidueWord, Held, Framed;
  }

  lemma MergedLast(fs: seq<bool>, ps: seq<seq<Byte>>)
    requires |fs| > 0 && fs[|fs|-1] && Pieces(fs) == |ps|
    ensures var before, n := fs[..|fs|-1], |ps|;
      n >= 2 && Pieces(before) == n - 2 && Merge(fs, ps) == Merge(before, ps[..n-2]) + [ps[n-2] + ps[n-1]]
  {
  }

  class DataRead {
    var r: Registers
    ghost var flags: seq<bool>
    ghost var taken: seq<Word>
    ghost var written: seq<Word>

    ghost predicate Valid()
      reads this
    {
      JoinInv(flags, taken, written, r)
    }

    constructor ()
      ensures Valid() && r.state == IDLE && flags == [] && taken == written == []
    {
      r := Registers(IDLE, false, Word([], [], false), 0, 0);
      flags, taken, written := [], [], [];
    }

    method Step(double: seq<bool>, input: seq<Word>) returns (doubleRest: seq<bool>, rest: seq<Word>, output: seq<Word>)
      requires Valid() && AllFramed(input, W) && Filled(input)
      modifies this
      ensures Valid()
      ensures old(flags) + double == flags + doubleRest
      ensures old(taken) + input == taken + rest && written == old(written) + output
      ensures rest == if old(r.state) == RESIDUE || (old(r.state) == IDLE && |double| == 0) || |input| == 0 then input else input[1..]
      ensures doubleRest == if old(r.state) == IDLE && rest != input then double[1..] else double
      ensures old(r.state) == RESIDUE ==> |output| == 1
    {
      hide JoinInv, JoinedWord, FirstWord, Framed, AllFramed, Filled, Held;
      doubleRest, rest, output := double, input, [];
      if r.state == RESIDUE {
        ResidueInv(flags, taken, written, r);
        output := [ResidueWord(r)];
        r := r.(state := IDLE);
      } else if |input| > 0 && (r.state == IDLE ==> |double| > 0) {
        var word := input[0];
        rest := input[1..];
        FirstFramed(input, W);
        FramedShape(word, W);
        if r.state == IDLE {
          doubleRest := double[1..];
          BeginRead(flags, taken, written, r, double[0]);
          flags := flags + [double[0]];
          r := r.(state := STREAM, double := double[0]);
          assert double == [double[0]] + doubleRest;
        }
        if r.state == STREAM {
          FirstWordInv(flags, taken, written, r, word);
          var s := FirstWord(r, word);
          r, output := s.0, s.1;
        } else if r.state == STREAMUNMERGED {
          UnmergedInv(flags, taken, written, r, word);
          output := [word];
          if word.last {
            r := r.(state := IDLE);
          }
        } else {
          JoinedInv(flags, taken, written, r, word);
          var s := JoinedWord(r, word);
          r, output := s.0, [s.1];
        }
        taken := taken + [word];
        assert input == [word] + rest;
      }
      assert output == [] ==> written + output == written;
      written := written + output;
    }
  }

  // ----- split and joined, a read is the circular read -----

  lemma ReadAllConcat(mem: Memory, a: seq<Cmd>, b: seq<Cmd>)
    ensures ReadAll(mem, a + b) == ReadAll(mem, a) + ReadAll(mem, b)
  {
  }

  lemma ReadParts(mem: Memory, c: Cmd)
    requires Splits(c)
    ensures Crosses(c) ==> |ReadAll(mem, Parts(c))| == 2 && ReadAll(mem, Parts(c))[0] + ReadAll(mem, Parts(c))[1] == Circular(mem, c)
    ensures !Crosses(c) ==> ReadAll(mem, Parts(c)) == [Circular(mem, c)]
  {
    PartsReadCircular(mem, c);
  }

  lemma {:induction false} MergeReads(mem: Memory, cs: seq<Cmd>)
    requires forall i | 0 <= i < |cs| :: Splits(cs[i])
    ensures Pieces(AllFlags(cs)) == |AllParts(cs)|
    ensures Merge(AllFlags(cs), ReadAll(mem, AllParts(cs))) == CircularAll(mem, cs)
  {
    hide *;
    if |cs| == 0 {
      MergeNoReads(mem, cs);
    } else {
      var before, c := cs[..|cs|-1], cs[|cs|-1];
      MergeReads(mem, before);
      MergeOneMore(mem, before, c);
      assert cs == before + [c];
    }
  }

  lemma MergeNoReads(mem: Memory, cs: seq<Cmd>)
    requires cs == []
    ensures Pieces(AllFlags(cs)) == |AllParts(cs)|
    ensures Merge(AllFlags(cs), ReadAll(mem, AllParts(cs))) == CircularAll(mem, cs)
  {
  }

  lemma MergeOneMore(mem: Memory, cs: seq<Cmd>, c: Cmd)
    requires Splits(c) && Pieces(AllFlags(cs)) == |AllParts(cs)|
    requires Merge(AllFlags(cs), ReadAll(mem, AllParts(cs))) == CircularAll(mem, cs)
    ensures Pieces(AllFlags(cs + [c])) == |AllParts(cs + [c])|
    ensures Merge(AllFlags(cs + [c]), ReadAll(mem, AllParts(cs + [c]))) == CircularAll(mem, cs + [c])
  {
    ReadParts(mem, c);
    CircularAllSnoc(mem, cs, c);
    PartsSnoc(cs, c);
    ReadAllConcat(mem, AllParts(cs), Parts(c));
    hide Crosses, Splits, Parts, Merge, Pieces, ReadAll, CircularAll, Circular, Read, AllParts, AllFlags;
    var ps, r := ReadAll(mem, AllParts(cs)), ReadAll(mem, Parts(c));
    if Crosses(c) {
      assert r == [r[0], r[1]];
      MergeTwo(AllFlags(cs), ps, r[0], r[1]);
    } else {
      MergeOne(AllFlags(cs), ps, r[0]);
    }
  }

  lemma CircularAllSnoc(mem: Memory, cs: seq<Cmd>, c: Cmd)
    ensures CircularAll(mem, cs + [c]) == CircularAll(mem, cs) + [Circular(mem, c)]
  {
  }

  /**
   * For every run of reads that Splits admits, at any address: when the memory has
   * answered every command with the bytes it asks for, the packets written are
   * exactly the bytes of the unsplit circular reads, each as one well-formed packet.
   */
  lemma ReadsAreCircular(mem: Memory, cs: seq<Cmd>, taken: seq<Word>, written: seq<Word>, r: Registers)
    requires forall i | 0 <= i < |cs| :: Splits(cs[i])
    requires r.state == IDLE && JoinInv(AllFlags(cs), taken, written, r)
    requires Parse(taken, W).done == ReadAll(mem, AllParts(cs))
    ensures AllFramed(written, W) && Filled(written)
    ensures Parse(written, W) == Parsed(CircularAll(mem, cs), [])
  {
    hide AllFramed, Filled;
    MergeReads(mem, cs);
  }
}
