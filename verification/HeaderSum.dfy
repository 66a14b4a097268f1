/**
 * compute_ipv4_checksum: the words of an IPv4 header of 5 to 15 units of 4 bytes,
 * summed in the lanes of a bus of 64, 128, 256 or 512 bits.
 */
module HeaderSum {
  import opened Streams
  import opened Checksum
  import opened ChecksumUnit

  // ----- the header -----

  /** The header length field, in units of 4 bytes. */
  function Ihl(p: seq<Byte>): nat
    requires |p| > 0
  {
    p[0] % 16
  }

  /** The part of p that is header. */
  function Header(p: seq<Byte>): seq<Byte>
    requires |p| > 0
  {
    if |p| <= 4 * Ihl(p) then p else p[..4 * Ihl(p)]
  }

  /** Zero in the two bytes at the position, if b has them. */
  function Masked(b: seq<Byte>, at: int): (m: seq<Byte>)
    ensures |m| == |b|
  {
    if 0 <= at && at + 2 <= |b| then b[..at] + [0, 0] + b[at+2..] else b
  }

  /** The sum of a header; without the checksum field, if that is to be skipped. */
  function HeaderTotal(h: seq<Byte>, skip: bool): nat {
    Total(Words16(if skip then Masked(h, 10) else h))
  }

  // ----- which lanes a word adds: a faithful table per width -----

  // The lanes below limit without skip are added; then the remaining length, and whether the lanes are passed on.
  datatype Plan = Plan(limit: nat, skip: int, len: nat, emit: bool)

  function Plan64(wordCount: nat, ihl: nat, len: nat, skip: bool): Plan {
    if wordCount == 0 then Plan(4, -1, (ihl - 2) % 16, false)
    else if wordCount == 1 then Plan(4, if skip then 1 else -1, (len - 2) % 16, false)
    else if len == 0 then Plan(0, -1, 0, false)
    else if len == 1 then Plan(2, -1, 0, true)
    else Plan(4, -1, len - 2, len == 2)
  }

  function Plan128(wordCount: nat, ihl: nat, len: nat, skip: bool): Plan {
    if wordCount == 0 then Plan(8, if skip then 5 else -1, (ihl - 4) % 16, false)
    else if len == 0 then Plan(0, -1, 0, false)
    else if len == 1 then Plan(2, -1, 0, true)
    else if len == 2 then Plan(4, -1, 0, true)
    else if len == 3 then Plan(6, -1, 0, true)
    else Plan(8, -1, len - 4, len == 4)
  }

  function Plan256(wordCount: nat, ihl: nat, len: nat, skip: bool): Plan {
    if wordCount == 0 then
      var limit := if 2 * ihl <= 16 then 2 * ihl else 16;
      if ihl > 8 then Plan(limit, if skip then 5 else -1, ihl - 8, false) else Plan(limit, if skip then 5 else -1, 0, true)
    else if len == 0 then Plan(0, -1, 0, false)
    else if len <= 7 then Plan(2 * len, -1, 0, true)
    else Plan(16, -1, len - 8, len == 8)
  }

  /** After the first word only the payload is left. */
  function Plan512(wordCount: nat, ihl: nat, len: nat, skip: bool): Plan {
    if wordCount == 0 then Plan(if 2 * ihl <= 32 then 2 * ihl else 32, if skip then 5 else -1, ihl, true)
    else Plan(0, -1, len, false)
  }

  function PlanFor(W: nat, wordCount: nat, ihl: nat, len: nat, skip: bool): Plan
    requires Width(W)
  {
    if W == 8 then Plan64(wordCount, ihl, len, skip)
    else if W == 16 then Plan128(wordCount, ihl, len, skip)
    else if W == 32 then Plan256(wordCount, ihl, len, skip)
    else Plan512(wordCount, ihl, len, skip)
  }

  /** The counters after d bytes of a packet with the given header length. */
  predicate Counters(W: nat, d: nat, ihl: nat, wordCount: nat, len: nat)
    requires Width(W)
  {
    && (if d == 0 then wordCount == 0 else wordCount > 0)
    && (W == 8 && d > 0 ==> wordCount == if d == 8 then 1 else 2)
    && (W < 64 && d > 0 ==> 4 * len == if d <= 4 * ihl then 4 * ihl - d else 0)
  }

  function NextCount(W: nat, wordCount: nat): nat {
    if W == 8 then (if wordCount < 2 then wordCount + 1 else 2) else 1
  }

  /** The lane of the checksum field, bytes 10 and 11 of the header, in the word after d bytes. */
  function SkipLane(W: nat, d: nat, skip: bool): int {
    if !skip then -1 else if W > 8 && d == 0 then 5 else if W == 8 && d == 8 then 1 else -1
  }

  /** Twice the number of lanes of the word after d bytes that are header. */
  function Share(W: nat, d: nat, ihl: nat): nat {
    if 4 * ihl <= d then 0 else if 4 * ihl <= d + W then 4 * ihl - d else W
  }

  ghost predicate Uniform(W: nat, d: nat, ihl: nat, wordCount: nat, skip: bool, plan: Plan)
    requires Width(W)
  {
    && 2 * plan.limit == Share(W, d, ihl)
    && (plan.emit <==> d < 4 * ihl <= d + W)
    && plan.skip == SkipLane(W, d, skip)
    && Counters(W, d + W, ihl, NextCount(W, wordCount), plan.len)
  }

  lemma Uniform64(d: nat, ihl: nat, wordCount: nat, len: nat, skip: bool)
    requires 5 <= ihl <= 15 && Counters(8, d, ihl, wordCount, len) && (d == 0 || d == 8 || d >= 16)
    ensures Uniform(8, d, ihl, wordCount, skip, Plan64(wordCount, ihl, len, skip))
  {
  }

  lemma Uniform128(d: nat, ihl: nat, wordCount: nat, len: nat, skip: bool)
    requires 5 <= ihl <= 15 && Counters(16, d, ihl, wordCount, len) && (d == 0 || d >= 16)
    ensures Uniform(16, d, ihl, wordCount, skip, Plan128(wordCount, ihl, len, skip))
  {
  }

  lemma Uniform256(d: nat, ihl: nat, wordCount: nat, len: nat, skip: bool)
    requires 5 <= ihl <= 15 && Counters(32, d, ihl, wordCount, len) && (d == 0 || d >= 32)
    ensures Uniform(32, d, ihl, wordCount, skip, Plan256(wordCount, ihl, len, skip))
  {
  }

  /**
   * All four tables say the same: add exactly the lanes of the header that are in
   * this word, skip the lane of the checksum field, and pass the lanes on with the
   * word that completes the header.
   */
  lemma PlanIsUniform(W: nat, d: nat, ihl: nat, wordCount: nat, len: nat, skip: bool)
    requires Width(W) && 5 <= ihl <= 15 && Counters(W, d, ihl, wordCount, len) && Whole(d, W)
    ensures Uniform(W, d, ihl, wordCount, skip, PlanFor(W, wordCount, ihl, len, skip))
  {
    assert d == 0 || d == W || d >= 2 * W by { if d > W { assert Whole(d - W, W); } }
    hide Whole, Plan64, Plan128, Plan256;
    if W == 8 {
      Uniform64(d, ihl, wordCount, len, skip);
    } else if W == 16 {
      Uniform128(d, ihl, wordCount, len, skip);
    } else if W == 32 {
      Uniform256(d, ihl, wordCount, len, skip);
    }
  }

  // ----- the lanes -----

  function Pair(b: seq<Byte>, i: nat): U16
    requires 2 * i + 1 < |b|
  {
    b[2 * i] as int * 256 + b[2 * i + 1] as int
  }

  lemma {:induction false} Words16At(b: seq<Byte>)
    requires |b| % 2 == 0
    ensures 2 * |Words16(b)| == |b| && forall i | 0 <= i < |Words16(b)| :: Words16(b)[i] == Pair(b, i)
  {
    if |b| > 0 {
      Words16At(b[2..]);
      var ws := Words16(b);
      forall i | 0 < i < |ws| ensures ws[i] == Pair(b, i) {
        assert ws[i] == Words16(b[2..])[i - 1] == Pair(b[2..], i - 1);
      }
    }
  }

  /** What a plan adds to the lanes. */
  function PlanWords(data: seq<Byte>, plan: Plan, n: nat): (ws: seq<U16>)
    requires |data| == 2 * n && plan.limit <= n
    ensures |ws| == n
    ensures forall i | 0 <= i < n :: ws[i] == if i < plan.limit && i != plan.skip then Pair(data, i) else 0
  {
    seq(n, i requires 0 <= i < n => if i < plan.limit && i != plan.skip then Pair(data, i) else 0)
  }

  lemma {:induction false} TotalPadded(a: seq<U16>, ws: seq<U16>)
    requires |a| <= |ws| && (forall i | 0 <= i < |ws| :: ws[i] == if i < |a| then a[i] else 0)
    ensures Total(ws) == Total(a)
  {
    if |ws| == |a| {
      assert ws == a;
    } else {
      TotalPadded(a, ws[..|ws|-1]);
    }
  }

  lemma MaskedPairs(data: seq<Byte>, limit: nat, s: int)
    requires 2 * limit <= |data| && -1 <= s
    ensures var m := Masked(data[..2 * limit], 2 * s);
      |m| == 2 * limit && forall i | 0 <= i < limit :: Pair(m, i) == if i == s then 0 else Pair(data, i)
  {
    var b := data[..2 * limit];
    forall i | 0 <= i < limit
      ensures Pair(Masked(b, 2 * s), i) == if i == s then 0 else Pair(data, i)
    {
      MaskedAt(b, 2 * s, 2 * i);
      MaskedAt(b, 2 * s, 2 * i + 1);
    }
  }

  lemma MaskedAt(b: seq<Byte>, at: int, i: nat)
    requires i < |b|
    ensures Masked(b, at)[i] == if 0 <= at <= i < at + 2 <= |b| then 0 else b[i]
  {
  }

  lemma PlanTotal(data: seq<Byte>, plan: Plan, n: nat)
    requires |data| == 2 * n && plan.limit <= n && -1 <= plan.skip
    ensures Total(PlanWords(data, plan, n)) == Total(Words16(Masked(data[..2 * plan.limit], 2 * plan.skip)))
  {
    var m := Masked(data[..2 * plan.limit], 2 * plan.skip);
    MaskedPairs(data, plan.limit, plan.skip);
    Words16At(m);
    hide Words16, Masked, Pair, Total;
    TotalPadded(Words16(m), PlanWords(data, plan, n));
  }

  /** The header so far and the header part of the next word, masked and summed. */
  lemma HeaderTotalMore(a: seq<Byte>, b: seq<Byte>, W: nat, skip: bool)
    requires Width(W) && |a| % 2 == 0 && |b| <= W
    requires |a| == 0 ==> |b| >= 12 || (W == 8 && |b| == 8)
    requires |a| > 0 ==> |a| >= 12 || (W == 8 == |a| && |b| == 8)
    ensures HeaderTotal(a + b, skip) == HeaderTotal(a, skip) + Total(Words16(Masked(b, 2 * SkipLane(W, |a|, skip))))
  {
    var x := if skip then Masked(a, 10) else a;
    var y := Masked(b, 2 * SkipLane(W, |a|, skip));
    assert (if skip then Masked(a + b, 10) else a + b) == x + y;
    hide Masked, Words16, Total, SkipLane;
    Words16Concat(x, y);
    TotalConcat(Words16(x), Words16(y));
  }

  // ----- the whole stream -----

  /** A packet with a header of at least 5 units, all of it there. */
  ghost predicate Headed(p: seq<Byte>) {
    |p| > 0 && Ihl(p) >= 5 && |p| >= 4 * Ihl(p)
  }

  ghost predicate SumIs(sums: seq<U16>, p: seq<Byte>, skip: bool) {
    |p| > 0 && Canon(Total(sums)) == Canon(HeaderTotal(Header(p), skip))
  }

  /** One set of lanes for every header taken, that folds to the header's sum. */
  ghost predicate SumRel(W: nat, skip: bool, t: Parsed, sums: seq<seq<U16>>, lanes: seq<U16>, wordCount: nat, len: nat) {
    && Width(W) && 2 * |lanes| == W && Whole(|t.open|, W)
    && (forall k | 0 <= k < |t.done| :: Headed(t.done[k]))
    && |sums| >= |t.done|
    && (forall k | 0 <= k < |sums| :: |sums[k]| == |lanes|)
    && (forall k | 0 <= k < |t.done| :: SumIs(sums[k], t.done[k], skip))
    && if t.open == [] then |sums| == |t.done| && Zero(lanes) && wordCount == 0
       else
         && Ihl(t.open) >= 5 && Counters(W, |t.open|, Ihl(t.open), wordCount, len)
         && SumIs(lanes, t.open, skip)
         && if |t.open| < 4 * Ihl(t.open) then |sums| == |t.done|
            else |sums| == |t.done| + 1 && SumIs(sums[|t.done|], t.open, skip)
  }

  /** The next word continues a packet with a proper header, and does not end it too early. */
  ghost predicate Continues(t: Parsed, w: Word)
    requires |w.data| == |w.keep|
  {
    var p := t.open + Bytes(w);
    |p| > 0 && Ihl(p) >= 5 && (w.last ==> |p| >= 4 * Ihl(p))
  }

  /** The valid bytes of a word hold all of the header that the word has. */
  lemma HeaderPart(open: seq<Byte>, cur: Word, W: nat, limit: nat)
    requires Framed(cur, W) && |cur.data| == |cur.keep| == W && Width(W)
    requires Continues(Parsed([], open), cur) && (open != [] ==> Ihl(open) >= 5)
    requires 2 * limit == Share(W, |open|, Ihl(open + Bytes(cur)))
    ensures (open != [] ==> Ihl(open) == Ihl(open + Bytes(cur)))
    ensures 2 * limit <= Len(cur.keep)
    ensures Header(open + Bytes(cur)) == (if open == [] then [] else Header(open)) + cur.data[..2 * limit]
    ensures |open| < 4 * Ihl(open + Bytes(cur)) ==> (if open == [] then [] else Header(open)) == open
    ensures |open| >= 4 * Ihl(open + Bytes(cur)) ==> limit == 0
  {
    var p := open + Bytes(cur);
    var ihl := Ihl(p);
    assert open != [] ==> p[0] == open[0];
    if |open| < 4 * ihl {
      assert cur.data[..2 * limit] == Bytes(cur)[..2 * limit];
      assert Header(p) == open + Bytes(cur)[..2 * limit];
    } else {
      assert Header(p) == open[..4 * ihl];
    }
  }

  lemma EmptyTotal(skip: bool)
    ensures HeaderTotal([], skip) == 0
  {
  }

  lemma LanesStart(lanes: seq<U16>, open: seq<Byte>, h: seq<Byte>, skip: bool)
    requires if open == [] then Zero(lanes) && h == [] else SumIs(lanes, open, skip) && h == Header(open)
    ensures Canon(Total(lanes)) == Canon(HeaderTotal(h, skip))
  {
    if open == [] {
      ZeroTotal(lanes);
      EmptyTotal(skip);
    }
  }

  lemma ShareTotal(h: seq<Byte>, b: seq<Byte>, d: nat, W: nat, ihl: nat, skip: bool)
    requires Width(W) && Whole(d, W) && ihl >= 5 && |b| == Share(W, d, ihl) && (d < 4 * ihl ==> |h| == d)
    ensures HeaderTotal(h + b, skip) == HeaderTotal(h, skip) + Total(Words16(Masked(b, 2 * SkipLane(W, d, skip))))
  {
    if |b| > 0 {
      WholeUnits(d, W);
      assert d == 0 || d == W || d >= 2 * W by { if d > W { assert Whole(d - W, W); } }
      HeaderTotalMore(h, b, W, skip);
    } else {
      assert h + b == h;
      assert Masked(b, 2 * SkipLane(W, d, skip)) == [];
      NoWords();
    }
  }

  lemma ContinuesHeader(open: seq<Byte>, cur: Word)
    requires |cur.data| == |cur.keep| && Continues(Parsed([], open), cur)
    ensures var p := open + Bytes(cur); |p| > 0 && Ihl(p) >= 5
  {
  }

  /** The lanes with a word's share of the header added. */
  lemma LanesStep(W: nat, skip: bool, open: seq<Byte>, lanes: seq<U16>, cur: Word, plan: Plan,
                  ws: seq<U16>, lanes': seq<U16>)
    requires Width(W) && 2 * |lanes| == W && Whole(|open|, W) && Framed(cur, W) && |cur.data| == |cur.keep| == W
    requires Continues(Parsed([], open), cur) && |open + Bytes(cur)| > 0 && (open != [] ==> Ihl(open) >= 5)
    requires if open == [] then Zero(lanes) else SumIs(lanes, open, skip)
    requires 2 * plan.limit == Share(W, |open|, Ihl(open + Bytes(cur))) && plan.skip == SkipLane(W, |open|, skip) >= -1
    requires |lanes'| == |lanes| == |ws| && plan.limit <= |lanes| && ws == PlanWords(cur.data, plan, |lanes|)
    requires forall i | 0 <= i < |lanes| :: lanes'[i] == Add(lanes[i], ws[i])
    ensures SumIs(lanes', open + Bytes(cur), skip)
  {
    hide Canon, Total, Words16, PlanWords, Framed, Masked, Add, HeaderTotal, Header, Ihl, Continues, Whole, Share, SkipLane;
    var h := if open == [] then [] else Header(open);
    var b := cur.data[..2 * plan.limit];
    HeaderPart(open, cur, W, plan.limit);
    PlanTotal(cur.data, plan, |lanes|);
    ContinuesHeader(open, cur);
    ShareTotal(h, b, |open|, W, Ihl(open + Bytes(cur)), skip);
    LanesStart(lanes, open, h, skip);
    LanesAdded(lanes, ws, lanes', HeaderTotal(h, skip));
  }

  /** The sums passed on: those before, and the lanes when they complete a header. */
  lemma SumsStep(W: nat, skip: bool, t: Parsed, sums: seq<seq<U16>>, lanes: seq<U16>, wordCount: nat, len: nat,
                 p: seq<Byte>, lanes': seq<U16>, emit: bool)
    requires SumRel(W, skip, t, sums, lanes, wordCount, len) && |lanes'| == |lanes| && SumIs(lanes', p, skip) && |p| > 0
    requires Ihl(p) >= 5 && (t.open != [] ==> Ihl(t.open) == Ihl(p))
    requires emit <==> |t.open| < 4 * Ihl(p) <= |p|
    requires |t.open| >= 4 * Ihl(p) ==> Header(p) == Header(t.open) && |p| >= |t.open|
    ensures var sums' := if emit then sums + [lanes'] else sums;
      && (forall k | 0 <= k < |sums'| :: |sums'[k]| == |lanes|)
      && |sums'| == |t.done| + (if |p| >= 4 * Ihl(p) then 1 else 0)
      && (forall k | 0 <= k < |t.done| :: SumIs(sums'[k], t.done[k], skip))
      && (|p| >= 4 * Ihl(p) ==> SumIs(sums'[|t.done|], p, skip))
  {
    hide Canon, Total, HeaderTotal, Counters, Header, Ihl;
    if !emit && |p| >= 4 * Ihl(p) {
      assert SumIs(sums[|t.done|], t.open, skip);
    }
  }

  lemma StepPlan(W: nat, skip: bool, t: Parsed, sums: seq<seq<U16>>, lanes: seq<U16>, wordCount: nat, len: nat, p: seq<Byte>)
    requires SumRel(W, skip, t, sums, lanes, wordCount, len) && |p| > 0 && Ihl(p) >= 5 && t.open <= p
    ensures t.open != [] ==> Ihl(t.open) == Ihl(p)
    ensures Uniform(W, |t.open|, Ihl(p), wordCount, skip, PlanFor(W, wordCount, Ihl(p), len, skip))
    ensures SkipLane(W, |t.open|, skip) >= -1
  {
    assert t.open != [] ==> p[0] == t.open[0];
    hide Uniform, PlanFor, SumIs, Headed;
    PlanIsUniform(W, |t.open|, Ihl(p), wordCount, len, skip);
  }

  lemma WholeNext(d: nat, W: nat)
    requires Whole(d, W) && W > 0
    ensures Whole(d + W, W) && (d > 0 ==> d >= W)
  {
  }

  lemma SumStep(W: nat, skip: bool, t: Parsed, sums: seq<seq<U16>>, lanes: seq<U16>, wordCount: nat, len: nat,
                cur: Word, plan: Plan, ws: seq<U16>, lanes': seq<U16>)
    requires SumRel(W, skip, t, sums, lanes, wordCount, len) && Framed(cur, W)
    requires |cur.data| == |cur.keep| == W && Len(cur.keep) > 0 && Continues(t, cur)
    requires plan == PlanFor(W, wordCount, Ihl(t.open + Bytes(cur)), len, skip) && plan.limit <= |lanes| == |lanes'|
    requires ws == PlanWords(cur.data, plan, |lanes|) && forall i | 0 <= i < |lanes| :: lanes'[i] == Add(lanes[i], ws[i])
    ensures var sums' := if plan.emit then sums + [lanes'] else sums;
      && (!cur.last ==> SumRel(W, skip, Next(t, cur), sums', lanes', NextCount(W, wordCount), plan.len))
      && (cur.last ==> forall z | |z| == |lanes| && Zero(z) :: SumRel(W, skip, Next(t, cur), sums', z, 0, plan.len))
  {
    hide Framed, PlanFor, Counters, HeaderTotal, Header, Canon, Total, Add, SumIs, PlanWords, Zero, Masked, Whole, Share, SkipLane;
    FramedShape(cur, W);
    var p := t.open + Bytes(cur);
    var sums' := if plan.emit then sums + [lanes'] else sums;
    WholeNext(|t.open|, W);
    StepPlan(W, skip, t, sums, lanes, wordCount, len, p);
    HeaderPart(t.open, cur, W, plan.limit);
    LanesStep(W, skip, t.open, lanes, cur, plan, ws, lanes');
    hide Ihl, Continues;
    SumsStep(W, skip, t, sums, lanes, wordCount, len, p, lanes', plan.emit);
    if cur.last {
      forall z | |z| == |lanes| && Zero(z)
        ensures SumRel(W, skip, Next(t, cur), sums', z, 0, plan.len)
      {
        SumDone(W, skip, t.done, p, sums', z, plan.len);
      }
    } else {
      SumOpen(W, skip, t.done, p, sums', lanes', NextCount(W, wordCount), plan.len);
    }
  }

  lemma SumOpen(W: nat, skip: bool, done: seq<seq<Byte>>, p: seq<Byte>, sums: seq<seq<U16>>, lanes: seq<U16>, wordCount: nat, len: nat)
    requires Width(W) && 2 * |lanes| == W && Whole(|p|, W) && |p| > 0 && Ihl(p) >= 5
    requires Counters(W, |p|, Ihl(p), wordCount, len) && SumIs(lanes, p, skip)
    requires forall k | 0 <= k < |done| :: Headed(done[k])
    requires |sums| == |done| + (if |p| >= 4 * Ihl(p) then 1 else 0)
    requires forall k | 0 <= k < |sums| :: |sums[k]| == |lanes|
    requires forall k | 0 <= k < |done| :: SumIs(sums[k], done[k], skip)
    requires |p| >= 4 * Ihl(p) ==> SumIs(sums[|done|], p, skip)
    ensures SumRel(W, skip, Parsed(done, p), sums, lanes, wordCount, len)
  {
  }

  lemma SumDone(W: nat, skip: bool, done: seq<seq<Byte>>, p: seq<Byte>, sums: seq<seq<U16>>, z: seq<U16>, len: nat)
    requires Width(W) && 2 * |z| == W && Zero(z) && |p| > 0 && Ihl(p) >= 5 && |p| >= 4 * Ihl(p)
    requires forall k | 0 <= k < |done| :: Headed(done[k])
    requires |sums| == |done| + 1
    requires forall k | 0 <= k < |sums| :: |sums[k]| == |z|
    requires forall k | 0 <= k < |done| :: SumIs(sums[k], done[k], skip)
    requires SumIs(sums[|done|], p, skip)
    ensures SumRel(W, skip, Parsed(done + [p], []), sums, z, 0, len)
  {
    hide SumIs, Counters, Ihl;
    assert Headed(p);
  }

  ghost predicate SumInv(W: nat, skip: bool, taken: seq<Word>, sums: seq<seq<U16>>, lanes: seq<U16>, wordCount: nat, len: nat) {
    AllFramed(taken, W) && SumRel(W, skip, Parse(taken, W), sums, lanes, wordCount, len)
  }

  /** The header length is looked at in the first word only. */
  lemma PlanOfOpen(W: nat, skip: bool, open: seq<Byte>, sums: seq<seq<U16>>, lanes: seq<U16>, wordCount: nat, len: nat, cur: Word)
    requires SumRel(W, skip, Parsed([], open), sums, lanes, wordCount, len) && Framed(cur, W)
    requires |cur.data| == |cur.keep| == W && Continues(Parsed([], open), cur)
    ensures |open + Bytes(cur)| > 0
    ensures PlanFor(W, wordCount, cur.data[0] % 16, len, skip) == PlanFor(W, wordCount, Ihl(open + Bytes(cur)), len, skip)
  {
    var p := open + Bytes(cur);
    if open != [] {
      assert p[0] == open[0];
      hide Framed, SumIs;
      assert wordCount > 0;
    }
  }

  // ----- whatever arrives -----

  function Flattened(groups: seq<seq<seq<U16>>>): seq<seq<U16>> {
    if |groups| == 0 then [] else Flattened(groups[..|groups|-1]) + groups[|groups|-1]
  }

  /** For a packet with a proper header, one set of lanes, that folds to the header's sum. */
  ghost predicate GroupOk(p: seq<Byte>, group: seq<seq<U16>>, skip: bool, n: nat) {
    Headed(p) ==> |group| == 1 && |group[0]| == n && SumIs(group[0], p, skip)
  }

  /** What has been passed on of the open packet; nothing is said once its header length is improper. */
  ghost predicate OpenOk(W: nat, skip: bool, open: seq<Byte>, current: seq<seq<U16>>, lanes: seq<U16>, wordCount: nat, len: nat) {
    && 2 * |lanes| == W && (open == [] ==> current == [])
    && ((open != [] && Ihl(open) < 5) || SumRel(W, skip, Parsed([], open), current, lanes, wordCount, len))
  }

  /** Every packet by itself, whatever the others are like. */
  ghost predicate SumGroups(W: nat, skip: bool, t: Parsed, groups: seq<seq<seq<U16>>>, current: seq<seq<U16>>,
                            lanes: seq<U16>, wordCount: nat, len: nat) {
    && |groups| == |t.done| && (forall k | 0 <= k < |groups| :: GroupOk(t.done[k], groups[k], skip, |lanes|))
    && OpenOk(W, skip, t.open, current, lanes, wordCount, len)
  }

  ghost predicate SumValid(W: nat, skip: bool, taken: seq<Word>, sums: seq<seq<U16>>, lanes: seq<U16>, wordCount: nat, len: nat) {
    && Width(W) && 2 * |lanes| == W && AllFramed(taken, W)
    && exists groups: seq<seq<seq<U16>>>, current: seq<seq<U16>> ::
         SumGroups(W, skip, Parse(taken, W), groups, current, lanes, wordCount, len) && sums == Flattened(groups) + current
  }

  lemma StartOk(W: nat, skip: bool, z: seq<U16>, len: nat)
    requires Width(W) && 2 * |z| == W && Zero(z)
    ensures OpenOk(W, skip, [], [], z, 0, len)
  {
  }

  /** One word of the open packet, proper or not. */
  lemma OpenStep(W: nat, skip: bool, open: seq<Byte>, current: seq<seq<U16>>, lanes: seq<U16>, wordCount: nat, len: nat,
                 cur: Word, plan: Plan, lanes': seq<U16>)
    requires OpenOk(W, skip, open, current, lanes, wordCount, len) && Width(W) && Framed(cur, W)
    requires |cur.data| == |cur.keep| == W == 2 * |lanes| && Len(cur.keep) > 0
    requires plan == PlanFor(W, wordCount, cur.data[0] % 16, len, skip) && plan.limit <= |lanes| == |lanes'|
    requires forall i | 0 <= i < |lanes| :: lanes'[i] == Add(lanes[i], PlanWords(cur.data, plan, |lanes|)[i])
    ensures var p, current' := open + Bytes(cur), if plan.emit then current + [lanes'] else current;
      && (!cur.last ==> OpenOk(W, skip, p, current', lanes', NextCount(W, wordCount), plan.len))
      && (cur.last ==> GroupOk(p, current', skip, |lanes|))
  {
    var p := open + Bytes(cur);
    assert open != [] ==> p[0] == open[0];
    if !(open != [] && Ihl(open) < 5) && Continues(Parsed([], open), cur) {
      ProperStep(W, skip, open, current, lanes, wordCount, len, cur, plan, lanes');
    } else {
      assert Ihl(p) < 5 || (cur.last && |p| < 4 * Ihl(p));
    }
    hide SumRel, SumIs, Framed, Add, PlanWords, PlanFor, NextCount;
  }

  lemma ProperStep(W: nat, skip: bool, open: seq<Byte>, current: seq<seq<U16>>, lanes: seq<U16>, wordCount: nat, len: nat,
                   cur: Word, plan: Plan, lanes': seq<U16>)
    requires SumRel(W, skip, Parsed([], open), current, lanes, wordCount, len) && Framed(cur, W) && Continues(Parsed([], open), cur)
    requires |cur.data| == |cur.keep| == W == 2 * |lanes| && Len(cur.keep) > 0 && (open == [] ==> current == [])
    requires plan == PlanFor(W, wordCount, cur.data[0] % 16, len, skip) && plan.limit <= |lanes| == |lanes'|
    requires forall i | 0 <= i < |lanes| :: lanes'[i] == Add(lanes[i], PlanWords(cur.data, plan, |lanes|)[i])
    ensures var p, current' := open + Bytes(cur), if plan.emit then current + [lanes'] else current;
      && (!cur.last ==> p != [] && OpenOk(W, skip, p, current', lanes', NextCount(W, wordCount), plan.len))
      && (cur.last ==> GroupOk(p, current', skip, |lanes|))
  {
    hide SumRel, SumIs, Framed, Add, PlanWords, PlanFor, Continues, NextCount, Zero;
    PlanOfOpen(W, skip, open, current, lanes, wordCount, len, cur);
    SumStep(W, skip, Parsed([], open), current, lanes, wordCount, len, cur, plan, PlanWords(cur.data, plan, |lanes|), lanes');
    if cur.last {
      var z: seq<U16> := seq(|lanes|, _ => 0);
      AllZero(z);
      assert [] + [open + Bytes(cur)] == [open + Bytes(cur)];
      OneDone(W, skip, open + Bytes(cur), if plan.emit then current + [lanes'] else current, z, plan.len);
    }
  }

  lemma AllZero(z: seq<U16>)
    requires forall i | 0 <= i < |z| :: z[i] == 0
    ensures Zero(z)
  {
  }

  lemma OneDone(W: nat, skip: bool, p: seq<Byte>, sums: seq<seq<U16>>, z: seq<U16>, len: nat)
    requires SumRel(W, skip, Parsed([p], []), sums, z, 0, len)
    ensures GroupOk(p, sums, skip, |z|)
  {
    hide SumIs, Headed;
    assert [p][0] == p;
  }

  lemma FlattenedMore(groups: seq<seq<seq<U16>>>, group: seq<seq<U16>>)
    ensures Flattened(groups + [group]) == Flattened(groups) + group
  {
    assert (groups + [group])[..|groups|] == groups;
  }

  lemma WidthOf(W: nat, skip: bool, taken: seq<Word>, sums: seq<seq<U16>>, lanes: seq<U16>, wordCount: nat, len: nat)
    requires SumValid(W, skip, taken, sums, lanes, wordCount, len)
    ensures Width(W)
  {
  }

  lemma PlanFits(W: nat, wordCount: nat, ihl: nat, len: nat, skip: bool)
    requires Width(W) && ihl < 16
    ensures 2 * PlanFor(W, wordCount, ihl, len, skip).limit <= W
  {
  }

  lemma GroupsStep(W: nat, skip: bool, t: Parsed, groups: seq<seq<seq<U16>>>, current: seq<seq<U16>>, lanes: seq<U16>, wordCount: nat, len: nat,
                   cur: Word, plan: Plan, lanes': seq<U16>, z: seq<U16>) returns (groups': seq<seq<seq<U16>>>, current': seq<seq<U16>>)
    requires SumGroups(W, skip, t, groups, current, lanes, wordCount, len) && Width(W) && Framed(cur, W)
    requires |cur.data| == |cur.keep| == W == 2 * |lanes| && Len(cur.keep) > 0
    requires plan == PlanFor(W, wordCount, cur.data[0] % 16, len, skip) && plan.limit <= |lanes| == |lanes'|
    requires forall i | 0 <= i < |lanes| :: lanes'[i] == Add(lanes[i], PlanWords(cur.data, plan, |lanes|)[i])
    requires |z| == |lanes| && if cur.last then Zero(z) else z == lanes'
    ensures SumGroups(W, skip, Next(t, cur), groups', current', z, if cur.last then 0 else NextCount(W, wordCount), plan.len)
    ensures Flattened(groups') + current' == Flattened(groups) + current + (if plan.emit then [lanes'] else [])
  {
    hide Framed, Add, PlanWords, PlanFor, OpenOk, Zero, NextCount, GroupOk, Flattened;
    OpenStep(W, skip, t.open, current, lanes, wordCount, len, cur, plan, lanes');
    var now := if plan.emit then current + [lanes'] else current;
    groups', current' := groups, now;
    if cur.last {
      StartOk(W, skip, z, plan.len);
      FlattenedMore(groups, now);
      groups', current' := groups + [now], [];
    }
  }

  lemma SumValidWord(W: nat, skip: bool, taken: seq<Word>, sums: seq<seq<U16>>, lanes: seq<U16>, wordCount: nat, len: nat,
                     cur: Word, plan: Plan, lanes': seq<U16>, z: seq<U16>)
    requires SumValid(W, skip, taken, sums, lanes, wordCount, len) && Framed(cur, W)
    requires |cur.data| == |cur.keep| == W == 2 * |lanes| && Len(cur.keep) > 0
    requires plan == PlanFor(W, wordCount, cur.data[0] % 16, len, skip) && plan.limit <= |lanes| == |lanes'|
    requires forall i | 0 <= i < |lanes| :: lanes'[i] == Add(lanes[i], PlanWords(cur.data, plan, |lanes|)[i])
    requires |z| == |lanes| && if cur.last then Zero(z) else z == lanes'
    ensures SumValid(W, skip, taken + [cur], if plan.emit then sums + [lanes'] else sums, z,
                     if cur.last then 0 else NextCount(W, wordCount), plan.len)
  {
    hide SumGroups, AllFramed, Framed, Add, PlanWords, PlanFor, Zero, NextCount, Next, Flattened;
    var t := Parse(taken, W);
    var groups, current :| SumGroups(W, skip, t, groups, current, lanes, wordCount, len) && sums == Flattened(groups) + current;
    var groups', current' := GroupsStep(W, skip, t, groups, current, lanes, wordCount, len, cur, plan, lanes', z);
    ParseSnoc(taken, cur, W);
    assert plan.emit || sums + [] == sums;
  }

  /** With a proper header in every packet there is one set of lanes per header, that folds to its sum. */
  lemma HeadedAreSummed(W: nat, skip: bool, taken: seq<Word>, sums: seq<seq<U16>>, lanes: seq<U16>, wordCount: nat, len: nat)
    requires SumValid(W, skip, taken, sums, lanes, wordCount, len)
    requires AllFramed(taken, W) && Parse(taken, W).open == []
    requires forall k | 0 <= k < |Parse(taken, W).done| :: Headed(Parse(taken, W).done[k])
    ensures SumInv(W, skip, taken, sums, lanes, 0, len)
  {
    hide Headed, SumIs, Zero;
    var t := Parse(taken, W);
    var groups, current :| SumGroups(W, skip, t, groups, current, lanes, wordCount, len) && sums == Flattened(groups) + current;
    FlattenedSingles(groups);
    assert sums == Flattened(groups);
  }

  lemma {:induction false} FlattenedSingles(groups: seq<seq<seq<U16>>>)
    requires forall k | 0 <= k < |groups| :: |groups[k]| == 1
    ensures |Flattened(groups)| == |groups| && forall k | 0 <= k < |groups| :: Flattened(groups)[k] == groups[k][0]
  {
    if |groups| > 0 { FlattenedSingles(groups[..|groups|-1]); }
  }

  class IpChecksum {
    const W: nat
    const skipChecksum: bool
    const lanes: array<U16>
    var headerLen: nat
    var wordCount: nat
    ghost var taken: seq<Word>
    ghost var sums: seq<seq<U16>>

    ghost predicate Valid()
      reads this, lanes
    {
      2 * lanes.Length == W && SumValid(W, skipChecksum, taken, sums, lanes[..], wordCount, headerLen)
    }

    constructor (W: nat, skipChecksum: bool)
      requires Width(W)
      ensures Valid() && this.W == W && this.skipChecksum == skipChecksum && taken == [] && sums == [] && fresh(lanes)
    {
      this.W, this.skipChecksum, headerLen, wordCount := W, skipChecksum, 0, 0;
      lanes := new U16[W / 2](_ => 0);
      taken, sums := [], [];
      new;
      StartOk(W, skipChecksum, lanes[..], 0);
      assert SumGroups(W, skipChecksum, Parsed([], []), [], [], lanes[..], 0, 0) && Flattened([]) + [] == sums;
    }

    method AddLanes(data: seq<Byte>, plan: Plan)
      requires |data| == 2 * lanes.Length && plan.limit <= lanes.Length
      modifies lanes
      ensures forall i | 0 <= i < lanes.Length :: lanes[i] == Add(old(lanes[i]), PlanWords(data, plan, lanes.Length)[i])
    {
      for i := 0 to plan.limit
        invariant forall k | 0 <= k < i :: lanes[k] == Add(old(lanes[k]), PlanWords(data, plan, lanes.Length)[k])
        invariant forall k | i <= k < lanes.Length :: lanes[k] == old(lanes[k])
      {
        if i != plan.skip {
          lanes[i] := Add(lanes[i], Pair(data, i));
        }
      }
    }

    /** One word summed up. */
    method Sum(currWord: Word) returns (subSums: seq<seq<U16>>)
      requires Valid() && Framed(currWord, W) && Len(currWord.keep) > 0 && |currWord.data| == |currWord.keep| == W
      modifies this, lanes
      ensures Valid()
      ensures taken == old(taken) + [currWord] && sums == old(sums) + subSums
    {
      hide SumValid, Framed, Len, Add, PlanFor, PlanWords, Zero, NextCount;
      WidthOf(W, skipChecksum, taken, sums, lanes[..], wordCount, headerLen);
      subSums := [];
      ghost var before, ihl := lanes[..], currWord.data[0] as int % 16;
      PlanFits(W, wordCount, ihl, headerLen, skipChecksum);
      var plan := PlanFor(W, wordCount, currWord.data[0] % 16, headerLen, skipChecksum);
      AddLanes(currWord.data, plan);
      ghost var after := lanes[..];
      if plan.emit {
        subSums := [lanes[..]];
      }
      if currWord.last {
        Clear(lanes);
      }
      SumValidWord(W, skipChecksum, taken, sums, before, wordCount, headerLen, currWord, plan, after, lanes[..]);
      headerLen := plan.len;
      wordCount := if currWord.last then 0 else NextCount(W, wordCount);
      taken := taken + [currWord];
      assert subSums == [] ==> sums + subSums == sums;
      sums := sums + subSums;
    }

    method Step(input: seq<Word>) returns (rest: seq<Word>, output: seq<Word>, subSums: seq<seq<U16>>)
      requires Valid() && AllFramed(input, W) && Filled(input)
      modifies this, lanes
      ensures Valid()
      ensures old(taken) + input == taken + rest && taken == old(taken) + output && sums == old(sums) + subSums
      ensures rest == if |input| == 0 then input else input[1..]
    {
      hide SumValid, Framed, AllFramed;
      rest, output, subSums := input, [], [];
      if |input| > 0 {
        var currWord := input[0];
        rest, output := input[1..], [currWord];
        FirstFramed(input, W);
        FramedShape(currWord, W);
        subSums := Sum(currWord);
        assert input == [currWord] + rest;
      } else {
        assert taken + [] == taken && sums + [] == sums;
      }
    }
  }
}
