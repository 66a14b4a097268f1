/**
 * Sums in parallel lanes, and two_complement_subchecksums, which sums the words of a
 * whole packet.
 */
module ChecksumUnit {
  import opened Streams
  import opened Checksum

  // ----- lanes -----

  predicate Zero(lanes: seq<U16>) {
    forall i | 0 <= i < |lanes| :: lanes[i] == 0
  }

  lemma {:induction false} ZeroTotal(lanes: seq<U16>)
    requires Zero(lanes)
    ensures Total(lanes) == 0
  {
    if |lanes| > 0 { ZeroTotal(lanes[..|lanes|-1]); }
  }

  /** Words added lane by lane add their total. */
  lemma LanesAdded(a: seq<U16>, ws: seq<U16>, r: seq<U16>, total: nat)
    requires |a| == |ws| == |r| && (forall i | 0 <= i < |r| :: r[i] == Add(a[i], ws[i]))
    requires Canon(Total(a)) == Canon(total)
    ensures Canon(Total(r)) == Canon(total + Total(ws))
  {
    hide Canon, Add, Total;
    HalvedSums(a, ws, r);
    CanonPlus(Total(a), Total(ws));
    CanonPlus(total, Total(ws));
  }

  method Clear(lanes: array<U16>)
    modifies lanes
    ensures Zero(lanes[..])
  {
    for i := 0 to lanes.Length
      invariant forall k | 0 <= k < i :: lanes[k] == 0
    {
      lanes[i] := 0;
    }
  }

  // ----- two_complement_subchecksums -----

  /** One set of lanes for every packet taken, that folds to the packet's sum; between packets the lanes are zero. */
  ghost predicate SubRel(W: nat, t: Parsed, lanes: seq<U16>, sums: seq<seq<U16>>) {
    && |t.open| % 2 == 0 && 2 * |lanes| == W
    && |sums| == |t.done|
    && (forall k | 0 <= k < |sums| :: |sums[k]| == |lanes| && Canon(Total(sums[k])) == OnesSum(Words16(t.done[k])))
    && Canon(Total(lanes)) == Canon(Total(Words16(t.open)))
    && (t.open == [] ==> Zero(lanes))
  }

  lemma SubStep(W: nat, t: Parsed, lanes: seq<U16>, sums: seq<seq<U16>>, cur: Word, lanes': seq<U16>)
    requires SubRel(W, t, lanes, sums) && Framed(cur, W) && Len(cur.keep) > 0
    requires |lanes'| == |lanes| && |cur.data| == |cur.keep| == W
    requires forall i | 0 <= i < |lanes| :: lanes'[i] == Add(lanes[i], LaneWord(cur, i))
    ensures !cur.last ==> SubRel(W, Next(t, cur), lanes', sums)
    ensures cur.last ==> forall z | |z| == |lanes| && Zero(z) :: SubRel(W, Next(t, cur), z, sums + [lanes'])
  {
    hide Framed, Canon, OnesSum, Words16, Total;
    var n := |lanes|;
    LanesAreWords(cur, W, n);
    assert cur.data[..Within(cur, n)] == Bytes(cur);
    Words16Concat(t.open, Bytes(cur));
    TotalConcat(Words16(t.open), Words16(Bytes(cur)));
    LanesAdded(lanes, LaneWords(cur, n), lanes', Total(Words16(t.open)));
    var p := t.open + Bytes(cur);
    if cur.last {
      OnesSumIsCanon(Words16(p));
      forall z | |z| == |lanes| && Zero(z)
        ensures SubRel(W, Next(t, cur), z, sums + [lanes'])
      {
        ZeroTotal(z);
        NoWords();
      }
    } else {
      FramedShape(cur, W);
    }
  }

  ghost predicate SubInv(W: nat, taken: seq<Word>, lanes: seq<U16>, sums: seq<seq<U16>>) {
    AllFramed(taken, W) && SubRel(W, Parse(taken, W), lanes, sums)
  }

  lemma SubWord(W: nat, taken: seq<Word>, lanes: seq<U16>, sums: seq<seq<U16>>, cur: Word, lanes': seq<U16>)
    requires SubInv(W, taken, lanes, sums) && Framed(cur, W) && Len(cur.keep) > 0
    requires |lanes'| == |lanes| && |cur.data| == |cur.keep| == W == 2 * |lanes|
    requires forall i | 0 <= i < |lanes| :: lanes'[i] == Add(lanes[i], LaneWord(cur, i))
    ensures !cur.last ==> SubInv(W, taken + [cur], lanes', sums)
    ensures cur.last ==> forall z | |z| == |lanes| && Zero(z) :: SubInv(W, taken + [cur], z, sums + [lanes'])
  {
    hide SubRel, AllFramed, Framed, Add, LaneWord, Next;
    SubStep(W, Parse(taken, W), lanes, sums, cur, lanes');
    ParseSnoc(taken, cur, W);
  }

  lemma NoWords()
    ensures Total(Words16([])) == 0
  {
  }

  class Subchecksums {
    const W: nat
    const lanes: array<U16>
    ghost var taken: seq<Word>
    ghost var sums: seq<seq<U16>>

    ghost predicate Valid()
      reads this, lanes
    {
      2 * lanes.Length == W && SubInv(W, taken, lanes[..], sums)
    }

    constructor (W: nat)
      requires W % 2 == 0
      ensures Valid() && this.W == W && taken == [] && sums == [] && fresh(lanes)
    {
      this.W := W;
      lanes := new U16[W / 2](_ => 0);
      taken, sums := [], [];
      new;
      ZeroTotal(lanes[..]);
      NoWords();
    }

    method AddWord(w: Word)
      requires |w.data| == |w.keep| == W == 2 * lanes.Length
      modifies lanes
      ensures forall i | 0 <= i < lanes.Length :: lanes[i] == Add(old(lanes[i]), LaneWord(w, i))
    {
      for i := 0 to lanes.Length
        invariant forall k | 0 <= k < i :: lanes[k] == Add(old(lanes[k]), LaneWord(w, k))
        invariant forall k | i <= k < lanes.Length :: lanes[k] == old(lanes[k])
      {
        if w.keep[2 * i] && w.keep[2 * i + 1] {
          lanes[i] := Add(lanes[i], w.data[2 * i] as int * 256 + w.data[2 * i + 1] as int);
        } else if w.keep[2 * i] {
          lanes[i] := Add(lanes[i], w.data[2 * i] as int * 256);
        }
      }
    }

    method Step(input: seq<Word>) returns (rest: seq<Word>, output: seq<Word>, subSums: seq<seq<U16>>)
      requires Valid() && AllFramed(input, W) && Filled(input)
      modifies this, lanes
      ensures Valid()
      ensures old(taken) + input == taken + rest && taken == old(taken) + output && sums == old(sums) + subSums
      ensures rest == if |input| == 0 then input else input[1..]
    {
      hide SubInv, Framed, AllFramed, Add, LaneWord, Zero;
      rest, output, subSums := input, [], [];
      if |input| > 0 {
        var currWord := input[0];
        rest, output := input[1..], [currWord];
        FirstFramed(input, W);
        FramedShape(currWord, W);
        ghost var before := lanes[..];
        AddWord(currWord);
        SubWord(W, taken, before, sums, currWord, lanes[..]);
        if currWord.last {
          subSums := [lanes[..]];
          Clear(lanes);
        }
        taken := taken + [currWord];
        assert input == [currWord] + rest;
      }
      assert output == [] ==> taken == old(taken) + output;
      assert subSums == [] ==> sums + subSums == sums;
      sums := sums + subSums;
    }
  }
}
