/**
 * The Internet checksum of RFC 1071, summed in parallel lanes of 17 bits and folded
 * as a tree.
 */
module Checksum {
  import opened Streams

  // ----- the definition, section 2 of RFC 1071 -----

  /** One step of a lane: add, then the carry around the end; the sum fits in 17 bits. */
  function Add(a: U16, b: U16): U16 {
    var s := a as int + b as int;
    (s + s / 0x1_0000) % 0x1_0000
  }

  /** The one's complement sum, one 16-bit word after the other. */
  function OnesSum(ws: seq<U16>): U16 {
    if |ws| == 0 then 0 else Add(OnesSum(ws[..|ws|-1]), ws[|ws|-1])
  }

  /** The 16-bit words of some bytes, the last one padded with zero. */
  function Words16(b: seq<Byte>): (ws: seq<U16>) {
    if |b| == 0 then []
    else if |b| == 1 then [b[0] as int * 256]
    else [b[0] as int * 256 + b[1] as int] + Words16(b[2..])
  }

  // ----- what one's complement sums mean -----

  /** The value in 0..65535 that stands for n: 0 for 0 only, and otherwise 1..65535. */
  function Canon(n: nat): U16 {
    if n == 0 then 0 else (n - 1) % 0xFFFF + 1
  }

  function Total(ws: seq<U16>): nat {
    if |ws| == 0 then 0 else Total(ws[..|ws|-1]) + ws[|ws|-1] as int
  }

  lemma CanonIs(n: nat, c: int, k: int)
    requires n > 0 && 1 <= c <= 0xFFFF && n == c + 0xFFFF * k
    ensures Canon(n) == c
  {
  }

  lemma AddIsCanon(a: U16, b: U16)
    ensures Add(a, b) == Canon(a as int + b as int)
  {
  }

  lemma CanonPlus(m: nat, n: nat)
    ensures Canon(Canon(m) as int + n) == Canon(m + n)
  {
    if m > 0 {
      var k, s := (m - 1) / 0xFFFF, Canon(m) as int + n;
      assert m == Canon(m) as int + 0xFFFF * k;
      CanonIs(m + n, Canon(s) as int, (s - 1) / 0xFFFF + k);
    }
  }

  lemma CanonSum(m: nat, n: nat)
    ensures Canon(Canon(m) as int + Canon(n) as int) == Canon(m + n)
  {
    hide Canon;
    CanonPlus(m, Canon(n) as int);
    CanonPlus(n, m);
  }

  lemma CanonIdempotent(a: U16)
    ensures Canon(a as int) == a
  {
  }

  /** A sum is 65535 exactly when the total is a positive multiple of 65535. */
  lemma CanonFull(n: nat)
    ensures Canon(n) == 0xFFFF <==> n > 0 && n % 0xFFFF == 0
  {
  }

  lemma {:induction false} OnesSumIsCanon(ws: seq<U16>)
    ensures OnesSum(ws) == Canon(Total(ws))
  {
    if |ws| > 0 {
      var before, w := ws[..|ws|-1], ws[|ws|-1];
      OnesSumIsCanon(before);
      AddIsCanon(OnesSum(before), w);
      CanonPlus(Total(before), w as int);
    }
  }

  lemma {:induction false} TotalConcat(a: seq<U16>, b: seq<U16>)
    ensures Total(a + b) == Total(a) + Total(b)
  {
    if |b| == 0 {
      assert a + b == a;
    } else {
      var n := |b| - 1;
      TotalConcat(a, b[..n]);
      assert (a + b)[..|a| + n] == a + b[..n];
    }
  }

  lemma {:induction false} Words16Concat(a: seq<Byte>, b: seq<Byte>)
    requires |a| % 2 == 0
    ensures Words16(a + b) == Words16(a) + Words16(b)
  {
    if |a| == 0 {
      assert a + b == b;
    } else {
      assert |a| >= 2;
      Words16Concat(a[2..], b);
      assert (a + b)[2..] == a[2..] + b && (a + b)[0] == a[0] && (a + b)[1] == a[1];
    }
  }

  // ----- folding the lanes -----

  /** Lane i and lane i + n added, for the first n lanes. */
  ghost predicate Halved(s: seq<U16>, r: seq<U16>, n: nat) {
    |s| == 2 * n && |r| == n && forall i | 0 <= i < n :: r[i] == Add(s[i], s[i + n])
  }

  lemma {:induction false} HalvedSums(a: seq<U16>, b: seq<U16>, r: seq<U16>)
    requires |a| == |b| == |r| && forall i | 0 <= i < |r| :: r[i] == Add(a[i], b[i])
    ensures Canon(Total(r)) == Canon(Total(a) + Total(b))
  {
    if |r| > 0 {
      hide Canon, Add;
      var n := |r| - 1;
      HalvedSums(a[..n], b[..n], r[..n]);
      AddIsCanon(a[n], b[n]);
      var x, y := Total(a[..n]) + Total(b[..n]), a[n] as int + b[n] as int;
      CanonSum(Total(r[..n]), r[n] as int);
      CanonSum(x, y);
      CanonIdempotent(r[n]);
    }
  }

  /** Halving keeps the sum. */
  lemma HalvedKeeps(s: seq<U16>, r: seq<U16>, n: nat)
    requires Halved(s, r, n)
    ensures Canon(Total(r)) == Canon(Total(s))
  {
    hide Canon, Add, Total;
    assert s == s[..n] + s[n..];
    TotalConcat(s[..n], s[n..]);
    HalvedSums(s[..n], s[n..], r);
  }

  predicate Lanes(n: nat) {
    n == 4 || n == 8 || n == 16 || n == 32
  }

  /** One level of the tree, in place. */
  method Halve(sums: array<U16>, half: nat)
    requires 2 * half <= sums.Length
    modifies sums
    ensures Canon(Total(sums[..half])) == Canon(Total(old(sums[..2 * half])))
  {
    hide Canon, Total, Add;
    ghost var was := sums[..2 * half];
    var i := 0;
    while i < half
      invariant 0 <= i <= half
      invariant forall k | 0 <= k < i :: sums[k] == Add(was[k], was[k + half])
      invariant forall k | i <= k < 2 * half :: sums[k] == was[k]
    {
      sums[i] := Add(sums[i], sums[i + half]);
      i := i + 1;
    }
    HalvedKeeps(was, sums[..half], half);
  }

  /** The folds of check_ipv4_checksum and finalize_ipv4_checksum, in place: any number of lanes gives the total's sum. */
  method Fold(sums: array<U16>) returns (sum: U16)
    requires Lanes(sums.Length)
    modifies sums
    ensures sum == Canon(Total(old(sums[..])))
  {
    hide Canon, Total;
    ghost var all := sums[..];
    assert sums[..sums.Length] == all;
    if sums.Length >= 32 {
      Halve(sums, 16);
    }
    if sums.Length >= 16 {
      Halve(sums, 8);
    }
    if sums.Length >= 8 {
      Halve(sums, 4);
    }
    Halve(sums, 2);
    Halve(sums, 1);
    OneLane(sums[..1]);
    sum := sums[0];
  }

  lemma OneLane(s: seq<U16>)
    requires |s| == 1
    ensures Canon(Total(s)) == s[0]
  {
    assert s[..0] == [];
    CanonIdempotent(s[0]);
  }

  /** ~ in 16 bits. */
  function Complement(x: U16): U16 {
    0xFFFF - x
  }

  /** check_ipv4_checksum: accepts exactly when the total is nonzero and divisible by 65535. */
  method Check(sums: array<U16>) returns (ok: bool)
    requires Lanes(sums.Length)
    modifies sums
    ensures ok <==> Total(old(sums[..])) > 0 && Total(old(sums[..])) % 0xFFFF == 0
  {
    var sum := Fold(sums);
    CanonFull(Total(old(sums[..])));
    ok := Complement(sum) == 0;
  }

  /** finalize_ipv4_checksum */
  method Finalize(sums: array<U16>) returns (checksum: U16)
    requires Lanes(sums.Length)
    modifies sums
    ensures checksum == Complement(Canon(Total(old(sums[..]))))
  {
    var sum := Fold(sums);
    checksum := Complement(sum);
  }

  // ----- adding a word of the stream to the lanes -----

  /** What lane i adds of a word: a byte pair, a last single byte padded with zero, or nothing. */
  function LaneWord(w: Word, i: nat): U16
    requires 2 * i + 1 < |w.data| == |w.keep|
  {
    if w.keep[2 * i] && w.keep[2 * i + 1] then w.data[2 * i] as int * 256 + w.data[2 * i + 1] as int
    else if w.keep[2 * i] then w.data[2 * i] as int * 256
    else 0
  }

  /** The first n lanes' words. */
  function LaneWords(w: Word, n: nat): (ws: seq<U16>)
    requires 2 * n <= |w.data| == |w.keep|
    ensures |ws| == n && forall i | 0 <= i < n :: ws[i] == LaneWord(w, i)
  {
    if n == 0 then [] else LaneWords(w, n - 1) + [LaneWord(w, n - 1)]
  }

  /** The number of w's valid bytes in its first n lanes. */
  function Within(w: Word, n: nat): (m: nat)
    requires |w.data| == |w.keep|
    ensures m <= |w.data|
  {
    if Len(w.keep) <= 2 * n then Len(w.keep) else 2 * n
  }

  /** The words of the valid bytes of one bus word, padded, are what the lanes add. */
  lemma {:induction false} LanesAreWords(w: Word, W: nat, n: nat)
    requires Framed(w, W) && 2 * n <= W
    ensures |w.data| == |w.keep| == W
    ensures Total(LaneWords(w, n)) == Total(Words16(w.data[..Within(w, n)]))
  {
    FramedShape(w, W);
    if n > 0 {
      LanesAreWords(w, W, n - 1);
      LaneAddsWord(w, W, n - 1);
      hide Framed, LaneWord, Words16;
      assert LaneWords(w, n)[..n-1] == LaneWords(w, n - 1);
    }
  }

  lemma LaneAddsWord(w: Word, W: nat, i: nat)
    requires Framed(w, W) && 2 * i + 2 <= W
    ensures |w.data| == |w.keep| == W
    ensures Total(Words16(w.data[..Within(w, i + 1)])) == Total(Words16(w.data[..Within(w, i)])) + LaneWord(w, i) as int
  {
    FramedShape(w, W);
    KeepAt(w, W, 2 * i);
    KeepAt(w, W, 2 * i + 1);
    hide Framed, None, Words16, Total;
    if Len(w.keep) > 2 * i {
      var e := Within(w, i + 1);
      OneWord(w.data[2 * i..e], LaneWord(w, i));
      TakeMore(w.data, 2 * i, e);
    }
  }

  lemma TakeMore(b: seq<Byte>, m: nat, e: nat)
    requires m <= e <= |b| && m % 2 == 0
    ensures Total(Words16(b[..e])) == Total(Words16(b[..m])) + Total(Words16(b[m..e]))
  {
    assert b[..e] == b[..m] + b[m..e];
    Words16Concat(b[..m], b[m..e]);
    TotalConcat(Words16(b[..m]), Words16(b[m..e]));
  }

  lemma OneWord(x: seq<Byte>, v: U16)
    requires 1 <= |x| <= 2 && v == if |x| == 2 then x[0] as int * 256 + x[1] as int else x[0] as int * 256
    ensures Total(Words16(x)) == v
  {
    if |x| == 2 {
      assert x[2..] == [];
      assert Words16(x) == [v] + Words16([]);
    }
    assert Words16(x) == [v];
    assert [v][..0] == [];
  }
}
