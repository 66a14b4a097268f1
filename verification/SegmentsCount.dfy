/**
 * Both ends agree on the number of packets of a read: the responses are that many,
 * with consecutive PSNs, and accepting them acknowledges exactly the read.
 */
module SegmentsCount {
  import opened Psn
  import opened Transport
  import opened TransportSafety
  import opened Segments

  lemma NumPkgSteps(length: nat, pmtu: int)
    requires pmtu > 0
    ensures length > pmtu ==> NumPkg(length, pmtu) == 1 + NumPkg(length - pmtu, pmtu)
    ensures 0 < length <= pmtu ==> NumPkg(length, pmtu) == 1
  {
    if length > pmtu {
      DivStep(length - 1, pmtu);
    } else if length > 0 {
      DivStep(length - 1, pmtu);
      DivSmall(length - 1, pmtu);
    }
  }

  lemma DivStep(x: nat, d: int)
    requires d > 0
    ensures (x + d) / d == x / d + 1
  {
    var q, r := x / d, x % d;
    assert x == q * d + r;
    assert x + d == (q + 1) * d + r;
    DivUnique(x + d, d, q + 1, r);
  }

  lemma MulMonotonic(a: int, b: int, d: int)
    requires a <= b && d >= 0
    ensures a * d <= b * d
  {
    assert b * d - a * d == (b - a) * d;
  }

  lemma DivUnique(x: nat, d: int, q: int, r: int)
    requires d > 0 && x == q * d + r && 0 <= r < d
    ensures x / d == q
  {
    var q' := x / d;
    assert x == q' * d + x % d;
    if q' < q {
      MulMonotonic(q' + 1, q, d);
    } else if q < q' {
      MulMonotonic(q + 1, q', d);
    }
  }

  lemma DivSmall(x: nat, d: int)
    requires x < d
    ensures x / d == 0
  {
  }

  /** The 22-bit packet count fits every 32-bit read length exactly when the PMTU is at least 1025. */
  lemma NumPkgFitsIff(pmtu: int)
    requires pmtu > 0
    ensures (forall length: nat | length < LENGTHS :: NumPkg(length, pmtu) < 0x40_0000) <==> pmtu >= 1025
  {
    if pmtu >= 1025 {
      forall length: nat | length < LENGTHS
        ensures NumPkg(length, pmtu) < 0x40_0000
      {
        var q, x := NumPkg(length, pmtu), length + (pmtu - 1);
        assert x == q * pmtu + x % pmtu;
        if q >= 0x40_0000 {
          MulMonotonic(0x40_0000, q, pmtu);
        }
      }
    } else {
      var length, q := LENGTHS - 1, NumPkg(LENGTHS - 1, pmtu);
      var x := length + (pmtu - 1);
      assert x == q * pmtu + x % pmtu;
      if q < 0x40_0000 {
        MulMonotonic(q, 0x40_0000 - 1, pmtu);
      }
      assert q >= 0x40_0000;
    }
  }

  // ----- the responses to a read -----

  function TotalLength(es: seq<TxEvent>): nat {
    if |es| == 0 then 0 else es[0].length + TotalLength(es[1..])
  }

  /** ONLY, or FIRST MIDDLE* LAST; all but the last of them full. */
  predicate ResponseShape(es: seq<TxEvent>, pmtu: int) {
    && |es| > 0
    && (|es| == 1 ==> es[0].op == ReadRespOnly)
    && (forall i | 0 <= i < |es| - 1 :: es[i].length == pmtu)
    && (|es| > 1 ==>
          && es[0].op == ReadRespFirst && es[|es|-1].op == ReadRespLast
          && forall i | 0 < i < |es| - 1 :: es[i].op == ReadRespMiddle)
  }

  predicate NumberedFrom(es: seq<TxEvent>, psn: Psn) {
    forall i | 0 <= i < |es| :: es[i].psn == Add(psn, i) && es[i].validPsn
  }

  lemma NumberedCons(e: TxEvent, es: seq<TxEvent>, psn: Psn)
    requires e.psn == psn && e.validPsn && NumberedFrom(es, Add(psn, 1))
    ensures NumberedFrom([e] + es, psn)
  {
    hide Add;
    forall i | 0 <= i < |es| + 1
      ensures ([e] + es)[i].psn == Add(psn, i) && ([e] + es)[i].validPsn
    {
      if i == 0 {
        AddZero(psn);
      } else {
        AddAdd(psn, 1, i - 1);
        assert ([e] + es)[i] == es[i-1];
      }
    }
  }

  lemma {:induction false} RestOfReadCount(r: ReadRequestMeta, pmtu: int)
    requires pmtu > 0 && r.length > 0
    ensures var es := RestOfRead(r, pmtu);
      && |es| == NumPkg(r.length, pmtu)
      && NumberedFrom(es, r.psn)
      && TotalLength(es) == r.length
      && (forall i | 0 <= i < |es| - 1 :: es[i].length == pmtu && es[i].op == ReadRespMiddle)
      && es[|es|-1].op == ReadRespLast && 0 < es[|es|-1].length <= pmtu
    decreases r.length
  {
    hide NumPkg, NumberedFrom, Add;
    var es := RestOfRead(r, pmtu);
    NumPkgSteps(r.length, pmtu);
    if r.length > pmtu {
      var r' := NextRead(r, pmtu);
      RestOfReadCount(r', pmtu);
      assert es == [es[0]] + RestOfRead(r', pmtu);
      NumberedCons(es[0], RestOfRead(r', pmtu), r.psn);
    } else {
      assert es == [es[0]] + [] && es[1..] == [];
      NothingNumbered(Add(r.psn, 1));
      NumberedCons(es[0], [], r.psn);
    }
  }

  lemma NothingNumbered(psn: Psn)
    ensures NumberedFrom([], psn)
  {
  }

  /** A read of any nonzero length is answered by as many responses as both sides count, numbered on from the request. */
  lemma ResponsesMatchCount(r: ReadRequestMeta, pmtu: int)
    requires pmtu > 0 && r.length > 0
    ensures var es := ResponsesTo(r, pmtu);
      && |es| == NumPkg(r.length, pmtu)
      && NumberedFrom(es, r.psn)
      && ResponseShape(es, pmtu)
      && TotalLength(es) == r.length
  {
    hide NumPkg, NumberedFrom, Add;
    var es := ResponsesTo(r, pmtu);
    NumPkgSteps(r.length, pmtu);
    if r.length > pmtu {
      var r' := NextRead(r, pmtu);
      RestOfReadCount(r', pmtu);
      assert es == [es[0]] + RestOfRead(r', pmtu);
      NumberedCons(es[0], RestOfRead(r', pmtu), r.psn);
    } else {
      assert es == [es[0]] + [] && es[1..] == [];
      NothingNumbered(Add(r.psn, 1));
      NumberedCons(es[0], [], r.psn);
    }
  }

  // ----- the requester accepts them -----

  /** What the requester's header parsers report about a response. */
  function AsPacket(e: TxEvent): Packet {
    Packet(e.op, e.qp, e.psn, false, 1)
  }

  /** The requester's entry after the responses, in order. */
  function Accepting(s: StateEntry, es: seq<TxEvent>): StateEntry {
    if |es| == 0 then s
    else
      var s' := Accepting(s, es[..|es|-1]);
      Effect(s', Verdicts(s', AsPacket(es[|es|-1])))
  }

  predicate AllResponses(es: seq<TxEvent>) {
    forall i | 0 <= i < |es| :: IsResponse(es[i].op)
  }

  lemma {:induction false} ResponsesAccepted(s: StateEntry, es: seq<TxEvent>)
    requires NumberedFrom(es, s.reqOldUnack) && AllResponses(es)
    ensures Accepting(s, es) == s.(reqOldUnack := Add(s.reqOldUnack, |es|))
    ensures forall i | 0 <= i < |es| :: Accepted(Accepting(s, es[..i]), AsPacket(es[i]))
    decreases |es|
  {
    hide Add, Effect, Verdicts, Accepted;
    var n := |es| - 1;
    if |es| == 0 {
      AddZero(s.reqOldUnack);
    } else {
      ResponsesAccepted(s, es[..n]);
      OneResponse(Accepting(s, es[..n]), es[n]);
      AddAdd(s.reqOldUnack, n, 1);
      forall i | 0 <= i < |es|
        ensures Accepted(Accepting(s, es[..i]), AsPacket(es[i]))
      {
        if i < n { assert es[..n][..i] == es[..i]; }
      }
    }
  }

  lemma OneResponse(s: StateEntry, e: TxEvent)
    requires IsResponse(e.op) && e.psn == s.reqOldUnack
    ensures Accepted(s, AsPacket(e))
    ensures Effect(s, Verdicts(s, AsPacket(e))) == s.(reqOldUnack := Add(e.psn, 1))
  {
  }

  /**
   * Accepting all responses to the oldest outstanding read moves the oldest
   * unacknowledged PSN to the PSN the requester assigned after that read.
   */
  lemma ReadIsAcknowledged(s: StateEntry, r: ReadRequestMeta, pmtu: int)
    requires pmtu > 0 && r.length > 0 && r.psn == s.reqOldUnack
    ensures var es := ResponsesTo(r, pmtu);
      && (forall i | 0 <= i < |es| :: Accepted(Accepting(s, es[..i]), AsPacket(es[i])))
      && Accepting(s, es) == s.(reqOldUnack := Add(r.psn, NumPkg(r.length, pmtu)))
  {
    hide Add, NumPkg, NumberedFrom;
    ResponsesMatchCount(r, pmtu);
    var es := ResponsesTo(r, pmtu);
    assert AllResponses(es);
    ResponsesAccepted(s, es);
  }
}
