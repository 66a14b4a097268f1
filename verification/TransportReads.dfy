/**
 * Which read requests the responder executes.  The oldest PSN of the duplicate test is
 * set with the connection and never moves, so the test compares positions within turns
 * of 2^24 PSNs counted from it: a read that is still ahead, but past the end of the
 * turn, is taken for a duplicate and executed before it is accepted.
 */
module TransportReads {
  import opened Psn
  import opened Transport
  import opened TransportSafety
  import opened TransportNetwork

  // ----- positions counted from the oldest PSN -----

  /** How far the expected PSN was from the oldest one at the start. */
  function Offset(r: Responder): nat {
    Dist(r.oldest, r.epsn)
  }

  /** Between the two positions, and not at the first, a turn ends. */
  predicate PastWrap(at: nat, w: nat) {
    at < w && at / PSN_SPACE < w / PSN_SPACE
  }

  lemma DistAdd(p: Psn, n: nat)
    ensures Dist(p, Add(p, n)) == n % PSN_SPACE
  {
    var m := n % PSN_SPACE;
    assert p + n == (p + m) + (n / PSN_SPACE) * PSN_SPACE;
    ModShift(p + m, n / PSN_SPACE);
    AddCases(p, m);
    DistCases(p, Add(p, m));
  }

  lemma AddDist(p: Psn, to: Psn)
    ensures Add(p, Dist(p, to)) == to
  {
    DistCases(p, to);
    AddCases(p, Dist(p, to));
  }

  /**
   * Of requests less than a turn away from the expected one, those taken for duplicates
   * are the ones behind it in the same turn, and the ones ahead of it in the next turn.
   */
  lemma DuplicateIff(oldest: Psn, at: nat, w: nat)
    requires -PSN_SPACE < w - at < PSN_SPACE
    ensures DuplicateTest(oldest, Add(oldest, at), Add(oldest, w))
      <==> (w < at && w / PSN_SPACE == at / PSN_SPACE) || PastWrap(at, w)
  {
    DuplicateTestIsWindow(oldest, Add(oldest, at), Add(oldest, w));
    DistAdd(oldest, at);
    DistAdd(oldest, w);
    hide Add, Dist, DuplicateTest;
    TurnsDiffer(at, w);
  }

  lemma TurnsDiffer(at: nat, w: nat)
    requires -PSN_SPACE < w - at < PSN_SPACE
    ensures w % PSN_SPACE < at % PSN_SPACE <==> (w < at && w / PSN_SPACE == at / PSN_SPACE) || PastWrap(at, w)
  {
  }

  // ----- one delivery -----

  predicate ReadOn(p: Packet, q: nat) {
    RequestOn(p, q) && IsReadRequest(p.op)
  }

  /** The i-th packet is a read request on q, and it is handed on to be executed. */
  predicate ForwardsReadAt(r: Responder, ps: seq<Packet>, q: nat, i: nat) {
    i < |ps| && ReadOn(ps[i], q) && |Judge(ps[i], Asked(Handled(r, ps[..i], q))).out.forwarded| > 0
  }

  /** The number of requests accepted among the first i packets. */
  function AcceptedOf(r: Responder, ps: seq<Packet>, which: seq<nat>, q: nat, i: nat): nat
    requires i <= |ps| == |which|
  {
    |AcceptedNumbers(r, ps[..i], which[..i], q)|
  }

  ghost predicate Admitted(r: Responder, ps: seq<Packet>, which: seq<nat>, hs: seq<Header>, q: nat) {
    && Consecutive(hs, r.epsn) && NoneEmpty(hs)
    && Delivers(ps, which, hs, q) && Near(r, ps, which, hs, q)
  }

  lemma AdmittedParts(r: Responder, ps: seq<Packet>, which: seq<nat>, hs: seq<Header>, q: nat)
    requires Admitted(r, ps, which, hs, q)
    ensures |which| == |ps| && NoneEmpty(hs)
  {
  }

  /** A read that arrives at position w while the one at position at is expected. */
  lemma ReadForwarded(r': Responder, oldest: Psn, p: Packet, q: nat, at: nat, w: nat)
    requires ReadOn(p, q) && !p.isNak && r'.oldest == oldest && r'.epsn == Add(oldest, at) && p.psn == Add(oldest, w)
    requires -PSN_SPACE < w - at < PSN_SPACE
    ensures |Judge(p, Asked(r')).out.forwarded| > 0
      <==> w == at || (w < at && w / PSN_SPACE == at / PSN_SPACE) || PastWrap(at, w)
  {
    DuplicateIff(oldest, at, w);
    SamePsnSamePosition(oldest, at, w);
    hide Add, DuplicateTest, PastWrap;
  }

  lemma {:induction false} OldestStays(r: Responder, ps: seq<Packet>, q: nat)
    ensures Handled(r, ps, q).oldest == r.oldest
  {
    if |ps| > 0 {
      OldestStays(r, ps[..|ps|-1], q);
      hide Judge;
    }
  }

  /** Expected and arriving PSN at one read of a delivery, as positions counted from the oldest PSN. */
  lemma AsPositions(r: Responder, ps: seq<Packet>, which: seq<nat>, hs: seq<Header>, q: nat, i: nat)
    requires Admitted(r, ps, which, hs, q) && i < |ps| && ReadOn(ps[i], q)
    ensures |which| == |ps| && which[i] < |hs| && AcceptedOf(r, ps, which, q, i) <= |hs| && !ps[i].isNak
    ensures var k, h := AcceptedOf(r, ps, which, q, i), Handled(r, ps[..i], q);
      && h.oldest == r.oldest && h.epsn == Add(r.oldest, Offset(r) + Pos(hs, k))
      && ps[i].psn == Add(r.oldest, Offset(r) + Pos(hs, which[i]))
      && -PSN_SPACE < Pos(hs, which[i]) - Pos(hs, k) < PSN_SPACE
  {
    hide *;
    DeliveredAt(r, ps, which, hs, q, i);
    ExpectedAt(r, ps, which, hs, q, i);
    OldestStays(r, ps[..i], q);
    FromOldest(r, Pos(hs, AcceptedOf(r, ps, which, q, i)));
    FromOldest(r, Pos(hs, which[i]));
  }

  lemma FromOldest(r: Responder, n: nat)
    ensures Add(r.epsn, n) == Add(r.oldest, Offset(r) + n)
  {
    AddDist(r.oldest, r.epsn);
    AddAdd(r.oldest, Offset(r), n);
  }

  lemma ExpectedAt(r: Responder, ps: seq<Packet>, which: seq<nat>, hs: seq<Header>, q: nat, i: nat)
    requires Admitted(r, ps, which, hs, q) && i <= |ps|
    ensures |which| == |ps| && AcceptedOf(r, ps, which, q, i) <= |hs|
    ensures Handled(r, ps[..i], q).epsn == Add(r.epsn, Pos(hs, AcceptedOf(r, ps, which, q, i)))
    ensures AcceptedLength(r, ps[..i], q) == Pos(hs, AcceptedOf(r, ps, which, q, i))
  {
    DeliversPrefix(r, ps, which, hs, q, i);
    SameLength(ps, which, hs, q);
    hide Add, Near, Delivers, Consecutive, NoneEmpty, Pos, AcceptedNumbers, AcceptedLength, Handled, Numbers;
    AcceptedInOrderOnce(r, ps[..i], which[..i], hs, q);
  }

  /** It is accepted if it is the next one. */
  lemma AcceptedIfNext(r: Responder, ps: seq<Packet>, which: seq<nat>, hs: seq<Header>, q: nat, i: nat)
    requires Admitted(r, ps, which, hs, q) && i < |ps| && ReadOn(ps[i], q)
    ensures |which| == |ps|
    ensures AcceptedOf(r, ps, which, q, i + 1)
      == AcceptedOf(r, ps, which, q, i) + (if which[i] == AcceptedOf(r, ps, which, q, i) then 1 else 0)
  {
    SameLength(ps, which, hs, q);
    assert ps[..i+1][..i] == ps[..i] && which[..i+1][..i] == which[..i] && ps[..i+1][i] == ps[i];
    DeliversPrefix(r, ps, which, hs, q, i);
    DeliversPrefix(r, ps, which, hs, q, i + 1);
    hide Add, Near, Delivers, Consecutive, NoneEmpty, Pos, AcceptedNumbers, AcceptedLength, Handled, Numbers, AcceptsLast;
    AcceptedInOrderOnce(r, ps[..i], which[..i], hs, q);
    NextOnly(r, ps[..i+1], which[..i+1], hs, q, AcceptedOf(r, ps, which, q, i));
    OneMoreAccepted(r, ps, which, q, i);
  }

  /** One read of a delivery: when it is executed, and whether it is accepted by then, in positions. */
  lemma ReadAt(r: Responder, ps: seq<Packet>, which: seq<nat>, hs: seq<Header>, q: nat, i: nat)
    requires Admitted(r, ps, which, hs, q) && i < |ps| && ReadOn(ps[i], q)
    ensures |which| == |ps| && which[i] < |hs| && AcceptedOf(r, ps, which, q, i) <= |hs|
    ensures var at, w := Offset(r) + Pos(hs, AcceptedOf(r, ps, which, q, i)), Offset(r) + Pos(hs, which[i]);
      && -PSN_SPACE < w - at < PSN_SPACE
      && (ForwardsReadAt(r, ps, q, i) <==> w == at || (w < at && w / PSN_SPACE == at / PSN_SPACE) || PastWrap(at, w))
      && (which[i] < AcceptedOf(r, ps, which, q, i + 1) <==> w <= at)
      && (at < w <==> AcceptedOf(r, ps, which, q, i) < which[i])
  {
    hide *;
    AsPositions(r, ps, which, hs, q, i);
    AcceptedIfNext(r, ps, which, hs, q, i);
    assert NoneEmpty(hs) by { AdmittedParts(r, ps, which, hs, q); }
    var k, w := AcceptedOf(r, ps, which, q, i), which[i];
    ReadForwarded(Handled(r, ps[..i], q), r.oldest, ps[i], q, Offset(r) + Pos(hs, k), Offset(r) + Pos(hs, w));
    ForwardsMeans(r, ps, q, i);
    PositionsOrdered(hs, k, w);
  }

  lemma ForwardsMeans(r: Responder, ps: seq<Packet>, q: nat, i: nat)
    requires i < |ps| && ReadOn(ps[i], q)
    ensures ForwardsReadAt(r, ps, q, i) <==> |Judge(ps[i], Asked(Handled(r, ps[..i], q))).out.forwarded| > 0
  {
  }

  lemma DeliveredAt(r: Responder, ps: seq<Packet>, which: seq<nat>, hs: seq<Header>, q: nat, i: nat)
    requires Admitted(r, ps, which, hs, q) && i < |ps| && ReadOn(ps[i], q)
    ensures |which| == |ps| && which[i] < |hs| && !ps[i].isNak && ps[i].psn == Add(r.epsn, Pos(hs, which[i]))
    ensures -PSN_SPACE < Pos(hs, which[i]) - AcceptedLength(r, ps[..i], q) < PSN_SPACE
  {
    hide Add, Pos, AcceptedLength;
    assert Copy(ps[i], hs[which[i]], q);
  }

  lemma OneMoreAccepted(r: Responder, ps: seq<Packet>, which: seq<nat>, q: nat, i: nat)
    requires i < |ps| == |which|
    ensures AcceptedOf(r, ps, which, q, i + 1)
      == AcceptedOf(r, ps, which, q, i) + (if AcceptsLast(r, ps[..i+1], q) then 1 else 0)
  {
    hide AcceptsLast;
    assert ps[..i+1][..i] == ps[..i] && which[..i+1][..i] == which[..i];
  }

  lemma PositionsOrdered(hs: seq<Header>, k: nat, w: nat)
    requires NoneEmpty(hs) && k <= |hs| && w <= |hs|
    ensures Pos(hs, w) <= Pos(hs, k) <==> w <= k
  {
    if w <= k { PosMonotonic(hs, w, k); } else { PosMonotonic(hs, k, w); }
  }

  /** No read arrives while it is ahead and past the end of a turn. */
  ghost predicate ReadsOnTime(r: Responder, ps: seq<Packet>, which: seq<nat>, hs: seq<Header>, q: nat) {
    |which| == |ps| && forall i | 0 <= i < |ps| && ReadOn(ps[i], q) :: OnTime(r, ps, which, hs, q, i)
  }

  ghost predicate OnTime(r: Responder, ps: seq<Packet>, which: seq<nat>, hs: seq<Header>, q: nat, i: nat)
    requires i < |ps| == |which|
  {
    var k := AcceptedOf(r, ps, which, q, i);
    k <= |hs| && which[i] <= |hs| && !PastWrap(Offset(r) + Pos(hs, k), Offset(r) + Pos(hs, which[i]))
  }

  /** A read is executed only when it is accepted, or has been before. */
  ghost predicate OnlyAcceptedRead(r: Responder, ps: seq<Packet>, which: seq<nat>, q: nat)
    requires |which| == |ps|
  {
    forall i: nat | ForwardsReadAt(r, ps, q, i) :: which[i] < AcceptedOf(r, ps, which, q, i + 1)
  }

  /** Every read executed has been accepted exactly if no read arrives while it is ahead and past the end of a turn. */
  lemma ForwardedAreAcceptedIff(r: Responder, ps: seq<Packet>, which: seq<nat>, hs: seq<Header>, q: nat)
    requires Admitted(r, ps, which, hs, q)
    ensures |which| == |ps|
    ensures OnlyAcceptedRead(r, ps, which, q) <==> ReadsOnTime(r, ps, which, hs, q)
  {
    SameLength(ps, which, hs, q);
    hide Admitted, ForwardsReadAt, AcceptedOf, OnTime, ReadOn;
    forall i: nat | i < |ps| && ReadOn(ps[i], q)
      ensures OnTime(r, ps, which, hs, q, i)
        <==> (ForwardsReadAt(r, ps, q, i) ==> which[i] < AcceptedOf(r, ps, which, q, i + 1))
    {
      OnTimeMeans(r, ps, which, hs, q, i);
    }
    ForwardedAreReads(r, ps, q);
  }

  lemma OnTimeMeans(r: Responder, ps: seq<Packet>, which: seq<nat>, hs: seq<Header>, q: nat, i: nat)
    requires Admitted(r, ps, which, hs, q) && i < |ps| && ReadOn(ps[i], q)
    ensures |which| == |ps|
    ensures OnTime(r, ps, which, hs, q, i)
      <==> (ForwardsReadAt(r, ps, q, i) ==> which[i] < AcceptedOf(r, ps, which, q, i + 1))
  {
    hide Admitted, ForwardsReadAt, AcceptedOf, Offset, Pos, PastWrap, ReadOn;
    ReadAt(r, ps, which, hs, q, i);
    NotAhead(Offset(r) + Pos(hs, AcceptedOf(r, ps, which, q, i)), Offset(r) + Pos(hs, which[i]));
  }

  lemma ForwardedAreReads(r: Responder, ps: seq<Packet>, q: nat)
    ensures forall i: nat | ForwardsReadAt(r, ps, q, i) :: i < |ps| && ReadOn(ps[i], q)
  {
  }

  // ----- all deliveries -----

  /** Request w is a read that follows within less than 2^24 PSNs on request k, of an earlier turn. */
  predicate RunsPast(hs: seq<Header>, offset: nat, k: nat, w: nat) {
    && k < w < |hs| && IsReadRequest(hs[w].meta.op) && Pos(hs, w) - Pos(hs, k) < PSN_SPACE
    && PastWrap(offset + Pos(hs, k), offset + Pos(hs, w))
  }

  ghost predicate NoReadPastWrap(hs: seq<Header>, offset: nat) {
    forall k: nat, w: nat :: !RunsPast(hs, offset, k, w)
  }

  /** Whatever the network does, a responder that starts like this executes only accepted reads. */
  ghost predicate NeverEarly(hs: seq<Header>, epsn: Psn, oldest: Psn, q: nat) {
    forall r: Responder, ps: seq<Packet>, which: seq<nat> |
      r.epsn == epsn && r.oldest == oldest && Delivers(ps, which, hs, q) && Near(r, ps, which, hs, q) ::
      OnlyAcceptedRead(r, ps, which, q)
  }

  /** If the reads issued stay within their turn, they arrive on time over every network. */
  lemma WithinTurnOnTime(r: Responder, ps: seq<Packet>, which: seq<nat>, hs: seq<Header>, q: nat)
    requires Admitted(r, ps, which, hs, q) && NoReadPastWrap(hs, Offset(r))
    ensures ReadsOnTime(r, ps, which, hs, q)
  {
    SameLength(ps, which, hs, q);
    hide Admitted, OnTime, NoReadPastWrap, ReadOn;
    forall i | 0 <= i < |ps| && ReadOn(ps[i], q)
      ensures OnTime(r, ps, which, hs, q, i)
    {
      OneOnTime(r, ps, which, hs, q, i);
    }
  }

  lemma OneOnTime(r: Responder, ps: seq<Packet>, which: seq<nat>, hs: seq<Header>, q: nat, i: nat)
    requires Admitted(r, ps, which, hs, q) && NoReadPastWrap(hs, Offset(r)) && i < |ps| && ReadOn(ps[i], q)
    ensures |which| == |ps| && OnTime(r, ps, which, hs, q, i)
  {
    hide Admitted, AcceptedOf, Offset, Pos, PastWrap, ForwardsReadAt, ReadOn;
    ReadAt(r, ps, which, hs, q, i);
    SameOp(r, ps, which, hs, q, i);
    var k, w := AcceptedOf(r, ps, which, q, i), which[i];
    NotAhead(Offset(r) + Pos(hs, k), Offset(r) + Pos(hs, w));
    assert !RunsPast(hs, Offset(r), k, w);
  }

  lemma NotAhead(at: nat, w: nat)
    ensures w <= at ==> !PastWrap(at, w)
  {
  }

  lemma SameOp(r: Responder, ps: seq<Packet>, which: seq<nat>, hs: seq<Header>, q: nat, i: nat)
    requires Admitted(r, ps, which, hs, q) && i < |ps| && ReadOn(ps[i], q)
    ensures |which| == |ps| && which[i] < |hs| && IsReadRequest(hs[which[i]].meta.op)
  {
    hide Add, Pos, AcceptedLength;
    assert Copy(ps[i], hs[which[i]], q);
  }

  /** The failing delivery: all requests before k, and then read w, which is past the end of the turn. */
  lemma EarlyReadExecuted(r: Responder, hs: seq<Header>, q: nat, k: nat, w: nat) returns (ps: seq<Packet>, which: seq<nat>)
    requires Consecutive(hs, r.epsn) && NoneEmpty(hs) && AllRequests(hs)
    requires RunsPast(hs, Offset(r), k, w)
    ensures Delivers(ps, which, hs, q) && Near(r, ps, which, hs, q)
    ensures |ps| == |which| == k + 1 && ps[k] == CopyOf(hs[w], q) && which[k] == w
    ensures AcceptedOf(r, ps, which, q, k) == AcceptedOf(r, ps, which, q, k + 1) == k
    ensures ForwardsReadAt(r, ps, q, k)
  {
    hide Numbers, Pos, AcceptedNumbers, AcceptedLength, Handled, Consecutive, NoneEmpty, PastWrap, Offset, Copies, CopyOf, Judge;
    var all := Copies(hs, q);
    ps, which := all[..k] + [CopyOf(hs[w], q)], Numbers(k) + [w];
    NumbersAre(k);
    DeliversCopies(hs, q, k, w, ps, which, r);
    assert ps[..k] == all[..k] && which[..k] == Numbers(k) && |ps| == k + 1;
    AllAccepted(r, hs, q, k);
    NextCopy(hs, q, r.epsn, w);
    IsRead(hs[w], q);
    assert Admitted(r, ps, which, hs, q);
    AcceptedOfFirst(r, ps, which, q, k);
    ReadAt(r, ps, which, hs, q, k);
    AcceptedIfNext(r, ps, which, hs, q, k);
  }

  lemma AcceptedOfFirst(r: Responder, ps: seq<Packet>, which: seq<nat>, q: nat, k: nat)
    requires k <= |ps| == |which| && AcceptedNumbers(r, ps[..k], which[..k], q) == Numbers(k)
    ensures AcceptedOf(r, ps, which, q, k) == k
  {
  }

  lemma IsRead(h: Header, q: nat)
    requires IsReadRequest(h.meta.op)
    ensures ReadOn(CopyOf(h, q), q)
  {
  }

  lemma DeliversCopies(hs: seq<Header>, q: nat, k: nat, w: nat, ps: seq<Packet>, which: seq<nat>, r: Responder)
    requires Consecutive(hs, r.epsn) && NoneEmpty(hs) && AllRequests(hs) && k < w < |hs|
    requires ps == Copies(hs, q)[..k] + [CopyOf(hs[w], q)] && which == Numbers(k) + [w]
    requires Pos(hs, w) - Pos(hs, k) < PSN_SPACE
    ensures |which| == |ps| && Delivers(ps, which, hs, q) && Near(r, ps, which, hs, q)
  {
    hide Pos, AcceptedNumbers, AcceptedLength, Handled, Consecutive, NoneEmpty;
    NumbersAre(k);
    assert forall i | 0 <= i < |ps| :: ps[i] == CopyOf(hs[which[i]], q);
    hide Numbers, CopyOf, Copies;
    forall i | 0 <= i < |ps| && RequestOn(ps[i], q)
      ensures -PSN_SPACE < Pos(hs, which[i]) - AcceptedLength(r, ps[..i], q) < PSN_SPACE
    {
      AllAccepted(r, hs, q, i);
      assert ps[..i] == Copies(hs, q)[..i];
      PositionsOrdered(hs, k, w);
    }
    assert Delivers(ps, which, hs, q) by { CopiesDeliver(ps, which, hs, q); }
  }

  lemma CopiesDeliver(ps: seq<Packet>, which: seq<nat>, hs: seq<Header>, q: nat)
    requires |which| == |ps| && forall i | 0 <= i < |ps| :: which[i] < |hs| && ps[i] == CopyOf(hs[which[i]], q)
    ensures Delivers(ps, which, hs, q)
  {
  }

  /** Over all networks only accepted reads are executed exactly if the reads issued stay within their turn. */
  lemma NeverEarlyIff(hs: seq<Header>, epsn: Psn, oldest: Psn, q: nat)
    requires Consecutive(hs, epsn) && NoneEmpty(hs) && AllRequests(hs)
    ensures NeverEarly(hs, epsn, oldest, q) <==> NoReadPastWrap(hs, Dist(oldest, epsn))
  {
    hide Consecutive, NoneEmpty, AllRequests, Delivers, Near, Pos, PastWrap, AcceptedOf, ForwardsReadAt, Dist;
    if NoReadPastWrap(hs, Dist(oldest, epsn)) {
      forall r: Responder, ps: seq<Packet>, which: seq<nat> |
        r.epsn == epsn && r.oldest == oldest && Delivers(ps, which, hs, q) && Near(r, ps, which, hs, q)
        ensures |which| == |ps| && OnlyAcceptedRead(r, ps, which, q)
      {
        WithinTurnOnTime(r, ps, which, hs, q);
        ForwardedAreAcceptedIff(r, ps, which, hs, q);
      }
    } else {
      var k: nat, w: nat :| RunsPast(hs, Dist(oldest, epsn), k, w);
      var r := Responder(epsn, oldest, 7);
      var ps, which := EarlyReadExecuted(r, hs, q, k, w);
      assert !OnlyAcceptedRead(r, ps, which, q);
    }
  }
}
