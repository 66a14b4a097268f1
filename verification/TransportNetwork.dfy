/**
 * Two nodes and a network that loses, repeats and reorders packets: the responder
 * accepts the requests in the order in which they were issued, each once.
 */
module TransportNetwork {
  import opened Psn
  import opened Transport
  import opened TransportSafety
  import opened TransportNode

  // ----- the requester's PSNs -----

  /** The number of PSNs taken up by the first i requests. */
  function Pos(hs: seq<Header>, i: nat): nat
    requires i <= |hs|
  {
    if i == 0 then 0 else Pos(hs, i - 1) + hs[i-1].meta.numPkg
  }

  predicate Consecutive(hs: seq<Header>, start: Psn) {
    forall i | 0 <= i < |hs| :: hs[i].psn == Add(start, Pos(hs, i))
  }

  function OnQp(hs: seq<Header>, r: nat): seq<Header> {
    if |hs| == 0 then []
    else
      var h := hs[|hs|-1];
      OnQp(hs[..|hs|-1], r) + (if h.meta.qp == r then [h] else [])
  }

  lemma {:induction false} PosPrefix(hs: seq<Header>, more: seq<Header>, i: nat)
    requires i <= |hs|
    ensures Pos(hs + more, i) == Pos(hs, i)
  {
    if i > 0 { PosPrefix(hs, more, i - 1); }
  }

  lemma {:induction false} PosMonotonic(hs: seq<Header>, i: nat, j: nat)
    requires i <= j <= |hs|
    ensures Pos(hs, i) <= Pos(hs, j)
    ensures i < j && (forall k | i <= k < j :: hs[k].meta.numPkg > 0) ==> Pos(hs, i) < Pos(hs, j)
    decreases j
  {
    if i < j { PosMonotonic(hs, i, j - 1); }
  }

  lemma PosAppend(hs: seq<Header>, h: Header)
    ensures Pos(hs + [h], |hs| + 1) == Pos(hs, |hs|) + h.meta.numPkg
  {
    PosPrefix(hs, [h], |hs|);
  }

  lemma ConsecutiveAppend(hs: seq<Header>, start: Psn, h: Header)
    requires Consecutive(hs, start) && h.psn == Add(start, Pos(hs, |hs|))
    ensures Consecutive(hs + [h], start)
  {
    hide Add, Pos;
    forall i | 0 <= i < |hs| + 1
      ensures (hs + [h])[i].psn == Add(start, Pos(hs + [h], i))
    {
      PosPrefix(hs, [h], i);
      if i < |hs| {
        assert (hs + [h])[i] == hs[i];
      }
    }
  }

  /** Whatever the other queue pairs and the receive side do, the PSNs of a queue pair's requests leave no gap. */
  lemma {:induction false} PsnsAreConsecutive(t: seq<StateEntry>, log: seq<Event>, r: nat)
    requires QpsBelow(log, |t|) && r < |t|
    ensures var hs := OnQp(HeadersSent(t, log), r);
      && Consecutive(hs, t[r].reqNextPsn)
      && After(t, log)[r].reqNextPsn == Add(t[r].reqNextPsn, Pos(hs, |hs|))
  {
    hide Add, Effect, Verdicts, Consecutive, Pos, OnQp;
    if |log| == 0 {
      assert OnQp([], r) == [] by { NothingOnQp(r); }
      AddZero(t[r].reqNextPsn);
      NothingSent(t[r].reqNextPsn);
    } else {
      var before, e := log[..|log|-1], log[|log|-1];
      PsnsAreConsecutive(t, before, r);
      var hs0 := HeadersSent(t, before);
      var hs := OnQp(hs0, r);
      if e.Sent? {
        var h := Header(e.m, After(t, before)[e.m.qp].reqNextPsn);
        OnQpAppend(hs0, h, r);
        if e.m.qp == r {
          ConsecutiveAppend(hs, t[r].reqNextPsn, h);
          PosAppend(hs, h);
          AddAdd(t[r].reqNextPsn, Pos(hs, |hs|), e.m.numPkg);
        }
      } else {
        EffectKeepsNextPsn(After(t, before)[e.p.qp], e.p);
      }
    }
  }

  lemma NothingOnQp(r: nat)
    ensures OnQp([], r) == []
  {
  }

  lemma OnQpAppend(hs: seq<Header>, h: Header, r: nat)
    ensures OnQp(hs + [h], r) == if h.meta.qp == r then OnQp(hs, r) + [h] else OnQp(hs, r)
  {
    assert (hs + [h])[..|hs|] == hs;
  }

  lemma NothingSent(start: Psn)
    ensures Consecutive([], start) && Pos([], 0) == 0
  {
  }

  lemma EffectKeepsNextPsn(e: StateEntry, p: Packet)
    ensures Effect(e, Verdicts(e, p)).reqNextPsn == e.reqNextPsn
  {
  }

  // ----- the network -----

  predicate Copy(p: Packet, h: Header, q: nat) {
    p == Packet(h.meta.op, q, h.psn, false, h.meta.numPkg)
  }

  /** Every request that arrives on q is a copy of an issued one; which[i] says of which. */
  predicate Delivers(ps: seq<Packet>, which: seq<nat>, hs: seq<Header>, q: nat) {
    && |which| == |ps|
    && forall i | 0 <= i < |ps| && RequestOn(ps[i], q) :: which[i] < |hs| && Copy(ps[i], hs[which[i]], q)
  }

  predicate AcceptsLast(r: Responder, ps: seq<Packet>, q: nat)
    requires |ps| > 0
  {
    var p := ps[|ps|-1];
    RequestOn(p, q) && InOrder(p, Asked(Handled(r, ps[..|ps|-1], q)))
  }

  /** The issue numbers of the accepted requests, in order of acceptance. */
  function AcceptedNumbers(r: Responder, ps: seq<Packet>, which: seq<nat>, q: nat): seq<nat>
    requires |which| == |ps|
  {
    if |ps| == 0 then []
    else
      var k := |ps| - 1;
      AcceptedNumbers(r, ps[..k], which[..k], q) + (if AcceptsLast(r, ps, q) then [which[k]] else [])
  }

  function AcceptedLength(r: Responder, ps: seq<Packet>, q: nat): nat {
    if |ps| == 0 then 0
    else AcceptedLength(r, ps[..|ps|-1], q) + (if AcceptsLast(r, ps, q) then ps[|ps|-1].numPkg else 0)
  }

  /** No packet is delivered 2^24 or more PSNs away from the one then expected. */
  ghost predicate Near(r: Responder, ps: seq<Packet>, which: seq<nat>, hs: seq<Header>, q: nat)
    requires Delivers(ps, which, hs, q)
  {
    forall i | 0 <= i < |ps| && RequestOn(ps[i], q) ::
      -PSN_SPACE < Pos(hs, which[i]) - AcceptedLength(r, ps[..i], q) < PSN_SPACE
  }

  function Numbers(k: nat): seq<nat> {
    seq(k, i => i)
  }

  predicate NoneEmpty(hs: seq<Header>) {
    forall i | 0 <= i < |hs| :: hs[i].meta.numPkg > 0
  }

  lemma DeliversPrefix(r: Responder, ps: seq<Packet>, which: seq<nat>, hs: seq<Header>, q: nat, k: nat)
    requires Delivers(ps, which, hs, q) && Near(r, ps, which, hs, q) && k <= |ps|
    ensures Delivers(ps[..k], which[..k], hs, q) && Near(r, ps[..k], which[..k], hs, q)
  {
    forall i | 0 <= i < k && RequestOn(ps[..k][i], q)
      ensures -PSN_SPACE < Pos(hs, which[..k][i]) - AcceptedLength(r, ps[..k][..i], q) < PSN_SPACE
    {
      assert ps[..k][..i] == ps[..i];
    }
  }

  /**
   * In-order, exactly-once acceptance: over any such network the accepted requests are
   * the first k issued, for some k, and the expected PSN is that of the next one.
   */
  lemma {:induction false} AcceptedInOrderOnce(r: Responder, ps: seq<Packet>, which: seq<nat>, hs: seq<Header>, q: nat)
    requires Consecutive(hs, r.epsn) && NoneEmpty(hs)
    requires Delivers(ps, which, hs, q) && Near(r, ps, which, hs, q)
    ensures var k := |AcceptedNumbers(r, ps, which, q)|;
      && k <= |hs|
      && AcceptedNumbers(r, ps, which, q) == Numbers(k)
      && AcceptedLength(r, ps, q) == Pos(hs, k)
      && Handled(r, ps, q).epsn == Add(r.epsn, Pos(hs, k))
    decreases |ps|
  {
    assert |which| == |ps|;
    hide Add, Handle, InOrder, Consecutive, NoneEmpty, Near, Delivers, Pos, Numbers, RequestOn;
    if |ps| == 0 {
      AddZero(r.epsn);
      NothingYet(hs);
    } else {
      var n := |ps| - 1;
      DeliversPrefix(r, ps, which, hs, q, n);
      AcceptedInOrderOnce(r, ps[..n], which[..n], hs, q);
      var k := |AcceptedNumbers(r, ps[..n], which[..n], q)|;
      if RequestOn(ps[n], q) {
        NextOnly(r, ps, which, hs, q, k);
        NextPos(hs, k);
        NextNumber(k);
      }
    }
  }

  lemma NothingYet(hs: seq<Header>)
    ensures Pos(hs, 0) == 0 && Numbers(0) == []
  {
  }

  lemma NextNumber(k: nat)
    ensures Numbers(k + 1) == Numbers(k) + [k] && |Numbers(k)| == k
  {
  }

  lemma NextPos(hs: seq<Header>, k: nat)
    ensures k < |hs| ==> Pos(hs, k + 1) == Pos(hs, k) + hs[k].meta.numPkg
  {
  }

  lemma HandleMoves(r: Responder, p: Packet)
    requires !IsResponse(p.op) && !p.isNak
    ensures Handle(r, p).epsn == if p.psn == r.epsn then Add(p.psn, p.numPkg) else r.epsn
    ensures InOrder(p, Asked(r)) <==> p.psn == r.epsn
  {
  }

  /** A copy of request w is in order exactly if w is the next one, and then the expected PSN becomes the one after it. */
  lemma NextOnly(r: Responder, ps: seq<Packet>, which: seq<nat>, hs: seq<Header>, q: nat, k: nat)
    requires |ps| > 0 && RequestOn(ps[|ps|-1], q)
    requires Consecutive(hs, r.epsn) && NoneEmpty(hs)
    requires Delivers(ps, which, hs, q) && Near(r, ps, which, hs, q)
    requires k <= |hs| && AcceptedLength(r, ps[..|ps|-1], q) == Pos(hs, k)
    requires Handled(r, ps[..|ps|-1], q).epsn == Add(r.epsn, Pos(hs, k))
    ensures AcceptsLast(r, ps, q) <==> which[|ps|-1] == k
    ensures which[|ps|-1] == k ==> k < |hs| && ps[|ps|-1].numPkg == hs[k].meta.numPkg
    ensures Handled(r, ps, q).epsn == Add(r.epsn, Pos(hs, if which[|ps|-1] == k then k + 1 else k))
  {
    hide Add, Handle, InOrder, Pos, Judge;
    var n := |ps| - 1;
    var w, p := which[n], ps[n];
    assert Copy(p, hs[w], q) && p.psn == Add(r.epsn, Pos(hs, w));
    assert -PSN_SPACE < Pos(hs, w) - AcceptedLength(r, ps[..n], q) < PSN_SPACE;
    SamePsnSamePosition(r.epsn, Pos(hs, w), Pos(hs, k));
    if w < k { PosMonotonic(hs, w, k); }
    if k < w { PosMonotonic(hs, k, w); }
    HandleMoves(Handled(r, ps[..n], q), p);
    AddAdd(r.epsn, Pos(hs, k), hs[w].meta.numPkg);
    NextPos(hs, k);
  }

  // ----- the condition is necessary: an empty request can be accepted again and again -----

  function CopyOf(h: Header, q: nat): Packet {
    Packet(h.meta.op, q, h.psn, false, h.meta.numPkg)
  }

  function Copies(hs: seq<Header>, q: nat): (ps: seq<Packet>)
    ensures |ps| == |hs|
    ensures forall i | 0 <= i < |hs| :: ps[i] == CopyOf(hs[i], q)
  {
    seq(|hs|, i requires 0 <= i < |hs| => CopyOf(hs[i], q))
  }

  ghost predicate AllRequests(hs: seq<Header>) {
    forall i | 0 <= i < |hs| :: !IsResponse(hs[i].meta.op)
  }

  lemma LastAccepted(r: Responder, ps: seq<Packet>, which: seq<nat>, p: Packet, w: nat, q: nat)
    requires |which| == |ps| && RequestOn(p, q) && !p.isNak && p.psn == Handled(r, ps, q).epsn
    ensures AcceptedNumbers(r, ps + [p], which + [w], q) == AcceptedNumbers(r, ps, which, q) + [w]
    ensures AcceptedLength(r, ps + [p], q) == AcceptedLength(r, ps, q) + p.numPkg
    ensures Handled(r, ps + [p], q).epsn == Add(p.psn, p.numPkg)
  {
    hide Add, Judge, InOrder, Handle;
    assert (ps + [p])[..|ps|] == ps && (which + [w])[..|ps|] == which;
    HandleMoves(Handled(r, ps, q), p);
  }

  lemma NextCopy(hs: seq<Header>, q: nat, start: Psn, i: nat)
    requires i < |hs| && Consecutive(hs, start) && AllRequests(hs)
    ensures Copies(hs, q)[..i+1] == Copies(hs, q)[..i] + [CopyOf(hs[i], q)]
    ensures RequestOn(CopyOf(hs[i], q), q) && CopyOf(hs[i], q).psn == Add(start, Pos(hs, i))
  {
    hide Add, Pos;
    assert Copies(hs, q)[i] == CopyOf(hs[i], q);
    assert !IsResponse(hs[i].meta.op);
    hide AllRequests, Copies;
  }

  lemma NoneAccepted(r: Responder, hs: seq<Header>, q: nat)
    ensures Copies(hs, q)[..0] == [] && AcceptedNumbers(r, [], [], q) == Numbers(0)
    ensures AcceptedLength(r, [], q) == 0 == Pos(hs, 0) && Handled(r, [], q) == r
  {
  }

  /** Delivered one by one, all requests are accepted. */
  lemma {:induction false} AllAccepted(r: Responder, hs: seq<Header>, q: nat, i: nat)
    requires Consecutive(hs, r.epsn) && AllRequests(hs) && i <= |hs|
    ensures |Numbers(i)| == i && AcceptedNumbers(r, Copies(hs, q)[..i], Numbers(i), q) == Numbers(i)
    ensures AcceptedLength(r, Copies(hs, q)[..i], q) == Pos(hs, i)
    ensures Handled(r, Copies(hs, q)[..i], q).epsn == Add(r.epsn, Pos(hs, i))
  {
    NumbersAre(i);
    hide Add, Consecutive, AllRequests, Numbers, Pos, AcceptedNumbers, AcceptedLength, Handled, Copies, RequestOn;
    if i == 0 {
      AddZero(r.epsn);
      NoneAccepted(r, hs, q);
    } else {
      AllAccepted(r, hs, q, i - 1);
      NextNumber(i - 1);
      NextPos(hs, i - 1);
      NextCopy(hs, q, r.epsn, i - 1);
      LastAccepted(r, Copies(hs, q)[..i-1], Numbers(i - 1), CopyOf(hs[i-1], q), i - 1, q);
      AddAdd(r.epsn, Pos(hs, i - 1), hs[i-1].meta.numPkg);
    }
  }

  lemma NumbersAre(k: nat)
    ensures |Numbers(k)| == k && forall i | 0 <= i < k :: Numbers(k)[i] == i
  {
  }

  /** Some order of deliveries makes the responder accept empty request z a second time. */
  lemma EmptyRequestAcceptedTwice(r: Responder, hs: seq<Header>, q: nat, z: nat) returns (ps: seq<Packet>, which: seq<nat>)
    requires Consecutive(hs, r.epsn) && AllRequests(hs) && z < |hs| && hs[z].meta.numPkg == 0
    ensures Delivers(ps, which, hs, q) && Near(r, ps, which, hs, q)
    ensures AcceptedNumbers(r, ps, which, q) == Numbers(z + 1) + [z]
  {
    hide Add, Numbers, Pos, AcceptedNumbers, AcceptedLength, Handled, Consecutive;
    var all, again := Copies(hs, q), CopyOf(hs[z], q);
    ps, which := all[..z+1] + [again], Numbers(z + 1) + [z];
    NumbersAre(z + 1);
    AllAccepted(r, hs, q, z + 1);
    NextPos(hs, z);
    NextCopy(hs, q, r.epsn, z);
    LastAccepted(r, all[..z+1], Numbers(z + 1), again, z, q);
    hide AllRequests;
    forall i | 0 <= i < |ps| && RequestOn(ps[i], q)
      ensures -PSN_SPACE < Pos(hs, which[i]) - AcceptedLength(r, ps[..i], q) < PSN_SPACE
    {
      AllAccepted(r, hs, q, i);
      assert ps[..i] == all[..i];
    }
  }

  /** Over every network of the assumed kind, what is accepted is the first k requests for some k. */
  ghost predicate ExactlyOnceInOrder(hs: seq<Header>, start: Psn, q: nat) {
    forall r: Responder, ps: seq<Packet>, which: seq<nat> |
      r.epsn == start && Delivers(ps, which, hs, q) && Near(r, ps, which, hs, q) ::
      AcceptedNumbers(r, ps, which, q) == Numbers(|AcceptedNumbers(r, ps, which, q)|)
  }

  /** Exactly-once in-order acceptance holds over all such networks exactly when every request takes up a PSN. */
  lemma ExactlyOnceIffNoneEmpty(hs: seq<Header>, start: Psn, q: nat)
    requires Consecutive(hs, start) && AllRequests(hs)
    ensures ExactlyOnceInOrder(hs, start, q) <==> NoneEmpty(hs)
  {
    hide Numbers, AcceptedNumbers, Add, Pos, Handled, AcceptedLength, Consecutive, AllRequests, Near, RequestOn, Copy;
    if NoneEmpty(hs) {
      forall r: Responder, ps: seq<Packet>, which: seq<nat> |
        r.epsn == start && Delivers(ps, which, hs, q) && Near(r, ps, which, hs, q)
        ensures AcceptedNumbers(r, ps, which, q) == Numbers(|AcceptedNumbers(r, ps, which, q)|)
      {
        AcceptedInOrderOnce(r, ps, which, hs, q);
      }
    } else {
      var z :| 0 <= z < |hs| && hs[z].meta.numPkg == 0;
      var r := Responder(start, start, 7);
      var ps, which := EmptyRequestAcceptedTwice(r, hs, q, z);
      var accepted := AcceptedNumbers(r, ps, which, q);
      NumbersAre(z + 1);
      NumbersAre(z + 2);
      assert accepted[z + 1] == z != Numbers(|accepted|)[z + 1];
      assert !ExactlyOnceInOrder(hs, start, q);
    }
  }

  // ----- what is forwarded -----

  /** Requests on q other than reads: the packets that write memory. */
  function Writes(ps: seq<Packet>, q: nat): seq<Packet> {
    if |ps| == 0 then []
    else
      var p := ps[|ps|-1];
      Writes(ps[..|ps|-1], q) + (if RequestOn(p, q) && !IsReadRequest(p.op) then [p] else [])
  }

  lemma {:induction false} WritesSplit(a: seq<Packet>, b: seq<Packet>, q: nat)
    ensures Writes(a + b, q) == Writes(a, q) + Writes(b, q)
  {
    if b == [] {
      assert a + b == a;
    } else {
      var k := |b| - 1;
      assert (a + b)[..|a + b| - 1] == a + b[..k];
      WritesSplit(a, b[..k], q);
    }
  }

  lemma JudgeForwards(e: StateEntry, p: Packet, q: nat)
    ensures Writes(Verdicts(e, p).out.forwarded, q)
      == if RequestOn(p, q) && InOrder(p, Asked(ResponderOf(e))) then Writes([p], q) else []
  {
    assert [p][..0] == [];
    assert Window(e, IsResponse(p.op)) == Asked(ResponderOf(e)) || IsResponse(p.op);
  }

  lemma CopiesSplit(hs: seq<Header>, q: nat, k: nat, m: nat)
    requires k <= m <= |hs|
    ensures Writes(Copies(hs[..m], q), q) == Writes(Copies(hs[..k], q), q) + Writes(Copies(hs[k..m], q), q)
  {
    assert Copies(hs[..m], q) == Copies(hs[..k], q) + Copies(hs[k..m], q);
    WritesSplit(Copies(hs[..k], q), Copies(hs[k..m], q), q);
  }

  lemma NoWrites(hs: seq<Header>, q: nat, k: nat)
    requires k <= |hs|
    ensures Writes([], q) == Writes(Copies(hs[k..k], q), q) == []
  {
  }

  /** One more packet adds to the accepted numbers exactly what it adds to the forwarded writes. */
  lemma OneMoreForwarded(r: Responder, ps: seq<Packet>, p: Packet, which: seq<nat>, hs: seq<Header>, q: nat)
    requires Consecutive(hs, r.epsn) && NoneEmpty(hs)
    requires Delivers(ps + [p], which, hs, q) && Near(r, ps + [p], which, hs, q)
    ensures var k, m := |AcceptedNumbers(r, ps, which[..|ps|], q)|, |AcceptedNumbers(r, ps + [p], which, q)|;
      && k <= m <= |hs|
      && Writes(Copies(hs[k..m], q), q)
         == if RequestOn(p, q) && InOrder(p, Asked(Handled(r, ps, q))) then Writes([p], q) else []
  {
    hide Add, Judge, InOrder, Handle, Handled, Consecutive, Near, Writes, Copies, CopyOf, Numbers, NoneEmpty;
    assert (ps + [p])[..|ps|] == ps && which[..|ps|] + [which[|ps|]] == which;
    AcceptedInOrderOnce(r, ps + [p], which, hs, q);
    var k := |AcceptedNumbers(r, ps, which[..|ps|], q)|;
    if AcceptsLast(r, ps + [p], q) {
      NumbersAre(k + 1);
      assert AcceptedNumbers(r, ps + [p], which, q)[k] == which[|ps|];
      assert which[|ps|] == k && Copy(p, hs[k], q);
      OneCopy(hs, p, q, k);
    } else {
      NoWrites(hs, q, k);
    }
  }

  lemma OneCopy(hs: seq<Header>, p: Packet, q: nat, k: nat)
    requires k < |hs| && Copy(p, hs[k], q)
    ensures Copies(hs[k..k+1], q) == [p]
  {
  }

  lemma SameLength(ps: seq<Packet>, which: seq<nat>, hs: seq<Header>, q: nat)
    requires Delivers(ps, which, hs, q)
    ensures |which| == |ps|
  {
  }

  /** Every write forwarded is one of the first k issued; they are forwarded in order, each once. */
  lemma {:induction false} WritesForwardedOnce(t: seq<StateEntry>, log: seq<Event>, which: seq<nat>, hs: seq<Header>, q: nat)
    requires QpsBelow(log, |t|) && q < |t|
    requires Consecutive(hs, t[q].respEpsn) && NoneEmpty(hs)
    requires Delivers(ReceivedIn(log), which, hs, q) && Near(ResponderOf(t[q]), ReceivedIn(log), which, hs, q)
    ensures var k := |AcceptedNumbers(ResponderOf(t[q]), ReceivedIn(log), which, q)|;
      k <= |hs| && Writes(Emitted(t, log).forwarded, q) == Writes(Copies(hs[..k], q), q)
    decreases |log|
  {
    hide Add, Judge, InOrder, Handle, Handled, Verdicts, Consecutive, Near, After, Copies, Writes, Delivers, NoneEmpty;
    var r := ResponderOf(t[q]);
    assert |which| == |ReceivedIn(log)| by { SameLength(ReceivedIn(log), which, hs, q); }
    if |log| == 0 {
      NoWrites(hs, q, 0);
    } else {
      var before, e := log[..|log|-1], log[|log|-1];
      var ps := ReceivedIn(before);
      if e.Received? {
        assert ReceivedIn(log) == ps + [e.p];
        assert (ps + [e.p])[..|ps|] == ps;
        DeliversPrefix(r, ps + [e.p], which, hs, q, |ps|);
        WritesForwardedOnce(t, before, which[..|ps|], hs, q);
        OneMoreForwarded(r, ps, e.p, which, hs, q);
        LogHandles(t, before, q);
        JudgeForwards(After(t, before)[e.p.qp], e.p, q);
        var out := Verdicts(After(t, before)[e.p.qp], e.p).out.forwarded;
        WritesSplit(Emitted(t, before).forwarded, out, q);
        CopiesSplit(hs, q, |AcceptedNumbers(r, ps, which[..|ps|], q)|, |AcceptedNumbers(r, ps + [e.p], which, q)|);
      } else {
        assert ReceivedIn(log) == ps;
        WritesForwardedOnce(t, before, which, hs, q);
      }
    }
  }

  // ----- two nodes -----

  /** The request headers of a queue pair in a run, the one still being accounted for included, leave no PSN gap. */
  lemma RunHeadersConsecutive(n: Node, t: seq<StateEntry>, log: seq<Event>, r: nat)
    requires Inv(n, t, log) && r < |t|
    ensures Consecutive(OnQp(RequestHeaders(n.headers), r), t[r].reqNextPsn)
  {
    hide RxShape, InRange, Add, Consecutive, OnQp, HeadersSent, RequestHeaders, Emitted;
    PsnsAreConsecutive(t, log, r);
    var sent := HeadersSent(t, log);
    if Unsent(n) == [] {
      assert RequestHeaders(n.headers) == sent;
    } else {
      var h := Unsent(n)[0];
      assert RequestHeaders(n.headers) == sent + [h];
      SameNextPsn(n, t, log, h.meta.qp);
      OnQpAppend(sent, h, r);
      if h.meta.qp == r {
        ConsecutiveAppend(OnQp(sent, r), t[r].reqNextPsn, h);
      }
    }
  }

  lemma SameNextPsn(n: Node, t: seq<StateEntry>, log: seq<Event>, r: nat)
    requires RxInv(n, t, log) && r < |t|
    ensures After(t, log)[r].reqNextPsn == n.table[r].reqNextPsn
  {
    hide After, Emitted;
  }

  /**
   * A requester and a responder, each under any schedule of its own processes, and a
   * network that loses, repeats and reorders: the writes handed on at the responder
   * are a prefix of the writes issued, in order and without repeats.
   */
  lemma NetworkDeliversInOrder(sender: seq<Node>, senderSchedule: seq<Action>, r: nat,
                               receiver: seq<Node>, receiverSchedule: seq<Action>, q: nat, which: seq<nat>)
    requires IsRun(sender, senderSchedule) && r < |sender[0].table|
    requires IsRun(receiver, receiverSchedule) && q < |receiver[0].table|
    requires sender[0].table[r].reqNextPsn == receiver[0].table[q].respEpsn
    requires var hs := OnQp(RequestHeaders(sender[|senderSchedule|].headers), r);
      && NoneEmpty(hs)
      && Delivers(Arrived(receiverSchedule), which, hs, q)
      && Near(ResponderOf(receiver[0].table[q]), Arrived(receiverSchedule), which, hs, q)
    ensures var hs := OnQp(RequestHeaders(sender[|senderSchedule|].headers), r);
      var n := receiver[|receiverSchedule|];
      && (exists k: nat :: k <= |hs| && Writes(OutOfRx(n).forwarded, q) == Writes(Copies(hs[..k], q), q))
      && Writes(n.rxOut.forwarded, q) <= Writes(Copies(hs, q), q)
  {
    hide Init, Add, Consecutive, NoneEmpty, Near, Copies, Writes, TxShape, RxShape, InRange, OnQp, RequestHeaders, Judge, Log, ReceivedIn;
    var hs := OnQp(RequestHeaders(sender[|senderSchedule|].headers), r);
    var n, t := receiver[|receiverSchedule|], receiver[0].table;
    RunInv(sender, senderSchedule, |senderSchedule|);
    RunHeadersConsecutive(sender[|senderSchedule|], sender[0].table, Log(sender, senderSchedule, |senderSchedule|), r);
    RunInv(receiver, receiverSchedule, |receiverSchedule|);
    assert receiverSchedule[..|receiverSchedule|] == receiverSchedule;
    var log := Log(receiver, receiverSchedule, |receiverSchedule|);
    var ps := ReceivedIn(log);
    assert Arrived(receiverSchedule)[..|ps|] == ps;
    DeliversPrefix(ResponderOf(t[q]), Arrived(receiverSchedule), which, hs, q, |ps|);
    WritesForwardedOnce(t, log, which[..|ps|], hs, q);
    var k := |AcceptedNumbers(ResponderOf(t[q]), ps, which[..|ps|], q)|;
    CopiesSplit(hs, q, k, |hs|);
    assert hs[..|hs|] == hs;
    if n.rxBusy && n.rxRsp != [] {
      WritesSplit(n.rxOut.forwarded, Judge(n.packet, n.rxRsp[0]).out.forwarded, q);
    }
    assert Emitted(t, log).forwarded == OutOfRx(n).forwarded;
    assert k <= |hs| && Writes(OutOfRx(n).forwarded, q) == Writes(Copies(hs[..k], q), q);
  }
}
