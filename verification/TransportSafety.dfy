/**
 * What the receive decision guarantees over whole runs: progress and safety of
 * acknowledgements, one NAK per gap, and in-order delivery without repeats over a
 * network that loses, repeats and reorders packets.
 */
module TransportSafety {
  import opened Psn
  import opened Transport

  // ----- requester: responses -----

  predicate Accepted(e: StateEntry, p: Packet) {
    InOrder(p, Window(e, IsResponse(p.op)))
  }

  function Outstanding(e: StateEntry): Psn {
    Dist(e.reqOldUnack, e.reqNextPsn)
  }

  /**
   * While PSNs are outstanding, an accepted response that is no NAK acknowledges at
   * least one of them and never more than were sent; the acknowledged ones are
   * exactly those up to and including its own PSN.
   */
  lemma ResponseAdvances(e: StateEntry, p: Packet)
    requires IsResponse(p.op) && Accepted(e, p) && !p.isNak && p.numPkg == 1
    requires Outstanding(e) > 0
    ensures var e' := Effect(e, Verdicts(e, p));
      && e' == e.(reqOldUnack := Add(p.psn, 1))
      && Dist(e.reqOldUnack, p.psn) < Outstanding(e)
      && Outstanding(e') == Outstanding(e) - Dist(e.reqOldUnack, p.psn) - 1
  {
    var last := Add(e.reqNextPsn, -1);
    BackOne(e.reqNextPsn);
    DistCases(e.reqOldUnack, e.reqNextPsn);
    DistCases(e.reqOldUnack, last);
    DistCases(e.reqOldUnack, p.psn);
    AckTestIsWindow(e.reqOldUnack, p.psn, last);
    AddCases(p.psn, 1);
    DistCases(Add(p.psn, 1), e.reqNextPsn);
  }

  lemma BackOne(p: Psn)
    ensures Add(p, -1) == if p == 0 then PSN_SPACE - 1 else p - 1
  {
    if p == 0 { ModOnce(-1); }
  }

  /** With nothing outstanding the window is the whole ring: every acknowledgement is accepted. */
  lemma NothingOutstandingAcceptsAll(e: StateEntry, p: Packet)
    requires Outstanding(e) == 0 && p.op == Ack
    ensures Accepted(e, p)
  {
    var last := Add(e.reqNextPsn, -1);
    BackOne(e.reqNextPsn);
    DistCases(e.reqOldUnack, e.reqNextPsn);
    DistCases(e.reqOldUnack, last);
    AckTestIsWindow(e.reqOldUnack, p.psn, last);
  }

  /** Accepting p moves the oldest unacknowledged PSN forward, not past the next PSN. */
  predicate StaysBehindNext(e: StateEntry, p: Packet) {
    var e' := Effect(e, Verdicts(e, p));
    0 < Dist(e.reqOldUnack, e'.reqOldUnack) <= Outstanding(e)
  }

  ghost predicate ResponsesSafe(e: StateEntry) {
    forall p: Packet | IsResponse(p.op) && !p.isNak && p.numPkg == 1 && Accepted(e, p) :: StaysBehindNext(e, p)
  }

  /** The acknowledgement window is safe exactly when something is outstanding. */
  lemma SafeIffOutstanding(e: StateEntry)
    ensures ResponsesSafe(e) <==> Outstanding(e) > 0
  {
    if Outstanding(e) > 0 {
      forall p: Packet | IsResponse(p.op) && !p.isNak && p.numPkg == 1 && Accepted(e, p)
        ensures StaysBehindNext(e, p)
      {
        ResponseAdvances(e, p);
        DistCases(e.reqOldUnack, p.psn);
        AddCases(p.psn, 1);
        DistCases(e.reqOldUnack, Add(p.psn, 1));
      }
    } else {
      var p := Packet(Ack, 0, e.reqOldUnack, false, 1);
      NothingOutstandingAcceptsAll(e, p);
      AddCases(p.psn, 1);
      DistCases(e.reqOldUnack, Add(p.psn, 1));
      assert !StaysBehindNext(e, p);
    }
  }

  // ----- responder: one queue pair -----

  // The part of a table entry that requests depend on and change.
  datatype Responder = Responder(epsn: Psn, oldest: Psn, retry: nat)

  function ResponderOf(e: StateEntry): Responder {
    Responder(e.respEpsn, e.respOldOutstanding, e.retryCounter)
  }

  function Asked(r: Responder): RxStateRsp {
    RxStateRsp(r.epsn, r.oldest, r.epsn, r.retry)
  }

  predicate RequestOn(p: Packet, q: nat) {
    p.qp == q && !IsResponse(p.op)
  }

  function Handle(r: Responder, p: Packet): Responder {
    var us := Judge(p, Asked(r)).updates;
    if |us| == 0 || us[0].RxRead? then r else r.(epsn := us[0].epsn, retry := us[0].retryCounter)
  }

  /** The responder of queue pair q after the packets, in order. */
  function Handled(r: Responder, ps: seq<Packet>, q: nat): Responder {
    if |ps| == 0 then r
    else
      var r' := Handled(r, ps[..|ps|-1], q);
      if RequestOn(ps[|ps|-1], q) then Handle(r', ps[|ps|-1]) else r'
  }

  lemma EffectOnResponder(e: StateEntry, p: Packet)
    ensures ResponderOf(Effect(e, Verdicts(e, p)))
      == if IsResponse(p.op) then ResponderOf(e) else Handle(ResponderOf(e), p)
  {
  }

  /** Sends, responses and other queue pairs do not disturb the responder of q. */
  lemma {:induction false} LogHandles(t: seq<StateEntry>, log: seq<Event>, q: nat)
    requires QpsBelow(log, |t|) && q < |t|
    ensures ResponderOf(After(t, log)[q]) == Handled(ResponderOf(t[q]), ReceivedIn(log), q)
  {
    if |log| > 0 {
      var before, e := log[..|log|-1], log[|log|-1];
      LogHandles(t, before, q);
      if e.Received? {
        var ps := ReceivedIn(log);
        assert ps[..|ps|-1] == ReceivedIn(before) && ps[|ps|-1] == e.p;
        EffectOnResponder(After(t, before)[e.p.qp], e.p);
        hide Effect, Verdicts, Handle;
      } else {
        assert ReceivedIn(log) == ReceivedIn(before);
      }
    }
  }

  /** What a run emits for a request is the decision for the responder after all packets received before it. */
  lemma LogVerdict(t: seq<StateEntry>, log: seq<Event>, p: Packet)
    requires QpsBelow(log, |t|) && p.qp < |t| && !IsResponse(p.op)
    ensures QpsBelow(log + [Received(p)], |t|)
    ensures Emitted(t, log + [Received(p)])
      == Plus(Emitted(t, log), Judge(p, Asked(Handled(ResponderOf(t[p.qp]), ReceivedIn(log), p.qp))).out)
  {
    hide Judge, Handled, Plus, After;
    LogHandles(t, log, p.qp);
    assert (log + [Received(p)])[..|log|] == log;
  }

  // ----- what follows a packet to the later stages -----

  predicate HasPayload(op: OpCode) {
    op != Ack && !IsReadRequest(op)
  }

  /** Every packet gets one policy; it goes on exactly when the policy says so, and is acknowledged unread exactly when that says so. */
  lemma OnePolicyPerPacket(p: Packet, st: RxStateRsp)
    ensures var out := Judge(p, st).out;
      && |out.policies| == 1
      && out.forwarded == (if out.policies[0] == FwdPolicy(false, false) then [p] else [])
      && (out.policies[0].ackOnly <==> out.events == [AckEvent(p.qp, 0, false, false)])
      && (|out.events| > 0 && out.events[0].isNak ==> out.policies[0].isDrop)
  {
  }

  /** The drop flags stay in step with the payloads exactly as long as no read request is duplicate or out of order. */
  lemma FlagsAlignIff(p: Packet, st: RxStateRsp)
    ensures var out := Judge(p, st).out;
      && (|out.dropFlags| == (if HasPayload(p.op) then 1 else 0) <==> !IsReadRequest(p.op) || InOrder(p, st))
      && (|out.dropFlags| > 0 ==> (out.dropFlags[0] <==> out.forwarded == []))
  {
  }

  /** Dropped packets are counted, except duplicates that are neither writes nor parts. */
  lemma DropsCounted(p: Packet, st: RxStateRsp)
    ensures var out, duplicate := Judge(p, st).out, Dist(st.oldest, p.psn) < Dist(st.oldest, st.epsn);
      out.dropped == if out.forwarded == [] && (duplicate ==> IsWriteOrPart(p.op)) then 1 else 0
  {
    DuplicateTestIsWindow(st.oldest, st.epsn, p.psn);
    hide Dist, DuplicateTest;
  }

  // ----- what is handed on of the requests -----

  function RequestsOn(ps: seq<Packet>, q: nat): seq<Packet> {
    if |ps| == 0 then []
    else RequestsOn(ps[..|ps|-1], q) + (if RequestOn(ps[|ps|-1], q) then [ps[|ps|-1]] else [])
  }

  /** At the expected PSN, or a read behind it and not before the oldest one. */
  predicate Due(r: Responder, p: Packet) {
    p.psn == r.epsn || (IsReadRequest(p.op) && Dist(r.oldest, p.psn) < Dist(r.oldest, r.epsn))
  }

  /** The requests on q that were due when they were received. */
  function ReceivedDue(r: Responder, ps: seq<Packet>, q: nat): seq<Packet> {
    if |ps| == 0 then []
    else
      var k := |ps| - 1;
      ReceivedDue(r, ps[..k], q) + (if RequestOn(ps[k], q) && Due(Handled(r, ps[..k], q), ps[k]) then [ps[k]] else [])
  }

  lemma JudgeDue(e: StateEntry, p: Packet, q: nat)
    ensures var forwarded := Verdicts(e, p).out.forwarded;
      && |forwarded| <= 1
      && RequestsOn(forwarded, q) == (if RequestOn(p, q) && Due(ResponderOf(e), p) then [p] else [])
  {
    DuplicateTestIsWindow(e.respOldOutstanding, e.respEpsn, p.psn);
    assert [p][..0] == [];
    hide Dist, DuplicateTest, Add;
  }

  lemma RequestsAppend(ps: seq<Packet>, more: seq<Packet>, q: nat)
    requires |more| <= 1
    ensures RequestsOn(ps + more, q) == RequestsOn(ps, q) + RequestsOn(more, q)
  {
    if |more| == 1 {
      assert (ps + more)[..|ps|] == ps && more[..0] == [];
    } else {
      assert ps + more == ps;
    }
  }

  /** Over every log the requests handed on for a queue pair are exactly those received when they were due, in that order. */
  lemma {:induction false} RequestsHandedOn(t: seq<StateEntry>, log: seq<Event>, q: nat)
    requires QpsBelow(log, |t|) && q < |t|
    ensures RequestsOn(Emitted(t, log).forwarded, q) == ReceivedDue(ResponderOf(t[q]), ReceivedIn(log), q)
  {
    hide Verdicts, Due, Handled, After, RequestsOn;
    if |log| == 0 {
      NoRequestsOn(q);
    } else {
      var before, e := log[..|log|-1], log[|log|-1];
      RequestsHandedOn(t, before, q);
      if e.Received? {
        var ps := ReceivedIn(log);
        assert ps[..|ps|-1] == ReceivedIn(before) && ps[|ps|-1] == e.p;
        LogHandles(t, before, q);
        JudgeDue(After(t, before)[e.p.qp], e.p, q);
        RequestsAppend(Emitted(t, before).forwarded, Verdicts(After(t, before)[e.p.qp], e.p).out.forwarded, q);
      } else {
        assert ReceivedIn(log) == ReceivedIn(before);
      }
    }
  }

  lemma NoRequestsOn(q: nat)
    ensures RequestsOn([], q) == []
  {
  }

  /** A request is acknowledged by the receive side itself, unread, exactly if it is a duplicate that writes: behind the expected PSN and not before the oldest one. */
  lemma DuplicateWritesAcknowledged(r: Responder, p: Packet, q: nat)
    requires RequestOn(p, q)
    ensures var out := Judge(p, Asked(r)).out;
      && (out.events == [AckEvent(q, 0, false, false)]
          <==> IsWriteOrPart(p.op) && Dist(r.oldest, p.psn) < Dist(r.oldest, r.epsn))
      && (Dist(r.oldest, p.psn) < Dist(r.oldest, r.epsn) ==> Handle(r, p) == r)
  {
    DuplicateTestIsWindow(r.oldest, r.epsn, p.psn);
    hide Dist, DuplicateTest;
  }

  function PayloadCount(ps: seq<Packet>): nat {
    if |ps| == 0 then 0
    else PayloadCount(ps[..|ps|-1]) + (if HasPayload(ps[|ps|-1].op) then 1 else 0)
  }

  /** The read requests of the log that were duplicate or out of order when they were received. */
  function MisplacedReads(t: seq<StateEntry>, log: seq<Event>): nat
    requires QpsBelow(log, |t|)
  {
    if |log| == 0 then 0
    else
      var before, e := log[..|log|-1], log[|log|-1];
      MisplacedReads(t, before)
      + (if e.Received? && IsReadRequest(e.p.op) && !Accepted(After(t, before)[e.p.qp], e.p) then 1 else 0)
  }

  /**
   * Over every log the drop flags outnumber the payloads by the misplaced read
   * requests, so the two streams are in step exactly when there was none.
   */
  lemma {:induction false} FlagsInStepIff(t: seq<StateEntry>, log: seq<Event>)
    requires QpsBelow(log, |t|)
    ensures |Emitted(t, log).dropFlags| == PayloadCount(ReceivedIn(log)) + MisplacedReads(t, log)
    ensures |Emitted(t, log).dropFlags| == PayloadCount(ReceivedIn(log)) <==> MisplacedReads(t, log) == 0
  {
    hide Judge, After, InOrder, HasPayload;
    if |log| > 0 {
      var before, e := log[..|log|-1], log[|log|-1];
      FlagsInStepIff(t, before);
      if e.Received? {
        var ps, u := ReceivedIn(log), After(t, before)[e.p.qp];
        assert ps[..|ps|-1] == ReceivedIn(before) && ps[|ps|-1] == e.p;
        FlagsAlignIff(e.p, Window(u, IsResponse(e.p.op)));
        AtMostOneFlag(e.p, Window(u, IsResponse(e.p.op)));
      } else {
        assert ReceivedIn(log) == ReceivedIn(before);
      }
    }
  }

  lemma AtMostOneFlag(p: Packet, st: RxStateRsp)
    ensures |Judge(p, st).out.dropFlags| <= 1
    ensures IsReadRequest(p.op) ==> !HasPayload(p.op)
  {
  }

  // ----- at most one NAK per advance -----

  /** The i-th packet is answered with a NAK. */
  ghost predicate NakAt(r: Responder, ps: seq<Packet>, q: nat, i: nat) {
    && i < |ps| && RequestOn(ps[i], q)
    && var events := Judge(ps[i], Asked(Handled(r, ps[..i], q))).out.events;
    |events| > 0 && events[0].isNak
  }

  /** The i-th packet makes the expected PSN move. */
  ghost predicate AdvanceAt(r: Responder, ps: seq<Packet>, q: nat, i: nat) {
    i < |ps| && Handled(r, ps[..i+1], q).epsn != Handled(r, ps[..i], q).epsn
  }

  /** A NAK answers a request that is not the expected one, and names the expected PSN. */
  lemma NakCarriesExpectedPsn(r: Responder, ps: seq<Packet>, q: nat, i: nat)
    requires NakAt(r, ps, q, i)
    ensures ps[i].psn != Handled(r, ps[..i], q).epsn
    ensures Judge(ps[i], Asked(Handled(r, ps[..i], q))).out.events
      == [AckEvent(q, Handled(r, ps[..i], q).epsn, true, true)]
  {
  }

  lemma OneMore(r: Responder, ps: seq<Packet>, q: nat, i: nat)
    requires i < |ps|
    ensures Handled(r, ps[..i+1], q)
      == if RequestOn(ps[i], q) then Handle(Handled(r, ps[..i], q), ps[i]) else Handled(r, ps[..i], q)
  {
    assert ps[..i+1][..i] == ps[..i];
  }

  /** A request that is accepted without moving the expected PSN. */
  predicate Idle(p: Packet, q: nat) {
    RequestOn(p, q) && !p.isNak && p.numPkg % PSN_SPACE == 0
  }

  /** What a request does to a disarmed responder whose expected PSN does not move. */
  lemma HandleDisarmed(r: Responder, p: Packet, q: nat)
    requires RequestOn(p, q) && r.retry == 6 && Handle(r, p).epsn == r.epsn
    ensures Handle(r, p).retry == 6 || (Idle(p, q) && p.psn == r.epsn)
  {
    AddStays(r.epsn, p.numPkg);
    hide Add;
  }

  /** After a NAK the counter stays below 7 until the expected PSN moves. */
  lemma {:induction false} Disarmed(r: Responder, ps: seq<Packet>, q: nat, i: nat, j: nat)
    requires NakAt(r, ps, q, i) && i < j <= |ps|
    requires forall k | i < k < j && Idle(ps[k], q) :: ps[k].psn == ps[i].psn
    requires forall k | i < k < j :: !AdvanceAt(r, ps, q, k)
    ensures Handled(r, ps[..j], q).retry == 6
    ensures Handled(r, ps[..j], q).epsn == Handled(r, ps[..i], q).epsn
    decreases j
  {
    OneMore(r, ps, q, j - 1);
    if i < j - 1 {
      Disarmed(r, ps, q, i, j - 1);
      NakCarriesExpectedPsn(r, ps, q, i);
      hide Handle, Judge, Handled, Idle;
      assert !AdvanceAt(r, ps, q, j - 1);
      var r' := Handled(r, ps[..j-1], q);
      if RequestOn(ps[j-1], q) {
        HandleDisarmed(r', ps[j-1], q);
      }
    }
  }

  ghost predicate OneNakPerAdvance(r: Responder, ps: seq<Packet>, q: nat) {
    forall i: nat, j: nat | i < j && NakAt(r, ps, q, i) && NakAt(r, ps, q, j) :: exists k :: i < k < j && AdvanceAt(r, ps, q, k)
  }

  /** Two requests of which the first can be accepted again and again while the second draws a NAK each time. */
  predicate Rearms(e: Packet, g: Packet, q: nat) {
    Idle(e, q) && RequestOn(g, q) && g.psn != e.psn
  }

  /** Between two NAKs of a queue pair the expected PSN moves, unless an idle request comes with a request at another PSN. */
  lemma NaksAreSuppressed(r: Responder, ps: seq<Packet>, q: nat)
    requires forall i, k | 0 <= i < |ps| && 0 <= k < |ps| :: !Rearms(ps[k], ps[i], q)
    ensures OneNakPerAdvance(r, ps, q)
  {
    forall i: nat, j: nat | i < j && NakAt(r, ps, q, i) && NakAt(r, ps, q, j)
      ensures exists k :: i < k < j && AdvanceAt(r, ps, q, k)
    {
      if forall k | i < k < j :: !AdvanceAt(r, ps, q, k) {
        assert forall k | i < k < j && Idle(ps[k], q) :: !Rearms(ps[k], ps[i], q);
        Disarmed(r, ps, q, i, j);
        assert false;
      }
    }
  }

  /**
   * A read request of length zero takes up no PSN; accepting it re-arms the NAK
   * although the expected PSN does not move, so a second NAK follows for the same PSN.
   */
  lemma IdleRequestsRepeatNaks(e: Packet, g: Packet, q: nat)
    requires Rearms(e, g, q)
    ensures !OneNakPerAdvance(Responder(e.psn, e.psn, 7), [g, e, g], q)
  {
    var r, ps := Responder(e.psn, e.psn, 7), [g, e, g];
    assert ps[..0] == [] && ps[..1] == [g] && ps[..2] == [g, e];
    OneMore(r, ps, q, 0);
    OneMore(r, ps, q, 1);
    AddStays(e.psn, e.numPkg);
    hide Add;
    assert Handled(r, ps[..1], q) == Responder(e.psn, e.psn, 6);
    assert Handled(r, ps[..2], q) == Responder(e.psn, e.psn, 7);
    assert NakAt(r, ps, q, 0) && NakAt(r, ps, q, 2);
    assert !AdvanceAt(r, ps, q, 1);
  }

  ghost predicate Among(ps: seq<Packet>, requests: iset<Packet>, q: nat) {
    forall i | 0 <= i < |ps| && RequestOn(ps[i], q) :: ps[i] in requests
  }

  /** Whatever is delivered of the requests, in any order and number, no responder repeats a NAK. */
  ghost predicate NaksSuppressedOver(requests: iset<Packet>, q: nat) {
    forall r: Responder, ps: seq<Packet> | Among(ps, requests, q) :: OneNakPerAdvance(r, ps, q)
  }

  /** NAK suppression holds over a set of requests exactly when it has no idle request beside a request at another PSN. */
  lemma SuppressedIffNoneRearms(requests: iset<Packet>, q: nat)
    ensures NaksSuppressedOver(requests, q) <==> forall e, g | e in requests && g in requests :: !Rearms(e, g, q)
  {
    if e, g :| e in requests && g in requests && Rearms(e, g, q) {
      IdleRequestsRepeatNaks(e, g, q);
      assert Among([g, e, g], requests, q);
      assert !NaksSuppressedOver(requests, q);
    } else {
      hide OneNakPerAdvance;
      forall r: Responder, ps: seq<Packet> | Among(ps, requests, q)
        ensures OneNakPerAdvance(r, ps, q)
      {
        NaksAreSuppressed(r, ps, q);
      }
    }
  }

  // ----- the NAKs a run emits -----

  /** The PSNs in the NAKs for queue pair q. */
  function NakPsns(events: seq<AckEvent>, q: nat): seq<Psn> {
    if |events| == 0 then []
    else
      var e := events[|events|-1];
      NakPsns(events[..|events|-1], q) + (if e.qp == q && e.isNak then [e.psn] else [])
  }

  /** The expected PSNs at the packets that are answered with a NAK. */
  ghost function ExpectedAtNaks(r: Responder, ps: seq<Packet>, q: nat): seq<Psn> {
    if |ps| == 0 then []
    else
      var k := |ps| - 1;
      ExpectedAtNaks(r, ps[..k], q) + (if NakAt(r, ps, q, k) then [Handled(r, ps[..k], q).epsn] else [])
  }

  lemma NakPsnsOfOne(events: seq<AckEvent>, more: seq<AckEvent>, q: nat)
    requires |more| <= 1
    ensures NakPsns(events + more, q) == NakPsns(events, q) + NakPsns(more, q)
  {
    if |more| == 1 {
      assert (events + more)[..|events|] == events && more[..0] == [];
    } else {
      assert events + more == events;
    }
  }

  lemma JudgeNaks(e: StateEntry, p: Packet, q: nat)
    ensures var events := Verdicts(e, p).out.events; var asked := Judge(p, Asked(ResponderOf(e))).out.events;
      && |events| <= 1
      && NakPsns(events, q) == (if RequestOn(p, q) && |asked| > 0 && asked[0].isNak then [e.respEpsn] else [])
  {
    var events := Verdicts(e, p).out.events;
    assert |events| == 1 ==> events[..0] == [];
  }

  /** In every log the NAKs emitted for a queue pair name the PSNs then expected, one for each packet so answered. */
  lemma {:induction false} LogNaks(t: seq<StateEntry>, log: seq<Event>, q: nat)
    requires QpsBelow(log, |t|) && q < |t|
    ensures NakPsns(Emitted(t, log).events, q) == ExpectedAtNaks(ResponderOf(t[q]), ReceivedIn(log), q)
  {
    hide Judge, Handled, After, NakPsns, Verdicts;
    if |log| == 0 {
      NoNaks(q);
    } else {
      var before, e := log[..|log|-1], log[|log|-1];
      LogNaks(t, before, q);
      if e.Received? {
        var ps := ReceivedIn(log);
        assert ps[..|ps|-1] == ReceivedIn(before) && ps[|ps|-1] == e.p;
        LogHandles(t, before, q);
        JudgeNaks(After(t, before)[e.p.qp], e.p, q);
        NakPsnsOfOne(Emitted(t, before).events, Verdicts(After(t, before)[e.p.qp], e.p).out.events, q);
      } else {
        assert ReceivedIn(log) == ReceivedIn(before);
      }
    }
  }

  lemma NoNaks(q: nat)
    ensures NakPsns([], q) == []
  {
  }
}
