/**
 * The requester's receive side: which responses are handed on to the later stages, and
 * that nothing else moves what counts as acknowledged.  Read responses that a network
 * loses, repeats and reorders are handed on in their order, each once, and one for
 * every PSN they acknowledge.
 */
module TransportResponses {
  import opened Psn
  import opened Transport
  import opened TransportNode
  import opened TransportSafety
  import opened TransportNetwork
  import opened TransportRuns
  import opened Segments
  import opened SegmentsCount
  import opened TransportHeaders

  predicate ResponseOn(p: Packet, q: nat) {
    p.qp == q && IsResponse(p.op)
  }

  function Responses(ps: seq<Packet>, q: nat): seq<Packet> {
    if |ps| == 0 then []
    else Responses(ps[..|ps|-1], q) + (if ResponseOn(ps[|ps|-1], q) then [ps[|ps|-1]] else [])
  }

  /** At the oldest unacknowledged PSN, or, for an acknowledgement, anywhere from there to the last PSN sent. */
  predicate InTurn(e: StateEntry, p: Packet) {
    p.psn == e.reqOldUnack || (p.op == Ack && Dist(e.reqOldUnack, p.psn) <= Dist(e.reqOldUnack, Add(e.reqNextPsn, -1)))
  }

  /** The responses on q that were in turn when they were received. */
  function ReceivedInTurn(t: seq<StateEntry>, log: seq<Event>, q: nat): seq<Packet>
    requires QpsBelow(log, |t|) && q < |t|
  {
    if |log| == 0 then []
    else
      var before, e := log[..|log|-1], log[|log|-1];
      ReceivedInTurn(t, before, q)
      + (if e.Received? && ResponseOn(e.p, q) && InTurn(After(t, before)[q], e.p) then [e.p] else [])
  }

  /** The PSN after the last of these responses that is no NAK. */
  function PsnAfter(start: Psn, ps: seq<Packet>): Psn {
    if |ps| == 0 then start
    else if ps[|ps|-1].isNak then PsnAfter(start, ps[..|ps|-1])
    else Add(ps[|ps|-1].psn, ps[|ps|-1].numPkg)
  }

  lemma ResponsesAppend(ps: seq<Packet>, more: seq<Packet>, q: nat)
    requires |more| <= 1
    ensures Responses(ps + more, q) == Responses(ps, q) + (if |more| == 1 && ResponseOn(more[0], q) then more else [])
  {
    if |more| == 1 {
      assert (ps + more)[..|ps|] == ps;
    } else {
      assert ps + more == ps;
    }
  }

  /** One response: handed on exactly if it is in turn, and only then does it acknowledge. */
  lemma JudgeResponse(e: StateEntry, p: Packet)
    ensures var v := Verdicts(e, p);
      && |v.out.forwarded| <= 1 && (|v.out.forwarded| == 1 ==> v.out.forwarded == [p])
      && (IsResponse(p.op) ==>
            && (v.out.forwarded == [p] <==> InTurn(e, p))
            && Effect(e, v).reqOldUnack == (if InTurn(e, p) && !p.isNak then Add(p.psn, p.numPkg) else e.reqOldUnack))
      && (!IsResponse(p.op) ==> Effect(e, v).reqOldUnack == e.reqOldUnack)
  {
    AckTestIsWindow(e.reqOldUnack, p.psn, Add(e.reqNextPsn, -1));
    hide Add, Dist, AckTest, DuplicateTest;
  }

  lemma PsnAfterMore(start: Psn, ps: seq<Packet>, p: Packet)
    ensures PsnAfter(start, ps + [p]) == if p.isNak then PsnAfter(start, ps) else Add(p.psn, p.numPkg)
  {
    assert (ps + [p])[..|ps|] == ps;
  }

  /**
   * Over every log the responses handed on for a queue pair are exactly those received
   * in turn, in that order, and what is acknowledged is what they acknowledge.
   */
  lemma {:induction false} ResponsesHandedOn(t: seq<StateEntry>, log: seq<Event>, q: nat)
    requires QpsBelow(log, |t|) && q < |t|
    ensures Responses(Emitted(t, log).forwarded, q) == ReceivedInTurn(t, log, q)
    ensures After(t, log)[q].reqOldUnack == PsnAfter(t[q].reqOldUnack, ReceivedInTurn(t, log, q))
  {
    hide Effect, Verdicts, InTurn, Add, Responses, PsnAfter;
    if |log| == 0 {
      NoneReceived(t[q].reqOldUnack, q);
    } else {
      var before, e := log[..|log|-1], log[|log|-1];
      ResponsesHandedOn(t, before, q);
      var rs := ReceivedInTurn(t, before, q);
      assert rs + [] == rs;
      if e.Received? {
        var u := After(t, before)[e.p.qp];
        JudgeResponse(u, e.p);
        ResponsesAppend(Emitted(t, before).forwarded, Verdicts(u, e.p).out.forwarded, q);
        PsnAfterMore(t[q].reqOldUnack, rs, e.p);
      }
    }
  }

  lemma NoneReceived(start: Psn, q: nat)
    ensures Responses([], q) == [] && PsnAfter(start, []) == start
  {
  }

  /** In every run, after every step, up to the verdict and the table update on their way. */
  lemma RunResponses(nodes: seq<Node>, schedule: seq<Action>, k: nat, q: nat)
    requires IsRun(nodes, schedule) && k <= |schedule| && q < |nodes[0].table|
    ensures |nodes| == |schedule| + 1
    ensures var n, t, log := nodes[k], nodes[0].table, Log(nodes, schedule, k);
      && RxInv(n, t, log)
      && var handedOn := Responses(OutOfRx(n).forwarded, q);
      && handedOn == ReceivedInTurn(t, log, q)
      && Apply(n.table, PendingRx(n))[q].reqOldUnack == PsnAfter(t[q].reqOldUnack, handedOn)
  {
    hide IsRun, Responses, ReceivedInTurn, PsnAfter, RxShape, Emitted, After, InRange, Log, ReceivedIn, SentIn, Underway, Unread, TxInv, Arrived, Requested;
    RunInv(nodes, schedule, k);
    ResponsesHandedOn(nodes[0].table, Log(nodes, schedule, k), q);
  }

  // ----- read responses over a network -----

  predicate ReadResponseOn(p: Packet, q: nat) {
    ResponseOn(p, q) && p.op != Ack
  }

  function ReadResponses(ps: seq<Packet>, q: nat): seq<Packet> {
    if |ps| == 0 then []
    else ReadResponses(ps[..|ps|-1], q) + (if ReadResponseOn(ps[|ps|-1], q) then [ps[|ps|-1]] else [])
  }

  /** With the last event a read response on q is handed on. */
  ghost predicate HandsOnLast(t: seq<StateEntry>, log: seq<Event>, q: nat)
    requires |log| > 0 && QpsBelow(log, |t|)
  {
    var before, e := log[..|log|-1], log[|log|-1];
    e.Received? && ReadResponseOn(e.p, q) && |Emitted(t, log).forwarded| > |Emitted(t, before).forwarded|
  }

  /** Of which responses the read responses handed on are copies; which[j] says of which the j-th event is one. */
  ghost function HandedOnNumbers(t: seq<StateEntry>, log: seq<Event>, which: seq<nat>, q: nat): seq<nat>
    requires QpsBelow(log, |t|) && |which| == |log|
  {
    if |log| == 0 then []
    else
      var k := |log| - 1;
      HandedOnNumbers(t, log[..k], which[..k], q) + (if HandsOnLast(t, log, q) then [which[k]] else [])
  }

  /** A copy, on queue pair q, of a response. */
  predicate CopyOfResponse(p: Packet, e: TxEvent, q: nat) {
    p == AsPacket(e).(qp := q)
  }

  /** The j-th event, if it is a response on q, is a NAK or a copy of one of the responses es, less than 2^24 PSNs from the oldest unacknowledged one. */
  ghost predicate AnswerAt(t: seq<StateEntry>, log: seq<Event>, which: seq<nat>, es: seq<TxEvent>, q: nat, j: nat)
    requires QpsBelow(log, |t|) && |which| == |log| && j < |log|
  {
    log[j].Received? && ResponseOn(log[j].p, q) ==>
      if log[j].p.isNak then log[j].p.op == Ack
      else
        && which[j] < |es| && CopyOfResponse(log[j].p, es[which[j]], q)
        && -PSN_SPACE < which[j] - |HandedOnNumbers(t, log[..j], which[..j], q)| < PSN_SPACE
  }

  ghost predicate AnswersArrive(t: seq<StateEntry>, log: seq<Event>, which: seq<nat>, es: seq<TxEvent>, q: nat)
    requires QpsBelow(log, |t|)
  {
    |which| == |log| && forall j | 0 <= j < |log| :: AnswerAt(t, log, which, es, q, j)
  }

  /** The copies, on q, of the first k responses. */
  function FirstCopies(es: seq<TxEvent>, q: nat, k: nat): (ps: seq<Packet>)
    requires k <= |es|
    ensures |ps| == k && forall i | 0 <= i < k :: ps[i] == AsPacket(es[i]).(qp := q)
  {
    seq(k, i requires 0 <= i < k => AsPacket(es[i]).(qp := q))
  }

  lemma ReadResponsesAppend(ps: seq<Packet>, more: seq<Packet>, q: nat)
    requires |more| <= 1
    ensures ReadResponses(ps + more, q) == ReadResponses(ps, q) + (if |more| == 1 && ReadResponseOn(more[0], q) then more else [])
  {
    if |more| == 1 {
      assert (ps + more)[..|ps|] == ps;
    } else {
      assert ps + more == ps;
    }
  }

  lemma ArriveBefore(t: seq<StateEntry>, log: seq<Event>, which: seq<nat>, es: seq<TxEvent>, q: nat)
    requires QpsBelow(log, |t|) && |log| > 0 && AnswersArrive(t, log, which, es, q)
    ensures var k := |log| - 1; AnswersArrive(t, log[..k], which[..k], es, q)
  {
    hide HandedOnNumbers, CopyOfResponse, ResponseOn;
    var k := |log| - 1;
    forall j | 0 <= j < k ensures AnswerAt(t, log[..k], which[..k], es, q, j) {
      assert AnswerAt(t, log, which, es, q, j);
      assert log[..k][..j] == log[..j] && which[..k][..j] == which[..j];
    }
  }

  /** A copy of response w arrives while response k is the oldest one missing. */
  lemma OneAnswer(u: StateEntry, p: Packet, es: seq<TxEvent>, q: nat, start: Psn, w: nat, k: nat)
    requires NumberedFrom(es, start) && PlainResponses(es) && w < |es| && CopyOfResponse(p, es[w], q)
    requires u.reqOldUnack == Add(start, k) && -PSN_SPACE < w - k < PSN_SPACE
    ensures var v := Verdicts(u, p);
      && (v.out.forwarded == if w == k then [p] else [])
      && Effect(u, v).reqOldUnack == Add(start, if w == k then k + 1 else k)
  {
    SamePsnSamePosition(start, w, k);
    JudgeResponse(u, p);
    AddAdd(start, k, 1);
    hide Add, Verdicts, Effect;
  }

  /** What the last event adds. */
  lemma LastHanded(t: seq<StateEntry>, log: seq<Event>, q: nat)
    requires QpsBelow(log, |t|) && |log| > 0 && q < |t|
    ensures var before, e := log[..|log|-1], log[|log|-1];
      var forwarded, u := Emitted(t, before).forwarded, After(t, before);
      if e.Received? then
        var more := Verdicts(u[e.p.qp], e.p).out.forwarded;
        && |more| <= 1 && (|more| == 1 ==> more == [e.p]) && Emitted(t, log).forwarded == forwarded + more
        && (HandsOnLast(t, log, q) <==> ReadResponseOn(e.p, q) && |more| == 1)
        && After(t, log)[q].reqOldUnack == (if e.p.qp == q then Effect(u[q], Verdicts(u[q], e.p)).reqOldUnack else u[q].reqOldUnack)
      else
        && Emitted(t, log).forwarded == forwarded && !HandsOnLast(t, log, q)
        && After(t, log)[q].reqOldUnack == u[q].reqOldUnack
  {
    hide Effect, Verdicts, Add, ReadResponseOn;
    if log[|log|-1].Received? {
      var p := log[|log|-1].p;
      JudgeResponse(After(t, log[..|log|-1])[p.qp], p);
    }
  }

  /** The account after a log: k responses handed on, which are the first k, and k PSNs acknowledged. */
  ghost predicate FirstHandedOn(t: seq<StateEntry>, log: seq<Event>, which: seq<nat>, es: seq<TxEvent>, q: nat)
    requires QpsBelow(log, |t|) && q < |t| && |which| == |log|
  {
    var ns := HandedOnNumbers(t, log, which, q);
    && |ns| <= |es| && (forall i | 0 <= i < |ns| :: ns[i] == i)
    && ReadResponses(Emitted(t, log).forwarded, q) == FirstCopies(es, q, |ns|)
    && After(t, log)[q].reqOldUnack == Add(t[q].reqOldUnack, |ns|)
  }

  lemma NothingHandedOn(t: seq<StateEntry>, es: seq<TxEvent>, q: nat)
    requires q < |t|
    ensures QpsBelow([], |t|) && FirstHandedOn(t, [], [], es, q)
  {
    AddZero(t[q].reqOldUnack);
    assert ReadResponses([], q) == FirstCopies(es, q, 0);
  }

  /** The last event is no response on q, or a NAK. */
  lemma NoAnswer(u: StateEntry, p: Packet)
    requires !IsResponse(p.op) || p.isNak
    ensures Effect(u, Verdicts(u, p)).reqOldUnack == u.reqOldUnack
  {
    JudgeResponse(u, p);
    hide Verdicts, Effect;
  }

  lemma SameAccount(t: seq<StateEntry>, log: seq<Event>, which: seq<nat>, es: seq<TxEvent>, q: nat)
    requires QpsBelow(log, |t|) && q < |t| && |log| > 0 && |which| == |log|
    requires FirstHandedOn(t, log[..|log|-1], which[..|log|-1], es, q)
    requires !HandsOnLast(t, log, q)
    requires ReadResponses(Emitted(t, log).forwarded, q) == ReadResponses(Emitted(t, log[..|log|-1]).forwarded, q)
    requires After(t, log)[q].reqOldUnack == After(t, log[..|log|-1])[q].reqOldUnack
    ensures FirstHandedOn(t, log, which, es, q)
  {
    hide HandsOnLast, Emitted, After, ReadResponses, Add;
  }

  lemma OneMoreAccount(t: seq<StateEntry>, log: seq<Event>, which: seq<nat>, es: seq<TxEvent>, q: nat, p: Packet)
    requires QpsBelow(log, |t|) && q < |t| && |log| > 0 && |which| == |log|
    requires FirstHandedOn(t, log[..|log|-1], which[..|log|-1], es, q)
    requires HandsOnLast(t, log, q)
    requires var k := |HandedOnNumbers(t, log[..|log|-1], which[..|log|-1], q)|;
      && which[|log|-1] == k < |es| && CopyOfResponse(p, es[k], q)
      && ReadResponses(Emitted(t, log).forwarded, q) == ReadResponses(Emitted(t, log[..|log|-1]).forwarded, q) + [p]
      && After(t, log)[q].reqOldUnack == Add(t[q].reqOldUnack, k + 1)
    ensures FirstHandedOn(t, log, which, es, q)
  {
    hide HandsOnLast, Emitted, After, ReadResponses, Add;
    var k := |HandedOnNumbers(t, log[..|log|-1], which[..|log|-1], q)|;
    assert FirstCopies(es, q, k + 1) == FirstCopies(es, q, k) + [p];
  }

  lemma LastAnswer(t: seq<StateEntry>, log: seq<Event>, which: seq<nat>, es: seq<TxEvent>, q: nat)
    requires QpsBelow(log, |t|) && q < |t| && |log| > 0
    requires NumberedFrom(es, t[q].reqOldUnack) && PlainResponses(es) && AnswersArrive(t, log, which, es, q)
    requires |which| == |log| && FirstHandedOn(t, log[..|log|-1], which[..|log|-1], es, q)
    requires log[|log|-1].Received? && ResponseOn(log[|log|-1].p, q) && !log[|log|-1].p.isNak
    ensures FirstHandedOn(t, log, which, es, q)
  {
    var n, p := |log| - 1, log[|log|-1].p;
    assert AnswerAt(t, log, which, es, q, n);
    var k := |HandedOnNumbers(t, log[..n], which[..n], q)|;
    var u := After(t, log[..n])[q];
    assert u.reqOldUnack == Add(t[q].reqOldUnack, k);
    assert ReadResponseOn(p, q);
    hide After, Emitted, HandedOnNumbers, HandsOnLast, ReadResponses, CopyOfResponse, FirstHandedOn, Effect, Verdicts, Add, AnswersArrive;
    LastHanded(t, log, q);
    OneAnswer(u, p, es, q, t[q].reqOldUnack, which[n], k);
    ReadResponsesAppend(Emitted(t, log[..n]).forwarded, Verdicts(u, p).out.forwarded, q);
    if which[n] == k {
      OneMoreAccount(t, log, which, es, q, p);
    } else {
      SameAccount(t, log, which, es, q);
    }
  }

  lemma LastOther(t: seq<StateEntry>, log: seq<Event>, which: seq<nat>, es: seq<TxEvent>, q: nat)
    requires QpsBelow(log, |t|) && q < |t| && |log| > 0
    requires AnswersArrive(t, log, which, es, q)
    requires |which| == |log| && FirstHandedOn(t, log[..|log|-1], which[..|log|-1], es, q)
    requires !(log[|log|-1].Received? && ResponseOn(log[|log|-1].p, q) && !log[|log|-1].p.isNak)
    ensures FirstHandedOn(t, log, which, es, q)
  {
    var n := |log| - 1;
    assert AnswerAt(t, log, which, es, q, n);
    hide After, Emitted, HandedOnNumbers, HandsOnLast, ReadResponses, FirstHandedOn, Effect, Verdicts, Add, AnswersArrive;
    LastHanded(t, log, q);
    if log[n].Received? {
      var p := log[n].p;
      assert !ReadResponseOn(p, q);
      if p.qp == q { NoAnswer(After(t, log[..n])[q], p); }
      ReadResponsesAppend(Emitted(t, log[..n]).forwarded, Verdicts(After(t, log[..n])[p.qp], p).out.forwarded, q);
    }
    SameAccount(t, log, which, es, q);
  }

  /**
   * Read responses numbered on from the oldest unacknowledged PSN, lost, repeated and
   * reordered: those handed on are copies of the first k, in order and each once, and
   * exactly their k PSNs are acknowledged.
   */
  lemma {:induction false} AnswersHandedOnOnce(t: seq<StateEntry>, log: seq<Event>, which: seq<nat>, es: seq<TxEvent>, q: nat)
    requires QpsBelow(log, |t|) && q < |t|
    requires NumberedFrom(es, t[q].reqOldUnack) && PlainResponses(es) && AnswersArrive(t, log, which, es, q)
    ensures |which| == |log| && FirstHandedOn(t, log, which, es, q)
    decreases |log|
  {
    hide FirstHandedOn, NumberedFrom, PlainResponses, AnswerAt;
    if |log| == 0 {
      NothingHandedOn(t, es, q);
      assert log == [] && which == [];
    } else {
      ArriveBefore(t, log, which, es, q);
      AnswersHandedOnOnce(t, log[..|log|-1], which[..|log|-1], es, q);
      hide AnswersArrive;
      if log[|log|-1].Received? && ResponseOn(log[|log|-1].p, q) && !log[|log|-1].p.isNak {
        LastAnswer(t, log, which, es, q);
      } else {
        LastOther(t, log, which, es, q);
      }
    }
  }

  // ----- acknowledgements can pass over read responses -----

  function Acking(ps: seq<Packet>): nat {
    if |ps| == 0 then 0 else Acking(ps[..|ps|-1]) + (if ps[|ps|-1].isNak then 0 else 1)
  }

  /** The last event is a response on q that acknowledges. */
  predicate AcksLast(t: seq<StateEntry>, log: seq<Event>, q: nat)
    requires |log| > 0 && QpsBelow(log, |t|) && q < |t|
  {
    var before, e := log[..|log|-1], log[|log|-1];
    e.Received? && ResponseOn(e.p, q) && !e.p.isNak && InTurn(After(t, before)[q], e.p)
  }

  /** The PSNs between the oldest unacknowledged one and the response's own. */
  function AheadBy(t: seq<StateEntry>, log: seq<Event>, q: nat): nat
    requires |log| > 0 && QpsBelow(log, |t|) && q < |t|
  {
    if AcksLast(t, log, q) then Dist(After(t, log[..|log|-1])[q].reqOldUnack, log[|log|-1].p.psn) else 0
  }

  /** The PSNs acknowledged by responses at later PSNs. */
  function PassedOver(t: seq<StateEntry>, log: seq<Event>, q: nat): nat
    requires QpsBelow(log, |t|) && q < |t|
  {
    if |log| == 0 then 0 else PassedOver(t, log[..|log|-1], q) + AheadBy(t, log, q)
  }

  ghost predicate OnePsnEach(log: seq<Event>, q: nat) {
    forall j | 0 <= j < |log| && log[j].Received? && ResponseOn(log[j].p, q) && !log[j].p.isNak :: log[j].p.numPkg == 1
  }

  lemma OneStepAhead(oldest: Psn, psn: Psn, start: Psn, n: nat)
    requires oldest == Add(start, n)
    ensures Add(psn, 1) == Add(start, n + Dist(oldest, psn) + 1)
  {
    AddAdd(start, n, Dist(oldest, psn) + 1);
    DistCases(oldest, psn);
    AddCases(oldest, Dist(oldest, psn));
    AddAdd(oldest, Dist(oldest, psn), 1);
  }

  /** The oldest unacknowledged PSN after the last event. */
  lemma LastAcknowledged(t: seq<StateEntry>, log: seq<Event>, q: nat, n: nat)
    requires QpsBelow(log, |t|) && q < |t| && |log| > 0 && OnePsnEach(log, q)
    requires After(t, log[..|log|-1])[q].reqOldUnack == Add(t[q].reqOldUnack, n)
    ensures After(t, log)[q].reqOldUnack
      == Add(t[q].reqOldUnack, n + AheadBy(t, log, q) + (if AcksLast(t, log, q) then 1 else 0))
  {
    var before, e := log[..|log|-1], log[|log|-1];
    var u := After(t, before)[q];
    hide InTurn, Effect, Verdicts, Add, Dist, After, OnePsnEach;
    LastHanded(t, log, q);
    if e.Received? && e.p.qp == q {
      JudgeResponse(u, e.p);
      if AcksLast(t, log, q) {
        assert e.p.numPkg == 1 by { LastIsOne(log, q); }
        OneStepAhead(u.reqOldUnack, e.p.psn, t[q].reqOldUnack, n);
      }
    }
  }

  lemma LastIsOne(log: seq<Event>, q: nat)
    requires |log| > 0 && OnePsnEach(log, q)
    requires var e := log[|log|-1]; e.Received? && ResponseOn(e.p, q) && !e.p.isNak
    ensures log[|log|-1].p.numPkg == 1
  {
  }

  lemma OneMoreAcking(t: seq<StateEntry>, log: seq<Event>, q: nat)
    requires QpsBelow(log, |t|) && q < |t| && |log| > 0
    ensures Acking(ReceivedInTurn(t, log, q))
      == Acking(ReceivedInTurn(t, log[..|log|-1], q)) + (if AcksLast(t, log, q) then 1 else 0)
  {
    hide InTurn, After, Acking;
    var rs, e := ReceivedInTurn(t, log[..|log|-1], q), log[|log|-1];
    assert rs + [] == rs;
    if e.Received? { AckingMore(rs, e.p); }
  }

  lemma AckingMore(ps: seq<Packet>, p: Packet)
    ensures Acking(ps + [p]) == Acking(ps) + (if p.isNak then 0 else 1)
  {
    assert (ps + [p])[..|ps|] == ps;
  }

  /** The PSNs acknowledged are one for each response handed on, and the ones passed over. */
  lemma {:induction false} AcknowledgedAccount(t: seq<StateEntry>, log: seq<Event>, q: nat)
    requires QpsBelow(log, |t|) && q < |t| && OnePsnEach(log, q)
    ensures After(t, log)[q].reqOldUnack
      == Add(t[q].reqOldUnack, Acking(Responses(Emitted(t, log).forwarded, q)) + PassedOver(t, log, q))
  {
    hide Add, After, ReceivedInTurn, Responses, Emitted, Acking, AcksLast, AheadBy;
    ResponsesHandedOn(t, log, q);
    if |log| == 0 {
      assert After(t, log) == t by { NoEvents(t); }
      NoneAcking(t, q);
      AddZero(t[q].reqOldUnack);
    } else {
      var before := log[..|log|-1];
      AcknowledgedAccount(t, before, q);
      ResponsesHandedOn(t, before, q);
      OneMoreAcking(t, log, q);
      LastAcknowledged(t, log, q, Acking(ReceivedInTurn(t, before, q)) + PassedOver(t, before, q));
    }
  }

  lemma NoEvents(t: seq<StateEntry>)
    ensures QpsBelow([], |t|) && After(t, []) == t
  {
  }

  lemma NoneAcking(t: seq<StateEntry>, q: nat)
    requires q < |t|
    ensures QpsBelow([], |t|) && Acking(ReceivedInTurn(t, [], q)) == 0
  {
  }

  /** With the j-th event an acknowledgement is accepted ahead of the oldest unacknowledged PSN. */
  predicate AheadAt(t: seq<StateEntry>, log: seq<Event>, q: nat, j: nat)
    requires QpsBelow(log, |t|) && q < |t| && j < |log|
  {
    var u := After(t, log[..j])[q];
    log[j].Received? && ResponseOn(log[j].p, q) && !log[j].p.isNak && InTurn(u, log[j].p) && log[j].p.psn != u.reqOldUnack
  }

  ghost predicate NoneAhead(t: seq<StateEntry>, log: seq<Event>, q: nat)
    requires QpsBelow(log, |t|) && q < |t|
  {
    forall j | 0 <= j < |log| :: !AheadAt(t, log, q, j)
  }

  lemma AheadBefore(t: seq<StateEntry>, log: seq<Event>, q: nat, k: nat, j: nat)
    requires QpsBelow(log, |t|) && q < |t| && j < k <= |log|
    ensures AheadAt(t, log[..k], q, j) <==> AheadAt(t, log, q, j)
  {
    assert log[..k][..j] == log[..j] && log[..k][j] == log[j];
  }

  lemma AheadByNone(t: seq<StateEntry>, log: seq<Event>, q: nat)
    requires QpsBelow(log, |t|) && q < |t| && |log| > 0
    ensures AheadBy(t, log, q) == 0 <==> !AheadAt(t, log, q, |log| - 1)
  {
    hide After, InTurn, Dist;
    if AcksLast(t, log, q) {
      DistZero(After(t, log[..|log|-1])[q].reqOldUnack, log[|log|-1].p.psn);
    }
  }

  lemma DistZero(a: Psn, b: Psn)
    ensures Dist(a, b) == 0 <==> a == b
  {
    DistCases(a, b);
  }

  /** Every PSN acknowledged has a response of its own handed on exactly if no acknowledgement is accepted ahead of the oldest one. */
  lemma {:induction false} PassesOverIff(t: seq<StateEntry>, log: seq<Event>, q: nat)
    requires QpsBelow(log, |t|) && q < |t|
    ensures PassedOver(t, log, q) == 0 <==> NoneAhead(t, log, q)
  {
    hide AheadAt, AheadBy;
    if |log| > 0 {
      var k := |log| - 1;
      PassesOverIff(t, log[..k], q);
      AheadByNone(t, log, q);
      forall j | 0 <= j < k ensures AheadAt(t, log[..k], q, j) <==> AheadAt(t, log, q, j) {
        AheadBefore(t, log, q, k, j);
      }
    }
  }

  /** One read response is lost; the acknowledgement of the write after it counts for the read too, and nothing is handed on for it. */
  lemma AckPassesOverRead(e: StateEntry, read: SendMeta, write: SendMeta, ack: Packet)
    requires e.reqNextPsn == e.reqOldUnack == 0 && read.qp == write.qp == 0 && read.numPkg == write.numPkg == 1
    requires ack == Packet(Ack, 0, 1, false, 1)
    ensures var t, log := [e], [Sent(read), Sent(write), Received(ack)];
      && QpsBelow(log, 1) && SentLength(log, 0) == 2
      && Acknowledged(After(t, log)[0], 2) == 2 && ReadResponses(Emitted(t, log).forwarded, 0) == []
  {
    var t, a, b := [e], [Sent(read)], [Sent(read), Sent(write)];
    var log := [Sent(read), Sent(write), Received(ack)];
    TwoSent(e, read, write);
    hide After, Emitted, SentLength;
    LogReceived(t, b, ack);
    assert b + [Received(ack)] == log;
    assert log[..2] == b;
    var u := e.(reqNextPsn := 2);
    JudgeResponse(u, ack);
    DistCases(0, 1);
    AddCases(1, 1);
    hide Verdicts, Effect, ReadResponses;
    NoReads(ack, Verdicts(u, ack).out.forwarded);
    assert SentLength(log, 0) == 2 by { SentBefore(log); }
  }

  lemma SentBefore(log: seq<Event>)
    requires |log| > 0 && log[|log|-1].Received?
    ensures SentLength(log, 0) == SentLength(log[..|log|-1], 0)
  {
  }

  lemma NoReads(ack: Packet, forwarded: seq<Packet>)
    requires ack.op == Ack && |forwarded| <= 1 && (|forwarded| == 1 ==> forwarded == [ack])
    ensures ReadResponses([] + forwarded, 0) == []
  {
    assert [] + forwarded == forwarded;
    if |forwarded| == 1 { assert forwarded[..0] == []; }
  }

  lemma TwoSent(e: StateEntry, read: SendMeta, write: SendMeta)
    requires e.reqNextPsn == 0 && read.qp == write.qp == 0 && read.numPkg == write.numPkg == 1
    ensures var t, b := [e], [Sent(read), Sent(write)];
      && QpsBelow(b, 1) && After(t, b) == [e.(reqNextPsn := 2)] && SentLength(b, 0) == 2
      && Emitted(t, b).forwarded == []
  {
    var t, a, b := [e], [Sent(read)], [Sent(read), Sent(write)];
    assert [] + [Sent(read)] == a && a + [Sent(write)] == b && a[..0] == [] && b[..1] == a;
    assert After(t, []) == t && Emitted(t, []).forwarded == [];
    AddCases(0, 1);
    AddCases(1, 1);
    assert SentLength(a, 0) == 1 && SentLength(b, 0) == 2;
    hide After, Emitted, Add;
    LogSent(t, [], read);
    LogSent(t, a, write);
  }
}
