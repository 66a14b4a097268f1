/**
 * The multi queue makes progress: under every fair schedule, once no more requests are
 * offered, all reads complete, and all pushes do unless MULTI_QUEUE_SIZE values are
 * queued; and the free-list handler alone brings every index that is not in use back
 * into the free list.
 */
module MultiQueueProgress {
  import opened MultiQueue
  import opened MultiQueueProof
  import opened FairRuns

  // ----- the work left -----

  function PhaseWork(p: Phase): nat {
    match p
    case Main => 0
    case Push1 => 6
    case Push2 => 4
    case Pop1 => 4
    case Pop2 => 2
  }

  /** An upper bound for the steps that still have an effect if no further request is offered. */
  ghost function Work<T>(s: System<T>): nat
    requires s.counter <= |s.metaTable|
  {
    9 * (|s.pushIn| + |s.popIn|) + PhaseWork(s.phase)
    + 2 * |s.ptrReq| + |s.ptrRsp| + |s.ptrUpd| + 2 * |s.metaReq| + |s.metaRsp|
    + |s.release| + (|s.metaTable| - s.counter)
  }

  predicate Internal<T>(a: Action<T>) {
    a.RunProcess? || a.RunPointer? || a.RunMeta? || a.RunFreeList?
  }

  lemma CounterFits<T>(s: System<T>, v: View<T>)
    requires Inv(s, v)
    ensures InRange(s) && s.counter <= |s.metaTable| && !s.waiting && |s.freeList| <= s.counter
  {
    hide Chains, PointersRight, Dialogue;
    Waits(s, v);
    IssuedCounts(s.counter);
    assert |multiset(s.freeList) + multiset(s.release) + HeldIndex(s) + Members(v.chains)| == s.counter;
  }

  lemma Waits<T>(s: System<T>, v: View<T>)
    requires Inv(s, v)
    ensures !s.waiting
  {
    hide Chains, PointersRight, Conserved, InRange;
  }

  /** An activation has no effect, or it leaves less work. */
  lemma ProcessWorks<T>(s: System<T>)
    requires s.counter <= |s.metaTable|
    ensures var s' := ProcessStep(s);
      s'.counter <= |s'.metaTable| && (s' == s || Work(s') < Work(s))
  {
    match s.phase {
      case Main => MainWorks(s);
      case Push1 => PushWorks(s);
      case Push2 => PushWorks(s);
      case Pop1 => PopWorks(s);
      case Pop2 => AnswerWorks(s);
    }
  }

  lemma MainWorks<T>(s: System<T>)
    requires s.phase == Main && s.counter <= |s.metaTable|
    ensures var s' := ProcessStep(s); s'.counter <= |s'.metaTable| && (s' == s || Work(s') < Work(s))
  {
  }

  lemma PushWorks<T>(s: System<T>)
    requires (s.phase == Push1 || s.phase == Push2) && s.counter <= |s.metaTable|
    ensures var s' := ProcessStep(s); s'.counter <= |s'.metaTable| && (s' == s || Work(s') < Work(s))
  {
  }

  lemma PopWorks<T>(s: System<T>)
    requires s.phase == Pop1 && s.counter <= |s.metaTable|
    ensures var s' := ProcessStep(s); s'.counter <= |s'.metaTable| && (s' == s || Work(s') < Work(s))
  {
  }

  lemma AnswerWorks<T>(s: System<T>)
    requires s.phase == Pop2 && s.counter <= |s.metaTable|
    ensures var s' := ProcessStep(s); s'.counter <= |s'.metaTable| && (s' == s || Work(s') < Work(s))
  {
  }

  lemma PointerWorks<T>(s: System<T>)
    requires InRange(s) && s.counter <= |s.metaTable| && !s.waiting
    ensures var s' := PointerStep(s);
      s'.counter <= |s'.metaTable| && (s' == s || Work(s') < Work(s) || s'.waiting)
  {
  }

  lemma MetaWorks<T>(s: System<T>)
    requires InRange(s) && s.counter <= |s.metaTable|
    ensures var s' := MetaStep(s);
      s'.counter <= |s'.metaTable| && (s' == s || Work(s') < Work(s))
  {
  }

  lemma FreeListWorks<T>(s: System<T>)
    requires InRange(s) && s.counter <= |s.metaTable|
    ensures var s' := FreeListStep(s);
      s'.counter <= |s'.metaTable| && (s' == s || Work(s') < Work(s))
  {
  }

  lemma StepWorks<T>(s: System<T>, v: View<T>, a: Action<T>) returns (v': View<T>)
    requires Inv(s, v) && Internal(a)
    ensures InRange(s) && s.counter <= |s.metaTable|
    ensures var s' := Step(s, a);
      Inv(s', v') && s'.counter <= |s'.metaTable| && (s' == s || Work(s') < Work(s))
  {
    CounterFits(s, v);
    v' := StepKeeps(s, v, a);
    Waits(Step(s, a), v');
    hide Inv, InRange, Work, ProcessStep, PointerStep, MetaStep, FreeListStep;
    match a {
      case RunProcess => ProcessWorks(s);
      case RunPointer => PointerWorks(s);
      case RunMeta => MetaWorks(s);
      case RunFreeList => FreeListWorks(s);
    }
  }

  // ----- nothing left to do -----

  /** No activation has any effect. */
  ghost predicate Stuck<T>(s: System<T>) {
    && InRange(s)
    && ProcessStep(s) == s && PointerStep(s) == s && MetaStep(s) == s && FreeListStep(s) == s
  }

  /** The request processor rests, all reads are taken, and all pushes are, unless there is no free index. */
  ghost predicate AtRest<T>(s: System<T>) {
    && s.phase == Main && s.popIn == []
    && (s.pushIn == [] || s.freeList == []) && s.release == [] && s.counter == |s.metaTable|
  }

  lemma Effective<T>(s: System<T>)
    requires InRange(s) && !s.waiting && s.counter <= |s.metaTable|
    ensures PointerStep(s) == s ==> s.ptrUpd == [] && s.ptrReq == []
    ensures MetaStep(s) == s ==> s.metaReq == []
    ensures ProcessStep(s) == s ==> s.phase != Push2 && (s.phase == Push1 || s.phase == Pop1 ==> s.ptrRsp == [])
    ensures ProcessStep(s) == s && s.phase == Pop2 ==> s.metaRsp == []
    ensures ProcessStep(s) == s && s.phase == Main ==> s.popIn == [] && (s.pushIn == [] || s.freeList == [])
    ensures FreeListStep(s) == s ==> s.release == [] && (s.counter < |s.metaTable| ==> |s.freeList| >= |s.metaTable|)
  {
    hide Store;
  }

  /** The processes never wait for each other in a circle. */
  lemma StuckRests<T>(s: System<T>, v: View<T>)
    requires Inv(s, v) && Stuck(s)
    ensures AtRest(s)
  {
    CounterFits(s, v);
    Effective(s);
    hide ProcessStep, PointerStep, MetaStep, FreeListStep, Chains, PointersRight, Conserved, InRange;
  }

  // ----- fair schedules -----

  ghost function Processes<T>(): set<Action<T>> {
    {RunProcess, RunPointer, RunMeta, RunFreeList}
  }

  ghost function WorkOf<T>(): System<T> -> nat {
    (s: System<T>) => if s.counter <= |s.metaTable| then Work(s) else 0
  }

  lemma Successor<T>(states: seq<System<T>>, schedule: seq<Action<T>>, n: nat)
    requires IsRun(states, schedule) && n < |schedule|
    ensures |states| == |schedule| + 1
    ensures InRange(states[n]) ==> states[n+1] == Step(states[n], schedule[n])
  {
    hide Init, InRange, Step;
  }

  lemma OneWorks<T>(states: seq<System<T>>, schedule: seq<Action<T>>, n: nat)
    requires IsRun(states, schedule) && n < |schedule| && Internal(schedule[n])
    ensures |states| == |schedule| + 1
    ensures InRange(states[n]) && states[n].counter <= |states[n].metaTable| && states[n+1].counter <= |states[n+1].metaTable|
    ensures states[n+1] == Step(states[n], schedule[n])
    ensures states[n+1] == states[n] || Work(states[n+1]) < Work(states[n])
  {
    Successor(states, schedule, n);
    hide IsRun, Inv, Work, InRange, Step, Log;
    var v := RunInv(states, schedule, n);
    var v' := StepWorks(states[n], v, schedule[n]);
  }

  lemma Counters<T>(states: seq<System<T>>, schedule: seq<Action<T>>, n: nat)
    requires IsRun(states, schedule) && n <= |schedule|
    ensures |states| == |schedule| + 1 && InRange(states[n]) && states[n].counter <= |states[n].metaTable|
  {
    assert |states| == |schedule| + 1;
    hide IsRun, Inv, Log, InRange;
    var v := RunInv(states, schedule, n);
    CounterFits(states[n], v);
  }

  lemma RunWorks<T>(states: seq<System<T>>, schedule: seq<Action<T>>, n: nat)
    requires IsRun(states, schedule) && n <= |schedule| && forall i | n <= i < |schedule| :: schedule[i] in Processes<T>()
    ensures Works(states, schedule, WorkOf<T>(), n) && Deterministic(states, schedule, n)
  {
    assert |states| == |schedule| + 1 by { Counters(states, schedule, n); }
    hide IsRun, Work, Step, InRange;
    forall i | n <= i < |schedule|
      ensures InRange(states[i]) && states[i+1] == Step(states[i], schedule[i])
      ensures states[i+1] == states[i] || WorkOf<T>()(states[i+1]) < WorkOf<T>()(states[i])
    {
      OneWorks(states, schedule, i);
    }
  }

  lemma TriedInVain<T>(states: seq<System<T>>, schedule: seq<Action<T>>, a: Action<T>)
    requires IsRun(states, schedule) && Tried(states, schedule, a)
    ensures |states| == |schedule| + 1
    ensures InRange(states[|schedule|]) && Step(states[|schedule|], a) == states[|schedule|]
  {
    Counters(states, schedule, |schedule|);
    var i :| 0 <= i < |schedule| && schedule[i] == a && states[i] == states[i+1] == states[|schedule|];
    Successor(states, schedule, i);
    hide IsRun, Step, InRange;
  }

  /** After as many fair rounds as there was work, there is nothing left to do. */
  lemma RoundsFinish<T>(states: seq<System<T>>, schedule: seq<Action<T>>, n: nat, rounds: seq<seq<Action<T>>>)
    requires IsRun(states, schedule) && n <= |schedule| && schedule[n..] == Flat(rounds)
    requires FairRounds(rounds, Processes<T>())
    requires |states| == |schedule| + 1 && states[n].counter <= |states[n].metaTable| && |rounds| > Work(states[n])
    ensures Stuck(states[|schedule|])
  {
    FlatActivates(rounds, Processes<T>());
    assert forall i | n <= i < |schedule| :: schedule[i] == schedule[n..][i - n];
    hide IsRun, Work, Step, InRange, ProcessStep, PointerStep, MetaStep, FreeListStep, Works, Deterministic, Tried;
    RunWorks(states, schedule, n);
    RoundsSettle(states, schedule, Processes<T>(), WorkOf<T>(), n, rounds);
    TriedInVain(states, schedule, RunProcess);
    TriedInVain(states, schedule, RunPointer);
    TriedInVain(states, schedule, RunMeta);
    TriedInVain(states, schedule, RunFreeList);
    var s := states[|schedule|];
    StepsInVain(s);
  }

  lemma StepsInVain<T>(s: System<T>)
    requires InRange(s) && forall a: Action<T> | a in Processes<T>() :: Step(s, a) == s
    ensures Stuck(s)
  {
    hide InRange, ProcessStep, PointerStep, MetaStep, FreeListStep;
    assert Step(s, RunProcess) == s && Step(s, RunPointer) == s && Step(s, RunMeta) == s && Step(s, RunFreeList) == s;
  }

  // ----- what that means for the requests -----

  /** The number of values in all queues. */
  function Queued<T>(contents: seq<seq<T>>): nat {
    if |contents| == 0 then 0 else Queued(contents[..|contents|-1]) + |contents[|contents|-1]|
  }

  lemma {:induction false} QueuedInChains<T>(contents: seq<seq<T>>, chains: seq<seq<nat>>)
    requires |contents| == |chains| && forall k | 0 <= k < |chains| :: |chains[k]| == |contents[k]|
    ensures |Members(chains)| == Queued(contents)
  {
    if |chains| > 0 {
      QueuedInChains(contents[..|contents|-1], chains[..|chains|-1]);
    }
  }

  /** Every index is free, held by a push, or in a queue, once the free-list handler has nothing to do. */
  lemma AllPlaced<T>(s: System<T>, v: View<T>)
    requires Inv(s, v) && s.release == [] && s.counter == |s.metaTable|
    ensures |s.freeList| + |HeldIndex(s)| + Queued(Performed(|s.ptrTable|, v.done).contents) == |s.metaTable|
  {
    hide Dialogue, PointersRight, InRange;
    PartitionCounts(s.freeList, s.release, HeldIndex(s), v.chains, s.counter, |s.metaTable|);
    QueuedInChains(Performed(|s.ptrTable|, v.done).contents, v.chains);
  }

  /**
   * Progress: in every run that ends with fair rounds, more than there was work, in any
   * order within a round, every read offered has been completed, and every push has,
   * unless as many values are queued as the node table has entries.
   */
  lemma RequestsComplete<T>(states: seq<System<T>>, schedule: seq<Action<T>>, n: nat, rounds: seq<seq<Action<T>>>)
    requires IsRun(states, schedule) && n <= |schedule| && schedule[n..] == Flat(rounds)
    requires FairRounds(rounds, Processes<T>())
    requires |states| == |schedule| + 1 && states[n].counter <= |states[n].metaTable| && |rounds| > Work(states[n])
    ensures var s, done := states[|schedule|], Log(states, schedule, |schedule|);
      && KeysBelow(done, |s.ptrTable|)
      && PopsOf(done) == OfferedPops(schedule)
      && PushesOf(done) + s.pushIn == OfferedPushes(schedule)
      && (PushesOf(done) == OfferedPushes(schedule) || Queued(Performed(|s.ptrTable|, done).contents) == |s.metaTable|)
  {
    hide IsRun, Work, FairRounds, Stuck, Inv, PushesOf, PopsOf, OfferedPops, OfferedPushes, Log, Queued;
    RoundsFinish(states, schedule, n, rounds);
    var s := states[|schedule|];
    var v := RunInv(states, schedule, |schedule|);
    assert schedule[..|schedule|] == schedule;
    StuckRests(s, v);
    DoneKeys(s, v);
    AllPlaced(s, v);
    assert PushesOf(v.done) + [] == PushesOf(v.done) && PopsOf(v.done) + [] == PopsOf(v.done);
  }

  lemma DoneKeys<T>(s: System<T>, v: View<T>)
    requires Inv(s, v)
    ensures KeysBelow(v.done, |s.ptrTable|)
  {
  }

  // ----- one push -----

  lemma QueuedUpdate<T>(contents: seq<seq<T>>, k: nat, c: seq<T>)
    requires k < |contents|
    ensures Queued(contents[k := c]) + |contents[k]| == Queued(contents) + |c|
  {
    var n := |contents| - 1;
    if k < n {
      QueuedUpdate(contents[..n], k, c);
      assert contents[k := c][..n] == contents[..n][k := c];
    } else {
      assert contents[k := c][..n] == contents[..n];
    }
  }

  /** Reads add nothing to the queues. */
  lemma {:induction false} ReadsAddNothing<T>(n: nat, ops: seq<Op<T>>, more: seq<Op<T>>)
    requires KeysBelow(ops + more, n) && |PushesOf(ops + more)| == |PushesOf(ops)|
    ensures KeysBelow(ops, n) && Queued(Performed(n, ops + more).contents) <= Queued(Performed(n, ops).contents)
    decreases |more|
  {
    if |more| == 0 {
      assert ops + more == ops;
    } else {
      var all, m := ops + more, more[..|more|-1];
      assert all[..|all|-1] == ops + m;
      PushesGrow(ops, m);
      assert KeysBelow(ops + m, n);
      ReadsAddNothing(n, ops, m);
      var q, op := Performed(n, ops + m), all[|all|-1];
      assert !op.DoPush?;
      if |q.contents[op.key]| > 0 { QueuedUpdate(q.contents, op.key, q.contents[op.key][1..]); }
      hide Queued;
    }
  }

  lemma {:induction false} PushesGrow<T>(ops: seq<Op<T>>, more: seq<Op<T>>)
    ensures |PushesOf(ops)| <= |PushesOf(ops + more)|
    decreases |more|
  {
    if |more| == 0 {
      assert ops + more == ops;
    } else {
      assert (ops + more)[..|ops + more| - 1] == ops + more[..|more|-1];
      PushesGrow(ops, more[..|more|-1]);
    }
  }

  lemma {:induction false} NoneOffered<T>(schedule: seq<Action<T>>, n: nat)
    requires n <= |schedule| && forall i | n <= i < |schedule| :: Internal(schedule[i])
    ensures OfferedPushes(schedule) == OfferedPushes(schedule[..n]) && OfferedPops(schedule) == OfferedPops(schedule[..n])
    decreases |schedule|
  {
    if n < |schedule| {
      var s := schedule[..|schedule|-1];
      assert s[..n] == schedule[..n];
      NoneOffered(s, n);
    } else {
      assert schedule[..n] == schedule;
    }
  }

  /**
   * A push that waits while fewer than MULTI_QUEUE_SIZE values are queued: at the end
   * of such a run at least one more push has been completed, so the first that waits has.
   */
  lemma WaitingPushCompletes<T>(states: seq<System<T>>, schedule: seq<Action<T>>, n: nat, rounds: seq<seq<Action<T>>>)
    requires IsRun(states, schedule) && n <= |schedule| && schedule[n..] == Flat(rounds)
    requires FairRounds(rounds, Processes<T>())
    requires |states| == |schedule| + 1 && states[n].counter <= |states[n].metaTable| && |rounds| > Work(states[n])
    requires PushesOf(Log(states, schedule, n)) != OfferedPushes(schedule[..n])
    requires var done := Log(states, schedule, n);
      KeysBelow(done, |states[n].ptrTable|) && Queued(Performed(|states[n].ptrTable|, done).contents) < |states[n].metaTable|
    ensures |PushesOf(Log(states, schedule, |schedule|))| > |PushesOf(Log(states, schedule, n))|
  {
    var before, done := Log(states, schedule, n), Log(states, schedule, |schedule|);
    FlatActivates(rounds, Processes<T>());
    assert forall i | n <= i < |schedule| :: schedule[i] == schedule[n..][i - n];
    hide IsRun, Work, FairRounds, Inv, PushesOf, PopsOf, OfferedPops, OfferedPushes, Log, Queued, Performed;
    RequestsComplete(states, schedule, n, rounds);
    NoneOffered(schedule, n);
    LogGrows(states, schedule, n, |schedule|);
    SameSizes(states, schedule, n);
    var more := done[|before|..];
    assert done == before + more;
    PushesGrow(before, more);
    if |PushesOf(done)| == |PushesOf(before)| {
      ReadsAddNothing(|states[n].ptrTable|, before, more);
      PushesPrefix(before, more);
    }
  }

  lemma {:induction false} PushesPrefix<T>(ops: seq<Op<T>>, more: seq<Op<T>>)
    ensures PushesOf(ops) <= PushesOf(ops + more)
    decreases |more|
  {
    if |more| == 0 {
      assert ops + more == ops;
    } else {
      assert (ops + more)[..|ops + more| - 1] == ops + more[..|more|-1];
      PushesPrefix(ops, more[..|more|-1]);
    }
  }

  lemma SameSizes<T>(states: seq<System<T>>, schedule: seq<Action<T>>, n: nat)
    requires IsRun(states, schedule) && n <= |schedule| && |states| == |schedule| + 1
    ensures |states[n].ptrTable| == |states[|schedule|].ptrTable| && |states[n].metaTable| == |states[|schedule|].metaTable|
  {
    hide Inv, Log, Init;
    var u := RunInv(states, schedule, n);
    var v := RunInv(states, schedule, |schedule|);
  }

  // ----- such runs exist -----

  /** Every run can go on with any activations. */
  lemma {:induction false} Continues<T>(states: seq<System<T>>, schedule: seq<Action<T>>, more: seq<Action<T>>) returns (states': seq<System<T>>)
    requires IsRun(states, schedule) && forall i | 0 <= i < |more| :: Internal(more[i])
    ensures IsRun(states', schedule + more) && states <= states'
    decreases |more|
  {
    if |more| == 0 {
      states' := states;
      assert schedule + more == schedule;
    } else {
      hide Init, InRange, Step;
      var m := more[..|more|-1];
      var u := Continues(states, schedule, m);
      assert schedule + more == (schedule + m) + [more[|more|-1]];
      states' := OneMore(u, schedule + m, more[|more|-1]);
    }
  }

  lemma OneMore<T>(states: seq<System<T>>, schedule: seq<Action<T>>, a: Action<T>) returns (states': seq<System<T>>)
    requires IsRun(states, schedule) && Internal(a)
    ensures IsRun(states', schedule + [a]) && states <= states'
  {
    Counters(states, schedule, |schedule|);
    hide Init, InRange;
    states' := states + [Step(states[|schedule|], a)];
    forall i | 0 <= i < |schedule| + 1
      ensures Permitted(states'[i], (schedule + [a])[i])
      ensures InRange(states'[i]) ==> states'[i+1] == Step(states'[i], (schedule + [a])[i])
    {
      if i < |schedule| {
        Successor(states, schedule, i);
        assert Permitted(states[i], schedule[i]);
        assert states'[i] == states[i] && states'[i+1] == states[i+1];
      }
    }
  }

  ghost function InTurn<T>(n: nat): (rounds: seq<seq<Action<T>>>)
    ensures |rounds| == n && FairRounds(rounds, Processes<T>())
  {
    RoundRobin([RunFreeList, RunPointer, RunMeta, RunProcess], n)
  }

  lemma {:induction false} LogSame<T>(states: seq<System<T>>, schedule: seq<Action<T>>, states': seq<System<T>>, schedule': seq<Action<T>>, n: nat)
    requires n <= |schedule| <= |states| && states <= states' && schedule <= schedule' && |schedule'| <= |states'|
    ensures Log(states', schedule', n) == Log(states, schedule, n)
  {
    if n > 0 {
      hide Completed;
      LogSame(states, schedule, states', schedule', n - 1);
    }
  }

  /**
   * From every reachable state, with whatever has been offered: the processes in turn,
   * for as many rounds as there is work, complete all reads, and all pushes unless
   * MULTI_QUEUE_SIZE values are queued; what was completed before stays so.
   */
  lemma EveryRunCompletes<T>(states: seq<System<T>>, schedule: seq<Action<T>>) returns (states': seq<System<T>>, schedule': seq<Action<T>>)
    requires IsRun(states, schedule)
    ensures |states| == |schedule| + 1 && states[|schedule|].counter <= |states[|schedule|].metaTable|
    ensures IsRun(states', schedule') && states <= states' && |states'| == |schedule'| + 1
    ensures schedule' == schedule + Flat(InTurn(Work(states[|schedule|]) + 1))
    ensures var s, done := states'[|schedule'|], Log(states', schedule', |schedule'|);
      && Log(states, schedule, |schedule|) <= done && KeysBelow(done, |s.ptrTable|)
      && PopsOf(done) == OfferedPops(schedule)
      && (PushesOf(done) == OfferedPushes(schedule) || Queued(Performed(|s.ptrTable|, done).contents) == |s.metaTable|)
  {
    hide Work, Inv, InRange, PushesOf, PopsOf, OfferedPops, OfferedPushes, Log, Queued, Performed, FairRounds, IsRun, Flat;
    var n := |schedule|;
    Counters(states, schedule, n);
    var rounds := InTurn<T>(Work(states[n]) + 1);
    hide InTurn;
    FlatActivates(rounds, Processes<T>());
    states' := Continues(states, schedule, Flat(rounds));
    schedule' := schedule + Flat(rounds);
    Counters(states', schedule', |schedule'|);
    assert schedule'[n..] == Flat(rounds) && schedule'[..n] == schedule && states'[n] == states[n];
    RequestsComplete(states', schedule', n, rounds);
    NoneOffered(schedule', n);
    LogSame(states, schedule, states', schedule', n);
    LogGrows(states', schedule', n, |schedule'|);
  }

  // ----- the free list by itself -----

  /** What the free-list handler has left to do. */
  ghost function Missing<T>(s: System<T>): nat
    requires s.counter <= |s.metaTable|
  {
    |s.release| + (|s.metaTable| - s.counter)
  }

  lemma FreeListMoves<T>(s: System<T>, v: View<T>)
    requires Inv(s, v)
    ensures s.counter <= |s.metaTable|
    ensures var s' := FreeListStep(s);
      && Inv(s', v) && s'.counter <= |s'.metaTable| && s'.phase == s.phase && s'.newIdx == s.newIdx
      && |s'.metaTable| == |s.metaTable| && HeldIndex(s') == HeldIndex(s)
      && Missing(s') == if Missing(s) == 0 then 0 else Missing(s) - 1
  {
    hide Inv, InRange;
    CounterFits(s, v);
    SizeFits(s);
    FreeListKeeps(s, v);
  }

  lemma SizeFits<T>(s: System<T>)
    requires InRange(s)
    ensures |s.metaTable| < 0x1_0000
  {
  }

  /** An index that is neither in a chain nor held is free. */
  lemma NothingMissing<T>(s: System<T>, v: View<T>)
    requires Inv(s, v) && s.release == [] && s.counter == |s.metaTable|
    ensures forall i: nat | i < |s.metaTable| :: i in s.freeList <==> i !in HeldIndex(s) && i !in Members(v.chains)
  {
    hide Dialogue, PointersRight, InRange, Chains;
    PartitionCounts(s.freeList, s.release, HeldIndex(s), v.chains, s.counter, |s.metaTable|);
    forall i: nat | i < |s.metaTable|
      ensures i in s.freeList <==> i !in HeldIndex(s) && i !in Members(v.chains)
    {
      assert Places(s.freeList, s.release, HeldIndex(s), v.chains, s.counter, i) == 1;
      assert i in multiset(s.freeList) <==> i in s.freeList;
    }
  }

  ghost function FreeListSteps<T>(s: System<T>, n: nat): System<T>
    decreases n
  {
    if n == 0 then s else FreeListSteps(FreeListStep(s), n - 1)
  }

  /**
   * From every reachable state, the free-list handler alone, activated as often as
   * indexes are missing, brings every index that is in no chain and not held by a push
   * into the free list, and moves nothing else.
   */
  lemma {:induction false} FreeListFills<T>(s: System<T>, v: View<T>, n: nat)
    requires Inv(s, v) && s.counter <= |s.metaTable| && n == Missing(s)
    ensures var s' := FreeListSteps(s, n);
      && Inv(s', v) && s'.phase == s.phase && s'.newIdx == s.newIdx && |s'.metaTable| == |s.metaTable|
      && forall i: nat | i < |s.metaTable| :: i in s'.freeList <==> i !in HeldIndex(s) && i !in Members(v.chains)
    decreases n
  {
    FreeListMoves(s, v);
    var s1 := FreeListStep(s);
    hide Inv, FreeListStep, Members;
    if n == 0 {
      NothingMissing(s, v);
    } else {
      FreeListFills(s1, v, n - 1);
    }
  }
}
