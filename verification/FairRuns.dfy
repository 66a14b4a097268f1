/**
 * Runs of processes in fair rounds, in which every process is activated at least once:
 * if each activation has no effect or leaves less work, then after more rounds than
 * there was work no activation has any effect.
 */
module FairRuns {
  /** Every process runs at least once, in any order, and nothing else happens. */
  predicate FairRound<A(==)>(round: seq<A>, processes: set<A>) {
    (forall a | a in processes :: a in round) && (forall i | 0 <= i < |round| :: round[i] in processes)
  }

  predicate FairRounds<A(==)>(rounds: seq<seq<A>>, processes: set<A>) {
    forall i | 0 <= i < |rounds| :: FairRound(rounds[i], processes)
  }

  function Flat<A>(rounds: seq<seq<A>>): seq<A> {
    if |rounds| == 0 then [] else rounds[0] + Flat(rounds[1..])
  }

  /** From the n-th state on, each step has no effect or leaves less work. */
  ghost predicate Works<S, A>(states: seq<S>, schedule: seq<A>, work: S -> nat, n: nat) {
    |states| == |schedule| + 1
    && forall i | n <= i < |schedule| :: states[i+1] == states[i] || work(states[i+1]) < work(states[i])
  }

  /** The same activation of the same state has the same effect. */
  ghost predicate Deterministic<S, A>(states: seq<S>, schedule: seq<A>, n: nat) {
    |states| == |schedule| + 1
    && forall i, j | n <= i < |schedule| && n <= j < |schedule| && states[i] == states[j] && schedule[i] == schedule[j] ::
         states[i+1] == states[j+1]
  }

  /** The process was activated in the last state, without effect. */
  ghost predicate Tried<S, A>(states: seq<S>, schedule: seq<A>, a: A) {
    |states| == |schedule| + 1
    && exists i :: 0 <= i < |schedule| && schedule[i] == a && states[i] == states[i+1] == states[|schedule|]
  }

  lemma {:induction false} StretchWorks<S, A>(states: seq<S>, schedule: seq<A>, work: S -> nat, n: nat, m: nat)
    requires Works(states, schedule, work, n) && n <= m <= |schedule|
    ensures (forall i | n <= i <= m :: states[i] == states[n]) || work(states[m]) < work(states[n])
    decreases m
  {
    if n < m { StretchWorks(states, schedule, work, n, m - 1); }
  }

  lemma {:induction false} FlatActivates<A>(rounds: seq<seq<A>>, processes: set<A>)
    requires FairRounds(rounds, processes)
    ensures forall i | 0 <= i < |Flat(rounds)| :: Flat(rounds)[i] in processes
  {
    if |rounds| > 0 { FlatActivates(rounds[1..], processes); }
  }

  lemma FirstRound<A>(schedule: seq<A>, n: nat, rounds: seq<seq<A>>)
    requires n <= |schedule| && schedule[n..] == Flat(rounds) && |rounds| > 0
    ensures var m := n + |rounds[0]|; m <= |schedule| && schedule[n..m] == rounds[0] && schedule[m..] == Flat(rounds[1..])
  {
    var m := n + |rounds[0]|;
    assert schedule[n..][..|rounds[0]|] == rounds[0] && schedule[n..][|rounds[0]|..] == Flat(rounds[1..]);
    assert schedule[n..m] == rounds[0] && schedule[m..] == Flat(rounds[1..]);
  }

  /** Once a whole round had no effect, nothing ever has. */
  lemma {:induction false} StaysPut<S, A>(states: seq<S>, schedule: seq<A>, processes: set<A>, n: nat, m: nat, k: nat)
    requires Deterministic(states, schedule, n) && n <= m <= k <= |schedule|
    requires FairRound(schedule[n..m], processes) && (forall i | n <= i <= m :: states[i] == states[n])
    requires forall i | n <= i < |schedule| :: schedule[i] in processes
    ensures states[k] == states[n]
    decreases k
  {
    if m < k {
      StaysPut(states, schedule, processes, n, m, k - 1);
      var a := schedule[k-1];
      assert a in schedule[n..m];
      var i :| 0 <= i < m - n && schedule[n..m][i] == a;
      var j := n + i;
      assert schedule[j] == a && states[j] == states[k-1] && states[j+1] == states[n];
      assert states[j+1] == states[k-1+1];
    }
  }

  lemma RoundHadNoEffect<S, A>(states: seq<S>, schedule: seq<A>, processes: set<A>, n: nat, m: nat)
    requires Deterministic(states, schedule, n) && n <= m <= |schedule|
    requires FairRound(schedule[n..m], processes) && (forall i | n <= i <= m :: states[i] == states[n])
    requires forall i | n <= i < |schedule| :: schedule[i] in processes
    ensures forall a | a in processes :: Tried(states, schedule, a)
  {
    StaysPut(states, schedule, processes, n, m, |schedule|);
    forall a | a in processes ensures Tried(states, schedule, a) {
      assert a in schedule[n..m];
      var i :| 0 <= i < m - n && schedule[n..m][i] == a;
      var j := n + i;
      assert schedule[j] == a && states[j] == states[n] && states[j+1] == states[n];
    }
  }

  lemma Later<S, A>(states: seq<S>, schedule: seq<A>, work: S -> nat, n: nat, m: nat)
    requires Works(states, schedule, work, n) && Deterministic(states, schedule, n) && n <= m
    ensures Works(states, schedule, work, m) && Deterministic(states, schedule, m)
  {
  }

  /** After more fair rounds than there was work, every process has been tried in vain. */
  lemma {:induction false} RoundsSettle<S, A>(states: seq<S>, schedule: seq<A>, processes: set<A>, work: S -> nat,
                                              n: nat, rounds: seq<seq<A>>)
    requires Works(states, schedule, work, n) && Deterministic(states, schedule, n)
    requires n <= |schedule| && schedule[n..] == Flat(rounds) && FairRounds(rounds, processes)
    requires |rounds| > work(states[n])
    ensures forall a | a in processes :: Tried(states, schedule, a)
    decreases |rounds|
  {
    var m := n + |rounds[0]|;
    FirstRound(schedule, n, rounds);
    StretchWorks(states, schedule, work, n, m);
    if forall i | n <= i <= m :: states[i] == states[n] {
      FlatActivates(rounds, processes);
      assert forall i | n <= i < |schedule| :: schedule[i] == schedule[n..][i - n];
      assert FairRound(rounds[0], processes);
      hide FairRound, Works, Deterministic, Tried;
      RoundHadNoEffect(states, schedule, processes, n, m);
    } else {
      Later(states, schedule, work, n, m);
      hide FairRound, Works, Deterministic, Tried;
      RoundsSettle(states, schedule, processes, work, m, rounds[1..]);
    }
  }

  // ----- such schedules exist -----

  function RoundRobin<A>(round: seq<A>, n: nat): (rounds: seq<seq<A>>)
    ensures |rounds| == n && forall i | 0 <= i < n :: rounds[i] == round
  {
    seq(n, _ => round)
  }
}
