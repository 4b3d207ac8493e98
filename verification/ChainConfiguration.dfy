/** Which configurations keep first successes in order, and that a run in which no retried
    message fails again does so under any. */
module ChainConfiguration {
  import opened RetryChain
  import opened ChainLocks
  import opened ChainLoss
  import opened ChainFirst
  import opened ChainOvertaking

  /** No message is published to the retry topic twice, and none that was dead-lettered is
      freed there. */
  predicate KeepsOrder(c: Config) {
    c.maxRetries == 0 || (c.maxRetries == 1 && !c.freeOnDLQ)
  }

  /** A retried message fails again. */
  ghost predicate SecondFailure(s: State, a: Action) {
    a.Handle? && Busy(s, a.l) && Current(s, a.l).inChain && !a.result.Succeeds?
  }

  // ---------------------------------------------------------------- what the retry lanes keep

  ghost predicate Attempted(s: State) {
    forall r, i | 0 <= r < |s.lanes| && !s.lanes[r].main && 0 <= i < |s.lanes[r].log| :: s.lanes[r].log[i].attempt >= 1
  }

  /** Only what has succeeded is being freed. */
  ghost predicate FreesSuccesses(s: State) {
    forall r: nat | Busy(s, r) && !s.lanes[r].main && (s.lanes[r].phase.Freeing? || s.lanes[r].phase.FreePending?) ::
      Current(s, r).source in s.succeeded
  }

  ghost predicate NoneFailing(s: State) {
    forall r | 0 <= r < |s.lanes| && !s.lanes[r].main :: !s.lanes[r].phase.Failing?
  }

  lemma AtFirst(c: Config, s: State)
    requires Init(c, s)
    ensures Attempted(s) && FreesSuccesses(s) && NoneFailing(s)
  {
  }

  lemma AttemptedStays(c: Config, s: State, a: Action)
    requires Attempted(s) && Enabled(c, s, a) && !a.Crash?
    ensures Attempted(Step(c, s, a))
  {
    StepLanes(c, s, a);
    var s' := Step(c, s, a);
    forall r, i | 0 <= r < |s'.lanes| && !s'.lanes[r].main && 0 <= i < |s'.lanes[r].log|
      ensures s'.lanes[r].log[i].attempt >= 1
    {
      LogsGrow(c, s, a, r);
      assert i < |s.lanes[r].log| ==> s'.lanes[r].log[i] == s.lanes[r].log[i];
    }
  }

  /** A message of the retry topic comes to be freed by succeeding, or by being dead-lettered. */
  lemma FreesSuccessesStays(c: Config, s: State, a: Action)
    requires Shaped(c, s) && FreesSuccesses(s) && Enabled(c, s, a) && !a.Crash?
    requires a.DeadLetter? && !s.lanes[a.l].main ==> NewPhase(c, s, a) != Freeing
    ensures FreesSuccesses(Step(c, s, a))
  {
    var s' := Step(c, s, a);
    StepLanes(c, s, a);
    forall r: nat | Busy(s', r) && !s'.lanes[r].main && (s'.lanes[r].phase.Freeing? || s'.lanes[r].phase.FreePending?)
      ensures Current(s', r).source in s'.succeeded
    {
      LogsGrow(c, s, a, r);
      SucceededGrows(c, s, a);
      assert LaneOk(c, s.lanes[r], r);
    }
  }

  lemma NoneFailingStays(c: Config, s: State, a: Action)
    requires Shaped(c, s) && NoneFailing(s) && Enabled(c, s, a) && !a.Crash? && !SecondFailure(s, a)
    ensures NoneFailing(Step(c, s, a))
    ensures a.DeadLetter? ==> s.lanes[a.l].main
  {
    StepLanes(c, s, a);
    MessageOk(c, s, a.l);
  }

  // ---------------------------------------------------------------- no step threatens the order

  /** A release that fails concerns a message that has succeeded. */
  lemma NeverBroughtBack(c: Config, s: State, a: Action)
    requires Conserved(c, s) && FreesSuccesses(s) && Enabled(c, s, a)
    ensures !BroughtBack(s, a)
  {
  }

  lemma NeverOvertakenOnce(c: Config, s: State, a: Action)
    requires Conserved(c, s) && Enabled(c, s, a)
    requires NoneFailing(s) || (Attempted(s) && c.maxRetries <= 1)
    ensures !Overtaken(s, a)
  {
    if Publishes(a) {
      MessageOk(c, s, a.l);
    }
  }

  lemma {:induction false} OrderlyByConfiguration(c: Config, states: seq<State>, actions: seq<Action>, n: nat)
    requires KeepsOrder(c) && Behavior(c, states, actions) && FaithfulRun(states, actions) && n < |states|
    ensures Attempted(states[n]) && FreesSuccesses(states[n])
    ensures OrderlyRun(states, actions, n)
    decreases n
  {
    if n == 0 {
      AtFirst(c, states[0]);
    } else {
      var s, a := states[n - 1], actions[n - 1];
      OrderlyByConfiguration(c, states, actions, n - 1);
      LocksConserved(c, states, actions, n - 1);
      assert Next(c, s, a, states[n]) && Faithful(s, a);
      NeverOvertakenOnce(c, s, a);
      NeverBroughtBack(c, s, a);
      AttemptedStays(c, s, a);
      MessageOk(c, s, a.l);
      FreesSuccessesStays(c, s, a);
    }
  }

  lemma {:induction false} OrderlyWithoutSecondFailures(c: Config, states: seq<State>, actions: seq<Action>, n: nat)
    requires Behavior(c, states, actions) && FaithfulRun(states, actions) && n < |states|
    requires forall i | 0 <= i < n :: !SecondFailure(states[i], actions[i])
    ensures NoneFailing(states[n]) && FreesSuccesses(states[n])
    ensures OrderlyRun(states, actions, n)
    decreases n
  {
    if n == 0 {
      AtFirst(c, states[0]);
    } else {
      var s, a := states[n - 1], actions[n - 1];
      OrderlyWithoutSecondFailures(c, states, actions, n - 1);
      LocksConserved(c, states, actions, n - 1);
      assert Next(c, s, a, states[n]) && Faithful(s, a);
      NeverOvertakenOnce(c, s, a);
      NeverBroughtBack(c, s, a);
      NoneFailingStays(c, s, a);
      FreesSuccessesStays(c, s, a);
    }
  }

  // ---------------------------------------------------------------- the order

  /** If no retried message fails again, the first successes of a key on a main partition come
      in the order of that partition. */
  lemma InOrderWithoutSecondFailures(c: Config, states: seq<State>, actions: seq<Action>, n: nat)
    requires Behavior(c, states, actions) && FaithfulRun(states, actions) && n < |states|
    requires forall i | 0 <= i < n :: !SecondFailure(states[i], actions[i])
    ensures FirstsInOrder(states[n])
  {
    OrderlyWithoutSecondFailures(c, states, actions, n);
    FirstSuccessesInOrder(c, states, actions, n);
  }

  /** Two messages of a key have two without another between them. */
  lemma {:induction false} Nearest(s: State, l: nat, i: nat, j: nat)
    requires l < |s.lanes| && s.lanes[l].main && i < j < |s.lanes[l].log|
    requires s.lanes[l].log[i].key == s.lanes[l].log[j].key
    ensures SomeKeyTwice(s)
    decreases j - i
  {
    if o :| i < o < j && s.lanes[l].log[o].key == s.lanes[l].log[i].key {
      Nearest(s, l, i, o);
    } else {
      assert Neighbours(s, l, i, j);
    }
  }

  lemma NothingToOrder(c: Config, s0: State, states: seq<State>, actions: seq<Action>, n: nat)
    requires Behavior(c, states, actions) && n < |states| && states[0] == s0 && !SomeKeyTwice(s0)
    ensures FirstsInOrder(states[n])
  {
    var s := states[n];
    forall a, b ensures !Precedes(s, a, b) {
      if Precedes(s, a, b) {
        MainStays(c, states, actions, n, a.lane);
        Nearest(s0, a.lane, a.offset, b.offset);
        assert false;
      }
    }
  }

  lemma {:induction false} MainStays(c: Config, states: seq<State>, actions: seq<Action>, n: nat, l: nat)
    requires Behavior(c, states, actions) && n < |states| && l < |states[n].lanes|
    ensures l < |states[0].lanes| && states[n].lanes[l].main == states[0].lanes[l].main
    ensures states[0].lanes[l].main ==> states[n].lanes[l].log == states[0].lanes[l].log
    decreases n
  {
    if n > 0 {
      assert Next(c, states[n - 1], actions[n - 1], states[n]);
      StepLanes(c, states[n - 1], actions[n - 1]);
      LogsGrow(c, states[n - 1], actions[n - 1], l);
      MainStays(c, states, actions, n - 1, l);
    }
  }

  /** From a starting state every faithful run keeps first successes in order if and only if
      the configuration allows no retry, or only one with locks kept on dead-lettering, or no
      main partition holds two messages of one key. */
  lemma OrderByConfiguration(c: Config, s0: State)
    requires Init(c, s0)
    ensures KeepsOrder(c) || !SomeKeyTwice(s0) <==> !CanBreak(c, s0)
  {
    if !KeepsOrder(c) && SomeKeyTwice(s0) {
      if c.maxRetries >= 2 {
        OvertakingHappens(c, s0);
      } else {
        BringingBackHappens(c, s0);
      }
    } else if CanBreak(c, s0) {
      var run: Run :| && Behavior(c, run.states, run.actions) && FaithfulRun(run.states, run.actions)
                      && run.states[0] == s0 && !FirstsInOrder(Last(run));
      if KeepsOrder(c) {
        OrderlyByConfiguration(c, run.states, run.actions, |run.actions|);
        FirstSuccessesInOrder(c, run.states, run.actions, |run.actions|);
      } else {
        NothingToOrder(c, s0, run.states, run.actions, |run.actions|);
      }
    }
  }
}
