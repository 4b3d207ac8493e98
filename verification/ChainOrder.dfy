/** Ordering: the main worker never calls the handler while an earlier message of the key is
    unresolved, and without repeated failures messages of a key succeed in their order. */
module ChainOrder {
  import opened LockTable
  import opened RetryChain
  import opened ChainSums
  import opened ChainLocks
  import opened ChainLoss

  /** Succeeded, or dead-lettered without keeping a lock. */
  ghost predicate Resolved(s: State, src: Source) {
    src in s.succeeded || exists i | 0 <= i < |s.dead| :: s.dead[i].msg.source == src && !s.dead[i].kept
  }

  /** Dead-lettered with its lock kept. */
  ghost predicate KeptDead(s: State, m: Msg) {
    exists i | 0 <= i < |s.dead| :: s.dead[i].kept && s.dead[i].msg.source == m.source && s.dead[i].msg.key == m.key
  }

  /** Waiting or being handled in its retry lane, behind `after`, with its lock counted. */
  ghost predicate LockedAhead(c: Config, s: State, m: Msg, after: int)
    requires c.route(m.key) < |s.lanes|
  {
    var lane := s.lanes[c.route(m.key)];
    exists j | lane.pos <= j < |lane.log| ::
      && j > after && lane.log[j].source == m.source && lane.log[j].key == m.key
      && (j == lane.pos ==> OwnsLock(false, lane.phase))
  }

  ghost predicate Accounted(c: Config, s: State, m: Msg, after: int)
    requires c.route(m.key) < |s.lanes|
  {
    Resolved(s, m.source) || KeptDead(s, m) || LockedAhead(c, s, m, after)
  }

  /** Passed by the main worker, or about to be passed by any. */
  predicate Gone(s: State, l: nat, o: nat)
    requires l < |s.lanes| && o < |s.lanes[l].log|
  {
    (s.lanes[l].main && o < s.lanes[l].pos) || (o == s.lanes[l].pos && s.lanes[l].phase == Done)
  }

  ghost predicate EarlierResolved(s: State, l: nat)
    requires l < |s.lanes| && s.lanes[l].pos < |s.lanes[l].log|
  {
    forall o | 0 <= o < s.lanes[l].pos && s.lanes[l].log[o].key == s.lanes[l].log[s.lanes[l].pos].key ::
      Resolved(s, s.lanes[l].log[o].source)
  }

  ghost predicate InOrder(c: Config, s: State) {
    && Covering(c, s)
    && (forall l, o | 0 <= l < |s.lanes| && 0 <= o < |s.lanes[l].log| && Gone(s, l, o) ::
          Accounted(c, s, s.lanes[l].log[o], After(c, l, s.lanes[l].log[o], o)))
    && (forall l | 0 <= l < |s.lanes| && !s.lanes[l].main
                  && (s.lanes[l].phase.Freeing? || s.lanes[l].phase.FreePending?) ::
          Resolved(s, Current(s, l).source))
    && (forall l | 0 <= l < |s.lanes| && s.lanes[l].main && s.lanes[l].phase == Clear :: EarlierResolved(s, l))
  }

  // ---------------------------------------------------------------- one step

  lemma ResolvedStays(c: Config, s: State, a: Action, src: Source)
    requires Enabled(c, s, a) && Resolved(s, src)
    ensures Resolved(Step(c, s, a), src)
  {
    var s' := Step(c, s, a);
    if i :| 0 <= i < |s.dead| && s.dead[i].msg.source == src && !s.dead[i].kept {
      assert s'.dead[i] == s.dead[i];
    }
  }

  lemma KeptDeadStays(c: Config, s: State, a: Action, m: Msg)
    requires Enabled(c, s, a) && KeptDead(s, m)
    ensures KeptDead(Step(c, s, a), m)
  {
    var s' := Step(c, s, a);
    var i :| 0 <= i < |s.dead| && s.dead[i].kept && s.dead[i].msg.source == m.source && s.dead[i].msg.key == m.key;
    assert s'.dead[i] == s.dead[i];
  }

  /** When the worker ahead stops counting the message's lock, the message is resolved, or
      dead-lettered with its lock, or waiting further on. */
  lemma LockGivenUp(c: Config, s: State, a: Action)
    requires InOrder(c, s) && Enabled(c, s, a) && Faithful(s, a) && !a.Mark?
    requires !s.lanes[a.l].main && !OwnsLock(false, NewPhase(c, s, a))
    ensures var m := Current(s, a.l); Accounted(c, Step(c, s, a), m, s.lanes[a.l].pos)
  {
    var s', lane, m := Step(c, s, a), s.lanes[a.l], Current(s, a.l);
    assert LaneOk(c, lane, a.l) && MsgOk(c, lane, a.l, lane.pos);
    if lane.phase.Freeing? || lane.phase.FreePending? {
      ResolvedStays(c, s, a, m.source);
    } else if a.DeadLetter? {
      var d := s'.dead[|s.dead|];
      assert d.msg == m;
    } else if a.PublishRetry? {
      StepLanes(c, s, a);
      LogsGrow(c, s, a, a.l);
      assert s'.lanes[a.l].log[|lane.log|] == Retried(m);
    }
  }

  lemma AccountedStays(c: Config, s: State, a: Action, m: Msg, after: int)
    requires InOrder(c, s) && Enabled(c, s, a) && Faithful(s, a) && Accounted(c, s, m, after)
    ensures Accounted(c, Step(c, s, a), m, after)
  {
    var s', r := Step(c, s, a), c.route(m.key);
    StepLanes(c, s, a);
    if Resolved(s, m.source) {
      ResolvedStays(c, s, a, m.source);
    } else if KeptDead(s, m) {
      KeptDeadStays(c, s, a, m);
    } else {
      var lane, lane' := s.lanes[r], s'.lanes[r];
      var j :| lane.pos <= j < |lane.log| && j > after && lane.log[j].source == m.source && lane.log[j].key == m.key
               && (j == lane.pos ==> OwnsLock(false, lane.phase));
      LogsGrow(c, s, a, r);
      assert lane'.log[j] == lane.log[j];
      if a.l == r && j == lane.pos && !OwnsLock(false, NewPhase(c, s, a)) {
        LockGivenUp(c, s, a);
        AccountedSame(c, s', lane.log[j], m, j, after);
      }
    }
  }

  lemma AccountedSame(c: Config, s: State, m: Msg, m': Msg, after: int, after': int)
    requires c.route(m.key) < |s.lanes| && m.source == m'.source && m.key == m'.key && after' < after
    requires Accounted(c, s, m, after)
    ensures Accounted(c, s, m', after')
  {
  }

  /** A worker is done with a message only when the message is accounted for elsewhere. */
  lemma DoneIsAccounted(c: Config, s: State, a: Action)
    requires InOrder(c, s) && Enabled(c, s, a) && Faithful(s, a) && NewPhase(c, s, a) == Done
    ensures var m := Current(s, a.l); Accounted(c, Step(c, s, a), m, After(c, a.l, m, s.lanes[a.l].pos))
  {
    var s', lane, m := Step(c, s, a), s.lanes[a.l], Current(s, a.l);
    assert LaneOk(c, lane, a.l) && MsgOk(c, lane, a.l, lane.pos);
    if !lane.main {
      LockGivenUp(c, s, a);
    } else if a.DeadLetter? {
      assert s'.dead[|s.dead|].msg == m && !s'.dead[|s.dead|].kept;
    } else if a.PublishRetry? {
      var r := c.route(m.key);
      StepLanes(c, s, a);
      LogsGrow(c, s, a, r);
      assert LaneOk(c, s.lanes[r], r);
      assert s'.lanes[r].log[|s.lanes[r].log|] == Retried(m);
    }
  }

  // ---------------------------------------------------------------- what the check finds out

  lemma {:induction false} KeptCounts(dead: seq<Dead>, i: nat, key: string)
    requires i < |dead| && dead[i].kept && dead[i].msg.key == key
    ensures Kept(dead, key) > 0
    decreases |dead|
  {
    if i < |dead| - 1 {
      KeptCounts(dead[..|dead| - 1], i, key);
    }
  }

  lemma HeldCounts(c: Config, s: State, r: nat, j: nat)
    requires Shaped(c, s) && r < |s.lanes| && !s.lanes[r].main && s.lanes[r].pos <= j < |s.lanes[r].log|
    requires j == s.lanes[r].pos ==> OwnsLock(false, s.lanes[r].phase)
    ensures Total(s.lanes, LockOf(s.lanes[r].log[j].key)) > 0
  {
    var lane := s.lanes[r];
    var cost := LockOf(lane.log[j].key);
    assert LaneOk(c, lane, r) && MsgOk(c, lane, r, j);
    if j > lane.pos {
      assert lane.log[lane.pos + 1..][j - lane.pos - 1] == lane.log[j];
      WaitingCounts(lane.log[lane.pos + 1..], j - lane.pos - 1, cost);
    }
    TotalUpdate(s.lanes, r, lane, cost);
  }

  /** An accounted message of a key that is not locked is resolved. */
  lemma UnlockedIsResolved(c: Config, s: State, m: Msg, after: int)
    requires Covering(c, s) && Count(s.table, c.topic, m.key) == 0 && Accounted(c, s, m, after)
    ensures Resolved(s, m.source)
  {
    assert LockTotal(s, m.key) <= 0;
    if KeptDead(s, m) {
      var i :| 0 <= i < |s.dead| && s.dead[i].kept && s.dead[i].msg.source == m.source && s.dead[i].msg.key == m.key;
      KeptCounts(s.dead, i, m.key);
    } else if LockedAhead(c, s, m, after) {
      var r := c.route(m.key);
      var lane := s.lanes[r];
      var j :| lane.pos <= j < |lane.log| && lane.log[j].key == m.key
               && (j == lane.pos ==> OwnsLock(false, lane.phase));
      HeldCounts(c, s, r, j);
    }
  }

  lemma BeginFindsEarlierResolved(c: Config, s: State, l: nat)
    requires InOrder(c, s) && l < |s.lanes| && s.lanes[l].main && s.lanes[l].pos < |s.lanes[l].log|
    requires !IsLocked(c, s, Current(s, l).key)
    ensures EarlierResolved(s, l)
  {
    var lane := s.lanes[l];
    CountNonNegative(s.table, c.topic, Current(s, l).key);
    forall o | 0 <= o < lane.pos && lane.log[o].key == Current(s, l).key ensures Resolved(s, lane.log[o].source) {
      assert Gone(s, l, o);
      UnlockedIsResolved(c, s, lane.log[o], After(c, l, lane.log[o], o));
    }
  }

  // ---------------------------------------------------------------- the invariant

  lemma GoneIsAccounted(c: Config, s: State, a: Action, l: nat, o: nat)
    requires InOrder(c, s) && Enabled(c, s, a) && Faithful(s, a)
    requires var s' := Step(c, s, a); l < |s'.lanes| && o < |s'.lanes[l].log| && Gone(s', l, o)
    ensures l < |s.lanes| && o < |s.lanes[l].log|
    ensures var s' := Step(c, s, a); Accounted(c, s', s'.lanes[l].log[o], After(c, l, s'.lanes[l].log[o], o))
  {
    StepLanes(c, s, a);
    LogsGrow(c, s, a, l);
    assert LaneOk(c, s.lanes[l], l);
    var m := s.lanes[l].log[o];
    if Gone(s, l, o) {
      AccountedStays(c, s, a, m, After(c, l, m, o));
    } else {
      assert l == a.l && o == s.lanes[l].pos && NewPhase(c, s, a) == Done;
      DoneIsAccounted(c, s, a);
    }
  }

  lemma FreeingIsResolved(c: Config, s: State, a: Action, l: nat)
    requires InOrder(c, s) && Enabled(c, s, a) && Faithful(s, a)
    requires var s' := Step(c, s, a);
             l < |s'.lanes| && !s'.lanes[l].main && (s'.lanes[l].phase.Freeing? || s'.lanes[l].phase.FreePending?)
    ensures var s' := Step(c, s, a); Busy(s', l) && Resolved(s', Current(s', l).source)
  {
    var s' := Step(c, s, a);
    StepLanes(c, s, a);
    LogsGrow(c, s, a, l);
    assert LaneOk(c, s.lanes[l], l);
    if s.lanes[l].phase.Freeing? || s.lanes[l].phase.FreePending? {
      ResolvedStays(c, s, a, Current(s, l).source);
    } else if a.DeadLetter? {
      assert s'.dead[|s.dead|].msg == Current(s, l) && !s'.dead[|s.dead|].kept;
    }
  }

  lemma ClearIsResolved(c: Config, s: State, a: Action, l: nat)
    requires InOrder(c, s) && Enabled(c, s, a) && Faithful(s, a)
    requires var s' := Step(c, s, a); l < |s'.lanes| && s'.lanes[l].main && s'.lanes[l].phase == Clear
    ensures var s' := Step(c, s, a); Busy(s', l) && EarlierResolved(s', l)
  {
    var s' := Step(c, s, a);
    StepLanes(c, s, a);
    LogsGrow(c, s, a, l);
    assert LaneOk(c, s.lanes[l], l);
    if s.lanes[l].phase != Clear || l != a.l {
      if l == a.l {
        BeginFindsEarlierResolved(c, s, l);
      }
      assert EarlierResolved(s, l);
      forall o | 0 <= o < s'.lanes[l].pos && s'.lanes[l].log[o].key == Current(s', l).key
        ensures Resolved(s', s'.lanes[l].log[o].source)
      {
        ResolvedStays(c, s, a, s.lanes[l].log[o].source);
      }
    }
  }

  lemma StepKeepsOrder(c: Config, s: State, a: Action)
    requires InOrder(c, s) && Enabled(c, s, a) && Faithful(s, a)
    ensures InOrder(c, Step(c, s, a))
  {
    var s' := Step(c, s, a);
    StepKeepsCovering(c, s, a);
    forall l, o | 0 <= l < |s'.lanes| && 0 <= o < |s'.lanes[l].log| && Gone(s', l, o)
      ensures Accounted(c, s', s'.lanes[l].log[o], After(c, l, s'.lanes[l].log[o], o))
    {
      GoneIsAccounted(c, s, a, l, o);
    }
    forall l | 0 <= l < |s'.lanes| && !s'.lanes[l].main
               && (s'.lanes[l].phase.Freeing? || s'.lanes[l].phase.FreePending?)
      ensures Resolved(s', Current(s', l).source)
    {
      FreeingIsResolved(c, s, a, l);
    }
    forall l | 0 <= l < |s'.lanes| && s'.lanes[l].main && s'.lanes[l].phase == Clear
      ensures EarlierResolved(s', l)
    {
      ClearIsResolved(c, s, a, l);
    }
  }

  /** A worker that starts over leaves everything accounted for as it was. */
  lemma RestartKeepsAccounts(c: Config, s: State, a: Action, m: Msg, after: int)
    requires InOrder(c, s) && Restarts(c, s, a) && Accounted(c, s, m, after)
    ensures Accounted(c, Step(c, s, a), m, after)
  {
    var s', r := Step(c, s, a), c.route(m.key);
    if Resolved(s, m.source) {
      ResolvedStays(c, s, a, m.source);
    } else if KeptDead(s, m) {
      KeptDeadStays(c, s, a, m);
    } else {
      var j :| s.lanes[r].pos <= j < |s.lanes[r].log| && j > after
               && s.lanes[r].log[j].source == m.source && s.lanes[r].log[j].key == m.key
               && (j == s.lanes[r].pos ==> OwnsLock(false, s.lanes[r].phase));
      assert s'.lanes[r].log[j] == s.lanes[r].log[j];
    }
  }

  lemma RestartKeepsOrder(c: Config, s: State, a: Action)
    requires InOrder(c, s) && Restarts(c, s, a)
    ensures InOrder(c, Step(c, s, a))
  {
    var s' := Step(c, s, a);
    RestartKeepsCovering(c, s, a);
    forall l, o | 0 <= l < |s'.lanes| && 0 <= o < |s'.lanes[l].log| && Gone(s', l, o)
      ensures Accounted(c, s', s'.lanes[l].log[o], After(c, l, s'.lanes[l].log[o], o))
    {
      assert Gone(s, l, o);
      RestartKeepsAccounts(c, s, a, s.lanes[l].log[o], After(c, l, s.lanes[l].log[o], o));
    }
    forall l | 0 <= l < |s'.lanes| && !s'.lanes[l].main
               && (s'.lanes[l].phase.Freeing? || s'.lanes[l].phase.FreePending?)
      ensures Resolved(s', Current(s', l).source)
    {
      ResolvedStays(c, s, a, Current(s, l).source);
    }
    forall l | 0 <= l < |s'.lanes| && s'.lanes[l].main && s'.lanes[l].phase == Clear
      ensures EarlierResolved(s', l)
    {
      assert EarlierResolved(s, l);
      forall o | 0 <= o < s'.lanes[l].pos && s'.lanes[l].log[o].key == Current(s', l).key
        ensures Resolved(s', s'.lanes[l].log[o].source)
      {
        ResolvedStays(c, s, a, s.lanes[l].log[o].source);
      }
    }
  }

  /** Runs in which workers may also start over. */
  ghost predicate RestartingRun(c: Config, states: seq<State>, actions: seq<Action>) {
    && |states| == |actions| + 1
    && forall n | 0 <= n < |actions| :: Faithful(states[n], actions[n]) || Restarts(c, states[n], actions[n])
  }

  lemma {:induction false} AlwaysInOrder(c: Config, states: seq<State>, actions: seq<Action>, n: nat)
    requires Behavior(c, states, actions) && RestartingRun(c, states, actions) && n < |states|
    ensures InOrder(c, states[n])
    decreases n
  {
    if n == 0 {
      LocksConserved(c, states, actions, 0);
    } else {
      AlwaysInOrder(c, states, actions, n - 1);
      assert Next(c, states[n - 1], actions[n - 1], states[n]);
      if Faithful(states[n - 1], actions[n - 1]) {
        StepKeepsOrder(c, states[n - 1], actions[n - 1]);
      } else {
        RestartKeepsOrder(c, states[n - 1], actions[n - 1]);
      }
    }
  }

  /** Whenever the main worker calls the user's handler for a message, every earlier message
      of its key on that partition has succeeded or was dead-lettered without keeping a lock;
      nothing that happens between the lock check and the handler's return changes that, and
      it stays so when workers start over. */
  lemma NoOvertaking(c: Config, states: seq<State>, actions: seq<Action>, n: nat, o: nat)
    requires Behavior(c, states, actions) && RestartingRun(c, states, actions) && n < |actions|
    requires actions[n].Handle? && Busy(states[n], actions[n].l)
    requires states[n].lanes[actions[n].l].main && o < states[n].lanes[actions[n].l].pos
    requires states[n].lanes[actions[n].l].log[o].key == Current(states[n], actions[n].l).key
    ensures Resolved(states[n], Source(actions[n].l, o))
  {
    AlwaysInOrder(c, states, actions, n);
    var s, l := states[n], actions[n].l;
    assert Next(c, states[n], actions[n], states[n + 1]);
    assert LaneOk(c, s.lanes[l], l) && MsgOk(c, s.lanes[l], l, o);
    assert EarlierResolved(s, l);
  }
}
