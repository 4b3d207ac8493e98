/** Why a table that counts just the outstanding locks is not enough to start over with: a
    retry worker that has released a lock and not marked the message handles it again, and
    gives away the lock of another one. */
module ChainRestart {
  import opened LockTable
  import opened RetryChain
  import opened ChainLocks
  import opened ChainLoss
  import opened ChainOrder
  import opened ChainOvertaking

  /** A run whose steps are faithful, except step `x`. */
  ghost predicate FaithfulBut(c: Config, run: Run, x: nat) {
    && Behavior(c, run.states, run.actions)
    && forall n | 0 <= n < |run.actions| && n != x :: Faithful(run.states[n], run.actions[n])
  }

  lemma Also(c: Config, run: Run, x: nat, a: Action) returns (run': Run)
    requires FaithfulBut(c, run, x) && Enabled(c, Last(run), a)
    requires x == |run.actions| || Faithful(Last(run), a)
    ensures FaithfulBut(c, run', x) && Extends(run, run')
    ensures run'.actions == run.actions + [a] && Last(run') == Step(c, Last(run), a)
    ensures Shaped(c, Last(run'))
  {
    run' := Run(run.states + [Step(c, Last(run), a)], run.actions + [a]);
    forall i | 0 <= i < |run'.actions|
      ensures Next(c, run'.states[i], run'.actions[i], run'.states[i + 1])
      ensures i != x ==> Faithful(run'.states[i], run'.actions[i])
    {
      assert run'.states[i] == run.states[i];
    }
    NothingIsLost(c, run'.states, run'.actions, |run'.actions|);
  }

  /** The worker of a retry lane has freed its message and not marked it: it starts over there,
      with the table it had. */
  lemma StartOver(c: Config, run: Run, r: nat) returns (run': Run)
    requires Orderly(c, run, -1)
    requires var s := Last(run); Busy(s, r) && !s.lanes[r].main && s.lanes[r].phase == Done
    ensures FaithfulBut(c, run', |run.actions|) && Extends(run, run')
    ensures run'.actions == run.actions + [Crash(r, Last(run).lanes[r].pos, Last(run).table)]
    ensures Last(run') == SetPhase(Last(run), r, Idle)
  {
    LastShaped(c, run, -1);
    run' := Also(c, run, |run.actions|, Crash(r, Last(run).lanes[r].pos, Last(run).table));
    assert Last(run').lanes == SetPhase(Last(run), r, Idle).lanes;
  }

  /** Handled again with success, the message is uncounted again. */
  lemma UncountAgain(c: Config, run: Run, x: nat, r: nat) returns (run': Run)
    requires FaithfulBut(c, run, x) && x < |run.actions|
    requires var s := Last(run);
             && Busy(s, r) && !s.lanes[r].main && s.lanes[r].phase == Idle && Current(s, r).inChain
             && Canonical(s.table)
    ensures FaithfulBut(c, run', x) && Extends(run, run')
    ensures var s, s' := Last(run), Last(run');
            && s'.lanes == SetPhase(s, r, FreePending).lanes && s'.dead == s.dead
            && s'.succeeded == s.succeeded + [Current(s, r).source]
            && s'.table == Decrement(s.table, c.topic, Current(s, r).key)
  {
    var s := Last(run);
    run' := HandleAgain(c, run, x, r);
    run' := Also(c, run', x, FreeLocally(r));
    assert Last(run').lanes == SetPhase(s, r, FreePending).lanes;
  }

  lemma HandleAgain(c: Config, run: Run, x: nat, r: nat) returns (run': Run)
    requires FaithfulBut(c, run, x) && x < |run.actions|
    requires var s := Last(run); Busy(s, r) && !s.lanes[r].main && s.lanes[r].phase == Idle && Canonical(s.table)
    ensures FaithfulBut(c, run', x) && Extends(run, run')
    ensures var s := Last(run);
            Last(run') == SetPhase(s, r, Freeing).(succeeded := s.succeeded + [Current(s, r).source])
  {
    var s := Last(run);
    run' := Also(c, run, x, Begin(r));
    run' := Also(c, run', x, Handle(r, Succeeds));
    assert SetPhase(SetPhase(s, r, Clear), r, Freeing).lanes == SetPhase(s, r, Freeing).lanes;
  }

  /** The first two of three messages of a key are waiting, the third is next on the main
      partition. */
  ghost predicate BothWaiting(c: Config, s0: State, l: nat, i: nat, j: nat, k: nat, s: State)
    requires Neighbours(s0, l, i, j) && Neighbours(s0, l, j, k)
  {
    var m, next := s0.lanes[l].log[i], s0.lanes[l].log[j];
    var r := c.route(m.key);
    && |s.lanes| == |s0.lanes| && r < |s.lanes| && r != l && s.lanes[l] == s0.lanes[l].(pos := k)
    && s0.lanes[l].phase == Idle && s.lanes[r] == Lane(false, [Retried(m), Retried(next)], 0, Idle)
    && Source(l, j) !in s.succeeded && s.dead == [] && m.source == Source(l, i)
    && s.table == Increment(Increment(map[], c.topic, m.key), c.topic, m.key)
  }

  lemma BothWait(c: Config, s0: State, l: nat, i: nat, j: nat, k: nat) returns (run: Run)
    requires Init(c, s0) && Neighbours(s0, l, i, j) && Neighbours(s0, l, j, k) && c.maxRetries > 0
    ensures Orderly(c, run, -1) && run.states[0] == s0 && BothWaiting(c, s0, l, i, j, k, Last(run))
  {
    run := Opening(c, s0, l, i, j);
    run := RedirectMain(c, run, l);
    run := DrainMain(c, run, l, k);
    SourcesDistinct(c, s0, l, j + 1, k, j);
  }

  /** The first has been freed and not marked. */
  lemma FreedNotMarked(c: Config, s0: State, l: nat, i: nat, j: nat, k: nat) returns (run: Run)
    requires Init(c, s0) && Neighbours(s0, l, i, j) && Neighbours(s0, l, j, k) && c.maxRetries > 0
    ensures Orderly(c, run, -1) && run.states[0] == s0
    ensures ReadyToStartOver(c, s0, l, i, j, k, Last(run)) && Balanced(c, Last(run))
  {
    var r := c.route(s0.lanes[l].log[i].key);
    run := BothWait(c, s0, l, i, j, k);
    var s := Last(run);
    run := HandleAndFree(c, run, r);
    FreedIsReady(c, s0, l, i, j, k, s, Last(run));
    OrderlyBalanced(c, run);
  }

  lemma OrderlyBalanced(c: Config, run: Run)
    requires Orderly(c, run, -1)
    ensures Balanced(c, Last(run))
  {
    LocksConserved(c, run.states, run.actions, |run.actions|);
  }

  lemma HandleAndFree(c: Config, run: Run, r: nat) returns (run': Run)
    requires Orderly(c, run, -1)
    requires var s := Last(run); Busy(s, r) && !s.lanes[r].main && s.lanes[r].phase == Idle
    ensures Orderly(c, run', -1) && Extends(run, run')
    ensures var s, s' := Last(run), Last(run');
            && s'.lanes == s.lanes[r := s.lanes[r].(phase := Done)] && s'.dead == s.dead
            && s'.succeeded == s.succeeded + [Current(s, r).source]
            && Canonical(s.table) && s'.table == Decrement(s.table, c.topic, Current(s, r).key)
  {
    var s := Last(run);
    run' := HandleFront(c, run, -1, r);
    run' := FreeRetry(c, run', -1, r);
    assert SetPhase(SetPhase(s, r, Freeing), r, Done).lanes == SetPhase(s, r, Done).lanes;
  }

  lemma FreedIsReady(c: Config, s0: State, l: nat, i: nat, j: nat, k: nat, s: State, s': State)
    requires Neighbours(s0, l, i, j) && Neighbours(s0, l, j, k) && BothWaiting(c, s0, l, i, j, k, s)
    requires var r := c.route(s0.lanes[l].log[i].key);
             && s'.lanes == s.lanes[r := s.lanes[r].(phase := Done)] && s'.dead == s.dead
             && s'.succeeded == s.succeeded + [s0.lanes[l].log[i].source]
             && Canonical(s.table) && s'.table == Decrement(s.table, c.topic, s0.lanes[l].log[i].key)
    ensures ReadyToStartOver(c, s0, l, i, j, k, s')
  {
  }

  ghost predicate ReadyToStartOver(c: Config, s0: State, l: nat, i: nat, j: nat, k: nat, s: State)
    requires Neighbours(s0, l, i, j) && Neighbours(s0, l, j, k)
  {
    var lane, m, next := s0.lanes[l], s0.lanes[l].log[i], s0.lanes[l].log[j];
    var r := c.route(m.key);
    && r < |s.lanes| && r != l && |s.lanes| == |s0.lanes|
    && s.lanes[r] == Lane(false, [Retried(m), Retried(next)], 0, Done) && s.lanes[l] == lane.(pos := k, phase := Idle)
    && Source(l, j) !in s.succeeded && s.dead == []
    && Canonical(s.table) && Count(s.table, c.topic, m.key) == 1
  }

  /** The main worker is about to call the handler for message `k` of partition `l` while the
      earlier message `j` of its key is not resolved. */
  ghost predicate Overtakes(c: Config, s: State, l: nat, j: nat, k: nat) {
    && j < k && Busy(s, l) && s.lanes[l].main && s.lanes[l].pos == k
    && s.lanes[l].log[j].key == Current(s, l).key
    && Enabled(c, s, Handle(l, Succeeds)) && !Resolved(s, Source(l, j))
  }

  /** From any start with three messages of a key on a main partition, where a retry is allowed:
      a run in which all steps are faithful but one, in which a retry worker starts over at its
      last mark with the table unchanged, which counts exactly the locks held until then, and
      after which a message overtakes. */
  lemma RestartOvertakes(c: Config, s0: State, l: nat, i: nat, j: nat, k: nat) returns (run: Run, x: nat)
    requires Init(c, s0) && Neighbours(s0, l, i, j) && Neighbours(s0, l, j, k) && c.maxRetries > 0
    ensures FaithfulBut(c, run, x) && run.states[0] == s0 && x < |run.actions|
    ensures var s, a := run.states[x], run.actions[x];
            && a.Crash? && a.l < |s.lanes| && a.back == s.lanes[a.l].pos
            && a.table == s.table && Balanced(c, s)
    ensures Overtakes(c, Last(run), l, j, k)
  {
    var r := c.route(s0.lanes[l].log[i].key);
    var before := FreedNotMarked(c, s0, l, i, j, k);
    x := |before.actions|;
    run := StartOver(c, before, r);
    var start := run;
    run := UncountAgain(c, run, x, r);
    run := BeginNext(c, s0, l, i, j, k, Last(before), run, x);
    assert run.states[x] == start.states[x] == Last(before) && run.actions[x] == start.actions[x];
  }

  /** The retry worker has handled and uncounted `m` again. */
  ghost predicate UncountedTwice(c: Config, m: Msg, s: State, s': State)
    requires c.route(m.key) < |s.lanes| && Canonical(s.table)
  {
    var r := c.route(m.key);
    && s'.lanes == s.lanes[r := s.lanes[r].(phase := FreePending)] && s'.dead == []
    && s'.succeeded == s.succeeded + [m.source]
    && s'.table == Decrement(s.table, c.topic, m.key)
  }

  /** With its key uncounted, the third message is cleared. */
  lemma BeginNext(c: Config, s0: State, l: nat, i: nat, j: nat, k: nat, s: State, run: Run, x: nat) returns (run': Run)
    requires Init(c, s0) && Neighbours(s0, l, i, j) && Neighbours(s0, l, j, k) && ReadyToStartOver(c, s0, l, i, j, k, s)
    requires FaithfulBut(c, run, x) && x < |run.actions|
    requires UncountedTwice(c, s0.lanes[l].log[i], s, Last(run))
    ensures FaithfulBut(c, run', x) && Extends(run, run') && Overtakes(c, Last(run'), l, j, k)
  {
    var s' := Last(run);
    assert s'.lanes[l] == s.lanes[l] && Current(s', l).key == s0.lanes[l].log[i].key;
    run' := Also(c, run, x, Begin(l));
    assert Last(run').lanes[l] == s.lanes[l].(phase := Clear);
    assert s0.lanes[l].log[i].source == Source(l, i);
  }
}
