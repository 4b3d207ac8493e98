/** The guard of `ChainFirst` is exact: from every step that violates it some run goes on to
    break the order of first successes, and such steps do occur. */
module ChainOvertaking {
  import opened LockTable
  import opened RetryChain
  import opened ChainLocks
  import opened ChainFirst

  datatype Run = Run(states: seq<State>, actions: seq<Action>)

  function Last(run: Run): State
    requires run.states != []
  {
    run.states[|run.states| - 1]
  }

  /** A faithful run none of whose steps threatens the order, except perhaps step `x`. */
  ghost predicate Orderly(c: Config, run: Run, x: int) {
    && Behavior(c, run.states, run.actions) && FaithfulRun(run.states, run.actions)
    && forall i | 0 <= i < |run.actions| && i != x :: !Threatens(run.states[i], run.actions[i])
  }

  ghost predicate Extends(run: Run, run': Run) {
    run.states <= run'.states && run.actions <= run'.actions
  }

  /** `run'` goes on from `run` with the step `a` and then only with steps that threaten
      nothing. */
  ghost predicate Continues(c: Config, run: Run, a: Action, run': Run) {
    && Orderly(c, run', |run.actions|) && Extends(run, run')
    && |run'.actions| > |run.actions| && run'.actions[|run.actions|] == a
  }

  ghost predicate BreaksOrder(c: Config, run: Run, a: Action, run': Run) {
    Continues(c, run, a, run') && !FirstsInOrder(Last(run'))
  }

  lemma OneMore(c: Config, run: Run, x: int, a: Action) returns (run': Run)
    requires Orderly(c, run, x) && Enabled(c, Last(run), a) && Faithful(Last(run), a)
    requires x == |run.actions| || !Threatens(Last(run), a)
    ensures Orderly(c, run', x) && Extends(run, run')
    ensures run'.actions == run.actions + [a] && Last(run') == Step(c, Last(run), a)
  {
    run' := Run(run.states + [Step(c, Last(run), a)], run.actions + [a]);
    forall i | 0 <= i < |run'.actions|
      ensures Next(c, run'.states[i], run'.actions[i], run'.states[i + 1]) && Faithful(run'.states[i], run'.actions[i])
      ensures i != x ==> !Threatens(run'.states[i], run'.actions[i])
    {
      assert run'.states[i] == run.states[i];
    }
  }

  lemma LastShaped(c: Config, run: Run, x: int)
    requires Orderly(c, run, x)
    ensures Shaped(c, Last(run)) && Disciplined(Last(run))
  {
    LocksConserved(c, run.states, run.actions, |run.actions|);
  }

  // ---------------------------------------------------------------- letting a retry lane drain

  function Sources(log: seq<Msg>): (r: seq<Source>)
    ensures |r| == |log|
  {
    seq(|log|, i requires 0 <= i < |log| => log[i].source)
  }

  /** The state once worker `l` has handled everything up to position `j` successfully. */
  ghost predicate DrainedTo(s: State, l: nat, j: nat, s': State)
    requires l < |s.lanes| && s.lanes[l].pos <= j <= |s.lanes[l].log|
  {
    && s'.lanes == s.lanes[l := s.lanes[l].(pos := j, phase := Idle)]
    && s'.succeeded == s.succeeded + Sources(s.lanes[l].log[s.lanes[l].pos..j])
    && s'.dead == s.dead
  }

  /** The worker of a retry lane calls the handler for its next message, which succeeds. */
  lemma HandleFront(c: Config, run: Run, x: int, l: nat) returns (run': Run)
    requires Orderly(c, run, x) && x < |run.actions|
    requires var s := Last(run); Busy(s, l) && !s.lanes[l].main && s.lanes[l].phase == Idle
    ensures Orderly(c, run', x) && Extends(run, run')
    ensures var s := Last(run);
            Last(run') == SetPhase(s, l, Freeing).(succeeded := s.succeeded + [Current(s, l).source])
  {
    LastShaped(c, run, x);
    run' := OneMore(c, run, x, Begin(l));
    run' := OneMore(c, run', x, Handle(l, Succeeds));
    assert SetPhase(SetPhase(Last(run), l, Clear), l, Freeing).lanes == SetPhase(Last(run), l, Freeing).lanes;
  }

  lemma FreeRetry(c: Config, run: Run, x: int, l: nat) returns (run': Run)
    requires Orderly(c, run, x) && x < |run.actions|
    requires var s := Last(run); Busy(s, l) && !s.lanes[l].main && s.lanes[l].phase == Freeing
    ensures Orderly(c, run', x) && Extends(run, run')
    ensures Last(run').lanes == SetPhase(Last(run), l, Done).lanes && Last(run').succeeded == Last(run).succeeded
    ensures var s := Last(run); Canonical(s.table) && Last(run').table == Decrement(s.table, c.topic, Current(s, l).key)
    ensures Last(run').dead == Last(run).dead
  {
    LastShaped(c, run, x);
    MessageOk(c, Last(run), l);
    run' := OneMore(c, run, x, FreeLocally(l));
    assert Last(run').lanes == SetPhase(Last(run), l, FreePending).lanes;
    LastShaped(c, run', x);
    run' := OneMore(c, run', x, PublishFree(l, true));
  }

  lemma MarkFront(c: Config, run: Run, x: int, l: nat) returns (run': Run)
    requires Orderly(c, run, x) && x < |run.actions| && Busy(Last(run), l) && Last(run).lanes[l].phase == Done
    ensures Orderly(c, run', x) && Extends(run, run')
    ensures var s := Last(run);
            Last(run') == s.(lanes := s.lanes[l := s.lanes[l].(pos := s.lanes[l].pos + 1, phase := Idle)])
  {
    LastShaped(c, run, x);
    run' := OneMore(c, run, x, Mark(l));
  }

  /** It frees the message and marks it. */
  lemma FreeFront(c: Config, run: Run, x: int, l: nat) returns (run': Run)
    requires Orderly(c, run, x) && x < |run.actions|
    requires var s := Last(run); Busy(s, l) && !s.lanes[l].main && s.lanes[l].phase == Freeing
    ensures Orderly(c, run', x) && Extends(run, run')
    ensures var s, s' := Last(run), Last(run');
            && s'.lanes == s.lanes[l := s.lanes[l].(pos := s.lanes[l].pos + 1, phase := Idle)]
            && s'.succeeded == s.succeeded && s'.dead == s.dead
  {
    run' := FreeRetry(c, run, x, l);
    run' := MarkFront(c, run', x, l);
  }

  lemma PassFront(c: Config, run: Run, x: int, l: nat) returns (run': Run)
    requires Orderly(c, run, x) && x < |run.actions|
    requires var s := Last(run); Busy(s, l) && !s.lanes[l].main && s.lanes[l].phase == Idle
    ensures Orderly(c, run', x) && Extends(run, run')
    ensures DrainedTo(Last(run), l, Last(run).lanes[l].pos + 1, Last(run'))
  {
    var lane := Last(run).lanes[l];
    run' := HandleFront(c, run, x, l);
    run' := FreeFront(c, run', x, l);
    assert Sources(lane.log[lane.pos..lane.pos + 1]) == [lane.log[lane.pos].source];
  }

  lemma {:induction false} Drain(c: Config, run: Run, x: int, l: nat, j: nat) returns (run': Run)
    requires Orderly(c, run, x) && x < |run.actions|
    requires var s := Last(run);
             && l < |s.lanes| && !s.lanes[l].main && s.lanes[l].phase == Idle && s.lanes[l].pos <= j <= |s.lanes[l].log|
    ensures Orderly(c, run', x) && Extends(run, run')
    ensures DrainedTo(Last(run), l, j, Last(run'))
    decreases j
  {
    var s := Last(run);
    var lane := s.lanes[l];
    if j == lane.pos {
      run' := run;
      assert lane.log[lane.pos..j] == [];
    } else {
      var mid := Drain(c, run, x, l, j - 1);
      run' := PassFront(c, mid, x, l);
      assert lane.log[lane.pos..j] == lane.log[lane.pos..j - 1] + [lane.log[j - 1]];
      assert Sources(lane.log[lane.pos..j]) == Sources(lane.log[lane.pos..j - 1]) + Sources(lane.log[j - 1..j]);
    }
  }

  // ---------------------------------------------------------------- breaking the order

  /** A source that succeeds for the first time after a later one of its key. */
  lemma OutOfOrder(s: State, i: nat, src: Source)
    requires i < |s.succeeded| && src in s.succeeded && src !in s.succeeded[..i] && Precedes(s, src, s.succeeded[i])
    ensures !FirstsInOrder(s)
  {
  }

  /** The overtaken message goes behind the later one, and its old copy is marked. */
  lemma PublishBehind(c: Config, run: Run, a: Action) returns (run': Run)
    requires Orderly(c, run, -1) && Enabled(c, Last(run), a) && Overtaken(Last(run), a)
    ensures Continues(c, run, a, run')
    ensures var s, s' := Last(run), Last(run');
            var lane := s.lanes[a.l];
            && s'.succeeded == s.succeeded && !lane.main && lane.phase != Done
            && s'.lanes == s.lanes[a.l := Lane(false, lane.log + [Retried(Current(s, a.l))], lane.pos + 1, Idle)]
  {
    var s, x, l := Last(run), |run.actions|, a.l;
    LastShaped(c, run, -1);
    MessageOk(c, s, l);
    run' := OneMore(c, run, x, a);
    assert Last(run').lanes ==
           s.lanes[l := Lane(false, s.lanes[l].log + [Retried(Current(s, l))], s.lanes[l].pos, Done)];
    run' := MarkFront(c, run', x, l);
  }

  lemma OrderedAtLast(c: Config, run: Run, l: nat)
    requires Orderly(c, run, -1) && l < |Last(run).lanes|
    ensures Last(run).lanes[l].main || LaneOrdered(Last(run), Last(run).lanes[l])
  {
    FirstSuccessesInOrder(c, run.states, run.actions, |run.actions|);
  }

  /** Then the lane drains. */
  lemma OvertakenBreaks(c: Config, run: Run, a: Action) returns (run': Run)
    requires Orderly(c, run, -1) && Enabled(c, Last(run), a) && Overtaken(Last(run), a)
    ensures BreaksOrder(c, run, a, run')
  {
    var s, l := Last(run), a.l;
    var lane := s.lanes[l];
    OrderedAtLast(c, run, l);
    run' := PublishBehind(c, run, a);
    run' := Drain(c, run', |run.actions|, l, |lane.log| + 1);
    DrainedOutOfOrder(s, l, Last(run'));
  }

  lemma DrainedOutOfOrder(s: State, l: nat, s': State)
    requires Busy(s, l) && !s.lanes[l].main && s.lanes[l].phase != Done && LaneOrdered(s, s.lanes[l])
    requires Current(s, l).source !in s.succeeded
    requires exists j | s.lanes[l].pos < j < |s.lanes[l].log| :: LaterOfKey(Current(s, l), s.lanes[l].log[j])
    requires var lane := s.lanes[l];
             var log' := lane.log + [Retried(Current(s, l))];
             && s'.lanes == s.lanes[l := Lane(false, log', |log'|, Idle)]
             && s'.succeeded == s.succeeded + Sources(log'[lane.pos + 1..|log'|])
    ensures !FirstsInOrder(s')
  {
    var lane, m := s.lanes[l], Current(s, l);
    var j :| lane.pos < j < |lane.log| && LaterOfKey(m, lane.log[j]);
    StillPrecedes(s, l, s', m, lane.log[j]);
    SuccessesAfter(s.succeeded, lane.log, lane.pos, j, Retried(m));
    forall i | lane.pos < i < j ensures lane.log[i].source != m.source {
      assert Queued(lane, lane.pos, i, s.succeeded);
    }
    OutOfOrder(s', |s.succeeded| + j - lane.pos - 1, m.source);
  }

  /** Whatever becomes of a retry lane, the order of main messages is the same. */
  lemma StillPrecedes(s: State, l: nat, s': State, a: Msg, b: Msg)
    requires l < |s.lanes| && !s.lanes[l].main && |s'.lanes| == |s.lanes|
    requires forall r | 0 <= r < |s.lanes| && r != l :: s'.lanes[r] == s.lanes[r]
    requires Forwarded(s, a) && Forwarded(s, b) && LaterOfKey(a, b)
    ensures Precedes(s', a.source, b.source)
  {
  }

  /** Where the successes of a drained lane end up in the list. */
  lemma SuccessesAfter(before: seq<Source>, log: seq<Msg>, pos: nat, j: nat, m: Msg)
    requires pos < j < |log|
    ensures var all, n := before + Sources((log + [m])[pos + 1..|log| + 1]), |before| + j - pos - 1;
            && n < |all| && all[n] == log[j].source && m.source in all
            && forall src | src in all[..n] :: src in before || exists i | pos < i < j :: log[i].source == src
  {
    var rest := (log + [m])[pos + 1..|log| + 1];
    var all, n := before + Sources(rest), |before| + j - pos - 1;
    assert rest[|rest| - 1] == m && all[|all| - 1] == m.source;
    forall src | src in all[..n] && src !in before ensures exists i | pos < i < j :: log[i].source == src {
      var k :| 0 <= k < n && all[k] == src;
      assert all[k] == rest[k - |before|].source && rest[k - |before|] == log[k - |before| + pos + 1];
    }
  }

  lemma ComesBack(c: Config, run: Run, a: Action) returns (run': Run)
    requires Orderly(c, run, -1) && Enabled(c, Last(run), a) && BroughtBack(Last(run), a)
    ensures Orderly(c, run', |run.actions|) && Extends(run, run') && run'.actions == run.actions + [a]
    ensures !Last(run).lanes[a.l].main && Last(run').succeeded == Last(run).succeeded
    ensures Last(run').lanes == SetPhase(Last(run), a.l, Idle).lanes
  {
    LastShaped(c, run, -1);
    MessageOk(c, Last(run), a.l);
    run' := OneMore(c, run, |run.actions|, a);
  }

  lemma HandleCleared(c: Config, run: Run, x: int, src: Source) returns (run': Run)
    requires Orderly(c, run, x) && x < |run.actions| && Cleared(Last(run), src)
    ensures Orderly(c, run', x) && Extends(run, run')
    ensures Last(run').lanes == SetPhase(Last(run), src.lane, Done).lanes
    ensures Last(run').succeeded == Last(run).succeeded + [src]
  {
    LastShaped(c, run, x);
    MessageOk(c, Last(run), src.lane);
    run' := OneMore(c, run, x, Handle(src.lane, Succeeds));
  }

  /** The message comes back, and the later one succeeds unless it has already. */
  lemma LaterSucceeds(c: Config, run: Run, a: Action, later: Source) returns (run': Run)
    requires Orderly(c, run, -1) && Enabled(c, Last(run), a) && BroughtBack(Last(run), a)
    requires var s := Last(run);
             Precedes(s, Current(s, a.l).source, later) && (later in s.succeeded || Cleared(s, later))
    ensures Continues(c, run, a, run')
    ensures var s, s' := Last(run), Last(run');
            && Busy(s', a.l) && !s'.lanes[a.l].main && s'.lanes[a.l].phase == Idle
            && Current(s', a.l) == Current(s, a.l)
            && Precedes(s', Current(s, a.l).source, later)
            && later in s'.succeeded && Current(s, a.l).source !in s'.succeeded
  {
    var s := Last(run);
    run' := ComesBack(c, run, a);
    if later !in s.succeeded {
      run' := HandleCleared(c, run', |run.actions|, later);
    }
  }

  /** Then the message succeeds too. */
  lemma BroughtBackBreaks(c: Config, run: Run, a: Action) returns (run': Run)
    requires Orderly(c, run, -1) && Enabled(c, Last(run), a) && BroughtBack(Last(run), a)
    ensures BreaksOrder(c, run, a, run')
  {
    var s := Last(run);
    var src := Current(s, a.l).source;
    var later :| Precedes(s, src, later) && (later in s.succeeded || Cleared(s, later));
    run' := LaterSucceeds(c, run, a, later);
    var done := Last(run').succeeded;
    var i :| 0 <= i < |done| && done[i] == later;
    run' := HandleFront(c, run', |run.actions|, a.l);
    OutOfOrder(Last(run'), i, src);
  }

  /** A run whose step `x` threatens nothing either is in order. */
  lemma NothingThreatens(c: Config, run: Run, x: nat)
    requires Orderly(c, run, x) && x < |run.actions| && !Threatens(run.states[x], run.actions[x])
    ensures FirstsInOrder(Last(run))
  {
    FirstSuccessesInOrder(c, run.states, run.actions, |run.actions|);
  }

  /** After any orderly run, a step threatens the order of first successes if and only if a
      run that takes it, and no other such step, can go on to break that order. */
  lemma OrderExactly(c: Config, run: Run, a: Action)
    requires Orderly(c, run, -1) && Enabled(c, Last(run), a) && Faithful(Last(run), a)
    ensures Threatens(Last(run), a) <==> exists run' :: BreaksOrder(c, run, a, run')
  {
    if Overtaken(Last(run), a) {
      var run' := OvertakenBreaks(c, run, a);
    } else if BroughtBack(Last(run), a) {
      var run' := BroughtBackBreaks(c, run, a);
    } else {
      forall run' ensures !BreaksOrder(c, run, a, run') {
        if Continues(c, run, a, run') {
          assert run'.states[|run.actions|] == Last(run);
          NothingThreatens(c, run', |run.actions|);
        }
      }
    }
  }

  // ---------------------------------------------------------------- it does happen

  /** The main worker finds the key locked, or calls the handler, which fails. */
  lemma FailMain(c: Config, run: Run, l: nat) returns (run': Run)
    requires Orderly(c, run, -1)
    requires var s := Last(run); Busy(s, l) && s.lanes[l].main && s.lanes[l].phase == Idle
    ensures Orderly(c, run', -1) && Extends(run, run') && Last(run') == SetPhase(Last(run), l, Failing(true))
  {
    LastShaped(c, run, -1);
    run' := OneMore(c, run, -1, Begin(l));
    if !IsLocked(c, Last(run), Current(Last(run), l).key) {
      run' := OneMore(c, run', -1, Handle(l, Fails));
      assert SetPhase(SetPhase(Last(run), l, Clear), l, Failing(true)).lanes ==
             SetPhase(Last(run), l, Failing(true)).lanes;
    }
  }

  lemma CountMain(c: Config, run: Run, l: nat) returns (run': Run)
    requires Orderly(c, run, -1) && c.maxRetries > 0
    requires var s := Last(run); Busy(s, l) && s.lanes[l].main && s.lanes[l].phase == Failing(true)
    ensures Orderly(c, run', -1) && Extends(run, run')
    ensures var s := Last(run); Last(run') == SetPhase(Count1(c, s, Current(s, l).key), l, Locking)
  {
    LastShaped(c, run, -1);
    MessageOk(c, Last(run), l);
    run' := OneMore(c, run, -1, LockLocally(l));
  }

  lemma LockMain(c: Config, run: Run, l: nat) returns (run': Run)
    requires Orderly(c, run, -1) && c.maxRetries > 0
    requires var s := Last(run); Busy(s, l) && s.lanes[l].main && s.lanes[l].phase == Failing(true)
    ensures Orderly(c, run', -1) && Extends(run, run')
    ensures var s := Last(run); Last(run') == SetPhase(Count1(c, s, Current(s, l).key), l, Locked)
  {
    var s := Last(run);
    run' := CountMain(c, run, l);
    LastShaped(c, run', -1);
    run' := OneMore(c, run', -1, PublishLock(l, true));
    assert SetPhase(SetPhase(s, l, Locking), l, Locked).lanes == SetPhase(s, l, Locked).lanes;
  }

  lemma FailAndLock(c: Config, run: Run, l: nat) returns (run': Run)
    requires Orderly(c, run, -1) && c.maxRetries > 0
    requires var s := Last(run); Busy(s, l) && s.lanes[l].main && s.lanes[l].phase == Idle
    ensures Orderly(c, run', -1) && Extends(run, run')
    ensures var s := Last(run); Last(run') == SetPhase(Count1(c, s, Current(s, l).key), l, Locked)
  {
    var s := Last(run);
    run' := FailMain(c, run, l);
    run' := LockMain(c, run', l);
    assert SetPhase(SetPhase(s, l, Failing(true)), l, Locked).lanes == SetPhase(s, l, Locked).lanes;
  }

  lemma SendMain(c: Config, run: Run, l: nat) returns (run': Run)
    requires Orderly(c, run, -1)
    requires var s := Last(run); Busy(s, l) && s.lanes[l].main && s.lanes[l].phase == Locked
    ensures Orderly(c, run', -1) && Extends(run, run')
    ensures var s := Last(run); c.route(Current(s, l).key) < |s.lanes| && Sent(c, s, l, Last(run'))
  {
    LastShaped(c, run, -1);
    MessageOk(c, Last(run), l);
    run' := OneMore(c, run, -1, PublishRetry(l, true));
    run' := MarkFront(c, run', -1, l);
  }

  /** The main worker has put its message into the retry lane and marked it. */
  ghost predicate Sent(c: Config, s: State, l: nat, s': State)
    requires Busy(s, l) && c.route(Current(s, l).key) < |s.lanes|
  {
    var m, r, lane := Current(s, l), c.route(Current(s, l).key), s.lanes[l];
    s' == s.(lanes := s.lanes[r := s.lanes[r].(log := s.lanes[r].log + [Retried(m)])]
                              [l := lane.(pos := lane.pos + 1, phase := Idle)])
  }

  /** A first redirect in which everything works. */
  lemma RedirectMain(c: Config, run: Run, l: nat) returns (run': Run)
    requires Orderly(c, run, -1) && c.maxRetries > 0
    requires var s := Last(run); Busy(s, l) && s.lanes[l].main && s.lanes[l].phase == Idle
    ensures Orderly(c, run', -1) && Extends(run, run')
    ensures var s := Last(run);
            && c.route(Current(s, l).key) < |s.lanes|
            && Sent(c, Count1(c, s, Current(s, l).key), l, Last(run'))
  {
    var s := Last(run);
    LastShaped(c, run, -1);
    run' := FailAndLock(c, run, l);
    var s1 := Last(run');
    run' := SendMain(c, run', l);
    SentFromLocked(c, Count1(c, s, Current(s, l).key), l, s1, Last(run'));
  }

  lemma SentFromLocked(c: Config, s: State, l: nat, s1: State, s': State)
    requires Busy(s, l) && s.lanes[l].main && s1 == SetPhase(s, l, Locked)
    requires c.route(Current(s, l).key) < |s.lanes| && c.route(Current(s, l).key) != l && Sent(c, s1, l, s')
    ensures Sent(c, s, l, s')
  {
    assert s'.lanes == s.lanes[c.route(Current(s, l).key) := s'.lanes[c.route(Current(s, l).key)]][l := s'.lanes[l]];
  }

  /** The worker of a main partition handles its messages up to position `j` successfully,
      where none of their keys is locked. */
  lemma {:induction false} DrainMain(c: Config, run: Run, l: nat, j: nat) returns (run': Run)
    requires Orderly(c, run, -1)
    requires var s := Last(run);
             && l < |s.lanes| && s.lanes[l].main && s.lanes[l].phase == Idle && s.lanes[l].pos <= j <= |s.lanes[l].log|
             && forall o | s.lanes[l].pos <= o < j :: !IsLocked(c, s, s.lanes[l].log[o].key)
    ensures Orderly(c, run', -1) && Extends(run, run')
    ensures DrainedTo(Last(run), l, j, Last(run')) && Last(run').table == Last(run).table
    decreases j
  {
    var s := Last(run);
    var lane := s.lanes[l];
    if j == lane.pos {
      run' := run;
      assert lane.log[lane.pos..j] == [];
    } else {
      var mid := DrainMain(c, run, l, j - 1);
      run' := PassMain(c, mid, l);
      assert lane.log[lane.pos..j] == lane.log[lane.pos..j - 1] + [lane.log[j - 1]];
      assert Sources(lane.log[lane.pos..j]) == Sources(lane.log[lane.pos..j - 1]) + Sources(lane.log[j - 1..j]);
    }
  }

  lemma HandleMain(c: Config, run: Run, l: nat) returns (run': Run)
    requires Orderly(c, run, -1)
    requires var s := Last(run);
             Busy(s, l) && s.lanes[l].main && s.lanes[l].phase == Idle && !IsLocked(c, s, Current(s, l).key)
    ensures Orderly(c, run', -1) && Extends(run, run')
    ensures var s := Last(run);
            Last(run') == SetPhase(s, l, Done).(succeeded := s.succeeded + [Current(s, l).source])
  {
    var s := Last(run);
    LastShaped(c, run, -1);
    run' := OneMore(c, run, -1, Begin(l));
    run' := OneMore(c, run', -1, Handle(l, Succeeds));
    assert SetPhase(SetPhase(s, l, Clear), l, Done).lanes == SetPhase(s, l, Done).lanes;
  }

  lemma PassMain(c: Config, run: Run, l: nat) returns (run': Run)
    requires Orderly(c, run, -1)
    requires var s := Last(run);
             Busy(s, l) && s.lanes[l].main && s.lanes[l].phase == Idle && !IsLocked(c, s, Current(s, l).key)
    ensures Orderly(c, run', -1) && Extends(run, run')
    ensures DrainedTo(Last(run), l, Last(run).lanes[l].pos + 1, Last(run')) && Last(run').table == Last(run).table
  {
    var lane := Last(run).lanes[l];
    run' := HandleMain(c, run, l);
    run' := MarkFront(c, run', -1, l);
    assert Sources(lane.log[lane.pos..lane.pos + 1]) == [lane.log[lane.pos].source];
  }

  /** Positions `i` and `j` of main partition `l` hold two messages of one key, with none
      between them. */
  predicate Neighbours(s: State, l: nat, i: nat, j: nat) {
    && l < |s.lanes| && s.lanes[l].main && i < j < |s.lanes[l].log|
    && s.lanes[l].log[i].key == s.lanes[l].log[j].key
    && forall o | i < o < j :: s.lanes[l].log[o].key != s.lanes[l].log[i].key
  }

  /** The first of them is waiting in its retry lane, the second comes next. */
  ghost predicate FirstWaits(c: Config, s0: State, l: nat, i: nat, j: nat, s: State)
    requires Init(c, s0) && Neighbours(s0, l, i, j)
  {
    var lane, m := s0.lanes[l], s0.lanes[l].log[i];
    && s.lanes == s0.lanes[c.route(m.key) := Lane(false, [Retried(m)], 0, Idle)][l := lane.(pos := j)]
    && (forall o | o == i || o >= j :: Source(l, o) !in s.succeeded)
    && s.dead == [] && s.table == Increment(map[], c.topic, m.key)
  }

  /** Everything before succeeds, the first fails, everything between succeeds. */
  lemma Opening(c: Config, s0: State, l: nat, i: nat, j: nat) returns (run: Run)
    requires Init(c, s0) && Neighbours(s0, l, i, j) && c.maxRetries > 0
    ensures Orderly(c, run, -1) && run.states[0] == s0 && FirstWaits(c, s0, l, i, j, Last(run))
  {
    var lane, m := s0.lanes[l], s0.lanes[l].log[i];
    var r := c.route(m.key);
    run := Run([s0], []);
    run := DrainMain(c, run, l, i);
    var s1 := Last(run);
    assert s1.lanes == s0.lanes[l := lane.(pos := i)];
    run := RedirectMain(c, run, l);
    var s2 := Last(run);
    assert s0.lanes[r] == Lane(false, [], 0, Idle) && [] + [Retried(m)] == [Retried(m)];
    assert s2.lanes == s0.lanes[r := Lane(false, [Retried(m)], 0, Idle)][l := lane.(pos := i + 1)];
    run := DrainMain(c, run, l, j);
    forall o | o == i || o >= j ensures Source(l, o) !in Last(run).succeeded {
      SourcesDistinct(c, s0, l, 0, i, o);
      SourcesDistinct(c, s0, l, i + 1, j, o);
    }
  }

  lemma SourcesDistinct(c: Config, s0: State, l: nat, from: nat, to: nat, o: nat)
    requires Init(c, s0) && l < |s0.lanes| && s0.lanes[l].main && from <= to <= |s0.lanes[l].log|
    requires o < from || to <= o
    ensures Source(l, o) !in Sources(s0.lanes[l].log[from..to])
  {
    var part := s0.lanes[l].log[from..to];
    assert forall n | 0 <= n < |part| :: part[n] == s0.lanes[l].log[from + n];
  }

  /** The first fails, the second follows it, and the first fails again. */
  lemma FirstFailsAgain(c: Config, s0: State, l: nat, i: nat, j: nat) returns (run: Run, again: Action)
    requires Init(c, s0) && Neighbours(s0, l, i, j) && c.maxRetries >= 2
    ensures Orderly(c, run, -1) && run.states[0] == s0
    ensures Enabled(c, Last(run), again) && Overtaken(Last(run), again)
  {
    var lane, m, next := s0.lanes[l], s0.lanes[l].log[i], s0.lanes[l].log[j];
    var r := c.route(m.key);
    run := Opening(c, s0, l, i, j);
    run := RedirectMain(c, run, l);
    assert Last(run).lanes[r] == Lane(false, [Retried(m), Retried(next)], 0, Idle);
    assert m.source !in Last(run).succeeded;
    run := FailRetry(c, run, r);
    LastShaped(c, run, -1);
    again := PublishRetry(r, true);
    assert LaterOfKey(Last(run).lanes[r].log[0], Last(run).lanes[r].log[1]);
  }

  lemma FailRetry(c: Config, run: Run, l: nat) returns (run': Run)
    requires Orderly(c, run, -1)
    requires var s := Last(run); Busy(s, l) && !s.lanes[l].main && s.lanes[l].phase == Idle
    ensures Orderly(c, run', -1) && Extends(run, run') && Last(run') == SetPhase(Last(run), l, Failing(true))
  {
    LastShaped(c, run, -1);
    run' := OneMore(c, run, -1, Begin(l));
    run' := OneMore(c, run', -1, Handle(l, Fails));
    assert SetPhase(SetPhase(Last(run), l, Clear), l, Failing(true)).lanes ==
           SetPhase(Last(run), l, Failing(true)).lanes;
  }

  /** The first, out of retries, is dead-lettered and uncounted; the second is cleared. */
  lemma FirstCannotBeFreed(c: Config, s0: State, l: nat, i: nat, j: nat) returns (run: Run, again: Action)
    requires Init(c, s0) && Neighbours(s0, l, i, j) && c.maxRetries == 1 && c.freeOnDLQ
    ensures Orderly(c, run, -1) && run.states[0] == s0
    ensures Enabled(c, Last(run), again) && BroughtBack(Last(run), again)
  {
    var lane, m := s0.lanes[l], s0.lanes[l].log[i];
    var r := c.route(m.key);
    run := Opening(c, s0, l, i, j);
    var s1 := Last(run);
    run := FailRetry(c, run, r);
    run := GiveUp(c, run, r);
    LastShaped(c, run, -1);
    assert !IsLocked(c, Last(run), m.key);
    assert Last(run).lanes == s1.lanes[r := Lane(false, [Retried(m)], 0, FreePending)];
    run := OneMore(c, run, -1, Begin(l));
    LastShaped(c, run, -1);
    again := PublishFree(r, false);
    assert Precedes(Last(run), Source(l, i), Source(l, j)) && Cleared(Last(run), Source(l, j));
  }

  /** A retry worker dead-letters a message for good and uncounts it. */
  lemma GiveUp(c: Config, run: Run, l: nat) returns (run': Run)
    requires Orderly(c, run, -1) && c.freeOnDLQ
    requires var s := Last(run);
             Busy(s, l) && !s.lanes[l].main && s.lanes[l].phase == Failing(true) && Exhausted(c, Current(s, l))
    ensures Orderly(c, run', -1) && Extends(run, run')
    ensures var s, s' := Last(run), Last(run');
            && s'.lanes == SetPhase(s, l, FreePending).lanes && s'.succeeded == s.succeeded
            && Canonical(s.table) && s'.table == Decrement(s.table, c.topic, Current(s, l).key)
  {
    LastShaped(c, run, -1);
    MessageOk(c, Last(run), l);
    run' := OneMore(c, run, -1, DeadLetter(l, true));
    assert Last(run').lanes == SetPhase(Last(run), l, Freeing).lanes;
    LastShaped(c, run', -1);
    run' := OneMore(c, run', -1, FreeLocally(l));
  }

  /** Some main partition holds two messages of one key. */
  ghost predicate SomeKeyTwice(s: State) {
    exists l, i, j :: Neighbours(s, l, i, j)
  }

  ghost predicate CanBreak(c: Config, s0: State) {
    exists run: Run ::
      && Behavior(c, run.states, run.actions) && FaithfulRun(run.states, run.actions)
      && run.states[0] == s0 && !FirstsInOrder(Last(run))
  }

  /** Wherever two retries are allowed, two messages of a key on a main partition are enough
      for a faithful run in which the later one succeeds first. */
  lemma OvertakingHappens(c: Config, s0: State)
    requires Init(c, s0) && SomeKeyTwice(s0) && c.maxRetries >= 2
    ensures CanBreak(c, s0)
  {
    var l, i, j :| Neighbours(s0, l, i, j);
    var run, again := FirstFailsAgain(c, s0, l, i, j);
    var run' := OvertakenBreaks(c, run, again);
  }

  /** And where one retry is allowed and exhausted messages are freed, one failed tombstone is. */
  lemma BringingBackHappens(c: Config, s0: State)
    requires Init(c, s0) && SomeKeyTwice(s0) && c.maxRetries == 1 && c.freeOnDLQ
    ensures CanBreak(c, s0)
  {
    var l, i, j :| Neighbours(s0, l, i, j);
    var run, again := FirstCannotBeFreed(c, s0, l, i, j);
    var run' := BroughtBackBreaks(c, run, again);
  }
}
