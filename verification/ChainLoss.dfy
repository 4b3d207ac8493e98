/** No message is lost, whatever fails and however often a worker starts over. */
module ChainLoss {
  import opened RetryChain

  /** The same message at another place in the chain. */
  predicate Same(a: Msg, b: Msg) {
    a.source == b.source && a.key == b.key && a.payload == b.payload
  }

  /** Succeeded, or dead-lettered. */
  ghost predicate Finished(s: State, m: Msg) {
    m.source in s.succeeded || exists i | 0 <= i < |s.dead| :: Same(s.dead[i].msg, m)
  }

  /** Unmarked in its retry lane, behind position `after`. */
  ghost predicate Ahead(c: Config, s: State, m: Msg, after: int)
    requires c.route(m.key) < |s.lanes|
  {
    var lane := s.lanes[c.route(m.key)];
    exists j | lane.pos <= j < |lane.log| :: j > after && Same(lane.log[j], m)
  }

  ghost predicate Settled(c: Config, s: State, m: Msg, after: int)
    requires c.route(m.key) < |s.lanes|
  {
    Finished(s, m) || Ahead(c, s, m, after)
  }

  /** The position in its own retry lane that does not count for the message at (l, o). */
  function After(c: Config, l: nat, m: Msg, o: nat): int {
    if c.route(m.key) == l then o else -1
  }

  predicate Leaving(phase: Phase) {
    phase.Freeing? || phase.FreePending? || phase.Done?
  }

  /** Every message a worker has passed, or is about to pass, is settled elsewhere. */
  ghost predicate Safe(c: Config, s: State) {
    && Shaped(c, s)
    && forall l, o | 0 <= l < |s.lanes| && 0 <= o < |s.lanes[l].log| && Passed(s, l, o) ::
         Settled(c, s, s.lanes[l].log[o], After(c, l, s.lanes[l].log[o], o))
  }

  predicate Passed(s: State, l: nat, o: nat)
    requires l < |s.lanes| && o < |s.lanes[l].log|
  {
    (s.lanes[l].main && o < s.lanes[l].pos) || (o == s.lanes[l].pos && Leaving(s.lanes[l].phase))
  }

  lemma FinishedStays(c: Config, s: State, a: Action, m: Msg)
    requires Enabled(c, s, a) && Finished(s, m)
    ensures Finished(Step(c, s, a), m)
  {
    var s' := Step(c, s, a);
    if i :| 0 <= i < |s.dead| && Same(s.dead[i].msg, m) {
      assert s'.dead[i] == s.dead[i];
    }
  }

  /** A settled message stays settled: when the worker that is ahead passes it, that worker
      has settled it further on. */
  lemma SettledStays(c: Config, s: State, a: Action, m: Msg, after: int)
    requires Safe(c, s) && Enabled(c, s, a) && Settled(c, s, m, after)
    ensures Settled(c, Step(c, s, a), m, after)
  {
    var s', r := Step(c, s, a), c.route(m.key);
    StepLanes(c, s, a);
    if Finished(s, m) {
      FinishedStays(c, s, a, m);
    } else {
      var lane, lane' := s.lanes[r], s'.lanes[r];
      var j :| lane.pos <= j < |lane.log| && j > after && Same(lane.log[j], m);
      LogsGrow(c, s, a, r);
      if a.Mark? && a.l == r && j == lane.pos {
        assert Passed(s, r, j);
        assert Settled(c, s, lane.log[j], After(c, r, lane.log[j], j));
        if Finished(s, lane.log[j]) {
          FinishedStays(c, s, a, lane.log[j]);
          FinishedSame(s', lane.log[j], m);
        } else {
          var i :| lane.pos <= i < |lane.log| && i > j && Same(lane.log[i], lane.log[j]);
          assert lane'.log[i] == lane.log[i];
        }
      } else {
        assert lane'.log[j] == lane.log[j];
      }
    }
  }

  lemma FinishedSame(s: State, m: Msg, m': Msg)
    requires Finished(s, m) && Same(m, m')
    ensures Finished(s, m')
  {
    if i :| 0 <= i < |s.dead| && Same(s.dead[i].msg, m) {
      assert Same(s.dead[i].msg, m');
    }
  }

  lemma LogsGrow(c: Config, s: State, a: Action, l: nat)
    requires Enabled(c, s, a) && l < |s.lanes|
    ensures var s' := Step(c, s, a);
            && |s'.lanes| == |s.lanes| && s.lanes[l].log <= s'.lanes[l].log && s'.lanes[l].main == s.lanes[l].main
            && (s'.lanes[l].pos > s.lanes[l].pos ==> a == Mark(l) && s'.lanes[l].pos == s.lanes[l].pos + 1)
            && (l != a.l ==> s'.lanes[l].pos == s.lanes[l].pos && s'.lanes[l].phase == s.lanes[l].phase)
            && (s.lanes[l].main ==> s'.lanes[l].log == s.lanes[l].log)
  {
    StepLanes(c, s, a);
  }

  /** A worker leaves its message only when that has succeeded, is dead-lettered, or is
      waiting further on. */
  lemma LeavingIsSettled(c: Config, s: State, a: Action)
    requires Safe(c, s) && Enabled(c, s, a) && Leaving(NewPhase(c, s, a))
    ensures var m := Current(s, a.l);
            Settled(c, Step(c, s, a), m, After(c, a.l, m, s.lanes[a.l].pos))
  {
    var s', m, r := Step(c, s, a), Current(s, a.l), c.route(Current(s, a.l).key);
    if Leaving(s.lanes[a.l].phase) {
      assert Passed(s, a.l, s.lanes[a.l].pos);
      SettledStays(c, s, a, m, After(c, a.l, m, s.lanes[a.l].pos));
    } else if a.DeadLetter? {
      assert s'.dead[|s.dead|].msg == m;
    } else if a.PublishRetry? {
      StepLanes(c, s, a);
      LogsGrow(c, s, a, r);
      assert s'.lanes[r].log[|s.lanes[r].log|] == Retried(m);
    }
  }

  lemma StepKeepsSafe(c: Config, s: State, a: Action)
    requires Safe(c, s) && Enabled(c, s, a)
    ensures Safe(c, Step(c, s, a))
  {
    var s' := Step(c, s, a);
    StepKeepsShape(c, s, a);
    StepLanes(c, s, a);
    forall l, o | 0 <= l < |s'.lanes| && 0 <= o < |s'.lanes[l].log| && Passed(s', l, o)
      ensures Settled(c, s', s'.lanes[l].log[o], After(c, l, s'.lanes[l].log[o], o))
    {
      LogsGrow(c, s, a, l);
      var m := s'.lanes[l].log[o];
      assert o < |s.lanes[l].log| && s.lanes[l].log[o] == m by {
        assert LaneOk(c, s.lanes[l], l);
      }
      if Passed(s, l, o) {
        SettledStays(c, s, a, m, After(c, l, m, o));
      } else {
        assert l == a.l && o == s.lanes[l].pos && Leaving(NewPhase(c, s, a));
        LeavingIsSettled(c, s, a);
      }
    }
  }

  /** The main topic's logs are what they were at the start. */
  ghost predicate SameMain(s0: State, s: State) {
    && |s.lanes| == |s0.lanes|
    && forall l | 0 <= l < |s.lanes| && s0.lanes[l].main :: s.lanes[l].main && s.lanes[l].log == s0.lanes[l].log
  }

  /** Under arbitrary failures of publications, handlers and releases, and with workers that
      start over from any earlier position and with any lock table: at every moment every
      message of the main topic is unmarked there, has succeeded, is dead-lettered, or is
      unmarked in the retry topic, the latter two with its key and payload. */
  lemma {:induction false} NothingIsLost(c: Config, states: seq<State>, actions: seq<Action>, n: nat)
    requires Behavior(c, states, actions) && n < |states|
    ensures Safe(c, states[n]) && SameMain(states[0], states[n])
    ensures forall l, o | 0 <= l < |states[0].lanes| && states[0].lanes[l].main && 0 <= o < |states[0].lanes[l].log| ::
              var m := states[0].lanes[l].log[o];
              o >= states[n].lanes[l].pos || Finished(states[n], m) || Ahead(c, states[n], m, -1)
    decreases n
  {
    if n == 0 {
      InitShaped(c, states[0]);
    } else {
      NothingIsLost(c, states, actions, n - 1);
      assert Next(c, states[n - 1], actions[n - 1], states[n]);
      StepKeepsSafe(c, states[n - 1], actions[n - 1]);
      forall l | 0 <= l < |states[0].lanes| && states[0].lanes[l].main
        ensures states[n].lanes[l].main && states[n].lanes[l].log == states[0].lanes[l].log
      {
        LogsGrow(c, states[n - 1], actions[n - 1], l);
      }
      StepLanes(c, states[n - 1], actions[n - 1]);
    }
    forall l, o | 0 <= l < |states[0].lanes| && states[0].lanes[l].main && 0 <= o < states[n].lanes[l].pos
      ensures o < |states[0].lanes[l].log|
      ensures var m := states[0].lanes[l].log[o]; Finished(states[n], m) || Ahead(c, states[n], m, -1)
    {
      PassedIsSettled(c, states[n], l, o);
    }
  }

  lemma PassedIsSettled(c: Config, s: State, l: nat, o: nat)
    requires Safe(c, s) && l < |s.lanes| && s.lanes[l].main && o < s.lanes[l].pos
    ensures o < |s.lanes[l].log|
    ensures Finished(s, s.lanes[l].log[o]) || Ahead(c, s, s.lanes[l].log[o], -1)
  {
    assert LaneOk(c, s.lanes[l], l);
    assert Passed(s, l, o);
    assert Settled(c, s, s.lanes[l].log[o], After(c, l, s.lanes[l].log[o], o));
  }
}
