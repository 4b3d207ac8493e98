/** Sums over the unmarked messages of all lanes, of any cost that depends on a message and on
    how far its worker is with it. */
module ChainSums {
  import opened RetryChain

  type Cost = (Msg, Phase) -> nat

  /** Of messages no worker has reached. */
  function Waiting(log: seq<Msg>, cost: Cost): nat {
    if log == [] then 0 else cost(log[0], Idle) + Waiting(log[1..], cost)
  }

  function Load(lane: Lane, cost: Cost): nat {
    if lane.pos >= |lane.log| then 0
    else cost(lane.log[lane.pos], lane.phase) + Waiting(lane.log[lane.pos + 1..], cost)
  }

  function Total(lanes: seq<Lane>, cost: Cost): nat {
    if lanes == [] then 0 else Total(lanes[..|lanes| - 1], cost) + Load(lanes[|lanes| - 1], cost)
  }

  lemma {:induction false} WaitingAppend(log: seq<Msg>, m: Msg, cost: Cost)
    ensures Waiting(log + [m], cost) == Waiting(log, cost) + cost(m, Idle)
    decreases |log|
  {
    if log == [] {
      assert [] + [m] == [m] && [m][1..] == [];
    } else {
      assert (log + [m])[1..] == log[1..] + [m];
      WaitingAppend(log[1..], m, cost);
    }
  }

  lemma {:induction false} WaitingCounts(log: seq<Msg>, j: nat, cost: Cost)
    requires j < |log|
    ensures Waiting(log, cost) >= cost(log[j], Idle)
    decreases |log|
  {
    if j > 0 {
      assert log[1..][j - 1] == log[j];
      WaitingCounts(log[1..], j - 1, cost);
    }
  }

  lemma {:induction false} TotalUpdate(lanes: seq<Lane>, l: nat, lane: Lane, cost: Cost)
    requires l < |lanes|
    ensures Total(lanes[l := lane], cost) == Total(lanes, cost) - Load(lanes[l], cost) + Load(lane, cost)
    ensures Total(lanes, cost) >= Load(lanes[l], cost)
    decreases |lanes|
  {
    var n := |lanes| - 1;
    if l == n {
      assert lanes[l := lane][..n] == lanes[..n];
    } else {
      assert lanes[l := lane][..n] == lanes[..n][l := lane];
      TotalUpdate(lanes[..n], l, lane, cost);
    }
  }

  lemma {:induction false} TotalZero(lanes: seq<Lane>, cost: Cost)
    requires forall l | 0 <= l < |lanes| :: Load(lanes[l], cost) == 0
    ensures Total(lanes, cost) == 0
    decreases |lanes|
  {
    if lanes != [] {
      TotalZero(lanes[..|lanes| - 1], cost);
    }
  }

  lemma AppendLoad(lane: Lane, m: Msg, cost: Cost)
    requires lane.pos <= |lane.log| && (lane.phase != Idle ==> lane.pos < |lane.log|)
    ensures Load(lane.(log := lane.log + [m]), cost) == Load(lane, cost) + cost(m, Idle)
  {
    var lane' := lane.(log := lane.log + [m]);
    if lane.pos < |lane.log| {
      assert lane'.log[lane.pos + 1..] == lane.log[lane.pos + 1..] + [m];
      WaitingAppend(lane.log[lane.pos + 1..], m, cost);
    } else {
      assert lane'.log[lane.pos + 1..] == [];
    }
  }

  lemma MarkLoad(lane: Lane, cost: Cost)
    requires lane.pos < |lane.log|
    ensures Load(lane.(pos := lane.pos + 1, phase := Idle), cost)
         == Load(lane, cost) - cost(lane.log[lane.pos], lane.phase)
  {
    if lane.pos + 1 < |lane.log| {
      assert lane.log[lane.pos + 1..][1..] == lane.log[lane.pos + 2..];
    }
  }

  lemma GrownTotal(c: Config, s: State, m: Msg, cost: Cost)
    requires Shaped(c, s)
    ensures Total(AppendTo(s, c.route(m.key), m).lanes, cost) == Total(s.lanes, cost) + cost(m, Idle)
  {
    var r := c.route(m.key);
    assert LaneOk(c, s.lanes[r], r);
    AppendLoad(s.lanes[r], m, cost);
    TotalUpdate(s.lanes, r, s.lanes[r].(log := s.lanes[r].log + [m]), cost);
  }

  /** By how much a step changes the total. */
  function Change(c: Config, s: State, a: Action, cost: Cost): int
    requires Busy(s, a.l)
  {
    (if a.Mark? then 0 else cost(Current(s, a.l), NewPhase(c, s, a)))
    - cost(Current(s, a.l), s.lanes[a.l].phase)
    + if Publishes(a) then cost(Retried(Current(s, a.l)), Idle) else 0
  }

  /** The same of one lane whose worker moves. */
  lemma LoadChange(lane: Lane, pos: nat, phase: Phase, cost: Cost)
    requires lane.pos < |lane.log|
    requires pos == lane.pos || (pos == lane.pos + 1 && phase == Idle)
    ensures Load(lane.(pos := pos, phase := phase), cost) == Load(lane, cost)
            - cost(lane.log[lane.pos], lane.phase) + if pos == lane.pos then cost(lane.log[lane.pos], phase) else 0
    ensures Load(lane, cost) >= cost(lane.log[lane.pos], lane.phase)
  {
    if pos != lane.pos {
      MarkLoad(lane, cost);
    }
  }

  lemma TotalChange(c: Config, s: State, a: Action, cost: Cost)
    requires Shaped(c, s) && Enabled(c, s, a) && !a.Crash?
    ensures Total(Step(c, s, a).lanes, cost) == Total(s.lanes, cost) + Change(c, s, a, cost)
    ensures Total(s.lanes, cost) >= cost(Current(s, a.l), s.lanes[a.l].phase)
  {
    StepLanes(c, s, a);
    var m := Current(s, a.l);
    var s1 := if Publishes(a) then AppendTo(s, c.route(m.key), Retried(m)) else s;
    if Publishes(a) {
      GrownTotal(c, s, Retried(m), cost);
    }
    var lane, lane0 := s1.lanes[a.l], s.lanes[a.l];
    assert lane.pos == lane0.pos && lane.log[lane.pos] == m && lane.phase == lane0.phase;
    TotalUpdate(s.lanes, a.l, lane0, cost);
    TotalUpdate(s1.lanes, a.l, lane.(pos := NewPos(s, a), phase := NewPhase(c, s, a)), cost);
    LoadChange(lane0, lane0.pos, lane0.phase, cost);
    LoadChange(lane, NewPos(s, a), NewPhase(c, s, a), cost);
  }
}
