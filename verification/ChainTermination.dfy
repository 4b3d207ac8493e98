/** Termination: while the infrastructure works, every handling step uses up one of a message's
    MaxRetries + 1 attempts, whatever the handler returns, and the retry topic drains. */
module ChainTermination {
  import opened LockTable
  import opened RetryChain
  import opened ChainSums
  import opened ChainLocks
  import opened ChainLoss

  /** Every publication works and no worker starts over; the handler may return anything. */
  predicate Smooth(a: Action) {
    match a
    case DeadLetter(_, ok) => ok
    case PublishLock(_, ok) => ok
    case PublishRetry(_, ok) => ok
    case PublishUndo(_, ok) => ok
    case PublishFree(_, ok) => ok
    case Crash(_, _, _) => false
    case _ => true
  }

  /** With MaxRetries = 0 and FreeOnDLQ the main worker frees a lock it never had, fails, and
      handles the message again without end. */
  predicate Sensible(c: Config) {
    c.maxRetries > 0 || !c.freeOnDLQ
  }

  ghost predicate SmoothRun(actions: seq<Action>) {
    forall n | 0 <= n < |actions| :: Smooth(actions[n])
  }

  /** The user's handler runs, or the main worker finds the key locked. */
  predicate Handling(c: Config, s: State, a: Action) {
    a.Handle? || (a.Begin? && Busy(s, a.l) && NewPhase(c, s, a) != Clear)
  }

  function AttemptsLeft(c: Config, m: Msg): nat {
    if m.attempt > c.maxRetries then 0 else c.maxRetries + 1 - m.attempt
  }

  /** How often a message may still be handled: MaxRetries + 1 - attempt until it is. */
  function HandlingsOf(c: Config, m: Msg, phase: Phase): nat {
    var w := AttemptsLeft(c, m);
    if phase.Idle? || phase.Clear? then w
    else if w > 0 && (phase == Failing(true) || phase.Locking? || phase.Locked?) then w - 1
    else 0
  }

  /** How many steps of any kind remain for it: at most six an attempt. */
  function StepsOf(c: Config, m: Msg, phase: Phase): nat {
    var w := 6 * AttemptsLeft(c, m);
    if w == 0 then 0
    else match phase
         case Idle => w
         case Clear => w - 1
         case Failing(retriable) => if retriable then w - 2 else 4
         case Locking => w - 3
         case Locked => w - 4
         case Freeing => 3
         case FreePending => 2
         case _ => 1
  }

  /** The messages whose handlings are counted. */
  datatype Selection = All | One(source: Source)

  predicate Selects(of: Selection, src: Source) {
    of == All || of == One(src)
  }

  function HandlingsLeft(c: Config, of: Selection): Cost {
    (m: Msg, phase: Phase) => if Selects(of, m.source) then HandlingsOf(c, m, phase) else 0
  }

  function StepsLeft(c: Config): Cost {
    (m: Msg, phase: Phase) => StepsOf(c, m, phase)
  }

  ghost predicate SmoothOk(c: Config, s: State) {
    && Shaped(c, s) && s.stuck == []
    && (forall l | 0 <= l < |s.lanes| :: PhaseOk(s.lanes[l]))
    && (forall i | 0 <= i < |s.dead| && s.dead[i].exhausted :: s.dead[i].msg.attempt == c.maxRetries)
  }

  predicate PhaseOk(lane: Lane) {
    && !lane.phase.Undoing? && !lane.phase.UndoPending?
    && if lane.main then !lane.phase.Freeing? && !lane.phase.FreePending?
       else !lane.phase.Locking? && !lane.phase.Locked?
  }

  // ---------------------------------------------------------------- one step

  lemma StepKeepsSmooth(c: Config, s: State, a: Action)
    requires Sensible(c) && SmoothOk(c, s) && Enabled(c, s, a) && Smooth(a)
    ensures SmoothOk(c, Step(c, s, a))
  {
    StepKeepsShape(c, s, a);
    StepLanes(c, s, a);
    MessageOk(c, s, a.l);
    assert PhaseOk(s.lanes[a.l]);
    assert PhaseOk(s.lanes[a.l].(phase := NewPhase(c, s, a)));
  }

  /** What a step leaves of its own message and of its copy in the retry topic. */
  lemma MessageUsesUp(c: Config, s: State, a: Action)
    requires Sensible(c) && SmoothOk(c, s) && Enabled(c, s, a) && Smooth(a)
    ensures var m, p, p' := Current(s, a.l), s.lanes[a.l].phase, NewPhase(c, s, a);
            && (if a.Mark? then 0 else HandlingsOf(c, m, p'))
               + (if Publishes(a) then HandlingsOf(c, Retried(m), Idle) else 0)
               + (if Handling(c, s, a) then 1 else 0) <= HandlingsOf(c, m, p)
            && (if a.Mark? then 0 else StepsOf(c, m, p'))
               + (if Publishes(a) then StepsOf(c, Retried(m), Idle) else 0) < StepsOf(c, m, p)
  {
    MessageOk(c, s, a.l);
    assert PhaseOk(s.lanes[a.l]);
  }

  /** A handling step uses up at least one attempt of its message; no step adds any. */
  lemma HandlingUsesAttempt(c: Config, s: State, a: Action, of: Selection)
    requires Sensible(c) && SmoothOk(c, s) && Enabled(c, s, a) && Smooth(a)
    ensures Total(Step(c, s, a).lanes, HandlingsLeft(c, of)) +
            (if Handling(c, s, a) && Selects(of, Current(s, a.l).source) then 1 else 0)
            <= Total(s.lanes, HandlingsLeft(c, of))
  {
    MessageUsesUp(c, s, a);
    TotalChange(c, s, a, HandlingsLeft(c, of));
  }

  lemma EveryStepCounts(c: Config, s: State, a: Action)
    requires Sensible(c) && SmoothOk(c, s) && Enabled(c, s, a) && Smooth(a)
    ensures Total(Step(c, s, a).lanes, StepsLeft(c)) < Total(s.lanes, StepsLeft(c))
  {
    MessageUsesUp(c, s, a);
    TotalChange(c, s, a, StepsLeft(c));
  }

  /** Wherever a message is pending, its worker can go on. */
  lemma Progress(c: Config, s: State, l: nat)
    requires SmoothOk(c, s) && Busy(s, l)
    ensures exists a: Action :: a.l == l && Smooth(a) && Enabled(c, s, a)
  {
    MessageOk(c, s, l);
    assert PhaseOk(s.lanes[l]);
    var m := Current(s, l);
    var a := match s.lanes[l].phase
      case Idle => Begin(l)
      case Clear => Handle(l, Succeeds)
      case Failing(retriable) =>
        if !retriable || Exhausted(c, m) then DeadLetter(l, true)
        else if m.inChain then PublishRetry(l, true) else LockLocally(l)
      case Locking => PublishLock(l, true)
      case Locked => PublishRetry(l, true)
      case Freeing => FreeLocally(l)
      case FreePending => PublishFree(l, true)
      case _ => Mark(l);
    assert a.l == l && Smooth(a) && Enabled(c, s, a);
  }

  /** Where the configuration is not sensible, a main message that keeps failing goes round for
      ever: four steps lead back to the same lanes and table, with one more dead letter. */
  lemma EndlessWithoutRetries(c: Config, s: State, l: nat)
    requires !Sensible(c) && Shaped(c, s) && Busy(s, l)
    requires s.lanes[l].main && s.lanes[l].phase == Idle && !IsLocked(c, s, Current(s, l).key)
    ensures Enabled(c, s, Begin(l))
    ensures var s1 := Step(c, s, Begin(l));
            && Enabled(c, s1, Handle(l, Fails))
            && var s2 := Step(c, s1, Handle(l, Fails));
               && Enabled(c, s2, DeadLetter(l, true))
               && var s3 := Step(c, s2, DeadLetter(l, true));
                  && Enabled(c, s3, FreeLocally(l))
                  && Step(c, s3, FreeLocally(l)) == s.(dead := s.dead + [Dead(Current(s, l), true, false)])
  {
    MessageOk(c, s, l);
    var s3 := Step(c, Step(c, Step(c, s, Begin(l)), Handle(l, Fails)), DeadLetter(l, true));
    assert Step(c, s3, FreeLocally(l)).lanes == s.lanes;
  }

  // ---------------------------------------------------------------- the start

  function MainMessages(lanes: seq<Lane>): nat {
    if lanes == [] then 0
    else MainMessages(lanes[..|lanes| - 1]) + if lanes[|lanes| - 1].main then |lanes[|lanes| - 1].log| else 0
  }

  lemma {:induction false} WaitingAtMost(log: seq<Msg>, cost: Cost, k: nat)
    requires forall o | 0 <= o < |log| :: cost(log[o], Idle) <= k
    ensures Waiting(log, cost) <= k * |log|
    decreases |log|
  {
    if log != [] {
      WaitingAtMost(log[1..], cost, k);
      assert k * |log| == k * |log[1..]| + k;
    }
  }

  lemma {:induction false} TotalAtMost(lanes: seq<Lane>, cost: Cost, k: nat)
    requires forall l | 0 <= l < |lanes| ::
               lanes[l].pos == 0 && lanes[l].phase == Idle && (lanes[l].main || lanes[l].log == [])
    requires forall l, o | 0 <= l < |lanes| && 0 <= o < |lanes[l].log| :: cost(lanes[l].log[o], Idle) <= k
    ensures Total(lanes, cost) <= k * MainMessages(lanes)
    decreases |lanes|
  {
    if lanes != [] {
      var n := |lanes| - 1;
      TotalAtMost(lanes[..n], cost, k);
      WaitingAtMost(lanes[n].log, cost, k);
      LoadFromStart(lanes[n], cost);
      Distribute(k, MainMessages(lanes[..n]), if lanes[n].main then |lanes[n].log| else 0);
    }
  }

  lemma Distribute(k: nat, a: nat, b: nat)
    ensures k * (a + b) == k * a + k * b
  {
  }

  lemma LoadFromStart(lane: Lane, cost: Cost)
    requires lane.pos == 0 && lane.phase == Idle
    ensures Load(lane, cost) == Waiting(lane.log, cost)
  {
  }

  /** One message's share of a log in which every message occurs once. */
  lemma {:induction false} WaitingOne(log: seq<Msg>, l: nat, base: nat, x: Source, cost: Cost, k: nat)
    requires forall o | 0 <= o < |log| :: log[o].source == Source(l, base + o)
    requires forall o | 0 <= o < |log| :: cost(log[o], Idle) <= if log[o].source == x then k else 0
    ensures Waiting(log, cost) <= if x.lane == l && base <= x.offset then k else 0
    decreases |log|
  {
    if log != [] {
      WaitingOne(log[1..], l, base + 1, x, cost, k);
      assert log[0].source == Source(l, base + 0);
    }
  }

  lemma {:induction false} TotalOne(lanes: seq<Lane>, l: nat, cost: Cost)
    requires forall j | 0 <= j < |lanes| && j != l :: Load(lanes[j], cost) == 0
    ensures Total(lanes, cost) == if l < |lanes| then Load(lanes[l], cost) else 0
    decreases |lanes|
  {
    if lanes != [] {
      TotalOne(lanes[..|lanes| - 1], l, cost);
    }
  }

  lemma InitSmooth(c: Config, s: State)
    requires Init(c, s)
    ensures SmoothOk(c, s)
  {
    InitShaped(c, s);
  }

  lemma HandlingsAtFirst(c: Config, s: State)
    requires Init(c, s)
    ensures Total(s.lanes, HandlingsLeft(c, All)) <= (c.maxRetries + 1) * MainMessages(s.lanes)
  {
    assert forall m :: HandlingsLeft(c, All)(m, Idle) == AttemptsLeft(c, m);
    TotalAtMost(s.lanes, HandlingsLeft(c, All), c.maxRetries + 1);
  }

  lemma StepsAtFirst(c: Config, s: State)
    requires Init(c, s)
    ensures Total(s.lanes, StepsLeft(c)) <= (6 * (c.maxRetries + 1)) * MainMessages(s.lanes)
  {
    TotalAtMost(s.lanes, StepsLeft(c), 6 * (c.maxRetries + 1));
  }

  lemma OneAtFirst(c: Config, s: State, x: Source)
    requires Init(c, s)
    ensures Total(s.lanes, HandlingsLeft(c, One(x))) <= c.maxRetries + 1
  {
    var cost := HandlingsLeft(c, One(x));
    forall l | 0 <= l < |s.lanes| ensures Load(s.lanes[l], cost) <= if l == x.lane then c.maxRetries + 1 else 0 {
      LoadFromStart(s.lanes[l], cost);
      if s.lanes[l].main {
        assert forall m :: cost(m, Idle) == if m.source == x then AttemptsLeft(c, m) else 0;
        WaitingOne(s.lanes[l].log, l, 0, x, cost, c.maxRetries + 1);
      }
    }
    TotalOne(s.lanes, x.lane, cost);
  }

  // ---------------------------------------------------------------- whole runs

  /** Handling steps of the selected messages among the first `n` steps. */
  ghost function Handlings(c: Config, states: seq<State>, actions: seq<Action>, of: Selection, n: nat): nat
    requires n <= |actions| < |states|
    requires forall i | 0 <= i < n :: Busy(states[i], actions[i].l)
  {
    if n == 0 then 0
    else Handlings(c, states, actions, of, n - 1) +
         if Handling(c, states[n - 1], actions[n - 1])
            && Selects(of, Current(states[n - 1], actions[n - 1].l).source) then 1 else 0
  }

  lemma {:induction false} AlwaysSmooth(c: Config, states: seq<State>, actions: seq<Action>, n: nat)
    requires Sensible(c) && Behavior(c, states, actions) && SmoothRun(actions) && n < |states|
    ensures SmoothOk(c, states[n])
    ensures forall i | 0 <= i < n :: Busy(states[i], actions[i].l)
    decreases n
  {
    if n == 0 {
      InitSmooth(c, states[0]);
    } else {
      AlwaysSmooth(c, states, actions, n - 1);
      assert Next(c, states[n - 1], actions[n - 1], states[n]);
      StepKeepsSmooth(c, states[n - 1], actions[n - 1]);
    }
  }

  lemma {:induction false} StepsUsed(c: Config, states: seq<State>, actions: seq<Action>, n: nat)
    requires Sensible(c) && Behavior(c, states, actions) && SmoothRun(actions) && n < |states|
    ensures n + Total(states[n].lanes, StepsLeft(c)) <= Total(states[0].lanes, StepsLeft(c))
    decreases n
  {
    if n > 0 {
      StepsUsed(c, states, actions, n - 1);
      AlwaysSmooth(c, states, actions, n - 1);
      assert Next(c, states[n - 1], actions[n - 1], states[n]);
      EveryStepCounts(c, states[n - 1], actions[n - 1]);
    }
  }

  lemma {:induction false} HandlingsUsed(c: Config, states: seq<State>, actions: seq<Action>, of: Selection, n: nat)
    requires Sensible(c) && Behavior(c, states, actions) && SmoothRun(actions) && n < |states|
    ensures forall i | 0 <= i < n :: Busy(states[i], actions[i].l)
    ensures Handlings(c, states, actions, of, n) + Total(states[n].lanes, HandlingsLeft(c, of))
         <= Total(states[0].lanes, HandlingsLeft(c, of))
    decreases n
  {
    AlwaysSmooth(c, states, actions, n);
    if n > 0 {
      HandlingsUsed(c, states, actions, of, n - 1);
      AlwaysSmooth(c, states, actions, n - 1);
      assert Next(c, states[n - 1], actions[n - 1], states[n]);
      HandlingUsesAttempt(c, states[n - 1], actions[n - 1], of);
    }
  }

  /** While the infrastructure works, a run over N messages has at most N * (MaxRetries + 1)
      handling steps and six times as many steps in all, no message is handled more than
      MaxRetries + 1 times, and one dead-lettered because its retries are used up carries
      exactly MaxRetries. */
  lemma Terminates(c: Config, states: seq<State>, actions: seq<Action>)
    requires Sensible(c) && Behavior(c, states, actions) && SmoothRun(actions)
    ensures forall i | 0 <= i < |actions| :: Busy(states[i], actions[i].l)
    ensures Handlings(c, states, actions, All, |actions|) <= (c.maxRetries + 1) * MainMessages(states[0].lanes)
    ensures |actions| <= (6 * (c.maxRetries + 1)) * MainMessages(states[0].lanes)
    ensures forall x :: Handlings(c, states, actions, One(x), |actions|) <= c.maxRetries + 1
    ensures forall n, i | 0 <= n < |states| && 0 <= i < |states[n].dead| && states[n].dead[i].exhausted ::
              states[n].dead[i].msg.attempt == c.maxRetries
  {
    HandlingsAtFirst(c, states[0]);
    StepsAtFirst(c, states[0]);
    StepsUsed(c, states, actions, |actions|);
    HandlingsUsed(c, states, actions, All, |actions|);
    forall x ensures Handlings(c, states, actions, One(x), |actions|) <= c.maxRetries + 1 {
      OneAtFirst(c, states[0], x);
      HandlingsUsed(c, states, actions, One(x), |actions|);
    }
    forall n, i | 0 <= n < |states| && 0 <= i < |states[n].dead| && states[n].dead[i].exhausted
      ensures states[n].dead[i].msg.attempt == c.maxRetries
    {
      AlwaysSmooth(c, states, actions, n);
    }
  }

  lemma SmoothIsFaithful(c: Config, states: seq<State>, actions: seq<Action>, n: nat)
    requires Sensible(c) && Behavior(c, states, actions) && SmoothRun(actions) && n < |actions|
    ensures Faithful(states[n], actions[n])
  {
    AlwaysSmooth(c, states, actions, n);
    assert Next(c, states[n], actions[n], states[n + 1]) && Smooth(actions[n]);
  }

  /** Where such a run can go no further, everything is marked, every message of the main
      topic has succeeded or is dead-lettered, and the only locks left are those of
      dead-lettered messages whose lock was kept. */
  lemma Drained(c: Config, states: seq<State>, actions: seq<Action>, n: nat)
    requires Sensible(c) && Behavior(c, states, actions) && SmoothRun(actions) && n < |states|
    requires forall a: Action | Smooth(a) :: !Enabled(c, states[n], a)
    ensures forall l | 0 <= l < |states[n].lanes| :: states[n].lanes[l].pos == |states[n].lanes[l].log|
    ensures forall l, o | 0 <= l < |states[0].lanes| && states[0].lanes[l].main && 0 <= o < |states[0].lanes[l].log| ::
              Finished(states[n], states[0].lanes[l].log[o])
    ensures forall key :: Count(states[n].table, c.topic, key) == Kept(states[n].dead, key)
  {
    var s := states[n];
    AlwaysSmooth(c, states, actions, n);
    forall l | 0 <= l < |s.lanes| ensures s.lanes[l].pos == |s.lanes[l].log| {
      assert LaneOk(c, s.lanes[l], l);
      if Busy(s, l) {
        Progress(c, s, l);
      }
    }
    NothingIsLost(c, states, actions, n);
    forall i | 0 <= i < n ensures Faithful(states[i], actions[i]) {
      SmoothIsFaithful(c, states, actions, i);
    }
    LocksConserved(c, states, actions, n);
    forall key ensures Count(s.table, c.topic, key) == Kept(s.dead, key) {
      TotalZero(s.lanes, LockOf(key));
    }
  }
}
