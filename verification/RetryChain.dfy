/** One instance's main and retry workers as a step machine: every call to the user's
    handler, every local lock update and every publication is a step of its own, and every
    publication may fail. */
module RetryChain {
  import opened LockTable
  import Headers

  /** A message's identity: its main partition and offset. */
  datatype Source = Source(lane: nat, offset: nat)

  /** `inChain` is the retry mark the tracker sets; a marked message holds a lock. */
  datatype Msg = Msg(source: Source, key: string, payload: Headers.Option<string>, attempt: nat, inChain: bool)

  /** How far a worker is with its current message. */
  datatype Phase =
    | Idle
    | Clear                       // main: found unlocked; retry: waited; the user's handler is next
    | Failing(retriable: bool)    // a redirect has begun
    | Locking                     // counted locally, lock record not yet published
    | Locked                      // lock record published
    | Undoing(left: nat)          // the retry message could not be published; so many rollbacks left
    | UndoPending(left: nat)      // uncounted locally, tombstone not yet published
    | Freeing                     // succeeded in the chain, or dead-lettered and to be freed
    | FreePending                 // uncounted locally, tombstone not yet published
    | Done                        // the call returned without error; marking is next

  /** A partition of the main or of the retry topic with its worker; everything before `pos`
      is marked. */
  datatype Lane = Lane(main: bool, log: seq<Msg>, pos: nat, phase: Phase)

  /** A dead-lettered message: whether its retries were used up, and whether its lock stays. */
  datatype Dead = Dead(msg: Msg, exhausted: bool, kept: bool)

  /** `stuck` are the keys of first redirects whose every rollback failed. */
  datatype State = State(lanes: seq<Lane>, table: Table, succeeded: seq<Source>, dead: seq<Dead>, stuck: seq<string>)

  /** `route` is the retry lane of a key. */
  datatype Config = Config(topic: string, maxRetries: nat, freeOnDLQ: bool, route: string -> nat)

  datatype Result = Succeeds | Fails | FailsForGood

  datatype Action =
    | Begin(l: nat)
    | Handle(l: nat, result: Result)
    | DeadLetter(l: nat, ok: bool)
    | LockLocally(l: nat)
    | PublishLock(l: nat, ok: bool)
    | PublishRetry(l: nat, ok: bool)
    | UndoLocally(l: nat)
    | PublishUndo(l: nat, ok: bool)
    | FreeLocally(l: nat)
    | PublishFree(l: nat, ok: bool)
    | Mark(l: nat)
    | Crash(l: nat, back: nat, table: Table)

  const ROLLBACKS: nat := 3

  // ---------------------------------------------------------------- steps

  predicate Busy(s: State, l: nat) {
    l < |s.lanes| && s.lanes[l].pos < |s.lanes[l].log|
  }

  function Current(s: State, l: nat): Msg
    requires Busy(s, l)
  {
    s.lanes[l].log[s.lanes[l].pos]
  }

  predicate Exhausted(c: Config, m: Msg) {
    m.attempt >= c.maxRetries
  }

  predicate IsLocked(c: Config, s: State, key: string) {
    Count(s.table, c.topic, key) > 0
  }

  ghost predicate Enabled(c: Config, s: State, a: Action) {
    && a.l < |s.lanes| && Canonical(s.table)
    && if a.Crash? then a.back <= s.lanes[a.l].pos && Canonical(a.table) else Busy(s, a.l) && CanStep(c, s, a)
  }

  /** What its worker must have come to for a step other than a crash. */
  ghost predicate CanStep(c: Config, s: State, a: Action)
    requires Busy(s, a.l) && !a.Crash?
  {
    && var lane, m := s.lanes[a.l], Current(s, a.l);
       match a
       case Begin(_) => lane.phase == Idle
       case Handle(_, _) => lane.phase == Clear
       case DeadLetter(_, _) => lane.phase.Failing? && (!lane.phase.retriable || Exhausted(c, m))
       case LockLocally(_) => lane.phase == Failing(true) && !Exhausted(c, m) && !m.inChain
       case PublishLock(_, _) => lane.phase == Locking
       case PublishRetry(_, _) =>
         && c.route(m.key) < |s.lanes| && !s.lanes[c.route(m.key)].main
         && (lane.phase == Locked || (lane.phase == Failing(true) && !Exhausted(c, m) && m.inChain))
       case UndoLocally(_) => lane.phase.Undoing? && lane.phase.left > 0
       case PublishUndo(_, _) => lane.phase.UndoPending? && lane.phase.left > 0
       case FreeLocally(_) => lane.phase == Freeing
       case PublishFree(_, _) => lane.phase == FreePending
       case Mark(_) => lane.phase == Done
  }

  function SetPhase(s: State, l: nat, phase: Phase): State
    requires l < |s.lanes|
  {
    s.(lanes := s.lanes[l := s.lanes[l].(phase := phase)])
  }

  function Count1(c: Config, s: State, key: string): State {
    s.(table := Increment(s.table, c.topic, key))
  }

  function Uncount(c: Config, s: State, key: string): State
    requires Canonical(s.table)
  {
    s.(table := Decrement(s.table, c.topic, key))
  }

  function Retried(m: Msg): Msg {
    m.(attempt := m.attempt + 1, inChain := true)
  }

  function AppendTo(s: State, l: nat, m: Msg): State
    requires l < |s.lanes|
  {
    s.(lanes := s.lanes[l := s.lanes[l].(log := s.lanes[l].log + [m])])
  }

  /** The dead-letter entry of a failing message. */
  function DeadEntry(c: Config, m: Msg, retriable: bool): Dead {
    Dead(m, retriable, m.inChain && !(retriable && c.freeOnDLQ))
  }

  ghost function Step(c: Config, s: State, a: Action): State
    requires Enabled(c, s, a)
  {
    if a.Crash? then s.(lanes := s.lanes[a.l := s.lanes[a.l].(pos := a.back, phase := Idle)], table := a.table)
    else Worked(c, s, a)
  }

  ghost function Worked(c: Config, s: State, a: Action): State
    requires Enabled(c, s, a) && !a.Crash?
  {
    var l, lane, m := a.l, s.lanes[a.l], Current(s, a.l);
    match a
    case Begin(_) => SetPhase(s, l, if lane.main && IsLocked(c, s, m.key) then Failing(true) else Clear)
    case Handle(_, result) =>
      (match result
       case Succeeds => SetPhase(s, l, if lane.main then Done else Freeing).(succeeded := s.succeeded + [m.source])
       case Fails => SetPhase(s, l, Failing(true))
       case FailsForGood => SetPhase(s, l, Failing(false)))
    case DeadLetter(_, ok) =>
      if !ok then SetPhase(s, l, Idle)
      else
        SetPhase(s, l, if lane.phase.retriable && c.freeOnDLQ then Freeing else Done)
          .(dead := s.dead + [DeadEntry(c, m, lane.phase.retriable)])
    case LockLocally(_) => SetPhase(Count1(c, s, m.key), l, Locking)
    case PublishLock(_, ok) => if ok then SetPhase(s, l, Locked) else SetPhase(Uncount(c, s, m.key), l, Idle)
    case PublishRetry(_, ok) =>
      if ok then SetPhase(AppendTo(s, c.route(m.key), Retried(m)), l, Done)
      else SetPhase(s, l, Undoing(ROLLBACKS))
    case UndoLocally(_) => SetPhase(Uncount(c, s, m.key), l, UndoPending(lane.phase.left))
    case PublishUndo(_, ok) =>
      if ok then SetPhase(s, l, Idle)
      else if lane.phase.left > 1 then SetPhase(Count1(c, s, m.key), l, Undoing(lane.phase.left - 1))
      else SetPhase(Count1(c, s, m.key), l, Idle).(stuck := s.stuck + if m.inChain then [] else [m.key])
    case FreeLocally(_) =>
      if m.inChain then SetPhase(Uncount(c, s, m.key), l, FreePending)
      else SetPhase(s, l, Idle)
    case PublishFree(_, ok) => if ok then SetPhase(s, l, Done) else SetPhase(Count1(c, s, m.key), l, Idle)
    case Mark(_) => s.(lanes := s.lanes[l := lane.(pos := lane.pos + 1, phase := Idle)])
  }

  ghost predicate Init(c: Config, s: State) {
    && s.table == map[] && s.succeeded == [] && s.dead == [] && s.stuck == []
    && (forall l | 0 <= l < |s.lanes| :: s.lanes[l].pos == 0 && s.lanes[l].phase == Idle)
    && (forall l | 0 <= l < |s.lanes| && !s.lanes[l].main :: s.lanes[l].log == [])
    && (forall l, o | 0 <= l < |s.lanes| && s.lanes[l].main && 0 <= o < |s.lanes[l].log| ::
          var m := s.lanes[l].log[o]; m.source == Source(l, o) && m.attempt == 0 && !m.inChain)
    && (forall k :: c.route(k) < |s.lanes| && !s.lanes[c.route(k)].main)
  }

  ghost predicate Next(c: Config, s: State, a: Action, s': State) {
    Enabled(c, s, a) && s' == Step(c, s, a)
  }

  ghost predicate Behavior(c: Config, states: seq<State>, actions: seq<Action>) {
    && |states| == |actions| + 1 && Init(c, states[0])
    && forall n | 0 <= n < |actions| :: Next(c, states[n], actions[n], states[n + 1])
  }

  /** The lock of a message that is already in the chain is rolled back, because publishing it
      again has failed. */
  ghost predicate GivesLockAway(s: State, a: Action) {
    a.UndoLocally? && Busy(s, a.l) && Current(s, a.l).inChain
  }

  /** What the lock discipline needs of a run: no crash, and no lock given away. */
  ghost predicate Faithful(s: State, a: Action) {
    !a.Crash? && !GivesLockAway(s, a)
  }

  ghost predicate FaithfulRun(states: seq<State>, actions: seq<Action>) {
    |states| == |actions| + 1 && forall n | 0 <= n < |actions| :: Faithful(states[n], actions[n])
  }

  // ---------------------------------------------------------------- shape of the lanes

  /** What the messages of lane number `l` look like, and where its worker can be. */
  ghost predicate LaneOk(c: Config, lane: Lane, l: nat) {
    && lane.pos <= |lane.log|
    && (lane.phase != Idle ==> lane.pos < |lane.log|)
    && (lane.phase.Locking? || lane.phase.Locked? ==> !Exhausted(c, lane.log[lane.pos]))
    && (forall o | 0 <= o < |lane.log| :: MsgOk(c, lane, l, o))
  }

  ghost predicate MsgOk(c: Config, lane: Lane, l: nat, o: nat)
    requires o < |lane.log|
  {
    var m := lane.log[o];
    && m.attempt <= c.maxRetries
    && if lane.main then m.source == Source(l, o) && m.attempt == 0 && !m.inChain
       else m.inChain && c.route(m.key) == l
  }

  ghost predicate Shaped(c: Config, s: State) {
    && Canonical(s.table)
    && (forall l | 0 <= l < |s.lanes| :: LaneOk(c, s.lanes[l], l))
    && (forall k :: c.route(k) < |s.lanes| && !s.lanes[c.route(k)].main)
  }

  lemma InitShaped(c: Config, s: State)
    requires Init(c, s)
    ensures Shaped(c, s)
  {
  }

  /** A worker moves on without its lane's log changing. */
  lemma MoveKeepsLane(c: Config, lane: Lane, l: nat, pos: nat, phase: Phase)
    requires LaneOk(c, lane, l) && pos <= |lane.log|
    requires phase != Idle ==> pos < |lane.log|
    requires phase.Locking? || phase.Locked? ==> !Exhausted(c, lane.log[pos])
    ensures LaneOk(c, lane.(pos := pos, phase := phase), l)
  {
    var lane' := lane.(pos := pos, phase := phase);
    forall o | 0 <= o < |lane'.log| ensures MsgOk(c, lane', l, o) {
      assert MsgOk(c, lane, l, o);
    }
  }

  lemma AppendKeepsLane(c: Config, lane: Lane, l: nat, m: Msg)
    requires LaneOk(c, lane, l) && !lane.main
    requires m.attempt <= c.maxRetries && m.inChain && c.route(m.key) == l
    ensures LaneOk(c, lane.(log := lane.log + [m]), l)
  {
    var lane' := lane.(log := lane.log + [m]);
    forall o | 0 <= o < |lane'.log| ensures MsgOk(c, lane', l, o) {
      assert o < |lane.log| ==> MsgOk(c, lane, l, o) && lane'.log[o] == lane.log[o];
    }
  }

  /** Where a step leaves its own worker. */
  function NewPhase(c: Config, s: State, a: Action): Phase
    requires a.Crash? || Busy(s, a.l)
  {
    if a.Crash? then Idle
    else
    var lane, m := s.lanes[a.l], Current(s, a.l);
    match a
    case Begin(_) => if lane.main && IsLocked(c, s, m.key) then Failing(true) else Clear
    case Handle(_, result) =>
      if result.Succeeds? then (if lane.main then Done else Freeing) else Failing(result.Fails?)
    case DeadLetter(_, ok) =>
      if !ok then Idle else if lane.phase == Failing(true) && c.freeOnDLQ then Freeing else Done
    case LockLocally(_) => Locking
    case PublishLock(_, ok) => if ok then Locked else Idle
    case PublishRetry(_, ok) => if ok then Done else Undoing(ROLLBACKS)
    case UndoLocally(_) => UndoPending(if lane.phase.Undoing? then lane.phase.left else 0)
    case PublishUndo(_, ok) =>
      if !ok && lane.phase.UndoPending? && lane.phase.left > 1 then Undoing(lane.phase.left - 1) else Idle
    case FreeLocally(_) => if m.inChain then FreePending else Idle
    case PublishFree(_, ok) => if ok then Done else Idle
    case Mark(_) => Idle
  }

  function NewPos(s: State, a: Action): nat
    requires a.l < |s.lanes|
  {
    if a.Mark? then s.lanes[a.l].pos + 1 else if a.Crash? then a.back else s.lanes[a.l].pos
  }

  predicate Publishes(a: Action) {
    a.PublishRetry? && a.ok
  }

  /** What a step does to the lanes: its worker moves, and a retry lane may grow first. */
  function NewLanes(c: Config, s: State, a: Action): seq<Lane>
    requires a.l < |s.lanes| && (a.Crash? || Busy(s, a.l))
    requires Publishes(a) ==> c.route(Current(s, a.l).key) < |s.lanes|
  {
    var grown := if Publishes(a) then AppendTo(s, c.route(Current(s, a.l).key), Retried(Current(s, a.l))).lanes
                 else s.lanes;
    grown[a.l := grown[a.l].(pos := NewPos(s, a), phase := NewPhase(c, s, a))]
  }

  lemma StepLanes(c: Config, s: State, a: Action)
    requires Enabled(c, s, a)
    ensures Step(c, s, a).lanes == NewLanes(c, s, a)
  {
  }

  lemma GrownShaped(c: Config, s: State, m: Msg)
    requires Shaped(c, s) && m.attempt < c.maxRetries
    ensures Shaped(c, AppendTo(s, c.route(m.key), Retried(m)))
  {
    var r := c.route(m.key);
    assert LaneOk(c, s.lanes[r], r);
    AppendKeepsLane(c, s.lanes[r], r, Retried(m));
  }

  lemma StepKeepsShape(c: Config, s: State, a: Action)
    requires Shaped(c, s) && Enabled(c, s, a)
    ensures Shaped(c, Step(c, s, a))
  {
    StepLanes(c, s, a);
    var s1 := s;
    assert LaneOk(c, s.lanes[a.l], a.l);
    if Publishes(a) {
      GrownShaped(c, s, Current(s, a.l));
      s1 := AppendTo(s, c.route(Current(s, a.l).key), Retried(Current(s, a.l)));
    }
    var lane := s1.lanes[a.l];
    assert !a.Crash? ==> lane.log[s.lanes[a.l].pos] == Current(s, a.l);
    MoveKeepsLane(c, lane, a.l, NewPos(s, a), NewPhase(c, s, a));
    MovedShaped(c, s1, a.l, lane.(pos := NewPos(s, a), phase := NewPhase(c, s, a)));
  }

  lemma MessageOk(c: Config, s: State, l: nat)
    requires Shaped(c, s) && Busy(s, l)
    ensures LaneOk(c, s.lanes[l], l) && MsgOk(c, s.lanes[l], l, s.lanes[l].pos)
  {
    assert LaneOk(c, s.lanes[l], l) && MsgOk(c, s.lanes[l], l, s.lanes[l].pos);
  }

  lemma MovedShaped(c: Config, s: State, l: nat, lane: Lane)
    requires Shaped(c, s) && l < |s.lanes| && LaneOk(c, lane, l) && lane.main == s.lanes[l].main
    ensures Shaped(c, s.(lanes := s.lanes[l := lane]))
  {
  }
}
