/** Locks in the retry chain: what the local count of a key stands for at every moment. */
module ChainLocks {
  import opened LockTable
  import opened RetryChain
  import opened ChainSums

  /** Whether the message a worker is at has a lock of its own counted: on the main topic
      between the local acquire and the publication or rollback, in the chain always except
      once it is being freed, has been freed, or has been handed on. */
  predicate OwnsLock(main: bool, phase: Phase) {
    if main then phase.Locking? || phase.Locked? || phase.Undoing?
    else !phase.FreePending? && !phase.Done?
  }

  /** One for a message of the key that has a lock counted; main messages are those not yet in
      the chain. */
  function LockOf(key: string): Cost {
    (m: Msg, phase: Phase) => if m.key == key && OwnsLock(!m.inChain, phase) then 1 else 0
  }

  /** Dead-lettered messages of the key whose lock was kept. */
  function Kept(dead: seq<Dead>, key: string): nat {
    if dead == [] then 0
    else Kept(dead[..|dead| - 1], key) +
         if dead[|dead| - 1].kept && dead[|dead| - 1].msg.key == key then 1 else 0
  }

  function StuckFor(stuck: seq<string>, key: string): nat {
    if stuck == [] then 0
    else StuckFor(stuck[..|stuck| - 1], key) + if stuck[|stuck| - 1] == key then 1 else 0
  }

  function LockTotal(s: State, key: string): nat {
    Total(s.lanes, LockOf(key)) + Kept(s.dead, key) + StuckFor(s.stuck, key)
  }

  /** Only main messages are being locked, only messages in the chain freed; no rollback of a
      chain message's lock has begun. */
  ghost predicate Disciplined(s: State) {
    forall l | 0 <= l < |s.lanes| ::
      var p := s.lanes[l].phase;
      if s.lanes[l].main then !p.FreePending?
      else !p.Locking? && !p.Locked? && !p.UndoPending?
  }

  ghost predicate Balanced(c: Config, s: State) {
    forall k :: Count(s.table, c.topic, k) == LockTotal(s, k)
  }

  ghost predicate Conserved(c: Config, s: State) {
    Shaped(c, s) && Disciplined(s) && Balanced(c, s)
  }

  /** No key counts fewer locks than its messages hold. */
  ghost predicate Covering(c: Config, s: State) {
    Shaped(c, s) && Disciplined(s) && forall k :: Count(s.table, c.topic, k) >= LockTotal(s, k)
  }

  /** A worker starts over at its last mark with a table that counts at least the locks its
      messages stand for then: one for every unmarked message of the retry topic, also for one
      whose lock has been released but that was not marked. */
  ghost predicate Restarts(c: Config, s: State, a: Action) {
    && a.Crash? && Enabled(c, s, a) && a.back == s.lanes[a.l].pos
    && forall k :: Count(a.table, c.topic, k) >= LockTotal(Step(c, s, a), k)
  }

  // ---------------------------------------------------------------- sums

  lemma KeptAppend(dead: seq<Dead>, d: Dead, key: string)
    ensures Kept(dead + [d], key) == Kept(dead, key) + if d.kept && d.msg.key == key then 1 else 0
  {
    assert (dead + [d])[..|dead|] == dead;
  }

  lemma StuckAppend(stuck: seq<string>, k: string, key: string)
    ensures StuckFor(stuck + [k], key) == StuckFor(stuck, key) + if k == key then 1 else 0
    ensures stuck + [] == stuck
  {
    assert (stuck + [k])[..|stuck|] == stuck;
  }

  // ---------------------------------------------------------------- one step

  /** By how much a step changes the number of locks the messages hold. */
  function LockChange(c: Config, s: State, a: Action): int
    requires Busy(s, a.l)
  {
    var main := s.lanes[a.l].main;
    if a.Mark? then 0
    else (if OwnsLock(main, NewPhase(c, s, a)) then 1 else 0) - (if OwnsLock(main, s.lanes[a.l].phase) then 1 else 0)
         + if Publishes(a) then 1 else 0
  }

  lemma HeldChange(c: Config, s: State, a: Action, key: string)
    requires Shaped(c, s) && Enabled(c, s, a) && !a.Crash?
    ensures Total(Step(c, s, a).lanes, LockOf(key)) == Total(s.lanes, LockOf(key)) +
            if Current(s, a.l).key == key then LockChange(c, s, a) else 0
    ensures Current(s, a.l).key == key && OwnsLock(s.lanes[a.l].main, s.lanes[a.l].phase) ==>
            Total(s.lanes, LockOf(key)) > 0
  {
    var m, cost := Current(s, a.l), LockOf(key);
    assert m.inChain == !s.lanes[a.l].main by {
      assert LaneOk(c, s.lanes[a.l], a.l) && MsgOk(c, s.lanes[a.l], a.l, s.lanes[a.l].pos);
    }
    TotalChange(c, s, a, cost);
    assert forall p :: cost(m, p) == if m.key == key && OwnsLock(!m.inChain, p) then 1 else 0;
    assert cost(Retried(m), Idle) == if m.key == key then 1 else 0;
  }

  lemma StepKeepsDiscipline(c: Config, s: State, a: Action)
    requires Shaped(c, s) && Disciplined(s) && Enabled(c, s, a) && Faithful(s, a)
    ensures Disciplined(Step(c, s, a))
  {
    StepLanes(c, s, a);
    assert LaneOk(c, s.lanes[a.l], a.l) && MsgOk(c, s.lanes[a.l], a.l, s.lanes[a.l].pos);
  }

  /** By how much a step changes the local count of its message's key. */
  function CountChange(s: State, a: Action): int
    requires Busy(s, a.l)
  {
    match a
    case LockLocally(_) => 1
    case PublishLock(_, ok) => if ok then 0 else -1
    case UndoLocally(_) => -1
    case PublishUndo(_, ok) => if ok then 0 else 1
    case FreeLocally(_) => if Current(s, a.l).inChain then -1 else 0
    case PublishFree(_, ok) => if ok then 0 else 1
    case _ => 0
  }

  lemma TableChange(c: Config, s: State, a: Action, key: string)
    requires Shaped(c, s) && Enabled(c, s, a) && !a.Crash?
    requires CountChange(s, a) < 0 ==> Count(s.table, c.topic, Current(s, a.l).key) > 0
    ensures Count(Step(c, s, a).table, c.topic, key)
         == Count(s.table, c.topic, key) + if Current(s, a.l).key == key then CountChange(s, a) else 0
  {
  }

  /** What a step adds to the dead-lettered messages with a kept lock, or to the stuck keys. */
  function LeftBehind(c: Config, s: State, a: Action): int
    requires Busy(s, a.l)
  {
    var m, phase := Current(s, a.l), s.lanes[a.l].phase;
    (if a.DeadLetter? && a.ok && DeadEntry(c, m, phase == Failing(true)).kept then 1 else 0) +
    (if a.PublishUndo? && !a.ok && phase.UndoPending? && phase.left <= 1 && !m.inChain then 1 else 0)
  }

  lemma LeftBehindChange(c: Config, s: State, a: Action, key: string)
    requires Enabled(c, s, a) && !a.Crash?
    ensures var s' := Step(c, s, a);
            Kept(s'.dead, key) + StuckFor(s'.stuck, key) == Kept(s.dead, key) + StuckFor(s.stuck, key) +
            if Current(s, a.l).key == key then LeftBehind(c, s, a) else 0
  {
    KeptAppend(s.dead, DeadEntry(c, Current(s, a.l), s.lanes[a.l].phase == Failing(true)), key);
    StuckAppend(s.stuck, Current(s, a.l).key, key);
  }

  /** Locally counted is what is held or left behind. */
  lemma ChangesBalance(c: Config, s: State, a: Action)
    requires Shaped(c, s) && Disciplined(s) && Enabled(c, s, a) && Faithful(s, a)
    ensures CountChange(s, a) == LockChange(c, s, a) + LeftBehind(c, s, a)
    ensures CountChange(s, a) < 0 ==> OwnsLock(s.lanes[a.l].main, s.lanes[a.l].phase)
  {
    assert LaneOk(c, s.lanes[a.l], a.l) && MsgOk(c, s.lanes[a.l], a.l, s.lanes[a.l].pos);
  }

  lemma StepConserves(c: Config, s: State, a: Action)
    requires Conserved(c, s) && Enabled(c, s, a) && Faithful(s, a)
    ensures Conserved(c, Step(c, s, a))
  {
    StepKeepsShape(c, s, a);
    StepKeepsDiscipline(c, s, a);
    ChangesBalance(c, s, a);
    var s' := Step(c, s, a);
    HeldChange(c, s, a, Current(s, a.l).key);
    assert CountChange(s, a) < 0 ==> LockTotal(s, Current(s, a.l).key) > 0;
    forall k ensures Count(s'.table, c.topic, k) == LockTotal(s', k) {
      assert Count(s.table, c.topic, k) == LockTotal(s, k);
      HeldChange(c, s, a, k);
      TableChange(c, s, a, k);
      LeftBehindChange(c, s, a, k);
    }
  }

  lemma StepKeepsCovering(c: Config, s: State, a: Action)
    requires Covering(c, s) && Enabled(c, s, a) && Faithful(s, a)
    ensures Covering(c, Step(c, s, a))
  {
    StepKeepsShape(c, s, a);
    StepKeepsDiscipline(c, s, a);
    ChangesBalance(c, s, a);
    var s' := Step(c, s, a);
    HeldChange(c, s, a, Current(s, a.l).key);
    assert CountChange(s, a) < 0 ==> LockTotal(s, Current(s, a.l).key) > 0;
    forall k ensures Count(s'.table, c.topic, k) >= LockTotal(s', k) {
      assert Count(s.table, c.topic, k) >= LockTotal(s, k);
      HeldChange(c, s, a, k);
      TableChange(c, s, a, k);
      LeftBehindChange(c, s, a, k);
    }
  }

  lemma RestartKeepsCovering(c: Config, s: State, a: Action)
    requires Covering(c, s) && Restarts(c, s, a)
    ensures Covering(c, Step(c, s, a))
  {
    StepKeepsShape(c, s, a);
  }

  lemma NothingHeldAtFirst(c: Config, s: State, key: string)
    requires Init(c, s)
    ensures Total(s.lanes, LockOf(key)) == 0
  {
    forall l | 0 <= l < |s.lanes| ensures Load(s.lanes[l], LockOf(key)) == 0 {
      if s.lanes[l].main {
        NotLocked(s.lanes[l].log, key);
      }
    }
    TotalZero(s.lanes, LockOf(key));
  }

  lemma {:induction false} NotLocked(log: seq<Msg>, key: string)
    requires forall o | 0 <= o < |log| :: !log[o].inChain
    ensures Waiting(log, LockOf(key)) == 0
    decreases |log|
  {
    if log != [] {
      NotLocked(log[1..], key);
    }
  }

  /** In every faithful run, at every moment, the local count of a key is the number of its
      messages waiting or being handled in the retry topic, plus its first redirects between
      acquire and publication, plus its dead-lettered messages whose lock was kept, plus its
      first redirects whose every rollback failed. */
  lemma {:induction false} LocksConserved(c: Config, states: seq<State>, actions: seq<Action>, n: nat)
    requires Behavior(c, states, actions) && n < |states|
    requires forall i | 0 <= i < n :: Faithful(states[i], actions[i])
    ensures Conserved(c, states[n])
    decreases n
  {
    if n == 0 {
      InitShaped(c, states[0]);
      forall k ensures LockTotal(states[0], k) == 0 {
        NothingHeldAtFirst(c, states[0], k);
      }
    } else {
      LocksConserved(c, states, actions, n - 1);
      assert Next(c, states[n - 1], actions[n - 1], states[n]);
      StepConserves(c, states[n - 1], actions[n - 1]);
    }
  }

  /** Giving the lock away leaves the key with one lock fewer than its messages stand for. */
  lemma GivingAwayUnbalances(c: Config, s: State, a: Action)
    requires Conserved(c, s) && Enabled(c, s, a) && GivesLockAway(s, a)
    ensures var key, s' := Current(s, a.l).key, Step(c, s, a);
            Count(s'.table, c.topic, key) == LockTotal(s', key) - 1
  {
    var key := Current(s, a.l).key;
    assert LaneOk(c, s.lanes[a.l], a.l) && MsgOk(c, s.lanes[a.l], a.l, s.lanes[a.l].pos);
    assert Count(s.table, c.topic, key) == LockTotal(s, key);
    HeldChange(c, s, a, key);
    TableChange(c, s, a, key);
  }

  /** As long as no worker starts over, counts and messages balance throughout exactly when no
      lock is given away. */
  lemma BalancedExactly(c: Config, states: seq<State>, actions: seq<Action>, n: nat)
    requires Behavior(c, states, actions) && n < |states|
    requires forall i | 0 <= i < n :: !actions[i].Crash?
    ensures (forall i | 0 <= i <= n :: Balanced(c, states[i]))
       <==> (forall i | 0 <= i < n :: !GivesLockAway(states[i], actions[i]))
  {
    if forall i | 0 <= i < n :: !GivesLockAway(states[i], actions[i]) {
      forall i | 0 <= i <= n ensures Balanced(c, states[i]) {
        LocksConserved(c, states, actions, i);
      }
    } else {
      var i := FirstGivenAway(states, actions, n);
      LocksConserved(c, states, actions, i);
      assert Next(c, states[i], actions[i], states[i + 1]);
      GivingAwayUnbalances(c, states[i], actions[i]);
      assert !Balanced(c, states[i + 1]);
    }
  }

  lemma {:induction false} FirstGivenAway(states: seq<State>, actions: seq<Action>, n: nat) returns (i: nat)
    requires n <= |actions| < |states|
    requires exists j :: 0 <= j < n && GivesLockAway(states[j], actions[j])
    ensures i < n && GivesLockAway(states[i], actions[i])
    ensures forall j | 0 <= j < i :: !GivesLockAway(states[j], actions[j])
  {
    i := 0;
    while !GivesLockAway(states[i], actions[i])
      invariant i < n && forall j | 0 <= j < i :: !GivesLockAway(states[j], actions[j])
      decreases n - i
    {
      i := i + 1;
    }
  }
}
