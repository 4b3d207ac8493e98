/** The tracker's calls, as computed on the real tables, headers and producer, are walks of the
    retry chain's step machine. */
module ChainRefinement {
  import opened Headers
  import opened Text
  import opened LockTable
  import opened LocalCoordinator
  import opened Messaging
  import opened Coordinator
  import opened RetryHeaders
  import T = Tracker
  import opened RetryChain
  import opened Agreement
  import DeadLetters

  /** One step of worker `l` other than a crash or the marking. */
  ghost predicate Moves(c: Config, l: nat, s: State, s': State) {
    exists a: Action :: a.l == l && !a.Crash? && !a.Mark? && Next(c, s, a, s')
  }

  /** The states of a walk of worker `l` from `s` to `s'`. */
  ghost predicate Leads(c: Config, l: nat, s: State, path: seq<State>, s': State) {
    && |path| > 0 && path[0] == s && path[|path| - 1] == s'
    && forall n | 0 < n < |path| :: Moves(c, l, path[n - 1], path[n])
  }

  lemma LeadsOn(c: Config, l: nat, s: State, first: seq<State>, s1: State, second: seq<State>, s2: State)
    requires Leads(c, l, s, first, s1) && Leads(c, l, s1, second, s2)
    ensures Leads(c, l, s, first + second[1..], s2)
  {
    var path := first + second[1..];
    forall n | 0 < n < |path| ensures Moves(c, l, path[n - 1], path[n]) {
      if n >= |first| {
        assert path[n] == second[n - |first| + 1] && path[n - 1] == second[n - |first|];
      }
    }
  }

  // ---------------------------------------------------------------- the abstraction

  /** The messages to the retry topic among everything sent. */
  function Retries(sent: seq<Sent>): seq<Sent> {
    if sent == [] then []
    else Retries(sent[..|sent| - 1]) + if sent[|sent| - 1].to.Retry? then [sent[|sent| - 1]] else []
  }

  /** The dead letters among everything sent. */
  function Letters(sent: seq<Sent>): seq<Sent> {
    if sent == [] then []
    else Letters(sent[..|sent| - 1]) + if sent[|sent| - 1].to.DeadLetter? then [sent[|sent| - 1]] else []
  }

  lemma SentAppend(sent: seq<Sent>, m: Sent)
    ensures Retries(sent + [m]) == Retries(sent) + if m.to.Retry? then [m] else []
    ensures Letters(sent + [m]) == Letters(sent) + if m.to.DeadLetter? then [m] else []
  {
    assert (sent + [m])[..|sent|] == sent;
  }

  /** Nothing went to the retry or the dead-letter topic in between. */
  predicate SameSent(w: World, w': World) {
    Retries(w'.wire.sent) == Retries(w.wire.sent) && Letters(w'.wire.sent) == Letters(w.wire.sent)
  }

  predicate Headed(h: seq<Header>, topic: string) {
    Get(h, HEADER_ID).Some? && Get(h, HEADER_TOPIC) == Some(topic)
  }

  /** What the machine knows of a message, which is a copy without duplicate headers. One
      outside the chain carries no lock id and no topic header; one inside it carries both. */
  ghost predicate Stands(topic: string, x: Msg, m: Message) {
    && NoDup(m.headers)
    && x.key == m.key && x.payload == m.payload
    && x.attempt == T.Attempt(m.headers) && x.inChain == T.InChain(m.headers)
    && topic == T.OriginalTopic(m)
    && if x.inChain then Headed(m.headers, topic)
       else Get(m.headers, HEADER_ID) == None && Get(m.headers, HEADER_TOPIC) == None
  }

  /** The letter of a dead-lettered message. */
  predicate LetterOf(topic: string, d: Dead, letter: Sent) {
    && letter.to == Destination.DeadLetter(topic) && letter.key == d.msg.key && letter.payload == d.msg.payload
    && GetInt(letter.headers, HEADER_DLQ_RETRY_ATTEMPTS) == Some(d.msg.attempt)
  }

  /** A retry message as consumed; with a topic header set, the name of the topic it comes
      from does not matter. */
  function Received(r: Sent): Message {
    Message(r.to.topic, r.key, r.payload, r.headers)
  }

  /** Worker `l` is at message `m`, and the two configurations agree. */
  ghost predicate At(c: Config, cfg: T.Config, s: State, l: nat, m: Message) {
    && Busy(s, l) && Stands(c.topic, Current(s, l), m)
    && Current(s, l).inChain == !s.lanes[l].main
    && c.route(m.key) < |s.lanes| && !s.lanes[c.route(m.key)].main
    && c.maxRetries == cfg.maxRetries && IsInt64(cfg.maxRetries) && c.freeOnDLQ == cfg.freeOnDLQ
  }

  /** How much there was when the call began, in the machine and on the wire: messages in the
      key's retry lane and retry messages, dead-lettered messages and letters. */
  datatype Counts = Counts(logged: nat, retries: nat, listed: nat, letters: nat)

  /** That, and the successes listed by now. */
  datatype Before = Before(counts: Counts, succeeded: seq<Source>)

  /** The same table, and since the beginning the same retry messages, the same dead letters,
      and the successes of the handler. */
  ghost predicate Mirrors(c: Config, s: State, key: string, w: World, b: Before) {
    && c.route(key) < |s.lanes|
    && Canonical(w.table) && s.table == w.table
    && SameRetries(c.topic, s.lanes[c.route(key)].log, Retries(w.wire.sent), b.counts)
    && SameLetters(c.topic, s.dead, Letters(w.wire.sent), b.counts)
    && s.succeeded == b.succeeded
  }

  ghost predicate SameRetries(topic: string, log: seq<Msg>, retries: seq<Sent>, b: Counts) {
    && b.logged <= |log| && b.retries <= |retries| && |log| - b.logged == |retries| - b.retries
    && forall i | b.logged <= i < |log| :: Stands(topic, log[i], Received(retries[i - b.logged + b.retries]))
  }

  ghost predicate SameLetters(topic: string, dead: seq<Dead>, letters: seq<Sent>, b: Counts) {
    && b.listed <= |dead| && b.letters <= |letters| && |dead| - b.listed == |letters| - b.letters
    && forall i | b.listed <= i < |dead| :: LetterOf(topic, dead[i], letters[i - b.listed + b.letters])
  }

  /** Worker `l` is at `m` in the given phase, and the machine mirrors the world. */
  ghost predicate Here(c: Config, cfg: T.Config, s: State, l: nat, m: Message, w: World, b: Before, phase: Phase) {
    At(c, cfg, s, l, m) && Mirrors(c, s, m.key, w, b) && s.lanes[l].phase == phase
  }

  ghost predicate Reached(c: Config, cfg: T.Config, s: State, l: nat, m: Message, path: seq<State>, s': State,
                          w': World, b: Before, phase: Phase) {
    Leads(c, l, s, path, s') && Here(c, cfg, s', l, m, w', b, phase)
  }

  lemma Onwards(c: Config, cfg: T.Config, s: State, l: nat, m: Message,
                first: seq<State>, s1: State, w1: World, b1: Before, p1: Phase,
                second: seq<State>, s2: State, w2: World, b2: Before, p2: Phase)
    returns (path: seq<State>)
    requires Reached(c, cfg, s, l, m, first, s1, w1, b1, p1)
    requires Reached(c, cfg, s1, l, m, second, s2, w2, b2, p2)
    ensures Reached(c, cfg, s, l, m, path, s2, w2, b2, p2)
  {
    path := first + second[1..];
    LeadsOn(c, l, s, first, s1, second, s2);
  }

  predicate Quiet(a: Action) {
    !a.Mark? && !a.Crash? && !Publishes(a) && !(a.DeadLetter? && a.ok) && !(a.Handle? && a.result.Succeeds?)
  }

  /** One step before the marking: the worker stays at its message. */
  lemma Move(c: Config, cfg: T.Config, s: State, l: nat, m: Message, w: World, b: Before, phase: Phase,
             a: Action, w': World)
    requires Here(c, cfg, s, l, m, w, b, phase)
    requires Enabled(c, s, a) && a.l == l && Quiet(a)
    requires Canonical(w'.table) && w'.table == Step(c, s, a).table && SameSent(w, w')
    ensures Reached(c, cfg, s, l, m, [s, Step(c, s, a)], Step(c, s, a), w', b, NewPhase(c, s, a))
  {
    StepLanes(c, s, a);
    assert Next(c, s, a, Step(c, s, a));
  }

  /** The worker that makes a step before the marking stays at its message. */
  lemma StaysAt(c: Config, cfg: T.Config, s: State, l: nat, m: Message, a: Action)
    requires At(c, cfg, s, l, m) && Enabled(c, s, a) && a.l == l && !a.Mark? && !a.Crash? && !Publishes(a)
    ensures var s' := Step(c, s, a);
            && At(c, cfg, s', l, m) && s'.lanes[l].phase == NewPhase(c, s, a)
            && s'.lanes[c.route(m.key)].log == s.lanes[c.route(m.key)].log
            && Leads(c, l, s, [s, s'], s')
  {
    StepLanes(c, s, a);
    assert Next(c, s, a, Step(c, s, a));
  }

  /** The step in which the handler succeeds. */
  lemma MoveSucceeded(c: Config, cfg: T.Config, s: State, l: nat, m: Message, w: World, b: Before)
    requires Here(c, cfg, s, l, m, w, b, Clear)
    requires Enabled(c, s, Handle(l, Succeeds))
    ensures var s' := Step(c, s, Handle(l, Succeeds));
            Reached(c, cfg, s, l, m, [s, s'], s', w, b.(succeeded := b.succeeded + [Current(s, l).source]),
                    if s.lanes[l].main then Done else Freeing)
  {
    StaysAt(c, cfg, s, l, m, Handle(l, Succeeds));
  }

  /** The step that publishes to the retry topic. */
  lemma MoveOn(c: Config, cfg: T.Config, s: State, l: nat, m: Message, w: World, b: Before, phase: Phase,
               retry: Sent, w': World)
    requires Here(c, cfg, s, l, m, w, b, phase) && Enabled(c, s, PublishRetry(l, true))
    requires w'.table == w.table && Stands(c.topic, Retried(Current(s, l)), Received(retry))
    requires Retries(w'.wire.sent) == Retries(w.wire.sent) + [retry] && Letters(w'.wire.sent) == Letters(w.wire.sent)
    ensures var s' := Step(c, s, PublishRetry(l, true)); Reached(c, cfg, s, l, m, [s, s'], s', w', b, Done)
  {
    var a := PublishRetry(l, true);
    StepLanes(c, s, a);
    assert Next(c, s, a, Step(c, s, a));
    RetriesAppend(c.topic, s.lanes[c.route(m.key)].log, Retries(w.wire.sent), b.counts, Retried(Current(s, l)), retry);
  }

  /** The step that publishes to the dead-letter topic. */
  lemma MoveDead(c: Config, cfg: T.Config, s: State, l: nat, m: Message, w: World, b: Before, phase: Phase,
                 letter: Sent, w': World)
    requires Here(c, cfg, s, l, m, w, b, phase) && Enabled(c, s, Action.DeadLetter(l, true)) && phase.Failing?
    requires w'.table == w.table && LetterOf(c.topic, DeadEntry(c, Current(s, l), phase.retriable), letter)
    requires Letters(w'.wire.sent) == Letters(w.wire.sent) + [letter] && Retries(w'.wire.sent) == Retries(w.wire.sent)
    ensures var a := Action.DeadLetter(l, true);
            Reached(c, cfg, s, l, m, [s, Step(c, s, a)], Step(c, s, a), w', b, NewPhase(c, s, a))
  {
    var a := Action.DeadLetter(l, true);
    StepLanes(c, s, a);
    assert Next(c, s, a, Step(c, s, a));
    LettersAppend(c.topic, s.dead, Letters(w.wire.sent), b.counts,
                  DeadEntry(c, Current(s, l), phase.retriable), letter);
  }

  lemma LettersAppend(topic: string, dead: seq<Dead>, letters: seq<Sent>, b: Counts, d: Dead, letter: Sent)
    requires SameLetters(topic, dead, letters, b) && LetterOf(topic, d, letter)
    ensures SameLetters(topic, dead + [d], letters + [letter], b)
  {
  }

  lemma RetriesAppend(topic: string, log: seq<Msg>, retries: seq<Sent>, b: Counts, x: Msg, r: Sent)
    requires SameRetries(topic, log, retries, b) && Stands(topic, x, Received(r))
    ensures SameRetries(topic, log + [x], retries + [r], b)
  {
  }

  // ---------------------------------------------------------------- what the outcomes publish

  /** What a release does to the table and what it publishes. */
  lemma ReleaseEffect(env: Setting, w: World, topic: string, key: string, h: seq<Header>)
    requires Canonical(w.table) && Headed(h, topic)
    ensures var (w', ok) := ReleaseOutcome(env, w, key, h);
            && w'.table == (if ok then Decrement(w.table, topic, key)
                            else Increment(Decrement(w.table, topic, key), topic, key))
            && SameSent(w, w')
  {
    SentAppend(w.wire.sent, Tombstone(env, topic, key, Get(h, HEADER_ID).value, h));
  }

  lemma AcquireEffect(env: Setting, w: World, topic: string, key: string, h: seq<Header>)
    requires Canonical(w.table) && Get(h, HEADER_TOPIC).GetOr(topic) == topic
    ensures var (w', h', ok) := AcquireOutcome(env, w, topic, key, h);
            && Headed(h', topic)
            && w'.table == (if ok then Increment(w.table, topic, key)
                            else Decrement(Increment(w.table, topic, key), topic, key))
            && SameSent(w, w')
  {
    AcquireShape(env, w, topic, key, h);
    var id := Get(h, HEADER_ID).GetOr(env.mint(w.minted));
    SentAppend(w.wire.sent, LockRecord(env, topic, key, id, LockHeaders(env, w, topic, h)));
  }

  lemma DeadLetterEffect(env: Setting, w: World, m: Message, topic: string, d: Dead, reason: string, at: T.Moment)
    requires Stands(topic, d.msg, m)
    ensures var (w', ok) := T.DeadLetterOutcome(env, w, m, reason, at);
            var letter := T.DeadMessage(m, reason, at);
            && w'.table == w.table && Retries(w'.wire.sent) == Retries(w.wire.sent)
            && Letters(w'.wire.sent) == Letters(w.wire.sent) + (if ok then [letter] else [])
            && LetterOf(topic, d, letter)
  {
    CopyIsIdentityWithoutDuplicates(m.headers);
    SentAppend(w.wire.sent, T.DeadMessage(m, reason, at));
    DeadLetters.LetterReads(m, reason, at);
  }

  /** The retry message stands for the message with one attempt more. */
  lemma RetryStands(cfg: T.Config, x: Msg, m: Message, topic: string, h: seq<Header>, reason: string, at: T.Moment)
    requires Stands(topic, x, m) && Get(h, HEADER_ID).Some?
             && IsInt64(cfg.maxRetries) && T.Attempt(m.headers) < cfg.maxRetries
    ensures var retry := T.RetryMessage(m, h, T.HopOf(cfg, m, Get(h, HEADER_ID).value, reason, at));
            Stands(topic, Retried(x), Received(retry))
  {
    var hop := T.HopOf(cfg, m, Get(h, HEADER_ID).value, reason, at);
    HopReadsBack(h, hop);
    RetriedWithoutDuplicates(h, hop);
    assert hop.attempt == x.attempt + 1 && hop.topic == topic;
  }

  lemma PublishEffect(env: Setting, cfg: T.Config, w: World, m: Message, h: seq<Header>, reason: string, at: T.Moment)
    requires Canonical(w.table) && Get(h, HEADER_ID).Some?
    ensures var retry := T.RetryMessage(m, h, T.HopOf(cfg, m, Get(h, HEADER_ID).value, reason, at));
            var (wire, ok) := Produce(env.outcome, w.wire, retry);
            var w1 := w.(wire := wire);
            && Retries(wire.sent) == Retries(w.wire.sent) + (if ok then [retry] else [])
            && Letters(wire.sent) == Letters(w.wire.sent)
            && T.PublishOutcome(env, cfg, w, m, h, reason, at)
               == if ok then (w1, true) else (T.RollBack(env, w1, m.key, h, ROLLBACKS), false)
  {
    SentAppend(w.wire.sent, T.RetryMessage(m, h, T.HopOf(cfg, m, Get(h, HEADER_ID).value, reason, at)));
  }

  // ---------------------------------------------------------------- segments of a call

  /** Releasing, once decided, is counting down and publishing, and counting up when that fails. */
  lemma FreeSegment(c: Config, cfg: T.Config, env: Setting, s: State, l: nat, w: World, m: Message, b: Before)
    returns (path: seq<State>, s': State)
    requires Here(c, cfg, s, l, m, w, b, Freeing)
    ensures var (w', ok) := ReleaseOutcome(env, w, m.key, m.headers);
            Reached(c, cfg, s, l, m, path, s', w', b, if ok then Done else Idle)
  {
    var (w', ok) := ReleaseOutcome(env, w, m.key, m.headers);
    var a, a2 := FreeLocally(l), PublishFree(l, ok);
    var s1 := Step(c, s, a);
    if T.InChain(m.headers) {
      ReleaseEffect(env, w, c.topic, m.key, m.headers);
      var w1 := w.(table := Decrement(w.table, c.topic, m.key));
      Move(c, cfg, s, l, m, w, b, Freeing, a, w1);
      Move(c, cfg, s1, l, m, w1, b, FreePending, a2, w');
      path := Onwards(c, cfg, s, l, m, [s, s1], s1, w1, b, FreePending, [s1, Step(c, s1, a2)], Step(c, s1, a2), w', b,
                      if ok then Done else Idle);
      s' := Step(c, s1, a2);
    } else {
      Move(c, cfg, s, l, m, w, b, Freeing, a, w);
      return [s, s1], s1;
    }
  }

  lemma UndoOnce(c: Config, cfg: T.Config, env: Setting, s: State, l: nat, w: World, m: Message,
                 h: seq<Header>, left: nat, b: Before)
    returns (path: seq<State>, s': State)
    requires Here(c, cfg, s, l, m, w, b, Undoing(left)) && left > 0 && Headed(h, c.topic)
    ensures var (w', ok) := ReleaseOutcome(env, w, m.key, h);
            Reached(c, cfg, s, l, m, path, s', w', b, if ok || left == 1 then Idle else Undoing(left - 1))
  {
    var (w', ok) := ReleaseOutcome(env, w, m.key, h);
    ReleaseEffect(env, w, c.topic, m.key, h);
    var a, a2 := UndoLocally(l), PublishUndo(l, ok);
    var s1, w1 := Step(c, s, a), w.(table := Decrement(w.table, c.topic, m.key));
    Move(c, cfg, s, l, m, w, b, Undoing(left), a, w1);
    Move(c, cfg, s1, l, m, w1, b, UndoPending(left), a2, w');
    path := Onwards(c, cfg, s, l, m, [s, s1], s1, w1, b, UndoPending(left),
                    [s1, Step(c, s1, a2)], Step(c, s1, a2), w', b,
                    if ok || left == 1 then Idle else Undoing(left - 1));
    s' := Step(c, s1, a2);
  }

  /** One rollback: either the last, or as many as before less one remain. */
  lemma UndoStep(c: Config, cfg: T.Config, env: Setting, s: State, l: nat, w: World, m: Message,
                 h: seq<Header>, left: nat, b: Before, goal: World)
    returns (path: seq<State>, s': State, w': World, last: bool)
    requires Here(c, cfg, s, l, m, w, b, Undoing(left)) && left > 0 && Headed(h, c.topic)
    requires goal == T.RollBack(env, w, m.key, h, left)
    ensures Canonical(w'.table) && (left == 1 ==> last)
    ensures if last then goal == w' else goal == T.RollBack(env, w', m.key, h, left - 1)
    ensures Reached(c, cfg, s, l, m, path, s', w', b, if last then Idle else Undoing(left - 1))
  {
    T.RollBackOnce(env, w, m.key, h, left);
    path, s' := UndoOnce(c, cfg, env, s, l, w, m, h, left, b);
    var r := ReleaseOutcome(env, w, m.key, h);
    w', last := r.0, r.1 || left == 1;
  }

  lemma {:induction false} UndoSegment(c: Config, cfg: T.Config, env: Setting, s: State, l: nat, w: World, m: Message,
                                       h: seq<Header>, left: nat, b: Before, goal: World)
    returns (path: seq<State>, s': State)
    requires Here(c, cfg, s, l, m, w, b, Undoing(left)) && left > 0 && Headed(h, c.topic)
    requires goal == T.RollBack(env, w, m.key, h, left)
    ensures Reached(c, cfg, s, l, m, path, s', goal, b, Idle)
    decreases left, 0
  {
    var w1, last;
    path, s', w1, last := UndoStep(c, cfg, env, s, l, w, m, h, left, b, goal);
    if !last {
      path, s' := UndoOn(c, cfg, env, s, l, m, h, left - 1, b, goal, path, s', w1);
    }
  }

  lemma {:induction false} UndoOn(c: Config, cfg: T.Config, env: Setting, s: State, l: nat, m: Message,
                                  h: seq<Header>, left: nat, b: Before, goal: World,
                                  first: seq<State>, s1: State, w1: World)
    returns (path: seq<State>, s': State)
    requires Reached(c, cfg, s, l, m, first, s1, w1, b, Undoing(left)) && left > 0 && Headed(h, c.topic)
    requires Canonical(w1.table) && goal == T.RollBack(env, w1, m.key, h, left)
    ensures Reached(c, cfg, s, l, m, path, s', goal, b, Idle)
    decreases left, 1
  {
    var rest, s2 := UndoSegment(c, cfg, env, s1, l, w1, m, h, left, b, goal);
    path := Onwards(c, cfg, s, l, m, first, s1, w1, b, Undoing(left), rest, s2, goal, b, Idle);
    s' := s2;
  }

  lemma PublishSegment(c: Config, cfg: T.Config, env: Setting, s: State, l: nat, w: World, m: Message,
                       h: seq<Header>, reason: string, at: T.Moment, b: Before, phase: Phase)
    returns (path: seq<State>, s': State)
    requires Here(c, cfg, s, l, m, w, b, phase) && Headed(h, c.topic)
    requires Enabled(c, s, PublishRetry(l, true)) && T.Attempt(m.headers) < cfg.maxRetries
    ensures var (w', ok) := T.PublishOutcome(env, cfg, w, m, h, reason, at);
            Reached(c, cfg, s, l, m, path, s', w', b, if ok then Done else Idle)
  {
    var retry := T.RetryMessage(m, h, T.HopOf(cfg, m, Get(h, HEADER_ID).value, reason, at));
    var (wire, ok) := Produce(env.outcome, w.wire, retry);
    PublishEffect(env, cfg, w, m, h, reason, at);
    var a, w1 := PublishRetry(l, ok), w.(wire := wire);
    path, s' := [s, Step(c, s, a)], Step(c, s, a);
    if ok {
      RetryStands(cfg, Current(s, l), m, c.topic, h, reason, at);
      MoveOn(c, cfg, s, l, m, w, b, phase, retry, w1);
    } else {
      Move(c, cfg, s, l, m, w, b, phase, a, w1);
      var w2 := T.RollBack(env, w1, m.key, h, ROLLBACKS);
      var rest, s2 := UndoSegment(c, cfg, env, s', l, w1, m, h, ROLLBACKS, b, w2);
      path := Onwards(c, cfg, s, l, m, path, s', w1, b, Undoing(ROLLBACKS), rest, s2, w2, b, Idle);
      s' := s2;
    }
  }

  /** Dead-lettering, and freeing where the retries are used up and the configuration says so. */
  lemma DeadSegment(c: Config, cfg: T.Config, env: Setting, s: State, l: nat, w: World, m: Message,
                    failure: T.Failure, at: T.Moment, b: Before)
    returns (path: seq<State>, s': State)
    requires Here(c, cfg, s, l, m, w, b, Failing(failure.Retriable?)) && !failure.Success?
    requires failure.NotRetriable? || T.Attempt(m.headers) >= cfg.maxRetries
    ensures var (w', ok) := T.RedirectOutcome(env, cfg, w, m, failure, at);
            Reached(c, cfg, s, l, m, path, s', w', b, if ok then Done else Idle)
  {
    var reason := if failure.NotRetriable? then failure.reason else T.LastReason(m.headers);
    var (w1, ok) := T.DeadLetterOutcome(env, w, m, reason, at);
    var a, p := Action.DeadLetter(l, ok), Failing(failure.Retriable?);
    DeadLetterEffect(env, w, m, c.topic, DeadEntry(c, Current(s, l), failure.Retriable?), reason, at);
    if ok {
      MoveDead(c, cfg, s, l, m, w, b, p, T.DeadMessage(m, reason, at), w1);
    } else {
      Move(c, cfg, s, l, m, w, b, p, a, w1);
    }
    path, s' := [s, Step(c, s, a)], Step(c, s, a);
    if ok && failure.Retriable? && cfg.freeOnDLQ {
      var rest, s2 := FreeSegment(c, cfg, env, s', l, w1, m, b);
      var (w2, freed) := ReleaseOutcome(env, w1, m.key, m.headers);
      path := Onwards(c, cfg, s, l, m, path, s', w1, b, Freeing, rest, s2, w2, b, if freed then Done else Idle);
      s' := s2;
    }
  }

  lemma LockSegment(c: Config, cfg: T.Config, env: Setting, s: State, l: nat, w: World, m: Message, b: Before)
    returns (path: seq<State>, s': State)
    requires Here(c, cfg, s, l, m, w, b, Failing(true))
    requires T.Attempt(m.headers) < cfg.maxRetries && !T.InChain(m.headers)
    ensures var (w', h, ok) := AcquireOutcome(env, w, c.topic, m.key, m.headers);
            Headed(h, c.topic) && Reached(c, cfg, s, l, m, path, s', w', b, if ok then Locked else Idle)
  {
    var (w', h, ok) := AcquireOutcome(env, w, c.topic, m.key, m.headers);
    AcquireEffect(env, w, c.topic, m.key, m.headers);
    var a, a2 := LockLocally(l), PublishLock(l, ok);
    var s1, w1 := Step(c, s, a), w.(table := Increment(w.table, c.topic, m.key));
    Move(c, cfg, s, l, m, w, b, Failing(true), a, w1);
    Move(c, cfg, s1, l, m, w1, b, Locking, a2, w');
    path := Onwards(c, cfg, s, l, m, [s, s1], s1, w1, b, Locking, [s1, Step(c, s1, a2)], Step(c, s1, a2), w', b,
                    if ok then Locked else Idle);
    s' := Step(c, s1, a2);
  }

  /** Locking and, once locked, publishing. */
  lemma FirstRedirectSegment(c: Config, cfg: T.Config, env: Setting, s: State, l: nat, w: World, m: Message,
                             reason: string, at: T.Moment, b: Before)
    returns (path: seq<State>, s': State)
    requires Here(c, cfg, s, l, m, w, b, Failing(true))
    requires T.Attempt(m.headers) < cfg.maxRetries && !T.InChain(m.headers)
    ensures var (w1, h, locked) := AcquireOutcome(env, w, c.topic, m.key, m.headers);
            var (w', ok) := if locked then T.PublishOutcome(env, cfg, w1, m, h, reason, at) else (w1, false);
            Reached(c, cfg, s, l, m, path, s', w', b, if ok then Done else Idle)
  {
    var (w1, h, locked) := AcquireOutcome(env, w, c.topic, m.key, m.headers);
    path, s' := LockSegment(c, cfg, env, s, l, w, m, b);
    if locked {
      var rest, s2 := PublishSegment(c, cfg, env, s', l, w1, m, h, reason, at, b, Locked);
      var (w2, sent) := T.PublishOutcome(env, cfg, w1, m, h, reason, at);
      path := Onwards(c, cfg, s, l, m, path, s', w1, b, Locked, rest, s2, w2, b, if sent then Done else Idle);
      s' := s2;
    }
  }

  lemma RedirectSegment(c: Config, cfg: T.Config, env: Setting, s: State, l: nat, w: World, m: Message,
                        failure: T.Failure, at: T.Moment, b: Before)
    returns (path: seq<State>, s': State)
    requires Here(c, cfg, s, l, m, w, b, Failing(failure.Retriable?)) && !failure.Success?
    ensures var (w', ok) := T.RedirectOutcome(env, cfg, w, m, failure, at);
            Reached(c, cfg, s, l, m, path, s', w', b, if ok then Done else Idle)
  {
    if failure.NotRetriable? || T.Attempt(m.headers) >= cfg.maxRetries {
      path, s' := DeadSegment(c, cfg, env, s, l, w, m, failure, at, b);
    } else if T.InChain(m.headers) {
      path, s' := PublishSegment(c, cfg, env, s, l, w, m, m.headers, failure.reason, at, b, Failing(true));
    } else {
      path, s' := FirstRedirectSegment(c, cfg, env, s, l, w, m, failure.reason, at, b);
    }
  }

  // ---------------------------------------------------------------- whole calls

  /** What the handler for the worker's topic computes. */
  function CallOutcome(env: Setting, cfg: T.Config, w: World, m: Message, main: bool, result: T.Failure, at: T.Moment)
    : (World, bool)
    requires Canonical(w.table)
  {
    if main then T.MainOutcome(env, cfg, w, m, result, at) else T.RetryOutcome(env, cfg, w, m, result, at)
  }

  function ResultOf(failure: T.Failure): Result {
    match failure
    case Success => Succeeds
    case Retriable(_) => Fails
    case NotRetriable(_) => FailsForGood
  }

  /** Where the call is when the redirect or the release begins. */
  function Opened(w: World, m: Message, main: bool, result: T.Failure): Phase {
    if main && Count(w.table, m.topic, m.key) > 0 then Failing(true)
    else if !result.Success? then Failing(result.Retriable?)
    else if main then Done else Freeing
  }

  /** Whether the user's handler is called, and succeeds. */
  predicate Succeeded(w: World, m: Message, main: bool, result: T.Failure) {
    result.Success? && !(main && Count(w.table, m.topic, m.key) > 0)
  }

  function AfterHandler(w: World, m: Message, main: bool, result: T.Failure, b: Before, src: Source): Before {
    if Succeeded(w, m, main, result) then b.(succeeded := b.succeeded + [src]) else b
  }

  /** The call up to the redirect: the lock check or the wait, and the user's handler. */
  lemma Opening(c: Config, cfg: T.Config, s: State, l: nat, w: World, m: Message, result: T.Failure, b: Before)
    returns (path: seq<State>, s': State)
    requires Here(c, cfg, s, l, m, w, b, Idle)
    ensures var main := s.lanes[l].main;
            Reached(c, cfg, s, l, m, path, s', w, AfterHandler(w, m, main, result, b, Current(s, l).source),
                    Opened(w, m, main, result))
  {
    var main := s.lanes[l].main;
    var a, a2 := Begin(l), Handle(l, ResultOf(result));
    Move(c, cfg, s, l, m, w, b, Idle, a, w);
    path, s' := [s, Step(c, s, a)], Step(c, s, a);
    if !(main && Count(w.table, m.topic, m.key) > 0) {
      var b2 := AfterHandler(w, m, main, result, b, Current(s, l).source);
      var s2 := Step(c, s', a2);
      if result.Success? {
        MoveSucceeded(c, cfg, s', l, m, w, b);
      } else {
        Move(c, cfg, s', l, m, w, b, Clear, a2, w);
      }
      path := Onwards(c, cfg, s, l, m, path, s', w, b, Clear, [s', s2], s2, w, b2, Opened(w, m, main, result));
      s' := s2;
    }
  }

  lemma Walk(c: Config, cfg: T.Config, env: Setting, s: State, l: nat, w: World, m: Message,
             result: T.Failure, at: T.Moment, b: Before)
    returns (path: seq<State>, s': State, w': World, ok: bool)
    requires Here(c, cfg, s, l, m, w, b, Idle)
    ensures (w', ok) == CallOutcome(env, cfg, w, m, s.lanes[l].main, result, at)
    ensures Reached(c, cfg, s, l, m, path, s', w', AfterHandler(w, m, s.lanes[l].main, result, b, Current(s, l).source),
                    if ok then Done else Idle)
  {
    var main := s.lanes[l].main;
    var r := CallOutcome(env, cfg, w, m, main, result, at);
    w', ok := r.0, r.1;
    var p, b2 := Opened(w, m, main, result), AfterHandler(w, m, main, result, b, Current(s, l).source);
    path, s' := Opening(c, cfg, s, l, w, m, result, b);
    if p != Done {
      var rest, s2;
      if p == Freeing {
        rest, s2 := FreeSegment(c, cfg, env, s', l, w, m, b2);
      } else {
        var locked := main && Count(w.table, m.topic, m.key) > 0;
        rest, s2 := RedirectSegment(c, cfg, env, s', l, w, m, if locked then T.PREDECESSOR else result, at, b2);
      }
      path := Onwards(c, cfg, s, l, m, path, s', w, b2, p, rest, s2, w', b2, if ok then Done else Idle);
      s' := s2;
    }
  }

  ghost predicate Walked(c: Config, cfg: T.Config, s: State, l: nat, m: Message, w': World, b: Before, phase: Phase) {
    exists path, s' :: Reached(c, cfg, s, l, m, path, s', w', b, phase)
  }

  function Beginning(log: seq<Msg>, dead: seq<Dead>, succeeded: seq<Source>, sent: seq<Sent>): Before {
    Before(Counts(|log|, |Retries(sent)|, |dead|, |Letters(sent)|), succeeded)
  }

  lemma BeginsHere(c: Config, cfg: T.Config, s: State, l: nat, w: World, m: Message)
    requires At(c, cfg, s, l, m) && s.lanes[l].phase == Idle && Canonical(w.table) && s.table == w.table
    ensures Here(c, cfg, s, l, m, w, Beginning(s.lanes[c.route(m.key)].log, s.dead, s.succeeded, w.wire.sent), Idle)
  {
  }

  /** Every call of the tracker's handlers, whatever the user's handler returns and whichever
      publications fail, is a walk of the step machine from idle. It ends with the same lock
      table; every message it sent to the retry topic stands, in order, for one the walk
      appended to the key's retry lane, and every dead letter for one it dead-lettered; the
      walk lists a success exactly when the handler was called and succeeded; and the message
      is to be marked exactly when the call returned no error. */
  lemma CallsAreWalks(c: Config, cfg: T.Config, env: Setting, s: State, l: nat, w: World, m: Message,
                      result: T.Failure, at: T.Moment)
    requires At(c, cfg, s, l, m) && s.lanes[l].phase == Idle && Canonical(w.table) && s.table == w.table
    ensures var r := CallOutcome(env, cfg, w, m, s.lanes[l].main, result, at);
            var b := Beginning(s.lanes[c.route(m.key)].log, s.dead, s.succeeded, w.wire.sent);
            Walked(c, cfg, s, l, m, r.0, AfterHandler(w, m, s.lanes[l].main, result, b, Current(s, l).source),
                   if r.1 then Done else Idle)
  {
    BeginsHere(c, cfg, s, l, w, m);
    var b := Beginning(s.lanes[c.route(m.key)].log, s.dead, s.succeeded, w.wire.sent);
    var path, s', w', ok := Walk(c, cfg, env, s, l, w, m, result, at, b);
    assert Walked(c, cfg, s, l, m, w', AfterHandler(w, m, s.lanes[l].main, result, b, Current(s, l).source),
                  if ok then Done else Idle);
  }
}
