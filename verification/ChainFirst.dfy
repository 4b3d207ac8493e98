/** First successes: messages of one key on one main partition succeed for the first time in
    the order of that partition, as long as no step puts an unsuccessful one behind a later one. */
module ChainFirst {
  import opened RetryChain
  import opened ChainLocks
  import opened ChainLoss
  import opened ChainOrder

  predicate FromMain(s: State, src: Source) {
    src.lane < |s.lanes| && s.lanes[src.lane].main && src.offset < |s.lanes[src.lane].log|
  }

  function KeyOf(s: State, src: Source): string
    requires FromMain(s, src)
  {
    s.lanes[src.lane].log[src.offset].key
  }

  /** The main worker has handed the message on for good. */
  predicate HandedOn(s: State, src: Source)
    requires FromMain(s, src)
  {
    Gone(s, src.lane, src.offset)
  }

  predicate Precedes(s: State, a: Source, b: Source) {
    a.lane == b.lane && a.offset < b.offset && FromMain(s, a) && FromMain(s, b) && KeyOf(s, a) == KeyOf(s, b)
  }

  /** First occurrences come in partition order. */
  ghost predicate FirstsInOrder(s: State) {
    forall i, src | 0 <= i < |s.succeeded| && src in s.succeeded && Precedes(s, src, s.succeeded[i]) ::
      src in s.succeeded[..i]
  }

  // ---------------------------------------------------------------- the guard

  predicate LaterOfKey(a: Msg, b: Msg) {
    a.key == b.key && a.source.lane == b.source.lane && a.source.offset < b.source.offset
  }

  /** A retried message that has not succeeded is published again behind a later one of its
      key. */
  predicate Overtaken(s: State, a: Action) {
    && Publishes(a) && Busy(s, a.l) && Current(s, a.l).inChain && Current(s, a.l).source !in s.succeeded
    && var lane := s.lanes[a.l];
       exists j | lane.pos < j < |lane.log| :: LaterOfKey(lane.log[lane.pos], lane.log[j])
  }

  /** The main worker has found the message's key free, and calls the handler next. */
  predicate Cleared(s: State, src: Source) {
    FromMain(s, src) && s.lanes[src.lane].pos == src.offset && s.lanes[src.lane].phase == Clear
  }

  /** A dead-lettered message that has not succeeded could not be freed and will be handled
      again, while a later one of its key has succeeded or is about to be handled. */
  ghost predicate BroughtBack(s: State, a: Action) {
    && a.PublishFree? && !a.ok && Busy(s, a.l) && Current(s, a.l).source !in s.succeeded
    && exists later :: Precedes(s, Current(s, a.l).source, later) && (later in s.succeeded || Cleared(s, later))
  }

  ghost predicate Threatens(s: State, a: Action) {
    Overtaken(s, a) || BroughtBack(s, a)
  }

  ghost predicate OrderlyRun(states: seq<State>, actions: seq<Action>, n: nat) {
    |states| == |actions| + 1 && n <= |actions| && forall i | 0 <= i < n :: !Threatens(states[i], actions[i])
  }

  // ---------------------------------------------------------------- the invariant

  /** Unmarked in the retry lane and not on its way out: it may be handled again. */
  predicate WaitsIn(lane: Lane, src: Source) {
    exists j | lane.pos <= j < |lane.log| :: lane.log[j].source == src && (j == lane.pos ==> !Leaving(lane.phase))
  }

  /** It has succeeded, or will not be handled again. */
  predicate Over(c: Config, s: State, src: Source)
    requires FromMain(s, src) && c.route(KeyOf(s, src)) < |s.lanes|
  {
    src in s.succeeded || (HandedOn(s, src) && !WaitsIn(s.lanes[c.route(KeyOf(s, src))], src))
  }

  ghost predicate EarlierOver(c: Config, s: State, src: Source)
    requires forall k :: c.route(k) < |s.lanes|
  {
    FromMain(s, src) && forall o | 0 <= o < src.offset && s.lanes[src.lane].log[o].key == KeyOf(s, src) ::
      Over(c, s, Source(src.lane, o))
  }

  predicate Forwarded(s: State, m: Msg) {
    FromMain(s, m.source) && HandedOn(s, m.source) && KeyOf(s, m.source) == m.key
  }

  /** What is unmarked in a retry lane is there once (but for the copy just published), and
      behind a later one of its key only when it has succeeded. */
  predicate Queued(lane: Lane, i: nat, j: nat, succeeded: seq<Source>)
    requires i < j < |lane.log|
  {
    && (lane.log[i].source == lane.log[j].source ==> i == lane.pos && lane.phase == Done)
    && (LaterOfKey(lane.log[j], lane.log[i]) ==> lane.log[j].source in succeeded)
  }

  predicate LaneOrdered(s: State, lane: Lane) {
    && (forall i | 0 <= i < |lane.log| :: Forwarded(s, lane.log[i]))
    && (forall i, j | lane.pos <= i < j < |lane.log| :: Queued(lane, i, j, s.succeeded))
  }

  ghost predicate Firsts(c: Config, s: State) {
    && Conserved(c, s)
    && (forall r | 0 <= r < |s.lanes| && !s.lanes[r].main :: LaneOrdered(s, s.lanes[r]))
    && (forall src | src in s.succeeded :: EarlierOver(c, s, src))
    && (forall src | Cleared(s, src) :: EarlierOver(c, s, src))
    && FirstsInOrder(s)
  }

  // ---------------------------------------------------------------- one step: the lanes

  /** Main messages stay where they are, and what has been handed on stays so. */
  lemma HandedOnStays(c: Config, s: State, a: Action, src: Source)
    requires Shaped(c, s) && Enabled(c, s, a) && !a.Crash? && FromMain(s, src)
    ensures var s' := Step(c, s, a);
            && FromMain(s', src) && KeyOf(s', src) == KeyOf(s, src)
            && (HandedOn(s, src) ==> HandedOn(s', src))
  {
    StepLanes(c, s, a);
    LogsGrow(c, s, a, src.lane);
  }

  /** What a main worker publishes to the retry topic was not handed on before. */
  lemma PublishedFirst(c: Config, s: State, a: Action)
    requires Shaped(c, s) && Enabled(c, s, a) && Publishes(a) && s.lanes[a.l].main
    ensures var m := Current(s, a.l);
            && FromMain(s, m.source) && !HandedOn(s, m.source) && KeyOf(s, m.source) == m.key
            && m.source == Source(a.l, s.lanes[a.l].pos)
            && Forwarded(Step(c, s, a), Retried(m))
  {
    MessageOk(c, s, a.l);
    StepLanes(c, s, a);
  }

  lemma AppendFirst(s: State, lane: Lane, m: Msg)
    requires LaneOrdered(s, lane) && lane.pos <= |lane.log| && FromMain(s, m.source) && !HandedOn(s, m.source)
    requires s.lanes[m.source.lane].pos == m.source.offset
    ensures forall i | lane.pos <= i < |lane.log| :: Queued(lane.(log := lane.log + [m]), i, |lane.log|, s.succeeded)
  {
    assert forall i | 0 <= i < |lane.log| :: Forwarded(s, lane.log[i]);
  }

  lemma AppendAgain(s: State, lane: Lane, m: Msg)
    requires LaneOrdered(s, lane) && lane.pos < |lane.log| && lane.phase != Done
    requires m.source == lane.log[lane.pos].source && m.key == lane.log[lane.pos].key
    requires m.source in s.succeeded
             || forall j | lane.pos < j < |lane.log| :: !LaterOfKey(lane.log[lane.pos], lane.log[j])
    ensures var lane' := lane.(log := lane.log + [m], phase := Done);
            forall i | lane.pos <= i < |lane.log| :: Queued(lane', i, |lane.log|, s.succeeded)
  {
    var lane' := lane.(log := lane.log + [m], phase := Done);
    forall i | lane.pos <= i < |lane.log| ensures Queued(lane', i, |lane.log|, s.succeeded) {
      assert lane'.log[i] == lane.log[i] && lane'.log[|lane.log|] == m;
      if i > lane.pos {
        assert Queued(lane, lane.pos, i, s.succeeded);
        assert LaterOfKey(m, lane.log[i]) <==> LaterOfKey(lane.log[lane.pos], lane.log[i]);
      }
    }
  }

  /** Moving on and further successes keep a lane's order; a worker leaves `Done` by marking. */
  lemma QueuedStays(lane: Lane, pos: nat, phase: Phase, succeeded: seq<Source>, succeeded': seq<Source>)
    requires forall i, j | lane.pos <= i < j < |lane.log| :: Queued(lane, i, j, succeeded)
    requires succeeded <= succeeded'
    requires pos > lane.pos || (pos == lane.pos && (lane.phase == Done ==> phase == Done))
    ensures forall i, j | pos <= i < j < |lane.log| :: Queued(lane.(pos := pos, phase := phase), i, j, succeeded')
  {
    forall i, j | pos <= i < j < |lane.log| ensures Queued(lane.(pos := pos, phase := phase), i, j, succeeded') {
      assert Queued(lane, i, j, succeeded);
    }
  }

  lemma ForwardedStays(c: Config, s: State, a: Action, r: nat)
    requires Firsts(c, s) && Enabled(c, s, a) && Faithful(s, a) && r < |s.lanes| && !s.lanes[r].main
    ensures forall i | 0 <= i < |s.lanes[r].log| :: Forwarded(Step(c, s, a), s.lanes[r].log[i])
  {
    assert LaneOrdered(s, s.lanes[r]);
    forall i | 0 <= i < |s.lanes[r].log| ensures Forwarded(Step(c, s, a), s.lanes[r].log[i]) {
      HandedOnStays(c, s, a, s.lanes[r].log[i].source);
    }
  }

  ghost predicate Arrives(c: Config, s: State, a: Action, r: nat)
    requires Enabled(c, s, a)
  {
    Publishes(a) && c.route(Current(s, a.l).key) == r
  }

  lemma LaneMoves(c: Config, s: State, a: Action, r: nat)
    requires Enabled(c, s, a) && Faithful(s, a) && r < |s.lanes| && !Arrives(c, s, a, r)
    ensures var lane, lane' := s.lanes[r], Step(c, s, a).lanes[r];
            && lane' == lane.(pos := lane'.pos, phase := lane'.phase)
            && (lane'.pos > lane.pos || (lane'.pos == lane.pos && (lane.phase == Done ==> lane'.phase == Done)))
  {
    StepLanes(c, s, a);
  }

  lemma SucceededGrows(c: Config, s: State, a: Action)
    requires Enabled(c, s, a)
    ensures s.succeeded <= Step(c, s, a).succeeded
  {
  }

  /** The lane `r` after a step: its worker may have moved, and a message may have come. */
  lemma LaneStays(c: Config, s: State, a: Action, r: nat)
    requires Firsts(c, s) && Enabled(c, s, a) && Faithful(s, a) && !Threatens(s, a)
    requires r < |s.lanes| && !s.lanes[r].main
    ensures var s' := Step(c, s, a); r < |s'.lanes| && LaneOrdered(s', s'.lanes[r])
  {
    var s', lane := Step(c, s, a), s.lanes[r];
    LogsGrow(c, s, a, r);
    ForwardedStays(c, s, a, r);
    if Arrives(c, s, a, r) {
      ArrivalQueued(c, s, a);
    } else {
      LaneMoves(c, s, a, r);
      SucceededGrows(c, s, a);
      assert LaneOrdered(s, lane);
      QueuedStays(lane, s'.lanes[r].pos, s'.lanes[r].phase, s.succeeded, s'.succeeded);
    }
  }

  lemma ArrivalQueued(c: Config, s: State, a: Action)
    requires Firsts(c, s) && Enabled(c, s, a) && Faithful(s, a) && !Threatens(s, a) && Publishes(a)
    ensures var s', r := Step(c, s, a), c.route(Current(s, a.l).key);
            var lane, lane' := s.lanes[r], s'.lanes[r];
            && s'.succeeded == s.succeeded
            && lane'.log == lane.log + [Retried(Current(s, a.l))] && lane'.pos == lane.pos
            && Forwarded(s', Retried(Current(s, a.l)))
            && (forall i, j | lane.pos <= i < j < |lane.log| :: Queued(lane', i, j, s.succeeded))
            && (forall i | lane.pos <= i < |lane.log| :: Queued(lane', i, |lane.log|, s.succeeded))
  {
    var m, r := Current(s, a.l), c.route(Current(s, a.l).key);
    var lane := s.lanes[r];
    StepLanes(c, s, a);
    MessageOk(c, s, a.l);
    assert LaneOrdered(s, lane) && LaneOk(c, lane, r);
    if s.lanes[a.l].main {
      PublishedFirst(c, s, a);
      AppendFirst(s, lane, Retried(m));
    } else {
      HandedOnStays(c, s, a, m.source);
      AppendAgain(s, lane, Retried(m));
    }
    var lane' := Step(c, s, a).lanes[r];
    forall i, j | lane.pos <= i < j < |lane.log| ensures Queued(lane', i, j, s.succeeded) {
      assert Queued(lane, i, j, s.succeeded);
    }
  }

  // ---------------------------------------------------------------- one step: what is over

  /** A message that is over begins to wait only when it is brought back. */
  lemma OverStays(c: Config, s: State, a: Action, src: Source)
    requires Firsts(c, s) && Enabled(c, s, a) && Faithful(s, a) && !Threatens(s, a)
    requires FromMain(s, src) && Over(c, s, src)
    requires exists later :: Precedes(s, src, later) && (later in s.succeeded || Cleared(s, later))
    ensures var s' := Step(c, s, a); FromMain(s', src) && KeyOf(s', src) == KeyOf(s, src) && Over(c, s', src)
  {
    HandedOnStays(c, s, a, src);
    SucceededGrows(c, s, a);
    var r := c.route(KeyOf(s, src));
    if src !in s.succeeded {
      LogsGrow(c, s, a, r);
      if Arrives(c, s, a, r) {
        ArrivalIsNew(c, s, a, src);
      } else {
        NothingComesBack(c, s, a, src);
      }
    }
  }

  /** What arrives in a lane was not over. */
  lemma ArrivalIsNew(c: Config, s: State, a: Action, src: Source)
    requires Firsts(c, s) && Enabled(c, s, a) && Faithful(s, a) && FromMain(s, src)
    requires Over(c, s, src) && src !in s.succeeded && Arrives(c, s, a, c.route(KeyOf(s, src)))
    ensures !WaitsIn(Step(c, s, a).lanes[c.route(KeyOf(s, src))], src)
  {
    var r := c.route(KeyOf(s, src));
    var lane, m := s.lanes[r], Current(s, a.l);
    MessageOk(c, s, a.l);
    StepLanes(c, s, a);
    assert LaneOk(c, lane, r) && LaneOrdered(s, lane);
    if s.lanes[a.l].main {
      PublishedFirst(c, s, a);
    }
    assert m.source != src;
    assert Step(c, s, a).lanes[r].log == lane.log + [Retried(m)];
  }

  /** A worker that moves on does not make its lane's other messages wait again. */
  lemma NothingComesBack(c: Config, s: State, a: Action, src: Source)
    requires Firsts(c, s) && Enabled(c, s, a) && Faithful(s, a) && !BroughtBack(s, a) && FromMain(s, src)
    requires Over(c, s, src) && src !in s.succeeded && !Arrives(c, s, a, c.route(KeyOf(s, src)))
    requires exists later :: Precedes(s, src, later) && (later in s.succeeded || Cleared(s, later))
    ensures !WaitsIn(Step(c, s, a).lanes[c.route(KeyOf(s, src))], src)
  {
    var r := c.route(KeyOf(s, src));
    LaneMoves(c, s, a, r);
    StepLanes(c, s, a);
    MessageOk(c, s, a.l);
  }

  lemma EarlierOverStays(c: Config, s: State, a: Action, src: Source)
    requires Firsts(c, s) && Enabled(c, s, a) && Faithful(s, a) && !Threatens(s, a)
    requires EarlierOver(c, s, src) && (src in s.succeeded || Cleared(s, src))
    ensures forall k :: c.route(k) < |Step(c, s, a).lanes|
    ensures EarlierOver(c, Step(c, s, a), src)
  {
    var s' := Step(c, s, a);
    StepKeepsShape(c, s, a);
    HandedOnStays(c, s, a, src);
    LogsGrow(c, s, a, src.lane);
    forall o | 0 <= o < src.offset && s'.lanes[src.lane].log[o].key == KeyOf(s', src)
      ensures Over(c, s', Source(src.lane, o))
    {
      assert Precedes(s, Source(src.lane, o), src);
      OverStays(c, s, a, Source(src.lane, o));
    }
  }

  /** Everything of its key that precedes a message at the front of its retry lane is over. */
  lemma FrontIsEarliest(c: Config, s: State, r: nat)
    requires Firsts(c, s) && Busy(s, r) && !s.lanes[r].main
    ensures EarlierOver(c, s, Current(s, r).source)
  {
    var lane, m := s.lanes[r], Current(s, r);
    MessageOk(c, s, r);
    assert LaneOrdered(s, lane) && Forwarded(s, m);
    var l := m.source.lane;
    forall o | 0 <= o < m.source.offset && s.lanes[l].log[o].key == m.key ensures Over(c, s, Source(l, o)) {
      EarlierIsOver(s, lane, Source(l, o));
    }
  }

  lemma EarlierIsOver(s: State, lane: Lane, src: Source)
    requires LaneOrdered(s, lane) && lane.pos < |lane.log| && Precedes(s, src, lane.log[lane.pos].source)
    requires KeyOf(s, src) == lane.log[lane.pos].key
    ensures src in s.succeeded || !WaitsIn(lane, src)
  {
    forall j | lane.pos <= j < |lane.log| && lane.log[j].source == src ensures src in s.succeeded {
      assert Forwarded(s, lane.log[j]);
      assert Queued(lane, lane.pos, j, s.succeeded);
    }
  }

  /** A key found free has nothing earlier still waiting. */
  lemma FreeKeyIsClear(c: Config, s: State, l: nat)
    requires Firsts(c, s) && Busy(s, l) && s.lanes[l].main && !IsLocked(c, s, Current(s, l).key)
    ensures EarlierOver(c, s, Source(l, s.lanes[l].pos))
  {
    var lane, key := s.lanes[l], Current(s, l).key;
    assert LaneOk(c, lane, l);
    forall o | 0 <= o < lane.pos && lane.log[o].key == key ensures Over(c, s, Source(l, o)) {
      FreeKeyWaitsNot(c, s, Source(l, o));
    }
  }

  lemma FreeKeyWaitsNot(c: Config, s: State, src: Source)
    requires Firsts(c, s) && FromMain(s, src) && !IsLocked(c, s, KeyOf(s, src))
    ensures !WaitsIn(s.lanes[c.route(KeyOf(s, src))], src)
  {
    var key := KeyOf(s, src);
    var lane := s.lanes[c.route(key)];
    assert LaneOrdered(s, lane);
    forall j | lane.pos <= j < |lane.log| && lane.log[j].source == src ensures j == lane.pos && Leaving(lane.phase) {
      assert Forwarded(s, lane.log[j]);
      if j != lane.pos || !Leaving(lane.phase) {
        HeldCounts(c, s, c.route(key), j);
      }
    }
  }

  lemma ClearsStay(c: Config, s: State, a: Action, src: Source)
    requires Firsts(c, s) && Enabled(c, s, a) && Faithful(s, a) && !Threatens(s, a)
    requires Cleared(Step(c, s, a), src)
    ensures forall k :: c.route(k) < |Step(c, s, a).lanes|
    ensures EarlierOver(c, Step(c, s, a), src)
  {
    StepLanes(c, s, a);
    StepKeepsShape(c, s, a);
    LogsGrow(c, s, a, src.lane);
    if Cleared(s, src) {
      EarlierOverStays(c, s, a, src);
    } else {
      assert a == Begin(src.lane);
      FreeKeyIsClear(c, s, src.lane);
      assert forall o | 0 <= o < src.offset :: FromMain(s, Source(src.lane, o));
    }
  }

  /** A message that is handled and succeeds has nothing earlier still waiting. */
  lemma SuccessIsEarliest(c: Config, s: State, a: Action)
    requires Firsts(c, s) && Enabled(c, s, a) && a.Handle?
    ensures EarlierOver(c, s, Current(s, a.l).source)
  {
    MessageOk(c, s, a.l);
    if s.lanes[a.l].main {
      assert Cleared(s, Current(s, a.l).source);
    } else {
      FrontIsEarliest(c, s, a.l);
    }
  }

  lemma SuccessesStay(c: Config, s: State, a: Action, src: Source)
    requires Firsts(c, s) && Enabled(c, s, a) && Faithful(s, a) && !Threatens(s, a)
    requires src in Step(c, s, a).succeeded
    ensures forall k :: c.route(k) < |Step(c, s, a).lanes|
    ensures EarlierOver(c, Step(c, s, a), src)
  {
    StepKeepsShape(c, s, a);
    if src in s.succeeded {
      EarlierOverStays(c, s, a, src);
    } else {
      SuccessIsEarliest(c, s, a);
      HandlingKeepsOver(c, s, a, src);
    }
  }

  /** A handler call makes nothing wait. */
  lemma HandlingKeepsOver(c: Config, s: State, a: Action, src: Source)
    requires Firsts(c, s) && Enabled(c, s, a) && a.Handle? && EarlierOver(c, s, src)
    ensures forall k :: c.route(k) < |Step(c, s, a).lanes|
    ensures EarlierOver(c, Step(c, s, a), src)
  {
    var s' := Step(c, s, a);
    StepLanes(c, s, a);
    HandedOnStays(c, s, a, src);
    SucceededGrows(c, s, a);
    forall o | 0 <= o < src.offset && s.lanes[src.lane].log[o].key == KeyOf(s, src)
      ensures Over(c, s', Source(src.lane, o))
    {
      assert Over(c, s, Source(src.lane, o));
      HandedOnStays(c, s, a, Source(src.lane, o));
    }
  }

  // ---------------------------------------------------------------- one step: the order

  /** A first success: nothing later of the key has succeeded before it. */
  lemma NothingLaterSucceeded(c: Config, s: State, a: Action, later: Source)
    requires Firsts(c, s) && Enabled(c, s, a) && a.Handle?
    requires Current(s, a.l).source !in s.succeeded && Precedes(s, Current(s, a.l).source, later)
    ensures later !in s.succeeded
  {
    var lane, m := s.lanes[a.l], Current(s, a.l);
    MessageOk(c, s, a.l);
    if !lane.main {
      assert LaneOrdered(s, lane) && Forwarded(s, m);
      assert WaitsIn(lane, m.source);
    }
    assert m.source == Source(m.source.lane, m.source.offset);
  }

  lemma PrecedesBefore(c: Config, s: State, a: Action, earlier: Source, later: Source)
    requires Enabled(c, s, a) && Precedes(Step(c, s, a), earlier, later)
    ensures Precedes(s, earlier, later)
  {
    StepLanes(c, s, a);
    LogsGrow(c, s, a, earlier.lane);
  }

  lemma FirstStays(c: Config, s: State, a: Action, i: nat, src: Source)
    requires Firsts(c, s) && Enabled(c, s, a) && i < |s.succeeded|
    requires src in Step(c, s, a).succeeded && Precedes(s, src, s.succeeded[i])
    ensures src in s.succeeded[..i]
  {
    if src !in s.succeeded {
      NothingLaterSucceeded(c, s, a, s.succeeded[i]);
    }
  }

  lemma FirstsStayInOrder(c: Config, s: State, a: Action)
    requires Firsts(c, s) && Enabled(c, s, a)
    ensures FirstsInOrder(Step(c, s, a))
  {
    var s' := Step(c, s, a);
    assert s.succeeded <= s'.succeeded && |s'.succeeded| <= |s.succeeded| + 1;
    forall i, src | 0 <= i < |s'.succeeded| && src in s'.succeeded && Precedes(s', src, s'.succeeded[i])
      ensures src in s'.succeeded[..i]
    {
      PrecedesBefore(c, s, a, src, s'.succeeded[i]);
      if i < |s.succeeded| {
        FirstStays(c, s, a, i, src);
        assert s'.succeeded[..i] == s.succeeded[..i];
      } else {
        assert s'.succeeded[..i] == s.succeeded;
      }
    }
  }

  lemma StepKeepsFirsts(c: Config, s: State, a: Action)
    requires Firsts(c, s) && Enabled(c, s, a) && Faithful(s, a) && !Threatens(s, a)
    ensures Firsts(c, Step(c, s, a))
  {
    var s' := Step(c, s, a);
    StepConserves(c, s, a);
    FirstsStayInOrder(c, s, a);
    forall r | 0 <= r < |s'.lanes| && !s'.lanes[r].main ensures LaneOrdered(s', s'.lanes[r]) {
      StepLanes(c, s, a);
      LogsGrow(c, s, a, r);
      LaneStays(c, s, a, r);
    }
    forall src | src in s'.succeeded ensures EarlierOver(c, s', src) {
      SuccessesStay(c, s, a, src);
    }
    forall src | Cleared(s', src) ensures EarlierOver(c, s', src) {
      ClearsStay(c, s, a, src);
    }
  }

  /** In every faithful run, as long as no message that has not succeeded is published again
      behind a later one of its key, or handled again after a later one: of two messages of
      one key on one main partition that have both succeeded, the earlier had done so before
      the later ever did. */
  lemma {:induction false} FirstSuccessesInOrder(c: Config, states: seq<State>, actions: seq<Action>, n: nat)
    requires Behavior(c, states, actions) && FaithfulRun(states, actions) && n < |states|
    requires OrderlyRun(states, actions, n)
    ensures Firsts(c, states[n]) && FirstsInOrder(states[n])
    decreases n
  {
    if n == 0 {
      LocksConserved(c, states, actions, 0);
    } else {
      FirstSuccessesInOrder(c, states, actions, n - 1);
      assert Next(c, states[n - 1], actions[n - 1], states[n]);
      StepKeepsFirsts(c, states[n - 1], actions[n - 1]);
    }
  }
}
