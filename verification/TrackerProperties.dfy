/** What holds of the tracker's calls whatever the producer does: locks and log agree, and a
    message keeps what it must keep from hop to hop. */
module TrackerProperties {
  import opened Headers
  import opened Text
  import opened LockTable
  import opened LocalCoordinator
  import opened Messaging
  import opened Coordinator
  import opened CoordinatorCalls
  import opened RedirectLog
  import opened Agreement
  import opened RetryHeaders
  import opened Tracker

  // ---------------------------------------------------------------- locks and log

  /** A message outside the chain has no lock id and none of the chain's headers, the next id
      is new, and no outstanding lock of its key is uncounted; a message inside it names an
      outstanding lock of its own. */
  ghost predicate Sound(c: Setting, w: World, m: Message) {
    && Canonical(w.table)
    && Slack(w, OriginalTopic(m), m.key) >= 0
    && if InChain(m.headers) then CanRelease(w, OriginalTopic(m), m.key, m.headers)
       else Get(m.headers, HEADER_ID) == None && Get(m.headers, HEADER_TOPIC) == None
            && c.mint(w.minted) !in Ids(Log(w.wire.sent, OriginalTopic(m)))
  }

  /** Calls to the producer that do not go to the redirect topic. */
  lemma OtherTopics(c: Setting, w: World, m: Sent)
    requires !m.to.Redirect?
    ensures forall t :: Log(Produce(c.outcome, w.wire, m).0.sent, t) == Log(w.wire.sent, t)
  {
    forall t ensures Log(Produce(c.outcome, w.wire, m).0.sent, t) == Log(w.wire.sent, t) {
      LogAppend(w.wire.sent, m, t);
    }
  }

  lemma {:induction false} RollBackAgrees(c: Setting, w: World, topic: string, key: string, h: seq<Header>,
                                         attempts: nat, goal: World)
    requires CanRelease(w, topic, key, h) && goal == RollBack(c, w, key, h, attempts)
    ensures SameSlack(w, goal)
    decreases attempts
  {
    if attempts > 0 {
      var w1, last := RollBackStep(c, w, topic, key, h, attempts, goal);
      if !last {
        RollBackAgrees(c, w1, topic, key, h, attempts - 1, goal);
        SlackStays(w, w1, goal);
      }
    }
  }

  /** One release: either the last, or as many as before less one remain. */
  lemma RollBackStep(c: Setting, w: World, topic: string, key: string, h: seq<Header>, attempts: nat, goal: World)
    returns (w1: World, last: bool)
    requires CanRelease(w, topic, key, h) && attempts > 0 && goal == RollBack(c, w, key, h, attempts)
    ensures SameSlack(w, w1)
    ensures if last then goal == w1
            else CanRelease(w1, topic, key, h) && goal == RollBack(c, w1, key, h, attempts - 1)
  {
    var r := ReleaseOutcome(c, w, key, h);
    ReleaseOrKeep(c, w, topic, key, h);
    RollBackOnce(c, w, key, h, attempts);
    w1, last := r.0, r.1 || attempts == 1;
  }

  lemma ReleaseOrKeep(c: Setting, w: World, topic: string, key: string, h: seq<Header>)
    requires CanRelease(w, topic, key, h)
    ensures var (w', ok) := ReleaseOutcome(c, w, key, h);
            SameSlack(w, w') && (!ok ==> CanRelease(w', topic, key, h))
  {
    var r := ReleaseOutcome(c, w, key, h);
    ReleaseAgrees(c, w, topic, key, h);
    if !r.1 {
      StillCanRelease(w, r.0, topic, key, h);
    }
  }

  lemma StillCanRelease(w: World, w': World, topic: string, key: string, h: seq<Header>)
    requires CanRelease(w, topic, key, h) && w'.table == w.table && w'.wire.sent == w.wire.sent
    ensures CanRelease(w', topic, key, h)
  {
  }

  lemma SlackStays(w: World, w1: World, w2: World)
    requires SameSlack(w, w1) && SameSlack(w1, w2)
    ensures SameSlack(w, w2)
  {
  }

  lemma PublishAgrees(c: Setting, cfg: Config, w: World, m: Message, topic: string, h: seq<Header>,
                      reason: string, at: Moment)
    requires CanRelease(w, topic, m.key, h)
    ensures SameSlack(w, PublishOutcome(c, cfg, w, m, h, reason, at).0)
  {
    var retry := RetryMessage(m, h, HopOf(cfg, m, Get(h, HEADER_ID).value, reason, at));
    OtherTopics(c, w, retry);
    var w1 := w.(wire := Produce(c.outcome, w.wire, retry).0);
    RollBackAgrees(c, w1, topic, m.key, h, ROLLBACK_ATTEMPTS, RollBack(c, w1, m.key, h, ROLLBACK_ATTEMPTS));
  }

  /** Dead-lettering, with or without giving the lock back. */
  lemma ExhaustedAgrees(c: Setting, cfg: Config, w: World, m: Message, at: Moment)
    requires Sound(c, w, m)
    ensures SameSlack(w, ExhaustedOutcome(c, cfg, w, m, at).0)
  {
    var dead := DeadMessage(m.(headers := Copy(m.headers)), LastReason(m.headers), at);
    OtherTopics(c, w, dead);
    var w1 := w.(wire := Produce(c.outcome, w.wire, dead).0);
    if InChain(m.headers) {
      ReleaseAgrees(c, w1, OriginalTopic(m), m.key, m.headers);
    }
  }

  /** Across every outcome of a redirect - retried, dead-lettered, refused, rolled back, or
      left locked because every rollback failed - the local count and the outstanding locks
      of every key change by the same amount. */
  lemma RedirectAgrees(c: Setting, cfg: Config, w: World, m: Message, failure: Failure, at: Moment)
    requires Sound(c, w, m) && !failure.Success?
    ensures SameSlack(w, RedirectOutcome(c, cfg, w, m, failure, at).0)
  {
    if failure.NotRetriable? {
      OtherTopics(c, w, DeadMessage(m.(headers := Copy(m.headers)), failure.reason, at));
    } else if Attempt(m.headers) >= cfg.maxRetries {
      ExhaustedAgrees(c, cfg, w, m, at);
    } else if InChain(m.headers) {
      PublishAgrees(c, cfg, w, m, OriginalTopic(m), m.headers, failure.reason, at);
    } else {
      FirstRedirectAgrees(c, cfg, w, m, failure.reason, at);
    }
  }

  lemma FirstRedirectAgrees(c: Setting, cfg: Config, w: World, m: Message, reason: string, at: Moment)
    requires Sound(c, w, m) && !InChain(m.headers)
    ensures var (w1, h, ok) := AcquireOutcome(c, w, OriginalTopic(m), m.key, m.headers);
            SameSlack(w, if ok then PublishOutcome(c, cfg, w1, m, h, reason, at).0 else w1)
  {
    AcquireAgrees(c, w, OriginalTopic(m), m.key, m.headers);
    var (w1, h, ok) := AcquireOutcome(c, w, OriginalTopic(m), m.key, m.headers);
    if ok {
      PublishAgrees(c, cfg, w1, m, OriginalTopic(m), h, reason, at);
    }
  }

  /** The same for whole handler calls on the main and on the retry topic. */
  lemma HandlersAgree(c: Setting, cfg: Config, w: World, m: Message, result: Failure, at: Moment)
    requires Sound(c, w, m)
    ensures SameSlack(w, MainOutcome(c, cfg, w, m, result, at).0)
    ensures InChain(m.headers) ==> SameSlack(w, RetryOutcome(c, cfg, w, m, result, at).0)
  {
    RedirectAgrees(c, cfg, w, m, PREDECESSOR, at);
    if result.Success? {
      if InChain(m.headers) {
        ReleaseAgrees(c, w, OriginalTopic(m), m.key, m.headers);
      }
    } else {
      RedirectAgrees(c, cfg, w, m, result, at);
    }
  }

  // ---------------------------------------------------------------- corner cases of the code

  /** With no retries allowed and locks freed on dead-lettering, a failing main message is
      never accepted: it reaches the dead-letter topic, but the release it never needed is
      refused, so the call fails and the message will be delivered again. */
  lemma NeverAcceptedWithoutRetries(c: Setting, cfg: Config, w: World, m: Message, failure: Failure, at: Moment)
    requires Sound(c, w, m) && !InChain(m.headers) && failure.Retriable?
    requires cfg.maxRetries == 0 && cfg.freeOnDLQ && Attempt(m.headers) == 0
    ensures var (w', ok) := RedirectOutcome(c, cfg, w, m, failure, at);
            && !ok && w'.table == w.table
            && (c.outcome(w.wire.calls) ==>
                  w'.wire.sent == w.wire.sent +
                    [DeadMessage(m.(headers := Copy(m.headers)), LastReason(m.headers), at)])
  {
  }

  /** A non-retriable failure in the chain is accepted with its lock kept, whatever the
      configuration says about freeing. */
  lemma NotRetriableKeepsLock(c: Setting, cfg: Config, w: World, m: Message, reason: string, at: Moment)
    requires Sound(c, w, m) && InChain(m.headers) && c.outcome(w.wire.calls)
    ensures var (w', ok) := RedirectOutcome(c, cfg, w, m, NotRetriable(reason), at);
            && ok && w'.table == w.table && Count(w'.table, OriginalTopic(m), m.key) > 0
            && Outstanding(Log(w'.wire.sent, OriginalTopic(m)), OriginalTopic(m), m.key)
               == Outstanding(Log(w.wire.sent, OriginalTopic(m)), OriginalTopic(m), m.key)
  {
    OtherTopics(c, w, DeadMessage(m.(headers := Copy(m.headers)), reason, at));
    ReleaseCases(c, w, OriginalTopic(m), m.key, m.headers);
  }

  /** What rolling back comes to: the lock given back, if any of its calls works, or nothing. */
  ghost predicate GivenBack(w: World, w': World, topic: string, key: string, id: string) {
    && Canonical(w.table) && w'.table == Decrement(w.table, topic, key)
    && Outstanding(Log(w'.wire.sent, topic), topic, key) == Outstanding(Log(w.wire.sent, topic), topic, key) - {id}
  }

  lemma {:induction false} RollBackExactly(c: Setting, w: World, topic: string, key: string, h: seq<Header>, n: nat)
    requires CanRelease(w, topic, key, h)
    ensures var w' := RollBack(c, w, key, h, n);
            if SomeCallWorks(c.outcome, w.wire.calls, PRODUCE_ATTEMPTS * n)
            then GivenBack(w, w', topic, key, Get(h, HEADER_ID).value)
            else w'.table == w.table && w'.wire.sent == w.wire.sent
    decreases n
  {
    if n > 0 {
      ReleaseExactly(c, w, key, h);
      ReleaseAgrees(c, w, topic, key, h);
      RollBackOnce(c, w, key, h, n);
      CallsSplit(c.outcome, w.wire.calls, PRODUCE_ATTEMPTS, PRODUCE_ATTEMPTS * (n - 1));
      var r := ReleaseOutcome(c, w, key, h);
      if !r.1 {
        StillCanRelease(w, r.0, topic, key, h);
        RollBackExactly(c, r.0, topic, key, h, n - 1);
      }
    }
  }

  /** When republishing a message of the chain fails, the call fails, and the lock, which the
      call did not take, is given away if and only if one of the nine calls that follow works;
      the message is still in the chain. */
  lemma RepublishFailureGivesLockAway(c: Setting, cfg: Config, w: World, m: Message, reason: string, at: Moment)
    requires Sound(c, w, m) && InChain(m.headers) && Attempt(m.headers) < cfg.maxRetries
    requires !c.outcome(w.wire.calls)
    ensures var (w', ok) := RedirectOutcome(c, cfg, w, m, Retriable(reason), at);
            var id := Get(m.headers, HEADER_ID).value;
            && !ok
            && (id !in Outstanding(Log(w'.wire.sent, OriginalTopic(m)), OriginalTopic(m), m.key)
                <==> SomeCallWorks(c.outcome, w.wire.calls + 1, 9))
            && if SomeCallWorks(c.outcome, w.wire.calls + 1, 9) then GivenBack(w, w', OriginalTopic(m), m.key, id)
               else w'.table == w.table && w'.wire.sent == w.wire.sent
  {
    var w1 := w.(wire := w.wire.(calls := w.wire.calls + 1));
    assert CanRelease(w1, OriginalTopic(m), m.key, m.headers);
    RollBackExactly(c, w1, OriginalTopic(m), m.key, m.headers, ROLLBACK_ATTEMPTS);
    RedirectRollsBack(c, cfg, w, m, reason, at);
  }

  /** A republication that fails is followed by the rollback. */
  lemma RedirectRollsBack(c: Setting, cfg: Config, w: World, m: Message, reason: string, at: Moment)
    requires Canonical(w.table) && InChain(m.headers) && Attempt(m.headers) < cfg.maxRetries
    requires Get(m.headers, HEADER_ID).Some? && !c.outcome(w.wire.calls)
    ensures var w1 := w.(wire := w.wire.(calls := w.wire.calls + 1));
            RedirectOutcome(c, cfg, w, m, Retriable(reason), at)
            == (RollBack(c, w1, m.key, m.headers, ROLLBACK_ATTEMPTS), false)
  {
    RedirectRepublishes(c, cfg, w, m, reason, at);
    PublishRollsBack(c, cfg, w, m, m.headers, reason, at);
  }

  lemma RedirectRepublishes(c: Setting, cfg: Config, w: World, m: Message, reason: string, at: Moment)
    requires Canonical(w.table) && InChain(m.headers) && Attempt(m.headers) < cfg.maxRetries
    ensures RedirectOutcome(c, cfg, w, m, Retriable(reason), at) == PublishOutcome(c, cfg, w, m, m.headers, reason, at)
  {
  }

  lemma PublishRollsBack(c: Setting, cfg: Config, w: World, m: Message, h: seq<Header>, reason: string, at: Moment)
    requires Canonical(w.table) && Get(h, HEADER_ID).Some? && !c.outcome(w.wire.calls)
    ensures var w1 := w.(wire := w.wire.(calls := w.wire.calls + 1));
            PublishOutcome(c, cfg, w, m, h, reason, at) == (RollBack(c, w1, m.key, h, ROLLBACK_ATTEMPTS), false)
  {
  }

  /** When the first redirect of a message fails behind its lock record, the call fails, and if
      one of the nine calls that follow works, table and outstanding locks are what they were;
      if none does, the key stays locked, although no message of the chain holds the lock. */
  lemma FirstFailureUndone(c: Setting, cfg: Config, w: World, m: Message, reason: string, at: Moment)
    requires Sound(c, w, m) && !InChain(m.headers) && Attempt(m.headers) < cfg.maxRetries
    requires var (w1, _, locked) := AcquireOutcome(c, w, OriginalTopic(m), m.key, m.headers);
             locked && !c.outcome(w1.wire.calls)
    ensures var w1 := AcquireOutcome(c, w, OriginalTopic(m), m.key, m.headers).0;
            var (w', ok) := RedirectOutcome(c, cfg, w, m, Retriable(reason), at);
            var topic := OriginalTopic(m);
            var before, after := Outstanding(Log(w.wire.sent, topic), topic, m.key),
                                 Outstanding(Log(w'.wire.sent, topic), topic, m.key);
            && !ok
            && if SomeCallWorks(c.outcome, w1.wire.calls + 1, 9) then w'.table == w.table && after == before
               else w'.table == Increment(w.table, topic, m.key) && after == before + {c.mint(w.minted)}
  {
    var topic := OriginalTopic(m);
    var (w1, h, _) := AcquireOutcome(c, w, topic, m.key, m.headers);
    AcquireAgrees(c, w, topic, m.key, m.headers);
    var w2 := w1.(wire := w1.wire.(calls := w1.wire.calls + 1));
    assert CanRelease(w2, topic, m.key, h);
    RollBackExactly(c, w2, topic, m.key, h, ROLLBACK_ATTEMPTS);
    FirstRedirectPublishes(c, cfg, w, m, reason, at);
    PublishRollsBack(c, cfg, w1, m, h, reason, at);
    IncrementDecrement(w.table, topic, m.key);
    OutstandingNamed(Log(w.wire.sent, topic), topic, m.key);
  }

  lemma FirstRedirectPublishes(c: Setting, cfg: Config, w: World, m: Message, reason: string, at: Moment)
    requires Canonical(w.table) && !InChain(m.headers) && Attempt(m.headers) < cfg.maxRetries
    ensures var (w1, h, locked) := AcquireOutcome(c, w, OriginalTopic(m), m.key, m.headers);
            RedirectOutcome(c, cfg, w, m, Retriable(reason), at)
            == if locked then PublishOutcome(c, cfg, w1, m, h, reason, at) else (w1, false)
  {
  }

  // ---------------------------------------------------------------- from hop to hop

  datatype Call = Call(setting: Setting, world: World, reason: string, at: Moment)

  /** A successful redirect of `m`, and the last message it sent as it is then received. */
  ghost predicate Redirected(cfg: Config, call: Call, m: Message, m': Message) {
    && Canonical(call.world.table)
    && Attempt(m.headers) < cfg.maxRetries
    && var (w', ok) := RedirectOutcome(call.setting, cfg, call.world, m, Retriable(call.reason), call.at);
       && ok && w'.wire.sent != []
       && var last := w'.wire.sent[|w'.wire.sent| - 1];
          m'.key == last.key && m'.payload == last.payload && m'.headers == last.headers
  }

  /** `ms` are the successive versions of one message under the redirects `calls`. */
  ghost predicate Chain(cfg: Config, calls: seq<Call>, ms: seq<Message>) {
    && |ms| == |calls| + 1
    && forall n | 0 <= n < |calls| :: Redirected(cfg, calls[n], ms[n], ms[n + 1])
  }

  /** A user's message: no duplicate headers, none of the chain's own names. */
  ghost predicate Fresh(m: Message) {
    && NoDup(m.headers)
    && KeysOf(m.headers) !! RESERVED
  }

  lemma LockHeadersUser(c: Setting, w: World, topic: string, l: seq<Header>)
    requires NoDup(l)
    ensures NoDup(LockHeaders(c, w, topic, l))
    ensures Without(LockHeaders(c, w, topic, l), RESERVED) == Without(l, RESERVED)
  {
    var h1 := if Get(l, HEADER_ID).Some? then l else Put(l, HEADER_ID, c.mint(w.minted));
    PutKeys(l, HEADER_ID, c.mint(w.minted));
    PutReserved(l, HEADER_ID, c.mint(w.minted), RESERVED);
    PutKeys(h1, HEADER_TOPIC, topic);
    PutReserved(h1, HEADER_TOPIC, topic, RESERVED);
  }

  /** The headers a redirect starts from once it holds a lock, and the lock's id. */
  function Locked(call: Call, m: Message): seq<Header> {
    if InChain(m.headers) then m.headers
    else LockHeaders(call.setting, call.world, OriginalTopic(m), m.headers)
  }

  lemma OneHop(cfg: Config, call: Call, m: Message, m': Message)
    requires Redirected(cfg, call, m, m')
    ensures Get(Locked(call, m), HEADER_ID).Some?
    ensures m'.key == m.key && m'.payload == m.payload
    ensures m'.headers == RetriedHeaders(Locked(call, m),
                            HopOf(cfg, m, Get(Locked(call, m), HEADER_ID).value, call.reason, call.at))
    ensures var sent := RedirectOutcome(call.setting, cfg, call.world, m, Retriable(call.reason), call.at).0.wire.sent;
            sent[|sent| - 1].to == Retry(OriginalTopic(m))
  {
    var c, w := call.setting, call.world;
    var (w1, h, ok) := if InChain(m.headers) then (w, m.headers, true)
                       else AcquireOutcome(c, w, OriginalTopic(m), m.key, m.headers);
    assert h == Locked(call, m);
    assert PublishOutcome(c, cfg, w1, m, h, call.reason, call.at)
        == RedirectOutcome(c, cfg, w, m, Retriable(call.reason), call.at);
  }

  /** `m` is `m0` after `n` redirects of which `first` was the first: the user's headers are
      the same in the same order, no key is duplicated, the attempt is `n`, the message is
      marked as being in the chain, and lock id, original topic and time of the first failure
      are those of the first redirect. */
  ghost predicate Preserved(m0: Message, first: Call, m: Message, n: nat) {
    && NoDup(m.headers) && Without(m.headers, RESERVED) == Without(m0.headers, RESERVED)
    && m.key == m0.key && m.payload == m0.payload
    && InChain(m.headers)
    && GetInt(m.headers, HEADER_RETRY_ATTEMPT) == Some(n)
    && Get(m.headers, HEADER_ID) == Some(first.setting.mint(first.world.minted))
    && Get(m.headers, HEADER_TOPIC) == Some(m0.topic)
    && GetTime(m.headers, HEADER_RETRY_ORIGINAL_TIME) == Some(UnixSeconds(first.at.failedAt) * NANOS_PER_SECOND)
  }

  /** What a redirect of the headers `l` at `hop` leaves. */
  lemma HopLeaves(m0: Message, first: Call, l: seq<Header>, hop: Hop, m': Message)
    requires NoDup(l) && Without(l, RESERVED) == Without(m0.headers, RESERVED)
    requires m'.key == m0.key && m'.payload == m0.payload && m'.headers == RetriedHeaders(l, hop)
    requires hop.attempt >= 0 && IsInt64(hop.attempt) && IsInt64(UnixSeconds(first.at.failedAt))
    requires hop.id == first.setting.mint(first.world.minted) && hop.topic == m0.topic
    requires UnixSeconds(hop.originalTime) == UnixSeconds(first.at.failedAt)
    ensures Preserved(m0, first, m', hop.attempt)
  {
    HopReadsBack(l, hop);
    RedirectedHeaders(l, hop);
  }

  lemma FirstHop(cfg: Config, first: Call, m: Message, m': Message)
    requires Redirected(cfg, first, m, m') && Fresh(m)
    requires IsInt64(cfg.maxRetries) && IsInt64(UnixSeconds(first.at.failedAt))
    ensures Preserved(m, first, m', 1)
  {
    OneHop(cfg, first, m, m');
    FirstLocked(first, m);
    var l := Locked(first, m);
    var hop := HopOf(cfg, m, Get(l, HEADER_ID).value, first.reason, first.at);
    HopOfFresh(cfg, first, m, Get(l, HEADER_ID).value);
    assert m'.headers == RetriedHeaders(l, hop);
    HopLeaves(m, first, l, hop, m');
  }

  lemma FirstLocked(first: Call, m: Message)
    requires Fresh(m)
    ensures var l := Locked(first, m);
            && NoDup(l) && Without(l, RESERVED) == Without(m.headers, RESERVED)
            && Get(l, HEADER_ID) == Some(first.setting.mint(first.world.minted))
  {
    NothingReserved(m);
    LockHeadersUser(first.setting, first.world, OriginalTopic(m), m.headers);
    TopicIsSet(first.setting, first.world, OriginalTopic(m), m.headers);
  }

  lemma HopOfFresh(cfg: Config, first: Call, m: Message, id: string)
    requires Fresh(m)
    ensures HopOf(cfg, m, id, first.reason, first.at)
         == Hop(id, 1, cfg.maxRetries, first.at.scheduledFrom + cfg.backoff(0), first.at.failedAt,
                Some(first.reason), m.topic)
  {
    NothingReserved(m);
  }

  lemma LaterHop(cfg: Config, call: Call, m: Message, m': Message, m0: Message, first: Call, n: nat)
    requires Redirected(cfg, call, m, m') && Preserved(m0, first, m, n)
    requires IsInt64(cfg.maxRetries) && IsInt64(UnixSeconds(first.at.failedAt))
    ensures Preserved(m0, first, m', n + 1)
  {
    OneHop(cfg, call, m, m');
    var hop := HopOf(cfg, m, Get(m.headers, HEADER_ID).value, call.reason, call.at);
    HopOfPreserved(cfg, call, m, m0, first, n);
    assert m'.headers == RetriedHeaders(m.headers, hop) && Locked(call, m) == m.headers;
    HopLeaves(m0, first, m.headers, hop, m');
  }

  lemma HopOfPreserved(cfg: Config, call: Call, m: Message, m0: Message, first: Call, n: nat)
    requires Preserved(m0, first, m, n)
    ensures var hop := HopOf(cfg, m, Get(m.headers, HEADER_ID).value, call.reason, call.at);
            && hop.attempt == n + 1 && hop.topic == m0.topic && hop.id == first.setting.mint(first.world.minted)
            && UnixSeconds(hop.originalTime) == UnixSeconds(first.at.failedAt)
  {
    SecondsFloor(first.at.failedAt);
  }

  /** After any number of successful redirects a message keeps what it must keep. */
  lemma {:induction false} HopsPreserve(cfg: Config, calls: seq<Call>, ms: seq<Message>, n: nat)
    requires Chain(cfg, calls, ms) && Fresh(ms[0]) && 0 < n < |ms|
    requires IsInt64(cfg.maxRetries) && IsInt64(UnixSeconds(calls[0].at.failedAt))
    ensures Preserved(ms[0], calls[0], ms[n], n)
    decreases n
  {
    assert Redirected(cfg, calls[n - 1], ms[n - 1], ms[n]);
    if n == 1 {
      FirstHop(cfg, calls[0], ms[0], ms[1]);
    } else {
      HopsPreserve(cfg, calls, ms, n - 1);
      LaterHop(cfg, calls[n - 1], ms[n - 1], ms[n], ms[0], calls[0], n - 1);
    }
  }

  lemma NothingReserved(m: Message)
    requires Fresh(m)
    ensures forall k | k in RESERVED :: Get(m.headers, k) == None
  {
    forall k | k in RESERVED ensures Get(m.headers, k) == None {
      if Find(m.headers, k) < |m.headers| {
        assert m.headers[Find(m.headers, k)].key in KeysOf(m.headers);
      }
    }
  }

  /** In particular no header the coordinator sets on its own records leaks into the message:
      every header but these eight reads as it did at the start. */
  lemma NothingLeaks(cfg: Config, calls: seq<Call>, ms: seq<Message>, n: nat, key: string)
    requires Chain(cfg, calls, ms) && Fresh(ms[0]) && 0 < n < |ms|
    requires IsInt64(cfg.maxRetries) && IsInt64(UnixSeconds(calls[0].at.failedAt))
    requires key != "id" && key != "topic" && key != "retry" && key != "x-retry-attempt" && key != "x-retry-max"
    requires key != "x-retry-next-time" && key != "x-retry-original-time" && key != "x-retry-reason"
    ensures Get(ms[n].headers, key) == Get(ms[0].headers, key)
  {
    HopsPreserve(cfg, calls, ms, n);
    SameOutside(ms[0], calls[0], ms[n], n, key);
  }

  lemma SameOutside(m0: Message, first: Call, m: Message, n: nat, key: string)
    requires Preserved(m0, first, m, n) && NoDup(m0.headers) && key !in RESERVED
    ensures Get(m.headers, key) == Get(m0.headers, key)
  {
    GetWithout(m.headers, key, RESERVED);
    GetWithout(m0.headers, key, RESERVED);
  }

  lemma GetWithout(l: seq<Header>, key: string, names: set<string>)
    requires NoDup(l) && key !in names
    ensures Get(Without(l, names), key) == Get(l, key)
  {
    WithoutMeaning(l, names);
    var r := Without(l, names);
    var i, j := Find(l, key), Find(r, key);
    if i < |l| {
      assert l[i] in r;
      var n :| 0 <= n < |r| && r[n] == l[i];
    }
    if j < |r| {
      assert r[j] in l;
    }
  }
}
