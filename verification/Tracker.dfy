/** The error tracker: redirecting, dead-lettering and freeing messages. */
module Tracker {
  import opened Headers
  import opened Text
  import opened LockTable
  import opened LocalCoordinator
  import opened Messaging
  import opened Coordinator
  import opened RetryHeaders

  const ROLLBACK_ATTEMPTS: nat := 3

  /** The zero time, in seconds of the Unix epoch: 1 January of the year 1. */
  const ZERO_TIME: int := -62135596800

  datatype Config = Config(maxRetries: int, freeOnDLQ: bool, backoff: int -> int)

  /** What the user's handler returns. */
  datatype Failure = Success | Retriable(reason: string) | NotRetriable(reason: string)

  /** The clock readings of one call. */
  datatype Moment = Moment(failedAt: int, scheduledFrom: int, deadAt: int)

  const PREDECESSOR: Failure := Retriable("strict ordering: predecessor in retry")

  // ---------------------------------------------------------------- outcomes

  function Attempt(h: seq<Header>): int {
    GetInt(h, HEADER_RETRY_ATTEMPT).GetOr(0)
  }

  lemma AttemptFits(h: seq<Header>)
    ensures IsInt64(Attempt(h))
  {
  }

  function OriginalTopic(m: Message): string {
    Get(m.headers, HEADER_TOPIC).GetOr(m.topic)
  }

  predicate InChain(h: seq<Header>) {
    Get(h, HEADER_RETRY) == Some("true")
  }

  /** What a redirect of `m` that holds lock `id` writes into the retried message. */
  function HopOf(cfg: Config, m: Message, id: string, reason: string, at: Moment): Hop {
    Hop(id, Attempt(m.headers) + 1, cfg.maxRetries, at.scheduledFrom + cfg.backoff(Attempt(m.headers)),
        GetTime(m.headers, HEADER_RETRY_ORIGINAL_TIME).GetOr(at.failedAt), Some(reason), OriginalTopic(m))
  }

  /** The message that goes to the retry topic; `h` are the headers once a lock is held. */
  function RetryMessage(m: Message, h: seq<Header>, hop: Hop): Sent {
    Sent(Retry(hop.topic), m.key, m.payload, RetriedHeaders(h, hop))
  }

  /** The headers `SendToDLQ` adds, in the order it adds them. */
  function DeadHeader(m: Message, reason: string, at: Moment, i: nat): Header {
    match i
    case 0 => Header(HEADER_DLQ_REASON, reason)
    case 1 => Header(HEADER_DLQ_TIMESTAMP, Itoa(UnixSeconds(at.deadAt)))
    case 2 => Header(HEADER_DLQ_SOURCE_TOPIC, OriginalTopic(m))
    case 3 => Header(HEADER_DLQ_RETRY_ATTEMPTS, Itoa(Attempt(m.headers)))
    case _ => Header(HEADER_DLQ_ORIGINAL_FAILURE_TIME, Itoa(UnixSeconds(FirstFailed(m).GetOr(0))))
  }

  /** The time of the first failure, unless it is missing or the zero time. */
  function FirstFailed(m: Message): Option<int> {
    var time := GetTime(m.headers, HEADER_RETRY_ORIGINAL_TIME);
    if time.Some? && UnixSeconds(time.value) != ZERO_TIME then time else None
  }

  function DeadHeaders(m: Message, reason: string, at: Moment): seq<Header> {
    seq(if FirstFailed(m).Some? then 5 else 4, (i: nat) => DeadHeader(m, reason, at, i))
  }

  /** The dead-lettered message of a message without duplicate headers. */
  function DeadMessage(m: Message, reason: string, at: Moment): Sent {
    Sent(DeadLetter(OriginalTopic(m)), m.key, m.payload,
         PutAll(Copy(Without(m.headers, DROPPED_FOR_DLQ)), DeadHeaders(m, reason, at)))
  }

  function DeadLetterOutcome(c: Setting, w: World, m: Message, reason: string, at: Moment): (World, bool) {
    var (wire, ok) := Produce(c.outcome, w.wire, DeadMessage(m.(headers := Copy(m.headers)), reason, at));
    (w.(wire := wire), ok)
  }

  function LastReason(h: seq<Header>): string {
    var r := Get(h, HEADER_RETRY_REASON).GetOr("");
    if r == "" then "max retries exceeded" else r
  }

  function ExhaustedOutcome(c: Setting, cfg: Config, w: World, m: Message, at: Moment): (r: (World, bool))
    requires Canonical(w.table)
    ensures Canonical(r.0.table)
  {
    var (w1, ok) := DeadLetterOutcome(c, w, m, LastReason(m.headers), at);
    if !ok then (w1, false)
    else if cfg.freeOnDLQ then ReleaseOutcome(c, w1, m.key, m.headers)
    else (w1, true)
  }

  /** Up to `attempts` releases, stopping at the first that succeeds. */
  function RollBack(c: Setting, w: World, key: string, h: seq<Header>, attempts: nat): (w': World)
    requires Canonical(w.table)
    ensures Canonical(w'.table)
    decreases attempts, w
  {
    if attempts == 0 then w
    else
      var (w1, ok) := ReleaseOutcome(c, w, key, h);
      if ok then w1 else RollBack(c, w1, key, h, attempts - 1)
  }

  lemma RollBackOnce(c: Setting, w: World, key: string, h: seq<Header>, attempts: nat)
    requires Canonical(w.table) && attempts > 0
    ensures var (w1, ok) := ReleaseOutcome(c, w, key, h);
            RollBack(c, w, key, h, attempts) ==
            if ok || attempts == 1 then w1 else RollBack(c, w1, key, h, attempts - 1)
  {
  }

  /** Publishing to the retry topic, and rolling the lock back when that fails. */
  function PublishOutcome(c: Setting, cfg: Config, w: World, m: Message, h: seq<Header>, reason: string, at: Moment)
    : (r: (World, bool))
    requires Canonical(w.table)
    ensures Canonical(r.0.table)
  {
    match Get(h, HEADER_ID)
    case None => (w, false)
    case Some(id) =>
      var (wire, ok) := Produce(c.outcome, w.wire, RetryMessage(m, h, HopOf(cfg, m, id, reason, at)));
      var w1 := w.(wire := wire);
      if ok then (w1, true) else (RollBack(c, w1, m.key, h, ROLLBACK_ATTEMPTS), false)
  }

  /** Redirecting a message whose headers have been copied. */
  function RedirectOutcome(c: Setting, cfg: Config, w: World, m: Message, failure: Failure, at: Moment)
    : (r: (World, bool))
    requires Canonical(w.table) && !failure.Success?
    ensures Canonical(r.0.table)
  {
    if failure.NotRetriable? then DeadLetterOutcome(c, w, m, failure.reason, at)
    else if Attempt(m.headers) >= cfg.maxRetries then ExhaustedOutcome(c, cfg, w, m, at)
    else if InChain(m.headers) then PublishOutcome(c, cfg, w, m, m.headers, failure.reason, at)
    else
      var (w1, h, ok) := AcquireOutcome(c, w, OriginalTopic(m), m.key, m.headers);
      if ok then PublishOutcome(c, cfg, w1, m, h, failure.reason, at) else (w1, false)
  }

  function MainOutcome(c: Setting, cfg: Config, w: World, m: Message, result: Failure, at: Moment): (r: (World, bool))
    requires Canonical(w.table)
    ensures Canonical(r.0.table)
  {
    if Count(w.table, m.topic, m.key) > 0 then RedirectOutcome(c, cfg, w, m, PREDECESSOR, at)
    else if result.Success? then (w, true)
    else RedirectOutcome(c, cfg, w, m, result, at)
  }

  function RetryOutcome(c: Setting, cfg: Config, w: World, m: Message, result: Failure, at: Moment): (r: (World, bool))
    requires Canonical(w.table)
    ensures Canonical(r.0.table)
  {
    if result.Success? then ReleaseOutcome(c, w, m.key, m.headers)
    else RedirectOutcome(c, cfg, w, m, result, at)
  }

  // ---------------------------------------------------------------- the tracker itself

  class ErrorTracker {
    const cfg: Config
    const coordinator: KafkaStateCoordinator
    const producer: Producer

    ghost predicate Valid()
      reads coordinator, coordinator.local
    {
      coordinator.Valid() && coordinator.producer == producer
    }

    constructor (cfg: Config, coordinator: KafkaStateCoordinator)
      requires coordinator.Valid()
      ensures Valid() && this.cfg == cfg && this.coordinator == coordinator
    {
      this.cfg, this.coordinator, producer := cfg, coordinator, coordinator.producer;
    }

    method PublishToRetry(msg: MessageEnvelope, hop: Hop) returns (ok: bool)
      requires Valid()
      modifies producer
      ensures Valid()
      ensures (producer.View(), ok) == Produce(producer.outcome, old(producer.View()),
                 Sent(Retry(hop.topic), msg.key, msg.payload, RetriedHeaders(msg.headerData.list, hop)))
    {
      var h := CopyWithout(msg.headerData, REPLACED);
      h.SetAll(HopHeaders(hop));
      ok := producer.Send(Sent(Retry(hop.topic), msg.key, msg.payload, h.list));
    }

    method SendToDLQ(msg: Message, reason: string, at: Moment) returns (ok: bool)
      requires Valid()
      modifies producer
      ensures Valid()
      ensures (coordinator.View(), ok)
           == DeadLetterOutcome(coordinator.setting, old(coordinator.View()), msg, reason, at)
    {
      var im := NewFromMessage(msg);
      var m := Message(im.topic, im.key, im.payload, im.headerData.list);
      var h := CopyWithout(im.headerData, DROPPED_FOR_DLQ);
      h.SetAll(DeadHeaders(m, reason, at));
      ok := producer.Send(Sent(DeadLetter(OriginalTopic(m)), im.key, im.payload, h.list));
    }

    method HandleMaxRetriesExceeded(msg: MessageEnvelope, at: Moment) returns (ok: bool)
      requires Valid()
      modifies coordinator, coordinator.local, producer
      ensures Valid()
      ensures (coordinator.View(), ok)
           == ExhaustedOutcome(coordinator.setting, cfg, old(coordinator.View()), msg.View(), at)
    {
      var reason := Get(msg.headerData.list, HEADER_RETRY_REASON).GetOr("");
      if reason == "" {
        reason := "max retries exceeded";
      }
      ok := SendToDLQ(Message(msg.topic, msg.key, msg.payload, msg.headerData.list), reason, at);
      if ok && cfg.freeOnDLQ {
        ok := coordinator.Release(msg);
      }
    }

    method RollBackLock(msg: MessageEnvelope)
      requires Valid()
      modifies coordinator, coordinator.local, producer
      ensures Valid()
      ensures coordinator.View() == RollBack(coordinator.setting, old(coordinator.View()), msg.key,
                                             msg.headerData.list, ROLLBACK_ATTEMPTS)
    {
      ghost var goal := RollBack(coordinator.setting, coordinator.View(),
                                msg.key, msg.headerData.list, ROLLBACK_ATTEMPTS);
      var left: nat := ROLLBACK_ATTEMPTS;
      var ok := false;
      while left > 0 && !ok
        invariant Valid() && msg.headerData.list == old(msg.headerData.list)
        invariant ok ==> coordinator.View() == goal
        invariant !ok ==> RollBack(coordinator.setting, coordinator.View(), msg.key, msg.headerData.list, left) == goal
        decreases left
      {
        ok := coordinator.Release(msg);
        left := left - 1;
      }
    }

    /** The part of a redirect that follows the lock; everything but the lock id is known. */
    method Publish(msg: MessageEnvelope, ghost m: Message, ghost reason: string, ghost at: Moment, partial: Hop)
      returns (ok: bool)
      requires Valid() && m.key == msg.key && m.payload == msg.payload
      requires partial == HopOf(cfg, m, partial.id, reason, at)
      modifies coordinator, coordinator.local, producer
      ensures Valid()
      ensures (coordinator.View(), ok)
           == PublishOutcome(coordinator.setting, cfg, old(coordinator.View()), m, msg.headerData.list, reason, at)
    {
      var id := msg.headerData.Get(HEADER_ID);
      if id == None {
        return false;
      }
      var hop := partial.(id := id.value);
      assert hop == HopOf(cfg, m, id.value, reason, at);
      ok := PublishToRetry(msg, hop);
      if !ok {
        RollBackLock(msg);
      }
    }

    /** Only the first redirect of a message takes a lock. */
    method LockUnlessInChain(originalTopic: string, msg: MessageEnvelope) returns (ok: bool)
      requires Valid()
      modifies coordinator, coordinator.local, producer, msg.headerData
      ensures Valid()
      ensures var w, given := old(coordinator.View()), old(msg.headerData.list);
              (coordinator.View(), msg.headerData.list, ok)
              == if InChain(given) then (w, given, true)
                 else AcquireOutcome(coordinator.setting, w, originalTopic, msg.key, given)
    {
      var alreadyInRetry := msg.headerData.Get(HEADER_RETRY);
      if alreadyInRetry == Some("true") {
        return true;
      }
      ok := coordinator.Acquire(originalTopic, msg);
    }

    method RedirectEnvelope(msg: MessageEnvelope, failure: Failure, at: Moment) returns (ok: bool)
      requires Valid() && !failure.Success?
      modifies coordinator, coordinator.local, producer, msg.headerData
      ensures Valid()
      ensures (coordinator.View(), ok)
           == RedirectOutcome(coordinator.setting, cfg, old(coordinator.View()), old(msg.View()), failure, at)
    {
      ghost var m := msg.View();
      var given := msg.headerData.list;
      if failure.NotRetriable? {
        ok := SendToDLQ(Message(msg.topic, msg.key, msg.payload, given), failure.reason, at);
        return;
      }
      var attempt := GetInt(given, HEADER_RETRY_ATTEMPT).GetOr(0);
      if attempt >= cfg.maxRetries {
        ok := HandleMaxRetriesExceeded(msg, at);
        return;
      }
      var originalTime := GetTime(given, HEADER_RETRY_ORIGINAL_TIME).GetOr(at.failedAt);
      var originalTopic := Get(given, HEADER_TOPIC).GetOr(msg.topic);
      var nextTime := at.scheduledFrom + cfg.backoff(attempt);
      ok := LockUnlessInChain(originalTopic, msg);
      if !ok {
        return;
      }
      ok := Publish(msg, m, failure.reason, at,
                    Hop("", attempt + 1, cfg.maxRetries, nextTime, originalTime, Some(failure.reason), originalTopic));
    }

    method Redirect(msg: Message, failure: Failure, at: Moment) returns (ok: bool)
      requires Valid() && !failure.Success?
      modifies coordinator, coordinator.local, producer
      ensures Valid()
      ensures (coordinator.View(), ok) == RedirectOutcome(coordinator.setting, cfg, old(coordinator.View()),
                                                          msg.(headers := Copy(msg.headers)), failure, at)
    {
      var im := NewFromMessage(msg);
      ok := RedirectEnvelope(im, failure, at);
    }

    method Free(msg: Message) returns (ok: bool)
      requires Valid()
      modifies coordinator, coordinator.local, producer
      ensures Valid()
      ensures (coordinator.View(), ok)
           == ReleaseOutcome(coordinator.setting, old(coordinator.View()), msg.key, Copy(msg.headers))
    {
      var im := NewFromMessage(msg);
      ok := coordinator.Release(im);
    }

    /** The handler for the main topic; `result` is what the user's handler would return. */
    method HandleMain(msg: Message, result: Failure, at: Moment) returns (ok: bool, called: bool)
      requires Valid()
      modifies coordinator, coordinator.local, producer
      ensures Valid()
      ensures called <==> Count(old(coordinator.local.lm), msg.topic, msg.key) == 0
      ensures (coordinator.View(), ok) == MainOutcome(coordinator.setting, cfg, old(coordinator.View()),
                                                      msg.(headers := Copy(msg.headers)), result, at)
    {
      CountNonNegative(coordinator.local.lm, msg.topic, msg.key);
      var locked := coordinator.IsLocked(msg.topic, msg.key);
      if locked {
        called := false;
        ok := Redirect(msg, PREDECESSOR, at);
        return;
      }
      called := true;
      if !result.Success? {
        ok := Redirect(msg, result, at);
        return;
      }
      ok := true;
    }

    /** The retry worker's handler, once the waiting is over. */
    method HandleRetry(msg: Message, result: Failure, at: Moment) returns (ok: bool)
      requires Valid()
      modifies coordinator, coordinator.local, producer
      ensures Valid()
      ensures (coordinator.View(), ok) == RetryOutcome(coordinator.setting, cfg, old(coordinator.View()),
                                                       msg.(headers := Copy(msg.headers)), result, at)
    {
      if !result.Success? {
        ok := Redirect(msg, result, at);
      } else {
        ok := Free(msg);
      }
    }
  }
}
