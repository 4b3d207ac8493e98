/** What a retry message tells the next call, and when the retry worker wakes up for it. */
module RetrySchedule {
  import opened Headers
  import opened Text
  import opened LockTable
  import opened LocalCoordinator
  import opened Messaging
  import opened Coordinator
  import opened CoordinatorCalls
  import opened RetryHeaders
  import opened Tracker
  import opened TrackerProperties
  import opened TrackerCalls

  /** A time as it comes back from a header, wherever its seconds fit in 64 bits: floored to
      the second. */
  predicate Floored(read: Option<int>, nanos: int) {
    IsInt64(UnixSeconds(nanos)) ==>
      && read.Some? && read.value % 1_000_000_000 == 0
      && read.value <= nanos < read.value + 1_000_000_000
  }

  lemma FlooredSeconds(nanos: int)
    ensures Floored(Some(UnixSeconds(nanos) * NANOS_PER_SECOND), nanos)
  {
    SecondsFloor(nanos);
  }

  /** The last message a redirect sent. */
  function LastSent(cfg: Config, call: Call, m: Message): Option<Sent>
    requires Canonical(call.world.table)
  {
    var sent := RedirectOutcome(call.setting, cfg, call.world, m, Retriable(call.reason), call.at).0.wire.sent;
    if sent == [] then None else Some(sent[|sent| - 1])
  }

  /** The id a redirect goes on with. */
  lemma LockedId(call: Call, m: Message)
    ensures Get(Locked(call, m), HEADER_ID) ==
            if InChain(m.headers) then Get(m.headers, HEADER_ID)
            else Some(Get(m.headers, HEADER_ID).GetOr(call.setting.mint(call.world.minted)))
  {
    LockHeadersRead(call.setting, call.world, OriginalTopic(m), m.headers, HEADER_ID);
  }

  /** Any successful redirect ends with a message to the retry topic of the original topic. */
  lemma RetryLands(cfg: Config, call: Call, m: Message, m': Message)
    requires Redirected(cfg, call, m, m')
    ensures LastSent(cfg, call, m)
         == Some(Sent(Retry(Get(m.headers, "topic").GetOr(m.topic)), m.key, m.payload, m'.headers))
  {
    OneHop(cfg, call, m, m');
  }

  /** It counts one attempt more than the message it came from and carries the limit, the reason
      and the lock id. */
  lemma RetryReads(cfg: Config, call: Call, m: Message, m': Message)
    requires Redirected(cfg, call, m, m') && IsInt64(cfg.maxRetries)
    ensures var attempt := GetInt(m.headers, "x-retry-attempt").GetOr(0);
            var topic := Get(m.headers, "topic").GetOr(m.topic);
            && GetInt(m'.headers, "x-retry-attempt") == Some(attempt + 1)
            && GetInt(m'.headers, "x-retry-max") == Some(cfg.maxRetries)
            && Get(m'.headers, "x-retry-reason") == Some(call.reason)
            && Get(m'.headers, "retry") == Some("true")
            && Get(m'.headers, "topic") == Some(topic)
            && Get(m'.headers, "id") == (if Get(m.headers, "retry") == Some("true") then Get(m.headers, "id")
                                         else Some(Get(m.headers, "id").GetOr(call.setting.mint(call.world.minted))))
  {
    OneHop(cfg, call, m, m');
    LockedId(call, m);
    AttemptFits(m.headers);
    var l := Locked(call, m);
    HopReadsBack(l, HopOf(cfg, m, Get(l, HEADER_ID).value, call.reason, call.at));
  }

  /** It is due one delay after the redirect, that of the attempts counted before, and says when
      the message failed first. */
  lemma RetryTimes(cfg: Config, call: Call, m: Message, m': Message)
    requires Redirected(cfg, call, m, m')
    ensures Floored(GetTime(m'.headers, "x-retry-next-time"),
                    call.at.scheduledFrom + cfg.backoff(GetInt(m.headers, "x-retry-attempt").GetOr(0)))
    ensures Floored(GetTime(m'.headers, "x-retry-original-time"),
                    GetTime(m.headers, "x-retry-original-time").GetOr(call.at.failedAt))
  {
    OneHop(cfg, call, m, m');
    var l := Locked(call, m);
    var hop := HopOf(cfg, m, Get(l, HEADER_ID).value, call.reason, call.at);
    HopReadsBack(l, hop);
    FlooredSeconds(hop.nextTime);
    FlooredSeconds(hop.originalTime);
  }

  // ---------------------------------------------------------------- along the chain

  /** The attempts counted before redirect `n`. */
  lemma AttemptBefore(cfg: Config, calls: seq<Call>, ms: seq<Message>, n: nat)
    requires Chain(cfg, calls, ms) && Fresh(ms[0]) && n < |calls|
    requires IsInt64(cfg.maxRetries) && IsInt64(UnixSeconds(calls[0].at.failedAt))
    ensures GetInt(ms[n].headers, HEADER_RETRY_ATTEMPT).GetOr(0) == n
    ensures Get(ms[n].headers, HEADER_TOPIC).GetOr(ms[n].topic) == ms[0].topic
    ensures ms[n].key == ms[0].key && ms[n].payload == ms[0].payload
  {
    if n == 0 {
      NothingReserved(ms[0]);
    } else {
      HopsPreserve(cfg, calls, ms, n);
    }
  }

  /** After `n` redirects the message is in the retry topic of its first topic, due `backoff(n - 1)`
      after the last of them, with that one's reason. */
  lemma HopSchedule(cfg: Config, calls: seq<Call>, ms: seq<Message>, n: nat)
    requires Chain(cfg, calls, ms) && Fresh(ms[0]) && 0 < n < |ms|
    requires IsInt64(cfg.maxRetries) && IsInt64(UnixSeconds(calls[0].at.failedAt))
    ensures Redirected(cfg, calls[n - 1], ms[n - 1], ms[n])
    ensures LastSent(cfg, calls[n - 1], ms[n - 1])
         == Some(Sent(Retry(ms[0].topic), ms[0].key, ms[0].payload, ms[n].headers))
    ensures GetInt(ms[n].headers, "x-retry-max") == Some(cfg.maxRetries)
    ensures Get(ms[n].headers, "x-retry-reason") == Some(calls[n - 1].reason)
    ensures Floored(GetTime(ms[n].headers, "x-retry-next-time"), calls[n - 1].at.scheduledFrom + cfg.backoff(n - 1))
  {
    assert Redirected(cfg, calls[n - 1], ms[n - 1], ms[n]);
    AttemptBefore(cfg, calls, ms, n - 1);
    RetryLands(cfg, calls[n - 1], ms[n - 1], ms[n]);
    RetryReads(cfg, calls[n - 1], ms[n - 1], ms[n]);
    RetryTimes(cfg, calls[n - 1], ms[n - 1], ms[n]);
  }

  /** So the worker's `n`-th wake-up comes within the second before that time, and never after
      it; once it has come the worker does not wait at all. */
  lemma HopWakesUp(cfg: Config, calls: seq<Call>, ms: seq<Message>, n: nat, now: int)
    requires Chain(cfg, calls, ms) && Fresh(ms[0]) && 0 < n < |ms|
    requires IsInt64(cfg.maxRetries) && IsInt64(UnixSeconds(calls[0].at.failedAt))
    requires IsInt64(UnixSeconds(calls[n - 1].at.scheduledFrom + cfg.backoff(n - 1)))
    ensures var due := calls[n - 1].at.scheduledFrom + cfg.backoff(n - 1);
            var wake := now + RetryWait(ms[n].headers, "x-retry-next-time", now);
            && (now >= due ==> wake == now)
            && (now < due ==> now <= wake && due - 1_000_000_000 < wake <= due)
  {
    HopSchedule(cfg, calls, ms, n);
  }

  // ---------------------------------------------------------------- behind a predecessor

  /** A main message of a locked key follows its predecessor into the retry topic, whatever its
      own handler would have returned. */
  lemma FollowsPredecessor(c: Setting, cfg: Config, w: World, m: Message, result: Failure, at: Moment)
    requires Canonical(w.table) && Count(w.table, m.topic, m.key) > 0 && IsInt64(cfg.maxRetries)
    requires GetInt(m.headers, "x-retry-attempt").GetOr(0) < cfg.maxRetries
    ensures var (w', ok) := MainOutcome(c, cfg, w, m, result, at);
            ok ==> w'.wire.sent != [] &&
                   var last := w'.wire.sent[|w'.wire.sent| - 1];
                   && last.to == Retry(Get(m.headers, "topic").GetOr(m.topic))
                   && last.key == m.key && last.payload == m.payload
                   && Get(last.headers, "x-retry-reason") == Some("strict ordering: predecessor in retry")
  {
    var (w', ok) := MainOutcome(c, cfg, w, m, result, at);
    if ok {
      var call := Call(c, w, PREDECESSOR.reason, at);
      SomethingSent(c, cfg, w, m, PREDECESSOR.reason, at);
      var last := w'.wire.sent[|w'.wire.sent| - 1];
      var m' := Message(m.topic, last.key, last.payload, last.headers);
      assert Redirected(cfg, call, m, m');
      RetryLands(cfg, call, m, m');
      RetryReads(cfg, call, m, m');
    }
  }

  lemma SomethingSent(c: Setting, cfg: Config, w: World, m: Message, reason: string, at: Moment)
    requires Canonical(w.table)
    ensures var (w', ok) := RedirectOutcome(c, cfg, w, m, Retriable(reason), at); ok ==> w'.wire.sent != []
  {
    AcceptedExactly(c, cfg, w, m, Retriable(reason), at);
  }
}
