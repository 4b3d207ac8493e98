/** What a dead letter tells, and what it no longer can. */
module DeadLetters {
  import opened Headers
  import opened Text
  import opened LockTable
  import opened Messaging
  import opened Coordinator
  import opened RetryHeaders
  import opened Tracker
  import opened TrackerProperties

  /** The header names a dead letter adds. */
  const LETTER: set<string> :=
    {HEADER_DLQ_REASON, HEADER_DLQ_TIMESTAMP, HEADER_DLQ_SOURCE_TOPIC, HEADER_DLQ_RETRY_ATTEMPTS,
     HEADER_DLQ_ORIGINAL_FAILURE_TIME}

  lemma LetterNames(m: Message, reason: string, at: Moment)
    ensures NoDup(DeadHeaders(m, reason, at))
    ensures forall i | 0 <= i < |DeadHeaders(m, reason, at)| :: DeadHeaders(m, reason, at)[i].key in LETTER
  {
  }

  lemma LetterKeys(m: Message, reason: string, at: Moment)
    ensures forall k | k in ToMap(DeadHeaders(m, reason, at)) :: k in LETTER
  {
    LetterNames(m, reason, at);
    ToMapMeaning(DeadHeaders(m, reason, at));
  }

  lemma LetterGet(onto: seq<Header>, m: Message, reason: string, at: Moment, i: nat)
    requires i < |DeadHeaders(m, reason, at)|
    ensures Get(PutAll(onto, DeadHeaders(m, reason, at)), DeadHeader(m, reason, at, i).key)
         == Some(DeadHeader(m, reason, at, i).value)
  {
    var l := DeadHeaders(m, reason, at);
    LetterNames(m, reason, at);
    assert l[i] == DeadHeader(m, reason, at, i);
    InMap(l, l[i]);
    PutAllGet(onto, l, l[i].key);
  }

  /** A dead letter keeps key and payload and says why, from where and after how many attempts
      it came about. */
  lemma LetterReads(m: Message, reason: string, at: Moment)
    ensures var d := DeadMessage(m, reason, at);
            && d.key == m.key && d.payload == m.payload && d.to == DeadLetter(OriginalTopic(m))
            && Get(d.headers, HEADER_DLQ_REASON) == Some(reason)
            && Get(d.headers, HEADER_DLQ_SOURCE_TOPIC) == Some(OriginalTopic(m))
            && GetInt(d.headers, HEADER_DLQ_RETRY_ATTEMPTS) == Some(Attempt(m.headers))
  {
    var base := Copy(Without(m.headers, DROPPED_FOR_DLQ));
    LetterGet(base, m, reason, at, 0);
    LetterGet(base, m, reason, at, 2);
    LetterGet(base, m, reason, at, 3);
    AttemptFits(m.headers);
    ItoaRoundTrip(Attempt(m.headers));
  }

  /** It says when. It also says when the message failed first, if the message does and that is
      not the first second of the year 1; otherwise that header is the message's own, if any. */
  lemma LetterTimes(m: Message, reason: string, at: Moment)
    ensures var d, first := DeadMessage(m, reason, at), GetTime(m.headers, "x-retry-original-time");
            && (IsInt64(UnixSeconds(at.deadAt)) ==>
                  GetTime(d.headers, "x-dlq-timestamp") == Some(UnixSeconds(at.deadAt) * 1_000_000_000))
            && if first.Some? && first.value != -62135596800 * 1_000_000_000 then
                 GetTime(d.headers, "x-dlq-original-failure-time") == first
               else NoDup(m.headers) ==>
                 Get(d.headers, "x-dlq-original-failure-time") == Get(m.headers, "x-dlq-original-failure-time")
  {
    var base := Copy(Without(m.headers, DROPPED_FOR_DLQ));
    LetterGet(base, m, reason, at, 1);
    if IsInt64(UnixSeconds(at.deadAt)) {
      ItoaRoundTrip(UnixSeconds(at.deadAt));
    }
    if FirstFailed(m).Some? {
      LetterGet(base, m, reason, at, 4);
      FirstFailedFits(m);
    } else if NoDup(m.headers) {
      OwnFailureTime(m, reason, at);
    }
  }

  /** A header the letter does not add. */
  lemma OwnFailureTime(m: Message, reason: string, at: Moment)
    requires NoDup(m.headers) && FirstFailed(m).None?
    ensures Get(DeadMessage(m, reason, at).headers, HEADER_DLQ_ORIGINAL_FAILURE_TIME)
         == Get(m.headers, HEADER_DLQ_ORIGINAL_FAILURE_TIME)
  {
    var l, k := DeadHeaders(m, reason, at), HEADER_DLQ_ORIGINAL_FAILURE_TIME;
    CopyWithoutNoDup(m.headers, DROPPED_FOR_DLQ);
    PutAllGet(Without(m.headers, DROPPED_FOR_DLQ), l, k);
    ToMapMeaning(l);
    assert forall i | 0 <= i < |l| :: l[i] == DeadHeader(m, reason, at, i) && l[i].key != k;
    GetWithout(m.headers, k, DROPPED_FOR_DLQ);
  }

  lemma FirstFailedFits(m: Message)
    requires FirstFailed(m).Some?
    ensures var seconds := UnixSeconds(FirstFailed(m).value);
            Atoi(Itoa(seconds)) == Some(seconds) && seconds * NANOS_PER_SECOND == FirstFailed(m).value
  {
    var seconds := GetInt(m.headers, HEADER_RETRY_ORIGINAL_TIME).value;
    assert FirstFailed(m).value == seconds * NANOS_PER_SECOND;
    assert UnixSeconds(seconds * NANOS_PER_SECOND) == seconds;
    ItoaRoundTrip(seconds);
  }

  /** It keeps every header it does not add or drop where and what it is. */
  lemma LetterKeeps(m: Message, reason: string, at: Moment)
    requires NoDup(m.headers)
    ensures var d := DeadMessage(m, reason, at);
            && NoDup(d.headers)
            && Without(d.headers, LETTER) == Without(Without(m.headers, DROPPED_FOR_DLQ), LETTER)
  {
    CopyWithoutNoDup(m.headers, DROPPED_FOR_DLQ);
    LetterNames(m, reason, at);
    PutAllReserved(Without(m.headers, DROPPED_FOR_DLQ), DeadHeaders(m, reason, at), LETTER);
  }

  lemma LetterDrops(m: Message, reason: string, at: Moment, k: string)
    requires NoDup(m.headers) && k in DROPPED_FOR_DLQ
    ensures Get(DeadMessage(m, reason, at).headers, k) == None
  {
    var base := Without(m.headers, DROPPED_FOR_DLQ);
    CopyWithoutNoDup(m.headers, DROPPED_FOR_DLQ);
    LetterKeys(m, reason, at);
    DroppedIsGone(m.headers, DROPPED_FOR_DLQ, k);
    NotInLetter(k);
    PutAllGet(base, DeadHeaders(m, reason, at), k);
  }

  /** Name by name: the lock id, the retry mark, the attempts, the limit and the next time are
      gone, and nothing else is. */
  lemma LetterHeader(m: Message, reason: string, at: Moment, k: string)
    requires NoDup(m.headers)
    requires k != "x-dlq-reason" && k != "x-dlq-timestamp" && k != "x-dlq-source-topic"
    requires k != "x-dlq-retry-attempts" && k != "x-dlq-original-failure-time"
    ensures Get(DeadMessage(m, reason, at).headers, k) ==
            if k == "id" || k == "retry" || k == "x-retry-attempt" || k == "x-retry-max" || k == "x-retry-next-time"
            then None else Get(m.headers, k)
  {
    if k in DROPPED_FOR_DLQ {
      LetterDrops(m, reason, at, k);
    } else {
      CopyWithoutNoDup(m.headers, DROPPED_FOR_DLQ);
      LetterKeys(m, reason, at);
      PutAllGet(Without(m.headers, DROPPED_FOR_DLQ), DeadHeaders(m, reason, at), k);
      GetWithout(m.headers, k, DROPPED_FOR_DLQ);
    }
  }

  lemma NotInLetter(k: string)
    requires k in DROPPED_FOR_DLQ
    ensures k !in LETTER
  {
  }

  lemma DroppedIsGone(l: seq<Header>, names: set<string>, k: string)
    requires k in names
    ensures Get(Without(l, names), k) == None
  {
    WithoutMeaning(l, names);
    var r := Without(l, names);
    assert forall i | 0 <= i < |r| :: r[i] in r;
  }

  /** A dead letter has lost its lock id, so freeing it is refused: a lock that stays when a
      message is dead-lettered cannot be given back with the letter. */
  lemma LetterCannotBeFreed(c: Setting, w: World, m: Message, reason: string, at: Moment)
    requires NoDup(m.headers) && Canonical(w.table)
    ensures var d := DeadMessage(m, reason, at);
            ReleaseOutcome(c, w, d.key, Copy(d.headers)) == (w, false)
  {
    LetterKeeps(m, reason, at);
    LetterDrops(m, reason, at, HEADER_ID);
    CopyIsIdentityWithoutDuplicates(DeadMessage(m, reason, at).headers);
  }

  /** Once its retries are used up, the letter of a message says exactly MaxRetries attempts
      and its original topic and when it failed first, but the reason of the failure before the last:
      what the handler returned last is not in it. */
  lemma ExhaustedLetter(c: Setting, cfg: Config, w: World, calls: seq<Call>, ms: seq<Message>, last: string, at: Moment)
    requires Chain(cfg, calls, ms) && Fresh(ms[0]) && |calls| > 0 && cfg.maxRetries == |calls|
    requires IsInt64(cfg.maxRetries) && IsInt64(UnixSeconds(calls[0].at.failedAt))
    requires calls[|calls| - 1].reason != "" && Canonical(w.table) && c.outcome(w.wire.calls)
    ensures var (w', ok) := RedirectOutcome(c, cfg, w, ms[|calls|], Retriable(last), at);
            && |w'.wire.sent| > |w.wire.sent|
            && var d := w'.wire.sent[|w.wire.sent|];
               && d.to == DeadLetter(ms[0].topic) && d.key == ms[0].key && d.payload == ms[0].payload
               && GetInt(d.headers, HEADER_DLQ_RETRY_ATTEMPTS) == Some(cfg.maxRetries)
               && Get(d.headers, HEADER_DLQ_REASON) == Some(calls[|calls| - 1].reason)
               && (UnixSeconds(calls[0].at.failedAt) != -62135596800 ==>
                     GetTime(d.headers, HEADER_DLQ_ORIGINAL_FAILURE_TIME)
                     == Some(UnixSeconds(calls[0].at.failedAt) * NANOS_PER_SECOND))
  {
    var n := |calls|;
    var m, reason := ms[n], calls[n - 1].reason;
    HopsPreserve(cfg, calls, ms, n);
    LastReasonIs(cfg, calls[n - 1], ms[n - 1], m);
    CopyIsIdentityWithoutDuplicates(m.headers);
    LetterReads(m, reason, at);
    LetterTimes(m, reason, at);
    FirstIsLetter(c, cfg, w, m, last, at);
  }

  /** The first message a redirect sends that ends in the dead-letter topic is the letter. Its
      reason is the failure's where that is not retriable; otherwise the last one the message
      has been retried for, and a fixed text where there is none. */
  lemma LetterSent(c: Setting, cfg: Config, w: World, m: Message, failure: Failure, at: Moment)
    requires Canonical(w.table) && NoDup(m.headers) && c.outcome(w.wire.calls)
    requires failure.NotRetriable?
             || (failure.Retriable? && GetInt(m.headers, "x-retry-attempt").GetOr(0) >= cfg.maxRetries)
    ensures var sent := RedirectOutcome(c, cfg, w, m, failure, at).0.wire.sent;
            var last := Get(m.headers, "x-retry-reason").GetOr("");
            var reason := if failure.NotRetriable? then failure.reason
                          else if last == "" then "max retries exceeded" else last;
            |sent| > |w.wire.sent| && sent[|w.wire.sent|] == DeadMessage(m, reason, at)
  {
    CopyIsIdentityWithoutDuplicates(m.headers);
    assert m.(headers := m.headers) == m;
    if failure.Retriable? {
      FirstIsLetter(c, cfg, w, m, failure.reason, at);
    }
  }

  lemma LastReasonIs(cfg: Config, call: Call, m: Message, m': Message)
    requires Redirected(cfg, call, m, m') && call.reason != ""
    ensures LastReason(m'.headers) == call.reason
  {
    OneHop(cfg, call, m, m');
    var l := Locked(call, m);
    HopReadsBack(l, HopOf(cfg, m, Get(l, HEADER_ID).value, call.reason, call.at));
  }

  /** The dead letter is the first message an exhausted message's redirect sends. */
  lemma FirstIsLetter(c: Setting, cfg: Config, w: World, m: Message, last: string, at: Moment)
    requires Canonical(w.table) && c.outcome(w.wire.calls) && Attempt(m.headers) >= cfg.maxRetries
    ensures var (w', ok) := RedirectOutcome(c, cfg, w, m, Retriable(last), at);
            && |w'.wire.sent| > |w.wire.sent|
            && w'.wire.sent[|w.wire.sent|] == DeadMessage(m.(headers := Copy(m.headers)), LastReason(m.headers), at)
  {
  }
}
