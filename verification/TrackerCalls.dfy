/** What a call of the tracker sends, and when it is accepted. */
module TrackerCalls {
  import opened Headers
  import opened Text
  import opened LockTable
  import opened LocalCoordinator
  import opened Messaging
  import opened Coordinator
  import opened CoordinatorCalls
  import opened RetryHeaders
  import opened Tracker
  import opened TrackerProperties
  import opened DeadLetters

  /** A message sent on behalf of `m`: to a topic that accompanies its original topic, which the
      message names itself. A lock record or tombstone names the business key and its writer and
      is keyed by its id; a retry message or dead letter has the key and payload of `m`. */
  predicate SentFor(self: string, m: Message, x: Sent) {
    var topic := Get(m.headers, "topic").GetOr(m.topic);
    && x.to.topic == topic
    && match x.to
       case Redirect(_) =>
         && Get(x.headers, "topic") == Some(topic) && Get(x.headers, "key") == Some(m.key)
         && Get(x.headers, "x-coordinator-id") == Some(self)
         && Get(x.headers, "id") == Some(x.key) && (x.payload == None || x.payload == Some(x.key))
       case Retry(_) =>
         && Get(x.headers, "topic") == Some(topic) && x.key == m.key && x.payload == m.payload
         && Get(x.headers, "retry") == Some("true") && Get(x.headers, "id").Some?
       case DeadLetter(_) =>
         && Get(x.headers, "x-dlq-source-topic") == Some(topic) && x.key == m.key && x.payload == m.payload
         && Get(x.headers, "retry") == None && Get(x.headers, "id") == None
  }

  /** The wire grew, by messages on behalf of `m` only. */
  ghost predicate SendsFor(self: string, m: Message, before: seq<Sent>, after: seq<Sent>) {
    && before <= after
    && forall i | |before| <= i < |after| :: SentFor(self, m, after[i])
  }

  lemma SendsOne(self: string, m: Message, sent: seq<Sent>, x: Sent)
    requires SentFor(self, m, x)
    ensures SendsFor(self, m, sent, sent + [x])
  {
  }

  lemma SendsMore(self: string, m: Message, a: seq<Sent>, b: seq<Sent>, c: seq<Sent>)
    requires SendsFor(self, m, a, b) && SendsFor(self, m, b, c)
    ensures SendsFor(self, m, a, c)
  {
    forall i | |a| <= i < |c| ensures SentFor(self, m, c[i]) {
      if i < |b| {
        assert b[i] == c[i];
      }
    }
  }

  /** Headers that name the original topic of `m`, or none. */
  predicate Names(m: Message, h: seq<Header>) {
    Get(h, HEADER_TOPIC).GetOr(OriginalTopic(m)) == OriginalTopic(m)
  }

  lemma RecordSentFor(self: string, m: Message, r: Sent, id: string, h: seq<Header>)
    requires IsRecord(r, self, OriginalTopic(m), m.key, id, h) && (r.payload == None || r.payload == Some(id))
    ensures SentFor(self, m, r)
  {
    assert Get(r.headers, "topic") == Some(OriginalTopic(m)) && Get(r.headers, "key") == Some(m.key);
    assert Get(r.headers, "x-coordinator-id") == Some(self) && Get(r.headers, "id") == Some(id);
  }

  lemma AcquireSends(c: Setting, w: World, m: Message)
    requires Canonical(w.table)
    ensures var (w', h, _) := AcquireOutcome(c, w, OriginalTopic(m), m.key, m.headers);
            && SendsFor(c.self, m, w.wire.sent, w'.wire.sent)
            && Names(m, h) && Get(h, HEADER_ID).Some?
  {
    var (w', h, ok) := AcquireOutcome(c, w, OriginalTopic(m), m.key, m.headers);
    AcquireExactly(c, w, OriginalTopic(m), m.key, m.headers);
    AcquireMarks(c, w, OriginalTopic(m), m.key, m.headers, HEADER_TOPIC);
    AcquireMarks(c, w, OriginalTopic(m), m.key, m.headers, HEADER_ID);
    if ok {
      var id := Get(m.headers, HEADER_ID).GetOr(c.mint(w.minted));
      var r :| Written(c.outcome, w.wire, w'.wire, r) && r.payload == Some(id)
               && IsRecord(r, c.self, OriginalTopic(m), m.key, id, h);
      RecordSentFor(c.self, m, r, id, h);
      SendsOne(c.self, m, w.wire.sent, r);
    }
  }

  lemma ReleaseSends(c: Setting, w: World, m: Message, h: seq<Header>)
    requires Canonical(w.table) && Names(m, h)
    ensures SendsFor(c.self, m, w.wire.sent, ReleaseOutcome(c, w, m.key, h).0.wire.sent)
  {
    var (w', ok) := ReleaseOutcome(c, w, m.key, h);
    ReleaseExactly(c, w, m.key, h);
    if ok {
      var id, topic := Get(h, HEADER_ID).value, Get(h, HEADER_TOPIC).value;
      var r :| Written(c.outcome, w.wire, w'.wire, r) && r.payload == None && IsRecord(r, c.self, topic, m.key, id, h);
      RecordSentFor(c.self, m, r, id, h);
      SendsOne(c.self, m, w.wire.sent, r);
    }
  }

  lemma {:induction false} RollBackSends(c: Setting, w: World, m: Message, h: seq<Header>, n: nat, goal: World)
    requires Canonical(w.table) && Names(m, h) && goal == RollBack(c, w, m.key, h, n)
    ensures SendsFor(c.self, m, w.wire.sent, goal.wire.sent)
    decreases n
  {
    if n > 0 {
      ReleaseSends(c, w, m, h);
      RollBackOnce(c, w, m.key, h, n);
      var r := ReleaseOutcome(c, w, m.key, h);
      if !r.1 && n > 1 {
        RollBackSends(c, r.0, m, h, n - 1, goal);
        SendsMore(c.self, m, w.wire.sent, r.0.wire.sent, goal.wire.sent);
      }
    }
  }

  lemma RetrySentFor(self: string, cfg: Config, m: Message, h: seq<Header>, id: string, reason: string, at: Moment)
    ensures SentFor(self, m, RetryMessage(m, h, HopOf(cfg, m, id, reason, at)))
  {
    HopReadsBack(h, HopOf(cfg, m, id, reason, at));
  }

  lemma PublishSends(c: Setting, cfg: Config, w: World, m: Message, h: seq<Header>, reason: string, at: Moment)
    requires Canonical(w.table) && Names(m, h)
    ensures SendsFor(c.self, m, w.wire.sent, PublishOutcome(c, cfg, w, m, h, reason, at).0.wire.sent)
  {
    if Get(h, HEADER_ID).Some? {
      var retry := RetryMessage(m, h, HopOf(cfg, m, Get(h, HEADER_ID).value, reason, at));
      var (wire, ok) := Produce(c.outcome, w.wire, retry);
      RetrySentFor(c.self, cfg, m, h, Get(h, HEADER_ID).value, reason, at);
      SendsOne(c.self, m, w.wire.sent, retry);
      if !ok {
        var w1 := w.(wire := wire);
        RollBackSends(c, w1, m, h, ROLLBACK_ATTEMPTS, RollBack(c, w1, m.key, h, ROLLBACK_ATTEMPTS));
      }
    }
  }

  lemma DeadSends(c: Setting, w: World, m: Message, reason: string, at: Moment)
    requires NoDup(m.headers)
    ensures SendsFor(c.self, m, w.wire.sent, DeadLetterOutcome(c, w, m, reason, at).0.wire.sent)
  {
    CopyIsIdentityWithoutDuplicates(m.headers);
    var d := DeadMessage(m, reason, at);
    LetterReads(m, reason, at);
    LetterDrops(m, reason, at, HEADER_RETRY);
    LetterDrops(m, reason, at, HEADER_ID);
    SendsOne(c.self, m, w.wire.sent, d);
  }

  lemma ExhaustedSends(c: Setting, cfg: Config, w: World, m: Message, at: Moment)
    requires Canonical(w.table) && NoDup(m.headers)
    ensures SendsFor(c.self, m, w.wire.sent, ExhaustedOutcome(c, cfg, w, m, at).0.wire.sent)
  {
    var (w1, ok) := DeadLetterOutcome(c, w, m, LastReason(m.headers), at);
    DeadSends(c, w, m, LastReason(m.headers), at);
    if ok && cfg.freeOnDLQ {
      ReleaseSends(c, w1, m, m.headers);
      SendsMore(c.self, m, w.wire.sent, w1.wire.sent, ReleaseOutcome(c, w1, m.key, m.headers).0.wire.sent);
    }
  }

  lemma FirstSends(c: Setting, cfg: Config, w: World, m: Message, reason: string, at: Moment)
    requires Canonical(w.table)
    ensures var (w1, h, ok) := AcquireOutcome(c, w, OriginalTopic(m), m.key, m.headers);
            var w' := if ok then PublishOutcome(c, cfg, w1, m, h, reason, at).0 else w1;
            SendsFor(c.self, m, w.wire.sent, w'.wire.sent)
  {
    var (w1, h, ok) := AcquireOutcome(c, w, OriginalTopic(m), m.key, m.headers);
    AcquireSends(c, w, m);
    if ok {
      PublishSends(c, cfg, w1, m, h, reason, at);
      SendsMore(c.self, m, w.wire.sent, w1.wire.sent, PublishOutcome(c, cfg, w1, m, h, reason, at).0.wire.sent);
    }
  }

  lemma RedirectSends(c: Setting, cfg: Config, w: World, m: Message, failure: Failure, at: Moment)
    requires Canonical(w.table) && NoDup(m.headers) && !failure.Success?
    ensures SendsFor(c.self, m, w.wire.sent, RedirectOutcome(c, cfg, w, m, failure, at).0.wire.sent)
  {
    if failure.NotRetriable? {
      DeadSends(c, w, m, failure.reason, at);
    } else if Attempt(m.headers) >= cfg.maxRetries {
      ExhaustedSends(c, cfg, w, m, at);
    } else if InChain(m.headers) {
      PublishSends(c, cfg, w, m, m.headers, failure.reason, at);
    } else {
      FirstSends(c, cfg, w, m, failure.reason, at);
    }
  }

  /** Whatever a handler call does, whichever publications fail and whatever is rolled back, it
      sends messages on behalf of its own message only. */
  lemma CallsSend(c: Setting, cfg: Config, w: World, m: Message, result: Failure, at: Moment)
    requires Canonical(w.table) && NoDup(m.headers)
    ensures SendsFor(c.self, m, w.wire.sent, MainOutcome(c, cfg, w, m, result, at).0.wire.sent)
    ensures SendsFor(c.self, m, w.wire.sent, RetryOutcome(c, cfg, w, m, result, at).0.wire.sent)
  {
    RedirectSends(c, cfg, w, m, PREDECESSOR, at);
    if result.Success? {
      ReleaseSends(c, w, m, m.headers);
    } else {
      RedirectSends(c, cfg, w, m, result, at);
    }
  }

  /** A message names the topic whose companion it went to. */
  predicate Addressed(x: Sent) {
    Get(x.headers, if x.to.DeadLetter? then "x-dlq-source-topic" else "topic") == Some(x.to.topic)
  }

  /** One handler call, of whichever instance, and the world it finds. */
  datatype HandlerCall = HandlerCall(c: Setting, cfg: Config, w: World, m: Message, main: bool, result: Failure,
                                     at: Moment)

  function SentAfter(h: HandlerCall): seq<Sent>
    requires Canonical(h.w.table)
  {
    if h.main then MainOutcome(h.c, h.cfg, h.w, h.m, h.result, h.at).0.wire.sent
    else RetryOutcome(h.c, h.cfg, h.w, h.m, h.result, h.at).0.wire.sent
  }

  /** Calls that share nothing but the wire, `wires[n]` before call `n`. */
  ghost predicate WireRun(wires: seq<seq<Sent>>, calls: seq<HandlerCall>) {
    && |wires| == |calls| + 1 && wires[0] == []
    && forall n | 0 <= n < |calls| ::
         && Canonical(calls[n].w.table) && NoDup(calls[n].m.headers)
         && calls[n].w.wire.sent == wires[n] && SentAfter(calls[n]) == wires[n + 1]
  }

  /** So in every run of handler calls, of any number of instances, each message on the wire was
      sent on behalf of some call's message, and names the topic whose redirect, retry or
      dead-letter topic it went to. */
  lemma {:induction false} WireStaysAddressed(wires: seq<seq<Sent>>, calls: seq<HandlerCall>, n: nat, i: nat)
    requires WireRun(wires, calls) && n < |wires| && i < |wires[n]|
    ensures Addressed(wires[n][i])
    ensures exists j | 0 <= j < n :: SentFor(calls[j].c.self, calls[j].m, wires[n][i])
    decreases n
  {
    var h := calls[n - 1];
    CallsSend(h.c, h.cfg, h.w, h.m, h.result, h.at);
    assert SendsFor(h.c.self, h.m, wires[n - 1], wires[n]);
    if i < |wires[n - 1]| {
      WireStaysAddressed(wires, calls, n - 1, i);
      assert wires[n][i] == wires[n - 1][i];
    } else {
      assert SentFor(h.c.self, h.m, wires[n][i]);
    }
  }

  // ---------------------------------------------------------------- accepted redirects

  /** A redirect that ends in the dead-letter topic. */
  predicate Ends(cfg: Config, m: Message, failure: Failure) {
    failure.NotRetriable? || GetInt(m.headers, "x-retry-attempt").GetOr(0) >= cfg.maxRetries
  }

  /** What an accepted redirect has sent: a dead letter, and behind it a tombstone where the
      retries are used up and the configuration says so; or a retry message, and before it a
      lock record of the same id unless the message was in the chain already. The table has
      moved with the lock records and tombstones. */
  ghost predicate Sends(cfg: Config, w: World, w': World, m: Message, failure: Failure, added: seq<Sent>) {
    var topic := Get(m.headers, "topic").GetOr(m.topic);
    && w'.wire.sent == w.wire.sent + added
    && if Ends(cfg, m, failure) then
         if failure.NotRetriable? || !cfg.freeOnDLQ then
           |added| == 1 && added[0].to.DeadLetter? && w'.table == w.table
         else
           && |added| == 2 && added[0].to.DeadLetter? && added[1].to.Redirect? && added[1].payload == None
           && Canonical(w.table) && w'.table == Decrement(w.table, topic, m.key)
       else if Get(m.headers, "retry") == Some("true") then
         |added| == 1 && added[0].to.Retry? && w'.table == w.table
       else
         && |added| == 2 && added[0].to.Redirect? && added[0].payload.Some? && added[1].to.Retry?
         && Get(added[1].headers, "id") == Some(added[0].key)
         && w'.table == Increment(w.table, topic, m.key)
  }

  /** The calls that must work for that. */
  ghost predicate EnoughWork(outcome: nat -> bool, from: nat, cfg: Config, m: Message, failure: Failure) {
    if Ends(cfg, m, failure) then
      && outcome(from)
      && (failure.Retriable? && cfg.freeOnDLQ ==>
            Get(m.headers, "id").Some? && Get(m.headers, "topic").Some? && SomeCallWorks(outcome, from + 1, 3))
    else if Get(m.headers, "retry") == Some("true") then
      Get(m.headers, "id").Some? && outcome(from)
    else
      exists i: nat :: FirstToWork(outcome, from, i) && i < from + 3 && outcome(i + 1)
  }

  ghost predicate FirstToWork(outcome: nat -> bool, from: nat, i: nat) {
    from <= i && outcome(i) && forall j: nat | from <= j < i :: !outcome(j)
  }

  predicate Freed(cfg: Config, failure: Failure) {
    failure.Retriable? && cfg.freeOnDLQ
  }

  /** The dead letter comes first, the release behind it. */
  lemma EndsWithLetter(c: Setting, cfg: Config, w: World, m: Message, failure: Failure, at: Moment) returns (d: Sent)
    requires Canonical(w.table) && !failure.Success? && Ends(cfg, m, failure)
    ensures d.to.DeadLetter?
    ensures RedirectOutcome(c, cfg, w, m, failure, at) ==
            if !c.outcome(w.wire.calls) then (w.(wire := Wire(w.wire.sent, w.wire.calls + 1)), false)
            else
              var w1 := w.(wire := Wire(w.wire.sent + [d], w.wire.calls + 1));
              if Freed(cfg, failure) then ReleaseOutcome(c, w1, m.key, m.headers) else (w1, true)
  {
    var reason := if failure.NotRetriable? then failure.reason else LastReason(m.headers);
    d := DeadMessage(m.(headers := Copy(m.headers)), reason, at);
  }

  lemma EndsExactly(c: Setting, cfg: Config, w: World, m: Message, failure: Failure, at: Moment)
    requires Canonical(w.table) && !failure.Success? && Ends(cfg, m, failure)
    ensures var (w', ok) := RedirectOutcome(c, cfg, w, m, failure, at);
            && (ok <==> EnoughWork(c.outcome, w.wire.calls, cfg, m, failure))
            && (ok ==> exists added :: Sends(cfg, w, w', m, failure, added))
  {
    var (w', ok) := RedirectOutcome(c, cfg, w, m, failure, at);
    var d := EndsWithLetter(c, cfg, w, m, failure, at);
    if c.outcome(w.wire.calls) {
      var w1 := w.(wire := Wire(w.wire.sent + [d], w.wire.calls + 1));
      if Freed(cfg, failure) {
        EndsFreed(c, w, w1, d, m);
        if ok {
          var r := w'.wire.sent[|w.wire.sent| + 1];
          assert Sends(cfg, w, w', m, failure, [d, r]);
        }
      } else {
        assert Sends(cfg, w, w', m, failure, [d]);
      }
    }
  }

  lemma EndsFreed(c: Setting, w: World, w1: World, d: Sent, m: Message)
    requires Canonical(w.table) && w1 == w.(wire := Wire(w.wire.sent + [d], w.wire.calls + 1))
    ensures var (w', ok) := ReleaseOutcome(c, w1, m.key, m.headers);
            && (ok <==> Get(m.headers, HEADER_ID).Some? && Get(m.headers, HEADER_TOPIC).Some?
                        && SomeCallWorks(c.outcome, w.wire.calls + 1, 3))
            && (ok ==>
                  && |w'.wire.sent| == |w.wire.sent| + 2 && w'.wire.sent[..|w.wire.sent| + 1] == w.wire.sent + [d]
                  && w'.table == Decrement(w.table, OriginalTopic(m), m.key)
                  && var r := w'.wire.sent[|w.wire.sent| + 1]; r.to.Redirect? && r.payload == None)
  {
    ReleaseExactly(c, w1, m.key, m.headers);
  }

  /** Publishing the retry message, with a lock held. */
  lemma PublishExactly(c: Setting, cfg: Config, w: World, m: Message, h: seq<Header>, reason: string, at: Moment)
    requires Canonical(w.table)
    ensures var (w', ok) := PublishOutcome(c, cfg, w, m, h, reason, at);
            && (ok <==> Get(h, HEADER_ID).Some? && c.outcome(w.wire.calls))
            && (ok ==>
                  && w'.table == w.table && |w'.wire.sent| == |w.wire.sent| + 1
                  && var x := w'.wire.sent[|w.wire.sent|];
                     && w'.wire.sent == w.wire.sent + [x] && x.to.Retry?
                     && Get(x.headers, HEADER_ID) == Get(h, HEADER_ID))
  {
    if Get(h, HEADER_ID).Some? {
      HopReadsBack(h, HopOf(cfg, m, Get(h, HEADER_ID).value, reason, at));
    }
  }

  /** Acquiring, told by the lock record `r` it writes. */
  lemma LockWritten(c: Setting, cfg: Config, w: World, m: Message, failure: Failure) returns (r: Sent)
    requires Canonical(w.table) && !Ends(cfg, m, failure) && !InChain(m.headers)
    ensures var (w1, h, locked) := AcquireOutcome(c, w, OriginalTopic(m), m.key, m.headers);
            if locked then
              && w1.wire.sent == w.wire.sent + [r] && r.to.Redirect? && r.payload.Some?
              && Get(h, HEADER_ID) == Some(r.key) && w1.table == Increment(w.table, OriginalTopic(m), m.key)
              && (EnoughWork(c.outcome, w.wire.calls, cfg, m, failure) <==> c.outcome(w1.wire.calls))
            else !EnoughWork(c.outcome, w.wire.calls, cfg, m, failure)
  {
    var topic := OriginalTopic(m);
    var (w1, h, locked) := AcquireOutcome(c, w, topic, m.key, m.headers);
    var id := Get(m.headers, HEADER_ID).GetOr(c.mint(w.minted));
    AcquireExactly(c, w, topic, m.key, m.headers);
    AcquireMarks(c, w, topic, m.key, m.headers, HEADER_ID);
    if locked {
      r :| Written(c.outcome, w.wire, w1.wire, r) && r.payload == Some(id) && IsRecord(r, c.self, topic, m.key, id, h);
      LockedBy(c.outcome, w.wire, w1.wire, r, cfg, m, failure);
    } else {
      r := Sent(Redirect(""), "", None, []);
    }
  }

  /** The lock is taken by the first call that works, and the next is the publication's. */
  lemma FirstExactly(c: Setting, cfg: Config, w: World, m: Message, failure: Failure, at: Moment)
    requires Canonical(w.table) && failure.Retriable? && !Ends(cfg, m, failure) && !InChain(m.headers)
    ensures var (w', ok) := RedirectOutcome(c, cfg, w, m, failure, at);
            && (ok <==> EnoughWork(c.outcome, w.wire.calls, cfg, m, failure))
            && (ok ==> exists added :: Sends(cfg, w, w', m, failure, added))
  {
    var (w1, h, locked) := AcquireOutcome(c, w, OriginalTopic(m), m.key, m.headers);
    var r := LockWritten(c, cfg, w, m, failure);
    FirstRedirectPublishes(c, cfg, w, m, failure.reason, at);
    if locked {
      PublishExactly(c, cfg, w1, m, h, failure.reason, at);
      var (w', ok) := PublishOutcome(c, cfg, w1, m, h, failure.reason, at);
      if ok {
        assert Sends(cfg, w, w', m, failure, [r, w'.wire.sent[|w1.wire.sent|]]);
      }
    }
  }

  lemma LockedBy(outcome: nat -> bool, w: Wire, w': Wire, r: Sent, cfg: Config, m: Message, failure: Failure)
    requires Written(outcome, w, w', r) && w'.calls <= w.calls + 3
    requires !Ends(cfg, m, failure) && !InChain(m.headers)
    ensures EnoughWork(outcome, w.calls, cfg, m, failure) <==> outcome(w'.calls)
  {
    var last := w'.calls - 1;
    assert FirstToWork(outcome, w.calls, last) by {
      assert !SomeCallWorks(outcome, w.calls, last - w.calls);
    }
    assert forall i | FirstToWork(outcome, w.calls, i) :: i == last;
  }

  /** A redirect is accepted if and only if the calls it needs work, and then it has sent exactly
      that. */
  lemma AcceptedExactly(c: Setting, cfg: Config, w: World, m: Message, failure: Failure, at: Moment)
    requires Canonical(w.table) && !failure.Success?
    ensures var (w', ok) := RedirectOutcome(c, cfg, w, m, failure, at);
            && (ok <==> EnoughWork(c.outcome, w.wire.calls, cfg, m, failure))
            && (ok ==> exists added :: Sends(cfg, w, w', m, failure, added))
  {
    if Ends(cfg, m, failure) {
      EndsExactly(c, cfg, w, m, failure, at);
    } else if InChain(m.headers) {
      var (w', ok) := PublishOutcome(c, cfg, w, m, m.headers, failure.reason, at);
      PublishExactly(c, cfg, w, m, m.headers, failure.reason, at);
      if ok {
        assert Sends(cfg, w, w', m, failure, [w'.wire.sent[|w.wire.sent|]]);
      }
    } else {
      FirstExactly(c, cfg, w, m, failure, at);
    }
  }
}
