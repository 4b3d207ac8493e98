/** One coordinator and the log it writes: the local count and the outstanding locks of a key
    move together, whatever fails. */
module Agreement {
  import opened Headers
  import opened LockTable
  import opened LocalCoordinator
  import opened Messaging
  import opened Coordinator
  import opened RedirectLog

  /** The redirect-topic record a sent message is. */
  function ToRecord(m: Sent): Record {
    Record(m.key, Get(m.headers, HEADER_TOPIC).GetOr(""), Get(m.headers, HEADER_KEY).GetOr(""),
           Get(m.headers, HEADER_COORDINATOR_ID).GetOr(""), m.payload.None?)
  }

  /** The redirect topic of `topic`: its records among everything sent. */
  function Log(sent: seq<Sent>, topic: string): seq<Record> {
    if sent == [] then []
    else
      var last := sent[|sent| - 1];
      Log(sent[..|sent| - 1], topic) + if last.to == Redirect(topic) then [ToRecord(last)] else []
  }

  lemma LogAppend(sent: seq<Sent>, m: Sent, topic: string)
    ensures Log(sent + [m], topic) == Log(sent, topic) + if m.to == Redirect(topic) then [ToRecord(m)] else []
  {
    assert (sent + [m])[..|sent + [m]| - 1] == sent;
  }

  /** One record more in the redirect topic of `topic`, and in no other. */
  ghost predicate Logged(sent: seq<Sent>, sent': seq<Sent>, topic: string, r: Record) {
    forall t :: Log(sent', t) == if t == topic then Log(sent, t) + [r] else Log(sent, t)
  }

  lemma RecordAppended(sent: seq<Sent>, m: Sent, topic: string)
    requires m.to == Redirect(topic)
    ensures Logged(sent, sent + [m], topic, ToRecord(m))
  {
    forall t ensures Log(sent + [m], t) == if t == topic then Log(sent, t) + [ToRecord(m)] else Log(sent, t) {
      LogAppend(sent, m, t);
    }
  }

  /** By how much the local count exceeds the outstanding locks. */
  function Slack(w: World, topic: string, key: string): int {
    Count(w.table, topic, key) - OutstandingCount(Log(w.wire.sent, topic), topic, key)
  }

  ghost predicate SameSlack(w: World, w': World) {
    forall t, k :: Slack(w', t, k) == Slack(w, t, k)
  }

  /** When a record moves the outstanding locks of its key as the table moves its count. */
  lemma RecordKeepsSlack(w: World, w': World, topic: string, key: string, d: int)
    requires forall t | t != topic :: Log(w'.wire.sent, t) == Log(w.wire.sent, t)
    requires forall t, k :: Count(w'.table, t, k) == Count(w.table, t, k) + if t == topic && k == key then d else 0
    requires forall k :: OutstandingCount(Log(w'.wire.sent, topic), topic, k)
                      == OutstandingCount(Log(w.wire.sent, topic), topic, k) + if k == key then d else 0
    ensures SameSlack(w, w')
  {
    forall t, k ensures Slack(w', t, k) == Slack(w, t, k) {
      assert Count(w'.table, t, k) == Count(w.table, t, k) + if t == topic && k == key then d else 0;
      if t == topic {
        assert OutstandingCount(Log(w'.wire.sent, topic), topic, k)
            == OutstandingCount(Log(w.wire.sent, topic), topic, k) + if k == key then d else 0;
      } else {
        assert Log(w'.wire.sent, t) == Log(w.wire.sent, t);
      }
    }
  }

  /** The redirect log reads back what the coordinator meant. */
  lemma RecordsReadBack(c: Setting, topic: string, key: string, id: string, headers: seq<Header>)
    ensures ToRecord(LockRecord(c, topic, key, id, headers)) == Record(id, topic, key, c.self, false)
    ensures ToRecord(Tombstone(c, topic, key, id, headers)) == Record(id, topic, key, c.self, true)
    ensures NoDup(headers) ==> NoDup(LockRecord(c, topic, key, id, headers).headers)
                               && NoDup(Tombstone(c, topic, key, id, headers).headers)
  {
    var h1 := Put(headers, HEADER_TOPIC, topic);
    var h2 := Put(h1, HEADER_KEY, key);
    var h3 := Put(h2, HEADER_COORDINATOR_ID, c.self);
    ReadsBack3(headers, topic, key, c.self);
    PutGet(h3, HEADER_ID, id, HEADER_TOPIC);
    PutGet(h3, HEADER_ID, id, HEADER_KEY);
    PutGet(h3, HEADER_ID, id, HEADER_COORDINATOR_ID);
    PutKeys(headers, HEADER_TOPIC, topic);
    PutKeys(h1, HEADER_KEY, key);
    PutKeys(h2, HEADER_COORDINATOR_ID, c.self);
    PutKeys(h3, HEADER_ID, id);
  }

  lemma ReadsBack3(headers: seq<Header>, topic: string, key: string, self: string)
    ensures var h := Put(Put(Put(headers, HEADER_TOPIC, topic), HEADER_KEY, key), HEADER_COORDINATOR_ID, self);
            && Get(h, HEADER_TOPIC) == Some(topic) && Get(h, HEADER_KEY) == Some(key)
            && Get(h, HEADER_COORDINATOR_ID) == Some(self)
  {
    var h1 := Put(headers, HEADER_TOPIC, topic);
    var h2 := Put(h1, HEADER_KEY, key);
    PutGet(headers, HEADER_TOPIC, topic, HEADER_TOPIC);
    PutGet(h1, HEADER_KEY, key, HEADER_TOPIC);
    PutGet(h1, HEADER_KEY, key, HEADER_KEY);
    PutGet(h2, HEADER_COORDINATOR_ID, self, HEADER_TOPIC);
    PutGet(h2, HEADER_COORDINATOR_ID, self, HEADER_KEY);
    PutGet(h2, HEADER_COORDINATOR_ID, self, HEADER_COORDINATOR_ID);
  }

  /** A record some coordinator wrote, once received, is consumed exactly as the record it
      stands for, with the lock id as the release key. */
  lemma ReceivedAsWritten(self: string, table: Table, redirectTopic: string, m: Sent)
    requires Canonical(table) && m.to.Redirect? && NoDup(m.headers)
    requires Get(m.headers, HEADER_TOPIC).Some? && Get(m.headers, HEADER_KEY).Some?
    requires Get(m.headers, HEADER_COORDINATOR_ID).Some?
    ensures ProcessRedirect(self, table, Message(redirectTopic, m.key, m.payload, m.headers))
         == Coordinator.Applied(Consume(ByRecordKey, self, table, ToRecord(m)))
  {
    CopyIsIdentityWithoutDuplicates(m.headers);
  }

  // ---------------------------------------------------------------- acquiring

  /** The topic header is absent or names the topic being locked, and the id is new. */
  ghost predicate CanAcquire(c: Setting, w: World, originalTopic: string, headers: seq<Header>) {
    && Canonical(w.table)
    && Get(headers, HEADER_TOPIC).GetOr(originalTopic) == originalTopic
    && Get(headers, HEADER_ID).GetOr(c.mint(w.minted)) !in Ids(Log(w.wire.sent, originalTopic))
  }

  /** What an acquire does to the table, the headers and the wire. */
  lemma AcquireShape(c: Setting, w: World, originalTopic: string, key: string, headers: seq<Header>)
    requires Canonical(w.table) && Get(headers, HEADER_TOPIC).GetOr(originalTopic) == originalTopic
    ensures var (w', h, ok) := AcquireOutcome(c, w, originalTopic, key, headers);
            var id := Get(headers, HEADER_ID).GetOr(c.mint(w.minted));
            && h == LockHeaders(c, w, originalTopic, headers)
            && Get(h, HEADER_ID) == Some(id) && Get(h, HEADER_TOPIC) == Some(originalTopic)
            && w'.table == (if ok then Increment(w.table, originalTopic, key)
                            else Decrement(Increment(w.table, originalTopic, key), originalTopic, key))
            && w'.wire.sent == w.wire.sent + if ok then [LockRecord(c, originalTopic, key, id, h)] else []
  {
    TopicIsSet(c, w, originalTopic, headers);
    LockTopic(c, w, originalTopic, headers);
  }

  /** What that means for the log: one lock record, or nothing. */
  lemma AcquireCases(c: Setting, w: World, originalTopic: string, key: string, headers: seq<Header>)
    requires CanAcquire(c, w, originalTopic, headers)
    ensures var (w', h, ok) := AcquireOutcome(c, w, originalTopic, key, headers);
            var id := Get(headers, HEADER_ID).GetOr(c.mint(w.minted));
            && Get(h, HEADER_ID) == Some(id) && Get(h, HEADER_TOPIC) == Some(originalTopic)
            && if ok then
                 && w'.table == Increment(w.table, originalTopic, key)
                 && Logged(w.wire.sent, w'.wire.sent, originalTopic, Record(id, originalTopic, key, c.self, false))
               else w'.table == w.table && w'.wire.sent == w.wire.sent
  {
    AcquireShape(c, w, originalTopic, key, headers);
    IncrementDecrement(w.table, originalTopic, key);
    LockRecordLogged(c, w.wire.sent, originalTopic, key, Get(headers, HEADER_ID).GetOr(c.mint(w.minted)),
                     LockHeaders(c, w, originalTopic, headers));
  }

  lemma LockRecordLogged(c: Setting, sent: seq<Sent>, topic: string, key: string, id: string, headers: seq<Header>)
    ensures Logged(sent, sent + [LockRecord(c, topic, key, id, headers)], topic, Record(id, topic, key, c.self, false))
  {
    RecordsReadBack(c, topic, key, id, headers);
    RecordAppended(sent, LockRecord(c, topic, key, id, headers), topic);
  }

  /** Success adds one lock to both sides, failure changes neither. */
  lemma AcquireAgrees(c: Setting, w: World, originalTopic: string, key: string, headers: seq<Header>)
    requires CanAcquire(c, w, originalTopic, headers)
    ensures var (w', h, ok) := AcquireOutcome(c, w, originalTopic, key, headers);
            var id := Get(headers, HEADER_ID).GetOr(c.mint(w.minted));
            && Canonical(w'.table) && SameSlack(w, w')
            && Get(h, HEADER_ID) == Some(id) && Get(h, HEADER_TOPIC) == Some(originalTopic)
            && (if ok then
                  && w'.table == Increment(w.table, originalTopic, key)
                  && Outstanding(Log(w'.wire.sent, originalTopic), originalTopic, key)
                     == Outstanding(Log(w.wire.sent, originalTopic), originalTopic, key) + {id}
                else w'.table == w.table && w'.wire.sent == w.wire.sent)
  {
    var r := Record(Get(headers, HEADER_ID).GetOr(c.mint(w.minted)), originalTopic, key, c.self, false);
    var outcome := AcquireOutcome(c, w, originalTopic, key, headers);
    AcquireCases(c, w, originalTopic, key, headers);
    NewLock(Log(w.wire.sent, originalTopic), r);
    if outcome.2 {
      RecordKeepsSlack(w, outcome.0, originalTopic, key, 1);
    }
  }

  /** The first record of an id adds one outstanding lock, of its own key. */
  lemma NewLock(log: seq<Record>, r: Record)
    requires r.id !in Ids(log) && !r.tombstone
    ensures forall t, k :: OutstandingCount(log + [r], t, k)
                        == OutstandingCount(log, t, k) + if t == r.topic && k == r.key then 1 else 0
    ensures Outstanding(log + [r], r.topic, r.key) == Outstanding(log, r.topic, r.key) + {r.id}
  {
    OutstandingAppend(log, r, r.topic, r.key);
    forall t, k ensures OutstandingCount(log + [r], t, k)
                     == OutstandingCount(log, t, k) + if t == r.topic && k == r.key then 1 else 0
    {
      OutstandingAppend(log, r, t, k);
      OutstandingNamed(log, t, k);
    }
  }

  /** The tombstone of an outstanding id takes one lock away, of the key it was locked for. */
  lemma LockReleased(log: seq<Record>, r: Record, topic: string, key: string)
    requires r.id in Outstanding(log, topic, key) && r.tombstone
    ensures forall t, k :: OutstandingCount(log + [r], t, k)
                        == OutstandingCount(log, t, k) - if t == topic && k == key then 1 else 0
  {
    forall t, k ensures OutstandingCount(log + [r], t, k)
                     == OutstandingCount(log, t, k) - if t == topic && k == key then 1 else 0
    {
      OutstandingAppend(log, r, t, k);
      if r.id in Outstanding(log, t, k) {
        OneLockPerId(log, topic, key, t, k, r.id);
      }
    }
  }

  lemma LockTopic(c: Setting, w: World, originalTopic: string, headers: seq<Header>)
    requires Get(headers, HEADER_TOPIC).GetOr(originalTopic) == originalTopic
    ensures Get(LockHeaders(c, w, originalTopic, headers), HEADER_TOPIC) == Some(originalTopic)
  {
    var h1 := if Get(headers, HEADER_ID).Some? then headers else Put(headers, HEADER_ID, c.mint(w.minted));
    PutGet(headers, HEADER_ID, c.mint(w.minted), HEADER_TOPIC);
    PutGet(h1, HEADER_TOPIC, originalTopic, HEADER_TOPIC);
  }

  lemma IncrementDecrement(table: Table, topic: string, key: string)
    requires Canonical(table)
    ensures Decrement(Increment(table, topic, key), topic, key) == table
    ensures Count(table, topic, key) > 0 ==> Increment(Decrement(table, topic, key), topic, key) == table
  {
    CountNonNegative(table, topic, key);
    CanonicalUnique(Decrement(Increment(table, topic, key), topic, key), table);
    if Count(table, topic, key) > 0 {
      CanonicalUnique(Increment(Decrement(table, topic, key), topic, key), table);
    }
  }

  // ---------------------------------------------------------------- releasing

  /** The message names an id that is outstanding for its own topic and key, and every
      outstanding lock of the key is counted locally. */
  ghost predicate CanRelease(w: World, topic: string, key: string, headers: seq<Header>) {
    && Canonical(w.table)
    && Get(headers, HEADER_TOPIC) == Some(topic)
    && Get(headers, HEADER_ID).Some?
    && Get(headers, HEADER_ID).value in Outstanding(Log(w.wire.sent, topic), topic, key)
    && Slack(w, topic, key) >= 0
  }

  /** What a release does to the table and the log, whoever has taken the lock. */
  lemma ReleaseShape(c: Setting, w: World, topic: string, key: string, headers: seq<Header>)
    requires Canonical(w.table) && Get(headers, HEADER_TOPIC) == Some(topic) && Get(headers, HEADER_ID).Some?
    ensures var (w', ok) := ReleaseOutcome(c, w, key, headers);
            var id := Get(headers, HEADER_ID).value;
            && w'.table == (if ok then Decrement(w.table, topic, key)
                            else Increment(Decrement(w.table, topic, key), topic, key))
            && w'.wire.sent == w.wire.sent + if ok then [Tombstone(c, topic, key, id, headers)] else []
  {
  }

  lemma TombstoneLogged(c: Setting, sent: seq<Sent>, topic: string, key: string, id: string, headers: seq<Header>)
    ensures Logged(sent, sent + [Tombstone(c, topic, key, id, headers)], topic, Record(id, topic, key, c.self, true))
  {
    RecordsReadBack(c, topic, key, id, headers);
    RecordAppended(sent, Tombstone(c, topic, key, id, headers), topic);
  }

  /** Of a lock that is outstanding and counted. */
  lemma ReleaseCases(c: Setting, w: World, topic: string, key: string, headers: seq<Header>)
    requires CanRelease(w, topic, key, headers)
    ensures var (w', ok) := ReleaseOutcome(c, w, key, headers);
            var id := Get(headers, HEADER_ID).value;
            if ok then
              && w'.table == Decrement(w.table, topic, key)
              && Logged(w.wire.sent, w'.wire.sent, topic, Record(id, topic, key, c.self, true))
            else w'.table == w.table && w'.wire.sent == w.wire.sent
    ensures Count(w.table, topic, key) > 0
  {
    ReleaseShape(c, w, topic, key, headers);
    TombstoneLogged(c, w.wire.sent, topic, key, Get(headers, HEADER_ID).value, headers);
    assert |Outstanding(Log(w.wire.sent, topic), topic, key)| > 0;
    IncrementDecrement(w.table, topic, key);
  }

  /** Success takes one lock off both sides, failure changes neither. */
  lemma ReleaseAgrees(c: Setting, w: World, topic: string, key: string, headers: seq<Header>)
    requires CanRelease(w, topic, key, headers)
    ensures var (w', ok) := ReleaseOutcome(c, w, key, headers);
            var id := Get(headers, HEADER_ID).value;
            && Canonical(w'.table) && SameSlack(w, w')
            && (if ok then
                  && w'.table == Decrement(w.table, topic, key)
                  && Outstanding(Log(w'.wire.sent, topic), topic, key)
                     == Outstanding(Log(w.wire.sent, topic), topic, key) - {id}
                else w'.table == w.table && w'.wire.sent == w.wire.sent)
  {
    var outcome := ReleaseOutcome(c, w, key, headers);
    ReleaseCases(c, w, topic, key, headers);
    var r := Record(Get(headers, HEADER_ID).value, topic, key, c.self, true);
    LockReleased(Log(w.wire.sent, topic), r, topic, key);
    OutstandingAppend(Log(w.wire.sent, topic), r, topic, key);
    if outcome.1 {
      RecordKeepsSlack(w, outcome.0, topic, key, -1);
    }
  }

  /** An id is outstanding for one business key only. */
  lemma OneLockPerId(log: seq<Record>, t: string, k: string, t': string, k': string, id: string)
    requires id in Outstanding(log, t, k) * Outstanding(log, t', k')
    ensures t == t' && k == k'
  {
    OutstandingMeaning(log, t, k, id);
    OutstandingMeaning(log, t', k', id);
  }
}
