/** What a call of the coordinator does to the lock table, the message's headers and the
    redirect topic, read off the outside. */
module CoordinatorCalls {
  import opened Headers
  import opened LockTable
  import opened LocalCoordinator
  import opened Messaging
  import opened Coordinator

  /** A record in the redirect topic of `topic` under `id`: it names the business key and its
      writer, and all other headers are those of the message. */
  ghost predicate IsRecord(r: Sent, self: string, topic: string, key: string, id: string, headers: seq<Header>) {
    && r.to == Redirect(topic) && r.key == id
    && forall name :: Get(r.headers, name) == if name == "id" then Some(id)
                                              else if name == "x-coordinator-id" then Some(self)
                                              else if name == "key" then Some(key)
                                              else if name == "topic" then Some(topic)
                                              else Get(headers, name)
  }

  lemma RedirectHeadersRead(c: Setting, headers: seq<Header>, topic: string, key: string, name: string)
    ensures Get(RedirectHeaders(c, headers, topic, key), name) ==
            if name == HEADER_COORDINATOR_ID then Some(c.self)
            else if name == HEADER_KEY then Some(key)
            else if name == HEADER_TOPIC then Some(topic)
            else Get(headers, name)
  {
    var h1 := Put(headers, HEADER_TOPIC, topic);
    PutGet(headers, HEADER_TOPIC, topic, name);
    PutGet(h1, HEADER_KEY, key, name);
    PutGet(Put(h1, HEADER_KEY, key), HEADER_COORDINATOR_ID, c.self, name);
  }

  lemma LockRecordIs(c: Setting, topic: string, key: string, id: string, h: seq<Header>)
    requires Get(h, HEADER_ID) == Some(id)
    ensures IsRecord(LockRecord(c, topic, key, id, h), c.self, topic, key, id, h)
  {
    var r := LockRecord(c, topic, key, id, h);
    forall name
      ensures Get(r.headers, name) == if name == HEADER_ID then Some(id)
                                      else if name == HEADER_COORDINATOR_ID then Some(c.self)
                                      else if name == HEADER_KEY then Some(key)
                                      else if name == HEADER_TOPIC then Some(topic)
                                      else Get(h, name)
    {
      RedirectHeadersRead(c, h, topic, key, name);
    }
  }

  lemma TombstoneIs(c: Setting, topic: string, key: string, id: string, h: seq<Header>)
    ensures IsRecord(Tombstone(c, topic, key, id, h), c.self, topic, key, id, h)
  {
    var r := Tombstone(c, topic, key, id, h);
    forall name
      ensures Get(r.headers, name) == if name == HEADER_ID then Some(id)
                                      else if name == HEADER_COORDINATOR_ID then Some(c.self)
                                      else if name == HEADER_KEY then Some(key)
                                      else if name == HEADER_TOPIC then Some(topic)
                                      else Get(h, name)
    {
      RedirectHeadersRead(c, h, topic, key, name);
      PutGet(RedirectHeaders(c, h, topic, key), HEADER_ID, id, name);
    }
  }

  // ---------------------------------------------------------------- acquiring

  lemma LockHeadersRead(c: Setting, w: World, topic: string, headers: seq<Header>, name: string)
    ensures Get(LockHeaders(c, w, topic, headers), name) ==
            if name == HEADER_ID then Some(Get(headers, HEADER_ID).GetOr(c.mint(w.minted)))
            else if name == HEADER_TOPIC then Some(Get(headers, HEADER_TOPIC).GetOr(topic))
            else Get(headers, name)
  {
    var h1 := if Get(headers, HEADER_ID).Some? then headers else Put(headers, HEADER_ID, c.mint(w.minted));
    PutGet(headers, HEADER_ID, c.mint(w.minted), name);
    PutGet(headers, HEADER_ID, c.mint(w.minted), HEADER_TOPIC);
    PutGet(h1, HEADER_TOPIC, topic, name);
  }

  /** The message ends up with a lock id, drawn unless it had one, and an original topic; its
      other headers read as before. */
  lemma AcquireMarks(c: Setting, w: World, topic: string, key: string, headers: seq<Header>, name: string)
    requires Canonical(w.table)
    ensures var (w', h, _) := AcquireOutcome(c, w, topic, key, headers);
            && w'.minted == w.minted + (if Get(headers, "id").Some? then 0 else 1)
            && Get(h, name) == (if name == "id" then Some(Get(headers, "id").GetOr(c.mint(w.minted)))
                                else if name == "topic" then Some(Get(headers, "topic").GetOr(topic))
                                else Get(headers, name))
  {
    LockHeadersRead(c, w, topic, headers, name);
  }

  /** It succeeds if and only if one of three calls works. Then the key is counted once more,
      and exactly one record has been written, with the lock id as key and as payload. If not,
      nothing has been written, and the table is what it was exactly when the message named no
      other topic. */
  lemma AcquireExactly(c: Setting, w: World, topic: string, key: string, headers: seq<Header>)
    requires Canonical(w.table)
    ensures var (w', h, ok) := AcquireOutcome(c, w, topic, key, headers);
            var id := Get(headers, "id").GetOr(c.mint(w.minted));
            && (ok <==> SomeCallWorks(c.outcome, w.wire.calls, 3))
            && w'.wire.calls <= w.wire.calls + 3
            && if ok then
                 && w'.table == Increment(w.table, topic, key)
                 && exists r :: Written(c.outcome, w.wire, w'.wire, r) && r.payload == Some(id)
                                && IsRecord(r, c.self, topic, key, id, h)
               else
                 && w'.wire == Wire(w.wire.sent, w.wire.calls + 3)
                 && (w'.table == w.table <==> Get(headers, "topic").GetOr(topic) == topic)
  {
    var (w', h, ok) := AcquireOutcome(c, w, topic, key, headers);
    var id := Get(headers, HEADER_ID).GetOr(c.mint(w.minted));
    var r := LockRecord(c, topic, key, id, h);
    LockHeadersRead(c, w, topic, headers, HEADER_ID);
    LockHeadersRead(c, w, topic, headers, HEADER_TOPIC);
    ProducesOnce(c.outcome, w.wire, r, PRODUCE_ATTEMPTS);
    LockRecordIs(c, topic, key, id, h);
    if ok {
      assert Written(c.outcome, w.wire, w'.wire, r);
    } else {
      TakenBack(w.table, topic, key, Get(headers, HEADER_TOPIC).GetOr(topic));
    }
  }

  /** Uncounting under another topic than was counted is not taking back. */
  lemma TakenBack(table: Table, topic: string, key: string, other: string)
    requires Canonical(table)
    ensures Decrement(Increment(table, topic, key), other, key) == table <==> other == topic
  {
    var t := Decrement(Increment(table, topic, key), other, key);
    CountNonNegative(table, topic, key);
    if other == topic {
      CanonicalUnique(t, table);
    } else {
      assert Count(t, topic, key) == Count(table, topic, key) + 1;
    }
  }

  // ---------------------------------------------------------------- releasing

  /** Without a lock id or an original topic nothing happens. Otherwise it succeeds if and only
      if one of three calls works. Then the key is counted once less, and exactly one tombstone
      has been written under the lock id. If not, nothing has been written, and the table is
      what it was exactly when the key was locked. */
  lemma ReleaseExactly(c: Setting, w: World, key: string, headers: seq<Header>)
    requires Canonical(w.table)
    ensures var (w', ok) := ReleaseOutcome(c, w, key, headers);
            if Get(headers, "id") == None || Get(headers, "topic") == None then w' == w && !ok
            else
              var id, topic := Get(headers, "id").value, Get(headers, "topic").value;
              && (ok <==> SomeCallWorks(c.outcome, w.wire.calls, 3))
              && w'.minted == w.minted
              && if ok then
                   && w'.table == Decrement(w.table, topic, key)
                   && exists r :: Written(c.outcome, w.wire, w'.wire, r) && r.payload == None
                                  && IsRecord(r, c.self, topic, key, id, headers)
                 else
                   && w'.wire == Wire(w.wire.sent, w.wire.calls + 3)
                   && (w'.table == w.table <==> Count(w.table, topic, key) > 0)
  {
    if Get(headers, HEADER_ID).Some? && Get(headers, HEADER_TOPIC).Some? {
      var (w', ok) := ReleaseOutcome(c, w, key, headers);
      var id, topic := Get(headers, HEADER_ID).value, Get(headers, HEADER_TOPIC).value;
      var r := Tombstone(c, topic, key, id, headers);
      ProducesOnce(c.outcome, w.wire, r, PRODUCE_ATTEMPTS);
      TombstoneIs(c, topic, key, id, headers);
      if ok {
        assert Written(c.outcome, w.wire, w'.wire, r);
      } else {
        CountedAgain(w.table, topic, key);
      }
    }
  }

  /** Counting again what was not counted leaves one too many. */
  lemma CountedAgain(table: Table, topic: string, key: string)
    requires Canonical(table)
    ensures Increment(Decrement(table, topic, key), topic, key) == table <==> Count(table, topic, key) > 0
  {
    var t := Increment(Decrement(table, topic, key), topic, key);
    CountNonNegative(table, topic, key);
    if Count(table, topic, key) > 0 {
      CanonicalUnique(t, table);
    } else {
      assert Count(t, topic, key) == 1;
    }
  }

  // ---------------------------------------------------------------- records as received

  /** A record is refused if and only if another coordinator wrote it and it does not name a
      business key. */
  lemma RefusedExactly(self: string, table: Table, m: Message)
    requires Canonical(table)
    ensures ProcessRedirect(self, table, m).Rejected? <==>
            && Get(m.headers, "x-coordinator-id") != Some(self)
            && ("topic" !in KeysOf(m.headers) || "key" !in KeysOf(m.headers))
  {
    NamedIsFound(m.headers, HEADER_TOPIC);
    NamedIsFound(m.headers, HEADER_KEY);
  }

  lemma NamedIsFound(l: seq<Header>, name: string)
    ensures Get(l, name).Some? <==> name in KeysOf(l)
    ensures ToMap(l).Keys == KeysOf(l)
    ensures Get(Copy(l), name) == if name in KeysOf(l) then Some(ToMap(l)[name]) else None
  {
    CopyMeaning(l);
    ToMapMeaning(l);
    var i := Find(l, name);
    if i < |l| {
      assert l[i].key in KeysOf(l);
    }
  }

  /** What one that is not refused does to every count. One's own does nothing. A lock record
      adds a lock to the business key its headers name first. A tombstone takes one off the
      record's own key, under the topic its headers name last, if it had one. */
  lemma ReceivedExactly(self: string, table: Table, m: Message, t: string, k: string)
    requires Canonical(table) && ProcessRedirect(self, table, m).Applied?
    ensures var before, after := Count(table, t, k), Count(ProcessRedirect(self, table, m).table, t, k);
            if Get(m.headers, "x-coordinator-id") == Some(self) then after == before
            else if m.payload.Some? then
              after == before + if Get(m.headers, "topic") == Some(t) && Get(m.headers, "key") == Some(k) then 1 else 0
            else
              && "topic" in ToMap(m.headers)
              && after == before - if t == ToMap(m.headers)["topic"] && k == m.key && before > 0 then 1 else 0
  {
    NamedIsFound(m.headers, HEADER_TOPIC);
    NamedIsFound(m.headers, HEADER_KEY);
    CountNonNegative(table, t, k);
  }
}
