/** The coordinator's calls, on real headers, table and producer script, are walks of the
    N-instance machine: acquiring and releasing take two steps, receiving a record one. */
module ClusterRefinement {
  import opened Headers
  import opened LockTable
  import opened LocalCoordinator
  import opened Messaging
  import opened Coordinator
  import opened RedirectLog
  import opened Agreement
  import C = Cluster

  /** Instance `env.self` has the coordinator's table, and every instance a proper one. */
  ghost predicate Runs(s: C.State, env: Setting, w: World) {
    && env.self in s.instances && s.instances[env.self].table == w.table
    && forall i | i in s.instances :: Canonical(s.instances[i].table)
  }

  /** After the walk: the instance has the coordinator's new table, the log has what the
      coordinator published to the redirect topic of `topic`, which is all it published, and
      nothing else of any instance has changed. */
  ghost predicate Arrived(s: C.State, s': C.State, env: Setting, w: World, w': World, topic: string) {
    && Runs(s, env, w)
    && s'.instances == s.instances[env.self := s.instances[env.self].(table := w'.table)]
    && var log, log' := Log(w.wire.sent, topic), Log(w'.wire.sent, topic);
       |log| <= |log'| && |log'| - |log| == |w'.wire.sent| - |w.wire.sent| && s'.log == s.log + log'[|log|..]
  }

  ghost predicate TwoSteps(c: C.Config, s: C.State, a: C.Action, b: C.Action, s': C.State) {
    exists s1 :: C.Next(c, s, a, s1) && C.Next(c, s1, b, s')
  }

  ghost predicate Tables(s: C.State) {
    forall i | i in s.instances :: Canonical(s.instances[i].table)
  }

  /** Counting locally, then publishing the lock record or rolling back. */
  lemma AcquireSteps(c: C.Config, s: C.State, i: string, id: string, lock: C.Lock, ok: bool) returns (s': C.State)
    requires Tables(s) && C.Enabled(c, s, C.AcquireLocally(i, id, lock)) && id !in s.instances[i].acquiring
    ensures TwoSteps(c, s, C.AcquireLocally(i, id, lock),
                     if ok then C.PublishLock(i, id) else C.RollBackAcquire(i, id), s')
    ensures var t := Increment(s.instances[i].table, lock.topic, lock.key);
            && s'.instances == s.instances[i := s.instances[i].(
                 table := if ok then t else Decrement(t, lock.topic, lock.key))]
            && s'.log == s.log + if ok then [Record(id, lock.topic, lock.key, i, false)] else []
  {
    var a := C.AcquireLocally(i, id, lock);
    var s1 := C.Step(c, s, a);
    var b := if ok then C.PublishLock(i, id) else C.RollBackAcquire(i, id);
    s' := C.Step(c, s1, b);
    assert C.Next(c, s, a, s1) && C.Next(c, s1, b, s');
    assert s1.instances[i].acquiring - {id} == s.instances[i].acquiring;
  }

  /** Uncounting locally, then publishing the tombstone or rolling back. */
  lemma ReleaseSteps(c: C.Config, s: C.State, i: string, id: string, ok: bool) returns (s': C.State)
    requires Tables(s) && C.Enabled(c, s, C.ReleaseLocally(i, id))
    ensures TwoSteps(c, s, C.ReleaseLocally(i, id),
                     if ok then C.PublishTombstone(i, id) else C.RollBackRelease(i, id), s')
    ensures var lock := s.locks[id];
            var t := Decrement(s.instances[i].table, lock.topic, lock.key);
            && s'.instances == s.instances[i := s.instances[i].(
                 table := if ok then t else Increment(t, lock.topic, lock.key))]
            && s'.log == s.log + if ok then [Record(id, lock.topic, lock.key, i, true)] else []
  {
    var a := C.ReleaseLocally(i, id);
    var s1 := C.Step(c, s, a);
    var b := if ok then C.PublishTombstone(i, id) else C.RollBackRelease(i, id);
    s' := C.Step(c, s1, b);
    assert C.Next(c, s, a, s1) && C.Next(c, s1, b, s');
    assert s1.instances[i].releasing - {id} == s.instances[i].releasing;
  }

  /** The coordinator's acquire is such a walk of its instance. */
  lemma AcquireIsAWalk(c: C.Config, env: Setting, s: C.State, w: World, topic: string, key: string, h: seq<Header>)
    returns (s': C.State)
    requires Runs(s, env, w) && Get(h, HEADER_TOPIC).GetOr(topic) == topic
    requires var id := Get(h, HEADER_ID).GetOr(env.mint(w.minted));
             && C.Enabled(c, s, C.AcquireLocally(env.self, id, C.Lock(topic, key)))
             && id !in s.instances[env.self].acquiring
    ensures var id := Get(h, HEADER_ID).GetOr(env.mint(w.minted));
            var (w', _, ok) := AcquireOutcome(env, w, topic, key, h);
            && Arrived(s, s', env, w, w', topic)
            && TwoSteps(c, s, C.AcquireLocally(env.self, id, C.Lock(topic, key)),
                        if ok then C.PublishLock(env.self, id) else C.RollBackAcquire(env.self, id), s')
  {
    var id := Get(h, HEADER_ID).GetOr(env.mint(w.minted));
    AcquireShape(env, w, topic, key, h);
    LockRecordLogged(env, w.wire.sent, topic, key, id, LockHeaders(env, w, topic, h));
    var r := AcquireOutcome(env, w, topic, key, h);
    s' := AcquireSteps(c, s, env.self, id, C.Lock(topic, key), r.2);
  }

  /** And so is its release, also of a lock that another coordinator took. */
  lemma ReleaseIsAWalk(c: C.Config, env: Setting, s: C.State, w: World, topic: string, key: string, h: seq<Header>)
    returns (s': C.State)
    requires Runs(s, env, w) && Get(h, HEADER_TOPIC) == Some(topic) && Get(h, HEADER_ID).Some?
    requires var id := Get(h, HEADER_ID).value;
             C.Enabled(c, s, C.ReleaseLocally(env.self, id)) && s.locks[id] == C.Lock(topic, key)
    ensures var id := Get(h, HEADER_ID).value;
            var (w', ok) := ReleaseOutcome(env, w, key, h);
            && Arrived(s, s', env, w, w', topic)
            && TwoSteps(c, s, C.ReleaseLocally(env.self, id),
                        if ok then C.PublishTombstone(env.self, id) else C.RollBackRelease(env.self, id), s')
  {
    var id := Get(h, HEADER_ID).value;
    ReleaseShape(env, w, topic, key, h);
    TombstoneLogged(env, w.wire.sent, topic, key, id, h);
    var r := ReleaseOutcome(env, w, key, h);
    s' := ReleaseSteps(c, s, env.self, id, r.1);
  }

  /** Receiving a record some coordinator wrote is its delivery, in the code's reading. */
  lemma ReceivingIsDelivery(c: C.Config, env: Setting, s: C.State, w: World, m: Sent, topicName: string, n: nat)
    requires Runs(s, env, w) && c.mode == ByRecordKey
    requires C.Enabled(c, s, C.Deliver(env.self, n)) && s.log[n] == ToRecord(m)
    requires m.to.Redirect? && NoDup(m.headers)
    requires Get(m.headers, HEADER_TOPIC).Some? && Get(m.headers, HEADER_KEY).Some?
    requires Get(m.headers, HEADER_COORDINATOR_ID).Some?
    ensures var inst := C.Step(c, s, C.Deliver(env.self, n)).instances[env.self];
            ProcessRedirect(env.self, w.table, Message(topicName, m.key, m.payload, m.headers))
            == Coordinator.Applied(inst.table)
  {
    ReceivedAsWritten(env.self, w.table, topicName, m);
  }
}
