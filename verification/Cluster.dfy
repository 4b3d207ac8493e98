/** N coordinators sharing one redirect topic: every interleaving of their local updates,
    publications, rollbacks and deliveries. */
module Cluster {
  import opened LockTable
  import opened RedirectLog

  datatype Lock = Lock(topic: string, key: string)

  /** One coordinator. `seen` are the positions of the log it has consumed; `acquiring` the
      ids counted locally whose lock record is not yet published; `releasing` those already
      uncounted whose tombstone is not yet published. */
  datatype Instance = Instance(table: Table, seen: set<nat>, acquiring: set<string>, releasing: set<string>)

  /** The records of all partitions in the order they were written. `locks` remembers the
      business key every lock id was created for. */
  datatype State = State(log: seq<Record>, instances: map<string, Instance>, locks: map<string, Lock>)

  /** How tombstones are read, and the producer's partitioner, a function of the record key. */
  datatype Config = Config(mode: ReleaseKey, partition: string -> nat)

  datatype Action =
    | Start(i: string)
    | AcquireLocally(i: string, id: string, lock: Lock)
    | PublishLock(i: string, id: string)
    | RollBackAcquire(i: string, id: string)
    | ReleaseLocally(i: string, id: string)
    | PublishTombstone(i: string, id: string)
    | RollBackRelease(i: string, id: string)
    | Deliver(i: string, n: nat)

  // ---------------------------------------------------------------- what an instance holds

  /** Ids of the records of one kind that `i` wrote. */
  function Own(log: seq<Record>, i: string, tombstone: bool): set<string> {
    set n | 0 <= n < |log| && log[n].origin == i && log[n].tombstone == tombstone :: log[n].id
  }

  /** Ids of the records of one kind that `i` consumed and others wrote. */
  function Foreign(log: seq<Record>, seen: set<nat>, i: string, tombstone: bool): set<string> {
    set n | n in seen && n < |log| && log[n].origin != i && log[n].tombstone == tombstone :: log[n].id
  }

  function IdsOfKind(log: seq<Record>, tombstone: bool): set<string> {
    set n | 0 <= n < |log| && log[n].tombstone == tombstone :: log[n].id
  }

  /** Ids the instance created (and did not roll back) or whose lock record it has consumed. */
  function Known(log: seq<Record>, i: string, inst: Instance): set<string> {
    inst.acquiring + Own(log, i, false) + Foreign(log, inst.seen, i, false)
  }

  /** Ids the instance has taken off its table again: the ones it is releasing or has
      released, and, in the documented reading, those whose tombstone it has consumed. */
  function Removed(mode: ReleaseKey, log: seq<Record>, i: string, inst: Instance): set<string> {
    inst.releasing + Own(log, i, true) +
    if mode == ByBusinessKey then Foreign(log, inst.seen, i, true) else {}
  }

  function Held(mode: ReleaseKey, log: seq<Record>, i: string, inst: Instance): set<string> {
    Known(log, i, inst) - Removed(mode, log, i, inst)
  }

  /** The members of `ids` created for one business key. */
  function For(ids: set<string>, locks: map<string, Lock>, topic: string, key: string): set<string> {
    set id | id in ids && id in locks && locks[id] == Lock(topic, key)
  }

  /** Ids whose lock record is published and whose tombstone is not. */
  function OutstandingIds(log: seq<Record>): set<string> {
    IdsOfKind(log, false) - IdsOfKind(log, true)
  }

  // ---------------------------------------------------------------- steps

  ghost predicate Init(s: State) {
    s == State([], map[], map[])
  }

  /** The discipline: ids are fresh and never business keys; an id is released by one instance
      at a time, until that succeeds, and only by an instance that published its lock record
      or consumed it; partitions are consumed in order. */
  ghost predicate Enabled(c: Config, s: State, a: Action) {
    match a
    case Start(i) => i !in s.instances
    case AcquireLocally(i, id, lock) =>
      && i in s.instances && id !in s.locks && lock.key !in s.locks && lock.key != id
      && forall other | other in s.locks :: s.locks[other].key != id
    case PublishLock(i, id) => i in s.instances && id in s.instances[i].acquiring && id in s.locks
    case RollBackAcquire(i, id) => i in s.instances && id in s.instances[i].acquiring && id in s.locks
    case ReleaseLocally(i, id) =>
      && i in s.instances && id in s.locks
      && id in Known(s.log, i, s.instances[i]) - s.instances[i].acquiring
      && id !in IdsOfKind(s.log, true)
      && forall j | j in s.instances :: id !in s.instances[j].releasing
    case PublishTombstone(i, id) => i in s.instances && id in s.instances[i].releasing && id in s.locks
    case RollBackRelease(i, id) => i in s.instances && id in s.instances[i].releasing && id in s.locks
    case Deliver(i, n) =>
      && i in s.instances && n < |s.log| && n !in s.instances[i].seen
      && forall m | 0 <= m < n && c.partition(s.log[m].id) == c.partition(s.log[n].id) :: m in s.instances[i].seen
  }

  function Update(s: State, i: string, inst: Instance): State {
    s.(instances := s.instances[i := inst])
  }

  function Publish(s: State, i: string, inst: Instance, id: string, tombstone: bool): State
    requires id in s.locks
  {
    Update(s, i, inst).(log := s.log + [Record(id, s.locks[id].topic, s.locks[id].key, i, tombstone)])
  }

  ghost function Step(c: Config, s: State, a: Action): State
    requires Enabled(c, s, a) && forall i | i in s.instances :: Canonical(s.instances[i].table)
  {
    match a
    case Start(i) => Update(s, i, Instance(map[], {}, {}, {}))
    case AcquireLocally(i, id, lock) =>
      var inst := s.instances[i];
      Update(s.(locks := s.locks[id := lock]), i,
             inst.(table := Increment(inst.table, lock.topic, lock.key), acquiring := inst.acquiring + {id}))
    case PublishLock(i, id) =>
      var inst := s.instances[i];
      Publish(s, i, inst.(acquiring := inst.acquiring - {id}), id, false)
    case RollBackAcquire(i, id) =>
      var inst := s.instances[i];
      Update(s, i, inst.(table := Decrement(inst.table, s.locks[id].topic, s.locks[id].key),
                         acquiring := inst.acquiring - {id}))
    case ReleaseLocally(i, id) =>
      var inst := s.instances[i];
      Update(s, i, inst.(table := Decrement(inst.table, s.locks[id].topic, s.locks[id].key),
                         releasing := inst.releasing + {id}))
    case PublishTombstone(i, id) =>
      var inst := s.instances[i];
      Publish(s, i, inst.(releasing := inst.releasing - {id}), id, true)
    case RollBackRelease(i, id) =>
      var inst := s.instances[i];
      Update(s, i, inst.(table := Increment(inst.table, s.locks[id].topic, s.locks[id].key),
                         releasing := inst.releasing - {id}))
    case Deliver(i, n) =>
      var inst := s.instances[i];
      Update(s, i, inst.(table := Consume(c.mode, i, inst.table, s.log[n]), seen := inst.seen + {n}))
  }

  // ---------------------------------------------------------------- the invariant

  /** Records name known ids with their business key and come from known instances; ids and
      business keys are kept apart. */
  ghost predicate Registered(s: State) {
    && (forall n | 0 <= n < |s.log| ::
          && s.log[n].id in s.locks && s.log[n].origin in s.instances
          && s.locks[s.log[n].id] == Lock(s.log[n].topic, s.log[n].key))
    && (forall a, b | a in s.locks && b in s.locks :: s.locks[a].key != b)
  }

  /** Every id is locked at most once, and released at most once and only after that. */
  ghost predicate Ordered(log: seq<Record>) {
    && (forall m, n | 0 <= m < n < |log| && log[m].id == log[n].id :: !log[m].tombstone && log[n].tombstone)
    && (forall n | 0 <= n < |log| && log[n].tombstone :: exists m | 0 <= m < n :: log[m].id == log[n].id)
  }

  /** Ids whose lock record the instance wrote or consumed. */
  function Recorded(log: seq<Record>, i: string, inst: Instance): set<string> {
    Own(log, i, false) + Foreign(log, inst.seen, i, false)
  }

  /** An id being acquired has no record yet; an id being released has no tombstone yet; the
      instance has the lock record of every id it is releasing or has released. */
  ghost predicate Pending(log: seq<Record>, locks: map<string, Lock>, i: string, inst: Instance) {
    && Own(log, i, true) <= Recorded(log, i, inst)
    && (forall id | id in inst.acquiring :: id in locks && id !in Ids(log))
    && (forall id | id in inst.releasing ::
          id in locks && id !in IdsOfKind(log, true) && id in Recorded(log, i, inst))
  }

  ghost predicate Disjoint(s: State) {
    forall i, j | i in s.instances && j in s.instances && i != j ::
      && s.instances[i].acquiring !! s.instances[j].acquiring
      && s.instances[i].releasing !! s.instances[j].releasing
  }

  /** What is consumed is a prefix of every partition. */
  ghost predicate PrefixSeen(c: Config, log: seq<Record>, seen: set<nat>) {
    && (forall n | n in seen :: n < |log|)
    && (forall m, n | n in seen && 0 <= m < n < |log| && c.partition(log[m].id) == c.partition(log[n].id) :: m in seen)
  }

  /** The table counts, for every business key, the ids of that key in `held`. */
  ghost predicate Agree(table: Table, held: set<string>, locks: map<string, Lock>) {
    && Canonical(table)
    && forall t, k :: Count(table, t, k) == |For(held, locks, t, k)|
  }

  ghost predicate InstanceOk(c: Config, log: seq<Record>, locks: map<string, Lock>, i: string, inst: Instance) {
    && Pending(log, locks, i, inst)
    && PrefixSeen(c, log, inst.seen)
    && Agree(inst.table, Held(c.mode, log, i, inst), locks)
  }

  ghost predicate Valid(c: Config, s: State) {
    && Registered(s) && Ordered(s.log) && Disjoint(s)
    && forall i | i in s.instances :: InstanceOk(c, s.log, s.locks, i, s.instances[i])
  }

  // ---------------------------------------------------------------- counting

  lemma ForAdd(held: set<string>, locks: map<string, Lock>, id: string, topic: string, key: string)
    requires id in locks
    ensures For(held + {id}, locks, topic, key)
         == For(held, locks, topic, key) + if locks[id] == Lock(topic, key) then {id} else {}
    ensures For(held - {id}, locks, topic, key)
         == For(held, locks, topic, key) - if locks[id] == Lock(topic, key) then {id} else {}
  {
  }

  lemma AgreeAdd(table: Table, held: set<string>, locks: map<string, Lock>, id: string)
    requires Agree(table, held, locks) && id in locks && id !in held
    ensures Agree(Increment(table, locks[id].topic, locks[id].key), held + {id}, locks)
  {
    var table' := Increment(table, locks[id].topic, locks[id].key);
    forall t, k ensures Count(table', t, k) == |For(held + {id}, locks, t, k)| {
      ForAdd(held, locks, id, t, k);
      assert id !in For(held, locks, t, k);
    }
  }

  lemma AgreeRemove(table: Table, held: set<string>, locks: map<string, Lock>, id: string)
    requires Agree(table, held, locks) && id in locks && id in held
    ensures Agree(Decrement(table, locks[id].topic, locks[id].key), held - {id}, locks)
  {
    var table' := Decrement(table, locks[id].topic, locks[id].key);
    forall t, k ensures Count(table', t, k) == |For(held - {id}, locks, t, k)| {
      ForAdd(held, locks, id, t, k);
      assert id in For(held, locks, t, k) <==> locks[id] == Lock(t, k);
      assert Count(table, t, k) == |For(held, locks, t, k)|;
    }
  }

  lemma AgreeNewLock(table: Table, held: set<string>, locks: map<string, Lock>, id: string, lock: Lock)
    requires Agree(table, held, locks) && id !in held
    ensures Agree(table, held, locks[id := lock])
  {
    forall t, k ensures For(held, locks[id := lock], t, k) == For(held, locks, t, k) {}
  }

  // ---------------------------------------------------------------- the log grows

  lemma KindsGrow(log: seq<Record>, r: Record)
    ensures forall b :: IdsOfKind(log + [r], b) == IdsOfKind(log, b) + if r.tombstone == b then {r.id} else {}
    ensures Ids(log + [r]) == Ids(log) + {r.id}
  {
    var log' := log + [r];
    assert log'[|log|] == r;
    assert forall n | 0 <= n < |log| :: log'[n] == log[n];
  }

  lemma OwnGrows(log: seq<Record>, r: Record, i: string, b: bool)
    ensures Own(log + [r], i, b) == Own(log, i, b) + if r.origin == i && r.tombstone == b then {r.id} else {}
  {
    var log' := log + [r];
    assert log'[|log|] == r;
    assert forall n | 0 <= n < |log| :: log'[n] == log[n];
  }

  lemma ForeignUnmoved(log: seq<Record>, r: Record, seen: set<nat>, i: string, b: bool)
    requires forall n | n in seen :: n < |log|
    ensures Foreign(log + [r], seen, i, b) == Foreign(log, seen, i, b)
  {
    assert forall n | n in seen :: (log + [r])[n] == log[n];
  }

  lemma ForeignGrows(log: seq<Record>, n: nat, seen: set<nat>, i: string, b: bool)
    requires n < |log|
    ensures Foreign(log, seen + {n}, i, b) == Foreign(log, seen, i, b) +
            if log[n].origin != i && log[n].tombstone == b then {log[n].id} else {}
  {
  }

  lemma Kinds(log: seq<Record>, seen: set<nat>, i: string)
    requires Ordered(log)
    ensures forall b :: Own(log, i, b) <= IdsOfKind(log, b) && Foreign(log, seen, i, b) <= IdsOfKind(log, b)
    ensures IdsOfKind(log, true) <= IdsOfKind(log, false)
    ensures Ids(log) == IdsOfKind(log, false)
  {
  }

  /** A new record keeps the order when a lock is the first record of its id and a tombstone
      the second. */
  lemma OrderedGrows(log: seq<Record>, r: Record)
    requires Ordered(log)
    requires if r.tombstone then r.id in IdsOfKind(log, false) - IdsOfKind(log, true) else r.id !in Ids(log)
    ensures Ordered(log + [r])
  {
    var log' := log + [r];
    assert log'[|log|] == r && forall n | 0 <= n < |log| :: log'[n] == log[n];
    forall m, n | 0 <= m < n < |log'| && log'[m].id == log'[n].id
      ensures !log'[m].tombstone && log'[n].tombstone
    {
      if n == |log| {
        assert log[m].id in Ids(log);
      }
    }
    forall n | 0 <= n < |log'| && log'[n].tombstone ensures exists m | 0 <= m < n :: log'[m].id == log'[n].id {
      var m :| 0 <= m < n && m < |log| && log[m].id == log'[n].id;
      assert log'[m].id == log'[n].id;
    }
  }

  // ---------------------------------------------------------------- each step keeps the invariant

  /** Only one instance changes, not the log. */
  lemma UpdateKeeps(c: Config, s: State, i: string, inst: Instance)
    requires Valid(c, s) && i in s.instances
    requires InstanceOk(c, s.log, s.locks, i, inst)
    requires forall j | j in s.instances && j != i ::
               inst.acquiring !! s.instances[j].acquiring && inst.releasing !! s.instances[j].releasing
    ensures Valid(c, Update(s, i, inst))
  {
  }

  lemma StartKeeps(c: Config, s: State, i: string)
    requires Valid(c, s) && i !in s.instances
    ensures Valid(c, Update(s, i, Instance(map[], {}, {}, {})))
  {
    assert Own(s.log, i, false) == {} && Own(s.log, i, true) == {};
    StartsEmpty(c, s.log, s.locks, i);
  }

  lemma StartsEmpty(c: Config, log: seq<Record>, locks: map<string, Lock>, i: string)
    requires Own(log, i, false) == {} && Own(log, i, true) == {}
    ensures InstanceOk(c, log, locks, i, Instance(map[], {}, {}, {}))
  {
    assert Held(c.mode, log, i, Instance(map[], {}, {}, {})) == {};
    forall t, k ensures For({}, locks, t, k) == {} {}
  }

  /** Registering a new id for a business key changes nobody's counts. */
  lemma NewLockKeeps(c: Config, s: State, i: string, id: string, lock: Lock)
    requires Valid(c, s) && Enabled(c, s, AcquireLocally(i, id, lock))
    ensures Valid(c, s.(locks := s.locks[id := lock]))
  {
    RegisteredNewLock(s, id, lock);
    forall j | j in s.instances ensures InstanceOk(c, s.log, s.locks[id := lock], j, s.instances[j]) {
      NewLockKeepsInstance(c, s.log, s.locks, j, s.instances[j], id, lock);
    }
  }

  lemma RegisteredNewLock(s: State, id: string, lock: Lock)
    requires Registered(s) && id !in s.locks && lock.key !in s.locks && lock.key != id
    requires forall other | other in s.locks :: s.locks[other].key != id
    ensures Registered(s.(locks := s.locks[id := lock])) && id !in Ids(s.log)
  {
  }

  lemma NewLockKeepsInstance(c: Config, log: seq<Record>, locks: map<string, Lock>, j: string, inst: Instance,
                             id: string, lock: Lock)
    requires InstanceOk(c, log, locks, j, inst) && id !in Ids(log) && id !in locks
    ensures InstanceOk(c, log, locks[id := lock], j, inst)
  {
    assert id !in Held(c.mode, log, j, inst) by {
      OwnWithin(log, inst.seen, j);
    }
    AgreeNewLock(inst.table, Held(c.mode, log, j, inst), locks, id, lock);
  }

  lemma OwnWithin(log: seq<Record>, seen: set<nat>, i: string)
    ensures forall b :: Own(log, i, b) <= Ids(log) && Foreign(log, seen, i, b) <= Ids(log)
  {
  }

  /** Marking a recorded, unreleased id as being released loses it; unmarking gives it back. */
  lemma HeldAndReleasing(mode: ReleaseKey, log: seq<Record>, i: string, inst: Instance, id: string)
    requires Ordered(log) && id in Recorded(log, i, inst) && id !in IdsOfKind(log, true)
    ensures Held(mode, log, i, inst.(releasing := inst.releasing - {id})) == Held(mode, log, i, inst) + {id}
    ensures Held(mode, log, i, inst.(releasing := inst.releasing + {id})) == Held(mode, log, i, inst) - {id}
  {
    var known, removed := Known(log, i, inst), Removed(mode, log, i, inst);
    var back, gone := inst.(releasing := inst.releasing - {id}), inst.(releasing := inst.releasing + {id});
    assert id in known && Known(log, i, back) == known && Known(log, i, gone) == known;
    assert id !in Own(log, i, true) && id !in Foreign(log, inst.seen, i, true);
    assert Removed(mode, log, i, back) == removed - {id};
    assert Removed(mode, log, i, gone) == removed + {id};
  }

  /** An id without a record is held exactly while it is being acquired. */
  lemma HeldAndAcquiring(mode: ReleaseKey, log: seq<Record>, i: string, inst: Instance, id: string)
    requires id !in Ids(log) && id !in inst.releasing
    ensures Held(mode, log, i, inst.(acquiring := inst.acquiring - {id})) == Held(mode, log, i, inst) - {id}
    ensures Held(mode, log, i, inst.(acquiring := inst.acquiring + {id})) == Held(mode, log, i, inst) + {id}
  {
    OwnWithin(log, inst.seen, i);
    var known, removed := Known(log, i, inst), Removed(mode, log, i, inst);
    var less, more := inst.(acquiring := inst.acquiring - {id}), inst.(acquiring := inst.acquiring + {id});
    assert id !in removed;
    assert Known(log, i, less) == known - {id} && Known(log, i, more) == known + {id};
    assert Removed(mode, log, i, less) == removed && Removed(mode, log, i, more) == removed;
  }

  /** The table is not part of what is held. */
  lemma TableIrrelevant(mode: ReleaseKey, log: seq<Record>, i: string, inst: Instance, table: Table)
    ensures Held(mode, log, i, inst.(table := table)) == Held(mode, log, i, inst)
  {
  }

  /** One id enters or leaves an instance's holdings, and its table follows. */
  lemma ChangeAgrees(c: Config, log: seq<Record>, locks: map<string, Lock>, i: string,
                     inst: Instance, inst': Instance, id: string, enters: bool)
    requires InstanceOk(c, log, locks, i, inst) && id in locks
    requires inst'.seen == inst.seen && Pending(log, locks, i, inst')
    requires var held := Held(c.mode, log, i, inst);
             (id in held) == !enters &&
             Held(c.mode, log, i, inst') == if enters then held + {id} else held - {id}
    requires inst'.table == if enters then Increment(inst.table, locks[id].topic, locks[id].key)
                            else Decrement(inst.table, locks[id].topic, locks[id].key)
    ensures InstanceOk(c, log, locks, i, inst')
  {
    var held := Held(c.mode, log, i, inst);
    if enters {
      AgreeAdd(inst.table, held, locks, id);
    } else {
      AgreeRemove(inst.table, held, locks, id);
    }
  }

  lemma AcquireKeeps(c: Config, s: State, i: string, id: string, lock: Lock)
    requires Valid(c, s) && Enabled(c, s, AcquireLocally(i, id, lock))
    ensures Valid(c, Step(c, s, AcquireLocally(i, id, lock)))
  {
    NewLockKeeps(c, s, i, id, lock);
    var s1, inst := s.(locks := s.locks[id := lock]), s.instances[i];
    var inst' := inst.(table := Increment(inst.table, lock.topic, lock.key), acquiring := inst.acquiring + {id});
    assert id !in Ids(s.log);
    assert id !in inst.acquiring;
    AcquireAgrees(c, s1.log, s1.locks, i, inst, inst', id);
    UpdateKeeps(c, s1, i, inst');
  }

  lemma AcquireAgrees(c: Config, log: seq<Record>, locks: map<string, Lock>, i: string,
                      inst: Instance, inst': Instance, id: string)
    requires Ordered(log) && InstanceOk(c, log, locks, i, inst)
    requires id in locks && id !in Ids(log) && id !in inst.acquiring
    requires inst' == inst.(table := Increment(inst.table, locks[id].topic, locks[id].key),
                            acquiring := inst.acquiring + {id})
    ensures InstanceOk(c, log, locks, i, inst')
  {
    Kinds(log, inst.seen, i);
    HeldAndAcquiring(c.mode, log, i, inst, id);
    TableIrrelevant(c.mode, log, i, inst.(acquiring := inst'.acquiring), inst'.table);
    ChangeAgrees(c, log, locks, i, inst, inst', id, true);
  }

  lemma RollBackAcquireKeeps(c: Config, s: State, i: string, id: string)
    requires Valid(c, s) && Enabled(c, s, RollBackAcquire(i, id))
    ensures Valid(c, Step(c, s, RollBackAcquire(i, id)))
  {
    var inst := s.instances[i];
    var inst' := inst.(table := Decrement(inst.table, s.locks[id].topic, s.locks[id].key),
                       acquiring := inst.acquiring - {id});
    RollBackAcquireAgrees(c, s.log, s.locks, i, inst, inst', id);
    UpdateKeeps(c, s, i, inst');
  }

  lemma RollBackAcquireAgrees(c: Config, log: seq<Record>, locks: map<string, Lock>, i: string,
                              inst: Instance, inst': Instance, id: string)
    requires Ordered(log) && InstanceOk(c, log, locks, i, inst)
    requires id in locks && id in inst.acquiring
    requires inst' == inst.(table := Decrement(inst.table, locks[id].topic, locks[id].key),
                            acquiring := inst.acquiring - {id})
    ensures InstanceOk(c, log, locks, i, inst')
  {
    Kinds(log, inst.seen, i);
    HeldAndAcquiring(c.mode, log, i, inst, id);
    TableIrrelevant(c.mode, log, i, inst.(acquiring := inst'.acquiring), inst'.table);
    ChangeAgrees(c, log, locks, i, inst, inst', id, false);
  }

  lemma ReleaseKeeps(c: Config, s: State, i: string, id: string)
    requires Valid(c, s) && Enabled(c, s, ReleaseLocally(i, id))
    ensures Valid(c, Step(c, s, ReleaseLocally(i, id)))
  {
    var inst := s.instances[i];
    var inst' := inst.(table := Decrement(inst.table, s.locks[id].topic, s.locks[id].key),
                       releasing := inst.releasing + {id});
    ReleaseAgrees(c, s.log, s.locks, i, inst, inst', id);
    UpdateKeeps(c, s, i, inst');
  }

  lemma ReleaseAgrees(c: Config, log: seq<Record>, locks: map<string, Lock>, i: string,
                      inst: Instance, inst': Instance, id: string)
    requires Ordered(log) && InstanceOk(c, log, locks, i, inst)
    requires id in locks && id in Known(log, i, inst) - inst.acquiring
    requires id !in IdsOfKind(log, true) && id !in inst.releasing
    requires inst' == inst.(table := Decrement(inst.table, locks[id].topic, locks[id].key),
                            releasing := inst.releasing + {id})
    ensures InstanceOk(c, log, locks, i, inst')
  {
    HeldAndReleasing(c.mode, log, i, inst, id);
    TableIrrelevant(c.mode, log, i, inst.(releasing := inst'.releasing), inst'.table);
    ChangeAgrees(c, log, locks, i, inst, inst', id, false);
  }

  lemma RollBackReleaseKeeps(c: Config, s: State, i: string, id: string)
    requires Valid(c, s) && Enabled(c, s, RollBackRelease(i, id))
    ensures Valid(c, Step(c, s, RollBackRelease(i, id)))
  {
    var inst := s.instances[i];
    var inst' := inst.(table := Increment(inst.table, s.locks[id].topic, s.locks[id].key),
                       releasing := inst.releasing - {id});
    RollBackReleaseAgrees(c, s.log, s.locks, i, inst, inst', id);
    UpdateKeeps(c, s, i, inst');
  }

  lemma RollBackReleaseAgrees(c: Config, log: seq<Record>, locks: map<string, Lock>, i: string,
                              inst: Instance, inst': Instance, id: string)
    requires Ordered(log) && InstanceOk(c, log, locks, i, inst)
    requires id in locks && id in inst.releasing
    requires inst' == inst.(table := Increment(inst.table, locks[id].topic, locks[id].key),
                            releasing := inst.releasing - {id})
    ensures InstanceOk(c, log, locks, i, inst')
  {
    HeldAndReleasing(c.mode, log, i, inst, id);
    TableIrrelevant(c.mode, log, i, inst.(releasing := inst'.releasing), inst'.table);
    ChangeAgrees(c, log, locks, i, inst, inst', id, true);
  }

  // ---------------------------------------------------------------- publishing

  /** Publishing moves the id from pending to written: nobody's holdings change. */
  lemma PublishKeepsHeld(mode: ReleaseKey, log: seq<Record>, r: Record, j: string, inst: Instance, inst': Instance)
    requires forall n | n in inst.seen :: n < |log|
    requires Published(r, j, inst, inst')
    ensures Held(mode, log + [r], j, inst') == Held(mode, log, j, inst)
  {
    OwnGrows(log, r, j, false);
    OwnGrows(log, r, j, true);
    ForeignUnmoved(log, r, inst.seen, j, false);
    ForeignUnmoved(log, r, inst.seen, j, true);
  }

  /** What writing `r` does to instance `j`. */
  ghost predicate Published(r: Record, j: string, inst: Instance, inst': Instance) {
    if r.origin != j then inst' == inst
    else if r.tombstone then r.id in inst.releasing && inst' == inst.(releasing := inst.releasing - {r.id})
    else r.id in inst.acquiring && inst' == inst.(acquiring := inst.acquiring - {r.id})
  }

  lemma PublishKeepsPending(log: seq<Record>, locks: map<string, Lock>, r: Record, j: string,
                            inst: Instance, inst': Instance)
    requires Pending(log, locks, j, inst) && Published(r, j, inst, inst')
    requires forall n | n in inst.seen :: n < |log|
    requires if r.tombstone then r.id in Ids(log) && (r.origin != j ==> r.id !in inst.releasing)
             else r.origin != j ==> r.id !in inst.acquiring
    ensures Pending(log + [r], locks, j, inst')
  {
    KindsGrow(log, r);
    OwnGrows(log, r, j, false);
    OwnGrows(log, r, j, true);
    ForeignUnmoved(log, r, inst.seen, j, false);
  }

  lemma PublishKeepsInstance(c: Config, log: seq<Record>, locks: map<string, Lock>, r: Record, j: string,
                             inst: Instance, inst': Instance)
    requires InstanceOk(c, log, locks, j, inst) && Published(r, j, inst, inst')
    requires if r.tombstone then r.id in Ids(log) && (r.origin != j ==> r.id !in inst.releasing)
             else r.origin != j ==> r.id !in inst.acquiring
    ensures InstanceOk(c, log + [r], locks, j, inst')
  {
    PublishKeepsHeld(c.mode, log, r, j, inst, inst');
    PublishKeepsPending(log, locks, r, j, inst, inst');
    assert forall n | 0 <= n < |log| :: (log + [r])[n] == log[n];
  }

  lemma PublishKeeps(c: Config, s: State, i: string, inst': Instance, id: string, tombstone: bool)
    requires Valid(c, s) && i in s.instances && id in s.locks
    requires Published(Record(id, s.locks[id].topic, s.locks[id].key, i, tombstone), i, s.instances[i], inst')
    ensures Valid(c, Publish(s, i, inst', id, tombstone))
  {
    var r := Record(id, s.locks[id].topic, s.locks[id].key, i, tombstone);
    var s' := Publish(s, i, inst', id, tombstone);
    PublishInOrder(c, s, r);
    OrderedGrows(s.log, r);
    forall j | j in s'.instances ensures InstanceOk(c, s'.log, s'.locks, j, s'.instances[j]) {
      PublishKeepsInstance(c, s.log, s.locks, r, j, s.instances[j], s'.instances[j]);
    }
  }

  lemma PublishInOrder(c: Config, s: State, r: Record)
    requires Valid(c, s) && r.origin in s.instances
    requires r.id in if r.tombstone then s.instances[r.origin].releasing else s.instances[r.origin].acquiring
    ensures if r.tombstone then r.id in IdsOfKind(s.log, false) - IdsOfKind(s.log, true) else r.id !in Ids(s.log)
    ensures r.tombstone ==> r.id in Ids(s.log)
  {
    Kinds(s.log, s.instances[r.origin].seen, r.origin);
  }

  // ---------------------------------------------------------------- delivering

  /** A record about to be delivered is new to the instance: a foreign lock's id is neither
      known nor removed yet; a foreign tombstone's id is known and has not been removed. */
  lemma FirstDelivery(c: Config, log: seq<Record>, locks: map<string, Lock>, i: string, inst: Instance, n: nat)
    requires Ordered(log) && InstanceOk(c, log, locks, i, inst)
    requires n < |log| && n !in inst.seen && log[n].origin != i
    requires forall m | 0 <= m < n && c.partition(log[m].id) == c.partition(log[n].id) :: m in inst.seen
    ensures !log[n].tombstone ==> log[n].id !in Known(log, i, inst) + Removed(c.mode, log, i, inst)
    ensures log[n].tombstone ==> log[n].id in Held(ByBusinessKey, log, i, inst)
  {
    var id := log[n].id;
    assert id in Ids(log);
    if log[n].tombstone {
      var m :| 0 <= m < n && log[m].id == log[n].id;
      assert m in inst.seen && !log[m].tombstone;
      assert forall k | 0 <= k < |log| && log[k].tombstone && log[k].id == id :: k == n;
      assert id in IdsOfKind(log, true);
    } else {
      assert forall k | 0 <= k < |log| && !log[k].tombstone && log[k].id == id :: k == n;
      assert id !in Recorded(log, i, inst);
      TombstonesSeenAfterLocks(c, log, i, inst);
    }
  }

  lemma TombstonesSeenAfterLocks(c: Config, log: seq<Record>, i: string, inst: Instance)
    requires Ordered(log) && PrefixSeen(c, log, inst.seen)
    ensures Foreign(log, inst.seen, i, true) <= Recorded(log, i, inst)
  {
    forall id | id in Foreign(log, inst.seen, i, true) ensures id in Recorded(log, i, inst) {
      var k :| k in inst.seen && k < |log| && log[k].tombstone && log[k].id == id;
      var m :| 0 <= m < k && log[m].id == log[k].id;
      assert m in inst.seen && !log[m].tombstone;
    }
  }

  /** What a delivery does to the holdings. */
  lemma HeldAfterDelivery(mode: ReleaseKey, log: seq<Record>, i: string, inst: Instance, n: nat)
    requires n < |log|
    requires log[n].origin != i && !log[n].tombstone ==> log[n].id !in Known(log, i, inst) + Removed(mode, log, i, inst)
    ensures var r, held := log[n], Held(mode, log, i, inst);
            Held(mode, log, i, inst.(seen := inst.seen + {n})) ==
            if r.origin == i then held
            else if !r.tombstone then held + {r.id}
            else if mode == ByBusinessKey then held - {r.id}
            else held
  {
    ForeignGrows(log, n, inst.seen, i, false);
    ForeignGrows(log, n, inst.seen, i, true);
    var r, inst' := log[n], inst.(seen := inst.seen + {n});
    assert Known(log, i, inst') == Known(log, i, inst) + if r.origin != i && !r.tombstone then {r.id} else {};
    assert Removed(mode, log, i, inst') == Removed(mode, log, i, inst) +
           if r.origin != i && r.tombstone && mode == ByBusinessKey then {r.id} else {};
  }

  /** The table follows the holdings. */
  lemma ConsumeAgrees(mode: ReleaseKey, table: Table, held: set<string>, locks: map<string, Lock>, i: string, r: Record)
    requires Agree(table, held, locks)
    requires r.id in locks && locks[r.id] == Lock(r.topic, r.key)
    requires forall id | id in locks :: locks[id].key != r.id
    requires r.origin != i && !r.tombstone ==> r.id !in held
    requires r.origin != i && r.tombstone && mode == ByBusinessKey ==> r.id in held
    ensures Agree(Consume(mode, i, table, r),
                  if r.origin == i then held
                  else if !r.tombstone then held + {r.id}
                  else if mode == ByBusinessKey then held - {r.id}
                  else held, locks)
  {
    if r.origin != i {
      if !r.tombstone {
        AgreeAdd(table, held, locks, r.id);
      } else if mode == ByBusinessKey {
        AgreeRemove(table, held, locks, r.id);
      } else {
        assert For(held, locks, r.topic, r.id) == {};
      }
    }
  }

  lemma DeliverKeepsInstance(c: Config, log: seq<Record>, locks: map<string, Lock>, i: string,
                             inst: Instance, inst': Instance, n: nat)
    requires Ordered(log) && InstanceOk(c, log, locks, i, inst)
    requires n < |log| && n !in inst.seen
    requires forall m | 0 <= m < n && c.partition(log[m].id) == c.partition(log[n].id) :: m in inst.seen
    requires log[n].id in locks && locks[log[n].id] == Lock(log[n].topic, log[n].key)
    requires forall id | id in locks :: locks[id].key != log[n].id
    requires inst' == inst.(table := Consume(c.mode, i, inst.table, log[n]), seen := inst.seen + {n})
    ensures InstanceOk(c, log, locks, i, inst')
  {
    if log[n].origin != i {
      FirstDelivery(c, log, locks, i, inst, n);
    }
    HeldAfterDelivery(c.mode, log, i, inst, n);
    ConsumeAgrees(c.mode, inst.table, Held(c.mode, log, i, inst), locks, i, log[n]);
    assert Held(c.mode, log, i, inst') == Held(c.mode, log, i, inst.(seen := inst.seen + {n}));
    ForeignGrows(log, n, inst.seen, i, false);
  }

  lemma DeliverKeeps(c: Config, s: State, i: string, n: nat)
    requires Valid(c, s) && Enabled(c, s, Deliver(i, n))
    ensures Valid(c, Step(c, s, Deliver(i, n)))
  {
    var inst := s.instances[i];
    var inst' := inst.(table := Consume(c.mode, i, inst.table, s.log[n]), seen := inst.seen + {n});
    DeliverKeepsInstance(c, s.log, s.locks, i, inst, inst', n);
    UpdateKeeps(c, s, i, inst');
  }

  lemma StepKeepsValid(c: Config, s: State, a: Action)
    requires Valid(c, s) && Enabled(c, s, a)
    ensures Valid(c, Step(c, s, a))
  {
    match a
    case Start(i) => StartKeeps(c, s, i);
    case AcquireLocally(i, id, lock) => AcquireKeeps(c, s, i, id, lock);
    case PublishLock(i, id) =>
      PublishKeeps(c, s, i, s.instances[i].(acquiring := s.instances[i].acquiring - {id}), id, false);
    case RollBackAcquire(i, id) => RollBackAcquireKeeps(c, s, i, id);
    case ReleaseLocally(i, id) => ReleaseKeeps(c, s, i, id);
    case PublishTombstone(i, id) =>
      PublishKeeps(c, s, i, s.instances[i].(releasing := s.instances[i].releasing - {id}), id, true);
    case RollBackRelease(i, id) => RollBackReleaseKeeps(c, s, i, id);
    case Deliver(i, n) => DeliverKeeps(c, s, i, n);
  }

  // ---------------------------------------------------------------- whole runs

  ghost predicate Next(c: Config, s: State, a: Action, s': State) {
    && Enabled(c, s, a)
    && (forall i | i in s.instances :: Canonical(s.instances[i].table))
    && s' == Step(c, s, a)
  }

  ghost predicate Behavior(c: Config, states: seq<State>, actions: seq<Action>) {
    && |states| == |actions| + 1 && Init(states[0])
    && forall n | 0 <= n < |actions| :: Next(c, states[n], actions[n], states[n + 1])
  }

  lemma {:induction false} AlwaysValid(c: Config, states: seq<State>, actions: seq<Action>, n: nat)
    requires Behavior(c, states, actions) && n < |states|
    ensures Valid(c, states[n])
    decreases n
  {
    if n > 0 {
      AlwaysValid(c, states, actions, n - 1);
      assert Next(c, states[n - 1], actions[n - 1], states[n]);
      StepKeepsValid(c, states[n - 1], actions[n - 1]);
    }
  }

  /** The outstanding ids an instance knows of and is not itself releasing. */
  function Covered(s: State, i: string): set<string>
    requires i in s.instances
  {
    OutstandingIds(s.log) * Known(s.log, i, s.instances[i]) - s.instances[i].releasing
  }

  /** In every run, whichever way tombstones are read, an instance's count of a business key
      is exactly the number of ids of that key it holds, and that is at least the number of
      outstanding ids it knows of and is not releasing: it never takes such a key for free. */
  lemma NeverTakenForFree(c: Config, states: seq<State>, actions: seq<Action>, n: nat, i: string, t: string, k: string)
    requires Behavior(c, states, actions) && n < |states| && i in states[n].instances
    ensures var s := states[n];
            var count := Count(s.instances[i].table, t, k);
            && count == |For(Held(c.mode, s.log, i, s.instances[i]), s.locks, t, k)|
            && count >= |For(Covered(s, i), s.locks, t, k)|
            && (For(Covered(s, i), s.locks, t, k) != {} ==> count > 0)
  {
    AlwaysValid(c, states, actions, n);
    var s := states[n];
    Kinds(s.log, s.instances[i].seen, i);
    assert Covered(s, i) <= Held(c.mode, s.log, i, s.instances[i]);
    ForMonotone(Covered(s, i), Held(c.mode, s.log, i, s.instances[i]), s.locks, t, k);
  }

  lemma ForMonotone(a: set<string>, b: set<string>, locks: map<string, Lock>, t: string, k: string)
    requires a <= b
    ensures |For(a, locks, t, k)| <= |For(b, locks, t, k)|
    ensures For(a, locks, t, k) != {} ==> |For(b, locks, t, k)| > 0
  {
    SubsetSize(For(a, locks, t, k), For(b, locks, t, k));
  }

  lemma SubsetSize(a: set<string>, b: set<string>)
    requires a <= b
    ensures |a| <= |b|
  {
    assert b == a + (b - a);
  }

  ghost predicate CaughtUp(s: State, i: string)
    requires i in s.instances
  {
    forall n | 0 <= n < |s.log| :: n in s.instances[i].seen
  }

  ghost predicate Quiet(s: State, i: string)
    requires i in s.instances
  {
    s.instances[i].acquiring == {} && s.instances[i].releasing == {}
  }

  /** An instance that consumed the whole log has every record, its own or foreign. */
  lemma AllRecords(log: seq<Record>, seen: set<nat>, i: string, b: bool)
    requires forall n | 0 <= n < |log| :: n in seen
    ensures Own(log, i, b) + Foreign(log, seen, i, b) == IdsOfKind(log, b)
  {
  }

  /** What a caught-up instance with nothing pending holds: the outstanding ids and, in the
      code's reading, everything that others have released. */
  lemma CaughtUpHoldings(c: Config, s: State, i: string)
    requires Valid(c, s) && i in s.instances && CaughtUp(s, i) && Quiet(s, i)
    ensures Held(c.mode, s.log, i, s.instances[i]) == OutstandingIds(s.log) +
            if c.mode == ByBusinessKey then {} else IdsOfKind(s.log, true) - Own(s.log, i, true)
  {
    var inst := s.instances[i];
    Kinds(s.log, inst.seen, i);
    AllRecords(s.log, inst.seen, i, false);
    AllRecords(s.log, inst.seen, i, true);
    assert Known(s.log, i, inst) == IdsOfKind(s.log, false);
  }

  /** The outstanding ids of a business key are the same by kind of record and by last record. */
  lemma SameOutstanding(s: State, t: string, k: string)
    requires Registered(s) && Ordered(s.log)
    ensures For(OutstandingIds(s.log), s.locks, t, k) == Outstanding(s.log, t, k)
  {
    forall id ensures id in For(OutstandingIds(s.log), s.locks, t, k) <==> id in Outstanding(s.log, t, k) {
      OutstandingMeaning(s.log, t, k, id);
      if id in For(OutstandingIds(s.log), s.locks, t, k) {
        var n :| 0 <= n < |s.log| && !s.log[n].tombstone && s.log[n].id == id;
        assert forall m | n < m < |s.log| :: s.log[m].id != id;
        assert Latest(s.log, n);
      }
      if id in Outstanding(s.log, t, k) {
        var n :| 0 <= n < |s.log| && s.log[n].id == id && IsLock(s.log[n], t, k) && Latest(s.log, n);
        assert forall m | 0 <= m < |s.log| && s.log[m].tombstone :: s.log[m].id != id;
      }
    }
  }

  lemma CountsOutstanding(c: Config, s: State, i: string)
    requires Valid(c, s) && c.mode == ByBusinessKey
    requires i in s.instances && CaughtUp(s, i) && Quiet(s, i)
    ensures Agree(s.instances[i].table, OutstandingIds(s.log), s.locks)
  {
    CaughtUpHoldings(c, s, i);
    assert InstanceOk(c, s.log, s.locks, i, s.instances[i]);
    assert Held(c.mode, s.log, i, s.instances[i]) == OutstandingIds(s.log);
  }

  lemma AgreeUnique(a: Table, b: Table, held: set<string>, locks: map<string, Lock>)
    requires Agree(a, held, locks) && Agree(b, held, locks)
    ensures a == b
  {
    CanonicalUnique(a, b);
  }

  /** With tombstones read as documented, a caught-up quiet instance counts exactly the
      outstanding ids of every key; any two such instances have the same table. */
  lemma Converges(c: Config, states: seq<State>, actions: seq<Action>, n: nat, i: string, j: string)
    requires Behavior(c, states, actions) && n < |states| && c.mode == ByBusinessKey
    requires i in states[n].instances && CaughtUp(states[n], i) && Quiet(states[n], i)
    requires j in states[n].instances && CaughtUp(states[n], j) && Quiet(states[n], j)
    ensures forall t, k :: Count(states[n].instances[i].table, t, k) == OutstandingCount(states[n].log, t, k)
    ensures states[n].instances[i].table == states[n].instances[j].table
  {
    var s := states[n];
    AlwaysValid(c, states, actions, n);
    CountsOutstanding(c, s, i);
    CountsOutstanding(c, s, j);
    AgreeUnique(s.instances[i].table, s.instances[j].table, OutstandingIds(s.log), s.locks);
    forall t, k ensures Count(s.instances[i].table, t, k) == OutstandingCount(s.log, t, k) {
      SameOutstanding(s, t, k);
    }
  }

  /** With tombstones read as the code does, a caught-up quiet instance also counts every id
      that another instance released; it agrees with the log exactly when there is none. */
  lemma RecordKeyGap(c: Config, states: seq<State>, actions: seq<Action>, n: nat, i: string, t: string, k: string)
    requires Behavior(c, states, actions) && n < |states| && c.mode == ByRecordKey
    requires i in states[n].instances && CaughtUp(states[n], i) && Quiet(states[n], i)
    ensures var s := states[n];
            var outstanding := Outstanding(s.log, t, k);
            var elsewhere := For(IdsOfKind(s.log, true) - Own(s.log, i, true), s.locks, t, k);
            var count := Count(s.instances[i].table, t, k);
            && count == |outstanding| + |elsewhere|
            && (count == |outstanding| <==> elsewhere == {})
  {
    var s := states[n];
    AlwaysValid(c, states, actions, n);
    CaughtUpHoldings(c, s, i);
    SameOutstanding(s, t, k);
    var outstanding := Outstanding(s.log, t, k);
    var elsewhere := For(IdsOfKind(s.log, true) - Own(s.log, i, true), s.locks, t, k);
    assert For(Held(c.mode, s.log, i, s.instances[i]), s.locks, t, k) == outstanding + elsewhere;
    assert outstanding !! elsewhere;
  }

  lemma {:induction false} OnlyGrows(c: Config, states: seq<State>, actions: seq<Action>, n: nat, m: nat, i: string)
    requires Behavior(c, states, actions) && n <= m < |states| && i in states[n].instances
    ensures i in states[m].instances && states[n].log <= states[m].log
    ensures states[n].instances[i].seen <= states[m].instances[i].seen
    ensures forall id | id in states[n].locks :: id in states[m].locks && states[m].locks[id] == states[n].locks[id]
    decreases m
  {
    if n < m {
      OnlyGrows(c, states, actions, n, m - 1, i);
      assert Next(c, states[m - 1], actions[m - 1], states[m]);
    }
  }

  /** A key whose lock another instance has released is never free again where its lock
      record was consumed: in the code's reading the count stays positive for ever. */
  lemma ForeignReleaseNeverFrees(c: Config, states: seq<State>, actions: seq<Action>, n: nat, m: nat,
                                 i: string, id: string)
    requires Behavior(c, states, actions) && n <= m < |states| && c.mode == ByRecordKey
    requires i in states[n].instances && id in Recorded(states[n].log, i, states[n].instances[i])
    requires id in IdsOfKind(states[n].log, true) - Own(states[n].log, i, true)
    ensures i in states[m].instances && id in states[m].locks
    ensures Count(states[m].instances[i].table, states[m].locks[id].topic, states[m].locks[id].key) > 0
  {
    AlwaysValid(c, states, actions, m);
    OnlyGrows(c, states, actions, n, m, i);
    StillHeld(states[n].log, states[m].log, i, states[n].instances[i], states[m].instances[i], id);
    ReleasedElsewhereStaysHeld(c, states[m], i, id);
  }

  lemma ReleasedElsewhereStaysHeld(c: Config, s: State, i: string, id: string)
    requires Valid(c, s) && c.mode == ByRecordKey && i in s.instances
    requires id in Recorded(s.log, i, s.instances[i]) && id in IdsOfKind(s.log, true) - Own(s.log, i, true)
    ensures id in s.locks
    ensures Count(s.instances[i].table, s.locks[id].topic, s.locks[id].key) > 0
  {
    assert InstanceOk(c, s.log, s.locks, i, s.instances[i]);
    var held := Held(c.mode, s.log, i, s.instances[i]);
    assert id in held;
    assert id in For(held, s.locks, s.locks[id].topic, s.locks[id].key);
  }

  lemma StillHeld(log: seq<Record>, log': seq<Record>, i: string, inst: Instance, inst': Instance, id: string)
    requires Ordered(log') && log <= log' && inst.seen <= inst'.seen
    requires id in Recorded(log, i, inst) && id in IdsOfKind(log, true) - Own(log, i, true)
    ensures id in Recorded(log', i, inst') && id in IdsOfKind(log', true) - Own(log', i, true)
  {
    assert forall n | 0 <= n < |log| :: log'[n] == log[n];
    var n :| 0 <= n < |log| && log[n].tombstone && log[n].id == id;
    assert log[n].origin != i;
    forall m | 0 <= m < |log'| && log'[m].tombstone && log'[m].id == id ensures m == n {
      assert log'[m].id == log'[n].id;
    }
  }
}
