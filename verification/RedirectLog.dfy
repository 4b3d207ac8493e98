/** The redirect topic: lock records and tombstones keyed by lock id, what they leave
    outstanding, and what an instance makes of them when it replays the topic. */
module RedirectLog {
  import opened LockTable

  /** `topic` and `key` are the headers naming the business key, `origin` the coordinator
      that wrote the record; a tombstone has no payload. */
  datatype Record = Record(id: string, topic: string, key: string, origin: string, tombstone: bool)

  /** Which key a consumed tombstone releases: the record key, as the code does, or the
      business key in the header, as its comments describe. */
  datatype ReleaseKey = ByRecordKey | ByBusinessKey

  /** The local operation a record of another instance stands for. */
  function OpOf(mode: ReleaseKey, r: Record): Op {
    if !r.tombstone then Acquire(r.topic, r.key)
    else Release(r.topic, if mode == ByRecordKey then r.id else r.key)
  }

  /** Consuming one record: echoes of one's own records are ignored. */
  function Consume(mode: ReleaseKey, self: string, m: Table, r: Record): (m': Table)
    requires Canonical(m)
    ensures Canonical(m')
  {
    if r.origin == self then m else Apply(m, OpOf(mode, r))
  }

  function OpsOf(mode: ReleaseKey, log: seq<Record>): (ops: seq<Op>)
    ensures |ops| == |log|
    ensures forall i | 0 <= i < |log| :: ops[i] == OpOf(mode, log[i])
  {
    seq(|log|, i requires 0 <= i < |log| => OpOf(mode, log[i]))
  }

  /** The table a starting instance rebuilds: its instance id is new, so nothing is an echo. */
  function Replay(mode: ReleaseKey, log: seq<Record>): (m: Table)
    ensures Canonical(m)
  {
    Run(map[], OpsOf(mode, log))
  }

  /** Replaying is consuming one record after another as an instance that wrote none of them. */
  lemma ReplayConsumes(mode: ReleaseKey, self: string, log: seq<Record>, r: Record)
    requires r.origin != self
    ensures Replay(mode, log + [r]) == Consume(mode, self, Replay(mode, log), r)
  {
    assert OpsOf(mode, log + [r])[..|log|] == OpsOf(mode, log);
  }

  // ---------------------------------------------------------------- outstanding ids

  function Ids(log: seq<Record>): set<string> {
    set i | 0 <= i < |log| :: log[i].id
  }

  predicate IsLock(r: Record, topic: string, key: string) {
    !r.tombstone && r.topic == topic && r.key == key
  }

  /** No later record has the id of record `i`. */
  ghost predicate Latest(log: seq<Record>, i: int)
    requires 0 <= i < |log|
  {
    forall j | i < j < |log| :: log[j].id != log[i].id
  }

  /** The ids whose last record locks this business key. */
  function Outstanding(log: seq<Record>, topic: string, key: string): set<string> {
    if log == [] then {}
    else
      Outstanding(log[1..], topic, key) +
      if IsLock(log[0], topic, key) && log[0].id !in Ids(log[1..]) then {log[0].id} else {}
  }

  function OutstandingCount(log: seq<Record>, topic: string, key: string): nat {
    |Outstanding(log, topic, key)|
  }

  lemma {:induction false} OutstandingMeaning(log: seq<Record>, topic: string, key: string, id: string)
    ensures id in Outstanding(log, topic, key) <==>
            exists i | 0 <= i < |log| :: log[i].id == id && IsLock(log[i], topic, key) && Latest(log, i)
    decreases |log|
  {
    if log != [] {
      var rest := log[1..];
      OutstandingMeaning(rest, topic, key, id);
      assert forall i | 0 <= i < |rest| :: rest[i] == log[i + 1];
      assert log[0].id !in Ids(rest) <==> Latest(log, 0) by {
        assert forall j | 0 < j < |log| :: log[j] == rest[j - 1];
      }
      forall i | 0 <= i < |rest| ensures Latest(rest, i) <==> Latest(log, i + 1) {
        assert forall j | i + 1 < j < |log| :: log[j] == rest[j - 1];
      }
      if i :| 0 <= i < |log| && log[i].id == id && IsLock(log[i], topic, key) && Latest(log, i) {
        if i > 0 {
          assert rest[i - 1] == log[i] && Latest(rest, i - 1);
        }
      }
      if i :| 0 <= i < |rest| && rest[i].id == id && IsLock(rest[i], topic, key) && Latest(rest, i) {
        assert log[i + 1].id == id && IsLock(log[i + 1], topic, key) && Latest(log, i + 1);
      }
    }
  }

  /** What one more record does to the outstanding ids. */
  lemma OutstandingAppend(log: seq<Record>, r: Record, topic: string, key: string)
    ensures Outstanding(log + [r], topic, key)
         == Outstanding(log, topic, key) - {r.id} + if IsLock(r, topic, key) then {r.id} else {}
  {
    var log' := log + [r];
    forall id
      ensures id in Outstanding(log', topic, key) <==>
              id in Outstanding(log, topic, key) - {r.id} + if IsLock(r, topic, key) then {r.id} else {}
    {
      OutstandingMeaning(log, topic, key, id);
      OutstandingMeaning(log', topic, key, id);
      if i :| 0 <= i < |log| && log[i].id == id && IsLock(log[i], topic, key) && Latest(log, i) {
        if id != r.id {
          assert log'[i] == log[i] && Latest(log', i);
        }
      }
      if i :| 0 <= i < |log'| && log'[i].id == id && IsLock(log'[i], topic, key) && Latest(log', i) {
        if i < |log| {
          assert log'[|log|] == r;
          assert forall j | i < j < |log| :: log[j] == log'[j];
          assert log[i] == log'[i] && Latest(log, i);
        }
      }
      if id == r.id && IsLock(r, topic, key) {
        assert log'[|log|] == r && Latest(log', |log|);
      }
    }
  }

  // ---------------------------------------------------------------- compaction

  function Select(log: seq<Record>, keep: seq<bool>): seq<Record>
    requires |log| == |keep|
  {
    if log == [] then []
    else (if keep[0] then [log[0]] else []) + Select(log[1..], keep[1..])
  }

  /** A compaction keeps the last record of every id; only an id that ends in a tombstone may
      instead disappear altogether. */
  ghost predicate Compaction(log: seq<Record>, keep: seq<bool>) {
    && |log| == |keep|
    && forall i | 0 <= i < |log| && Latest(log, i) ::
         keep[i] || (log[i].tombstone && forall j | 0 <= j < |log| && log[j].id == log[i].id :: !keep[j])
  }

  lemma CompactionTail(log: seq<Record>, keep: seq<bool>)
    requires Compaction(log, keep) && log != []
    ensures Compaction(log[1..], keep[1..])
  {
    var l, k := log[1..], keep[1..];
    assert forall i | 0 <= i < |l| :: l[i] == log[i + 1] && k[i] == keep[i + 1];
    forall i | 0 <= i < |l| && Latest(l, i)
      ensures k[i] || (l[i].tombstone && forall j | 0 <= j < |l| && l[j].id == l[i].id :: !k[j])
    {
      assert forall j | i + 1 < j < |log| :: log[j] == l[j - 1];
      assert Latest(log, i + 1);
    }
  }

  lemma {:induction false} LatestExists(log: seq<Record>, id: string) returns (i: nat)
    requires id in Ids(log)
    ensures i < |log| && log[i].id == id && Latest(log, i)
  {
    i :| 0 <= i < |log| && log[i].id == id;
    var n := i;
    while n < |log|
      invariant i < n <= |log| || i == n < |log|
      invariant i < |log| && log[i].id == id
      invariant forall j | i < j < n :: log[j].id != id
    {
      if log[n].id == id { i := n; }
      n := n + 1;
    }
  }

  lemma IdsConcat(a: seq<Record>, b: seq<Record>)
    ensures Ids(a + b) == Ids(a) + Ids(b)
  {
    assert forall i | 0 <= i < |a| :: (a + b)[i] == a[i];
    assert forall i | 0 <= i < |b| :: (a + b)[|a| + i] == b[i];
  }

  lemma {:induction false} SelectIds(log: seq<Record>, keep: seq<bool>, id: string)
    requires |log| == |keep|
    ensures id in Ids(Select(log, keep)) <==> exists i | 0 <= i < |log| :: keep[i] && log[i].id == id
    decreases |log|
  {
    if log != [] {
      var rest, keepRest := log[1..], keep[1..];
      SelectIds(rest, keepRest, id);
      IdsConcat(if keep[0] then [log[0]] else [], Select(rest, keepRest));
      assert forall i | 0 < i < |log| :: log[i] == rest[i - 1] && keep[i] == keepRest[i - 1];
      assert forall i | 0 <= i < |rest| :: rest[i] == log[i + 1] && keepRest[i] == keep[i + 1];
      assert [log[0]][0].id in Ids([log[0]]);
    }
  }

  /** A kept first record is superseded in the compacted log exactly when it is superseded
      in the full log; a dropped lock record was superseded. */
  lemma FirstRecordSuperseded(log: seq<Record>, keep: seq<bool>)
    requires Compaction(log, keep) && log != []
    ensures keep[0] ==> (log[0].id in Ids(log[1..]) <==> log[0].id in Ids(Select(log[1..], keep[1..])))
    ensures !keep[0] && !log[0].tombstone ==> log[0].id in Ids(log[1..])
  {
    var rest, id := log[1..], log[0].id;
    SelectIds(rest, keep[1..], id);
    assert forall j | 0 < j < |log| :: log[j] == rest[j - 1] && keep[j] == keep[1..][j - 1];
    if id in Ids(rest) {
      var i := LatestExists(rest, id);
      assert Latest(log, i + 1) && log[i + 1].id == id;
      assert keep[0] ==> keep[1..][i];
    } else {
      assert Latest(log, 0);
    }
  }

  /** Compaction leaves the outstanding ids of every business key unchanged. */
  lemma {:induction false} CompactionKeepsOutstanding(log: seq<Record>, keep: seq<bool>, topic: string, key: string)
    requires Compaction(log, keep)
    ensures Outstanding(Select(log, keep), topic, key) == Outstanding(log, topic, key)
    decreases |log|
  {
    if log != [] {
      var rest, kept := log[1..], Select(log[1..], keep[1..]);
      CompactionTail(log, keep);
      CompactionKeepsOutstanding(rest, keep[1..], topic, key);
      FirstRecordSuperseded(log, keep);
      if keep[0] {
        assert Select(log, keep) == [log[0]] + kept;
        assert ([log[0]] + kept)[1..] == kept;
      } else {
        assert Select(log, keep) == [] + kept == kept;
      }
    }
  }

  /** The lock records of one business key. */
  function Locks(log: seq<Record>, topic: string, key: string): nat {
    if log == [] then 0
    else Locks(log[..|log| - 1], topic, key) + if IsLock(log[|log| - 1], topic, key) then 1 else 0
  }

  lemma {:induction false} LocksConcat(a: seq<Record>, b: seq<Record>, topic: string, key: string)
    ensures Locks(a + b, topic, key) == Locks(a, topic, key) + Locks(b, topic, key)
    decreases |b|
  {
    if b == [] {
      assert a + b == a;
    } else {
      assert (a + b)[..|a + b| - 1] == a + b[..|b| - 1];
      LocksConcat(a, b[..|b| - 1], topic, key);
    }
  }

  lemma LocksHead(log: seq<Record>, topic: string, key: string)
    requires log != []
    ensures Locks(log, topic, key) == Locks(log[1..], topic, key) + if IsLock(log[0], topic, key) then 1 else 0
  {
    assert log == [log[0]] + log[1..];
    LocksConcat([log[0]], log[1..], topic, key);
    assert [log[0]][..0] == [];
  }

  /** Released under the record key, tombstones never touch a business key: replay counts
      every lock record ever kept. */
  lemma {:induction false} ReplayCountsLocks(log: seq<Record>, topic: string, key: string)
    requires forall i | 0 <= i < |log| :: log[i].id != key
    ensures Count(Replay(ByRecordKey, log), topic, key) == Locks(log, topic, key)
    decreases |log|
  {
    if log != [] {
      var init, r := log[..|log| - 1], log[|log| - 1];
      ReplayCountsLocks(init, topic, key);
      assert r == log[|log| - 1] && r.id != key;
      ReplayOne(init, r, topic, key);
      assert log == init + [r];
    }
  }

  lemma ReplayOne(log: seq<Record>, r: Record, topic: string, key: string)
    requires r.id != key
    ensures Count(Replay(ByRecordKey, log + [r]), topic, key)
         == Count(Replay(ByRecordKey, log), topic, key) + if IsLock(r, topic, key) then 1 else 0
  {
    assert (log + [r])[..|log|] == log;
    assert OpsOf(ByRecordKey, log + [r]) == OpsOf(ByRecordKey, log) + [OpOf(ByRecordKey, r)];
    CountAfter(map[], OpsOf(ByRecordKey, log), OpOf(ByRecordKey, r), topic, key);
  }

  /** Nothing recognises a record that was read before: records read again after the restore
      count once more, in the code's reading, and leave a key's count alone if and only if no
      lock record of it is among them. */
  lemma RereadingAdds(log: seq<Record>, again: seq<Record>, topic: string, key: string)
    requires forall i | 0 <= i < |log| :: log[i].id != key
    requires forall i | 0 <= i < |again| :: again[i].id != key
    ensures var before, after := Replay(ByRecordKey, log), Replay(ByRecordKey, log + again);
            && Count(after, topic, key) == Count(before, topic, key) + Locks(again, topic, key)
            && (Count(after, topic, key) == Count(before, topic, key)
                <==> forall i | 0 <= i < |again| :: !IsLock(again[i], topic, key))
  {
    ReplayCountsLocks(log, topic, key);
    ReplayCountsLocks(log + again, topic, key);
    LocksConcat(log, again, topic, key);
    NoLocks(again, topic, key);
  }

  lemma {:induction false} NoLocks(log: seq<Record>, topic: string, key: string)
    ensures Locks(log, topic, key) == 0 <==> forall i | 0 <= i < |log| :: !IsLock(log[i], topic, key)
    decreases |log|
  {
    if log != [] {
      var init := log[..|log| - 1];
      NoLocks(init, topic, key);
      assert forall i | 0 <= i < |init| :: init[i] == log[i];
    }
  }

  /** No lock record of this key is followed by another record of its id: neither a released
      id's lock record nor a duplicate is left. */
  ghost predicate NoStaleLock(log: seq<Record>, topic: string, key: string) {
    forall i | 0 <= i < |log| && IsLock(log[i], topic, key) :: Latest(log, i)
  }

  lemma NoStaleLockHead(log: seq<Record>, topic: string, key: string)
    requires log != []
    ensures NoStaleLock(log, topic, key) <==>
            NoStaleLock(log[1..], topic, key) && (IsLock(log[0], topic, key) ==> log[0].id !in Ids(log[1..]))
  {
    var rest := log[1..];
    assert forall j | 0 < j < |log| :: log[j] == rest[j - 1];
    assert log[0].id in Ids(rest) <==> !Latest(log, 0);
    forall i | 0 <= i < |rest| ensures rest[i] == log[i + 1] && (Latest(rest, i) <==> Latest(log, i + 1)) {
      if Latest(log, i + 1) {
        forall j | i < j < |rest| ensures rest[j].id != rest[i].id {
          assert log[j + 1].id != log[i + 1].id;
        }
      }
    }
    if NoStaleLock(log, topic, key) {
      forall i | 0 <= i < |rest| && IsLock(rest[i], topic, key) ensures Latest(rest, i) {
        assert Latest(log, i + 1);
      }
    }
    if NoStaleLock(rest, topic, key) && (IsLock(log[0], topic, key) ==> log[0].id !in Ids(rest)) {
      forall i | 0 <= i < |log| && IsLock(log[i], topic, key) ensures Latest(log, i) {
        if i > 0 {
          assert Latest(rest, i - 1);
        }
      }
    }
  }

  lemma {:induction false} OutstandingWithinLocks(log: seq<Record>, topic: string, key: string)
    ensures OutstandingCount(log, topic, key) <= Locks(log, topic, key)
    ensures OutstandingCount(log, topic, key) == Locks(log, topic, key) <==> NoStaleLock(log, topic, key)
    decreases |log|
  {
    if log != [] {
      var rest := log[1..];
      OutstandingWithinLocks(rest, topic, key);
      LocksHead(log, topic, key);
      NoStaleLockHead(log, topic, key);
      OutstandingNamed(rest, topic, key);
      if IsLock(log[0], topic, key) && log[0].id !in Ids(rest) {
        assert Outstanding(log, topic, key) == Outstanding(rest, topic, key) + {log[0].id};
      } else {
        assert Outstanding(log, topic, key) == Outstanding(rest, topic, key);
      }
    }
  }

  lemma {:induction false} OutstandingNamed(log: seq<Record>, topic: string, key: string)
    ensures Outstanding(log, topic, key) <= Ids(log)
    decreases |log|
  {
    if log != [] {
      OutstandingNamed(log[1..], topic, key);
      assert forall i | 0 <= i < |log[1..]| :: log[1..][i] == log[i + 1];
      assert log[0].id in Ids(log);
    }
  }

  /** No lock record of this key was dropped. */
  ghost predicate LocksKept(log: seq<Record>, keep: seq<bool>, topic: string, key: string)
    requires |log| == |keep|
  {
    forall i | 0 <= i < |log| && IsLock(log[i], topic, key) :: keep[i]
  }

  lemma {:induction false} SelectedLocks(log: seq<Record>, keep: seq<bool>, topic: string, key: string)
    requires |log| == |keep|
    ensures Locks(Select(log, keep), topic, key) <= Locks(log, topic, key)
    ensures Locks(Select(log, keep), topic, key) == Locks(log, topic, key) <==> LocksKept(log, keep, topic, key)
    decreases |log|
  {
    if log != [] {
      var rest, keepRest := log[1..], keep[1..];
      SelectedLocks(rest, keepRest, topic, key);
      LocksHead(log, topic, key);
      LocksConcat(if keep[0] then [log[0]] else [], Select(rest, keepRest), topic, key);
      assert Locks([log[0]], topic, key) == if IsLock(log[0], topic, key) then 1 else 0 by {
        assert [log[0]][..0] == [];
      }
      assert forall i | 0 < i < |log| :: log[i] == rest[i - 1] && keep[i] == keepRest[i - 1];
      assert forall i | 0 <= i < |rest| :: rest[i] == log[i + 1] && keepRest[i] == keep[i + 1];
      assert LocksKept(log, keep, topic, key) <==>
             LocksKept(rest, keepRest, topic, key) && (IsLock(log[0], topic, key) ==> keep[0]);
    }
  }

  /** Whatever compaction has done, restoring sees at least the outstanding locks and at most
      what the full log would show. It sees exactly the outstanding ones when, and only when,
      no superseded lock record is left, and everything when none was dropped. */
  lemma CompactionSandwich(log: seq<Record>, keep: seq<bool>, topic: string, key: string)
    requires Compaction(log, keep)
    requires forall i | 0 <= i < |log| :: log[i].id != key
    ensures var compacted := Select(log, keep);
            var restored := Count(Replay(ByRecordKey, compacted), topic, key);
            && OutstandingCount(log, topic, key) <= restored <= Count(Replay(ByRecordKey, log), topic, key)
            && (restored == OutstandingCount(log, topic, key) <==> NoStaleLock(compacted, topic, key))
            && (restored == Count(Replay(ByRecordKey, log), topic, key) <==> LocksKept(log, keep, topic, key))
  {
    var compacted := Select(log, keep);
    CompactionKeepsOutstanding(log, keep, topic, key);
    OutstandingWithinLocks(compacted, topic, key);
    SelectedLocks(log, keep, topic, key);
    ReplayCountsLocks(log, topic, key);
    forall i | 0 <= i < |compacted| ensures compacted[i].id != key {
      SelectIds(log, keep, compacted[i].id);
      assert compacted[i].id in Ids(compacted);
    }
    ReplayCountsLocks(compacted, topic, key);
  }

  // ---------------------------------------------------------------- partitions

  /** Each id stays in one partition, where it is locked once and released at most once,
      later, for the same business key. */
  ghost predicate WellOrdered(log: seq<Record>) {
    && (forall i, j | 0 <= i < j < |log| && log[i].id == log[j].id :: !log[i].tombstone && log[j].tombstone)
    && (forall j | 0 <= j < |log| && log[j].tombstone ::
          exists i | 0 <= i < j :: log[i] == log[j].(tombstone := false, origin := log[i].origin))
  }

  lemma WellOrderedPrefix(log: seq<Record>, n: nat)
    requires WellOrdered(log) && n <= |log|
    ensures WellOrdered(log[..n])
  {
    forall j | 0 <= j < n && log[..n][j].tombstone
      ensures exists i | 0 <= i < j :: log[..n][i] == log[..n][j].(tombstone := false, origin := log[..n][i].origin)
    {
      var i :| 0 <= i < j && log[i] == log[j].(tombstone := false, origin := log[i].origin);
      assert log[..n][i] == log[i];
    }
  }

  /** The record a tombstone releases is the only, and so the latest, record of its id. */
  lemma ReleasedRecord(log: seq<Record>, r: Record) returns (i: nat)
    requires WellOrdered(log + [r]) && r.tombstone
    ensures i < |log| && Latest(log, i) && log[i] == r.(tombstone := false, origin := log[i].origin)
    ensures forall j | 0 <= j < |log| && log[j].id == r.id :: j == i
  {
    var log', n := log + [r], |log|;
    assert log'[n] == r && forall j | 0 <= j < n :: log'[j] == log[j];
    i :| 0 <= i < n && log'[i] == log'[n].(tombstone := false, origin := log'[i].origin);
    forall j | 0 <= j < n && log[j].id == r.id ensures j == i {
      assert log'[j].id == log'[n].id;
    }
  }

  /** In a well-ordered log every record moves the outstanding count by its own effect. */
  lemma OutstandingStep(log: seq<Record>, r: Record, topic: string, key: string)
    requires WellOrdered(log + [r])
    ensures OutstandingCount(log + [r], topic, key)
         == OutstandingCount(log, topic, key) + Effect(OpOf(ByBusinessKey, r), topic, key)
  {
    OutstandingAppend(log, r, topic, key);
    OutstandingMeaning(log, topic, key, r.id);
    if r.tombstone {
      var i := ReleasedRecord(log, r);
      assert r.id in Outstanding(log, topic, key) <==> IsLock(log[i], topic, key);
    } else {
      var log' := log + [r];
      assert log'[|log|] == r;
      forall j | 0 <= j < |log| ensures log[j].id != r.id {
        assert log'[j] == log[j];
      }
      assert r.id !in Outstanding(log, topic, key);
    }
  }

  /** In a well-ordered log the business-key reading of a key's history nets exactly the
      outstanding ids. */
  lemma {:induction false} NetIsOutstanding(log: seq<Record>, topic: string, key: string)
    requires WellOrdered(log)
    ensures Net(OpsOf(ByBusinessKey, log), topic, key) == OutstandingCount(log, topic, key)
    decreases |log|
  {
    if log != [] {
      var n := |log| - 1;
      var init, r := log[..n], log[n];
      assert log == init + [r];
      WellOrderedPrefix(log, n);
      NetIsOutstanding(init, topic, key);
      NetLast(ByBusinessKey, init, r, topic, key);
      OutstandingStep(init, r, topic, key);
    }
  }

  lemma NetLast(mode: ReleaseKey, log: seq<Record>, r: Record, topic: string, key: string)
    ensures Net(OpsOf(mode, log + [r]), topic, key)
         == Net(OpsOf(mode, log), topic, key) + Effect(OpOf(mode, r), topic, key)
  {
    var ops := OpsOf(mode, log + [r]);
    assert ops[..|ops| - 1] == OpsOf(mode, log);
  }

  /** In either reading, a well-ordered partition never releases a business key more often
      than it locked it. */
  lemma PartitionBalanced(mode: ReleaseKey, log: seq<Record>, topic: string, key: string)
    requires WellOrdered(log)
    requires forall i | 0 <= i < |log| :: log[i].id != key
    ensures PrefixBalanced(OpsOf(mode, log), topic, key)
  {
    if mode == ByRecordKey {
      LocksBalanced(log, topic, key);
    } else {
      forall n | 0 <= n <= |log| ensures Net(OpsOf(mode, log)[..n], topic, key) >= 0 {
        WellOrderedPrefix(log, n);
        assert OpsOf(mode, log)[..n] == OpsOf(mode, log[..n]);
        NetIsOutstanding(log[..n], topic, key);
      }
    }
  }

  lemma {:induction false} NetIsLocks(log: seq<Record>, topic: string, key: string)
    requires forall i | 0 <= i < |log| :: log[i].id != key
    ensures Net(OpsOf(ByRecordKey, log), topic, key) == Locks(log, topic, key)
    decreases |log|
  {
    if log != [] {
      var init, r := log[..|log| - 1], log[|log| - 1];
      assert log == init + [r];
      NetIsLocks(init, topic, key);
      NetLast(ByRecordKey, init, r, topic, key);
    }
  }

  function PartOps(mode: ReleaseKey, parts: seq<seq<Record>>): (ops: seq<seq<Op>>)
    ensures |ops| == |parts|
    ensures forall p | 0 <= p < |parts| :: ops[p] == OpsOf(mode, parts[p])
  {
    seq(|parts|, p requires 0 <= p < |parts| => OpsOf(mode, parts[p]))
  }

  /** The order in which the partitions are consumed does not matter: any two merges of the
      uncompacted partition logs give the same count of every business key, namely what the
      partitions contribute in total, and nothing is ever released at zero. */
  lemma MergeOrderIrrelevant(mode: ReleaseKey, parts: seq<seq<Record>>, a: seq<Record>, b: seq<Record>,
                             topic: string, key: string)
    requires forall p | 0 <= p < |parts| :: WellOrdered(parts[p])
    requires forall p, i | 0 <= p < |parts| && 0 <= i < |parts[p]| :: parts[p][i].id != key
    requires Shuffles(OpsOf(mode, a), PartOps(mode, parts))
    requires Shuffles(OpsOf(mode, b), PartOps(mode, parts))
    ensures Count(Replay(mode, a), topic, key) == Count(Replay(mode, b), topic, key)
         == TotalNet(PartOps(mode, parts), topic, key)
    ensures !ReleasesAtZero(map[], OpsOf(mode, a), topic, key)
  {
    forall p | 0 <= p < |parts| ensures PrefixBalanced(PartOps(mode, parts)[p], topic, key) {
      PartitionBalanced(mode, parts[p], topic, key);
    }
    ShuffleOfBalanced(OpsOf(mode, a), PartOps(mode, parts), topic, key);
    ShuffleOfBalanced(OpsOf(mode, b), PartOps(mode, parts), topic, key);
  }

  /** Every partition is compacted on its own. */
  ghost predicate Compactions(parts: seq<seq<Record>>, keeps: seq<seq<bool>>) {
    |parts| == |keeps| && forall p | 0 <= p < |parts| :: Compaction(parts[p], keeps[p])
  }

  /** What is left of them. */
  ghost function SelectAll(parts: seq<seq<Record>>, keeps: seq<seq<bool>>): (r: seq<seq<Record>>)
    requires Compactions(parts, keeps)
    ensures |r| == |parts| && forall p | 0 <= p < |parts| :: r[p] == Select(parts[p], keeps[p])
  {
    seq(|parts|, p requires 0 <= p < |parts| => Select(parts[p], keeps[p]))
  }

  function OutstandingTotal(parts: seq<seq<Record>>, topic: string, key: string): nat {
    if parts == [] then 0
    else OutstandingTotal(parts[..|parts| - 1], topic, key) + OutstandingCount(parts[|parts| - 1], topic, key)
  }

  lemma {:induction false} SameOutstandingTotal(a: seq<seq<Record>>, b: seq<seq<Record>>, topic: string, key: string)
    requires |a| == |b|
    requires forall p | 0 <= p < |a| :: Outstanding(a[p], topic, key) == Outstanding(b[p], topic, key)
    ensures OutstandingTotal(a, topic, key) == OutstandingTotal(b, topic, key)
    decreases |a|
  {
    if a != [] {
      SameOutstandingTotal(a[..|a| - 1], b[..|b| - 1], topic, key);
    }
  }

  ghost predicate NoneStale(parts: seq<seq<Record>>, topic: string, key: string) {
    forall p | 0 <= p < |parts| :: NoStaleLock(parts[p], topic, key)
  }

  lemma {:induction false} TotalLocks(parts: seq<seq<Record>>, topic: string, key: string)
    requires forall p, i | 0 <= p < |parts| && 0 <= i < |parts[p]| :: parts[p][i].id != key
    ensures TotalNet(PartOps(ByRecordKey, parts), topic, key) >= OutstandingTotal(parts, topic, key)
    ensures TotalNet(PartOps(ByRecordKey, parts), topic, key) == OutstandingTotal(parts, topic, key)
       <==> NoneStale(parts, topic, key)
    decreases |parts|
  {
    if parts != [] {
      var n := |parts| - 1;
      var init := parts[..n];
      TotalLocks(init, topic, key);
      assert PartOps(ByRecordKey, parts)[..n] == PartOps(ByRecordKey, init);
      NetIsLocks(parts[n], topic, key);
      OutstandingWithinLocks(parts[n], topic, key);
      NoneStaleLast(parts, topic, key);
    }
  }

  lemma NoneStaleLast(parts: seq<seq<Record>>, topic: string, key: string)
    requires parts != []
    ensures NoneStale(parts, topic, key) <==>
            NoneStale(parts[..|parts| - 1], topic, key) && NoStaleLock(parts[|parts| - 1], topic, key)
  {
    var init := parts[..|parts| - 1];
    assert forall p | 0 <= p < |init| :: init[p] == parts[p];
    if NoneStale(init, topic, key) && NoStaleLock(parts[|parts| - 1], topic, key) {
      forall p | 0 <= p < |parts| ensures NoStaleLock(parts[p], topic, key) {
        assert p < |init| ==> NoStaleLock(init[p], topic, key);
      }
    }
    if NoneStale(parts, topic, key) {
      forall p | 0 <= p < |init| ensures NoStaleLock(init[p], topic, key) {
        assert NoStaleLock(parts[p], topic, key);
      }
    }
  }

  lemma LocksBalanced(log: seq<Record>, topic: string, key: string)
    requires forall i | 0 <= i < |log| :: log[i].id != key
    ensures PrefixBalanced(OpsOf(ByRecordKey, log), topic, key)
  {
    forall n | 0 <= n <= |log| ensures Net(OpsOf(ByRecordKey, log)[..n], topic, key) >= 0 {
      assert OpsOf(ByRecordKey, log)[..n] == OpsOf(ByRecordKey, log[..n]);
      NetIsLocks(log[..n], topic, key);
    }
  }

  lemma SelectedIdsAreNotKeys(parts: seq<seq<Record>>, keeps: seq<seq<bool>>, key: string)
    requires Compactions(parts, keeps)
    requires forall p, i | 0 <= p < |parts| && 0 <= i < |parts[p]| :: parts[p][i].id != key
    ensures var kept := SelectAll(parts, keeps);
            forall p, i | 0 <= p < |kept| && 0 <= i < |kept[p]| :: kept[p][i].id != key
  {
    var kept: seq<seq<Record>> := SelectAll(parts, keeps);
    forall p, i | 0 <= p < |kept| && 0 <= i < |kept[p]| ensures kept[p][i].id != key {
      assert kept[p][i].id in Ids(kept[p]);
      SelectIds(parts[p], keeps[p], kept[p][i].id);
    }
  }

  /** What the code restores from: any interleaving of partitions that were compacted each on
      its own. It counts at least the outstanding ids of every key, and exactly those if and
      only if no superseded lock record is left in any partition. */
  lemma MergedCompaction(parts: seq<seq<Record>>, keeps: seq<seq<bool>>, merged: seq<Record>,
                         topic: string, key: string)
    requires Compactions(parts, keeps)
    requires forall p, i | 0 <= p < |parts| && 0 <= i < |parts[p]| :: parts[p][i].id != key
    requires Shuffles(OpsOf(ByRecordKey, merged), PartOps(ByRecordKey, SelectAll(parts, keeps)))
    ensures var restored := Count(Replay(ByRecordKey, merged), topic, key);
            && restored >= OutstandingTotal(parts, topic, key)
            && (restored == OutstandingTotal(parts, topic, key) <==> NoneStale(SelectAll(parts, keeps), topic, key))
  {
    var kept: seq<seq<Record>> := SelectAll(parts, keeps);
    SelectedIdsAreNotKeys(parts, keeps, key);
    forall p | 0 <= p < |parts|
      ensures PrefixBalanced(PartOps(ByRecordKey, kept)[p], topic, key)
      ensures Outstanding(kept[p], topic, key) == Outstanding(parts[p], topic, key)
    {
      LocksBalanced(kept[p], topic, key);
      CompactionKeepsOutstanding(parts[p], keeps[p], topic, key);
    }
    ShuffleOfBalanced(OpsOf(ByRecordKey, merged), PartOps(ByRecordKey, kept), topic, key);
    TotalLocks(kept, topic, key);
    SameOutstandingTotal(parts, kept, topic, key);
  }

  // ---------------------------------------------------------------- the two readings differ

  /** An acquire and a release with nothing in between leave nothing. */
  lemma PairLeavesNothing(l: Record, t: Record)
    requires !l.tombstone && t.tombstone && t.topic == l.topic && t.key == l.key
    ensures Count(Replay(ByBusinessKey, [l, t]), l.topic, l.key) == 0
  {
    assert OpsOf(ByBusinessKey, [l, t]) == [Acquire(l.topic, l.key), Release(l.topic, l.key)];
    CountAfter(map[], [], Acquire(l.topic, l.key), l.topic, l.key);
    CountAfter(map[], [Acquire(l.topic, l.key)], Release(l.topic, l.key), l.topic, l.key);
    assert [] + [Acquire(l.topic, l.key)] == [Acquire(l.topic, l.key)];
    assert [Acquire(l.topic, l.key)] + [Release(l.topic, l.key)] == OpsOf(ByBusinessKey, [l, t]);
  }

  lemma PairOutstanding(l: Record, t: Record)
    requires !l.tombstone && t.tombstone
    ensures Outstanding([l, t], l.topic, l.key) == {l.id} - {t.id}
  {
    OutstandingAppend([], l, l.topic, l.key);
    OutstandingAppend([l], t, l.topic, l.key);
    assert [] + [l] == [l] && [l] + [t] == [l, t];
  }

  /** Lock and release one id: the documented reading frees the key, the code keeps it locked. */
  lemma ReadingsDiffer(l: Record, t: Record)
    requires !l.tombstone && t == l.(tombstone := true) && l.id != l.key
    ensures Outstanding([l, t], l.topic, l.key) == {}
    ensures Count(Replay(ByBusinessKey, [l, t]), l.topic, l.key) == 0
    ensures Count(Replay(ByRecordKey, [l, t]), l.topic, l.key) == 1
  {
    PairOutstanding(l, t);
    PairLeavesNothing(l, t);
    ReplayCountsLocks([l, t], l.topic, l.key);
    assert [l, t] == [l] + [t];
    LocksConcat([l], [t], l.topic, l.key);
    assert [l][..0] == [] && [t][..0] == [];
  }

  /** Releasing the business key instead would be unsafe on a compacted log: when the lock
      record of a released id is gone but its tombstone is still there, replay frees a key
      that another id still holds. */
  lemma BusinessKeyUnsafeUnderCompaction(l1: Record, l2: Record)
    requires !l1.tombstone && !l2.tombstone && l1.topic == l2.topic && l1.key == l2.key && l1.id != l2.id
    ensures var log, keep := [l1, l2, l1.(tombstone := true)], [false, true, true];
            && WellOrdered(log) && Compaction(log, keep)
            && Outstanding(log, l1.topic, l1.key) == {l2.id}
            && Count(Replay(ByBusinessKey, Select(log, keep)), l1.topic, l1.key) == 0
  {
    var t1 := l1.(tombstone := true);
    var log, keep := [l1, l2, t1], [false, true, true];
    assert log[0] == log[2].(tombstone := false, origin := log[0].origin);
    assert !Latest(log, 0) by { assert log[2].id == log[0].id; }
    assert Select(log, keep) == [l2, t1] by {
      assert log[1..] == [l2, t1] && [l2, t1][1..] == [t1] && [t1][1..] == [];
      assert keep[1..] == [true, true] && [true, true][1..] == [true] && [true][1..] == [];
      assert Select([t1], [true]) == [t1] + Select([], []);
      assert Select([l2, t1], [true, true]) == [l2] + Select([t1], [true]);
    }
    CompactionKeepsOutstanding(log, keep, l1.topic, l1.key);
    PairOutstanding(l2, t1);
    PairLeavesNothing(l2, t1);
  }
}
