/** Restoring the lock table from the redirect topic, and waiting until its consumer has caught
    up. */
module Restoring {
  import opened Headers
  import opened LockTable
  import opened LocalCoordinator
  import opened Messaging
  import opened Coordinator
  import opened RedirectLog
  import opened Agreement
  import opened Offsets

  // ---------------------------------------------------------------- the handlers

  /** A consumed record with its position. */
  datatype Consumption = Consumption(partition: int, offset: int, message: Message)

  class RedirectFillHandler {
    const k: KafkaStateCoordinator
    const targetOffsets: OffsetMap
    var consumedOffsets: OffsetMap
    var cancelled: bool

    constructor (k: KafkaStateCoordinator, targetOffsets: OffsetMap)
      ensures this.k == k && this.targetOffsets == targetOffsets
      ensures consumedOffsets == map[] && !cancelled
    {
      this.k, this.targetOffsets := k, targetOffsets;
      consumedOffsets, cancelled := map[], false;
    }

    /** Applies the record first; a record that cannot be applied is not noted. */
    method Handle(r: Consumption) returns (failure: Option<string>)
      requires k.Valid()
      modifies this, k.local
      ensures k.Valid()
      ensures match ProcessRedirect(k.setting.self, old(k.local.lm), r.message)
              case Rejected(reason) =>
                failure == Some(reason) && k.local.lm == old(k.local.lm)
                && consumedOffsets == old(consumedOffsets) && cancelled == old(cancelled)
              case Applied(table) =>
                failure == None && k.local.lm == table
                && consumedOffsets == old(consumedOffsets)[r.partition := r.offset]
                && cancelled == (old(cancelled) || CaughtUp(consumedOffsets, targetOffsets))
    {
      failure := k.ProcessRedirectMessage(r.message);
      if failure.Some? {
        return;
      }
      consumedOffsets := consumedOffsets[r.partition := r.offset];
      var caughtUp := IsCaughtUpOffsets(consumedOffsets, targetOffsets);
      if caughtUp {
        cancelled := true;
      }
    }
  }

  class RedirectHandler {
    const k: KafkaStateCoordinator
    var consumedOffsets: OffsetMap

    constructor (k: KafkaStateCoordinator)
      ensures this.k == k && consumedOffsets == map[]
    {
      this.k, consumedOffsets := k, map[];
    }

    method Handle(r: Consumption) returns (failure: Option<string>)
      requires k.Valid()
      modifies this, k.local
      ensures k.Valid()
      ensures match ProcessRedirect(k.setting.self, old(k.local.lm), r.message)
              case Rejected(reason) => failure == Some(reason) && k.local.lm == old(k.local.lm)
                                       && consumedOffsets == old(consumedOffsets)
              case Applied(table) => failure == None && k.local.lm == table
                                     && consumedOffsets == old(consumedOffsets)[r.partition := r.offset]
    {
      failure := k.ProcessRedirectMessage(r.message);
      if failure.None? {
        consumedOffsets := consumedOffsets[r.partition := r.offset];
      }
    }
  }

  // ---------------------------------------------------------------- what they do record after record

  /** Whether a record can be applied depends on its headers only. */
  predicate Accepted(self: string, m: Message) {
    ProcessRedirect(self, map[], m).Applied?
  }

  lemma SameVerdict(self: string, table: Table, m: Message)
    requires Canonical(table)
    ensures ProcessRedirect(self, table, m).Applied? <==> Accepted(self, m)
  {
  }

  /** The positions of the records that could be applied. */
  function Positions(self: string, rs: seq<Consumption>): seq<Delivery> {
    if rs == [] then []
    else
      var r := rs[|rs| - 1];
      Positions(self, rs[..|rs| - 1]) +
      if Accepted(self, r.message) then [Delivery(r.partition, r.offset)] else []
  }

  /** The table after applying one record after another. */
  function Process(self: string, table: Table, rs: seq<Consumption>): (t: Table)
    requires Canonical(table)
    ensures Canonical(t)
  {
    if rs == [] then table
    else
      var before := Process(self, table, rs[..|rs| - 1]);
      match ProcessRedirect(self, before, rs[|rs| - 1].message)
      case Applied(t) => t
      case Rejected(_) => before
  }

  /** The offsets had caught up after some delivery. */
  ghost predicate HadCaughtUp(ds: seq<Delivery>, target: OffsetMap) {
    exists n | 0 < n <= |ds| :: CaughtUp(Noted(ds[..n]), target)
  }

  lemma OneMoreCaughtUp(ds: seq<Delivery>, d: Delivery, target: OffsetMap)
    ensures HadCaughtUp(ds + [d], target) <==> HadCaughtUp(ds, target) || CaughtUp(Noted(ds + [d]), target)
    ensures Noted(ds + [d]) == Noted(ds)[d.partition := d.offset]
  {
    var all := ds + [d];
    assert all[..|all|] == all && all[..|ds|] == ds;
    forall n | 0 < n <= |ds| ensures all[..n] == ds[..n] {
    }
  }

  /** What one record more adds: all of it, or nothing. */
  lemma OneRecordMore(self: string, table: Table, rs: seq<Consumption>, r: Consumption, target: OffsetMap)
    requires Canonical(table)
    ensures var ds, ds' := Positions(self, rs), Positions(self, rs + [r]);
            var t' := Process(self, table, rs + [r]);
            match ProcessRedirect(self, Process(self, table, rs), r.message)
            case Applied(t) =>
              && t' == t && ds' == ds + [Delivery(r.partition, r.offset)]
              && Noted(ds') == Noted(ds)[r.partition := r.offset]
              && (HadCaughtUp(ds', target) <==> HadCaughtUp(ds, target) || CaughtUp(Noted(ds'), target))
            case Rejected(_) => t' == Process(self, table, rs) && ds' == ds
  {
    assert (rs + [r])[..|rs|] == rs;
    SameVerdict(self, Process(self, table, rs), r.message);
    OneMoreCaughtUp(Positions(self, rs), Delivery(r.partition, r.offset), target);
  }

  lemma CancelledOnce(ds: seq<Delivery>, target: OffsetMap)
    ensures HadCaughtUp(ds, target) <==> exists n :: CancelsAt(ds, target, n)
  {
    if HadCaughtUp(ds, target) {
      var n :| 0 < n <= |ds| && CaughtUp(Noted(ds[..n]), target);
      FirstCaughtUp(ds, target, n);
    }
  }

  lemma {:induction false} FirstCaughtUp(ds: seq<Delivery>, target: OffsetMap, n: nat)
    requires 0 < n <= |ds| && CaughtUp(Noted(ds[..n]), target)
    ensures exists m :: CancelsAt(ds, target, m)
    decreases n
  {
    if m :| 0 < m < n && CaughtUp(Noted(ds[..m]), target) {
      FirstCaughtUp(ds, target, m);
    } else {
      assert CancelsAt(ds, target, n);
    }
  }

  /** Offsets are not negative. */
  ghost predicate Natural(contents: Contents, target: OffsetMap) {
    && (forall p | p in contents :: forall o | o in contents[p] :: o >= 0)
    && (forall p | p in target :: target[p] >= 0)
  }

  /** Having caught up once, everything below the targets has been applied; and where the last
      record below each target exists, that is when it had been for the first time. */
  lemma CaughtUpMeansApplied(contents: Contents, target: OffsetMap, ds: seq<Delivery>)
    requires InOrder(contents, ds) && Natural(contents, target)
    ensures HadCaughtUp(ds, target) ==> Covered(contents, target, ds)
    ensures TargetsReachable(contents, target) ==>
              forall n: nat :: CancelsAt(ds, target, n) <==> CoversAt(contents, target, ds, n)
  {
    if n :| 0 < n <= |ds| && CaughtUp(Noted(ds[..n]), target) {
      InOrderPrefix(contents, ds, n);
      CaughtUpIsCovered(contents, target, ds[..n]);
      assert forall d | d in ds[..n] :: d in ds;
    }
    if TargetsReachable(contents, target) {
      forall n: nat ensures CancelsAt(ds, target, n) <==> CoversAt(contents, target, ds, n) {
        if n > 0 {
          RestoreStopsExactly(contents, target, ds, n);
        }
      }
    }
  }

  /** A consumer given everything has caught up if and only if every target is reached or
      passed by a record that exists. */
  lemma HadCaughtUpExactly(contents: Contents, target: OffsetMap, ds: seq<Delivery>)
    requires InOrder(contents, ds) && Complete(contents, ds) && SomethingToRead(target)
    ensures HadCaughtUp(ds, target) <==> SomeRecordAtEnd(contents, target)
  {
    CatchesUpExactly(contents, target, ds);
    if n :| 0 < n <= |ds| && CaughtUp(Noted(ds[..n]), target) {
      InOrderPrefix(contents, ds, n);
      CatchesUpExactly(contents, target, ds[..n]);
    }
    if CaughtUp(Noted(ds), target) {
      var p :| p in target && target[p] != 0;
      assert ds != [] && ds[..|ds|] == ds;
    }
  }

  /** Some partition was not empty; otherwise restoring is skipped. */
  ghost predicate SomethingToRead(target: OffsetMap) {
    exists p :: p in target && target[p] != 0
  }

  ghost predicate CoversAt(contents: Contents, target: OffsetMap, ds: seq<Delivery>, n: nat) {
    0 < n <= |ds| && Covered(contents, target, ds[..n]) && forall m | 0 < m < n :: !Covered(contents, target, ds[..m])
  }

  /** Restoring: a fresh handler is given records, some perhaps after it has cancelled and some
      perhaps again; those it rejects leave no trace. It cancels only once everything below the
      targets has been applied, and, where the last record below each target exists, as soon. */
  method Restore(k: KafkaStateCoordinator, target: OffsetMap, rs: seq<Consumption>, ghost contents: Contents)
    returns (h: RedirectFillHandler)
    requires k.Valid()
    modifies k.local
    ensures fresh(h) && h.k == k && h.targetOffsets == target && k.Valid()
    ensures k.local.lm == Process(k.setting.self, old(k.local.lm), rs)
    ensures h.consumedOffsets == Noted(Positions(k.setting.self, rs))
    ensures h.cancelled <==> exists n :: CancelsAt(Positions(k.setting.self, rs), target, n)
    ensures InOrder(contents, Positions(k.setting.self, rs)) && Natural(contents, target) ==>
              && (h.cancelled ==> Covered(contents, target, Positions(k.setting.self, rs)))
              && (TargetsReachable(contents, target) ==>
                    (h.cancelled <==> exists n :: CoversAt(contents, target, Positions(k.setting.self, rs), n)))
    ensures InOrder(contents, Positions(k.setting.self, rs)) && Complete(contents, Positions(k.setting.self, rs))
            && SomethingToRead(target) ==>
              (h.cancelled <==> SomeRecordAtEnd(contents, target))
  {
    h := new RedirectFillHandler(k, target);
    ghost var self, table := k.setting.self, k.local.lm;
    for i := 0 to |rs|
      invariant fresh(h) && h.k == k && h.targetOffsets == target && k.Valid()
      invariant k.local.lm == Process(self, table, rs[..i])
      invariant h.consumedOffsets == Noted(Positions(self, rs[..i]))
      invariant h.cancelled <==> HadCaughtUp(Positions(self, rs[..i]), target)
    {
      assert rs[..i + 1] == rs[..i] + [rs[i]];
      OneRecordMore(self, table, rs[..i], rs[i], target);
      var failure := h.Handle(rs[i]);
    }
    assert rs[..|rs|] == rs;
    CancelledOnce(Positions(self, rs), target);
    if InOrder(contents, Positions(self, rs)) && Natural(contents, target) {
      CaughtUpMeansApplied(contents, target, Positions(self, rs));
    }
    if InOrder(contents, Positions(self, rs)) && Complete(contents, Positions(self, rs)) && SomethingToRead(target) {
      HadCaughtUpExactly(contents, target, Positions(self, rs));
    }
  }

  // ---------------------------------------------------------------- what is restored

  /** A record some other coordinator wrote to the redirect topic of `topic`, as it is received. */
  ghost predicate ReceivedForm(self: string, topic: string, m: Sent, r: Consumption) {
    && m.to == Redirect(topic) && NoDup(m.headers)
    && Get(m.headers, HEADER_TOPIC).Some? && Get(m.headers, HEADER_KEY).Some?
    && Get(m.headers, HEADER_COORDINATOR_ID).Some? && ToRecord(m).origin != self
    && r.message.key == m.key && r.message.payload == m.payload && r.message.headers == m.headers
  }

  ghost predicate Receives(self: string, topic: string, sent: seq<Sent>, rs: seq<Consumption>) {
    |rs| == |sent| && forall i | 0 <= i < |sent| :: ReceivedForm(self, topic, sent[i], rs[i])
  }

  /** One record more, applied: what it stands for is replayed. */
  lemma AppliedIsReplayed(self: string, topic: string, sent: seq<Sent>, table: Table, m: Sent, r: Consumption)
    requires ReceivedForm(self, topic, m, r) && table == Replay(ByRecordKey, Log(sent, topic))
    ensures Accepted(self, r.message)
    ensures ProcessRedirect(self, table, r.message) == Coordinator.Applied(Replay(ByRecordKey, Log(sent + [m], topic)))
  {
    ReceivedAsWritten(self, table, r.message.topic, m);
    SameVerdict(self, table, r.message);
    LogAppend(sent, m, topic);
    ReplayConsumes(ByRecordKey, self, Log(sent, topic), ToRecord(m));
  }

  lemma LastApplied(self: string, rs: seq<Consumption>, t: Table)
    requires rs != []
    requires ProcessRedirect(self, Process(self, map[], rs[..|rs| - 1]), rs[|rs| - 1].message) == Coordinator.Applied(t)
    ensures Process(self, map[], rs) == t
  {
  }

  /** A starting coordinator, whose identity is new, makes of the records the replay of the log
      they stand for. */
  lemma {:induction false} RestoresReplay(self: string, topic: string, sent: seq<Sent>, rs: seq<Consumption>)
    requires Receives(self, topic, sent, rs)
    ensures Process(self, map[], rs) == Replay(ByRecordKey, Log(sent, topic))
    decreases |rs|
  {
    if rs != [] {
      var n := |rs| - 1;
      var t := Replay(ByRecordKey, Log(sent, topic));
      assert ReceivedForm(self, topic, sent[n], rs[n]) && sent == sent[..n] + [sent[n]];
      RestoresReplay(self, topic, sent[..n], rs[..n]);
      AppliedIsReplayed(self, topic, sent[..n], Process(self, map[], rs[..n]), sent[n], rs[n]);
      LastApplied(self, rs, t);
    } else {
      assert OpsOf(ByRecordKey, []) == [];
    }
  }

  /** None of them is rejected. */
  lemma {:induction false} EveryPositionNoted(self: string, topic: string, sent: seq<Sent>, rs: seq<Consumption>)
    requires Receives(self, topic, sent, rs)
    ensures |Positions(self, rs)| == |rs|
    decreases |rs|
  {
    if rs != [] {
      var n := |rs| - 1;
      assert ReceivedForm(self, topic, sent[n], rs[n]);
      EveryPositionNoted(self, topic, sent[..n], rs[..n]);
      AppliedIsReplayed(self, topic, [], Replay(ByRecordKey, Log([], topic)), sent[n], rs[n]);
    }
  }

  /** So a coordinator that restores from partitions compacted each on its own, in any
      interleaving, never counts less than the outstanding ids of a key, and exactly those if
      and only if no superseded lock record is left. */
  lemma RestoredCounts(self: string, topic: string, sent: seq<Sent>, rs: seq<Consumption>, parts: seq<seq<Record>>,
                       keeps: seq<seq<bool>>, key: string)
    requires Receives(self, topic, sent, rs) && Compactions(parts, keeps)
    requires Shuffles(OpsOf(ByRecordKey, Log(sent, topic)), PartOps(ByRecordKey, SelectAll(parts, keeps)))
    requires forall p, i | 0 <= p < |parts| && 0 <= i < |parts[p]| :: parts[p][i].id != key
    ensures var restored := Count(Process(self, map[], rs), topic, key);
            && restored >= OutstandingTotal(parts, topic, key)
            && (restored == OutstandingTotal(parts, topic, key) <==> NoneStale(SelectAll(parts, keeps), topic, key))
  {
    RestoresReplay(self, topic, sent, rs);
    MergedCompaction(parts, keeps, Log(sent, topic), topic, key);
  }

  // ---------------------------------------------------------------- waiting

  /** How the waiting in `Synchronize` stands: the loop condition ended it, or the deadline
      did (which the caller cannot tell apart), or the context, or it is still going on. */
  datatype Waited = LoopCondition | Deadline | Cancelled | StillWaiting

  /** The waiter closes the channel whose closing the caller takes for success. */
  predicate Closes(why: Waited) {
    why.LoopCondition? || why.Deadline?
  }

  /** The waiting loop from look `n` on: `observed` are the offsets seen first and at each
      wake-up, `expired` and `gone` whether the deadline had passed or the context had ended
      by then. */
  ghost function Waiting(target: OffsetMap, observed: seq<OffsetMap>, expired: seq<bool>, gone: seq<bool>, n: nat)
    : (r: (Waited, nat))
    requires n < |observed| == |expired| == |gone|
    ensures n <= r.1 < |observed|
    decreases |observed| - n
  {
    if CaughtUp(observed[n], target) then (LoopCondition, n)
    else if gone[n] then (Waited.Cancelled, n)
    else if n + 1 == |observed| then (StillWaiting, n)
    else if expired[n + 1] then (Deadline, n)
    else Waiting(target, observed, expired, gone, n + 1)
  }

  method WaitForCatchUp(target: OffsetMap, observed: seq<OffsetMap>, expired: seq<bool>, gone: seq<bool>)
    returns (why: Waited, n: nat)
    requires |observed| == |expired| == |gone| > 0
    ensures (why, n) == Waiting(target, observed, expired, gone, 0)
  {
    n := 0;
    var caughtUp := IsCaughtUpOffsets(observed[n], target);
    while !caughtUp
      invariant n < |observed|
      invariant caughtUp <==> CaughtUp(observed[n], target)
      invariant Waiting(target, observed, expired, gone, 0) == Waiting(target, observed, expired, gone, n)
      decreases |observed| - n, !caughtUp
    {
      if gone[n] {
        return Waited.Cancelled, n;
      }
      if n + 1 == |observed| {
        return StillWaiting, n;
      }
      if expired[n + 1] {
        return Deadline, n;
      }
      n := n + 1;
      caughtUp := IsCaughtUpOffsets(observed[n], target);
    }
    why := LoopCondition;
  }

  /** Looking again at `m` found nothing that ends the waiting. */
  ghost predicate WaitsOn(target: OffsetMap, observed: seq<OffsetMap>, expired: seq<bool>, gone: seq<bool>, m: nat)
    requires m < |observed| == |expired| == |gone|
  {
    !CaughtUp(observed[m], target) && !gone[m] && m + 1 < |observed| && !expired[m + 1]
  }

  ghost predicate WaitsUpTo(target: OffsetMap, observed: seq<OffsetMap>, expired: seq<bool>, gone: seq<bool>,
                            from: nat, n: nat)
    requires n <= |observed| == |expired| == |gone|
  {
    forall m | from <= m < n :: WaitsOn(target, observed, expired, gone, m)
  }

  /** The loop condition ends the waiting at the first look that finds the targets reached, if
      nothing else has before; the deadline does at a wake-up after it, whatever the offsets
      are by then; the end of the context does at a look that finds them not reached; and it is
      still going on if there was no other wake-up. */
  lemma {:induction false} WaitingEnds(target: OffsetMap, observed: seq<OffsetMap>, expired: seq<bool>, gone: seq<bool>,
                                       from: nat, n: nat)
    requires from <= n < |observed| == |expired| == |gone|
    ensures Waiting(target, observed, expired, gone, from) == (LoopCondition, n) <==>
            CaughtUp(observed[n], target) && WaitsUpTo(target, observed, expired, gone, from, n)
    ensures Waiting(target, observed, expired, gone, from) == (Deadline, n) <==>
            !CaughtUp(observed[n], target) && !gone[n] && n + 1 < |observed| && expired[n + 1]
            && WaitsUpTo(target, observed, expired, gone, from, n)
    ensures Waiting(target, observed, expired, gone, from) == (Waited.Cancelled, n) <==>
            !CaughtUp(observed[n], target) && gone[n]
            && WaitsUpTo(target, observed, expired, gone, from, n)
    ensures Waiting(target, observed, expired, gone, from) == (StillWaiting, n) <==>
            !CaughtUp(observed[n], target) && !gone[n] && n + 1 == |observed|
            && WaitsUpTo(target, observed, expired, gone, from, n)
    decreases |observed| - from
  {
    if from < n {
      assert WaitsUpTo(target, observed, expired, gone, from, n) <==>
             WaitsOn(target, observed, expired, gone, from) && WaitsUpTo(target, observed, expired, gone, from + 1, n);
      if WaitsOn(target, observed, expired, gone, from) {
        WaitingEnds(target, observed, expired, gone, from + 1, n);
      }
    }
  }

  /** The channel can be closed although nothing has been consumed at all. */
  lemma DeadlineLooksLikeSuccess(target: OffsetMap, p: int)
    requires p in target && target[p] != 0
    ensures var observed: seq<OffsetMap> := [map[], map[]];
            var (why, n) := Waiting(target, observed, [false, true], [false, false], 0);
            Closes(why) && forall m | 0 <= m < |observed| :: !CaughtUp(observed[m], target)
  {
  }

  /** The consumer behind `Synchronize`: its handler notes what it has applied. */
  method Follow(h: RedirectHandler, rs: seq<Consumption>)
    requires h.k.Valid() && h.consumedOffsets == map[]
    modifies h, h.k.local
    ensures h.k.Valid()
    ensures h.consumedOffsets == Noted(Positions(h.k.setting.self, rs))
    ensures h.k.local.lm == Process(h.k.setting.self, old(h.k.local.lm), rs)
  {
    ghost var self, table := h.k.setting.self, h.k.local.lm;
    for i := 0 to |rs|
      invariant h.k.Valid()
      invariant h.k.local.lm == Process(self, table, rs[..i])
      invariant h.consumedOffsets == Noted(Positions(self, rs[..i]))
    {
      assert rs[..i + 1] == rs[..i] + [rs[i]];
      OneRecordMore(self, table, rs[..i], rs[i], map[]);
      var failure := h.Handle(rs[i]);
    }
    assert rs[..|rs|] == rs;
  }

  /** `seen[i]` records had been handled at look `i`: then that is what the waiter observes. */
  ghost predicate Observes(self: string, rs: seq<Consumption>, seen: seq<nat>, observed: seq<OffsetMap>) {
    && |seen| == |observed|
    && forall i | 0 <= i < |seen| :: seen[i] <= |rs| && observed[i] == Noted(Positions(self, rs[..seen[i]]))
  }

  /** Synchronizing: when the loop condition ends the waiting, everything below the targets
      that exists in the partitions consumed from had been applied by then; and in any case
      what the waiter has reported is that or the deadline. */
  method Synchronize(target: OffsetMap, observed: seq<OffsetMap>, expired: seq<bool>, gone: seq<bool>,
                         ghost self: string, ghost rs: seq<Consumption>, ghost seen: seq<nat>, ghost contents: Contents)
    returns (why: Waited, n: nat)
    requires |observed| == |expired| == |gone| > 0
    requires Observes(self, rs, seen, observed)
    requires InOrder(contents, Positions(self, rs)) && Natural(contents, target)
    ensures (why, n) == Waiting(target, observed, expired, gone, 0) && n < |observed|
    ensures why == LoopCondition ==> Covered(contents, target, Positions(self, rs[..seen[n]]))
    ensures TargetsReachable(contents, target) && n < |observed| && why != LoopCondition ==>
              !Covered(contents, target, Positions(self, rs[..seen[n]]))
  {
    why, n := WaitForCatchUp(target, observed, expired, gone);
    WaitingWithin(target, observed, expired, gone, 0);
    PositionsPrefix(self, rs, seen[n]);
    InOrderPrefix(contents, Positions(self, rs), |Positions(self, rs[..seen[n]])|);
    CaughtUpIsCovered(contents, target, Positions(self, rs[..seen[n]]));
  }

  lemma {:induction false} WaitingWithin(target: OffsetMap, observed: seq<OffsetMap>, expired: seq<bool>,
                                         gone: seq<bool>,
                                         from: nat)
    requires from < |observed| == |expired| == |gone|
    ensures var (why, n) := Waiting(target, observed, expired, gone, from);
            n < |observed| && (why == LoopCondition <==> CaughtUp(observed[n], target))
    decreases |observed| - from
  {
    if WaitsOn(target, observed, expired, gone, from) {
      WaitingWithin(target, observed, expired, gone, from + 1);
    }
  }

  lemma {:induction false} PositionsPrefix(self: string, rs: seq<Consumption>, n: nat)
    requires n <= |rs|
    ensures Positions(self, rs[..n]) <= Positions(self, rs)
    decreases |rs|
  {
    if n < |rs| {
      PositionsPrefix(self, rs[..|rs| - 1], n);
      assert rs[..|rs| - 1][..n] == rs[..n];
    } else {
      assert rs[..n] == rs;
    }
  }
}
