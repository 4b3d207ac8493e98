/** Catching up with the redirect topic: consumed offsets and high-water marks. */
module Offsets {
  import opened RedirectLog

  /** Offsets by partition; a target is the next offset to be written. */
  type OffsetMap = map<int, int>

  ghost predicate CaughtUp(consumed: OffsetMap, target: OffsetMap) {
    forall p | p in target && target[p] != 0 :: p in consumed && consumed[p] >= target[p] - 1
  }

  lemma NonEmpty(s: set<int>)
    requires s != {}
    ensures exists p :: p in s
  {
    if forall q: int :: q !in s { assert false; }
  }

  /** `isCaughtUpOffsets`: a loop over the targets in no particular order. */
  method IsCaughtUpOffsets(consumed: OffsetMap, target: OffsetMap) returns (caughtUp: bool)
    ensures caughtUp <==> CaughtUp(consumed, target)
  {
    var left: set<int> := target.Keys;
    while left != {}
      invariant left <= target.Keys
      invariant forall p | p in target && p !in left && target[p] != 0 ::
                  p in consumed && consumed[p] >= target[p] - 1
      decreases left
    {
      NonEmpty(left);
      var p: int :| p in left;
      left := left - {p};
      if target[p] == 0 {
        continue;
      }
      if p !in consumed || consumed[p] < target[p] - 1 {
        return false;
      }
    }
    return true;
  }

  /** Being caught up survives more consumption and lower targets. */
  lemma CaughtUpMonotone(consumed: OffsetMap, more: OffsetMap, target: OffsetMap, less: OffsetMap)
    requires CaughtUp(consumed, target)
    requires forall p | p in consumed :: p in more && more[p] >= consumed[p]
    requires forall p | p in less :: less[p] == 0 || (p in target && 0 < less[p] <= target[p])
    ensures CaughtUp(more, less)
  {
    forall p | p in less && less[p] != 0 ensures p in more && more[p] >= less[p] - 1 {
      assert target[p] != 0;
    }
  }

  // ---------------------------------------------------------------- deliveries

  /** One record handed to a consumer. */
  datatype Delivery = Delivery(partition: int, offset: int)

  /** The offsets noted after handling deliveries one by one. */
  function Noted(ds: seq<Delivery>): OffsetMap {
    if ds == [] then map[] else Noted(ds[..|ds| - 1])[ds[|ds| - 1].partition := ds[|ds| - 1].offset]
  }

  /** The records that exist in each partition (compaction may have left gaps). */
  type Contents = map<int, set<int>>

  /** A consumer gets the records of each partition in order, without skipping any, and the
      partitions in any interleaving: before a record come all earlier ones of its partition. */
  ghost predicate InOrder(contents: Contents, ds: seq<Delivery>) {
    && (forall i | 0 <= i < |ds| :: ds[i].partition in contents && ds[i].offset in contents[ds[i].partition])
    && (forall i, o | 0 <= i < |ds| && o in contents[ds[i].partition] && o < ds[i].offset ::
          exists j | 0 <= j < i :: ds[j] == Delivery(ds[i].partition, o))
    && (forall i, j | 0 <= i < j < |ds| && ds[i].partition == ds[j].partition :: ds[i].offset < ds[j].offset)
  }

  /** Everything below the target of every partition has been handed over. */
  ghost predicate Covered(contents: Contents, target: OffsetMap, ds: seq<Delivery>) {
    forall p, o | p in target && p in contents && o in contents[p] && o < target[p] :: Delivery(p, o) in ds
  }

  /** The last record below each target exists. */
  ghost predicate TargetsReachable(contents: Contents, target: OffsetMap) {
    forall p | p in target && target[p] != 0 :: p in contents && target[p] - 1 in contents[p]
  }

  lemma {:induction false} NotedIsLast(contents: Contents, ds: seq<Delivery>)
    requires InOrder(contents, ds)
    ensures forall p | p in Noted(ds) :: Delivery(p, Noted(ds)[p]) in ds
    ensures forall i | 0 <= i < |ds| :: ds[i].partition in Noted(ds) && ds[i].offset <= Noted(ds)[ds[i].partition]
    decreases |ds|
  {
    if ds != [] {
      var n := |ds| - 1;
      var init, last := ds[..n], ds[n];
      InOrderPrefix(contents, ds, n);
      NotedIsLast(contents, init);
      forall p | p in Noted(ds) ensures Delivery(p, Noted(ds)[p]) in ds {
        if p != last.partition {
          assert Delivery(p, Noted(init)[p]) in init;
        }
      }
      forall i | 0 <= i < |ds|
        ensures ds[i].partition in Noted(ds) && ds[i].offset <= Noted(ds)[ds[i].partition]
      {
        if i < n {
          assert init[i] == ds[i];
        }
      }
    }
  }

  lemma InOrderPrefix(contents: Contents, ds: seq<Delivery>, n: nat)
    requires InOrder(contents, ds) && n <= |ds|
    ensures InOrder(contents, ds[..n])
  {
    var init := ds[..n];
    assert forall i | 0 <= i < n :: init[i] == ds[i];
    forall i, o | 0 <= i < n && o in contents[init[i].partition] && o < init[i].offset
      ensures exists j | 0 <= j < i :: init[j] == Delivery(init[i].partition, o)
    {
      var j :| 0 <= j < i && ds[j] == Delivery(ds[i].partition, o);
      assert init[j] == ds[j];
    }
  }

  /** Caught up means covered; and where the last record below every target exists, covered
      means caught up. */
  lemma CaughtUpIsCovered(contents: Contents, target: OffsetMap, ds: seq<Delivery>)
    requires InOrder(contents, ds)
    requires forall p | p in contents :: forall o | o in contents[p] :: o >= 0
    requires forall p | p in target :: target[p] >= 0
    ensures CaughtUp(Noted(ds), target) ==> Covered(contents, target, ds)
    ensures TargetsReachable(contents, target) && Covered(contents, target, ds) ==> CaughtUp(Noted(ds), target)
  {
    NotedIsLast(contents, ds);
    if CaughtUp(Noted(ds), target) {
      forall p, o | p in target && p in contents && o in contents[p] && o < target[p]
        ensures Delivery(p, o) in ds
      {
        var last := Noted(ds)[p];
        var i :| 0 <= i < |ds| && ds[i] == Delivery(p, last);
        if o < last {
          var j :| 0 <= j < i && ds[j] == Delivery(p, o);
        }
      }
    }
    if TargetsReachable(contents, target) && Covered(contents, target, ds) {
      forall p | p in target && target[p] != 0 ensures p in Noted(ds) && Noted(ds)[p] >= target[p] - 1 {
        assert Delivery(p, target[p] - 1) in ds;
      }
    }
  }

  /** The first delivery after which the offsets have caught up. */
  ghost predicate CancelsAt(ds: seq<Delivery>, target: OffsetMap, n: nat) {
    && 0 < n <= |ds| && CaughtUp(Noted(ds[..n]), target)
    && forall m | 0 < m < n :: !CaughtUp(Noted(ds[..m]), target)
  }

  /** Restoring stops exactly at the delivery that completes the snapshot: everything below
      the snapshot has been handed over then, and not before. */
  lemma RestoreStopsExactly(contents: Contents, target: OffsetMap, ds: seq<Delivery>, n: nat)
    requires InOrder(contents, ds)
    requires forall p | p in contents :: forall o | o in contents[p] :: o >= 0
    requires forall p | p in target :: target[p] >= 0
    requires TargetsReachable(contents, target)
    ensures CancelsAt(ds, target, n) <==>
            && 0 < n <= |ds| && Covered(contents, target, ds[..n])
            && forall m | 0 < m < n :: !Covered(contents, target, ds[..m])
  {
    forall m | 0 <= m <= |ds| ensures CaughtUp(Noted(ds[..m]), target) <==> Covered(contents, target, ds[..m]) {
      InOrderPrefix(contents, ds, m);
      CaughtUpIsCovered(contents, target, ds[..m]);
    }
  }

  // ---------------------------------------------------------------- exactly when

  /** Every record there is has been handed over. */
  ghost predicate Complete(contents: Contents, ds: seq<Delivery>) {
    forall p, o | p in contents && o in contents[p] :: Delivery(p, o) in ds
  }

  /** Every target is reached or passed by some record that exists. */
  ghost predicate SomeRecordAtEnd(contents: Contents, target: OffsetMap) {
    forall p | p in target && target[p] != 0 :: p in contents && exists o :: o in contents[p] && o >= target[p] - 1
  }

  /** A consumer that is given everything catches up if and only if every target is reached
      or passed by a record that exists; without that no consumer ever does. */
  lemma CatchesUpExactly(contents: Contents, target: OffsetMap, ds: seq<Delivery>)
    requires InOrder(contents, ds)
    ensures CaughtUp(Noted(ds), target) ==> SomeRecordAtEnd(contents, target)
    ensures Complete(contents, ds) ==> (CaughtUp(Noted(ds), target) <==> SomeRecordAtEnd(contents, target))
  {
    NotedIsLast(contents, ds);
    if CaughtUp(Noted(ds), target) {
      forall p | p in target && target[p] != 0
        ensures p in contents && exists o :: o in contents[p] && o >= target[p] - 1
      {
        var i :| 0 <= i < |ds| && ds[i] == Delivery(p, Noted(ds)[p]);
      }
    }
    if Complete(contents, ds) && SomeRecordAtEnd(contents, target) {
      forall p | p in target && target[p] != 0 ensures p in Noted(ds) && Noted(ds)[p] >= target[p] - 1 {
        var o :| o in contents[p] && o >= target[p] - 1;
        var i :| 0 <= i < |ds| && ds[i] == Delivery(p, o);
      }
    }
  }

  /** The last of the given deliveries from one partition. */
  lemma {:induction false} LastOf(ds: set<Delivery>, d: Delivery) returns (last: Delivery)
    requires d in ds
    ensures last in ds && last.partition == d.partition
    ensures forall e | e in ds && e.partition == d.partition :: e.offset <= last.offset
    decreases ds
  {
    last := d;
    if e :| e in ds && e.partition == d.partition && e.offset > d.offset {
      last := LastOf(ds - {d}, e);
    }
  }

  /** What a consumer may have been given so far. */
  ghost predicate Closed(contents: Contents, ds: set<Delivery>) {
    && (forall d | d in ds :: d.partition in contents && d.offset in contents[d.partition])
    && forall d, o | d in ds && o in contents[d.partition] && o < d.offset :: Delivery(d.partition, o) in ds
  }

  /** Any such set can have been given in order. */
  lemma {:induction false} CanBeGiven(contents: Contents, given: set<Delivery>) returns (ds: seq<Delivery>)
    requires Closed(contents, given)
    ensures InOrder(contents, ds) && forall d :: d in ds <==> d in given
    decreases given
  {
    ds := [];
    if d :| d in given {
      var last := LastOf(given, d);
      var before := CanBeGiven(contents, given - {last});
      ds := before + [last];
      forall o | o in contents[last.partition] && o < last.offset
        ensures exists j | 0 <= j < |before| :: before[j] == Delivery(last.partition, o)
      {
        assert Delivery(last.partition, o) in before;
      }
      GivenNext(contents, before, last);
    }
  }

  lemma GivenNext(contents: Contents, ds: seq<Delivery>, d: Delivery)
    requires InOrder(contents, ds) && d.partition in contents && d.offset in contents[d.partition]
    requires forall o | o in contents[d.partition] && o < d.offset ::
               exists j | 0 <= j < |ds| :: ds[j] == Delivery(d.partition, o)
    requires forall i | 0 <= i < |ds| && ds[i].partition == d.partition :: ds[i].offset < d.offset
    ensures InOrder(contents, ds + [d])
  {
    var all := ds + [d];
    forall i, o | 0 <= i < |all| && o in contents[all[i].partition] && o < all[i].offset
      ensures exists j | 0 <= j < i :: all[j] == Delivery(all[i].partition, o)
    {
      if i < |ds| {
        var j :| 0 <= j < i && ds[j] == Delivery(ds[i].partition, o);
        assert all[j] == ds[j];
      } else {
        var j :| 0 <= j < |ds| && ds[j] == Delivery(d.partition, o);
        assert all[j] == ds[j];
      }
    }
  }

  /** Caught up and covered are the same for every consumer if and only if the last record
      below every target exists. */
  lemma CoverageExactly(contents: Contents, target: OffsetMap)
    requires forall p | p in contents :: forall o | o in contents[p] :: o >= 0
    requires forall p | p in target :: target[p] >= 0
    ensures TargetsReachable(contents, target) <==>
            forall ds | InOrder(contents, ds) :: CaughtUp(Noted(ds), target) <==> Covered(contents, target, ds)
  {
    if TargetsReachable(contents, target) {
      forall ds | InOrder(contents, ds) ensures CaughtUp(Noted(ds), target) <==> Covered(contents, target, ds) {
        CaughtUpIsCovered(contents, target, ds);
      }
    } else {
      var ds := CoveredNotCaughtUp(contents, target);
    }
  }

  lemma CoveredNotCaughtUp(contents: Contents, target: OffsetMap) returns (ds: seq<Delivery>)
    requires !TargetsReachable(contents, target)
    ensures InOrder(contents, ds) && Covered(contents, target, ds) && !CaughtUp(Noted(ds), target)
  {
    var p :| p in target && target[p] != 0 && !(p in contents && target[p] - 1 in contents[p]);
    ds := CanBeGiven(contents,
                     set q, o | q in contents && o in contents[q] && q in target && o < target[q] :: Delivery(q, o));
    NotedIsLast(contents, ds);
    if p in Noted(ds) {
      assert Delivery(p, Noted(ds)[p]) in ds;
    }
  }

  // ---------------------------------------------------------------- compacted partitions

  /** The offsets a compaction leaves. */
  function Kept(keep: seq<bool>): set<int> {
    set i | 0 <= i < |keep| && keep[i]
  }

  /** Some record from the last below `n` on is kept. */
  ghost predicate KeptFrom(keep: seq<bool>, n: nat) {
    n == 0 || exists i :: n - 1 <= i < |keep| && keep[i]
  }

  /** Restoring from one partition, compacted later, with the snapshot taken at length `n`: it
      completes if and only if a record from the last below the snapshot on is kept. */
  lemma RestoreCompletesExactly(keep: seq<bool>, n: nat, p: int, ds: seq<Delivery>)
    requires InOrder(map[p := Kept(keep)], ds) && Complete(map[p := Kept(keep)], ds)
    ensures CaughtUp(Noted(ds), map[p := n]) <==> KeptFrom(keep, n)
  {
    var contents: Contents, target: OffsetMap := map[p := Kept(keep)], map[p := n];
    CatchesUpExactly(contents, target, ds);
    if n > 0 && KeptFrom(keep, n) {
      var i :| n - 1 <= i < |keep| && keep[i];
      assert i in contents[p];
    }
    if n > 0 && SomeRecordAtEnd(contents, target) {
      var o :| o in contents[p] && o >= target[p] - 1;
      assert keep[o];
    }
  }

  /** The last record of a compacted log is missing if and only if it is a tombstone whose id
      the compaction has dropped altogether. */
  lemma LastRecordKept(log: seq<Record>, keep: seq<bool>)
    requires Compaction(log, keep) && log != []
    ensures KeptFrom(keep, |log|) <==> !DroppedTombstone(log, keep)
  {
    assert Latest(log, |log| - 1);
  }

  ghost predicate DroppedTombstone(log: seq<Record>, keep: seq<bool>)
    requires |keep| == |log| > 0
  {
    var last := log[|log| - 1];
    last.tombstone && forall j | 0 <= j < |log| && log[j].id == last.id :: !keep[j]
  }

  /** With nothing written since the snapshot, restoring fails exactly then. */
  lemma OnlyDroppedTombstones(log: seq<Record>, keep: seq<bool>, p: int, ds: seq<Delivery>)
    requires Compaction(log, keep) && log != []
    requires InOrder(map[p := Kept(keep)], ds) && Complete(map[p := Kept(keep)], ds)
    ensures CaughtUp(Noted(ds), map[p := |log|]) <==> !DroppedTombstone(log, keep)
  {
    RestoreCompletesExactly(keep, |log|, p, ds);
    LastRecordKept(log, keep);
  }

  /** And that does happen: a lock that is held, a lock that was released, and the release at
      the end of the log; everything left is handed over and the offsets never catch up. */
  lemma CompactedTailNeverCatchesUp(held: Record, released: Record, p: int)
    requires !held.tombstone && !released.tombstone && held.id != released.id
    ensures var log, keep := [held, released, released.(tombstone := true)], [true, false, false];
            var ds := [Delivery(p, 0)];
            && Compaction(log, keep)
            && InOrder(map[p := Kept(keep)], ds) && Complete(map[p := Kept(keep)], ds)
            && Covered(map[p := Kept(keep)], map[p := |log|], ds)
            && forall n | 0 <= n <= |ds| :: !CaughtUp(Noted(ds[..n]), map[p := |log|])
  {
    var log, keep := [held, released, released.(tombstone := true)], [true, false, false];
    var ds := [Delivery(p, 0)];
    assert Kept(keep) == {0};
    assert !Latest(log, 1) by { assert log[2].id == log[1].id; }
    var contents: Contents, target: OffsetMap := map[p := Kept(keep)], map[p := |log|];
    assert forall o | o in contents[p] :: o == 0;
    assert p in target && target[p] == 3 && !SomeRecordAtEnd(contents, target);
    forall n | 0 <= n <= |ds| ensures !CaughtUp(Noted(ds[..n]), target) {
      InOrderPrefix(contents, ds, n);
      CatchesUpExactly(contents, target, ds[..n]);
    }
  }
}
