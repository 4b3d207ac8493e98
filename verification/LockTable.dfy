/** The nested reference-count map `topic -> key -> count` as a value, the history of
    operations on it, and what any such history amounts to. */
module LockTable {

  type Table = map<string, map<string, int>>

  /** What every table built by the coordinator looks like: no zero counts, no empty topics. */
  ghost predicate Canonical(m: Table) {
    forall t | t in m :: m[t].Keys != {} && forall k | k in m[t] :: m[t][k] >= 1
  }

  function Count(m: Table, topic: string, key: string): int {
    if topic in m && key in m[topic] then m[topic][key] else 0
  }

  function Increment(m: Table, topic: string, key: string): (r: Table)
    ensures Canonical(m) ==> Canonical(r)
    ensures forall t, k :: Count(r, t, k) == Count(m, t, k) + if t == topic && k == key then 1 else 0
    ensures Canonical(m) ==> Count(m, topic, key) >= 0
  {
    var inner := (if topic in m then m[topic] else map[])[key := Count(m, topic, key) + 1];
    assert key in inner.Keys;
    m[topic := inner]
  }

  /** A release: a missing key is left alone, a count that reaches zero disappears, and a
      topic that becomes empty disappears with it. */
  function Decrement(m: Table, topic: string, key: string): (r: Table)
    requires Canonical(m)
    ensures Canonical(r)
    ensures forall t, k :: Count(r, t, k) ==
                           if t == topic && k == key && Count(m, t, k) > 0 then Count(m, t, k) - 1
                           else Count(m, t, k)
    ensures Count(m, topic, key) == 0 ==> r == m
  {
    if topic !in m || key !in m[topic] then m
    else if m[topic][key] > 1 then m[topic := m[topic][key := m[topic][key] - 1]]
    else if m[topic].Keys == {key} then m - {topic}
    else
      var rest := m[topic] - {key};
      assert rest.Keys == m[topic].Keys - {key} != {};
      m[topic := rest]
  }

  lemma CountNonNegative(m: Table, topic: string, key: string)
    requires Canonical(m)
    ensures Count(m, topic, key) >= 0
    ensures Count(m, topic, key) > 0 <==> topic in m && key in m[topic]
  {
  }

  /** Canonical tables are determined by their counts. */
  lemma CanonicalUnique(a: Table, b: Table)
    requires Canonical(a) && Canonical(b)
    requires forall t, k :: Count(a, t, k) == Count(b, t, k)
    ensures a == b
  {
    forall t, k ensures (t in a && k in a[t]) <==> (t in b && k in b[t]) {
      CountNonNegative(a, t, k);
      CountNonNegative(b, t, k);
    }
    TopicsWithin(a, b);
    TopicsWithin(b, a);
    forall t | t in a ensures a[t] == b[t] {
      forall k | k in a[t] ensures k in b[t] && a[t][k] == b[t][k] {
        assert Count(a, t, k) == Count(b, t, k);
      }
      assert a[t].Keys == b[t].Keys;
    }
  }

  lemma TopicsWithin(a: Table, b: Table)
    requires Canonical(a)
    requires forall t, k :: (t in a && k in a[t]) ==> (t in b && k in b[t])
    ensures a.Keys <= b.Keys
  {
    forall t | t in a ensures t in b {
      assert a[t].Keys != {};
      var k :| k in a[t];
    }
  }

  // ---------------------------------------------------------------- histories

  datatype Op = Acquire(topic: string, key: string) | Release(topic: string, key: string)

  function Apply(m: Table, op: Op): (r: Table)
    requires Canonical(m)
    ensures Canonical(r)
  {
    match op
    case Acquire(t, k) => Increment(m, t, k)
    case Release(t, k) => Decrement(m, t, k)
  }

  function Run(m: Table, h: seq<Op>): (r: Table)
    requires Canonical(m)
    ensures Canonical(r)
  {
    if h == [] then m else Apply(Run(m, h[..|h| - 1]), h[|h| - 1])
  }

  lemma {:induction false} RunConcat(m: Table, a: seq<Op>, b: seq<Op>)
    requires Canonical(m)
    ensures Run(m, a + b) == Run(Run(m, a), b)
    decreases |b|
  {
    if b == [] {
      assert a + b == a;
    } else {
      var n := |b| - 1;
      RunConcat(m, a, b[..n]);
      assert (a + b)[..|a + b| - 1] == a + b[..n];
      assert (a + b)[|a + b| - 1] == b[n];
    }
  }

  /** What one operation contributes to one key. */
  function Effect(op: Op, topic: string, key: string): int {
    if op == Acquire(topic, key) then 1
    else if op == Release(topic, key) then -1
    else 0
  }

  /** One more operation moves the count by its effect, but never below zero. */
  lemma CountAfter(m: Table, h: seq<Op>, op: Op, topic: string, key: string)
    requires Canonical(m)
    ensures Count(Run(m, h), topic, key) >= 0
    ensures Count(Run(m, h + [op]), topic, key)
         == var c := Count(Run(m, h), topic, key) + Effect(op, topic, key); if c < 0 then 0 else c
  {
    assert (h + [op])[..|h + [op]| - 1] == h;
    CountNonNegative(Run(m, h), topic, key);
  }

  /** Acquires minus releases of one key. */
  function Net(h: seq<Op>, topic: string, key: string): int {
    if h == [] then 0 else Net(h[..|h| - 1], topic, key) + Effect(h[|h| - 1], topic, key)
  }

  /** `c` is the largest net value of a suffix of `h`. */
  ghost predicate LargestSuffix(h: seq<Op>, topic: string, key: string, c: int) {
    && (exists i | 0 <= i <= |h| :: Net(h[i..], topic, key) == c)
    && (forall i | 0 <= i <= |h| :: Net(h[i..], topic, key) <= c)
  }

  /** The closed form of the saturating counter: after any history, balanced or not, the
      count of a key is the maximum over the suffixes of acquires minus releases. */
  lemma {:induction false} CountIsLargestSuffix(h: seq<Op>, topic: string, key: string)
    ensures LargestSuffix(h, topic, key, Count(Run(map[], h), topic, key))
    decreases |h|
  {
    if h == [] {
      assert h[0..] == [];
    } else {
      var n := |h| - 1;
      var before, op := h[..n], h[n];
      CountIsLargestSuffix(before, topic, key);
      assert before + [op] == h;
      CountAfter(map[], before, op, topic, key);
      SuffixesGrow(before, op, topic, key, Count(Run(map[], before), topic, key));
    }
  }

  lemma SuffixesGrow(h: seq<Op>, op: Op, topic: string, key: string, c: int)
    requires LargestSuffix(h, topic, key, c) && c >= 0
    ensures LargestSuffix(h + [op], topic, key,
                          var d := c + Effect(op, topic, key); if d < 0 then 0 else d)
  {
    var h', n := h + [op], |h|;
    forall i | 0 <= i <= n ensures Net(h'[i..], topic, key) == Net(h[i..], topic, key) + Effect(op, topic, key) {
      assert h'[i..][..|h'[i..]| - 1] == h[i..];
    }
    assert h'[n + 1..] == [] && Net(h'[n + 1..], topic, key) == 0;
    var j :| 0 <= j <= n && Net(h[j..], topic, key) == c;
    assert Net(h'[j..], topic, key) == c + Effect(op, topic, key);
  }

  /** Only the operations on the key itself matter. */
  function OnlyFor(h: seq<Op>, topic: string, key: string): seq<Op> {
    if h == [] then []
    else
      OnlyFor(h[..|h| - 1], topic, key) +
      if Effect(h[|h| - 1], topic, key) == 0 then [] else [h[|h| - 1]]
  }

  lemma {:induction false} OtherKeysDoNotMatter(m: Table, h: seq<Op>, topic: string, key: string)
    requires Canonical(m)
    ensures Count(Run(m, h), topic, key) == Count(Run(m, OnlyFor(h, topic, key)), topic, key)
    decreases |h|
  {
    if h != [] {
      var before, op := h[..|h| - 1], h[|h| - 1];
      OtherKeysDoNotMatter(m, before, topic, key);
      assert before + [op] == h;
      CountAfter(m, before, op, topic, key);
      CountAfter(m, OnlyFor(before, topic, key), op, topic, key);
      assert OnlyFor(before, topic, key) + [] == OnlyFor(before, topic, key);
    }
  }

  // ---------------------------------------------------------------- undo

  /** Some release of the key happens while its count is zero. */
  ghost predicate ReleasesAtZero(m: Table, h: seq<Op>, topic: string, key: string)
    requires Canonical(m)
  {
    exists i | 0 <= i < |h| :: h[i] == Release(topic, key) && Count(Run(m, h[..i]), topic, key) == 0
  }

  lemma ReleasesAtZeroStep(m: Table, h: seq<Op>, topic: string, key: string)
    requires Canonical(m) && h != []
    ensures ReleasesAtZero(m, h, topic, key) <==>
            || ReleasesAtZero(m, h[..|h| - 1], topic, key)
            || (h[|h| - 1] == Release(topic, key) && Count(Run(m, h[..|h| - 1]), topic, key) == 0)
  {
    var n := |h| - 1;
    forall i | 0 <= i < n ensures h[..n][..i] == h[..i] {}
    if ReleasesAtZero(m, h[..n], topic, key) {
      var i :| 0 <= i < n && h[..n][i] == Release(topic, key) && Count(Run(m, h[..n][..i]), topic, key) == 0;
      assert h[i] == Release(topic, key) && Count(Run(m, h[..i]), topic, key) == 0;
    }
    if ReleasesAtZero(m, h, topic, key) {
      var i :| 0 <= i < |h| && h[i] == Release(topic, key) && Count(Run(m, h[..i]), topic, key) == 0;
      if i < n {
        assert h[..n][i] == Release(topic, key) && Count(Run(m, h[..n][..i]), topic, key) == 0;
      }
    }
  }

  /** Two runs of one history that start one apart stay one apart until the lower run
      releases at zero, and agree from then on. */
  lemma {:induction false} OneApart(low: Table, high: Table, h: seq<Op>, topic: string, key: string)
    requires Canonical(low) && Canonical(high)
    requires forall t, k :: Count(high, t, k) == Count(low, t, k) + if t == topic && k == key then 1 else 0
    ensures forall t, k :: Count(Run(high, h), t, k) == Count(Run(low, h), t, k) +
                           if t == topic && k == key && !ReleasesAtZero(low, h, topic, key) then 1 else 0
    decreases |h|
  {
    if h != [] {
      OneApart(low, high, h[..|h| - 1], topic, key);
      ReleasesAtZeroStep(low, h, topic, key);
      CountNonNegative(Run(low, h[..|h| - 1]), topic, key);
    }
  }

  /** An acquire and its rollback cancel around an interleaved history exactly when that
      history, run on its own, never releases the key at zero or leaves the key free. */
  lemma AcquireUndo(m: Table, h: seq<Op>, topic: string, key: string)
    requires Canonical(m)
    ensures Run(m, [Acquire(topic, key)] + h + [Release(topic, key)]) == Run(m, h) <==>
            !ReleasesAtZero(m, h, topic, key) || Count(Run(m, h), topic, key) == 0
  {
    var high := Around(m, Acquire(topic, key), h, Release(topic, key));
    OneApart(m, Increment(m, topic, key), h, topic, key);
    var inner := Run(Increment(m, topic, key), h);
    CountNonNegative(Run(m, h), topic, key);
    if !ReleasesAtZero(m, h, topic, key) || Count(Run(m, h), topic, key) == 0 {
      CanonicalUnique(Decrement(inner, topic, key), Run(m, h));
    }
  }

  /** A release and its rollback cancel exactly when the key was held and the history, run
      after the release, never releases the key at zero. */
  lemma ReleaseUndo(m: Table, h: seq<Op>, topic: string, key: string)
    requires Canonical(m)
    ensures Run(m, [Release(topic, key)] + h + [Acquire(topic, key)]) == Run(m, h) <==>
            Count(m, topic, key) > 0 && !ReleasesAtZero(Decrement(m, topic, key), h, topic, key)
  {
    var low := Decrement(m, topic, key);
    var all := Around(m, Release(topic, key), h, Acquire(topic, key));
    CountNonNegative(m, topic, key);
    if Count(m, topic, key) > 0 {
      OneApart(low, m, h, topic, key);
      if !ReleasesAtZero(low, h, topic, key) {
        CanonicalUnique(all, Run(m, h));
      }
    }
  }

  /** Runs `first`, `h`, `last` in order. */
  lemma Around(m: Table, first: Op, h: seq<Op>, last: Op) returns (r: Table)
    requires Canonical(m)
    ensures r == Run(m, [first] + h + [last]) == Apply(Run(Apply(m, first), h), last)
  {
    r := Run(m, [first] + h + [last]);
    RunConcat(m, [first] + h, [last]);
    RunConcat(m, [first], h);
    assert [first][..0] == [] && [last][..0] == [];
    assert Run(m, [first]) == Apply(m, first);
    var mid := Run(m, [first] + h);
    assert Run(mid, [last]) == Apply(mid, last);
  }

  // ---------------------------------------------------------------- shuffles

  /** `h` takes the last element of one part after another until all parts are used up:
      some interleaving of the parts that keeps the order inside each part. */
  ghost predicate Shuffles(h: seq<Op>, parts: seq<seq<Op>>)
    decreases |h|
  {
    if h == [] then forall p | 0 <= p < |parts| :: parts[p] == []
    else exists p | 0 <= p < |parts| && parts[p] != [] ::
        && parts[p][|parts[p]| - 1] == h[|h| - 1]
        && Shuffles(h[..|h| - 1], parts[p := parts[p][..|parts[p]| - 1]])
  }

  /** No prefix has released the key more often than it acquired it. */
  ghost predicate PrefixBalanced(h: seq<Op>, topic: string, key: string) {
    forall i | 0 <= i <= |h| :: Net(h[..i], topic, key) >= 0
  }

  function TotalNet(parts: seq<seq<Op>>, topic: string, key: string): int {
    if parts == [] then 0
    else TotalNet(parts[..|parts| - 1], topic, key) + Net(parts[|parts| - 1], topic, key)
  }

  lemma {:induction false} TotalNetUpdate(parts: seq<seq<Op>>, p: nat, part: seq<Op>, topic: string, key: string)
    requires p < |parts|
    ensures TotalNet(parts[p := part], topic, key)
         == TotalNet(parts, topic, key) - Net(parts[p], topic, key) + Net(part, topic, key)
    decreases |parts|
  {
    var n := |parts| - 1;
    if p == n {
      assert parts[p := part][..n] == parts[..n];
    } else {
      assert parts[p := part][..n] == parts[..n][p := part];
      TotalNetUpdate(parts[..n], p, part, topic, key);
    }
  }

  lemma {:induction false} TotalNetNonNegative(parts: seq<seq<Op>>, topic: string, key: string)
    requires forall p | 0 <= p < |parts| :: PrefixBalanced(parts[p], topic, key)
    ensures TotalNet(parts, topic, key) >= 0
    ensures forall p | 0 <= p < |parts| :: Net(parts[p], topic, key) <= TotalNet(parts, topic, key)
    decreases |parts|
  {
    if parts != [] {
      var n := |parts| - 1;
      TotalNetNonNegative(parts[..n], topic, key);
      assert parts[n][..|parts[n]|] == parts[n];
      forall p | 0 <= p < n ensures Net(parts[p], topic, key) <= TotalNet(parts[..n], topic, key) {
        assert parts[..n][p] == parts[p];
      }
    }
  }

  /** However prefix-balanced sequences are interleaved, nothing is released at zero and
      the count at the end is the sum of what the parts contribute. */
  lemma {:induction false} ShuffleOfBalanced(h: seq<Op>, parts: seq<seq<Op>>, topic: string, key: string)
    requires Shuffles(h, parts)
    requires forall p | 0 <= p < |parts| :: PrefixBalanced(parts[p], topic, key)
    ensures !ReleasesAtZero(map[], h, topic, key)
    ensures Count(Run(map[], h), topic, key) == TotalNet(parts, topic, key)
    decreases |h|
  {
    if h == [] {
      TotalOfEmpty(parts, topic, key);
    } else {
      var p :| 0 <= p < |parts| && parts[p] != []
               && parts[p][|parts[p]| - 1] == h[|h| - 1]
               && Shuffles(h[..|h| - 1], parts[p := parts[p][..|parts[p]| - 1]]);
      var init := parts[p][..|parts[p]| - 1];
      forall i | 0 <= i <= |init| ensures init[..i] == parts[p][..i] {}
      assert PrefixBalanced(init, topic, key);
      var shorter := parts[p := init];
      ShuffleOfBalanced(h[..|h| - 1], shorter, topic, key);
      TotalNetUpdate(parts, p, init, topic, key);
      ReleasesAtZeroStep(map[], h, topic, key);
      assert parts[p][..|parts[p]|] == parts[p];
      TotalNetNonNegative(shorter, topic, key);
      assert shorter[p] == init;
    }
  }

  lemma {:induction false} TotalOfEmpty(parts: seq<seq<Op>>, topic: string, key: string)
    requires forall p | 0 <= p < |parts| :: parts[p] == []
    ensures TotalNet(parts, topic, key) == 0
    decreases |parts|
  {
    if parts != [] {
      TotalOfEmpty(parts[..|parts| - 1], topic, key);
    }
  }
}
