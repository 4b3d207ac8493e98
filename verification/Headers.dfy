/** Message headers as an ordered sequence of key/value pairs: what each operation of the
    two `Headers` implementations does to that sequence, and the map it stands for. */
module Headers {

  datatype Option<+T> = None | Some(value: T) {
    function GetOr(default: T): T {
      if Some? then value else default
    }
  }

  datatype Header = Header(key: string, value: string)

  function KeysOf(l: seq<Header>): set<string> {
    set i | 0 <= i < |l| :: l[i].key
  }

  ghost predicate NoDup(l: seq<Header>) {
    forall i, j | 0 <= i < j < |l| :: l[i].key != l[j].key
  }

  /** The position of the first header with this key, or the length of the list. */
  function Find(l: seq<Header>, key: string): (i: nat)
    ensures i <= |l|
    ensures forall j | 0 <= j < i :: l[j].key != key
    ensures i < |l| ==> l[i].key == key
  {
    FindFrom(l, key, 0)
  }

  function FindFrom(l: seq<Header>, key: string, n: nat): (i: nat)
    requires n <= |l|
    ensures n <= i <= |l|
    ensures forall j | n <= j < i :: l[j].key != key
    ensures i < |l| ==> l[i].key == key
    decreases |l| - n
  {
    if n == |l| || l[n].key == key then n else FindFrom(l, key, n + 1)
  }

  /** The first value wins on reading. */
  function Get(l: seq<Header>, key: string): Option<string> {
    var i := Find(l, key);
    if i < |l| then Some(l[i].value) else None
  }

  /** Overwrite in place, or append. */
  function Put(l: seq<Header>, key: string, value: string): seq<Header> {
    var i := Find(l, key);
    if i < |l| then l[i := Header(l[i].key, value)] else l + [Header(key, value)]
  }

  /** Order-preserving deletion of every header with this key. */
  function Remove(l: seq<Header>, key: string): seq<Header> {
    if l == [] then []
    else Remove(l[..|l| - 1], key) + if l[|l| - 1].key == key then [] else [l[|l| - 1]]
  }

  /** Deletion of the first header with this key by moving the last one into its place. */
  function SwapRemove(l: seq<Header>, key: string): seq<Header> {
    var i := Find(l, key);
    if i < |l| then l[i := l[|l| - 1]][..|l| - 1] else l
  }

  /** `All`: the last value wins. */
  function ToMap(l: seq<Header>): map<string, string> {
    if l == [] then map[] else ToMap(l[..|l| - 1])[l[|l| - 1].key := l[|l| - 1].value]
  }

  /** Setting every header of `l`, in order, on `onto`. */
  function PutAll(onto: seq<Header>, l: seq<Header>): seq<Header> {
    PutFirst(onto, l, |l|)
  }

  /** The first `n` of them. */
  function PutFirst(onto: seq<Header>, l: seq<Header>, n: nat): seq<Header>
    requires n <= |l|
  {
    if n == 0 then onto else Put(PutFirst(onto, l, n - 1), l[n - 1].key, l[n - 1].value)
  }

  /** The header list of a message built by `NewFromMessage`. */
  function Copy(l: seq<Header>): seq<Header> {
    PutAll([], l)
  }

  lemma {:induction false} PutFirstPrefix(onto: seq<Header>, l: seq<Header>, m: nat, n: nat)
    requires n <= m <= |l|
    ensures PutFirst(onto, l[..m], n) == PutFirst(onto, l, n)
    decreases n
  {
    if n > 0 {
      PutFirstPrefix(onto, l, m, n - 1);
    }
  }

  lemma PutAllAppend(onto: seq<Header>, l: seq<Header>, h: Header)
    ensures PutAll(onto, l + [h]) == Put(PutAll(onto, l), h.key, h.value)
    ensures PutAll(onto, []) == onto && l + [] == l
  {
    assert (l + [h])[..|l|] == l;
    PutFirstPrefix(onto, l + [h], |l|, |l|);
  }

  lemma PutAllLast(onto: seq<Header>, l: seq<Header>)
    requires l != []
    ensures PutAll(onto, l) == Put(PutAll(onto, l[..|l| - 1]), l[|l| - 1].key, l[|l| - 1].value)
  {
    PutFirstPrefix(onto, l, |l| - 1, |l| - 1);
  }

  // ---------------------------------------------------------------- single operations

  lemma PutGet(l: seq<Header>, key: string, value: string, other: string)
    ensures Get(Put(l, key, value), other) == if other == key then Some(value) else Get(l, other)
  {
    var r := Put(l, key, value);
    var i, j := Find(l, other), Find(r, other);
    assert forall n | 0 <= n < |l| :: r[n].key == l[n].key;
    if other == key {
      assert r[if i < |l| then i else |l|].key == other;
    }
  }

  /** The first header with this key stands at `i`. */
  ghost predicate IsFirst(l: seq<Header>, key: string, i: nat) {
    i < |l| && l[i].key == key && forall j | 0 <= j < i :: l[j].key != key
  }

  /** What is read and what is overwritten is the first header with the key, in its place. */
  lemma FirstMatch(l: seq<Header>, key: string, value: string, i: nat)
    requires IsFirst(l, key, i)
    ensures Get(l, key) == Some(l[i].value)
    ensures Put(l, key, value) == l[..i] + [Header(key, value)] + l[i + 1..]
  {
    assert Find(l, key) == i;
  }

  /** What the swapping deletion drops is the first one too; the last header takes its place,
      and all others stay in theirs. */
  lemma FirstDropped(l: seq<Header>, key: string, i: nat)
    requires IsFirst(l, key, i)
    ensures var r := SwapRemove(l, key);
            |r| == |l| - 1 && forall j | 0 <= j < |r| :: r[j] == if j == i then l[|l| - 1] else l[j]
  {
    assert Find(l, key) == i;
  }

  /** Without one, setting appends, and reading and moving away do nothing. */
  lemma NoMatch(l: seq<Header>, key: string, value: string)
    requires forall i | 0 <= i < |l| :: l[i].key != key
    ensures Get(l, key) == None && SwapRemove(l, key) == l
    ensures Put(l, key, value) == l + [Header(key, value)]
  {
    assert Find(l, key) == |l|;
  }

  /** Deletion goes through the list from front to back and drops the headers with the key. */
  lemma {:induction false} RemoveInOrder(a: seq<Header>, b: seq<Header>, key: string)
    ensures Remove(a + b, key) == Remove(a, key) + Remove(b, key)
    ensures |a| == 1 ==> Remove(a, key) == if a[0].key == key then [] else a
    decreases |b|
  {
    if |a| == 1 {
      assert a[..0] == [] && a == [a[0]];
    }
    if b == [] {
      assert a + b == a;
    } else {
      var n := |b| - 1;
      RemoveInOrder(a, b[..n], key);
      assert (a + b)[..|a + b| - 1] == a + b[..n] && (a + b)[|a + b| - 1] == b[n];
    }
  }

  lemma PutKeys(l: seq<Header>, key: string, value: string)
    ensures KeysOf(Put(l, key, value)) == KeysOf(l) + {key}
    ensures NoDup(l) ==> NoDup(Put(l, key, value))
  {
    var r, i := Put(l, key, value), Find(l, key);
    if i < |l| {
      assert r[i].key == key;
    } else {
      assert r[|l|].key == key;
    }
    forall k | k in KeysOf(l) ensures k in KeysOf(r) {
      var j :| 0 <= j < |l| && l[j].key == k;
      assert r[j].key == k;
    }
  }

  /** Without duplicate keys the map is the lookup table of the list, whatever its order. */
  lemma {:induction false} ToMapMeaning(l: seq<Header>)
    ensures ToMap(l).Keys == KeysOf(l)
    ensures forall i | 0 <= i < |l| :: (forall j | i < j < |l| :: l[j].key != l[i].key) ==>
              ToMap(l)[l[i].key] == l[i].value
    decreases |l|
  {
    if l != [] {
      var init := l[..|l| - 1];
      ToMapMeaning(init);
      assert l == init + [l[|l| - 1]];
      assert KeysOf(l) == KeysOf(init) + {l[|l| - 1].key} by {
        forall k | k in KeysOf(init) + {l[|l| - 1].key} ensures k in KeysOf(l) {
          if k in KeysOf(init) {
            var j :| 0 <= j < |init| && init[j].key == k;
            assert l[j].key == k;
          }
        }
      }
    }
  }

  /** A duplicate-free list and its map hold the same pairs. */
  lemma InMap(l: seq<Header>, h: Header)
    requires NoDup(l)
    ensures h in l <==> h.key in ToMap(l) && ToMap(l)[h.key] == h.value
  {
    ToMapMeaning(l);
    if h.key in KeysOf(l) {
      var i :| 0 <= i < |l| && l[i].key == h.key;
      assert ToMap(l)[h.key] == l[i].value;
      if h in l {
        var j :| 0 <= j < |l| && l[j] == h;
        assert j == i;
      } else {
        assert l[i] in l;
      }
    }
  }

  lemma SameMap(l: seq<Header>, m: map<string, string>)
    requires NoDup(l)
    requires forall h :: h in l <==> h.key in m && m[h.key] == h.value
    ensures ToMap(l) == m
  {
    forall k ensures k in m <==> k in ToMap(l) {
      if k in m { InMap(l, Header(k, m[k])); }
      if k in ToMap(l) { InMap(l, Header(k, ToMap(l)[k])); }
    }
    forall k | k in m ensures ToMap(l)[k] == m[k] {
      InMap(l, Header(k, m[k]));
    }
  }

  lemma SameHeadersSameMap(a: seq<Header>, b: seq<Header>)
    requires NoDup(a) && NoDup(b)
    requires forall h :: h in a <==> h in b
    ensures ToMap(a) == ToMap(b)
  {
    forall h ensures h in b <==> h.key in ToMap(a) && ToMap(a)[h.key] == h.value {
      InMap(a, h);
    }
    SameMap(b, ToMap(a));
  }

  lemma SameMapSameHeaders(a: seq<Header>, b: seq<Header>)
    requires NoDup(a) && NoDup(b) && ToMap(a) == ToMap(b)
    ensures forall h :: h in a <==> h in b
  {
    forall h ensures h in a <==> h in b {
      InMap(a, h);
      InMap(b, h);
    }
  }

  lemma GetIsToMap(l: seq<Header>, key: string)
    requires NoDup(l)
    ensures Get(l, key) == if key in ToMap(l) then Some(ToMap(l)[key]) else None
  {
    ToMapMeaning(l);
    var i := Find(l, key);
    if i < |l| {
      assert l[i] in l;
      InMap(l, l[i]);
    }
  }

  lemma PutMembers(l: seq<Header>, key: string, value: string, h: Header)
    requires NoDup(l)
    ensures h in Put(l, key, value) <==> h == Header(key, value) || (h in l && h.key != key)
  {
    var r, i := Put(l, key, value), Find(l, key);
    if h in l && h.key != key {
      var j :| 0 <= j < |l| && l[j] == h;
      assert r[j] == h;
    }
    assert r[if i < |l| then i else |l|] == Header(key, value);
  }

  lemma PutToMap(l: seq<Header>, key: string, value: string)
    requires NoDup(l)
    ensures ToMap(Put(l, key, value)) == ToMap(l)[key := value]
  {
    PutKeys(l, key, value);
    var m := ToMap(l)[key := value];
    forall h ensures h in Put(l, key, value) <==> h.key in m && m[h.key] == h.value {
      PutMembers(l, key, value, h);
      InMap(l, h);
    }
    SameMap(Put(l, key, value), m);
  }

  lemma {:induction false} RemoveMeaning(l: seq<Header>, key: string)
    ensures forall h :: h in Remove(l, key) <==> h in l && h.key != key
    ensures NoDup(l) ==> NoDup(Remove(l, key))
    decreases |l|
  {
    if l != [] {
      var init, last := l[..|l| - 1], l[|l| - 1];
      assert l == init + [last];
      RemoveMeaning(init, key);
      var r := Remove(init, key);
      if NoDup(l) {
        assert NoDup(init);
        forall j | 0 <= j < |r| ensures r[j].key != last.key {
          assert r[j] in init;
          var i :| 0 <= i < |init| && init[i] == r[j];
          assert l[i] == r[j];
        }
      }
    }
  }

  lemma SwapRemoveMeaning(l: seq<Header>, key: string)
    requires NoDup(l)
    ensures NoDup(SwapRemove(l, key))
    ensures forall h :: h in SwapRemove(l, key) <==> h in l && h.key != key
  {
    var r, i := SwapRemove(l, key), Find(l, key);
    if i < |l| {
      forall h | h in l && h.key != key ensures h in r {
        var j :| 0 <= j < |l| && l[j] == h;
        if j == |l| - 1 { assert r[i] == h; } else { assert r[j] == h; }
      }
    } else {
      forall h | h in l ensures h.key != key {
        var j :| 0 <= j < |l| && l[j] == h;
      }
    }
  }

  // ---------------------------------------------------------------- the two implementations agree

  datatype Edit = SetHeader(key: string, value: string) | DeleteHeader(key: string) | CloneHeaders

  function EditList(l: seq<Header>, e: Edit): seq<Header> {
    match e
    case SetHeader(k, v) => Put(l, k, v)
    case DeleteHeader(k) => Remove(l, k)
    case CloneHeaders => l
  }

  function EditSarama(l: seq<Header>, e: Edit): seq<Header> {
    match e
    case SetHeader(k, v) => Put(l, k, v)
    case DeleteHeader(k) => SwapRemove(l, k)
    case CloneHeaders => l
  }

  function EditsOnList(l: seq<Header>, es: seq<Edit>): seq<Header> {
    if es == [] then l else EditList(EditsOnList(l, es[..|es| - 1]), es[|es| - 1])
  }

  function EditsOnSarama(l: seq<Header>, es: seq<Edit>): seq<Header> {
    if es == [] then l else EditSarama(EditsOnSarama(l, es[..|es| - 1]), es[|es| - 1])
  }

  /** Starting from duplicate-free lists with the same map, any sequence of edits leaves the
      order-preserving list and the swap-delete list duplicate-free with the same map. */
  lemma {:induction false} ImplementationsAgree(a: seq<Header>, b: seq<Header>, es: seq<Edit>)
    requires NoDup(a) && NoDup(b) && ToMap(a) == ToMap(b)
    ensures NoDup(EditsOnList(a, es)) && NoDup(EditsOnSarama(b, es))
    ensures ToMap(EditsOnList(a, es)) == ToMap(EditsOnSarama(b, es))
    ensures forall k :: Get(EditsOnList(a, es), k) == Get(EditsOnSarama(b, es), k)
    decreases |es|
  {
    if es != [] {
      ImplementationsAgree(a, b, es[..|es| - 1]);
      AgreeOnEdit(EditsOnList(a, es[..|es| - 1]), EditsOnSarama(b, es[..|es| - 1]), es[|es| - 1]);
    }
    forall k ensures Get(EditsOnList(a, es), k) == Get(EditsOnSarama(b, es), k) {
      GetIsToMap(EditsOnList(a, es), k);
      GetIsToMap(EditsOnSarama(b, es), k);
    }
  }

  lemma AgreeOnEdit(a: seq<Header>, b: seq<Header>, e: Edit)
    requires NoDup(a) && NoDup(b) && ToMap(a) == ToMap(b)
    ensures NoDup(EditList(a, e)) && NoDup(EditSarama(b, e))
    ensures ToMap(EditList(a, e)) == ToMap(EditSarama(b, e))
  {
    match e
    case SetHeader(k, v) =>
      PutKeys(a, k, v);
      PutKeys(b, k, v);
      PutToMap(a, k, v);
      PutToMap(b, k, v);
    case DeleteHeader(k) =>
      SwapRemoveMeaning(b, k);
      RemoveMeaning(b, k);
      SameHeadersSameMap(Remove(b, k), SwapRemove(b, k));
      SameMapSameHeaders(a, b);
      RemoveMeaning(a, k);
      SameHeadersSameMap(Remove(a, k), Remove(b, k));
    case CloneHeaders =>
  }

  predicate SameMeaning(l: seq<Header>, es: seq<Edit>) {
    ToMap(EditsOnList(l, es)) == ToMap(EditsOnSarama(l, es))
  }

  lemma RemovedKey(l: seq<Header>, key: string)
    ensures key !in KeysOf(Remove(l, key))
  {
    RemoveMeaning(l, key);
    var r := Remove(l, key);
    assert forall i | 0 <= i < |r| :: r[i] in r;
  }

  /** The swapping deletion drops the first occurrence only. */
  lemma SwapRemoveLeaves(l: seq<Header>, i: nat, j: nat)
    requires i < j < |l| && l[i].key == l[j].key
    ensures l[i].key in KeysOf(SwapRemove(l, l[i].key))
  {
    var key := l[i].key;
    var f, r := Find(l, key), SwapRemove(l, key);
    assert f <= i && |r| == |l| - 1;
    if j == |l| - 1 {
      assert r[f] == l[j];
    } else {
      assert r[j] == l[j];
    }
  }

  lemma OneDeletion(l: seq<Header>, key: string)
    ensures EditsOnList(l, [DeleteHeader(key)]) == Remove(l, key)
    ensures EditsOnSarama(l, [DeleteHeader(key)]) == SwapRemove(l, key)
  {
    var es := [DeleteHeader(key)];
    assert es[..0] == [] && es[0] == DeleteHeader(key);
  }

  lemma DuplicatesTellThemApart(l: seq<Header>, i: nat, j: nat)
    requires i < j < |l| && l[i].key == l[j].key
    ensures !SameMeaning(l, [DeleteHeader(l[i].key)])
  {
    var key := l[i].key;
    OneDeletion(l, key);
    RemovedKey(l, key);
    SwapRemoveLeaves(l, i, j);
    ToMapMeaning(Remove(l, key));
    ToMapMeaning(SwapRemove(l, key));
  }

  /** From one list, every sequence of edits leaves both implementations with the same map if
      and only if no key is repeated. */
  lemma AgreeExactlyWithoutDuplicates(l: seq<Header>)
    ensures NoDup(l) <==> forall es :: SameMeaning(l, es)
  {
    if NoDup(l) {
      forall es ensures SameMeaning(l, es) {
        ImplementationsAgree(l, l, es);
      }
    } else {
      var i, j :| 0 <= i < j < |l| && l[i].key == l[j].key;
      DuplicatesTellThemApart(l, i, j);
    }
  }

  // ---------------------------------------------------------------- copying a message

  /** Keys in the order of their first occurrence. */
  function FirstKeys(l: seq<Header>): seq<string> {
    if l == [] then []
    else
      var before := FirstKeys(l[..|l| - 1]);
      if l[|l| - 1].key in before then before else before + [l[|l| - 1].key]
  }

  function KeySeq(l: seq<Header>): seq<string> {
    seq(|l|, i requires 0 <= i < |l| => l[i].key)
  }

  /** A copied message has no duplicate keys; each key stands where it first occurred and
      carries its last value, so lookups on the copy agree with `All` on the original. */
  lemma CopyMeaning(l: seq<Header>)
    ensures NoDup(Copy(l))
    ensures KeySeq(Copy(l)) == FirstKeys(l)
    ensures ToMap(Copy(l)) == ToMap(l)
    ensures forall k :: Get(Copy(l), k) == if k in ToMap(l) then Some(ToMap(l)[k]) else None
  {
    CopyContents(l);
    forall k ensures Get(Copy(l), k) == if k in ToMap(l) then Some(ToMap(l)[k]) else None {
      GetIsToMap(Copy(l), k);
    }
  }

  lemma {:induction false} CopyContents(l: seq<Header>)
    ensures NoDup(Copy(l)) && KeySeq(Copy(l)) == FirstKeys(l) && ToMap(Copy(l)) == ToMap(l)
    decreases |l|
  {
    if l != [] {
      var init, last := l[..|l| - 1], l[|l| - 1];
      CopyContents(init);
      PutAllLast([], l);
      var c := Copy(init);
      PutKeys(c, last.key, last.value);
      PutToMap(c, last.key, last.value);
      PutKeySeq(c, last.key, last.value);
    }
  }

  /** Setting a header leaves the keys where they are, or appends the new one. */
  lemma PutKeySeq(l: seq<Header>, key: string, value: string)
    ensures KeySeq(Put(l, key, value)) == if key in KeySeq(l) then KeySeq(l) else KeySeq(l) + [key]
  {
    var i := Find(l, key);
    if i < |l| {
      assert KeySeq(l)[i] == key;
    } else {
      assert forall j | 0 <= j < |l| :: KeySeq(l)[j] == l[j].key;
    }
  }

  /** Copying a duplicate-free list changes nothing; so copying twice is copying once, and a
      copy survives the conversion to Sarama headers and back. */
  lemma {:induction false} CopyIsIdentityWithoutDuplicates(l: seq<Header>)
    requires NoDup(l)
    ensures Copy(l) == l
    decreases |l|
  {
    if l != [] {
      var init, last := l[..|l| - 1], l[|l| - 1];
      CopyIsIdentityWithoutDuplicates(init);
      PutAllLast([], l);
      NewKeyIsAppended(init, last);
      assert init + [last] == l;
    }
  }

  lemma NewKeyIsAppended(l: seq<Header>, h: Header)
    requires NoDup(l + [h])
    ensures Put(l, h.key, h.value) == l + [h]
  {
    assert forall j | 0 <= j < |l| :: (l + [h])[j] == l[j];
    assert (l + [h])[|l|] == h;
  }

  lemma CopyIdempotent(l: seq<Header>)
    ensures Copy(Copy(l)) == Copy(l)
  {
    CopyMeaning(l);
    CopyIsIdentityWithoutDuplicates(Copy(l));
  }
}
