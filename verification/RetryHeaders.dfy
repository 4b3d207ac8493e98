/** The headers of a message on its way through the retry chain. */
module RetryHeaders {
  import opened Headers
  import opened HeaderLists
  import opened Text
  import opened LocalCoordinator
  import opened Coordinator

  const HEADER_RETRY_ATTEMPT := "x-retry-attempt"
  const HEADER_RETRY_MAX := "x-retry-max"
  const HEADER_RETRY_NEXT_TIME := "x-retry-next-time"
  const HEADER_RETRY_ORIGINAL_TIME := "x-retry-original-time"
  const HEADER_RETRY_REASON := "x-retry-reason"
  const HEADER_RETRY := "retry"

  const HEADER_DLQ_REASON := "x-dlq-reason"
  const HEADER_DLQ_TIMESTAMP := "x-dlq-timestamp"
  const HEADER_DLQ_SOURCE_TOPIC := "x-dlq-source-topic"
  const HEADER_DLQ_RETRY_ATTEMPTS := "x-dlq-retry-attempts"
  const HEADER_DLQ_ORIGINAL_FAILURE_TIME := "x-dlq-original-failure-time"

  /** Headers that `publishToRetry` drops before setting them anew. */
  const REPLACED: set<string> :=
    {HEADER_RETRY_ATTEMPT, HEADER_RETRY_MAX, HEADER_RETRY_NEXT_TIME, HEADER_RETRY_ORIGINAL_TIME,
     HEADER_RETRY_REASON, HEADER_ID, HEADER_RETRY}

  /** Headers that do not follow a message into the dead-letter topic. */
  const DROPPED_FOR_DLQ: set<string> :=
    {HEADER_RETRY_ATTEMPT, HEADER_RETRY_MAX, HEADER_RETRY_NEXT_TIME, HEADER_ID, HEADER_RETRY}

  /** Every header name the retry chain itself writes into a retried message. */
  const RESERVED: set<string> := REPLACED + {HEADER_TOPIC}

  /** The headers whose name is not in `names`, in order. */
  function Without(l: seq<Header>, names: set<string>): seq<Header> {
    WithoutFirst(l, names, |l|)
  }

  /** Those among the first `n`. */
  function WithoutFirst(l: seq<Header>, names: set<string>, n: nat): seq<Header>
    requires n <= |l|
  {
    if n == 0 then [] else WithoutFirst(l, names, n - 1) + if l[n - 1].key in names then [] else [l[n - 1]]
  }

  method CopyWithout(source: HeaderList, names: set<string>) returns (copy: HeaderList)
    ensures fresh(copy) && copy.list == Copy(Without(source.list, names))
  {
    copy := new HeaderList();
    var l := source.list;
    for n := 0 to |l|
      invariant fresh(copy) && source.list == l
      invariant copy.list == Copy(WithoutFirst(l, names, n))
    {
      PutAllAppend([], WithoutFirst(l, names, n), l[n]);
      if l[n].key !in names {
        copy.Set(l[n].key, l[n].value);
      }
    }
  }

  /** What one redirect knows about the message and the moment. */
  datatype Hop = Hop(id: string, attempt: int, max: int, nextTime: int, originalTime: int,
                     reason: Option<string>, topic: string)

  /** The headers one redirect sets, in the order it sets them. */
  function HopHeader(hop: Hop, i: nat): Header {
    match i
    case 0 => Header(HEADER_RETRY_ATTEMPT, Itoa(hop.attempt))
    case 1 => Header(HEADER_RETRY_MAX, Itoa(hop.max))
    case 2 => Header(HEADER_RETRY_NEXT_TIME, Itoa(UnixSeconds(hop.nextTime)))
    case 3 => Header(HEADER_RETRY_ORIGINAL_TIME, Itoa(UnixSeconds(hop.originalTime)))
    case 4 => Header(HEADER_RETRY_REASON, hop.reason.GetOr(""))
    case 5 => Header(HEADER_ID, hop.id)
    case 6 => Header(HEADER_RETRY, "true")
    case _ => Header(HEADER_TOPIC, hop.topic)
  }

  /** All of them; the reason is left out when there is none. */
  function HopHeaders(hop: Hop): seq<Header> {
    seq(if hop.reason.Some? then 8 else 7, (i: nat) => HopHeader(hop, if i < 4 || hop.reason.Some? then i else i + 1))
  }

  function RetriedHeaders(l: seq<Header>, hop: Hop): seq<Header> {
    PutAll(Copy(Without(l, REPLACED)), HopHeaders(hop))
  }

  // ---------------------------------------------------------------- filtering

  lemma {:induction false} WithoutFirstPrefix(l: seq<Header>, names: set<string>, m: nat, n: nat)
    requires n <= m <= |l|
    ensures WithoutFirst(l[..m], names, n) == WithoutFirst(l, names, n)
    decreases n
  {
    if n > 0 {
      WithoutFirstPrefix(l, names, m, n - 1);
    }
  }

  lemma WithoutAppend(l: seq<Header>, h: Header, names: set<string>)
    ensures Without(l + [h], names) == Without(l, names) + if h.key in names then [] else [h]
  {
    assert (l + [h])[..|l|] == l;
    WithoutFirstPrefix(l + [h], names, |l|, |l|);
  }

  lemma WithoutLast(l: seq<Header>, names: set<string>)
    requires l != []
    ensures Without(l, names) == Without(l[..|l| - 1], names) + if l[|l| - 1].key in names then [] else [l[|l| - 1]]
  {
    WithoutFirstPrefix(l, names, |l| - 1, |l| - 1);
  }

  lemma {:induction false} WithoutMeaning(l: seq<Header>, names: set<string>)
    ensures forall h :: h in Without(l, names) <==> h in l && h.key !in names
    ensures NoDup(l) ==> NoDup(Without(l, names))
    decreases |l|
  {
    if l != [] {
      var init, last := l[..|l| - 1], l[|l| - 1];
      assert l == init + [last];
      WithoutMeaning(init, names);
      WithoutLast(l, names);
      var r := Without(init, names);
      if NoDup(l) {
        assert NoDup(init);
        forall j | 0 <= j < |r| ensures r[j].key != last.key {
          assert r[j] in init;
          var i :| 0 <= i < |init| && init[i] == r[j];
          assert l[i] == r[j];
        }
      }
    }
  }

  lemma {:induction false} WithoutTwice(l: seq<Header>, a: set<string>, b: set<string>)
    requires a <= b
    ensures Without(Without(l, a), b) == Without(l, b)
    decreases |l|
  {
    if l != [] {
      var init, last := l[..|l| - 1], l[|l| - 1];
      WithoutTwice(init, a, b);
      WithoutLast(l, a);
      WithoutLast(l, b);
      WithoutAppend(Without(init, a), last, b);
      assert last.key in a ==> Without(l, a) == Without(init, a);
    }
  }

  /** Filtering goes through the list from front to back, header by header. */
  lemma {:induction false} WithoutInOrder(a: seq<Header>, b: seq<Header>, names: set<string>)
    ensures Without(a + b, names) == Without(a, names) + Without(b, names)
    ensures |a| == 1 ==> Without(a, names) == if a[0].key in names then [] else a
    decreases |b|
  {
    if |a| == 1 {
      WithoutLast(a, names);
      assert a[..0] == [] && a == [a[0]];
    }
    if b == [] {
      assert a + b == a;
    } else {
      var n := |b| - 1;
      WithoutInOrder(a, b[..n], names);
      WithoutLast(b, names);
      assert a + b == a + b[..n] + [b[n]];
      WithoutAppend(a + b[..n], b[n], names);
    }
  }

  /** Setting a reserved header leaves all other headers where and what they are. */
  lemma PutReserved(l: seq<Header>, key: string, value: string, names: set<string>)
    requires key in names
    ensures Without(Put(l, key, value), names) == Without(l, names)
  {
    var i := Find(l, key);
    if i < |l| {
      ReplaceReserved(l, i, value, names);
    } else {
      WithoutAppend(l, Header(key, value), names);
    }
  }

  lemma {:induction false} ReplaceReserved(l: seq<Header>, i: nat, value: string, names: set<string>)
    requires i < |l| && l[i].key in names
    ensures Without(l[i := Header(l[i].key, value)], names) == Without(l, names)
    decreases |l|
  {
    var n := |l| - 1;
    var l' := l[i := Header(l[i].key, value)];
    WithoutLast(l, names);
    WithoutLast(l', names);
    if i == n {
      assert l'[..n] == l[..n];
    } else {
      ReplaceReserved(l[..n], i, value, names);
      assert l'[..n] == l[..n][i := Header(l[i].key, value)];
    }
  }

  lemma CopyWithoutNoDup(l: seq<Header>, names: set<string>)
    requires NoDup(l)
    ensures Copy(Without(l, names)) == Without(l, names) && NoDup(Without(l, names))
  {
    WithoutMeaning(l, names);
    CopyIsIdentityWithoutDuplicates(Without(l, names));
  }

  // ---------------------------------------------------------------- setting several headers

  /** Later settings win, and what is not set stays. */
  lemma {:induction false} PutAllGet(onto: seq<Header>, l: seq<Header>, key: string)
    ensures Get(PutAll(onto, l), key) == if key in ToMap(l) then Some(ToMap(l)[key]) else Get(onto, key)
    decreases |l|
  {
    if l != [] {
      PutAllGet(onto, l[..|l| - 1], key);
      PutAllLast(onto, l);
      PutGet(PutAll(onto, l[..|l| - 1]), l[|l| - 1].key, l[|l| - 1].value, key);
    }
  }

  /** Setting reserved headers keeps a list duplicate-free and all other headers where and
      what they are. */
  lemma {:induction false} PutAllReserved(onto: seq<Header>, l: seq<Header>, names: set<string>)
    requires forall i | 0 <= i < |l| :: l[i].key in names
    ensures NoDup(onto) ==> NoDup(PutAll(onto, l))
    ensures Without(PutAll(onto, l), names) == Without(onto, names)
    decreases |l|
  {
    if l != [] {
      var before := PutAll(onto, l[..|l| - 1]);
      PutAllReserved(onto, l[..|l| - 1], names);
      PutAllLast(onto, l);
      PutKeys(before, l[|l| - 1].key, l[|l| - 1].value);
      PutReserved(before, l[|l| - 1].key, l[|l| - 1].value, names);
    }
  }

  // ---------------------------------------------------------------- one redirect

  lemma HopHeaderName(hop: Hop, i: nat, j: nat)
    requires i < j < 8
    ensures HopHeader(hop, i).key != HopHeader(hop, j).key
  {
  }

  lemma HopHeaderReserved(hop: Hop, i: nat)
    ensures HopHeader(hop, i).key in RESERVED
  {
  }

  lemma HopHeaderNames(hop: Hop)
    ensures NoDup(HopHeaders(hop))
    ensures forall i | 0 <= i < |HopHeaders(hop)| :: HopHeaders(hop)[i].key in RESERVED
  {
    forall i, j | 0 <= i < j < |HopHeaders(hop)| ensures HopHeaders(hop)[i].key != HopHeaders(hop)[j].key {
      HopHeaderName(hop, if i < 4 || hop.reason.Some? then i else i + 1,
                    if j < 4 || hop.reason.Some? then j else j + 1);
    }
    forall i | 0 <= i < |HopHeaders(hop)| ensures HopHeaders(hop)[i].key in RESERVED {
      HopHeaderReserved(hop, if i < 4 || hop.reason.Some? then i else i + 1);
    }
  }

  /** The header in one place is what the list says for its name. */
  lemma HopHeaderValue(hop: Hop, i: nat)
    requires i < 8 && (i == 4 ==> hop.reason.Some?)
    ensures var l, h := ToMap(HopHeaders(hop)), HopHeader(hop, i);
            h.key in l && l[h.key] == h.value
  {
    var l, h := HopHeaders(hop), HopHeader(hop, i);
    HopHeaderNames(hop);
    assert l[if i < 4 || hop.reason.Some? then i else i - 1] == h;
    InMap(l, h);
  }

  lemma HopHeaderGet(onto: seq<Header>, hop: Hop, i: nat)
    requires i < 8 && (i == 4 ==> hop.reason.Some?)
    ensures Get(PutAll(onto, HopHeaders(hop)), HopHeader(hop, i).key) == Some(HopHeader(hop, i).value)
  {
    HopHeaderValue(hop, i);
    PutAllGet(onto, HopHeaders(hop), HopHeader(hop, i).key);
  }

  /** What a redirect wrote is what the next call reads; times come back in whole seconds. */
  lemma HopReadsBack(l: seq<Header>, hop: Hop)
    ensures var r := RetriedHeaders(l, hop);
            && Get(r, HEADER_ID) == Some(hop.id)
            && Get(r, HEADER_TOPIC) == Some(hop.topic)
            && Get(r, HEADER_RETRY) == Some("true")
            && (hop.reason.Some? ==> Get(r, HEADER_RETRY_REASON) == hop.reason)
            && (IsInt64(hop.attempt) ==> GetInt(r, HEADER_RETRY_ATTEMPT) == Some(hop.attempt))
            && (IsInt64(hop.max) ==> GetInt(r, HEADER_RETRY_MAX) == Some(hop.max))
            && (IsInt64(UnixSeconds(hop.nextTime)) ==>
                  GetTime(r, HEADER_RETRY_NEXT_TIME) == Some(UnixSeconds(hop.nextTime) * NANOS_PER_SECOND))
            && (IsInt64(UnixSeconds(hop.originalTime)) ==>
                  GetTime(r, HEADER_RETRY_ORIGINAL_TIME) == Some(UnixSeconds(hop.originalTime) * NANOS_PER_SECOND))
  {
    var base := Copy(Without(l, REPLACED));
    HopHeaderGet(base, hop, 0);
    HopHeaderGet(base, hop, 1);
    HopHeaderGet(base, hop, 2);
    HopHeaderGet(base, hop, 3);
    if hop.reason.Some? {
      HopHeaderGet(base, hop, 4);
    }
    HopHeaderGet(base, hop, 5);
    HopHeaderGet(base, hop, 6);
    HopHeaderGet(base, hop, 7);
    if IsInt64(hop.attempt) { ItoaRoundTrip(hop.attempt); }
    if IsInt64(hop.max) { ItoaRoundTrip(hop.max); }
    if IsInt64(UnixSeconds(hop.nextTime)) { ItoaRoundTrip(UnixSeconds(hop.nextTime)); }
    if IsInt64(UnixSeconds(hop.originalTime)) { ItoaRoundTrip(UnixSeconds(hop.originalTime)); }
  }

  /** The retry worker wakes up within the second before the time the redirect scheduled, and
      once that time has come it does not wait at all. */
  lemma RetriedWakeUp(l: seq<Header>, hop: Hop, now: int)
    requires IsInt64(UnixSeconds(hop.nextTime))
    ensures var wake := now + RetryWait(RetriedHeaders(l, hop), HEADER_RETRY_NEXT_TIME, now);
            && (now >= hop.nextTime ==> wake == now)
            && (now < hop.nextTime ==> hop.nextTime - NANOS_PER_SECOND < wake <= hop.nextTime)
  {
    HopReadsBack(l, hop);
    SecondsFloor(hop.nextTime);
  }

  lemma RetriedWithoutDuplicates(l: seq<Header>, hop: Hop)
    ensures NoDup(RetriedHeaders(l, hop))
  {
    CopyMeaning(Without(l, REPLACED));
    HopHeaderNames(hop);
    PutAllReserved(Copy(Without(l, REPLACED)), HopHeaders(hop), RESERVED);
  }

  /** A redirect leaves alone all but its own headers. */
  lemma RedirectedHeaders(l: seq<Header>, hop: Hop)
    requires NoDup(l)
    ensures var r := RetriedHeaders(l, hop);
            NoDup(r) && Without(r, RESERVED) == Without(l, RESERVED)
  {
    var base, hs := Without(l, REPLACED), HopHeaders(hop);
    CopyWithoutNoDup(l, REPLACED);
    WithoutTwice(l, REPLACED, RESERVED);
    HopHeaderNames(hop);
    PutAllReserved(base, hs, RESERVED);
  }
}
