/** Consuming a claim: a message is marked only after its handler returned without error, so
    nothing below the committed offset is unhandled, however often consumers start over. */
module Consumer {
  datatype Event = Handled(offset: int, ok: bool) | Marked(offset: int)

  /** What one claim does, from message `n` on: `works(n)` is what the handler returns for it,
      `leave(n)` whether the session is seen to be done before it is read. */
  function ClaimTrace(claim: seq<int>, n: nat, works: nat -> bool, leave: nat -> bool): seq<Event>
    decreases |claim| - n
  {
    if n >= |claim| || leave(n) then []
    else if !works(n) then [Handled(claim[n], false)]
    else [Handled(claim[n], true), Marked(claim[n])] + ClaimTrace(claim, n + 1, works, leave)
  }

  /** The next offset to be committed after a trace. */
  function Committed(next: int, trace: seq<Event>): int {
    if trace == [] then next
    else
      var before := Committed(next, trace[..|trace| - 1]);
      match trace[|trace| - 1]
      case Handled(_, _) => before
      case Marked(offset) => if offset + 1 > before then offset + 1 else before
  }

  lemma CommittedAppend(next: int, trace: seq<Event>, e: Event)
    ensures Committed(next, trace + [e]) ==
            if e.Marked? && e.offset + 1 > Committed(next, trace) then e.offset + 1 else Committed(next, trace)
  {
    assert (trace + [e])[..|trace|] == trace;
  }

  /** It is the largest offset after a marked one, or where the session started. */
  lemma {:induction false} CommittedExactly(next: int, trace: seq<Event>)
    ensures Committed(next, trace) >= next && forall o | Marked(o) in trace :: Committed(next, trace) >= o + 1
    ensures Committed(next, trace) == next || Marked(Committed(next, trace) - 1) in trace
    decreases |trace|
  {
    if trace != [] {
      var init := trace[..|trace| - 1];
      assert trace == init + [trace[|trace| - 1]];
      CommittedExactly(next, init);
    }
  }

  /** From message `n` on, `k` is the first that is not offered, not read because the session is
      done, or not handled without error. */
  ghost predicate StopsAt(claim: seq<int>, n: nat, k: nat, works: nat -> bool, leave: nat -> bool) {
    && n <= k <= |claim|
    && (k == |claim| || leave(k) || !works(k))
    && GoesOn(n, k, works, leave)
  }

  ghost predicate GoesOn(n: nat, k: nat, works: nat -> bool, leave: nat -> bool) {
    forall j: nat | n <= j < k :: works(j) && !leave(j)
  }

  /** Messages `n` up to `k` are handled and then marked, one after the other, and nothing else
      is; but for message `k`, handled in vain, if it `failed`. */
  ghost predicate Consumes(trace: seq<Event>, claim: seq<int>, n: nat, k: nat, failed: bool) {
    && n <= k <= |claim| && (failed ==> k < |claim|)
    && |trace| == 2 * (k - n) + (if failed then 1 else 0)
    && (forall i | 0 <= i < 2 * (k - n) ::
          trace[i] == if i % 2 == 0 then Handled(claim[n + i / 2], true) else Marked(claim[n + i / 2]))
    && (failed ==> trace[2 * (k - n)] == Handled(claim[k], false))
  }

  /** Whether the claim is left with an error at message `k`. */
  predicate FailsAt(claim: seq<int>, k: nat, leave: nat -> bool) {
    k < |claim| && !leave(k)
  }

  lemma ConsumesOneMore(rest: seq<Event>, claim: seq<int>, n: nat, k: nat, failed: bool)
    requires n < |claim| && Consumes(rest, claim, n + 1, k, failed)
    ensures Consumes([Handled(claim[n], true), Marked(claim[n])] + rest, claim, n, k, failed)
  {
    var trace := [Handled(claim[n], true), Marked(claim[n])] + rest;
    forall i | 0 <= i < 2 * (k - n)
      ensures trace[i] == if i % 2 == 0 then Handled(claim[n + i / 2], true) else Marked(claim[n + i / 2])
    {
      if i >= 2 {
        assert (i - 2) / 2 == i / 2 - 1 && (i - 2) % 2 == i % 2;
        assert trace[i] == rest[i - 2];
      }
    }
  }

  /** Nothing at or after the first message that fails, or that the session no longer waits for,
      is marked, and nothing after it is handled. */
  lemma {:induction false} ClaimExactly(claim: seq<int>, n: nat, works: nat -> bool, leave: nat -> bool)
    returns (k: nat)
    requires n <= |claim|
    ensures StopsAt(claim, n, k, works, leave)
    ensures Consumes(ClaimTrace(claim, n, works, leave), claim, n, k, FailsAt(claim, k, leave))
    decreases |claim| - n
  {
    if n == |claim| || leave(n) || !works(n) {
      k := n;
    } else {
      k := ClaimExactly(claim, n + 1, works, leave);
      ConsumesOneMore(ClaimTrace(claim, n + 1, works, leave), claim, n, k, FailsAt(claim, k, leave));
    }
  }

  /** The claim is handled and marked up to the first such message; the call returns an error if
      and only if it was one that failed. */
  ghost predicate Consumed(claim: seq<int>, works: nat -> bool, leave: nat -> bool, trace: seq<Event>, ok: bool) {
    exists k :: StopsAt(claim, 0, k, works, leave) && Consumes(trace, claim, 0, k, !ok)
                && (!ok <==> FailsAt(claim, k, leave))
  }

  lemma ClaimConsumed(claim: seq<int>, works: nat -> bool, leave: nat -> bool, n: nat, ok: bool, before: seq<Event>)
    requires n <= |claim| && GoesOn(0, n, works, leave)
    requires if ok then n == |claim| || leave(n) else n < |claim| && !leave(n) && !works(n)
    ensures var trace := ClaimTrace(claim, 0, works, leave);
            (before + trace)[|before|..] == trace && Consumed(claim, works, leave, trace, ok)
  {
    var k := ClaimExactly(claim, 0, works, leave);
    assert k == n;
  }

  class Session {
    /** What happened since the offset `start`, and the next offset to be committed. */
    const start: int
    var trace: seq<Event>
    var next: int

    predicate Valid()
      reads this
    {
      next == Committed(start, trace)
    }

    constructor (start: int)
      ensures Valid() && trace == [] && this.start == start
    {
      this.start, trace, next := start, [], start;
    }

    method Handle(offset: int, result: bool) returns (ok: bool)
      requires Valid()
      modifies this
      ensures Valid() && ok == result && trace == old(trace) + [Handled(offset, ok)]
    {
      CommittedAppend(start, trace, Handled(offset, result));
      ok := result;
      trace := trace + [Handled(offset, ok)];
    }

    /** The committed offset never moves back. */
    method MarkMessage(offset: int)
      requires Valid()
      modifies this
      ensures Valid() && trace == old(trace) + [Marked(offset)]
      ensures next >= old(next)
    {
      CommittedAppend(start, trace, Marked(offset));
      trace := trace + [Marked(offset)];
      if offset + 1 > next {
        next := offset + 1;
      }
    }
  }

  method ConsumeClaim(session: Session, claim: seq<int>, works: nat -> bool, leave: nat -> bool) returns (ok: bool)
    requires session.Valid()
    modifies session
    ensures session.Valid() && session.trace == old(session.trace) + ClaimTrace(claim, 0, works, leave)
    ensures Consumed(claim, works, leave, session.trace[|old(session.trace)|..], ok)
  {
    ghost var all, before := ClaimTrace(claim, 0, works, leave), session.trace;
    ghost var done: seq<Event> := [];
    var n := 0;
    while n < |claim| && !leave(n)
      invariant session.Valid() && n <= |claim| && GoesOn(0, n, works, leave)
      invariant all == done + ClaimTrace(claim, n, works, leave)
      invariant session.trace == before + done
    {
      TraceStep(claim, n, works, leave, done);
      ok := session.Handle(claim[n], works(n));
      if !ok {
        Appended(before, done, Handled(claim[n], false), Marked(claim[n]));
        ClaimConsumed(claim, works, leave, n, false, before);
        return;
      }
      session.MarkMessage(claim[n]);
      Appended(before, done, Handled(claim[n], true), Marked(claim[n]));
      done := done + [Handled(claim[n], true), Marked(claim[n])];
      n := n + 1;
    }
    ClaimConsumed(claim, works, leave, n, true, before);
    return true;
  }

  lemma Appended(a: seq<Event>, b: seq<Event>, e: Event, f: Event)
    ensures a + b + [e] == a + (b + [e]) && a + b + [e] + [f] == a + (b + [e, f])
  {
  }

  /** What one message contributes after the trace `done`. */
  lemma TraceStep(claim: seq<int>, n: nat, works: nat -> bool, leave: nat -> bool, done: seq<Event>)
    requires n < |claim| && !leave(n)
    ensures done + ClaimTrace(claim, n, works, leave) ==
            if works(n) then done + [Handled(claim[n], true), Marked(claim[n])] + ClaimTrace(claim, n + 1, works, leave)
            else done + [Handled(claim[n], false)]
  {
  }

  // ---------------------------------------------------------------- any number of sessions

  predicate Ascending(log: seq<int>) {
    forall i, j | 0 <= i < j < |log| :: log[i] < log[j]
  }

  /** Every message of the partition from `start` up to the committed offset was handled
      without error. */
  predicate Covered(log: seq<int>, start: int, trace: seq<Event>) {
    forall i | 0 <= i < |log| && start <= log[i] < Committed(start, trace) :: Handled(log[i], true) in trace
  }

  lemma HandledStays(log: seq<int>, start: int, trace: seq<Event>, o: int, ok: bool)
    requires Covered(log, start, trace)
    ensures Covered(log, start, trace + [Handled(o, ok)])
  {
    CommittedAppend(start, trace, Handled(o, ok));
  }

  lemma MarkedNext(log: seq<int>, start: int, trace: seq<Event>, i: nat)
    requires Ascending(log) && i < |log| && Covered(log, start, trace) && Handled(log[i], true) in trace
    requires forall j | 0 <= j < i :: log[j] < Committed(start, trace)
    ensures Covered(log, start, trace + [Marked(log[i])])
    ensures forall j | 0 <= j <= i :: log[j] < Committed(start, trace + [Marked(log[i])])
  {
    CommittedAppend(start, trace, Marked(log[i]));
  }

  /** A session that reads on from anything not beyond the committed offset. */
  lemma {:induction false} ClaimCovers(log: seq<int>, start: int, before: seq<Event>, from: nat, claim: seq<int>,
                                       n: nat, works: nat -> bool, leave: nat -> bool)
    requires Ascending(log) && Covered(log, start, before)
    requires from + |claim| <= |log| && claim == log[from..from + |claim|] && n <= |claim|
    requires forall j | 0 <= j < from + n :: log[j] < Committed(start, before)
    ensures Covered(log, start, before + ClaimTrace(claim, n, works, leave))
    decreases |claim| - n
  {
    var rest := ClaimTrace(claim, n, works, leave);
    if n >= |claim| || leave(n) {
      assert before + rest == before;
    } else {
      var o := claim[n];
      assert o == log[from + n];
      HandledStays(log, start, before, o, works(n));
      CommittedAppend(start, before, Handled(o, works(n)));
      if works(n) {
        var handled := before + [Handled(o, true)];
        MarkedNext(log, start, handled, from + n);
        ClaimCovers(log, start, handled + [Marked(o)], from, claim, n + 1, works, leave);
        assert before + rest == handled + [Marked(o)] + ClaimTrace(claim, n + 1, works, leave);
      }
    }
  }

  /** One session: where in the partition it starts, how much it is offered, and its script. */
  datatype Round = Round(from: nat, count: nat, works: nat -> bool, leave: nat -> bool)

  function Claim(log: seq<int>, r: Round): seq<int>
    requires r.from + r.count <= |log|
  {
    log[r.from..r.from + r.count]
  }

  function Rounds(log: seq<int>, rounds: seq<Round>): seq<Event>
    requires forall k | 0 <= k < |rounds| :: rounds[k].from + rounds[k].count <= |log|
  {
    if rounds == [] then []
    else
      var r := rounds[|rounds| - 1];
      Rounds(log, rounds[..|rounds| - 1]) + ClaimTrace(Claim(log, r), 0, r.works, r.leave)
  }

  /** Each session reads the partition from a point not beyond the offset committed so far. */
  ghost predicate Resumes(log: seq<int>, start: int, rounds: seq<Round>) {
    && (forall k | 0 <= k < |rounds| :: rounds[k].from + rounds[k].count <= |log|)
    && forall k, j | 0 <= k < |rounds| && 0 <= j < rounds[k].from :: log[j] < Committed(start, Rounds(log, rounds[..k]))
  }

  /** However many sessions there are, wherever each fails or is cut off, and however far back
      each starts: every message below the committed offset was handled without error. */
  lemma {:induction false} NothingSkipped(log: seq<int>, start: int, rounds: seq<Round>)
    requires Ascending(log) && Resumes(log, start, rounds)
    ensures Covered(log, start, Rounds(log, rounds))
    decreases |rounds|
  {
    if rounds != [] {
      var init, r := rounds[..|rounds| - 1], rounds[|rounds| - 1];
      forall k, j | 0 <= k < |init| && 0 <= j < init[k].from ensures log[j] < Committed(start, Rounds(log, init[..k])) {
        assert init[..k] == rounds[..k] && init[k] == rounds[k];
      }
      NothingSkipped(log, start, init);
      assert rounds[..|rounds| - 1] == init;
      ClaimCovers(log, start, Rounds(log, init), r.from, Claim(log, r), 0, r.works, r.leave);
    }
  }
}
