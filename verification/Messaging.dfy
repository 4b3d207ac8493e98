/** Messages and the producer. Whether a call to the producer succeeds is decided by an
    arbitrary script, so a statement about all scripts is one about all failures. */
module Messaging {
  import opened Headers
  import opened HeaderLists

  /** The three topics that accompany a primary topic. */
  datatype Destination = Redirect(topic: string) | Retry(topic: string) | DeadLetter(topic: string)

  /** What reaches the broker; a tombstone has no payload. */
  datatype Sent = Sent(to: Destination, key: string, payload: Option<string>, headers: seq<Header>)

  /** A consumed message, as the tracker's callers pass it in. */
  datatype Message = Message(topic: string, key: string, payload: Option<string>, headers: seq<Header>)

  /** Everything written so far, and how many calls the producer has answered. */
  datatype Wire = Wire(sent: seq<Sent>, calls: nat)

  function Produce(outcome: nat -> bool, w: Wire, m: Sent): (Wire, bool) {
    if outcome(w.calls) then (Wire(w.sent + [m], w.calls + 1), true)
    else (Wire(w.sent, w.calls + 1), false)
  }

  /** Up to `attempts` calls, stopping at the first success. */
  function ProduceUpTo(outcome: nat -> bool, w: Wire, m: Sent, attempts: nat): (r: (Wire, bool))
    ensures r.0.sent == if r.1 then w.sent + [m] else w.sent
    ensures attempts > 0 && outcome(w.calls) ==> r.1
    decreases attempts, w
  {
    if attempts == 0 then (w, false)
    else
      var (w', ok) := Produce(outcome, w, m);
      if ok then (w', true) else ProduceUpTo(outcome, w', m, attempts - 1)
  }

  /** One of the `n` calls from number `from` on works. */
  ghost predicate SomeCallWorks(outcome: nat -> bool, from: nat, n: nat) {
    exists i :: from <= i < from + n && outcome(i)
  }

  lemma CallsSplit(outcome: nat -> bool, from: nat, m: nat, n: nat)
    ensures SomeCallWorks(outcome, from, m + n)
       <==> SomeCallWorks(outcome, from, m) || SomeCallWorks(outcome, from + m, n)
  {
    if i :| from <= i < from + (m + n) && outcome(i) {
      assert i < from + m ==> SomeCallWorks(outcome, from, m);
      assert i >= from + m ==> SomeCallWorks(outcome, from + m, n);
    }
    if i :| from <= i < from + m && outcome(i) {
      assert i < from + (m + n);
    }
    if i :| from + m <= i < from + m + n && outcome(i) {
      assert from <= i;
    }
  }

  /** The first of the calls from `w` on that works has written the message, once. */
  ghost predicate Written(outcome: nat -> bool, w: Wire, w': Wire, m: Sent) {
    && w'.sent == w.sent + [m]
    && w.calls < w'.calls && outcome(w'.calls - 1) && !SomeCallWorks(outcome, w.calls, w'.calls - 1 - w.calls)
  }

  /** The message is written once, by the first call that works; without one, all are made and
      nothing is written. */
  lemma {:induction false} ProducesOnce(outcome: nat -> bool, w: Wire, m: Sent, attempts: nat)
    ensures var (w', ok) := ProduceUpTo(outcome, w, m, attempts);
            && (ok <==> SomeCallWorks(outcome, w.calls, attempts))
            && if ok then Written(outcome, w, w', m) && w'.calls <= w.calls + attempts
               else w' == Wire(w.sent, w.calls + attempts)
    decreases attempts
  {
    if attempts > 0 {
      CallsSplit(outcome, w.calls, 1, attempts - 1);
      assert SomeCallWorks(outcome, w.calls, 1) <==> outcome(w.calls);
      if !outcome(w.calls) {
        var (w', ok) := ProduceUpTo(outcome, w, m, attempts);
        ProducesOnce(outcome, Wire(w.sent, w.calls + 1), m, attempts - 1);
        if ok {
          CallsSplit(outcome, w.calls, 1, w'.calls - 2 - w.calls);
        }
      }
    }
  }

  class Producer {
    const outcome: nat -> bool
    var sent: seq<Sent>
    var calls: nat

    constructor (outcome: nat -> bool)
      ensures View() == Wire([], 0) && this.outcome == outcome
    {
      this.outcome := outcome;
      sent, calls := [], 0;
    }

    ghost function View(): Wire
      reads this
    {
      Wire(sent, calls)
    }

    method Send(m: Sent) returns (ok: bool)
      modifies this
      ensures (View(), ok) == Produce(outcome, old(View()), m)
    {
      ok := outcome(calls);
      calls := calls + 1;
      if ok {
        sent := sent + [m];
      }
    }

    /** `retry.Do` around one message. */
    method SendWithRetries(m: Sent, attempts: nat) returns (ok: bool)
      modifies this
      ensures (View(), ok) == ProduceUpTo(outcome, old(View()), m, attempts)
    {
      ok := false;
      var left: nat := attempts;
      while left > 0 && !ok
        invariant left <= attempts
        invariant if ok then (View(), true) == ProduceUpTo(outcome, old(View()), m, attempts)
                  else ProduceUpTo(outcome, View(), m, left) == ProduceUpTo(outcome, old(View()), m, attempts)
        decreases left
      {
        ok := Send(m);
        left := left - 1;
      }
    }
  }

  /** The library's own message object, with headers that are updated in place. */
  class MessageEnvelope {
    const topic: string
    const key: string
    const payload: Option<string>
    const headerData: HeaderList

    ghost function View(): Message
      reads headerData
    {
      Message(topic, key, payload, headerData.list)
    }

    constructor (topic: string, key: string, payload: Option<string>, headers: HeaderList)
      ensures this.topic == topic && this.key == key && this.payload == payload && headerData == headers
    {
      this.topic, this.key, this.payload, headerData := topic, key, payload, headers;
    }
  }

  /** `NewFromMessage`: all fields, and a fresh header list without duplicates. */
  method NewFromMessage(msg: Message) returns (im: MessageEnvelope)
    ensures fresh(im) && fresh(im.headerData)
    ensures im.View() == msg.(headers := Copy(msg.headers))
  {
    var headers := new HeaderList();
    headers.SetAll(msg.headers);
    im := new MessageEnvelope(msg.topic, msg.key, msg.payload, headers);
  }
}
