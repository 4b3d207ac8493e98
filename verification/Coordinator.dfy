/** The coordinator that shares its locks through the redirect topic. */
module Coordinator {
  import opened Headers
  import opened HeaderLists
  import opened LockTable
  import opened LocalCoordinator
  import opened Messaging

  const HEADER_ID := "id"
  const HEADER_KEY := "key"
  const HEADER_COORDINATOR_ID := "x-coordinator-id"
  const PRODUCE_ATTEMPTS: nat := 3

  /** The producer's script, the lock ids still to be drawn, and this coordinator's identity. */
  datatype Setting = Setting(outcome: nat -> bool, mint: nat -> string, self: string)

  /** The local table, the wire, and the number of ids drawn. */
  datatype World = World(table: Table, wire: Wire, minted: nat)

  function RedirectHeaders(c: Setting, headers: seq<Header>, topic: string, key: string): seq<Header> {
    Put(Put(Put(headers, HEADER_TOPIC, topic), HEADER_KEY, key), HEADER_COORDINATOR_ID, c.self)
  }

  // ---------------------------------------------------------------- what acquiring and releasing do

  /** The headers of a message once it has a lock id and an original topic. */
  function LockHeaders(c: Setting, w: World, originalTopic: string, headers: seq<Header>): seq<Header> {
    var h1 := if Get(headers, HEADER_ID).Some? then headers else Put(headers, HEADER_ID, c.mint(w.minted));
    if Get(h1, HEADER_TOPIC).Some? then h1 else Put(h1, HEADER_TOPIC, originalTopic)
  }

  function LockRecord(c: Setting, originalTopic: string, key: string, id: string, headers: seq<Header>): Sent {
    Sent(Redirect(originalTopic), id, Some(id), RedirectHeaders(c, headers, originalTopic, key))
  }

  function AcquireOutcome(c: Setting, w: World, originalTopic: string, key: string, headers: seq<Header>)
    : (r: (World, seq<Header>, bool))
    requires Canonical(w.table)
    ensures Canonical(r.0.table)
  {
    var minted := if Get(headers, HEADER_ID).Some? then w.minted else w.minted + 1;
    var h := LockHeaders(c, w, originalTopic, headers);
    var id := Get(headers, HEADER_ID).GetOr(c.mint(w.minted));
    var table := Increment(w.table, originalTopic, key);
    var (wire, ok) := ProduceUpTo(c.outcome, w.wire, LockRecord(c, originalTopic, key, id, h), PRODUCE_ATTEMPTS);
    (World(if ok then table else Decrement(table, Get(h, HEADER_TOPIC).GetOr(""), key), wire, minted), h, ok)
  }

  function Tombstone(c: Setting, topic: string, key: string, id: string, headers: seq<Header>): Sent {
    Sent(Redirect(topic), id, None, Put(RedirectHeaders(c, headers, topic, key), HEADER_ID, id))
  }

  function ReleaseOutcome(c: Setting, w: World, key: string, headers: seq<Header>): (r: (World, bool))
    requires Canonical(w.table)
    ensures Canonical(r.0.table)
  {
    match (Get(headers, HEADER_ID), Get(headers, HEADER_TOPIC))
    case (Some(id), Some(topic)) =>
      var table := Decrement(w.table, topic, key);
      var (wire, ok) := ProduceUpTo(c.outcome, w.wire, Tombstone(c, topic, key, id, headers), PRODUCE_ATTEMPTS);
      (World(if ok then table else Increment(table, topic, key), wire, w.minted), ok)
    case _ => (w, false)
  }

  // ---------------------------------------------------------------- consuming the redirect topic

  datatype Consumed = Applied(table: Table) | Rejected(reason: string)

  /** A record as received: echoes do nothing, tombstones release under the record key,
      anything else acquires the business key named in the headers. */
  function ProcessRedirect(self: string, table: Table, m: Message): Consumed
    requires Canonical(table)
  {
    if Get(m.headers, HEADER_COORDINATOR_ID) == Some(self) then Applied(table)
    else if m.payload == None then
      var h := Copy(m.headers);
      if Get(h, HEADER_TOPIC) == None then Rejected("topic header not found")
      else if Get(h, HEADER_KEY) == None then Rejected("key header not found")
      else Applied(Decrement(table, Get(h, HEADER_TOPIC).GetOr(m.topic), m.key))
    else if Get(m.headers, HEADER_TOPIC) == None then Rejected("redirect message missing topic header")
    else if Get(m.headers, HEADER_KEY) == None then Rejected("redirect message missing key header")
    else Applied(Increment(table, Get(m.headers, HEADER_TOPIC).value, Get(m.headers, HEADER_KEY).value))
  }

  class KafkaStateCoordinator {
    const setting: Setting
    const local: LocalStateCoordinator
    const producer: Producer
    var minted: nat

    ghost predicate Valid()
      reads this, local
    {
      && local.Valid()
      && producer.outcome == setting.outcome
    }

    ghost function View(): World
      reads this, local, producer
    {
      World(local.lm, producer.View(), minted)
    }

    constructor (setting: Setting, producer: Producer)
      requires producer.outcome == setting.outcome
      ensures Valid() && fresh(local) && this.producer == producer && this.setting == setting
      ensures View() == World(map[], producer.View(), 0)
    {
      this.setting, this.producer := setting, producer;
      local := new LocalStateCoordinator();
      minted := 0;
    }

    /** Gives the message a lock id and an original topic unless it has them. */
    method EnsureLockHeaders(originalTopic: string, msg: MessageEnvelope) returns (id: string)
      modifies this, msg.headerData
      ensures var w, given := old(View()), old(msg.headerData.list);
              && msg.headerData.list == LockHeaders(setting, w, originalTopic, given)
              && id == Get(given, HEADER_ID).GetOr(setting.mint(w.minted))
              && minted == if Get(given, HEADER_ID).Some? then w.minted else w.minted + 1
    {
      var given := msg.headerData.Get(HEADER_ID);
      if given == None {
        id := setting.mint(minted);
        minted := minted + 1;
        msg.headerData.Set(HEADER_ID, id);
      } else {
        id := given.value;
      }
      var topic := msg.headerData.Get(HEADER_TOPIC);
      if topic == None {
        msg.headerData.Set(HEADER_TOPIC, originalTopic);
      }
    }

    /** A clone of the headers with the coordinator's own ones; the message keeps its own. */
    method CloneForRedirect(headers: HeaderList, topic: string, key: string) returns (c: HeaderList)
      ensures fresh(c) && c.list == RedirectHeaders(setting, headers.list, topic, key)
    {
      c := headers.Clone();
      c.Set(HEADER_TOPIC, topic);
      c.Set(HEADER_KEY, key);
      c.Set(HEADER_COORDINATOR_ID, setting.self);
    }

    /** Counts the key at once, then publishes; takes the count back when that fails. */
    method CountAndPublish(originalTopic: string, id: string, msg: MessageEnvelope) returns (ok: bool)
      requires Valid() && Get(msg.headerData.list, HEADER_TOPIC).Some?
      modifies local, producer
      ensures Valid()
      ensures var h := msg.headerData.list;
              var table := Increment(old(local.lm), originalTopic, msg.key);
              && (producer.View(), ok) == ProduceUpTo(setting.outcome, old(producer.View()),
                                            LockRecord(setting, originalTopic, msg.key, id, h), PRODUCE_ATTEMPTS)
              && local.lm == if ok then table else Decrement(table, Get(h, HEADER_TOPIC).value, msg.key)
    {
      local.Acquire(originalTopic, msg.key);
      var redirectHeaders := CloneForRedirect(msg.headerData, originalTopic, msg.key);
      ok := producer.SendWithRetries(Sent(Redirect(originalTopic), id, Some(id), redirectHeaders.list),
                                     PRODUCE_ATTEMPTS);
      if !ok {
        local.Release(msg.topic, msg.key, msg.headerData.list);
      }
    }

    method Acquire(originalTopic: string, msg: MessageEnvelope) returns (ok: bool)
      requires Valid()
      modifies this, local, producer, msg.headerData
      ensures Valid()
      ensures (View(), msg.headerData.list, ok)
           == AcquireOutcome(setting, old(View()), originalTopic, msg.key, old(msg.headerData.list))
    {
      TopicIsSet(setting, View(), originalTopic, msg.headerData.list);
      var id := EnsureLockHeaders(originalTopic, msg);
      ok := CountAndPublish(originalTopic, id, msg);
    }

    method Release(msg: MessageEnvelope) returns (ok: bool)
      requires Valid()
      modifies this, local, producer
      ensures Valid()
      ensures (View(), ok) == ReleaseOutcome(setting, old(View()), msg.key, msg.headerData.list)
    {
      var id := msg.headerData.Get(HEADER_ID);
      if id == None {
        return false;
      }
      var topic := msg.headerData.Get(HEADER_TOPIC);
      if topic == None {
        return false;
      }
      local.Release(msg.topic, msg.key, msg.headerData.list);
      var tombstoneHeaders := CloneForRedirect(msg.headerData, topic.value, msg.key);
      tombstoneHeaders.Set(HEADER_ID, id.value);
      ok := producer.SendWithRetries(Sent(Redirect(topic.value), id.value, None, tombstoneHeaders.list),
                                     PRODUCE_ATTEMPTS);
      if !ok {
        local.Acquire(topic.value, msg.key);
      }
    }

    method IsLocked(topic: string, key: string) returns (locked: bool)
      ensures locked <==> Count(local.lm, topic, key) > 0
    {
      locked := local.IsLocked(topic, key);
    }

    method ProcessRedirectMessage(m: Message) returns (failure: Option<string>)
      requires Valid()
      modifies local
      ensures Valid()
      ensures match ProcessRedirect(setting.self, old(local.lm), m)
              case Applied(table) => failure == None && local.lm == table
              case Rejected(reason) => failure == Some(reason) && local.lm == old(local.lm)
    {
      var origin := Get(m.headers, HEADER_COORDINATOR_ID);
      if origin == Some(setting.self) {
        return None;
      }
      if m.payload == None {
        failure := ReleaseMessage(m);
        return;
      }
      var topic := Get(m.headers, HEADER_TOPIC);
      if topic == None {
        return Some("redirect message missing topic header");
      }
      var key := Get(m.headers, HEADER_KEY);
      if key == None {
        return Some("redirect message missing key header");
      }
      local.Acquire(topic.value, key.value);
      return None;
    }

    method ReleaseMessage(m: Message) returns (failure: Option<string>)
      requires Valid()
      modifies local
      ensures Valid()
      ensures var h := Copy(m.headers);
              if Get(h, HEADER_TOPIC) == None then
                failure == Some("topic header not found") && local.lm == old(local.lm)
              else if Get(h, HEADER_KEY) == None then
                failure == Some("key header not found") && local.lm == old(local.lm)
              else failure == None && local.lm == Decrement(old(local.lm), Get(h, HEADER_TOPIC).value, m.key)
    {
      var im := NewFromMessage(m);
      var topic := im.headerData.Get(HEADER_TOPIC);
      if topic == None {
        return Some("topic header not found");
      }
      var key := im.headerData.Get(HEADER_KEY);
      if key == None {
        return Some("key header not found");
      }
      local.Release(im.topic, im.key, im.headerData.list);
      return None;
    }
  }

  lemma TopicIsSet(c: Setting, w: World, originalTopic: string, headers: seq<Header>)
    ensures Get(LockHeaders(c, w, originalTopic, headers), HEADER_TOPIC).Some?
    ensures Get(LockHeaders(c, w, originalTopic, headers), HEADER_ID)
         == Some(Get(headers, HEADER_ID).GetOr(c.mint(w.minted)))
  {
    var h1 := if Get(headers, HEADER_ID).Some? then headers else Put(headers, HEADER_ID, c.mint(w.minted));
    PutGet(headers, HEADER_ID, c.mint(w.minted), HEADER_ID);
    PutGet(h1, HEADER_TOPIC, originalTopic, HEADER_TOPIC);
    PutGet(h1, HEADER_TOPIC, originalTopic, HEADER_ID);
  }
}
