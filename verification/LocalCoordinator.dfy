/** The in-memory coordinator: a `lockMap` updated in place. */
module LocalCoordinator {
  import opened Headers
  import opened LockTable

  const HEADER_TOPIC := "topic"

  class LocalStateCoordinator {
    var lm: Table

    ghost predicate Valid()
      reads this
    {
      Canonical(lm)
    }

    constructor ()
      ensures Valid() && lm == map[]
    {
      lm := map[];
    }

    method GetRefCount(topic: string, key: string) returns (count: int, exists_: bool)
      ensures count == Count(lm, topic, key)
      ensures exists_ <==> topic in lm && key in lm[topic]
    {
      if topic !in lm || key !in lm[topic] {
        return 0, false;
      }
      return lm[topic][key], true;
    }

    method IncrementRef(topic: string, key: string) returns (count: int)
      modifies this
      ensures lm == Increment(old(lm), topic, key) && count == Count(lm, topic, key)
    {
      if topic !in lm {
        lm := lm[topic := map[]];
      }
      var c := if key in lm[topic] then lm[topic][key] else 0;
      lm := lm[topic := lm[topic][key := c + 1]];
      count := lm[topic][key];
    }

    /** The new count, and whether the key was there at all; the entry stays even at zero. */
    method DecrementRef(topic: string, key: string) returns (count: int, existed: bool)
      modifies this
      ensures existed <==> topic in old(lm) && key in old(lm)[topic]
      ensures !existed ==> lm == old(lm) && count == 0
      ensures existed ==> count == old(lm)[topic][key] - 1
                          && lm == old(lm)[topic := old(lm)[topic][key := count]]
    {
      if topic !in lm || key !in lm[topic] {
        return 0, false;
      }
      count := lm[topic][key] - 1;
      lm := lm[topic := lm[topic][key := count]];
      existed := true;
    }

    method RemoveKey(topic: string, key: string)
      modifies this
      ensures lm == if topic in old(lm) then old(lm)[topic := old(lm)[topic] - {key}] else old(lm)
    {
      if topic in lm {
        lm := lm[topic := lm[topic] - {key}];
      }
    }

    method RemoveTopic(topic: string)
      modifies this
      ensures lm == old(lm) - {topic}
    {
      lm := lm - {topic};
    }

    method IsTopicEmpty(topic: string) returns (empty: bool)
      ensures empty <==> topic in lm ==> lm[topic] == map[]
    {
      empty := topic !in lm || lm[topic] == map[];
    }

    method Acquire(originalTopic: string, key: string)
      requires Valid()
      modifies this
      ensures Valid() && lm == Increment(old(lm), originalTopic, key)
    {
      var _ := IncrementRef(originalTopic, key);
    }

    /** Releases under the topic named in the headers, or else the message's own topic. */
    method Release(msgTopic: string, key: string, headers: seq<Header>)
      requires Valid()
      modifies this
      ensures Valid() && lm == Decrement(old(lm), Get(headers, HEADER_TOPIC).GetOr(msgTopic), key)
    {
      var topic := Get(headers, HEADER_TOPIC).GetOr(msgTopic);
      ghost var before := lm;
      var count, existed := DecrementRef(topic, key);
      if !existed {
        return;
      }
      if count <= 0 {
        RemoveKey(topic, key);
        assert lm[topic] == before[topic] - {key};
      }
      assert topic in lm && lm[topic].Keys == before[topic].Keys - if count <= 0 then {key} else {};
      var empty := IsTopicEmpty(topic);
      assert empty <==> lm[topic].Keys == {};
      if empty {
        RemoveTopic(topic);
        assert before[topic].Keys == {key};
        assert lm == before - {topic};
      }
    }

    method IsLocked(topic: string, key: string) returns (locked: bool)
      ensures locked <==> Count(lm, topic, key) > 0
    {
      var count, exists_ := GetRefCount(topic, key);
      locked := exists_ && count > 0;
    }
  }
}
