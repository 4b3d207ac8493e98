/** The library's own `headerList`: an ordered list updated in place. */
module HeaderLists {
  import opened Headers

  class HeaderList {
    var list: seq<Header>

    constructor ()
      ensures list == []
    {
      list := [];
    }

    method Get(key: string) returns (value: Option<string>)
      ensures value == Headers.Get(list, key)
    {
      for i := 0 to |list|
        invariant forall j | 0 <= j < i :: list[j].key != key
      {
        if list[i].key == key {
          FindUnique(list, key, i);
          return Some(list[i].value);
        }
      }
      FindUnique(list, key, |list|);
      return None;
    }

    method Set(key: string, value: string)
      modifies this
      ensures list == Put(old(list), key, value)
    {
      for i := 0 to |list|
        invariant list == old(list)
        invariant forall j | 0 <= j < i :: list[j].key != key
      {
        if list[i].key == key {
          FindUnique(list, key, i);
          list := list[i := list[i].(value := value)];
          return;
        }
      }
      FindUnique(list, key, |list|);
      list := list + [Header(key, value)];
    }

    method Delete(key: string)
      modifies this
      ensures list == Remove(old(list), key)
    {
      var kept: seq<Header> := [];
      for i := 0 to |list|
        invariant list == old(list)
        invariant kept == Remove(list[..i], key)
      {
        assert list[..i + 1][..i] == list[..i];
        if list[i].key != key {
          kept := kept + [list[i]];
        }
      }
      assert list[..|list|] == list;
      list := kept;
    }

    method All() returns (result: map<string, string>)
      ensures result == ToMap(list)
    {
      result := map[];
      for i := 0 to |list|
        invariant result == ToMap(list[..i])
      {
        assert list[..i + 1][..i] == list[..i];
        result := result[list[i].key := list[i].value];
      }
      assert list[..|list|] == list;
    }

    method Clone() returns (c: HeaderList)
      ensures fresh(c) && c.list == list
    {
      c := new HeaderList();
      for i := 0 to |list|
        invariant c.list == list[..i] && list == old(list)
      {
        c.list := c.list + [Header(list[i].key, list[i].value)];
      }
    }

    /** Sets every header of `source`, in order: what `NewFromMessage` does with a fresh list. */
    method SetAll(source: seq<Header>)
      modifies this
      ensures list == PutAll(old(list), source)
    {
      for i := 0 to |source|
        invariant list == PutFirst(old(list), source, i)
      {
        Set(source[i].key, source[i].value);
      }
    }
  }

  lemma FindUnique(l: seq<Header>, key: string, i: nat)
    requires i <= |l|
    requires forall j | 0 <= j < i :: l[j].key != key
    requires i < |l| ==> l[i].key == key
    ensures Find(l, key) == i
  {
  }
}

/** The Sarama adapter's `Headers`: a slice of pointers to records that are updated in place. */
module SaramaHeaders {
  import opened Headers
  import opened HeaderLists

  class RecordHeader {
    const key: string
    var value: string

    constructor (key: string, value: string)
      ensures this.key == key && this.value == value
    {
      this.key := key;
      this.value := value;
    }
  }

  /** A slice: the first `len` slots of an array that other slices may share. */
  class SaramaList {
    var slots: array<RecordHeader>
    var len: nat

    /** No record is listed twice. */
    ghost predicate Valid()
      reads this, slots
    {
      len <= slots.Length && forall i, j | 0 <= i < j < len :: slots[i] != slots[j]
    }

    ghost function Footprint(): set<object>
      reads this, slots
    {
      set i | 0 <= i < len && i < slots.Length :: slots[i]
    }

    ghost function View(): (v: seq<Header>)
      requires Valid()
      reads this, slots, Footprint()
      ensures |v| == len
      ensures forall i | 0 <= i < |v| :: v[i] == Header(slots[i].key, slots[i].value)
    {
      seq(len, i requires 0 <= i < len && Valid() reads this, slots, Footprint() =>
        Header(slots[i].key, slots[i].value))
    }

    /** A wrapper of the records of a consumed message. */
    constructor (records: array<RecordHeader>)
      requires forall i, j | 0 <= i < j < records.Length :: records[i] != records[j]
      ensures Valid() && slots == records && len == records.Length
    {
      slots, len := records, records.Length;
    }

    method Get(key: string) returns (value: Option<string>)
      requires Valid()
      ensures value == Headers.Get(View(), key)
    {
      for i := 0 to len
        invariant forall j | 0 <= j < i :: slots[j].key != key
      {
        if slots[i].key == key {
          FindUnique(View(), key, i);
          return Some(slots[i].value);
        }
      }
      FindUnique(View(), key, len);
      return None;
    }

    /** Appending uses the next slot of the array when there is one. */
    method Append(added: RecordHeader)
      requires Valid() && added !in Footprint()
      modifies this, slots
      ensures Valid() && len == old(len) + 1
      ensures slots == old(slots) || fresh(slots)
      ensures slots[..len] == old(slots[..len]) + [added]
    {
      if len < slots.Length {
        slots[len] := added;
      } else {
        var whole := slots;
        slots := new RecordHeader[len + 1](i requires 0 <= i < len + 1 reads this, whole =>
          if i < len && i < whole.Length then whole[i] else added);
      }
      len := len + 1;
    }

    method Set(key: string, value: string)
      requires Valid()
      modifies this, slots, Footprint()
      ensures Valid() && (slots == old(slots) || fresh(slots)) && fresh(Footprint() - old(Footprint()))
      ensures View() == Put(old(View()), key, value)
    {
      ghost var before := View();
      for i := 0 to len
        invariant Valid() && slots == old(slots) && len == old(len) && slots[..len] == old(slots[..len])
        invariant View() == before
        invariant forall j | 0 <= j < i :: slots[j].key != key
      {
        if slots[i].key == key {
          FindUnique(before, key, i);
          slots[i].value := value;
          assert View() == before[i := Header(key, value)];
          return;
        }
      }
      FindUnique(before, key, len);
      var added := new RecordHeader(key, value);
      ghost var records := slots[..len];
      Append(added);
      assert slots[..len] == records + [added];
      assert View() == before + [Header(key, value)];
    }

    /** The last record moves into the place of the deleted one, in the shared array. */
    method Delete(key: string)
      requires Valid()
      modifies this, slots
      ensures Valid() && slots == old(slots) && Footprint() <= old(Footprint())
      ensures View() == SwapRemove(old(View()), key)
      ensures var i := Find(old(View()), key);
              slots[..] == old(if i < len then slots[..][i := slots[len - 1]] else slots[..])
    {
      ghost var before := View();
      for i := 0 to len
        invariant Valid() && len == old(len) && slots[..] == old(slots[..])
        invariant forall j | 0 <= j < i :: slots[j].key != key
      {
        if slots[i].key == key {
          FindUnique(before, key, i);
          slots[i] := slots[len - 1];
          len := len - 1;
          assert View() == before[i := before[|before| - 1]][..|before| - 1];
          return;
        }
      }
      FindUnique(before, key, len);
    }

    method Clone() returns (c: SaramaList)
      requires Valid()
      ensures fresh(c) && fresh(c.slots) && c.Valid() && fresh(c.Footprint())
      ensures c.View() == View()
    {
      var copies: seq<RecordHeader> := [];
      for i := 0 to len
        invariant |copies| == i
        invariant forall j | 0 <= j < i :: fresh(copies[j])
        invariant forall j | 0 <= j < i :: copies[j].key == slots[j].key && copies[j].value == slots[j].value
        invariant forall j, n | 0 <= j < n < i :: copies[j] != copies[n]
      {
        var one := new RecordHeader(slots[i].key, slots[i].value);
        copies := copies + [one];
      }
      var cloned := new RecordHeader[|copies|](i requires 0 <= i < |copies| => copies[i]);
      c := new SaramaList(cloned);
    }

    /** `ToSaramaHeaders` for the adapter's own headers. */
    method ToSaramaHeaders() returns (result: seq<Header>)
      requires Valid()
      ensures result == View()
    {
      result := [];
      for i := 0 to len
        invariant result == View()[..i]
      {
        result := result + [Header(slots[i].key, slots[i].value)];
      }
    }
  }

  /** Every call of `Message.Headers` wraps the same records. After a deletion through one
      wrapper, one made later still has all slots, the last record once more in the deleted
      one's place `i`. */
  method DeleteThroughWrapper(records: array<RecordHeader>, key: string) returns (h: SaramaList, i: nat)
    requires forall i, j | 0 <= i < j < records.Length :: records[i] != records[j]
    modifies records
    ensures fresh(h) && h.slots == records && h.Valid()
    ensures i <= records.Length && (forall j | 0 <= j < i :: old(records[j].key) != key)
    ensures if i == records.Length then h.len == records.Length && records[..] == old(records[..])
            else old(records[i].key) == key && h.len == records.Length - 1
                 && records[..] == old(records[..])[i := old(records[records.Length - 1])]
  {
    h := new SaramaList(records);
    ghost var before := h.View();
    i := 0;
    while i < records.Length && records[i].key != key
      invariant i <= records.Length && forall j | 0 <= j < i :: records[j].key != key
    {
      i := i + 1;
    }
    FindUnique(before, key, i);
    h.Delete(key);
  }

  /** `ToSaramaHeaders` for any other implementation: the pairs in `Range` order. */
  method ToSaramaHeaders(headers: HeaderList) returns (result: seq<Header>)
    ensures result == headers.list
  {
    result := [];
    for i := 0 to |headers.list|
      invariant result == headers.list[..i]
    {
      result := result + [headers.list[i]];
    }
  }

  /** A consumed message's headers after being sent: list to Sarama records, records to a
      fresh list. Nothing is lost and nothing moves when the list has no duplicates. */
  method ThroughSarama(sent: HeaderList) returns (received: HeaderList)
    ensures fresh(received) && received.list == Copy(sent.list)
    ensures NoDup(sent.list) ==> received.list == sent.list
  {
    var wire := ToSaramaHeaders(sent);
    received := new HeaderList();
    received.SetAll(wire);
    if NoDup(sent.list) {
      CopyIsIdentityWithoutDuplicates(sent.list);
    }
  }
}
