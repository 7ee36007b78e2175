/** JavaScript's `Map<string, V>` and `Set<string>`: keyed collections that
    remember the order in which keys were first inserted. */
module OrderedMaps {
  import opened Common

  /** No element occurs twice. */
  ghost predicate Distinct<T>(s: seq<T>)
  {
    forall i, j :: 0 <= i < j < |s| ==> s[i] != s[j]
  }

  /** `set.add(x)`: a `Set` as the sequence of its members in insertion order. */
  function SetAdd(s: seq<string>, x: string): (r: seq<string>)
    ensures Distinct(s) ==> Distinct(r)
    ensures forall y :: y in r <==> y in s || y == x
  {
    if x in s then s else s + [x]
  }

  /** The keys of a distinct sequence are as many as its elements. */
  lemma {:induction false} DistinctCardinality<T>(s: seq<T>)
    requires Distinct(s)
    ensures |set x | x in s| == |s|
  {
    if s != [] {
      var init := s[..|s| - 1];
      var last := s[|s| - 1];
      DistinctCardinality(init);
      assert (set x | x in s) == (set x | x in init) + {last} by {
        assert s == init + [last];
      }
      assert last !in init by {
        forall i | 0 <= i < |init| ensures init[i] != last {
          assert init[i] == s[i];
        }
      }
    }
  }

  /** `keys` lists the keys of `entries` in insertion order. */
  datatype OrderedMap<V> = OrderedMap(keys: seq<string>, entries: map<string, V>)
  {
    ghost predicate Valid()
    {
      Distinct(keys) && forall k :: k in entries <==> k in keys
    }

    /** `map.size`. */
    function Size(): (n: nat)
      requires Valid()
      ensures n == |entries|
    {
      DistinctCardinality(keys);
      assert entries.Keys == set x | x in keys;
      |keys|
    }

    /** `map.get(k)`. */
    function Get(k: string): (r: Option<V>)
      ensures r.Some? <==> k in entries
      ensures r.Some? ==> r.value == entries[k]
    {
      if k in entries then Some(entries[k]) else None
    }

    /** `map.set(k, v)`: a new key goes last, an existing key keeps its place. */
    function Put(k: string, v: V): (m: OrderedMap<V>)
      requires Valid()
      ensures m.Valid()
      ensures m.entries == entries[k := v]
      ensures k in entries ==> m.keys == keys
      ensures k !in entries ==> m.keys == keys + [k]
      ensures m.Size() <= Size() + 1
    {
      OrderedMap(SetAdd(keys, k), entries[k := v])
    }

    /** `map.delete(k)`: the other keys keep their order. */
    function Delete(k: string): (m: OrderedMap<V>)
      requires Valid()
      ensures m.Valid()
      ensures m.entries == entries - {k}
      ensures forall x :: x in m.keys <==> x in keys && x != k
    {
      OrderedMap(RemoveKey(keys, k), entries - {k})
    }

    /** `Array.from(map.values())`. */
    function Values(): (vs: seq<V>)
      requires Valid()
      ensures |vs| == |keys|
      ensures forall i :: 0 <= i < |keys| ==> vs[i] == entries[keys[i]]
    {
      seq(|keys|, i requires 0 <= i < |keys| => entries[keys[i]])
    }
  }

  function RemoveKey(s: seq<string>, k: string): (r: seq<string>)
    ensures Distinct(s) ==> Distinct(r)
    ensures forall x :: x in r <==> x in s && x != k
    ensures |r| <= |s|
  {
    if s == [] then []
    else if s[0] == k then RemoveKey(s[1..], k)
    else
      var rest := RemoveKey(s[1..], k);
      assert Distinct(s) ==> s[0] !in rest;
      [s[0]] + rest
  }

  /** A key that is not listed leaves the list as it is. */
  lemma {:induction false} RemoveAbsentKey(s: seq<string>, k: string)
    requires k !in s
    ensures RemoveKey(s, k) == s
  {
    if s != [] {
      RemoveAbsentKey(s[1..], k);
    }
  }

  /** Removing a key listed once, at `i`, closes the gap and keeps the order
      of every other key. */
  lemma {:induction false} RemoveListedKey(s: seq<string>, k: string, i: nat)
    requires Distinct(s) && i < |s| && s[i] == k
    ensures RemoveKey(s, k) == s[..i] + s[i + 1..]
  {
    if i == 0 {
      RemoveAbsentKey(s[1..], k);
    } else {
      RemoveListedKey(s[1..], k, i - 1);
      assert s[1..][..i - 1] == s[1..i];
      assert s[1..][i..] == s[i + 1..];
      assert s[..i] == [s[0]] + s[1..i];
    }
  }

  /** `map.delete(k)` takes out only `k`'s place in the insertion order: the
      other keys keep their relative order, and deleting an absent key keeps
      the map. */
  lemma DeleteKeepsOrder<V>(m: OrderedMap<V>, k: string)
    requires m.Valid()
    ensures k !in m.keys ==> m.Delete(k).keys == m.keys
    ensures forall i :: 0 <= i < |m.keys| && m.keys[i] == k ==> m.Delete(k).keys == m.keys[..i] + m.keys[i + 1..]
  {
    if k !in m.keys {
      RemoveAbsentKey(m.keys, k);
    }
    forall i | 0 <= i < |m.keys| && m.keys[i] == k
      ensures m.Delete(k).keys == m.keys[..i] + m.keys[i + 1..]
    {
      RemoveListedKey(m.keys, k, i);
    }
  }

  /** Every stored value is listed by `Values`. */
  lemma ValuesComplete<V>(m: OrderedMap<V>, k: string)
    requires m.Valid() && k in m.entries
    ensures m.entries[k] in m.Values()
  {
    var i :| 0 <= i < |m.keys| && m.keys[i] == k;
    assert m.Values()[i] == m.entries[k];
  }

  /** Writing back the value a key already holds changes nothing. */
  lemma PutSame<V>(m: OrderedMap<V>, k: string)
    requires m.Valid() && k in m.entries
    ensures m.Put(k, m.entries[k]) == m
  {
  }
}
