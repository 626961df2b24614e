/// Model of the string-keyed map of package `isync` (map.go). The mutex that
/// the original takes around each operation, and the Lock/Unlock pair it
/// exposes, are not modelled: run alone, every operation behaves as below.
module Isync {

  /** The entries of `m` that `p` does not select: what ForEachAndDel leaves. */
  function Retained<T>(m: map<string, T>, p: (string, T) -> bool): (r: map<string, T>)
    ensures forall k :: k in r <==> k in m && !p(k, m[k])
    ensures forall k :: k in r ==> r[k] == m[k]
  {
    map k | k in m && !p(k, m[k]) :: m[k]
  }

  class Map<T> {
    /** Go's zero value of T, which Load returns for an absent key. */
    const zero: T
    /** The entries. */
    var storage: map<string, T>

    /** NewMap: a map with no entries. */
    constructor (zero: T)
      ensures this.zero == zero
      ensures storage == map[]
    {
      this.zero := zero;
      storage := map[];
    }

    /** The value stored under `key` and true, or the zero value and false. */
    function Load(key: string): (r: (T, bool))
      reads this
      ensures r.1 <==> key in storage
      ensures r.1 ==> r.0 == storage[key]
      ensures !r.1 ==> r.0 == zero
    {
      if key in storage then (storage[key], true) else (zero, false)
    }

    /** Inserts or overwrites the entry for `key`; no other entry changes. */
    method Store(key: string, v: T)
      modifies this
      ensures storage == old(storage)[key := v]
    {
      storage := storage[key := v];
    }

    /** Removes the entry for `key`, if there is one; no other entry changes. */
    method UnsafeDelete(key: string)
      modifies this
      ensures storage == old(storage) - {key}
    {
      storage := storage - {key};
    }

    /**
     * Hands every entry to `iter` exactly once, in an order the map does not
     * fix, and writes nothing. Returns the entries in the order they were
     * visited and what `iter` gave back for each.
     */
    method ForEach<R>(iter: (string, T) -> R) returns (visits: seq<(string, T)>, results: seq<R>)
      ensures |visits| == |results| == |storage|
      ensures forall i :: 0 <= i < |visits| ==> results[i] == iter(visits[i].0, visits[i].1)
      ensures forall i :: 0 <= i < |visits| ==> visits[i].0 in storage && storage[visits[i].0] == visits[i].1
      ensures forall i, j :: 0 <= i < j < |visits| ==> visits[i].0 != visits[j].0
      ensures forall k :: k in storage ==> (k, storage[k]) in visits
    {
      var unvisited := storage.Keys;
      visits, results := [], [];
      while unvisited != {}
        invariant unvisited <= storage.Keys
        invariant |visits| == |results|
        invariant |visits| + |unvisited| == |storage|
        invariant forall i :: 0 <= i < |visits| ==> results[i] == iter(visits[i].0, visits[i].1)
        invariant forall i :: 0 <= i < |visits| ==>
          visits[i].0 in storage && visits[i].0 !in unvisited && storage[visits[i].0] == visits[i].1
        invariant forall i, j :: 0 <= i < j < |visits| ==> visits[i].0 != visits[j].0
        invariant forall k :: k in storage && k !in unvisited ==> (k, storage[k]) in visits
        decreases unvisited
      {
        var k :| k in unvisited;
        var v := storage[k];
        visits, results := visits + [(k, v)], results + [iter(k, v)];
        unvisited := unvisited - {k};
      }
    }

    /**
     * Visits every entry once, in an order the map does not fix, and deletes
     * the ones `iter` returns true for. Whatever the order, what is left is
     * the entries `iter` returned false for, with their values.
     */
    method ForEachAndDel(iter: (string, T) -> bool) returns (ghost order: seq<string>)
      modifies this
      ensures forall k :: k in order <==> k in old(storage)
      ensures forall i :: 0 <= i < |order| ==> order[i] in old(storage)
      ensures forall i, j :: 0 <= i < j < |order| ==> order[i] != order[j]
      ensures |order| == |old(storage)|
      ensures storage == DeleteWalk(old(storage), old(storage), order, iter)
      ensures storage == Retained(old(storage), iter)
    {
      ghost var orig := storage;
      var unvisited := storage.Keys;
      order := [];
      while unvisited != {}
        invariant unvisited <= orig.Keys
        invariant forall i :: 0 <= i < |order| ==> order[i] in orig
        invariant forall k :: k in order <==> k in orig && k !in unvisited
        invariant forall i, j :: 0 <= i < j < |order| ==> order[i] != order[j]
        invariant |order| + |unvisited| == |orig|
        invariant forall k :: k in storage <==> k in orig && (k in unvisited || !iter(k, orig[k]))
        invariant forall k :: k in storage ==> storage[k] == orig[k]
        invariant storage == DeleteWalk(orig, orig, order, iter)
        decreases unvisited
      {
        var k :| k in unvisited;
        var v := storage[k];
        if iter(k, v) {
          UnsafeDelete(k);
        }
        unvisited := unvisited - {k};
        order := order + [k];
        DeleteWalkRemovesSelected(orig, orig, order, iter);
      }
    }
  }

  /**
   * The storage after a ForEachAndDel walk over `orig` has visited the keys in
   * `order`, one after the other, starting from storage `s`.
   */
  function DeleteWalk<T>(s: map<string, T>, orig: map<string, T>, order: seq<string>, p: (string, T) -> bool): (r: map<string, T>)
    requires forall i :: 0 <= i < |order| ==> order[i] in orig
    ensures forall k :: k in r ==> k in s && r[k] == s[k]
    decreases |order|
  {
    if order == [] then s
    else DeleteWalk(if p(order[0], orig[order[0]]) then s - {order[0]} else s, orig, order[1..], p)
  }

  /** A walk deletes from `s` exactly the visited keys that `p` selects. */
  lemma {:induction false} DeleteWalkRemovesSelected<T>(s: map<string, T>, orig: map<string, T>, order: seq<string>, p: (string, T) -> bool)
    requires forall i :: 0 <= i < |order| ==> order[i] in orig
    ensures forall k :: k in DeleteWalk(s, orig, order, p) <==> k in s && !(k in order && p(k, orig[k]))
    ensures forall k :: k in DeleteWalk(s, orig, order, p) ==> DeleteWalk(s, orig, order, p)[k] == s[k]
    decreases |order|
  {
    if order != [] {
      var s' := if p(order[0], orig[order[0]]) then s - {order[0]} else s;
      DeleteWalkRemovesSelected(s', orig, order[1..], p);
      forall k ensures k in order <==> k == order[0] || k in order[1..] {
        assert order == [order[0]] + order[1..];
      }
    }
  }

  /**
   * ForEachAndDel's result does not depend on the iteration order: every
   * order that visits each key of `orig` leaves Retained(orig, p).
   */
  lemma {:induction false} DeleteWalkAnyOrder<T>(orig: map<string, T>, order: seq<string>, p: (string, T) -> bool)
    requires forall k :: k in orig <==> k in order
    ensures forall i :: 0 <= i < |order| ==> order[i] in orig
    ensures DeleteWalk(orig, orig, order, p) == Retained(orig, p)
  {
    DeleteWalkRemovesSelected(orig, orig, order, p);
  }

  /** The storage after storing the pairs of `data` in order into an empty map. */
  function Stored<T>(data: seq<(string, T)>): (r: map<string, T>)
    ensures forall k :: k in r ==> exists i :: 0 <= i < |data| && data[i] == (k, r[k])
  {
    if data == [] then map[]
    else Stored(data[..|data| - 1])[data[|data| - 1].0 := data[|data| - 1].1]
  }

  /**
   * After a series of stores, a key is present exactly when some store used
   * it, and its value is the one given by the last store that did.
   */
  lemma {:induction false} StoredLastWins<T>(data: seq<(string, T)>, key: string)
    ensures key in Stored(data) <==> exists i :: 0 <= i < |data| && data[i].0 == key
    ensures key in Stored(data) ==> exists i :: (0 <= i < |data| && data[i] == (key, Stored(data)[key])
      && forall j :: i < j < |data| ==> data[j].0 != key)
  {
    if data != [] {
      var n := |data| - 1;
      var prefix := data[..n];
      StoredLastWins(prefix, key);
      if data[n].0 == key {
        assert data[n] == (key, Stored(data)[key]);
      } else {
        assert Stored(data) == Stored(prefix)[data[n].0 := data[n].1];
        if key in Stored(data) {
          var i :| 0 <= i < |prefix| && prefix[i] == (key, Stored(prefix)[key])
            && forall j :: i < j < |prefix| ==> prefix[j].0 != key;
          assert data[i] == (key, Stored(data)[key]);
        } else {
          forall i | 0 <= i < |data| ensures data[i].0 != key {
            if i < n {
              assert data[i] == prefix[i];
            }
          }
        }
      }
    }
  }

  /**
   * Stores the pairs of `data` in order into a new map and loads `key`: found
   * exactly when some pair had that key, and then the value of the last such
   * pair; otherwise the zero value.
   */
  method LoadAfterStores<T>(zero: T, data: seq<(string, T)>, key: string) returns (v: T, found: bool)
    ensures found <==> exists i :: 0 <= i < |data| && data[i].0 == key
    ensures found ==> exists i :: (0 <= i < |data| && data[i] == (key, v)
      && forall j :: i < j < |data| ==> data[j].0 != key)
    ensures !found ==> v == zero
  {
    var m := new Map(zero);
    var n := 0;
    while n < |data|
      invariant 0 <= n <= |data|
      invariant m.zero == zero
      invariant m.storage == Stored(data[..n])
    {
      m.Store(data[n].0, data[n].1);
      assert data[..n + 1][..n] == data[..n];
      n := n + 1;
    }
    assert data[..n] == data;
    StoredLastWins(data, key);
    var r := m.Load(key);
    v, found := r.0, r.1;
  }

  /** After Store(key, v), Load(key) gives (v, true) and every other key loads as before. */
  method LoadAfterStore<T>(m: Map<T>, key: string, v: T, probe: string) returns (r: (T, bool))
    modifies m
    ensures r == if probe == key then (v, true) else old(m.Load(probe))
  {
    m.Store(key, v);
    r := m.Load(probe);
  }

  /** After UnsafeDelete(key), Load(key) finds nothing and every other key loads as before. */
  method LoadAfterDelete<T>(m: Map<T>, key: string, probe: string) returns (r: (T, bool))
    modifies m
    ensures r == if probe == key then (m.zero, false) else old(m.Load(probe))
  {
    m.UnsafeDelete(key);
    r := m.Load(probe);
  }

  /** The delete test: deleting an absent key is a no-op, deleting a present one removes it. */
  method DeleteCases() returns (hogeFoundBefore: bool, hogeFoundAfter: bool, fooFoundBefore: bool, fooFoundAfter: bool)
    ensures !hogeFoundBefore && !hogeFoundAfter && fooFoundBefore && !fooFoundAfter
  {
    var m := new Map<string>("");
    m.Store("foo", "bar");
    hogeFoundBefore := m.Load("hoge").1;
    m.UnsafeDelete("hoge");
    hogeFoundAfter := m.Load("hoge").1;
    fooFoundBefore := m.Load("foo").1;
    m.UnsafeDelete("foo");
    fooFoundAfter := m.Load("foo").1;
  }

  /** Deleting by key from {"foo": "bar", "hoge": "fuga"} leaves {"hoge": "fuga"}. */
  method ForEachAndDelCase() returns (rest: map<string, string>)
    ensures rest == map["hoge" := "fuga"]
  {
    var m := new Map<string>("");
    m.Store("foo", "bar");
    m.Store("hoge", "fuga");
    ghost var order := m.ForEachAndDel((k: string, v: string) => k == "foo");
    rest := m.storage;
  }
}
