/** The identifier BiMaps of the data loader (userIds, itemIds, uiIds,
    ctxIds, dimIds): a raw key gets the next inner id, equal to the number of
    keys registered before it, the first time it is seen, and keeps that id
    afterwards. The inverse view (idUser, idItem, ...) is the list of keys
    in id order. */
module Registries {
  import opened Wrappers

  datatype Registry<K(==)> = Registry(ids: map<K, nat>, keys: seq<K>)

  /** The map and its inverse agree, so ids are exactly 0 .. |keys|-1 and no
      key is registered twice. */
  predicate Valid<K(==)>(r: Registry<K>) {
    (forall i :: 0 <= i < |r.keys| ==> r.keys[i] in r.ids && r.ids[r.keys[i]] == i)
    && (forall k :: k in r.ids ==> r.ids[k] < |r.keys| && r.keys[r.ids[k]] == k)
  }

  function Empty<K(==)>(): (r: Registry<K>)
    ensures Valid(r) && |r.keys| == 0
  {
    Registry(map[], [])
  }

  function Size<K(==)>(r: Registry<K>): nat {
    |r.keys|
  }

  /** BiMap.get: the inner id of a key, None (Java null) when unknown. */
  function Lookup<K(==)>(r: Registry<K>, k: K): (id: Option<nat>)
    requires Valid(r)
    ensures id.Some? <==> k in r.keys
    ensures id.Some? ==> id.value < |r.keys| && r.keys[id.value] == k
  {
    if k in r.ids then Some(r.ids[k]) else None
  }

  /** The `containsKey ? get : size()` idiom followed by `put`: the id of the
      key after registering it if it was new. */
  function Intern<K(==)>(r: Registry<K>, k: K): (res: (Registry<K>, nat))
    requires Valid(r)
    ensures Valid(res.0)
    ensures k in r.ids ==> res.0 == r && res.1 == r.ids[k]
    ensures k !in r.ids ==> res.0.keys == r.keys + [k] && res.1 == |r.keys|
    ensures k in res.0.ids && res.0.ids[k] == res.1
  {
    if k in r.ids then (r, r.ids[k])
    else (Registry(r.ids[k := |r.keys|], r.keys + [k]), |r.keys|)
  }

  /** The registry after registering keys in order (a fold from the left,
      written by its last step). */
  function InternAll<K(==)>(r: Registry<K>, ks: seq<K>): (r': Registry<K>)
    requires Valid(r)
    ensures Valid(r')
  {
    if |ks| == 0 then r else Intern(InternAll(r, ks[..|ks| - 1]), ks[|ks| - 1]).0
  }

  /** InternAll's last step. */
  lemma InternAllLast<K>(r: Registry<K>, ks: seq<K>)
    requires Valid(r) && |ks| > 0
    ensures InternAll(r, ks) == Intern(InternAll(r, ks[..|ks| - 1]), ks[|ks| - 1]).0
  {
  }

  /** InternAll one key further. */
  lemma InternAllStep<K>(r: Registry<K>, ks: seq<K>, ks': seq<K>, a: Registry<K>, b: Registry<K>)
    requires Valid(r) && |ks'| > 0 && ks'[..|ks'| - 1] == ks
    requires a == InternAll(r, ks) && b == Intern(a, ks'[|ks'| - 1]).0
    ensures b == InternAll(r, ks')
  {
  }

  /** Position i is the first occurrence of x in s. */
  predicate FirstAt<K(==)>(s: seq<K>, x: K, i: int) {
    0 <= i < |s| && s[i] == x && forall j :: 0 <= j < i ==> s[j] != x
  }

  /** Registering keys only appends: old ids keep their keys, every key seen
      is registered, nothing else is. */
  lemma {:induction false} InternAllExtends<K>(r: Registry<K>, ks: seq<K>)
    requires Valid(r)
    ensures r.keys <= InternAll(r, ks).keys
    ensures forall k :: k in InternAll(r, ks).keys <==> k in r.keys || k in ks
  {
    if |ks| > 0 {
      var ks' := ks[..|ks| - 1];
      InternAllExtends(r, ks');
      assert ks == ks' + [ks[|ks| - 1]];
    }
  }

  /** r2 grows r: every key of r keeps its id, and a key new in r2 gets an
      id past those of r. */
  predicate Extends<K(==)>(r: Registry<K>, r2: Registry<K>) {
    (forall k :: k in r.ids ==> k in r2.ids && r2.ids[k] == r.ids[k])
    && (forall k :: k in r2.ids && k !in r.ids ==> r2.ids[k] >= |r.keys|)
  }

  /** Registering one key grows the registry. */
  lemma InternExtends<K>(r: Registry<K>, k: K)
    requires Valid(r)
    ensures Extends(r, Intern(r, k).0)
  {
  }

  lemma InternAllKeepsIds<K>(r: Registry<K>, ks: seq<K>)
    requires Valid(r)
    ensures Extends(r, InternAll(r, ks))
  {
    var r2 := InternAll(r, ks);
    InternAllExtends(r, ks);
    forall k | k in r.ids
      ensures k in r2.ids && r2.ids[k] == r.ids[k]
    {
      var i := r.ids[k];
      assert r2.keys[i] == r.keys[i] == k;
    }
    forall k | k in r2.ids && k !in r.ids
      ensures r2.ids[k] >= |r.keys|
    {
      PrefixAt(r.keys, r2.keys, r2.ids[k]);
    }
  }

  /** A prefix agrees with the longer list at its positions. */
  lemma PrefixAt<K>(a: seq<K>, b: seq<K>, j: int)
    requires a <= b
    ensures 0 <= j < |a| ==> a[j] == b[j]
  {
  }

  /** Dense first-seen numbering: among keys that were not registered
      before, one seen earlier gets the smaller id. */
  lemma {:induction false} InternAllFirstSeenOrder<K>(r: Registry<K>, ks: seq<K>, x: K, i: int, y: K, j: int)
    requires Valid(r)
    requires x !in r.keys && y !in r.keys
    requires FirstAt(ks, x, i) && FirstAt(ks, y, j)
    ensures x in InternAll(r, ks).ids && y in InternAll(r, ks).ids
    ensures InternAll(r, ks).ids[x] < InternAll(r, ks).ids[y] <==> i < j
  {
    var n := |ks| - 1;
    var ks' := ks[..n];
    var prev := InternAll(r, ks');
    InternAllExtends(r, ks');
    InternAllExtends(r, ks);
    if i < n && j < n {
      assert FirstAt(ks', x, i) && FirstAt(ks', y, j);
      InternAllFirstSeenOrder(r, ks', x, i, y, j);
    } else if i == n && j == n {
    } else if i == n {
      assert x !in ks' && y in ks';
      assert x !in prev.keys;
      assert prev.ids[y] < |prev.keys|;
    } else {
      assert y !in ks' && x in ks';
      assert y !in prev.keys;
      assert prev.ids[x] < |prev.keys|;
    }
  }

  /** Guava's HashBiMap with caller-chosen values (condIds: condition name to
      header offset) and its inverse view. */
  datatype BiMap<K(==), V(==)> = BiMap(fwd: map<K, V>, inv: map<V, K>)

  predicate BiValid<K(==), V(==)>(b: BiMap<K, V>) {
    (forall k :: k in b.fwd ==> b.fwd[k] in b.inv && b.inv[b.fwd[k]] == k)
    && (forall v :: v in b.inv ==> b.inv[v] in b.fwd && b.fwd[b.inv[v]] == v)
  }

  function BiEmpty<K(==), V(==)>(): (b: BiMap<K, V>)
    ensures BiValid(b)
  {
    BiMap(map[], map[])
  }

  /** BiMap.put: rebinding a key is allowed, but a value already bound to a
      different key raises IllegalArgumentException. */
  function BiPut<K(==), V(==)>(b: BiMap<K, V>, k: K, v: V): (r: Result<BiMap<K, V>>)
    requires BiValid(b)
    ensures r.Ok? <==> !(v in b.inv && b.inv[v] != k)
    ensures r.Ok? ==> BiValid(r.value) && r.value.fwd == b.fwd[k := v]
    ensures r.Ok? ==> r.value.inv.Keys <= b.inv.Keys + {v}
  {
    if v in b.inv && b.inv[v] != k then Err("IllegalArgumentException: value already present")
    else if k in b.fwd then Ok(BiMap(b.fwd[k := v], (b.inv - {b.fwd[k]})[v := k]))
    else Ok(BiMap(b.fwd[k := v], b.inv[v := k]))
  }
}
