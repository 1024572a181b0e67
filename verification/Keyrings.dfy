/** Keyrings (pkg/keyring/keyring.go): keys grouped by type, merged, stored and restored.

    A keyring is built once and never changed, so it is a value; its construction loops
    are methods. Go ranges over a map in any order, so the loops over the type map pick
    the next type arbitrarily. */
module Keyrings {
  import opened Ecdh

  datatype KeyType = SharedKeysType | PkpKeyType

  datatype Key = Shared(keys: SharedKeys) | Pkp(pins: seq<nat>)

  datatype Keyring = Keyring(keys: map<KeyType, seq<Key>>)

  /** The stored form: one list per key type, an absent list being empty. */
  datatype CompleteKeyring = CompleteKeyring(sharedKeys: seq<Key>, pkpKeys: seq<Key>)

  function TypeOf(k: Key): KeyType {
    if k.Shared? then SharedKeysType else PkpKeyType
  }

  /** The keys of one type, in order. */
  function OfType(kr: Keyring, t: KeyType): seq<Key> {
    if t in kr.keys then kr.keys[t] else []
  }

  /** Every type present has keys, all of that type. */
  ghost predicate WellFormed(kr: Keyring) {
    forall t :: t in kr.keys ==> kr.keys[t] != [] && forall k :: k in kr.keys[t] ==> TypeOf(k) == t
  }

  /** The keys of type `t` in `keys`, in order. */
  function Only(keys: seq<Key>, t: KeyType): seq<Key> {
    if keys == [] then []
    else
      var n := |keys| - 1;
      Only(keys[..n], t) + (if TypeOf(keys[n]) == t then [keys[n]] else [])
  }

  /** `kr` groups exactly the keys of `keys`, each type's keys in their order there. */
  ghost predicate Groups(kr: Keyring, keys: seq<Key>) {
    WellFormed(kr) && forall t :: OfType(kr, t) == Only(keys, t)
  }

  /** Grouping is determined by the per-type sequences. */
  lemma KeyringExtensional(a: Keyring, b: Keyring)
    requires WellFormed(a) && WellFormed(b) && forall t :: OfType(a, t) == OfType(b, t)
    ensures a == b
  {
    forall t ensures t in a.keys <==> t in b.keys {
      assert OfType(a, t) == OfType(b, t);
    }
    forall t | t in a.keys ensures a.keys[t] == b.keys[t] {
      assert OfType(a, t) == OfType(b, t);
    }
    assert a.keys == b.keys;
  }

  lemma {:induction false} OnlyConcat(a: seq<Key>, b: seq<Key>, t: KeyType)
    ensures Only(a + b, t) == Only(a, t) + Only(b, t)
  {
    if b == [] {
      assert a + b == a;
    } else {
      var n := |b| - 1;
      assert (a + b)[..|a| + n] == a + b[..n];
      assert (a + b)[|a| + n] == b[n];
      OnlyConcat(a, b[..n], t);
    }
  }

  lemma {:induction false} OnlyOfOneType(keys: seq<Key>, t: KeyType, u: KeyType)
    requires forall k :: k in keys ==> TypeOf(k) == u
    ensures Only(keys, t) == if t == u then keys else []
  {
    if keys != [] {
      var n := |keys| - 1;
      assert keys == keys[..n] + [keys[n]];
      OnlyOfOneType(keys[..n], t, u);
    }
  }

  method New(keys: seq<Key>) returns (kr: Keyring)
    ensures Groups(kr, keys)
  {
    var m: map<KeyType, seq<Key>> := map[];
    for i := 0 to |keys|
      invariant Groups(Keyring(m), keys[..i])
    {
      var t := TypeOf(keys[i]);
      ghost var before := Keyring(m);
      m := m[t := (if t in m then m[t] else []) + [keys[i]]];
      assert keys[..i + 1][..i] == keys[..i];
      forall u ensures OfType(Keyring(m), u) == Only(keys[..i + 1], u) {
        assert OfType(before, u) == Only(keys[..i], u);
      }
    }
    assert keys[..|keys|] == keys;
    kr := Keyring(m);
  }

  /** All keys of a ring, type by type in whatever order the type map is iterated. */
  method ForEach(kr: Keyring) returns (visited: seq<Key>)
    requires WellFormed(kr)
    ensures forall t :: Only(visited, t) == OfType(kr, t)
  {
    visited := [];
    var remaining := kr.keys.Keys;
    while remaining != {}
      invariant remaining <= kr.keys.Keys
      invariant forall t :: Only(visited, t) == if t in remaining then [] else OfType(kr, t)
      decreases remaining
    {
      var u :| u in remaining;
      forall t ensures Only(visited + kr.keys[u], t) == if t in remaining - {u} then [] else OfType(kr, t) {
        OnlyConcat(visited, kr.keys[u], t);
        OnlyOfOneType(kr.keys[u], t, u);
      }
      visited := visited + kr.keys[u];
      remaining := remaining - {u};
    }
  }

  /** For each type the receiver's keys, then the argument's. */
  ghost predicate IsMerge(merged: Keyring, a: Keyring, b: Keyring) {
    WellFormed(merged) && forall t :: OfType(merged, t) == OfType(a, t) + OfType(b, t)
  }

  method Merge(kr: Keyring, other: Keyring) returns (merged: Keyring)
    requires WellFormed(kr) && WellFormed(other)
    ensures IsMerge(merged, kr, other)
  {
    var first := ForEach(kr);
    var second := ForEach(other);
    merged := New(first + second);
    forall t ensures OfType(merged, t) == OfType(kr, t) + OfType(other, t) {
      OnlyConcat(first, second, t);
    }
  }

  /** What merging computes: the one keyring that is a merge of the two. */
  function Merged(a: Keyring, b: Keyring): (r: Keyring)
    requires WellFormed(a) && WellFormed(b)
    ensures IsMerge(r, a, b)
  {
    Keyring(map t | t in a.keys.Keys + b.keys.Keys :: OfType(a, t) + OfType(b, t))
  }

  /** Any two merges of the same rings are equal, so iteration order is invisible. */
  lemma MergeIsUnique(m: Keyring, m': Keyring, a: Keyring, b: Keyring)
    requires IsMerge(m, a, b) && IsMerge(m', a, b)
    ensures m == m'
  {
    forall t ensures OfType(m, t) == OfType(m', t) {
      assert OfType(m, t) == OfType(a, t) + OfType(b, t);
    }
    KeyringExtensional(m, m');
  }

  /** Copies each list of the ring into its field of the stored form, one key at a time. */
  method Marshal(kr: Keyring) returns (data: CompleteKeyring)
    ensures data == Stored(kr)
  {
    data := CompleteKeyring([], []);
    if SharedKeysType in kr.keys {
      var f := kr.keys[SharedKeysType];
      for j := 0 to |f|
        invariant data == CompleteKeyring(f[..j], [])
      {
        data := data.(sharedKeys := data.sharedKeys + [f[j]]);
      }
      assert f[..|f|] == f;
    }
    if PkpKeyType in kr.keys {
      var f := kr.keys[PkpKeyType];
      for j := 0 to |f|
        invariant data == CompleteKeyring(OfType(kr, SharedKeysType), f[..j])
      {
        data := data.(pkpKeys := data.pkpKeys + [f[j]]);
      }
      assert f[..|f|] == f;
    }
  }

  function Stored(kr: Keyring): CompleteKeyring {
    CompleteKeyring(OfType(kr, SharedKeysType), OfType(kr, PkpKeyType))
  }

  /** Stored data whose lists hold keys of their own type; what JSON decoding can produce. */
  ghost predicate Typed(data: CompleteKeyring) {
    && (forall k :: k in data.sharedKeys ==> TypeOf(k) == SharedKeysType)
    && (forall k :: k in data.pkpKeys ==> TypeOf(k) == PkpKeyType)
  }

  /** The keyring grouping both lists is the restored one. */
  lemma RestoredGroups(kr: Keyring, data: CompleteKeyring)
    requires Typed(data) && Groups(kr, data.sharedKeys + data.pkpKeys)
    ensures kr == Restored(data)
  {
    forall t ensures OfType(kr, t) == OfType(Restored(data), t) {
      OnlyConcat(data.sharedKeys, data.pkpKeys, t);
      OnlyOfOneType(data.sharedKeys, t, SharedKeysType);
      OnlyOfOneType(data.pkpKeys, t, PkpKeyType);
      RestoredLists(data, t);
    }
    KeyringExtensional(kr, Restored(data));
  }

  method Unmarshal(data: CompleteKeyring) returns (kr: Keyring)
    requires Typed(data)
    ensures kr == Restored(data)
  {
    var values := [];
    for j := 0 to |data.sharedKeys|
      invariant values == data.sharedKeys[..j]
    {
      values := values + [data.sharedKeys[j]];
    }
    assert values == data.sharedKeys;
    for j := 0 to |data.pkpKeys|
      invariant values == data.sharedKeys + data.pkpKeys[..j]
    {
      values := values + [data.pkpKeys[j]];
    }
    assert data.pkpKeys[..|data.pkpKeys|] == data.pkpKeys;
    kr := New(values);
    RestoredGroups(kr, data);
  }

  function Restored(data: CompleteKeyring): (kr: Keyring)
    ensures Typed(data) ==> WellFormed(kr)
  {
    Keyring(map t | t in {SharedKeysType, PkpKeyType} && ListOf(data, t) != [] :: ListOf(data, t))
  }

  function ListOf(data: CompleteKeyring, t: KeyType): seq<Key> {
    if t == SharedKeysType then data.sharedKeys else data.pkpKeys
  }

  lemma RestoredLists(data: CompleteKeyring, t: KeyType)
    ensures OfType(Restored(data), t) == ListOf(data, t)
  {
    assert t in {SharedKeysType, PkpKeyType};
  }

  /** Storing and restoring are inverse to each other. */
  lemma StoreRoundTrip(kr: Keyring, data: CompleteKeyring)
    requires WellFormed(kr) && Typed(data)
    ensures Typed(Stored(kr)) && Restored(Stored(kr)) == kr
    ensures Stored(Restored(data)) == data
  {
    forall t ensures OfType(Restored(Stored(kr)), t) == OfType(kr, t) {
      RestoredLists(Stored(kr), t);
    }
    KeyringExtensional(Restored(Stored(kr)), kr);
    RestoredLists(data, SharedKeysType);
    RestoredLists(data, PkpKeyType);
  }

  /** A merge taken through the store holds exactly the keys of both rings, multiplicities included. */
  lemma MergeThroughStoreConserves(a: Keyring, b: CompleteKeyring, t: KeyType)
    requires WellFormed(a) && Typed(b)
    ensures var kept := Restored(Stored(Merged(a, Restored(b))));
            && OfType(kept, t) == OfType(a, t) + ListOf(b, t)
            && multiset(OfType(kept, t)) == multiset(OfType(a, t)) + multiset(ListOf(b, t))
  {
    var m := Merged(a, Restored(b));
    StoreRoundTrip(m, b);
    RestoredLists(b, t);
    assert OfType(m, t) == OfType(a, t) + OfType(Restored(b), t);
  }
}
