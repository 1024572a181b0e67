/** MACs (pkg/b2mac/mac.go) and the cluster authentication middleware (pkg/auth/cluster/cluster.go).

    The keyed hash is a parameter: results hold for every function of a key and a message.
    A Go string is a byte string; `FromBytes` is that view. */
module ClusterAuth {
  import opened Core
  import opened Encodings
  import opened AuthHeader
  import opened Ecdh
  import opened Keyrings
  import Paths

  type Prf = (Term, seq<byte>) -> seq<byte>

  function FromBytes(b: seq<byte>): (s: string)
    ensures |s| == |b|
  {
    seq(|b|, i requires 0 <= i < |b| => b[i] as char)
  }

  predicate IsByteString(s: string) { forall c :: c in s ==> c < 256 as char }

  function ToBytes(s: string): (b: seq<byte>)
    requires IsByteString(s)
    ensures |b| == |s| && FromBytes(b) == s
  {
    if s == "" then []
    else
      assert s[0] in s && forall c :: c in s[1..] ==> c in s;
      var b: seq<byte> := [s[0] as byte] + ToBytes(s[1..]);
      assert FromBytes(b) == [s[0]] + FromBytes(b[1..]);
      b
  }

  /** The message a MAC covers: id, nonce and payload, written one after the other. */
  function Covered(id: seq<byte>, nonce: Uuid, payload: seq<byte>): seq<byte> { id + nonce + payload }

  method New512(id: seq<byte>, nonce: Uuid, payload: seq<byte>, key: Term, prf: Prf) returns (mac: seq<byte>)
    ensures mac == prf(key, id + nonce + payload)
  {
    var written := id;
    written := written + nonce;
    written := written + payload;
    mac := prf(key, written);
  }

  method Verify(mac: seq<byte>, id: seq<byte>, nonce: Uuid, payload: seq<byte>, key: Term, prf: Prf) returns (ok: bool)
    ensures ok <==> mac == prf(key, id + nonce + payload)
  {
    var written := id;
    written := written + nonce;
    written := written + payload;
    ok := prf(key, written) == mac;
  }

  predicate Verifies(mac: seq<byte>, id: seq<byte>, nonce: Uuid, payload: seq<byte>, key: Term, prf: Prf) {
    prf(key, Covered(id, nonce, payload)) == mac
  }

  datatype Outcome =
    | Refused(status: int)
    | Next(clusterId: string, sharedKeys: SharedKeys)

  type KeyringStore = map<string, CompleteKeyring>

  ghost predicate StoreTyped(store: KeyringStore) {
    forall id :: id in store ==> Typed(store[id])
  }

  const KEYRINGS := ["gateway", "keyrings"]

  /** What the gateway finds when it reads a key as a keyring: the rings of the clusters, each under its
      id, and whatever the store holds under keys that are not of that form. */
  datatype Keyspace = Keyspace(rings: KeyringStore, other: map<seq<string>, CompleteKeyring>)

  ghost predicate SpaceTyped(ks: Keyspace) {
    StoreTyped(ks.rings) && forall key :: key in ks.other ==> Typed(ks.other[key])
  }

  /** The ring found for an id: the id is joined to the prefix, and the path is cleaned. */
  function RingOf(ks: Keyspace, id: string): Option<CompleteKeyring> {
    var key := Paths.KeyOf(KEYRINGS, id);
    if |key| == |KEYRINGS| + 1 && key[..|KEYRINGS|] == KEYRINGS then
      if key[|KEYRINGS|] in ks.rings then Some(ks.rings[key[|KEYRINGS|]]) else None
    else if key in ks.other then Some(ks.other[key]) else None
  }

  /** An id that is one path segment finds its own ring. */
  lemma PlainRing(ks: Keyspace, id: string)
    requires Paths.Plain(id)
    ensures RingOf(ks, id) == if id in ks.rings then Some(ks.rings[id]) else None
  {
    Paths.PlainKey(KEYRINGS, id);
    assert (KEYRINGS + [id])[..|KEYRINGS|] == KEYRINGS;
  }

  /** An id with a detour in it finds the ring of the id it ends in. */
  lemma DetourRing(ks: Keyspace, x: string, id: string)
    requires Paths.Plain(x) && Paths.Plain(id)
    ensures RingOf(ks, x + "/../" + id) == RingOf(ks, id)
  {
    Paths.DetourKey(KEYRINGS, x, id);
  }

  /** The positions of the ring whose client key verifies the MAC. */
  predicate VerifiesAt(ring: seq<Key>, i: nat, mac: seq<byte>, id: seq<byte>, nonce: Uuid, body: seq<byte>, prf: Prf) {
    i < |ring| && ring[i].Shared? && Verifies(mac, id, nonce, body, ring[i].keys.clientKey, prf)
  }

  /** The request is let through for `clusterId`: its header carries credentials for that id, and
      some shared key of the ring found for the id verifies their MAC over the body. */
  ghost predicate Admits(ks: Keyspace, header: string, body: seq<byte>, prf: Prf, clusterId: string) {
    exists id, nonce, mac, i: nat ::
      && Denotes(header, id, nonce, mac) && FromBytes(id) == clusterId && RingOf(ks, clusterId).Some?
      && VerifiesAt(RingOf(ks, clusterId).value.sharedKeys, i, mac, id, nonce, body, prf)
  }

  /** Of the stored keys that verify the request, `keys` is the last. */
  ghost predicate LastVerifying(ks: Keyspace, header: string, body: seq<byte>, prf: Prf,
                                clusterId: string, keys: SharedKeys)
  {
    exists id, nonce, mac, i: nat ::
      && Denotes(header, id, nonce, mac) && FromBytes(id) == clusterId && RingOf(ks, clusterId).Some?
      && var ring := RingOf(ks, clusterId).value.sharedKeys;
      && VerifiesAt(ring, i, mac, id, nonce, body, prf) && ring[i] == Shared(keys)
      && forall j: nat :: i < j ==> !VerifiesAt(ring, j, mac, id, nonce, body, prf)
  }

  /** With the header's credentials known, admission is a question about one ring. */
  lemma AdmitsDecoded(ks: Keyspace, header: string, body: seq<byte>, prf: Prf,
                      id: seq<byte>, nonce: Uuid, mac: seq<byte>, c: string)
    requires Denotes(header, id, nonce, mac)
    ensures Admits(ks, header, body, prf, c) <==>
              && c == FromBytes(id) && RingOf(ks, c).Some?
              && exists i: nat :: VerifiesAt(RingOf(ks, c).value.sharedKeys, i, mac, id, nonce, body, prf)
  {
    if Admits(ks, header, body, prf, c) {
      var id', nonce', mac', i: nat :|
        && Denotes(header, id', nonce', mac') && FromBytes(id') == c && RingOf(ks, c).Some?
        && VerifiesAt(RingOf(ks, c).value.sharedKeys, i, mac', id', nonce', body, prf);
      CarriedOnce(ParseFields(Pairs(header)), id, nonce, mac, id', nonce', mac');
    }
  }

  /** Tries every key of the ring in turn; a later success replaces an earlier one. */
  method Try(keys: seq<Key>, mac: seq<byte>, id: seq<byte>, nonce: Uuid, body: seq<byte>, prf: Prf)
    returns (authorized: bool, sharedKeys: SharedKeys)
    requires forall k :: k in keys ==> k.Shared?
    ensures authorized <==> exists i: nat :: VerifiesAt(keys, i, mac, id, nonce, body, prf)
    ensures authorized ==>
              exists i: nat :: && VerifiesAt(keys, i, mac, id, nonce, body, prf) && keys[i] == Shared(sharedKeys)
                               && forall j: nat :: i < j ==> !VerifiesAt(keys, j, mac, id, nonce, body, prf)
  {
    authorized, sharedKeys := false, SharedKeys(BadPoint, BadPoint);
    ghost var last := 0;
    for i := 0 to |keys|
      invariant authorized ==> last < i && VerifiesAt(keys, last, mac, id, nonce, body, prf)
      invariant authorized ==> keys[last] == Shared(sharedKeys)
      invariant forall j: nat :: j < i && (authorized ==> last < j) ==>
                  !VerifiesAt(keys, j, mac, id, nonce, body, prf)
    {
      assert keys[i] in keys;
      var ok := Verify(mac, id, nonce, body, keys[i].keys.clientKey, prf);
      if ok {
        authorized, sharedKeys, last := true, keys[i].keys, i;
      }
    }
  }

  /** `lookupFails` says that the keyring store cannot be opened or read. */
  method Handle(ks: Keyspace, lookupFails: bool, header: string, body: seq<byte>, prf: Prf) returns (r: Outcome)
    requires SpaceTyped(ks)
    ensures forall c :: !lookupFails && Admits(ks, header, body, prf, c) <==> r.Next? && r.clusterId == c
    ensures r.Next? ==> LastVerifying(ks, header, body, prf, r.clusterId, r.sharedKeys)
    ensures r.Refused? && r.status == 400 <==> forall id, nonce, mac :: !Denotes(header, id, nonce, mac)
    ensures r.Refused? && r.status == 500 <==>
              !lookupFails &&
              exists id, nonce, mac :: && Denotes(header, id, nonce, mac)
                                       && RingOf(ks, FromBytes(id)).Some?
                                       && RingOf(ks, FromBytes(id)).value.sharedKeys == []
    ensures r.Refused? ==> r.status in {400, 401, 500}
  {
    if header == "" {
      return Refused(400);
    }
    var d := DecodeAuthHeader(header);
    if d.DecodeFailed? {
      return Refused(400);
    }
    var clusterId, nonce, mac := d.id, d.nonce, d.mac;
    var name := FromBytes(clusterId);
    var ring := RingOf(ks, name);
    forall c ensures Admits(ks, header, body, prf, c) <==>
                       && c == name && ring.Some?
                       && exists i: nat :: VerifiesAt(ring.value.sharedKeys, i, mac, clusterId, nonce, body, prf)
    {
      AdmitsDecoded(ks, header, body, prf, clusterId, nonce, mac, c);
    }
    if lookupFails || ring.None? {
      return Refused(401);
    }
    var kr := Unmarshal(ring.value);
    RestoredLists(ring.value, SharedKeysType);
    if SharedKeysType !in kr.keys {
      return Refused(500);
    }
    var authorized, sharedKeys := Try(kr.keys[SharedKeysType], mac, clusterId, nonce, body, prf);
    if !authorized {
      return Refused(401);
    }
    return Next(name, sharedKeys);
  }
}
