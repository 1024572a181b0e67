/** What whole serial runs of bootstrap requests, token and cluster management keep, and the
    guarantee that an agent which bootstrapped can authenticate. */
module BootstrapRuns {
  import opened Core
  import opened Validation
  import opened Encodings
  import opened AuthHeader
  import opened Ecdh
  import opened Keyrings
  import opened ClusterAuth
  import opened Bootstrap

  /** Everything that changes the stores; a token's expiry is a deletion. */
  datatype Event =
    | CreateTokenEvent(token: BootstrapToken)
    | DeleteTokenEvent(tokenId: string)
    | EditLabelsEvent(clusterId: string, labels: Labels)
    | DeleteClusterEvent(clusterId: string)
    | AuthEvent(req: AuthRequest, env: Env)

  function Next(s: Stores, cert: nat, e: Event): Stores {
    match e
    case CreateTokenEvent(t) => s.(tokens := s.tokens[t.tokenId := t])
    case DeleteTokenEvent(id) => s.(tokens := s.tokens - {id})
    case EditLabelsEvent(id, labels) =>
      if id in s.clusters then s.(clusters := s.clusters[id := s.clusters[id].(labels := labels)]) else s
    case DeleteClusterEvent(id) => s.(clusters := s.clusters - {id})
    case AuthEvent(req, env) => Auth(s, cert, req, env).0
  }

  function Run(s: Stores, cert: nat, es: seq<Event>): Stores {
    if es == [] then s else Next(Run(s, cert, es[..|es| - 1]), cert, es[|es| - 1])
  }

  /** Editing the labels of a stored cluster replaces them and changes nothing else. */
  lemma EditLabelsEffect(s: Stores, cert: nat, id: string, labels: Labels)
    ensures var s' := Next(s, cert, EditLabelsEvent(id, labels));
            && s' == s.(clusters := s'.clusters) && s'.clusters.Keys == s.clusters.Keys
            && (forall c :: c in s.clusters && c != id ==> s'.clusters[c] == s.clusters[c])
            && (id in s.clusters ==>
                  && s'.clusters[id].labels == labels && s'.clusters[id].id == s.clusters[id].id
                  && s'.clusters[id].capabilities == s.clusters[id].capabilities)
  {
  }

  /** Tokens and clusters come and go alone; deleting a cluster leaves its keyring. */
  lemma ManagementEffect(s: Stores, cert: nat, t: BootstrapToken, id: string)
    ensures var created := Next(s, cert, CreateTokenEvent(t));
            && created == s.(tokens := created.tokens) && t.tokenId in created.tokens && created.tokens[t.tokenId] == t
            && created.tokens - {t.tokenId} == s.tokens - {t.tokenId}
    ensures var deleted := Next(s, cert, DeleteTokenEvent(id));
            deleted == s.(tokens := deleted.tokens) && deleted.tokens == s.tokens - {id}
    ensures var deleted := Next(s, cert, DeleteClusterEvent(id));
            deleted == s.(clusters := deleted.clusters) && deleted.clusters == s.clusters - {id}
  {
    var created := Next(s, cert, CreateTokenEvent(t));
    assert created.tokens - {t.tokenId} == s.tokens - {t.tokenId};
  }

  // ---------------------------------------------------------------- single requests

  /** Every answer other than 200 and 500 leaves all stores as they were. */
  lemma RefusedLeavesStores(s: Stores, cert: nat, req: AuthRequest, env: Env)
    ensures var (s', r) := Auth(s, cert, req, env);
            r.status !in {200, 500} ==> s' == s && r.status in {400, 401, 404, 409, 503}
  {
  }

  /** A request is answered 200 exactly when the server signed its token, the token is stored, the
      body is valid, the cluster is new or lacks the capability and may be joined by the token, the
      keys agree, the capability installs, and no store call on the way fails. */
  lemma AnsweredOkIff(s: Stores, cert: nat, req: AuthRequest, env: Env)
    ensures Auth(s, cert, req, env).1.status == 200 <==>
              && req.authorization.Jws? && req.authorization.signer == cert
              && req.authorization.tokenId in s.tokens
              && req.body.Some? && ValidBody(req.body.value)
              && var b, t := req.body.value, s.tokens[req.authorization.tokenId];
              && ServerSide(env.ephemeral, b.clientPubKey.value).Some? && env.install.Installable?
              && env.failing !! {GetToken, GetCluster, UpdateToken, OpenKeyring, PutKeyring}
              && (b.clientId in s.clusters ==>
                    && !HasClusterCapability(s.clusters[b.clientId].capabilities, ClusterCapability(b.capability))
                    && HasTokenCapability(t.capabilities, JoinFor(b.clientId))
                    && env.failing !! {UpdateCluster, GetKeyring} && b.clientId in s.keyrings)
              && (b.clientId !in s.clusters ==> CreateCluster !in env.failing)
  {
    var calls := {GetToken, GetCluster, UpdateToken, OpenKeyring, PutKeyring};
    assert env.failing !! calls <==> forall c :: c in calls ==> c !in env.failing;
    assert env.failing !! {UpdateCluster, GetKeyring} <==> UpdateCluster !in env.failing && GetKeyring !in env.failing;
  }

  /** The whole effect of a 200: the token is used once more and, for a new cluster, granted the
      right to join it; the cluster is created with the token's labels or gains the capability at
      the end of its list; its keyring is new or gains the keys in front; nothing else changes. */
  lemma OkEffect(s: Stores, cert: nat, req: AuthRequest, env: Env)
    requires Auth(s, cert, req, env).1.status == 200
    ensures var s' := Auth(s, cert, req, env).0;
            var b, tid := req.body.value, req.authorization.tokenId;
            var c, t := b.clientId, s.tokens[tid];
            var isNew := c !in s.clusters;
            && Auth(s, cert, req, env).1.serverPubKey == Some(Pub(env.ephemeral))
            && s'.tokens - {tid} == s.tokens - {tid} && s'.clusters - {c} == s.clusters - {c}
            && s'.keyrings - {c} == s.keyrings - {c} && s'.installed == s.installed + [(c, b.capability)]
            && tid in s'.tokens && c in s'.clusters && c in s'.keyrings
            && var t' := s'.tokens[tid];
            && t'.usageCount == t.usageCount + 1
            && t' == t.(usageCount := t'.usageCount, capabilities := t'.capabilities)
            && t.capabilities <= t'.capabilities
            && (forall k :: k in t'.capabilities[|t.capabilities|..] ==> k == JoinFor(c))
            && HasTokenCapability(t'.capabilities, JoinFor(c))
            && var keys := NewSharedKeys(ServerSide(env.ephemeral, b.clientPubKey.value).value);
            && s'.clusters[c] == Cluster(
                 if isNew then c else s.clusters[c].id,
                 if isNew then t.labels else s.clusters[c].labels,
                 (if isNew then [] else s.clusters[c].capabilities) + [ClusterCapability(b.capability)])
            && s'.keyrings[c].sharedKeys == [Shared(keys)] + (if isNew then [] else s.keyrings[c].sharedKeys)
            && s'.keyrings[c].pkpKeys == (if isNew then [] else s.keyrings[c].pkpKeys)
  {
    AnsweredOkIff(s, cert, req, env);
    var s' := Auth(s, cert, req, env).0;
    var b, tid := req.body.value, req.authorization.tokenId;
    assert s'.tokens - {tid} == s.tokens - {tid};
    assert s'.clusters - {b.clientId} == s.clusters - {b.clientId};
    assert s'.keyrings - {b.clientId} == s.keyrings - {b.clientId};
    JoinGranted(s.tokens[tid].capabilities, b.clientId);
  }

  lemma JoinGranted(caps: seq<TokenCapability>, c: string)
    requires c != ""
    ensures HasTokenCapability(WithTokenCapability(caps, JoinFor(c)), JoinFor(c))
  {
    if !HasTokenCapability(caps, JoinFor(c)) {
      assert TokenCapabilityEqual((caps + [JoinFor(c)])[|caps|], JoinFor(c));
    }
  }

  // ---------------------------------------------------------------- keys survive

  /** Some key set stored for the cluster has this client key. */
  ghost predicate HasClientKey(store: KeyringStore, c: string, key: Term) {
    c in store && exists i :: 0 <= i < |store[c].sharedKeys|
                              && store[c].sharedKeys[i].Shared? && store[c].sharedKeys[i].keys.clientKey == key
  }

  /** The event creates cluster `c` and is answered 200: the one case in which its keyring is replaced. */
  predicate Recreates(s: Stores, cert: nat, e: Event, c: string) {
    && e.AuthEvent? && c !in s.clusters
    && Auth(s, cert, e.req, e.env).1.status == 200 && e.req.body.value.clientId == c
  }

  /** The client key an agent derives from its private key and the server's answer. */
  function AgentKey(clientPriv: nat, serverPub: Term): Term
    requires serverPub.Pub?
  {
    NewSharedKeys(ClientSide(clientPriv, serverPub).value).clientKey
  }

  /** After a 200 the agent's derived client key is in the cluster's stored keyring. */
  lemma AgentKeyStored(s: Stores, cert: nat, req: AuthRequest, env: Env, clientPriv: nat)
    requires Auth(s, cert, req, env).1.status == 200
    requires req.body.value.clientPubKey == Some(Pub(clientPriv))
    ensures var s' := Auth(s, cert, req, env).0;
            HasClientKey(s'.keyrings, req.body.value.clientId, AgentKey(clientPriv, Pub(env.ephemeral)))
  {
    OkEffect(s, cert, req, env);
    SecretsAgree(clientPriv, env.ephemeral);
    var ring := Auth(s, cert, req, env).0.keyrings[req.body.value.clientId].sharedKeys;
    assert ring[0].Shared? && ring[0].keys.clientKey == AgentKey(clientPriv, Pub(env.ephemeral));
  }

  /** Only a 200 touches the keyrings, and then only the ring of the named cluster. */
  lemma KeyringEffect(s: Stores, cert: nat, req: AuthRequest, env: Env)
    ensures var (s', r) := Auth(s, cert, req, env);
            if r.status != 200 then s'.keyrings == s.keyrings
            else
              && req.body.Some? && req.body.value.clientPubKey.Some?
              && ServerSide(env.ephemeral, req.body.value.clientPubKey.value).Some?
              && var c := req.body.value.clientId;
              && var keys := NewSharedKeys(ServerSide(env.ephemeral, req.body.value.clientPubKey.value).value);
              && (c in s.clusters ==> c in s.keyrings)
              && var ring := if c in s.clusters then ExtendedRing(keys, s.keyrings[c]) else NewRing(keys);
              && s'.keyrings == s.keyrings[c := ring]
  {
  }

  /** Putting a key set in front of a ring adds its client key and keeps the others. */
  lemma KeyInFront(store: KeyringStore, c: string, keys: SharedKeys, key: Term)
    requires c in store
    ensures HasClientKey(store[c := ExtendedRing(keys, store[c])], c, key) <==>
            keys.clientKey == key || HasClientKey(store, c, key)
  {
    var store' := store[c := ExtendedRing(keys, store[c])];
    var ring, ring' := store[c].sharedKeys, store'[c].sharedKeys;
    assert ring' == [Shared(keys)] + ring;
    if keys.clientKey == key {
      assert ring'[0] == Shared(keys);
    } else if HasClientKey(store, c, key) {
      var i :| 0 <= i < |ring| && ring[i].Shared? && ring[i].keys.clientKey == key;
      assert ring'[i + 1] == ring[i];
    }
  }

  /** The event is a request for cluster `c` that is answered 200 and derives these two parties' keys. */
  predicate Derives(s: Stores, cert: nat, e: Event, c: string, clientPriv: nat, serverPriv: nat) {
    && e.AuthEvent? && Auth(s, cert, e.req, e.env).1.status == 200 && e.req.body.value.clientId == c
    && e.env.ephemeral == serverPriv && e.req.body.value.clientPubKey == Some(Pub(clientPriv))
  }

  /** A stored key survives every event that is not a re-creation, whatever else happens. */
  lemma KeySurvivesStep(s: Stores, cert: nat, e: Event, c: string, key: Term)
    requires HasClientKey(s.keyrings, c, key) && !Recreates(s, cert, e, c)
    ensures HasClientKey(Next(s, cert, e).keyrings, c, key)
  {
    if e.AuthEvent? {
      KeyringEffect(s, cert, e.req, e.env);
      if Auth(s, cert, e.req, e.env).1.status == 200 {
        var b := e.req.body.value;
        var keys := NewSharedKeys(ServerSide(e.env.ephemeral, b.clientPubKey.value).value);
        if b.clientId == c {
          KeyInFront(s.keyrings, c, keys, key);
        }
      }
    }
  }

  /** An event leaves a key stored if and only if it derives that key, or the key was stored and the
      event does not re-create the cluster. */
  lemma KeyStep(s: Stores, cert: nat, e: Event, c: string, clientPriv: nat, serverPriv: nat)
    ensures var key := AgentKey(clientPriv, Pub(serverPriv));
            HasClientKey(Next(s, cert, e).keyrings, c, key) <==>
            || Derives(s, cert, e, c, clientPriv, serverPriv)
            || (HasClientKey(s.keyrings, c, key) && !Recreates(s, cert, e, c))
  {
    if e.AuthEvent? {
      KeyringEffect(s, cert, e.req, e.env);
      if Auth(s, cert, e.req, e.env).1.status == 200 && e.req.body.value.clientId == c {
        KeyOfRequest(s, e.env.ephemeral, e.req.body.value, c, clientPriv, serverPriv);
      }
    }
  }

  lemma KeyOfRequest(s: Stores, ephemeral: nat, b: AuthBody, c: string, clientPriv: nat, serverPriv: nat)
    requires b.clientPubKey.Some? && ServerSide(ephemeral, b.clientPubKey.value).Some?
    ensures var key := AgentKey(clientPriv, Pub(serverPriv));
            var keys := NewSharedKeys(ServerSide(ephemeral, b.clientPubKey.value).value);
            var derived := ephemeral == serverPriv && b.clientPubKey == Some(Pub(clientPriv));
            && (HasClientKey(s.keyrings[c := NewRing(keys)], c, key) <==> derived)
            && (c in s.keyrings ==>
                  (HasClientKey(s.keyrings[c := ExtendedRing(keys, s.keyrings[c])], c, key) <==>
                   derived || HasClientKey(s.keyrings, c, key)))
  {
    var key := AgentKey(clientPriv, Pub(serverPriv));
    var keys := NewSharedKeys(ServerSide(ephemeral, b.clientPubKey.value).value);
    SecretsAgree(clientPriv, serverPriv);
    ServerKeyDeterminesKeys(ephemeral, serverPriv, b.clientPubKey.value, Pub(clientPriv));
    assert NewRing(keys).sharedKeys[0] == Shared(keys);
    if c in s.keyrings {
      KeyInFront(s.keyrings, c, keys, key);
    }
  }

  ghost predicate RecreatedIn(s: Stores, cert: nat, es: seq<Event>, c: string) {
    exists i :: 0 <= i < |es| && Recreates(Run(s, cert, es[..i]), cert, es[i], c)
  }

  lemma RecreatedOneMore(s: Stores, cert: nat, es: seq<Event>, e: Event, c: string)
    ensures RecreatedIn(s, cert, es + [e], c) <==>
            RecreatedIn(s, cert, es, c) || Recreates(Run(s, cert, es), cert, e, c)
  {
    var more := es + [e];
    assert forall i :: 0 <= i < |es| ==> more[..i] == es[..i] && more[i] == es[i];
    assert more[..|es|] == es && more[|es|] == e;
  }

  /** A stored key survives every run that does not re-create the cluster. */
  lemma {:induction false} KeySurvives(s: Stores, cert: nat, es: seq<Event>, c: string, key: Term)
    requires HasClientKey(s.keyrings, c, key) && !RecreatedIn(s, cert, es, c)
    ensures HasClientKey(Run(s, cert, es).keyrings, c, key)
  {
    if es != [] {
      var n := |es| - 1;
      assert es == es[..n] + [es[n]];
      RecreatedOneMore(s, cert, es[..n], es[n], c);
      KeySurvives(s, cert, es[..n], c, key);
      KeySurvivesStep(Run(s, cert, es[..n]), cert, es[n], c, key);
    }
  }

  ghost predicate NeverReused(es: seq<Event>, serverPriv: nat) {
    forall i :: 0 <= i < |es| && es[i].AuthEvent? ==> es[i].env.ephemeral != serverPriv
  }

  /** Over any run in which the server never reuses the ephemeral key, exactly the re-creations of
      the cluster remove the key. */
  lemma {:induction false} KeyOverRun(s: Stores, cert: nat, es: seq<Event>, c: string, clientPriv: nat, serverPriv: nat)
    requires NeverReused(es, serverPriv)
    ensures HasClientKey(Run(s, cert, es).keyrings, c, AgentKey(clientPriv, Pub(serverPriv))) <==>
            HasClientKey(s.keyrings, c, AgentKey(clientPriv, Pub(serverPriv))) && !RecreatedIn(s, cert, es, c)
  {
    if es != [] {
      var n := |es| - 1;
      KeyOverRun(s, cert, es[..n], c, clientPriv, serverPriv);
      KeyStep(Run(s, cert, es[..n]), cert, es[n], c, clientPriv, serverPriv);
      assert es == es[..n] + [es[n]];
      RecreatedOneMore(s, cert, es[..n], es[n], c);
    }
  }

  // ---------------------------------------------------------------- end to end

  /** The header an agent puts on a request it signs with a key. */
  function SignedHeader(c: string, key: Term, nonce: Uuid, payload: seq<byte>, prf: Prf): string
    requires IsByteString(c) && IsV4(nonce)
  {
    EncodeAuthHeader(ToBytes(c), nonce, prf(key, Covered(ToBytes(c), nonce, payload))).text
  }

  /** Whether the gateway lets a signed request through: exactly for the id it names, and exactly when some
      client key of the ring found for that id computes the same MAC. */
  lemma SignedAdmission(ks: Keyspace, c: string, key: Term, nonce: Uuid, payload: seq<byte>, prf: Prf, c': string)
    requires c != "" && IsByteString(c) && IsV4(nonce)
    requires prf(key, Covered(ToBytes(c), nonce, payload)) != []
    ensures Admits(ks, SignedHeader(c, key, nonce, payload, prf), payload, prf, c') <==>
              && c' == c && RingOf(ks, c).Some?
              && var mac := prf(key, Covered(ToBytes(c), nonce, payload));
              && exists i: nat :: VerifiesAt(RingOf(ks, c).value.sharedKeys, i, mac, ToBytes(c), nonce, payload, prf)
  {
    var mac := prf(key, Covered(ToBytes(c), nonce, payload));
    EncodeThenDecode(ToBytes(c), nonce, mac);
    AdmitsDecoded(ks, SignedHeader(c, key, nonce, payload, prf), payload, prf, ToBytes(c), nonce, mac, c');
  }

  /** For an id that is one path segment: a stored client key admits the requests signed with it, and
      if no other key computes the same MAC, only a key stored for that very id does. */
  lemma KeyAdmission(ks: Keyspace, c: string, key: Term, nonce: Uuid, payload: seq<byte>, prf: Prf, c': string)
    requires Paths.Plain(c) && IsByteString(c) && IsV4(nonce)
    requires prf(key, Covered(ToBytes(c), nonce, payload)) != []
    ensures var admits := Admits(ks, SignedHeader(c, key, nonce, payload, prf), payload, prf, c');
            && (admits ==> c' == c)
            && (HasClientKey(ks.rings, c, key) && c' == c ==> admits)
            && (admits && NoOtherKey(c, key, nonce, payload, prf) ==> HasClientKey(ks.rings, c, key))
  {
    SignedAdmission(ks, c, key, nonce, payload, prf, c');
    PlainRing(ks, c);
    var mac := prf(key, Covered(ToBytes(c), nonce, payload));
    if HasClientKey(ks.rings, c, key) {
      var ring := ks.rings[c].sharedKeys;
      var i :| 0 <= i < |ring| && ring[i].Shared? && ring[i].keys.clientKey == key;
      assert VerifiesAt(ring, i, mac, ToBytes(c), nonce, payload, prf);
    }
  }

  /** An id that is not one path segment can find the ring of another: with a detour in front, a request
      is admitted exactly when the key is good for the id at its end, and passed on as it names itself. */
  lemma DetourAdmission(ks: Keyspace, x: string, c: string, key: Term, nonce: Uuid, payload: seq<byte>, prf: Prf,
                        c': string)
    requires Paths.Plain(x) && Paths.Plain(c) && IsByteString(x + "/../" + c) && IsV4(nonce)
    requires prf(key, Covered(ToBytes(x + "/../" + c), nonce, payload)) != []
    ensures var id := x + "/../" + c;
            var admits := Admits(ks, SignedHeader(id, key, nonce, payload, prf), payload, prf, c');
            && (admits ==> c' == id)
            && (HasClientKey(ks.rings, c, key) && c' == id ==> admits)
  {
    var id := x + "/../" + c;
    SignedAdmission(ks, id, key, nonce, payload, prf, c');
    DetourRing(ks, x, c);
    PlainRing(ks, c);
    var mac := prf(key, Covered(ToBytes(id), nonce, payload));
    if HasClientKey(ks.rings, c, key) {
      var ring := ks.rings[c].sharedKeys;
      var i :| 0 <= i < |ring| && ring[i].Shared? && ring[i].keys.clientKey == key;
      assert VerifiesAt(ring, i, mac, ToBytes(id), nonce, payload, prf);
    }
  }

  /** A valid id is one path segment. */
  lemma ValidIsPlain(id: string)
    requires ValidId(id)
    ensures Paths.Plain(id)
  {
  }

  /** No other key computes the same MAC for this message. */
  ghost predicate NoOtherKey(c: string, key: Term, nonce: Uuid, payload: seq<byte>, prf: Prf)
    requires IsByteString(c)
  {
    var message := Covered(ToBytes(c), nonce, payload);
    forall k :: prf(k, message) == prf(key, message) ==> k == key
  }

  /** Different keys or messages have different MACs. */
  ghost predicate CollisionFree(prf: Prf) {
    forall k, m, k', m' :: prf(k, m) == prf(k', m') ==> k == k' && m == m'
  }

  /** For ids of one length the covered message determines id, nonce and payload. */
  lemma CoveredParts(id: seq<byte>, nonce: Uuid, payload: seq<byte>, id': seq<byte>, nonce': Uuid, payload': seq<byte>)
    requires |id| == |id'|
    ensures Covered(id, nonce, payload) == Covered(id', nonce', payload') <==>
            id == id' && nonce == nonce' && payload == payload'
  {
    var m, m' := Covered(id, nonce, payload), Covered(id', nonce', payload');
    assert m[..|id|] == id && m[|id|..|id| + 16] == nonce && m[|id| + 16..] == payload;
    assert m'[..|id|] == id' && m'[|id|..|id| + 16] == nonce' && m'[|id| + 16..] == payload';
  }

  /** A signed header is good for the id, the nonce and the body it was signed for and for no other of
      that length: with a MAC that has no collisions, a header that carries the MAC of one message is
      admitted exactly with that message, and exactly if the signing key is in the ring found. */
  lemma MacBinds(ks: Keyspace, c: string, key: Term, nonce: Uuid, payload: seq<byte>, prf: Prf,
                 header: string, id: seq<byte>, nonce': Uuid, body: seq<byte>, c': string)
    requires IsByteString(c) && CollisionFree(prf) && |id| == |c|
    requires Denotes(header, id, nonce', prf(key, Covered(ToBytes(c), nonce, payload)))
    ensures Admits(ks, header, body, prf, c') <==>
            && id == ToBytes(c) && nonce' == nonce && body == payload && c' == c && RingOf(ks, c).Some?
            && exists i :: && 0 <= i < |RingOf(ks, c).value.sharedKeys| && RingOf(ks, c).value.sharedKeys[i].Shared?
                           && RingOf(ks, c).value.sharedKeys[i].keys.clientKey == key
  {
    var mac := prf(key, Covered(ToBytes(c), nonce, payload));
    AdmitsDecoded(ks, header, body, prf, id, nonce', mac, c');
    CoveredParts(ToBytes(c), nonce, payload, id, nonce', body);
    if c' == FromBytes(id) && RingOf(ks, c').Some? {
      OnlyOwnKey(RingOf(ks, c').value.sharedKeys, key, Covered(ToBytes(c), nonce, payload), id, nonce', body, prf);
    }
  }

  lemma OnlyOwnKey(ring: seq<Key>, key: Term, message: seq<byte>, id: seq<byte>, nonce: Uuid, body: seq<byte>, prf: Prf)
    requires CollisionFree(prf)
    ensures (exists i: nat :: VerifiesAt(ring, i, prf(key, message), id, nonce, body, prf)) <==>
            && Covered(id, nonce, body) == message
            && exists i :: 0 <= i < |ring| && ring[i].Shared? && ring[i].keys.clientKey == key
  {
    if i: nat :| VerifiesAt(ring, i, prf(key, message), id, nonce, body, prf) {
      assert prf(ring[i].keys.clientKey, Covered(id, nonce, body)) == prf(key, message);
    }
    if i :| 0 <= i < |ring| && ring[i].Shared? && ring[i].keys.clientKey == key && Covered(id, nonce, body) == message {
      assert VerifiesAt(ring, i, prf(key, message), id, nonce, body, prf);
    }
  }

  /** In particular a header signed for one body is not admitted with another. */
  lemma BodyIsCovered(ks: Keyspace, c: string, key: Term, nonce: Uuid, payload: seq<byte>, prf: Prf, body: seq<byte>,
                      c': string)
    requires c != "" && IsByteString(c) && IsV4(nonce) && CollisionFree(prf)
    requires prf(key, Covered(ToBytes(c), nonce, payload)) != []
    ensures Admits(ks, SignedHeader(c, key, nonce, payload, prf), body, prf, c') ==> body == payload && c' == c
  {
    var mac := prf(key, Covered(ToBytes(c), nonce, payload));
    EncodeThenDecode(ToBytes(c), nonce, mac);
    MacBinds(ks, c, key, nonce, payload, prf, SignedHeader(c, key, nonce, payload, prf), ToBytes(c), nonce, body, c');
  }

  /** The agent with private key `clientPriv` bootstrapped as `c` with a 200 that left the stores at `s1`. */
  ghost predicate Bootstrapped(s: Stores, cert: nat, req: AuthRequest, env: Env, clientPriv: nat, c: string,
                               s1: Stores) {
    && Auth(s, cert, req, env) == (s1, Response(200, Some(Pub(env.ephemeral))))
    && req.body.Some? && req.body.value.clientPubKey == Some(Pub(clientPriv)) && req.body.value.clientId == c
  }

  lemma BootstrappedFacts(s: Stores, cert: nat, req: AuthRequest, env: Env, clientPriv: nat, c: string, s1: Stores)
    requires Bootstrapped(s, cert, req, env, clientPriv, c, s1)
    ensures IsByteString(c) && Paths.Plain(c)
    ensures HasClientKey(s1.keyrings, c, AgentKey(clientPriv, Pub(env.ephemeral)))
  {
    AgentKeyStored(s, cert, req, env, clientPriv);
    AnsweredOkIff(s, cert, req, env);
    ValidIsPlain(c);
  }

  /** After a bootstrap answered 200, and any later run without a re-creation of the cluster, the
      gateway lets every request the agent signs through, as that cluster and no other. */
  lemma AgentStaysAdmitted(s: Stores, cert: nat, req: AuthRequest, env: Env, clientPriv: nat, c: string, s1: Stores,
                           es: seq<Event>, other: map<seq<string>, CompleteKeyring>, nonce: Uuid, payload: seq<byte>,
                           prf: Prf, c': string)
    requires Bootstrapped(s, cert, req, env, clientPriv, c, s1) && !RecreatedIn(s1, cert, es, c)
    requires IsV4(nonce) && forall k, m :: prf(k, m) != []
    ensures IsByteString(c)
    ensures var key := AgentKey(clientPriv, Pub(env.ephemeral));
            var ks := Keyspace(Run(s1, cert, es).keyrings, other);
            Admits(ks, SignedHeader(c, key, nonce, payload, prf), payload, prf, c') <==> c' == c
  {
    BootstrappedFacts(s, cert, req, env, clientPriv, c, s1);
    KeySurvives(s1, cert, es, c, AgentKey(clientPriv, Pub(env.ephemeral)));
    KeyAdmission(Keyspace(Run(s1, cert, es).keyrings, other), c, AgentKey(clientPriv, Pub(env.ephemeral)),
                 nonce, payload, prf, c');
  }

  /** The exact condition: when no other key computes the same MAC for this message, the agent is
      admitted if and only if the cluster was not re-created since. Deleting the cluster, deleting
      or expiring the token, failed requests and label edits do not matter. */
  lemma AdmittedIffNotRecreated(s: Stores, cert: nat, req: AuthRequest, env: Env, clientPriv: nat, c: string,
                                s1: Stores,
                                es: seq<Event>, other: map<seq<string>, CompleteKeyring>, nonce: Uuid,
                                payload: seq<byte>, prf: Prf)
    requires Bootstrapped(s, cert, req, env, clientPriv, c, s1) && NeverReused(es, env.ephemeral)
    requires IsV4(nonce) && IsByteString(c) && forall k, m :: prf(k, m) != []
    requires NoOtherKey(c, AgentKey(clientPriv, Pub(env.ephemeral)), nonce, payload, prf)
    ensures var key := AgentKey(clientPriv, Pub(env.ephemeral));
            var ks := Keyspace(Run(s1, cert, es).keyrings, other);
            Admits(ks, SignedHeader(c, key, nonce, payload, prf), payload, prf, c)
            <==> !RecreatedIn(s1, cert, es, c)
  {
    BootstrappedFacts(s, cert, req, env, clientPriv, c, s1);
    KeyOverRun(s1, cert, es, c, clientPriv, env.ephemeral);
    KeyAdmission(Keyspace(Run(s1, cert, es).keyrings, other), c, AgentKey(clientPriv, Pub(env.ephemeral)),
                 nonce, payload, prf, c);
  }
}
