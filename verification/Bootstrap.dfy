/** The bootstrap server (pkg/bootstrap/server.go): token check, cluster check, key agreement, and
    the writes to the cluster, token and keyring stores.

    Calls that leave the process are inputs of a request: which store calls fail, whether the
    capability can be installed, and the server's ephemeral private key. */
module Bootstrap {
  import opened Core
  import opened Validation
  import opened Ecdh
  import opened Keyrings
  import opened ClusterAuth
  import opened Mutators

  datatype Stores = Stores(
    tokens: map<string, BootstrapToken>,
    clusters: map<string, Cluster>,
    keyrings: map<string, CompleteKeyring>,
    installed: seq<(string, string)>)

  /** A verifiable JWS over a token: who signed it, and the token's id. */
  datatype Authorization = Absent | NotAJws | Jws(signer: nat, tokenId: string)

  datatype AuthBody = AuthBody(clientId: string, clientPubKey: Option<Term>, capability: string)

  datatype AuthRequest = AuthRequest(authorization: Authorization, body: Option<AuthBody>)

  datatype StoreCall =
    | GetToken | GetCluster | CreateCluster | UpdateToken | UpdateCluster | OpenKeyring | GetKeyring | PutKeyring

  datatype Installability = Installable | UnknownCapability | NotInstallable

  datatype Env = Env(ephemeral: nat, failing: set<StoreCall>, install: Installability)

  datatype Response = Response(status: int, serverPubKey: Option<Term>)

  predicate ValidBody(b: AuthBody) { ValidId(b.clientId) && b.clientPubKey.Some? && b.capability != "" }

  /** The keyring data of a newly bootstrapped cluster, and of an extended one. */
  function NewRing(keys: SharedKeys): CompleteKeyring { CompleteKeyring([Shared(keys)], []) }

  function ExtendedRing(keys: SharedKeys, ring: CompleteKeyring): CompleteKeyring {
    ring.(sharedKeys := [Shared(keys)] + ring.sharedKeys)
  }

  function Granted(t: BootstrapToken, clusterId: string): BootstrapToken {
    Used(t).(capabilities := WithTokenCapability(t.capabilities, JoinFor(clusterId)))
  }

  function NewCluster(b: AuthBody, t: BootstrapToken): Cluster {
    Cluster(b.clientId, t.labels, [ClusterCapability(b.capability)])
  }

  function Extended(c: Cluster, capability: string): Cluster {
    c.(capabilities := WithClusterCapability(c.capabilities, ClusterCapability(capability)))
  }

  predicate Installed(c: Cluster, capability: string) {
    HasClusterCapability(c.capabilities, ClusterCapability(capability))
  }

  /** The status of the check that turns the request away, if one does. */
  function Refusal(s: Stores, cert: nat, req: AuthRequest, env: Env): Option<int> {
    if !req.authorization.Jws? || req.authorization.signer != cert then Some(401)
    else if GetToken in env.failing then Some(500)
    else if req.authorization.tokenId !in s.tokens then Some(401)
    else if req.body.None? || !ValidBody(req.body.value) then Some(400)
    else
      var b, t := req.body.value, s.tokens[req.authorization.tokenId];
      if GetCluster in env.failing then Some(500)
      else if b.clientId in s.clusters && Installed(s.clusters[b.clientId], b.capability) then Some(409)
      else if b.clientId in s.clusters && !HasTokenCapability(t.capabilities, JoinFor(b.clientId)) then Some(401)
      else if ServerSide(env.ephemeral, b.clientPubKey.value).None? then Some(500)
      else if env.install.UnknownCapability? then Some(404)
      else if env.install.NotInstallable? then Some(503)
      else None
  }

  /** The stores after a creation: the writes up to the first failing call. */
  function AfterCreate(s: Stores, tokenId: string, b: AuthBody, keys: SharedKeys, failing: set<StoreCall>)
    : (Stores, bool)
    requires tokenId in s.tokens
  {
    var t := s.tokens[tokenId];
    if CreateCluster in failing then (s, false)
    else
      var s1 := s.(clusters := s.clusters[b.clientId := NewCluster(b, t)]);
      if UpdateToken in failing then (s1, false)
      else
        var s2 := s1.(tokens := s.tokens[tokenId := Granted(t, b.clientId)]);
        if OpenKeyring in failing || PutKeyring in failing then (s2, false)
        else
          (s2.(keyrings := s.keyrings[b.clientId := NewRing(keys)],
               installed := s.installed + [(b.clientId, b.capability)]), true)
  }

  /** The stores after an extension: the writes up to the first failing call. */
  function AfterEdit(s: Stores, tokenId: string, b: AuthBody, keys: SharedKeys, failing: set<StoreCall>): (Stores, bool)
    requires tokenId in s.tokens && b.clientId in s.clusters
  {
    if UpdateToken in failing then (s, false)
    else
      var s1 := s.(tokens := s.tokens[tokenId := Used(s.tokens[tokenId])]);
      if UpdateCluster in failing then (s1, false)
      else
        var s2 := s1.(clusters := s.clusters[b.clientId := Extended(s.clusters[b.clientId], b.capability)]);
        if OpenKeyring in failing || GetKeyring in failing || b.clientId !in s.keyrings || PutKeyring in failing
        then (s2, false)
        else
          (s2.(keyrings := s.keyrings[b.clientId := ExtendedRing(keys, s.keyrings[b.clientId])],
               installed := s.installed + [(b.clientId, b.capability)]), true)
  }

  /** The stores and the answer after one authentication request. */
  function Auth(s: Stores, cert: nat, req: AuthRequest, env: Env): (Stores, Response) {
    match Refusal(s, cert, req, env)
    case Some(status) => (s, Response(status, None))
    case None =>
      var b, tokenId := req.body.value, req.authorization.tokenId;
      var keys := NewSharedKeys(ServerSide(env.ephemeral, b.clientPubKey.value).value);
      var (s', ok) :=
        if b.clientId in s.clusters then AfterEdit(s, tokenId, b, keys, env.failing)
        else AfterCreate(s, tokenId, b, keys, env.failing);
      (s', if ok then Response(200, Some(Pub(env.ephemeral))) else Response(500, None))
  }

  class Gateway {
    const cert: nat
    var tokens: map<string, BootstrapToken>
    var clusters: map<string, Cluster>
    var keyrings: map<string, CompleteKeyring>
    var installed: seq<(string, string)>

    constructor (cert: nat)
      ensures this.cert == cert && Contents() == Stores(map[], map[], map[], [])
    {
      this.cert := cert;
      tokens, clusters, keyrings, installed := map[], map[], map[], [];
    }

    function Contents(): Stores
      reads this
    {
      Stores(tokens, clusters, keyrings, installed)
    }

    method HandleBootstrapAuth(req: AuthRequest, env: Env) returns (r: Response)
      requires StoreTyped(keyrings)
      modifies this
      ensures (Contents(), r) == Auth(old(Contents()), cert, req, env)
      ensures StoreTyped(keyrings)
    {
      if !req.authorization.Jws? || req.authorization.signer != cert {
        return Response(401, None);
      }
      if GetToken in env.failing {
        return Response(500, None);
      }
      var tokenId := req.authorization.tokenId;
      if tokenId !in tokens {
        return Response(401, None);
      }
      var bootstrapToken := tokens[tokenId];
      if req.body.None? || !ValidBody(req.body.value) {
        return Response(400, None);
      }
      var clientReq := req.body.value;
      if GetCluster in env.failing {
        return Response(500, None);
      }
      var shouldEditExisting := false;
      if clientReq.clientId in clusters {
        if HasClusterCapability(clusters[clientReq.clientId].capabilities, ClusterCapability(clientReq.capability)) {
          return Response(409, None);
        }
        if HasTokenCapability(bootstrapToken.capabilities, JoinFor(clientReq.clientId)) {
          shouldEditExisting := true;
        } else {
          return Response(401, None);
        }
      }
      var ekp := Ephemeral(env.ephemeral);
      var secret := DeriveSharedSecret(ekp, PeerPublicKey(clientReq.clientPubKey.value, PeerClient));
      if secret.None? {
        return Response(500, None);
      }
      var keys := NewSharedKeys(secret.value);
      var kr := New([Shared(keys)]);
      if env.install.UnknownCapability? {
        return Response(404, None);
      }
      if env.install.NotInstallable? {
        return Response(503, None);
      }
      var ok;
      if shouldEditExisting {
        ok := HandleEdit(tokenId, clientReq, keys, kr, env.failing);
      } else {
        ok := HandleCreate(tokenId, clientReq, keys, kr, env.failing);
      }
      if !ok {
        return Response(500, None);
      }
      return Response(200, Some(ekp.pub));
    }

    method HandleCreate(tokenId: string, b: AuthBody, ghost keys: SharedKeys, kr: Keyring, failing: set<StoreCall>)
      returns (ok: bool)
      requires tokenId in tokens && StoreTyped(keyrings) && Groups(kr, [Shared(keys)])
      modifies this
      ensures (Contents(), ok) == AfterCreate(old(Contents()), tokenId, b, keys, failing)
      ensures StoreTyped(keyrings)
    {
      var t := tokens[tokenId];
      if CreateCluster in failing {
        return false;
      }
      clusters := clusters[b.clientId := NewCluster(b, t)];
      if UpdateToken in failing {
        return false;
      }
      var updated := new Metadata<TokenCapability>(t.capabilities, t.usageCount);
      updated.IncrementUsageCount();
      updated.AddCapability(JoinFor(b.clientId), TokenCapabilityEqual);
      AddedToToken(t.capabilities, JoinFor(b.clientId));
      tokens := tokens[tokenId := t.(usageCount := updated.usageCount, capabilities := updated.capabilities)];
      if OpenKeyring in failing {
        return false;
      }
      var data := Marshal(kr);
      if PutKeyring in failing {
        return false;
      }
      SingleRing(kr, keys);
      keyrings := keyrings[b.clientId := data];
      installed := installed + [(b.clientId, b.capability)];
      return true;
    }

    method HandleEdit(tokenId: string, b: AuthBody, ghost keys: SharedKeys, kr: Keyring, failing: set<StoreCall>)
      returns (ok: bool)
      requires tokenId in tokens && b.clientId in clusters && StoreTyped(keyrings) && Groups(kr, [Shared(keys)])
      modifies this
      ensures (Contents(), ok) == AfterEdit(old(Contents()), tokenId, b, keys, failing)
      ensures StoreTyped(keyrings)
    {
      if UpdateToken in failing {
        return false;
      }
      var token := tokens[tokenId];
      var updated := new Metadata<TokenCapability>(token.capabilities, token.usageCount);
      updated.IncrementUsageCount();
      tokens := tokens[tokenId := token.(usageCount := updated.usageCount)];
      if UpdateCluster in failing {
        return false;
      }
      var cluster := clusters[b.clientId];
      var extended := new Metadata<ClusterCapability>(cluster.capabilities, 0);
      extended.AddCapability(ClusterCapability(b.capability), ClusterCapabilityEqual);
      AddedToCluster(cluster.capabilities, ClusterCapability(b.capability));
      clusters := clusters[b.clientId := cluster.(capabilities := extended.capabilities)];
      if OpenKeyring in failing {
        return false;
      }
      if GetKeyring in failing || b.clientId !in keyrings {
        return false;
      }
      var existing := Unmarshal(keyrings[b.clientId]);
      var merged := Merge(kr, existing);
      var data := Marshal(merged);
      if PutKeyring in failing {
        return false;
      }
      MergedRing(kr, keys, keyrings[b.clientId], merged);
      keyrings := keyrings[b.clientId := data];
      installed := installed + [(b.clientId, b.capability)];
      return true;
    }
  }

  lemma SingleRing(kr: Keyring, keys: SharedKeys)
    requires Groups(kr, [Shared(keys)])
    ensures Stored(kr) == NewRing(keys) && Typed(Stored(kr))
  {
    OnlyOfOneType([Shared(keys)], SharedKeysType, SharedKeysType);
    OnlyOfOneType([Shared(keys)], PkpKeyType, SharedKeysType);
  }

  lemma MergedRing(kr: Keyring, keys: SharedKeys, data: CompleteKeyring, merged: Keyring)
    requires Groups(kr, [Shared(keys)]) && Typed(data) && IsMerge(merged, kr, Restored(data))
    ensures Stored(merged) == ExtendedRing(keys, data) && Typed(Stored(merged))
  {
    SingleRing(kr, keys);
    RestoredLists(data, SharedKeysType);
    RestoredLists(data, PkpKeyType);
    assert OfType(merged, SharedKeysType) == OfType(kr, SharedKeysType) + OfType(Restored(data), SharedKeysType);
    assert OfType(merged, PkpKeyType) == OfType(kr, PkpKeyType) + OfType(Restored(data), PkpKeyType);
  }
}
