/** Which answer a bootstrap request gets, status by status, and what a request that fails half way
    leaves behind (pkg/bootstrap/server.go). */
module BootstrapStatus {
  import opened Core
  import opened Validation
  import opened Ecdh
  import opened Bootstrap

  /** The gateway signed the token that the request presents. */
  predicate Signed(cert: nat, req: AuthRequest) { req.authorization.Jws? && req.authorization.signer == cert }

  /** The token was looked up and is stored. */
  predicate TokenFound(s: Stores, cert: nat, req: AuthRequest, env: Env) {
    Signed(cert, req) && GetToken !in env.failing && req.authorization.tokenId in s.tokens
  }

  /** A body with a valid id, a key and a capability. */
  predicate GoodBody(req: AuthRequest) {
    && req.body.Some? && ValidId(req.body.value.clientId)
    && req.body.value.clientPubKey.Some? && req.body.value.capability != ""
  }

  /** The cluster was looked up. */
  predicate ClusterChecked(s: Stores, cert: nat, req: AuthRequest, env: Env) {
    TokenFound(s, cert, req, env) && GoodBody(req) && GetCluster !in env.failing
  }

  predicate ClusterStored(s: Stores, req: AuthRequest)
    requires req.body.Some?
  {
    req.body.value.clientId in s.clusters
  }

  /** The stored cluster has the requested capability. */
  predicate AlreadyInstalled(s: Stores, req: AuthRequest)
    requires req.body.Some?
  {
    && ClusterStored(s, req)
    && exists i :: && 0 <= i < |s.clusters[req.body.value.clientId].capabilities|
                   && s.clusters[req.body.value.clientId].capabilities[i].name == req.body.value.capability != ""
  }

  /** The token has the right to join the requested cluster. */
  predicate TokenMayJoin(s: Stores, req: AuthRequest)
    requires req.body.Some? && req.authorization.Jws? && req.authorization.tokenId in s.tokens
  {
    exists i :: && 0 <= i < |s.tokens[req.authorization.tokenId].capabilities|
                && s.tokens[req.authorization.tokenId].capabilities[i]
                   == TokenCapability("join_existing_cluster", Some(Reference(req.body.value.clientId)))
                && req.body.value.clientId != ""
  }

  /** The cluster is new, or lacks the capability and may be joined. */
  predicate MayProceed(s: Stores, cert: nat, req: AuthRequest, env: Env) {
    && ClusterChecked(s, cert, req, env)
    && (ClusterStored(s, req) ==> !AlreadyInstalled(s, req) && TokenMayJoin(s, req))
  }

  /** And the keys agree. */
  predicate KeysAgree(s: Stores, cert: nat, req: AuthRequest, env: Env) {
    MayProceed(s, cert, req, env) && !BadKey(req.body.value.clientPubKey.value)
  }

  /** Not a point of the curve. */
  predicate BadKey(t: Term) { !t.Pub? && !t.ForeignPoint? }

  /** Some store call fails while the stores are written. */
  predicate WriteFails(s: Stores, req: AuthRequest, env: Env)
    requires req.body.Some?
  {
    || UpdateToken in env.failing || OpenKeyring in env.failing || PutKeyring in env.failing
    || (ClusterStored(s, req) &&
        (UpdateCluster in env.failing || GetKeyring in env.failing || req.body.value.clientId !in s.keyrings))
    || (!ClusterStored(s, req) && CreateCluster in env.failing)
  }

  lemma InstalledMeans(s: Stores, req: AuthRequest)
    requires req.body.Some? && ClusterStored(s, req) && req.body.value.capability != ""
    ensures AlreadyInstalled(s, req) <==> Installed(s.clusters[req.body.value.clientId], req.body.value.capability)
  {
    var caps, cap := s.clusters[req.body.value.clientId].capabilities, ClusterCapability(req.body.value.capability);
    forall i | 0 <= i < |caps| ensures ClusterCapabilityEqual(caps[i], cap) <==> caps[i].name == cap.name != "" {
      ClusterCapabilityEqualIsIdentityOnNamed(caps[i], cap);
    }
  }

  lemma MayJoinMeans(s: Stores, req: AuthRequest)
    requires req.body.Some? && req.authorization.Jws? && req.authorization.tokenId in s.tokens
    ensures TokenMayJoin(s, req) <==>
            HasTokenCapability(s.tokens[req.authorization.tokenId].capabilities, JoinFor(req.body.value.clientId))
  {
    var caps, cap := s.tokens[req.authorization.tokenId].capabilities, JoinFor(req.body.value.clientId);
    forall i | 0 <= i < |caps| ensures TokenCapabilityEqual(caps[i], cap) <==> caps[i] == cap && FullCapability(cap) {
      TokenCapabilityEqualIsIdentityOnFull(caps[i], cap);
    }
  }

  lemma Meanings(s: Stores, cert: nat, req: AuthRequest, env: Env)
    requires ClusterChecked(s, cert, req, env)
    ensures ClusterStored(s, req) ==>
              (AlreadyInstalled(s, req) <==> Installed(s.clusters[req.body.value.clientId], req.body.value.capability))
    ensures TokenMayJoin(s, req) <==>
            HasTokenCapability(s.tokens[req.authorization.tokenId].capabilities, JoinFor(req.body.value.clientId))
  {
    if ClusterStored(s, req) {
      InstalledMeans(s, req);
    }
    MayJoinMeans(s, req);
  }

  /** 401: nothing the gateway signed, a token that is not stored, or a stored cluster that lacks the
      capability and that the token may not join. */
  lemma Unauthorized(s: Stores, cert: nat, req: AuthRequest, env: Env)
    ensures Auth(s, cert, req, env).1.status == 401 <==>
            || !Signed(cert, req)
            || (GetToken !in env.failing && req.authorization.tokenId !in s.tokens)
            || (&& ClusterChecked(s, cert, req, env) && ClusterStored(s, req)
                && !AlreadyInstalled(s, req) && !TokenMayJoin(s, req))
  {
    if ClusterChecked(s, cert, req, env) {
      Meanings(s, cert, req, env);
    }
  }

  /** 400: the token is stored and the body is missing or invalid. */
  lemma BadRequest(s: Stores, cert: nat, req: AuthRequest, env: Env)
    ensures Auth(s, cert, req, env).1.status == 400 <==> TokenFound(s, cert, req, env) && !GoodBody(req)
  {
  }

  /** 409: the stored cluster has the capability, whatever the token may do. */
  lemma Conflict(s: Stores, cert: nat, req: AuthRequest, env: Env)
    ensures Auth(s, cert, req, env).1.status == 409 <==> ClusterChecked(s, cert, req, env) && AlreadyInstalled(s, req)
  {
    if ClusterChecked(s, cert, req, env) {
      Meanings(s, cert, req, env);
    }
  }

  /** 404 and 503: everything is in order and the capability is unknown or cannot be installed. */
  lemma NotInstalled(s: Stores, cert: nat, req: AuthRequest, env: Env)
    ensures Auth(s, cert, req, env).1.status == 404 <==>
            KeysAgree(s, cert, req, env) && env.install == UnknownCapability
    ensures Auth(s, cert, req, env).1.status == 503 <==>
            KeysAgree(s, cert, req, env) && env.install == NotInstallable
  {
    if ClusterChecked(s, cert, req, env) {
      Meanings(s, cert, req, env);
    }
  }

  /** 500: a lookup fails, the client's key is no point of the curve, or a store call fails while the
      stores are written. */
  lemma ServerError(s: Stores, cert: nat, req: AuthRequest, env: Env)
    ensures Auth(s, cert, req, env).1.status == 500 <==>
            || (Signed(cert, req) && GetToken in env.failing)
            || (TokenFound(s, cert, req, env) && GoodBody(req) && GetCluster in env.failing)
            || (MayProceed(s, cert, req, env) && BadKey(req.body.value.clientPubKey.value))
            || (KeysAgree(s, cert, req, env) && env.install == Installable && WriteFails(s, req, env))
  {
    if ClusterChecked(s, cert, req, env) {
      Meanings(s, cert, req, env);
    }
  }

  /** 200: everything is in order and nothing fails. */
  lemma Accepted(s: Stores, cert: nat, req: AuthRequest, env: Env)
    ensures Auth(s, cert, req, env).1.status == 200 <==>
            KeysAgree(s, cert, req, env) && env.install == Installable && !WriteFails(s, req, env)
    ensures Auth(s, cert, req, env).1.serverPubKey ==
            if Auth(s, cert, req, env).1.status == 200 then Some(Pub(env.ephemeral)) else None
  {
    if ClusterChecked(s, cert, req, env) {
      Meanings(s, cert, req, env);
    }
  }

  /** What a request answered 500 leaves behind when it passed every check: for a new cluster its record
      unless the creation failed, and after it the use of the token unless that update failed; for a
      stored cluster the use of the token unless that update failed, and after it the new capability
      unless that update failed; never a ring and never an installation. */
  lemma FailedEffect(s: Stores, cert: nat, req: AuthRequest, env: Env)
    requires KeysAgree(s, cert, req, env) && env.install == Installable && WriteFails(s, req, env)
    ensures var s' := Auth(s, cert, req, env).0;
            var b, tid := req.body.value, req.authorization.tokenId;
            var c, t := b.clientId, s.tokens[tid];
            var cap := ClusterCapability(b.capability);
            && s'.keyrings == s.keyrings && s'.installed == s.installed
            && (if c !in s.clusters then
                  && s'.clusters == (if CreateCluster in env.failing then s.clusters
                                     else s.clusters[c := Cluster(c, t.labels, [cap])])
                  && (CreateCluster in env.failing || UpdateToken in env.failing ==> s'.tokens == s.tokens)
                  && (CreateCluster !in env.failing && UpdateToken !in env.failing ==>
                        && s'.tokens - {tid} == s.tokens - {tid} && tid in s'.tokens
                        && s'.tokens[tid].usageCount == t.usageCount + 1
                        && HasTokenCapability(s'.tokens[tid].capabilities, JoinFor(c)))
                else
                  && s'.tokens == (if UpdateToken in env.failing then s.tokens
                                   else s.tokens[tid := t.(usageCount := t.usageCount + 1)])
                  && s'.clusters == (if UpdateToken in env.failing || UpdateCluster in env.failing then s.clusters
                                     else s.clusters[c := s.clusters[c].(
                                                            capabilities := s.clusters[c].capabilities + [cap])]))
  {
    Meanings(s, cert, req, env);
    var c, tid := req.body.value.clientId, req.authorization.tokenId;
    if c !in s.clusters && CreateCluster !in env.failing && UpdateToken !in env.failing {
      GrantedMeans(s.tokens[tid], c);
      assert s.tokens[tid := Granted(s.tokens[tid], c)] - {tid} == s.tokens - {tid};
    }
  }

  lemma GrantedMeans(t: BootstrapToken, c: string)
    requires c != ""
    ensures HasTokenCapability(Granted(t, c).capabilities, JoinFor(c))
  {
    if !HasTokenCapability(t.capabilities, JoinFor(c)) {
      assert TokenCapabilityEqual((t.capabilities + [JoinFor(c)])[|t.capabilities|], JoinFor(c));
    }
  }
}
