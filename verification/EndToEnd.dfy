/** The whole way of an agent: from a token it holds, through the join response and the bootstrap request,
    to requests that the gateway admits. */
module EndToEnd {
  import opened Core
  import opened Encodings
  import opened DetachedJws
  import opened JoinResponse
  import opened JoinToAuth
  import opened AuthHeader
  import opened Ecdh
  import opened Keyrings
  import opened ClusterAuth
  import opened Bootstrap
  import Runs = BootstrapRuns

  /** The request the holder of listed token i sends, with the message it found in the join response. */
  function JoinedRequest(signatures: map<string, string>, held: DetachedJws.Token, key: SigningKey,
                         parse: seq<byte> -> DetachedJws.Token, cert: nat, b: AuthBody): AuthRequest
  {
    match FindValidSignature(signatures, held, key)
    case Some(message) => AuthRequest(Authorize(BearerHeader(message), key, parse, cert), Some(b))
    case None => AuthRequest(Authorization.Absent, Some(b))
  }

  /** The token may bring this capability to this cluster: the cluster is new, or it lacks the
      capability, has a ring, and the token has the right to join it. */
  predicate MayBring(s: Stores, t: BootstrapToken, b: AuthBody) {
    b.clientId in s.clusters ==>
      && !Installed(s.clusters[b.clientId], b.capability) && b.clientId in s.keyrings
      && HasTokenCapability(t.capabilities, JoinFor(b.clientId))
  }

  /** The joined request is answered 200. */
  lemma JoinedGets200(list: Listing, signatures: map<string, string>, key: SigningKey, i: nat,
                      parse: seq<byte> -> DetachedJws.Token, s: Stores, cert: nat, env: Env, b: AuthBody,
                      clientPriv: nat)
    requires Answers(list, signatures, key) && DistinctIds(list) && i < |list|
    requires parse(key.json(Raw(list, i))) == Raw(list, i)
    requires Raw(list, i).HexID() in s.tokens && MayBring(s, s.tokens[Raw(list, i).HexID()], b)
    requires ValidBody(b) && b.clientPubKey == Some(Pub(clientPriv)) && env.install.Installable? && env.failing == {}
    ensures var req := JoinedRequest(signatures, Raw(list, i), key, parse, cert, b);
            Auth(s, cert, req, env).1 == Response(200, Some(Pub(env.ephemeral)))
  {
    EveryHolderFinds(list, signatures, key, i);
    SignedAuthorizes(Raw(list, i), key, parse, cert);
    SecretsAgree(clientPriv, env.ephemeral);
    StoredGets200(s, cert, Raw(list, i).HexID(), env, b);
  }

  lemma StoredGets200(s: Stores, cert: nat, tokenId: string, env: Env, b: AuthBody)
    requires tokenId in s.tokens && MayBring(s, s.tokens[tokenId], b) && ValidBody(b)
    requires ServerSide(env.ephemeral, b.clientPubKey.value).Some? && env.install.Installable? && env.failing == {}
    ensures Auth(s, cert, AuthRequest(Jws(cert, tokenId), Some(b)), env).1 == Response(200, Some(Pub(env.ephemeral)))
  {
    Runs.AnsweredOkIff(s, cert, AuthRequest(Jws(cert, tokenId), Some(b)), env);
  }

  /** From a listed token with a distinct id to admission: its holder bootstraps with what the join
      response gave it, and afterwards, through any run that does not re-create the cluster, every
      request it signs with the key it derived is admitted as its cluster and no other. */
  lemma JoinedAgentIsAdmitted(list: Listing, signatures: map<string, string>, key: SigningKey, i: nat,
                              parse: seq<byte> -> DetachedJws.Token, s: Stores, cert: nat, env: Env, b: AuthBody,
                              clientPriv: nat, es: seq<Runs.Event>, other: map<seq<string>, CompleteKeyring>,
                              nonce: Uuid, payload: seq<byte>, prf: Prf, c: string)
    requires Answers(list, signatures, key) && DistinctIds(list) && i < |list|
    requires parse(key.json(Raw(list, i))) == Raw(list, i)
    requires Raw(list, i).HexID() in s.tokens && MayBring(s, s.tokens[Raw(list, i).HexID()], b)
    requires ValidBody(b) && b.clientPubKey == Some(Pub(clientPriv)) && env.install.Installable? && env.failing == {}
    requires IsV4(nonce) && forall k, m :: prf(k, m) != []
    ensures var req := JoinedRequest(signatures, Raw(list, i), key, parse, cert, b);
            var (s1, r) := Auth(s, cert, req, env);
            && r == Response(200, Some(Pub(env.ephemeral))) && IsByteString(b.clientId)
            && (!Runs.RecreatedIn(s1, cert, es, b.clientId) ==>
                  var agentKey := Runs.AgentKey(clientPriv, r.serverPubKey.value);
                  var ks := Keyspace(Runs.Run(s1, cert, es).keyrings, other);
                  (Admits(ks, Runs.SignedHeader(b.clientId, agentKey, nonce, payload, prf), payload, prf, c) <==>
                   c == b.clientId))
  {
    JoinedGets200(list, signatures, key, i, parse, s, cert, env, b, clientPriv);
    var req := JoinedRequest(signatures, Raw(list, i), key, parse, cert, b);
    var s1 := Auth(s, cert, req, env).0;
    Runs.BootstrappedFacts(s, cert, req, env, clientPriv, b.clientId, s1);
    if !Runs.RecreatedIn(s1, cert, es, b.clientId) {
      Runs.AgentStaysAdmitted(s, cert, req, env, clientPriv, b.clientId, s1, es, other, nonce, payload, prf, c);
    }
  }
}
