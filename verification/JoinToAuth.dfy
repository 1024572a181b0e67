/** From the join response to the bootstrap request: the message a token holder completes is the
    authorization that the gateway checks first (pkg/bootstrap/client.go, pkg/bootstrap/server.go). */
module JoinToAuth {
  import opened Core
  import opened Encodings
  import opened Text
  import opened DetachedJws
  import opened JoinResponse
  import opened Bootstrap

  const BEARER := "Bearer"

  function TrimPrefix(s: string, prefix: string): string {
    if prefix <= s then s[|prefix|..] else s
  }

  /** What the gateway makes of an authorization header, given its signing key and the reading of
      token JSON: nothing, not a JWS it signed, or a token it signed. */
  function Authorize(header: string, key: SigningKey, parse: seq<byte> -> Token, cert: nat): Authorization {
    var authHeader := TrimSpace(header);
    if authHeader == "" then Absent
    else
      match key.Open(TrimSpace(TrimPrefix(authHeader, BEARER)))
      case None => NotAJws
      case Some(payload) => Jws(cert, parse(payload).HexID())
  }

  /** The header the client sends. */
  function BearerHeader(message: string): string { BEARER + " " + message }

  lemma SignedIsVisible(t: Token, key: SigningKey)
    ensures key.Sign(t) != "" && forall c :: c in key.Sign(t) ==> !IsSpace(c)
  {
    Encode64Chars(key.header);
    Encode64Chars(key.json(t));
    Encode64Chars(key.signature(key.Input(t)));
    var a, b, c := Encode64(key.header), key.Payload(t), Encode64(key.signature(key.Input(t)));
    assert key.Sign(t) == a + "." + b + "." + c;
  }

  lemma BearerArrives(message: string)
    requires message != "" && forall c :: c in message ==> !IsSpace(c)
    ensures TrimSpace(BearerHeader(message)) == BearerHeader(message)
    ensures TrimSpace(TrimPrefix(BearerHeader(message), BEARER)) == message
  {
    var h := BearerHeader(message);
    assert message[0] in message && message[|message| - 1] in message;
    assert h[0] == 'B' && h[|h| - 1] == message[|message| - 1];
    TrimSpaceProperties(h);
    assert h[|BEARER|..] == " " + message;
    assert (" " + message)[1..] == message;
    TrimSpaceProperties(message);
    assert TrimLeft(" " + message) == TrimLeft(message);
  }

  /** A signed token arrives as itself. */
  lemma SignedAuthorizes(t: Token, key: SigningKey, parse: seq<byte> -> Token, cert: nat)
    requires parse(key.json(t)) == t
    ensures Authorize(BearerHeader(key.Sign(t)), key, parse, cert) == Jws(cert, t.HexID())
  {
    SignedIsVisible(t, key);
    BearerArrives(key.Sign(t));
    SignedOpens(t, key);
  }

  /** Without a body the answer is that the body is bad, and no request for a new cluster is refused as
      unauthorized: the signature check and the token check are passed. */
  ghost predicate PassesChecks(s: Stores, cert: nat, a: Authorization, env: Env) {
    && Refusal(s, cert, AuthRequest(a, None), env) == Some(400)
    && forall b: AuthBody :: b.clientId !in s.clusters ==> Refusal(s, cert, AuthRequest(a, Some(b)), env) != Some(401)
  }

  lemma StoredTokenPasses(s: Stores, cert: nat, tokenId: string, env: Env)
    requires tokenId in s.tokens && GetToken !in env.failing
    ensures PassesChecks(s, cert, Jws(cert, tokenId), env)
  {
  }

  /** The holder of a listed token whose id no other listed token has, and under whose id a token is
      stored, passes the signature check and the token check with what it found in the join
      response. */
  lemma HolderPassesChecks(list: Listing, signatures: map<string, string>, key: SigningKey, i: nat,
                           parse: seq<byte> -> Token, s: Stores, cert: nat, env: Env)
    requires Answers(list, signatures, key) && DistinctIds(list) && i < |list|
    requires parse(key.json(Raw(list, i))) == Raw(list, i)
    requires Raw(list, i).HexID() in s.tokens && GetToken !in env.failing
    ensures var found := FindValidSignature(signatures, Raw(list, i), key);
            && found.Some?
            && var authorization := Authorize(BearerHeader(found.value), key, parse, cert);
            && authorization == Jws(cert, Raw(list, i).HexID())
            && PassesChecks(s, cert, authorization, env)
  {
    EveryHolderFinds(list, signatures, key, i);
    SignedAuthorizes(Raw(list, i), key, parse, cert);
    StoredTokenPasses(s, cert, Raw(list, i).HexID(), env);
  }

  /** Anything else than a message signed with the key is refused before any store is read. */
  lemma UnsignedIsRefused(header: string, key: SigningKey, parse: seq<byte> -> Token, s: Stores, cert: nat,
                          body: Option<AuthBody>, env: Env)
    requires key.Open(TrimSpace(TrimPrefix(TrimSpace(header), BEARER))).None?
    ensures Refusal(s, cert, AuthRequest(Authorize(header, key, parse, cert), body), env) == Some(401)
  {
  }

  /** A prefix is taken off where there is one, once, and nothing where there is none. */
  lemma PrefixTrimmed(prefix: string, rest: string)
    ensures TrimPrefix(prefix + rest, prefix) == rest
    ensures !(prefix <= rest) ==> TrimPrefix(rest, prefix) == rest
  {
    assert (prefix + rest)[|prefix|..] == rest;
  }
}
