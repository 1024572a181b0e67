/** Key agreement (pkg/ecdh) and the split of the shared secret into two signing keys
    (pkg/keyring/keys.go), over symbolic terms.

    A private key is a number. `Dh` carries the unordered pair of private keys behind a
    shared point, which is X25519 agreement (section 6.1 of RFC 7748). `Hash` and `Seeded`
    are free constructors: equal outputs come only from equal inputs. */
module Ecdh {
  import opened Core

  datatype Term =
    | Pub(priv: nat)                         // X25519(priv, basepoint)
    | ForeignPoint(n: nat)                   // a point whose private key nobody here holds
    | BadPoint                               // bytes X25519 rejects
    | Dh(pair: multiset<nat>)                // X25519 of one private key with the other's public key
    | DhForeign(priv: nat, n: nat)
    | Hash(parts: seq<Term>)                 // 64 bytes
    | FirstHalf(of: Term)
    | SecondHalf(of: Term)
    | Seeded(seed: Term)                     // ed25519 key from a 32-byte seed

  datatype KeyPair = KeyPair(priv: nat, pub: Term)

  datatype PeerType = PeerClient | PeerServer

  datatype PeerPublicKey = PeerPublicKey(key: Term, peer: PeerType)

  datatype SharedKeys = SharedKeys(clientKey: Term, serverKey: Term)

  function Ephemeral(priv: nat): KeyPair { KeyPair(priv, Pub(priv)) }

  function X25519(priv: nat, point: Term): Option<Term> {
    match point
    case Pub(other) => Some(Dh(multiset{priv, other}))
    case ForeignPoint(n) => Some(DhForeign(priv, n))
    case _ => None
  }

  /** Hashes the agreed point, then the client's and the server's public key, in that order. */
  method DeriveSharedSecret(ours: KeyPair, theirs: PeerPublicKey) returns (secret: Option<Term>)
    ensures secret == SharedSecret(ours, theirs)
    ensures secret.Some? ==>
              && X25519(ours.priv, theirs.key).Some?
              && secret.value.Hash? && |secret.value.parts| == 3
              && secret.value.parts[0] == X25519(ours.priv, theirs.key).value
              && secret.value.parts[1] == (if theirs.peer.PeerClient? then theirs.key else ours.pub)
              && secret.value.parts[2] == (if theirs.peer.PeerClient? then ours.pub else theirs.key)
  {
    var q := X25519(ours.priv, theirs.key);
    if q.None? {
      return None;
    }
    var written := [q.value];
    match theirs.peer {
      case PeerClient =>
        written := written + [theirs.key];
        written := written + [ours.pub];
      case PeerServer =>
        written := written + [ours.pub];
        written := written + [theirs.key];
    }
    assert written == [q.value, written[1], written[2]];
    return Some(Hash(written));
  }

  function SharedSecret(ours: KeyPair, theirs: PeerPublicKey): Option<Term> {
    match X25519(ours.priv, theirs.key)
    case None => None
    case Some(q) =>
      Some(Hash(if theirs.peer.PeerClient? then [q, theirs.key, ours.pub] else [q, ours.pub, theirs.key]))
  }

  function NewSharedKeys(secret: Term): SharedKeys {
    SharedKeys(Seeded(FirstHalf(secret)), Seeded(SecondHalf(secret)))
  }

  /** What the server derives for a client's public key. */
  function ServerSide(serverPriv: nat, clientPub: Term): Option<Term> {
    SharedSecret(Ephemeral(serverPriv), PeerPublicKey(clientPub, PeerClient))
  }

  /** What the client derives from the server's answer. */
  function ClientSide(clientPriv: nat, serverPub: Term): Option<Term> {
    SharedSecret(Ephemeral(clientPriv), PeerPublicKey(serverPub, PeerServer))
  }

  /** What both parties hash: the point they agree on, then the client's and the server's public key. */
  lemma SecretIs(clientPriv: nat, serverPriv: nat)
    ensures ServerSide(serverPriv, Pub(clientPriv))
            == Some(Hash([Dh(multiset{serverPriv, clientPriv}), Pub(clientPriv), Pub(serverPriv)]))
    ensures ClientSide(clientPriv, Pub(serverPriv))
            == Some(Hash([Dh(multiset{serverPriv, clientPriv}), Pub(clientPriv), Pub(serverPriv)]))
  {
    assert multiset{serverPriv, clientPriv} == multiset{clientPriv, serverPriv};
  }

  /** The client key is seeded from the first half of the secret and the server key from the second. */
  lemma KeysAre(clientPriv: nat, serverPriv: nat)
    ensures var secret := Hash([Dh(multiset{serverPriv, clientPriv}), Pub(clientPriv), Pub(serverPriv)]);
            NewSharedKeys(ServerSide(serverPriv, Pub(clientPriv)).value)
            == SharedKeys(Seeded(FirstHalf(secret)), Seeded(SecondHalf(secret)))
  {
    SecretIs(clientPriv, serverPriv);
  }

  /** Agreement fails exactly for what is not a point, on either side. */
  lemma SecretExistsIff(priv: nat, key: Term)
    ensures ServerSide(priv, key).Some? <==> key.Pub? || key.ForeignPoint?
    ensures ClientSide(priv, key).Some? <==> key.Pub? || key.ForeignPoint?
  {
  }

  /** Both parties derive the same secret, whatever their keys. */
  lemma SecretsAgree(clientPriv: nat, serverPriv: nat)
    ensures ServerSide(serverPriv, Pub(clientPriv)) == ClientSide(clientPriv, Pub(serverPriv))
    ensures ServerSide(serverPriv, Pub(clientPriv)).Some?
  {
    assert multiset{serverPriv, clientPriv} == multiset{clientPriv, serverPriv};
  }

  /** Only the server role orders the keys as the server does: two parties that both take
      their peer for a client agree exactly when they use the same key pair. */
  lemma RolesMatter(a: nat, b: nat)
    ensures ServerSide(a, Pub(b)) == ServerSide(b, Pub(a)) <==> a == b
  {
    if a != b {
      var x, y := ServerSide(a, Pub(b)).value, ServerSide(b, Pub(a)).value;
      assert x.parts[1] == Pub(b) && y.parts[1] == Pub(a);
    }
  }

  /** A fresh server key gives a client key that no other server key can give, and the
      client and server keys of a secret differ. */
  lemma ServerKeyDeterminesKeys(p: nat, p': nat, c: Term, c': Term)
    requires ServerSide(p, c).Some? && ServerSide(p', c').Some?
    ensures var k, k' := NewSharedKeys(ServerSide(p, c).value), NewSharedKeys(ServerSide(p', c').value);
            && (k.clientKey == k'.clientKey <==> p == p' && c == c')
            && k.clientKey != k'.serverKey
  {
    var x, y := ServerSide(p, c).value, ServerSide(p', c').value;
    assert x.parts[1] == c && x.parts[2] == Pub(p);
    assert y.parts[1] == c' && y.parts[2] == Pub(p');
  }
}
