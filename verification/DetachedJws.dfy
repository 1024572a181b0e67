/** Bootstrap tokens (pkg/tokens): their hex form, and their signatures with the payload detached. */
module DetachedJws {
  import opened Core
  import opened Encodings
  import opened Text

  datatype Token = Token(id: seq<byte>, secret: seq<byte>) {
    function HexID(): string { EncodeHex(id) }

    function HexSecret(): string { EncodeHex(secret) }

    function ToHex(): string { HexID() + "." + HexSecret() }

    function ToBootstrapToken(): BootstrapToken {
      BootstrapToken(HexID(), HexSecret(), 0, 0, 0, map[], [])
    }
  }

  const ID_BYTES := 6
  const SECRET_BYTES := 26

  /** The text is two hex strings of the right lengths around one dot, and the token is what they say.
      Hex digits of either case are read. */
  ghost predicate Spells(s: string, t: Token) {
    && |s| == 2 * ID_BYTES + 1 + 2 * SECRET_BYTES && s[2 * ID_BYTES] == '.'
    && DecodeHex(s[..2 * ID_BYTES]) == Some(t.id)
    && DecodeHex(s[2 * ID_BYTES + 1..]) == Some(t.secret)
  }

  method ParseHex(s: string) returns (r: Option<Token>)
    ensures forall t :: r == Some(t) <==> Spells(s, t)
  {
    var parts := Split(s, '.');
    SplitText(s, parts);
    if |parts| != 2 || |parts[0]| != 2 * ID_BYTES || |parts[1]| != 2 * SECRET_BYTES {
      if |s| == 2 * ID_BYTES + 1 + 2 * SECRET_BYTES && s[2 * ID_BYTES] == '.' {
        HexParts(s, 2 * ID_BYTES);
      }
      return None;
    }
    assert s[..2 * ID_BYTES] == parts[0] && s[2 * ID_BYTES + 1..] == parts[1];
    var id := DecodeHex(parts[0]);
    if id.None? {
      return None;
    }
    var secret := DecodeHex(parts[1]);
    if secret.None? {
      return None;
    }
    return Some(Token(id.value, secret.value));
  }

  lemma {:induction false} SplitText(s: string, parts: seq<string>)
    requires parts == Split(s, '.')
    ensures s == Join(parts, '.')
    ensures |parts| == 2 ==> s == parts[0] + "." + parts[1]
  {
    if s != "" {
      var rest := Split(s[1..], '.');
      SplitText(s[1..], rest);
      if s[0] != '.' && |rest| > 1 {
        assert parts[0] + ['.'] + Join(parts[1..], '.') == [s[0]] + (rest[0] + ['.'] + Join(rest[1..], '.'));
      }
    }
  }

  /** Two hex strings around a dot split in just those two. */
  lemma HexParts(s: string, i: nat)
    requires i < |s| && s[i] == '.'
    ensures DecodeHex(s[..i]).Some? && DecodeHex(s[i + 1..]).Some? ==> Split(s, '.') == [s[..i], s[i + 1..]]
  {
    var a, b := s[..i], s[i + 1..];
    if DecodeHex(a).Some? && DecodeHex(b).Some? {
      HexHasNoDot(a);
      HexHasNoDot(b);
      SplitJoin([a, b], '.');
      JoinTwo(a, b, '.');
      CutAt(s, i);
    }
  }

  lemma CutAt(s: string, i: nat)
    requires i < |s|
    ensures s[..i] + [s[i]] + s[i + 1..] == s
  {
  }

  lemma {:induction false} HexHasNoDot(s: string)
    requires DecodeHex(s).Some?
    ensures '.' !in s
  {
    if s != "" {
      HexHasNoDot(s[2..]);
      assert s == s[..2] + s[2..];
    }
  }

  /** Writing a token and reading it back restores exactly the tokens of the fixed lengths. */
  lemma HexTokenRoundTrip(t: Token)
    ensures Spells(t.ToHex(), t) <==> |t.id| == ID_BYTES && |t.secret| == SECRET_BYTES
  {
    HexRoundTrip(t.id);
    HexRoundTrip(t.secret);
    if |t.id| == ID_BYTES && |t.secret| == SECRET_BYTES {
      assert t.ToHex()[..2 * ID_BYTES] == t.HexID();
      assert t.ToHex()[2 * ID_BYTES + 1..] == t.HexSecret();
    }
  }

  /** Reads a stored token; an absent record reads as one whose fields are empty. */
  method FromBootstrapToken(t: Option<BootstrapToken>) returns (r: Option<Token>)
    ensures r == RawToken(t)
  {
    var tokenId := if t.None? then "" else t.value.tokenId;
    var tokenSecret := if t.None? then "" else t.value.secret;
    var id := DecodeHex(tokenId);
    if id.None? {
      return None;
    }
    var secret := DecodeHex(tokenSecret);
    if secret.None? {
      return None;
    }
    return Some(Token(id.value, secret.value));
  }

  function RawToken(t: Option<BootstrapToken>): Option<Token> {
    match t
    case None => Some(Token([], []))
    case Some(b) =>
      if DecodeHex(b.tokenId).Some? && DecodeHex(b.secret).Some?
      then Some(Token(DecodeHex(b.tokenId).value, DecodeHex(b.secret).value))
      else None
  }

  lemma BootstrapTokenRoundTrip(t: Token)
    ensures RawToken(Some(t.ToBootstrapToken())) == Some(t)
  {
    HexRoundTrip(t.id);
    HexRoundTrip(t.secret);
  }

  function FirstDot(s: string): (i: int)
    ensures -1 <= i < |s|
    ensures i == -1 <==> '.' !in s
    ensures i >= 0 ==> s[i] == '.'
    ensures forall k :: 0 <= k < |s| && s[k] == '.' ==> i <= k
  {
    if s == "" then -1
    else if s[0] == '.' then 0
    else
      var i := FirstDot(s[1..]);
      assert forall k :: 1 <= k < |s| ==> s[k] == s[1..][k - 1];
      if i == -1 then -1 else i + 1
  }

  function LastDot(s: string): (i: int)
    ensures -1 <= i < |s|
    ensures i == -1 <==> '.' !in s
    ensures i >= 0 ==> s[i] == '.'
    ensures forall k :: 0 <= k < |s| && s[k] == '.' ==> k <= i
  {
    if s == "" then -1
    else if s[|s| - 1] == '.' then |s| - 1
    else
      assert forall k :: 0 <= k < |s| - 1 ==> s[k] == s[..|s| - 1][k];
      LastDot(s[..|s| - 1])
  }

  /** Keeps the text up to the first dot and from the last one on. */
  function Detach(s: string): string
    requires '.' in s
  {
    s[..FirstDot(s) + 1] + s[LastDot(s)..]
  }

  /** Puts a payload between the first and the last dot. */
  function Attach(s: string, payload: string): string
    requires '.' in s
  {
    s[..FirstDot(s) + 1] + payload + s[LastDot(s)..]
  }

  /** The compact serialization of section 7.1 of RFC 7515. */
  function Compact(header: string, payload: string, signature: string): string {
    header + "." + payload + "." + signature
  }

  lemma DotsOf(header: string, middle: string, signature: string)
    requires '.' !in header && '.' !in signature
    ensures FirstDot(Compact(header, middle, signature)) == |header|
    ensures LastDot(Compact(header, middle, signature)) == |header| + 1 + |middle|
  {
    var s := Compact(header, middle, signature);
    DotsWithin(s, |header|, |header| + 1 + |middle|);
  }

  /** Dots at two places and neither before the first nor after the second. */
  lemma DotsWithin(s: string, i: nat, j: nat)
    requires i <= j < |s| && s[i] == '.' && s[j] == '.'
    requires '.' !in s[..i] && '.' !in s[j + 1..]
    ensures FirstDot(s) == i && LastDot(s) == j
  {
    assert forall k :: 0 <= k < i ==> s[k] == s[..i][k];
    assert forall k :: j < k < |s| ==> s[k] == s[j + 1..][k - j - 1];
  }

  /** Re-attaching the payload rebuilds the original message exactly when neither the header nor
      the signature holds a dot, whatever the payload. */
  lemma ReattachIff(header: string, payload: string, signature: string)
    ensures '.' in Compact(header, payload, signature) && '.' in Detach(Compact(header, payload, signature))
    ensures Attach(Detach(Compact(header, payload, signature)), payload) == Compact(header, payload, signature)
            <==> '.' !in header && '.' !in signature
  {
    var s := Compact(header, payload, signature);
    assert s[|header|] == '.';
    var d := Detach(s);
    assert d[FirstDot(s)] == '.';
    if '.' !in header && '.' !in signature {
      DetachCompact(header, payload, signature);
      AttachIgnoresMiddle(header, "", signature, payload);
    } else {
      DetachedShort(header, payload, signature);
      DetachedDots(s);
      assert |Attach(d, payload)| == |d| + |payload|;
    }
  }

  /** A dot in the header or the signature makes the detached text too short. */
  lemma DetachedShort(header: string, payload: string, signature: string)
    requires '.' in header || '.' in signature
    requires '.' in Compact(header, payload, signature)
    ensures |Detach(Compact(header, payload, signature))| < |header| + 2 + |signature|
  {
    var s := Compact(header, payload, signature);
    var last := |header| + 1 + |payload|;
    assert s[|header|] == '.' && s[last] == '.';
    if '.' in header {
      var k :| 0 <= k < |header| && header[k] == '.';
      assert s[k] == '.';
    } else {
      var k :| 0 <= k < |signature| && signature[k] == '.';
      assert s[last + 1 + k] == '.';
    }
  }

  /** A detached text has its two dots side by side. */
  lemma DetachedDots(s: string)
    requires '.' in s
    ensures '.' in Detach(s)
    ensures FirstDot(Detach(s)) == FirstDot(s) && LastDot(Detach(s)) == FirstDot(s) + 1
  {
    var header, signature := s[..FirstDot(s)], s[LastDot(s) + 1..];
    assert Detach(s) == Compact(header, "", signature);
    assert Detach(s)[FirstDot(s)] == '.';
    DotsOf(header, "", signature);
  }

  /** Attaching ignores whatever already stands between the dots. */
  lemma AttachIgnoresMiddle(header: string, middle: string, signature: string, payload: string)
    requires '.' !in header && '.' !in signature
    ensures '.' in Compact(header, middle, signature)
    ensures Attach(Compact(header, middle, signature), payload) == Compact(header, payload, signature)
  {
    DotsOf(header, middle, signature);
    CompactEnds(header, middle, signature);
  }

  lemma CompactEnds(header: string, middle: string, signature: string)
    ensures var s := Compact(header, middle, signature);
            s[|header|] == '.' && s[..|header| + 1] == header + "." && s[|header| + 1 + |middle|..] == "." + signature
  {
  }

  /** A text with a single dot is treated as one with two. */
  lemma AttachAtSingleDot(header: string, signature: string, payload: string)
    requires '.' !in header && '.' !in signature
    ensures '.' in header + "." + signature
    ensures Attach(header + "." + signature, payload) == Compact(header, payload, signature)
  {
    var s := header + "." + signature;
    assert s[|header|] == '.';
    DotsWithin(s, |header|, |header|);
    assert s[..|header| + 1] == header + ".";
    assert s[|header|..] == "." + signature;
  }

  /** A signing key: the protected header it writes, the JSON form of a token, and its deterministic
      signature of a signing input. A signature is valid when it is the one the key gives. */
  datatype SigningKey = SigningKey(header: seq<byte>, json: Token -> seq<byte>, signature: string -> seq<byte>) {
    function Payload(t: Token): string { Encode64(json(t)) }

    function Input(t: Token): string { Encode64(header) + "." + Payload(t) }

    function Sign(t: Token): string {
      Compact(Encode64(header), Payload(t), Encode64(signature(Input(t))))
    }

    /** The payload of a message of three parts that carries the signature of its first two. */
    function Open(message: string): Option<seq<byte>> {
      var parts := Split(message, '.');
      if |parts| == 3 && Decode64(parts[2]) == Some(signature(parts[0] + "." + parts[1])) then Decode64(parts[1])
      else None
    }
  }

  lemma NoDots(b: seq<byte>)
    ensures '.' !in Encode64(b)
  {
    Encode64Chars(b);
  }

  lemma SplitCompact(header: string, payload: string, signature: string)
    requires '.' !in header && '.' !in payload && '.' !in signature
    ensures Split(Compact(header, payload, signature), '.') == [header, payload, signature]
  {
    var parts := [header, payload, signature];
    SplitJoin(parts, '.');
    assert Join(parts[1..], '.') == payload + "." + signature by {
      assert parts[1..] == [payload, signature];
      assert parts[1..][1..] == [signature];
    }
    assert Join(parts, '.') == Compact(header, payload, signature);
  }

  /** Signs the token and drops the payload; putting the payload back gives the signed message. */
  method SignDetached(t: Token, key: SigningKey) returns (r: string)
    ensures r == Detached(t, key)
    ensures '.' in r && Attach(r, key.Payload(t)) == key.Sign(t)
  {
    DetachedSignature(t, key);
    r := DropPayload(key.Sign(t));
  }

  method DropPayload(sig: string) returns (buf: string)
    requires '.' in sig
    ensures buf == Detach(sig)
  {
    var firstIndex := FirstDot(sig);
    var lastIndex := LastDot(sig);
    buf := "";
    buf := buf + sig[..firstIndex + 1];
    buf := buf + sig[lastIndex..];
  }

  /** A token's signature without the payload, as appendix F of RFC 7515 describes. */
  function Detached(t: Token, key: SigningKey): string {
    Compact(Encode64(key.header), "", Encode64(key.signature(key.Input(t))))
  }

  lemma DetachedSignature(t: Token, key: SigningKey)
    ensures '.' in key.Sign(t) && Detach(key.Sign(t)) == Detached(t, key)
    ensures '.' in Detached(t, key) && Attach(Detached(t, key), key.Payload(t)) == key.Sign(t)
  {
    var header, signature := Encode64(key.header), Encode64(key.signature(key.Input(t)));
    NoDots(key.header);
    NoDots(key.signature(key.Input(t)));
    DetachCompact(header, key.Payload(t), signature);
    AttachIgnoresMiddle(header, "", signature, key.Payload(t));
  }

  lemma DetachCompact(header: string, payload: string, signature: string)
    requires '.' !in header && '.' !in signature
    ensures '.' in Compact(header, payload, signature)
    ensures Detach(Compact(header, payload, signature)) == Compact(header, "", signature)
  {
    assert Compact(header, payload, signature)[|header|] == '.';
    DotsOf(header, payload, signature);
  }

  function Verified(t: Token, sig: string, key: SigningKey): Option<string> {
    if '.' in sig && key.Open(Attach(sig, key.Payload(t))).Some? then Some(Attach(sig, key.Payload(t))) else None
  }

  method VerifyDetached(t: Token, sig: string, key: SigningKey) returns (r: Option<string>)
    ensures r == Verified(t, sig, key)
  {
    var firstIndex := FirstDot(sig);
    var lastIndex := LastDot(sig);
    if firstIndex == -1 || lastIndex == -1 {
      return None;
    }
    var buf := "";
    buf := buf + sig[..firstIndex + 1];
    buf := buf + key.Payload(t);
    buf := buf + sig[lastIndex..];
    assert buf == Attach(sig, key.Payload(t));
    if key.Open(buf).None? {
      return None;
    }
    return Some(buf);
  }

  /** The detached signature made for one token verifies for another exactly when the key signs both
      alike, and the message it then gives is the other's own signed message. */
  lemma VerifiesIff(signed: Token, held: Token, key: SigningKey)
    ensures Verified(held, Detached(signed, key), key)
            == if key.signature(key.Input(signed)) == key.signature(key.Input(held)) then Some(key.Sign(held)) else None
  {
    var header, signature := Encode64(key.header), Encode64(key.signature(key.Input(signed)));
    NoDots(key.header);
    NoDots(key.json(held));
    NoDots(key.signature(key.Input(signed)));
    AttachIgnoresMiddle(header, "", signature, key.Payload(held));
    SplitCompact(header, key.Payload(held), signature);
    Base64RoundTrip(key.json(held));
    Base64RoundTrip(key.signature(key.Input(signed)));
  }

  /** A signed message opens to the token it was made for. */
  lemma SignedOpens(t: Token, key: SigningKey)
    ensures key.Open(key.Sign(t)) == Some(key.json(t))
  {
    NoDots(key.header);
    NoDots(key.json(t));
    NoDots(key.signature(key.Input(t)));
    SplitCompact(Encode64(key.header), key.Payload(t), Encode64(key.signature(key.Input(t))));
    Base64RoundTrip(key.json(t));
    Base64RoundTrip(key.signature(key.Input(t)));
  }
}
