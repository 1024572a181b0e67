/** The MAC authorization header (pkg/b2mac/header.go). */
module AuthHeader {
  import opened Core
  import opened Text
  import opened Encodings

  type Uuid = u: seq<byte> | |u| == 16 witness [0, 0, 0, 0, 0, 0, 0, 0, 0, 0, 0, 0, 0, 0, 0, 0]

  const NIL_UUID: Uuid := [0, 0, 0, 0, 0, 0, 0, 0, 0, 0, 0, 0, 0, 0, 0, 0]

  /** Version 4 (section 4.4 of RFC 4122) and the variant of that document. */
  predicate IsV4(u: Uuid) { u[6] / 16 == 4 && u[8] / 64 == 2 }

  /** The textual form of section 3 of RFC 4122. */
  function UuidText(u: Uuid): string {
    EncodeHex(u[..4]) + "-" + EncodeHex(u[4..6]) + "-" + EncodeHex(u[6..8]) + "-"
    + EncodeHex(u[8..10]) + "-" + EncodeHex(u[10..])
  }

  function Lower(c: char): char { if 'A' <= c <= 'Z' then (c as int + 32) as char else c }

  function LowerAll(s: string): string { seq(|s|, i requires 0 <= i < |s| => Lower(s[i])) }

  function ParseDashed(s: string): Option<Uuid>
    requires |s| == 36
  {
    if s[8] != '-' || s[13] != '-' || s[18] != '-' || s[23] != '-' then None
    else DecodeHex(s[..8] + s[9..13] + s[14..18] + s[19..23] + s[24..])
  }

  /** Accepts the dashed form bare, with a urn prefix or in one delimiter pair, and 32 bare digits. */
  function ParseUuid(s: string): Option<Uuid> {
    if |s| == 36 then ParseDashed(s)
    else if |s| == 45 then (if LowerAll(s[..9]) != "urn:uuid:" then None else ParseDashed(s[9..]))
    else if |s| == 38 then ParseDashed(s[1..37])
    else if |s| == 32 then DecodeHex(s)
    else None
  }

  datatype HeaderError =
    | NotV4Nonce | WrongType | MalformedPair | NotQuoted | DuplicateKey | UnknownKey
    | MalformedId | MalformedNonce | MalformedMac | MissingId | MissingNonce | MissingMac

  datatype Encoded = Header(text: string) | EncodeFailed(error: HeaderError)

  datatype Decoded = Credentials(id: seq<byte>, nonce: Uuid, mac: seq<byte>) | DecodeFailed(error: HeaderError)

  function Quoted(key: string, value: string): string { key + "=\"" + value + "\"" }

  function EncodeAuthHeader(id: seq<byte>, nonce: Uuid, mac: seq<byte>): Encoded {
    if !IsV4(nonce) then EncodeFailed(NotV4Nonce)
    else
      Header("MAC " + Quoted("id", Encode64(id)) + "," + Quoted("nonce", UuidText(nonce))
             + "," + Quoted("mac", Encode64(mac)))
  }

  datatype Pair = Pair(key: string, value: string) | BadPair(error: HeaderError)

  /** One `key="value"` element: one equals sign, a quoted value, white space allowed around the key. */
  function ParsePair(text: string): Pair {
    var kv := Split(text, '=');
    if |kv| != 2 then BadPair(MalformedPair)
    else if |kv[1]| < 2 || kv[1][0] != '"' || kv[1][|kv[1]| - 1] != '"' then BadPair(NotQuoted)
    else Pair(TrimSpace(kv[0]), kv[1][1..|kv[1]| - 1])
  }

  predicate HasMacPrefix(header: string) { |header| >= 4 && header[..4] == "MAC " }

  function Pairs(header: string): seq<string>
    requires HasMacPrefix(header)
  {
    Split(TrimSpace(header[3..]), ',')
  }

  datatype FieldName = IdKey | NonceKey | MacKey | OtherKey

  function KeyOf(name: string): FieldName {
    if name == "id" then IdKey else if name == "nonce" then NonceKey else if name == "mac" then MacKey else OtherKey
  }

  /** What one element contributes. */
  datatype Field = IdField(id: seq<byte>) | NonceField(nonce: Uuid) | MacField(mac: seq<byte>) | NoField

  function FieldOf(key: FieldName, value: string): Field {
    match key
    case IdKey => (match Decode64(value) case Some(b) => IdField(b) case None => NoField)
    case NonceKey =>
      (match ParseUuid(value) case Some(u) => if IsV4(u) then NonceField(u) else NoField case None => NoField)
    case MacKey => (match Decode64(value) case Some(b) => MacField(b) case None => NoField)
    case OtherKey => NoField
  }

  function ParseField(text: string): Field {
    match ParsePair(text)
    case BadPair(_) => NoField
    case Pair(key, value) => FieldOf(KeyOf(key), value)
  }

  function ParseFields(texts: seq<string>): (fs: seq<Field>)
    ensures |fs| == |texts| && forall i :: 0 <= i < |fs| ==> fs[i] == ParseField(texts[i])
  {
    if texts == [] then [] else ParseFields(texts[..|texts| - 1]) + [ParseField(texts[|texts| - 1])]
  }

  /** Exactly an id, a nonce and a MAC, in some order. */
  ghost predicate Carries(fs: seq<Field>, id: seq<byte>, nonce: Uuid, mac: seq<byte>) {
    |fs| == 3 && IdField(id) in fs && NonceField(nonce) in fs && MacField(mac) in fs
  }

  /** The header carries these credentials, and the id and the MAC are not empty. */
  ghost predicate Denotes(header: string, id: seq<byte>, nonce: Uuid, mac: seq<byte>) {
    HasMacPrefix(header) && id != [] && mac != [] && Carries(ParseFields(Pairs(header)), id, nonce, mac)
  }

  predicate SameKind(f: Field, g: Field) {
    (f.IdField? && g.IdField?) || (f.NonceField? && g.NonceField?) || (f.MacField? && g.MacField?)
  }

  /** In an accepted header every element has a known key and a decodable value, no two elements
      have the same key, and the credentials are determined. */
  lemma EachKeyOnce(fs: seq<Field>, id: seq<byte>, nonce: Uuid, mac: seq<byte>)
    requires Carries(fs, id, nonce, mac)
    ensures forall p :: 0 <= p < |fs| ==> fs[p] in [IdField(id), NonceField(nonce), MacField(mac)]
    ensures forall p, q :: 0 <= p < q < |fs| ==> !SameKind(fs[p], fs[q])
  {
    var a :| 0 <= a < 3 && fs[a] == IdField(id);
    var b :| 0 <= b < 3 && fs[b] == NonceField(nonce);
    var c :| 0 <= c < 3 && fs[c] == MacField(mac);
    assert a != b && a != c && b != c;
    forall p | 0 <= p < 3 ensures fs[p] in [IdField(id), NonceField(nonce), MacField(mac)] {
      assert p == a || p == b || p == c;
    }
  }

  lemma CarriedOnce(fs: seq<Field>, id: seq<byte>, nonce: Uuid, mac: seq<byte>,
                    id': seq<byte>, nonce': Uuid, mac': seq<byte>)
    requires Carries(fs, id, nonce, mac) && Carries(fs, id', nonce', mac')
    ensures id == id' && nonce == nonce' && mac == mac'
  {
    EachKeyOnce(fs, id, nonce, mac);
  }

  /** An element that contributes nothing, or a second one of a kind, spoils the header. */
  lemma Spoilt(fs: seq<Field>, p: nat, q: nat)
    requires q < |fs| && (fs[q] == NoField || (p < q && SameKind(fs[p], fs[q])))
    ensures forall id, nonce, mac :: !Carries(fs, id, nonce, mac)
  {
    forall id, nonce, mac ensures !Carries(fs, id, nonce, mac) {
      if Carries(fs, id, nonce, mac) {
        EachKeyOnce(fs, id, nonce, mac);
      }
    }
  }

  function One(b: bool): nat { if b then 1 else 0 }

  /** What the decoding loop knows after the fields `done`. */
  ghost predicate Progress(done: seq<Field>, found: set<FieldName>, id: seq<byte>, nonce: Uuid, mac: seq<byte>) {
    && OtherKey !in found
    && |done| == One(IdKey in found) + One(NonceKey in found) + One(MacKey in found)
    && (IdKey in found <==> IdField(id) in done)
    && (NonceKey in found <==> NonceField(nonce) in done)
    && (MacKey in found <==> MacField(mac) in done)
    && (forall f :: f in done ==> f == IdField(id) || f == NonceField(nonce) || f == MacField(mac))
    && (IdKey !in found ==> id == []) && (NonceKey in found <==> nonce != NIL_UUID) && (MacKey !in found ==> mac == [])
  }

  /** Why a value cannot be the value of a key. */
  function FieldError(key: FieldName, value: string): Option<HeaderError> {
    match key
    case IdKey => if Decode64(value).None? then Some(MalformedId) else None
    case NonceKey =>
      (match ParseUuid(value)
       case None => Some(MalformedNonce)
       case Some(u) => if IsV4(u) then None else Some(NotV4Nonce))
    case MacKey => if Decode64(value).None? then Some(MalformedMac) else None
    case OtherKey => Some(UnknownKey)
  }

  /** One element, read after elements with the keys `found`. */
  datatype Element = Good(key: FieldName, field: Field) | Bad(error: HeaderError)

  function ElementOf(text: string, found: set<FieldName>): Element {
    match ParsePair(text)
    case BadPair(e) => Bad(e)
    case Pair(name, value) =>
      var key := KeyOf(name);
      if key in found then Bad(DuplicateKey)
      else if FieldError(key, value).Some? then Bad(FieldError(key, value).value)
      else Good(key, FieldOf(key, value))
  }

  /** The key of an element, if it has one. */
  function KeyOfText(text: string): set<FieldName> {
    match ParsePair(text)
    case Pair(name, _) => {KeyOf(name)}
    case BadPair(_) => {}
  }

  /** The keys of the elements, as far as they have one. */
  function KeysOf(texts: seq<string>): set<FieldName> {
    if texts == [] then {} else KeysOf(texts[..|texts| - 1]) + KeyOfText(texts[|texts| - 1])
  }

  lemma KeysOneMore(texts: seq<string>, i: nat)
    requires i < |texts|
    ensures KeysOf(texts[..i + 1]) == KeysOf(texts[..i]) + KeyOfText(texts[i])
  {
    assert texts[..i + 1][..i] == texts[..i];
  }

  /** What a good and a bad element mean for the field it contributes. */
  lemma ElementFacts(text: string, found: set<FieldName>)
    ensures var e, f := ElementOf(text, found), ParseField(text);
            && (e.Good? ==> && e.field == f && f != NoField && FieldKey(f) == e.key && e.key !in found
                            && KeyOfText(text) == {e.key} && (f.NonceField? ==> f.nonce != NIL_UUID))
            && (e.Bad? ==> f == NoField || FieldKey(f) in found)
  {
  }

  /** What is wrong with element i, given the elements before it. */
  function ErrorAt(texts: seq<string>, i: nat): Option<HeaderError>
    requires i < |texts|
  {
    match ElementOf(texts[i], KeysOf(texts[..i]))
    case Good(_, _) => None
    case Bad(e) => Some(e)
  }

  ghost predicate NoErrorsBefore(texts: seq<string>, i: nat)
    requires i <= |texts|
  {
    forall j :: 0 <= j < i ==> ErrorAt(texts, j).None?
  }

  ghost predicate NoErrors(texts: seq<string>) { NoErrorsBefore(texts, |texts|) }

  /** The first bad element has this error. */
  ghost predicate FirstError(texts: seq<string>, e: HeaderError) {
    exists i :: 0 <= i < |texts| && ErrorAt(texts, i) == Some(e) && NoErrorsBefore(texts, i)
  }

  /** The header fails with this error: the wrong scheme; or that of its first bad element; or, where no
      element is bad, a missing MAC, else a missing nonce, else a missing id. */
  ghost predicate FailsWith(header: string, e: HeaderError) {
    if !HasMacPrefix(header) then e == WrongType
    else
      || FirstError(Pairs(header), e)
      || (NoErrors(Pairs(header)) && e == Missing(ParseFields(Pairs(header))))
  }

  /** Which part fields without errors lack, the MAC first. */
  ghost function Missing(fs: seq<Field>): HeaderError {
    if !exists mac :: mac != [] && MacField(mac) in fs then MissingMac
    else if !exists nonce :: NonceField(nonce) in fs then MissingNonce
    else MissingId
  }

  method DecodeElement(text: string, found: set<FieldName>) returns (r: Element)
    ensures r == ElementOf(text, found)
  {
    var p := ParsePair(text);
    if p.BadPair? {
      return Bad(p.error);
    }
    var key := KeyOf(p.key);
    if key in found {
      return Bad(DuplicateKey);
    }
    match key {
      case IdKey =>
        var d := Decode64(p.value);
        if d.None? {
          return Bad(MalformedId);
        }
        return Good(key, IdField(d.value));
      case NonceKey =>
        var d := ParseUuid(p.value);
        if d.None? {
          return Bad(MalformedNonce);
        }
        if !IsV4(d.value) {
          return Bad(NotV4Nonce);
        }
        return Good(key, NonceField(d.value));
      case MacKey =>
        var d := Decode64(p.value);
        if d.None? {
          return Bad(MalformedMac);
        }
        return Good(key, MacField(d.value));
      case OtherKey =>
        return Bad(UnknownKey);
    }
  }

  /** The state of the decoding loop. */
  datatype Reader = Reader(found: set<FieldName>, id: seq<byte>, nonce: Uuid, mac: seq<byte>)

  /** What the loop knows after i elements. */
  ghost predicate ReaderAt(texts: seq<string>, i: nat, s: Reader) {
    && i <= |texts| && s.found == KeysOf(texts[..i]) && NoErrorsBefore(texts, i)
    && Progress(ParseFields(texts)[..i], s.found, s.id, s.nonce, s.mac)
  }

  /** One round of the loop: the next element is taken in, or ends it. */
  method DecodeNext(kvPairs: seq<string>, i: nat, s: Reader) returns (error: Option<HeaderError>, s': Reader)
    requires i < |kvPairs| && ReaderAt(kvPairs, i, s)
    ensures error.None? ==> ReaderAt(kvPairs, i + 1, s')
    ensures error.Some? ==> FirstError(kvPairs, error.value)
    ensures error.Some? ==> forall id, nonce, mac :: !Carries(ParseFields(kvPairs), id, nonce, mac)
  {
    s' := s;
    var e := DecodeElement(kvPairs[i], s.found);
    ghost var fs := ParseFields(kvPairs);
    ElementFacts(kvPairs[i], s.found);
    if e.Bad? {
      assert ErrorAt(kvPairs, i) == Some(e.error);
      BadField(fs, i, s.found, s.id, s.nonce, s.mac);
      return Some(e.error), s';
    }
    KeysOneMore(kvPairs, i);
    ProgressStep(fs, i, e.key, s.found, s.id, s.nonce, s.mac);
    s' := s.(found := s.found + {e.key});
    match e.field {
      case IdField(d) => s' := s'.(id := d);
      case NonceField(d) => s' := s'.(nonce := d);
      case MacField(d) => s' := s'.(mac := d);
      case NoField =>
    }
    return None, s';
  }

  /** The elements from first to last, up to the first bad one. */
  method DecodeElements(kvPairs: seq<string>) returns (error: Option<HeaderError>, s: Reader)
    ensures error.Some? ==> FirstError(kvPairs, error.value)
    ensures error.Some? ==> forall id, nonce, mac :: !Carries(ParseFields(kvPairs), id, nonce, mac)
    ensures error.None? ==> ReaderAt(kvPairs, |kvPairs|, s)
  {
    s := Reader({}, [], NIL_UUID, []);
    for i := 0 to |kvPairs|
      invariant ReaderAt(kvPairs, i, s)
    {
      error, s := DecodeNext(kvPairs, i, s);
      if error.Some? {
        return;
      }
    }
    error := None;
  }

  /** Decodes exactly the headers that carry credentials, and otherwise says what is wrong first. */
  method DecodeAuthHeader(header: string) returns (r: Decoded)
    ensures forall id, nonce, mac :: r == Credentials(id, nonce, mac) <==> Denotes(header, id, nonce, mac)
    ensures r.DecodeFailed? ==> FailsWith(header, r.error)
  {
    if !HasMacPrefix(header) {
      return DecodeFailed(WrongType);
    }
    var kvPairs := Pairs(header);
    var error, s := DecodeElements(kvPairs);
    if error.Some? {
      return DecodeFailed(error.value);
    }
    var id, nonce, mac := s.id, s.nonce, s.mac;
    AllRead(kvPairs, s);
    Finished(ParseFields(kvPairs), s.found, id, nonce, mac);
    if |mac| == 0 {
      return DecodeFailed(MissingMac);
    }
    if nonce == NIL_UUID {
      return DecodeFailed(MissingNonce);
    }
    if |id| == 0 {
      return DecodeFailed(MissingId);
    }
    return Credentials(id, nonce, mac);
  }

  lemma AllRead(texts: seq<string>, s: Reader)
    requires ReaderAt(texts, |texts|, s)
    ensures NoErrors(texts) && Progress(ParseFields(texts), s.found, s.id, s.nonce, s.mac)
  {
    var fs := ParseFields(texts);
    assert fs[..|texts|] == fs;
  }

  /** The key under which a field is found. */
  function FieldKey(f: Field): FieldName {
    match f
    case IdField(_) => IdKey
    case NonceField(_) => NonceKey
    case MacField(_) => MacKey
    case NoField => OtherKey
  }

  lemma ProgressStep(fs: seq<Field>, i: nat, key: FieldName, found: set<FieldName>, id: seq<byte>, nonce: Uuid,
                     mac: seq<byte>)
    requires i < |fs| && Progress(fs[..i], found, id, nonce, mac) && FieldKey(fs[i]) == key
    requires key !in found && fs[i] != NoField && (fs[i].NonceField? ==> fs[i].nonce != NIL_UUID)
    ensures Progress(fs[..i + 1], found + {key},
                     if fs[i].IdField? then fs[i].id else id,
                     if fs[i].NonceField? then fs[i].nonce else nonce,
                     if fs[i].MacField? then fs[i].mac else mac)
  {
    var done, more := fs[..i], fs[..i + 1];
    assert more == done + [fs[i]];
    assert forall f :: f in more <==> f in done || f == fs[i];
  }

  /** A field that is none, or whose key was found before, spoils the header. */
  lemma BadField(fs: seq<Field>, i: nat, found: set<FieldName>, id: seq<byte>, nonce: Uuid, mac: seq<byte>)
    requires i < |fs| && Progress(fs[..i], found, id, nonce, mac) && (fs[i] == NoField || FieldKey(fs[i]) in found)
    ensures forall id, nonce, mac :: !Carries(fs, id, nonce, mac)
  {
    if fs[i] == NoField {
      Spoilt(fs, i, i);
    } else {
      var g := if fs[i].IdField? then IdField(id) else if fs[i].NonceField? then NonceField(nonce) else MacField(mac);
      var p :| 0 <= p < |fs[..i]| && fs[..i][p] == g;
      assert fs[p] == g;
      Spoilt(fs, p, i);
    }
  }

  lemma Finished(fs: seq<Field>, found: set<FieldName>, id: seq<byte>, nonce: Uuid, mac: seq<byte>)
    requires Progress(fs, found, id, nonce, mac)
    ensures id != [] && nonce != NIL_UUID && mac != [] ==> Carries(fs, id, nonce, mac)
    ensures forall i', n', m' :: Carries(fs, i', n', m') ==>
              i' == id && n' == nonce && m' == mac && nonce != NIL_UUID
    ensures mac == [] ==> Missing(fs) == MissingMac
    ensures mac != [] && nonce == NIL_UUID ==> Missing(fs) == MissingNonce
    ensures mac != [] && nonce != NIL_UUID && id == [] ==> Missing(fs) == MissingId
  {
    forall i', n', m' | Carries(fs, i', n', m')
      ensures i' == id && n' == nonce && m' == mac && nonce != NIL_UUID
    {
      EachKeyOnce(fs, i', n', m');
    }
  }

  predicate PlainChar(c: char) { InAlphabet(c) || HexValue(c).Some? }

  /** A quoted element with a plain key and value splits into them. */
  lemma QuotedParses(key: string, value: string)
    requires Trim(key) && '=' !in key && ',' !in key && forall c :: c in value ==> PlainChar(c)
    ensures ParsePair(Quoted(key, value)) == Pair(key, value)
    ensures ',' !in Quoted(key, value)
  {
    var q := "\"" + value + "\"";
    assert '=' !in value && ',' !in value;
    assert Free([key, q], '=');
    JoinTwo(key, q, '=');
    assert Quoted(key, value) == key + ['='] + q;
    SplitJoin([key, q], '=');
    TrimSpaceProperties(key);
    assert q[1..|q| - 1] == value;
  }

  lemma JoinThree(a: string, b: string, c: string, sep: char)
    ensures Join([a, b, c], sep) == a + [sep] + (b + [sep] + c)
  {
    assert [a, b, c][1..] == [b, c];
    JoinTwo(b, c, sep);
  }

  lemma UuidTextSlices(u: Uuid)
    ensures var s := UuidText(u);
            && |s| == 36 && s[8] == '-' && s[13] == '-' && s[18] == '-' && s[23] == '-'
            && s[..8] == EncodeHex(u[..4]) && s[9..13] == EncodeHex(u[4..6]) && s[14..18] == EncodeHex(u[6..8])
            && s[19..23] == EncodeHex(u[8..10]) && s[24..] == EncodeHex(u[10..])
  {
    var a, b, c := EncodeHex(u[..4]), EncodeHex(u[4..6]), EncodeHex(u[6..8]);
    var d, e := EncodeHex(u[8..10]), EncodeHex(u[10..]);
    var p, q, r := a + "-" + b, a + "-" + b + "-" + c, a + "-" + b + "-" + c + "-" + d;
    Dash(a, b, p);
    Dash(p, c, q);
    Dash(q, d, r);
    Dash(r, e, UuidText(u));
  }

  /** Appending a dash and more text keeps every piece of what was there. */
  lemma Dash(p: string, q: string, s: string)
    requires s == p + "-" + q
    ensures |s| == |p| + 1 + |q| && s[..|p|] == p && s[|p|] == '-' && s[|p| + 1..] == q
    ensures forall k :: 0 <= k < |p| ==> s[k] == p[k]
    ensures forall i, j :: 0 <= i <= j <= |p| ==> s[i..j] == p[i..j]
  {
  }

  lemma HexPieces(u: Uuid)
    ensures EncodeHex(u[..4]) + EncodeHex(u[4..6]) + EncodeHex(u[6..8]) + EncodeHex(u[8..10]) + EncodeHex(u[10..])
            == EncodeHex(u)
  {
    EncodeHexConcat(u[..4], u[4..6]);
    assert u[..4] + u[4..6] == u[..6];
    EncodeHexConcat(u[..6], u[6..8]);
    assert u[..6] + u[6..8] == u[..8];
    EncodeHexConcat(u[..8], u[8..10]);
    assert u[..8] + u[8..10] == u[..10];
    EncodeHexConcat(u[..10], u[10..]);
    assert u[..10] + u[10..] == u;
  }

  lemma UuidRoundTrip(u: Uuid)
    ensures ParseUuid(UuidText(u)) == Some(u)
  {
    UuidTextSlices(u);
    HexPieces(u);
    HexRoundTrip(u);
  }

  lemma UuidTextPlain(u: Uuid)
    ensures forall c :: c in UuidText(u) ==> PlainChar(c)
  {
    HexRoundTrip(u[..4]);
    HexRoundTrip(u[4..6]);
    HexRoundTrip(u[6..8]);
    HexRoundTrip(u[8..10]);
    HexRoundTrip(u[10..]);
  }

  /** The text of three elements in a given order. */
  function HeaderOf(a: string, b: string, c: string): string { "MAC " + Join([a, b, c], ',') }

  lemma HeaderOfPairs(a: string, b: string, c: string)
    requires a != "" && c != "" && ',' !in a && ',' !in b && ',' !in c
    requires !IsSpace(a[0]) && !IsSpace(c[|c| - 1])
    ensures HasMacPrefix(HeaderOf(a, b, c)) && Pairs(HeaderOf(a, b, c)) == [a, b, c]
  {
    var h, t := HeaderOf(a, b, c), Join([a, b, c], ',');
    JoinThree(a, b, c, ',');
    assert h[..4] == "MAC ";
    assert h[3..] == " " + t;
    assert (" " + t)[1..] == t;
    assert Trim(t);
    TrimSpaceProperties(t);
    assert TrimLeft(" " + t) == TrimLeft(t);
    SplitJoin([a, b, c], ',');
  }

  function IdText(id: seq<byte>): string { Quoted("id", Encode64(id)) }
  function NonceText(nonce: Uuid): string { Quoted("nonce", UuidText(nonce)) }
  function MacText(mac: seq<byte>): string { Quoted("mac", Encode64(mac)) }

  /** An element that starts and ends with a visible character and holds no comma. */
  predicate Visible(t: string) {
    t != "" && ',' !in t && !IsSpace(t[0]) && !IsSpace(t[|t| - 1])
  }

  lemma IdElement(id: seq<byte>)
    ensures Visible(IdText(id)) && ParseField(IdText(id)) == IdField(id)
  {
    Encode64Chars(id);
    Base64RoundTrip(id);
    QuotedParses("id", Encode64(id));
    assert IdText(id)[0] == 'i';
  }

  lemma NonceElement(nonce: Uuid)
    requires IsV4(nonce)
    ensures Visible(NonceText(nonce)) && ParseField(NonceText(nonce)) == NonceField(nonce)
  {
    UuidTextPlain(nonce);
    UuidRoundTrip(nonce);
    QuotedParses("nonce", UuidText(nonce));
    assert NonceText(nonce)[0] == 'n';
  }

  lemma MacElement(mac: seq<byte>)
    ensures Visible(MacText(mac)) && ParseField(MacText(mac)) == MacField(mac)
  {
    Encode64Chars(mac);
    Base64RoundTrip(mac);
    QuotedParses("mac", Encode64(mac));
    assert MacText(mac)[0] == 'm';
  }

  /** An order of three things. */
  predicate IsOrder(i: nat, j: nat, k: nat) {
    i < 3 && j < 3 && k < 3 && i != j && i != k && j != k
  }

  /** For every non-empty id, version 4 nonce and non-empty MAC, and in any order of the
      three elements, the header carries exactly those credentials. */
  lemma DecodesInAnyOrder(id: seq<byte>, nonce: Uuid, mac: seq<byte>, i: nat, j: nat, k: nat)
    requires id != [] && IsV4(nonce) && mac != [] && IsOrder(i, j, k)
    ensures var texts := [IdText(id), NonceText(nonce), MacText(mac)];
            Denotes(HeaderOf(texts[i], texts[j], texts[k]), id, nonce, mac)
  {
    var texts := [IdText(id), NonceText(nonce), MacText(mac)];
    var gs := [IdField(id), NonceField(nonce), MacField(mac)];
    ElementAt(id, nonce, mac, i);
    ElementAt(id, nonce, mac, j);
    ElementAt(id, nonce, mac, k);
    HeaderOfPairs(texts[i], texts[j], texts[k]);
    Rearranged(ParseFields([texts[i], texts[j], texts[k]]), gs, i, j, k);
  }

  lemma ElementAt(id: seq<byte>, nonce: Uuid, mac: seq<byte>, i: nat)
    requires IsV4(nonce) && i < 3
    ensures var text := [IdText(id), NonceText(nonce), MacText(mac)][i];
            Visible(text) && ParseField(text) == [IdField(id), NonceField(nonce), MacField(mac)][i]
  {
    if i == 0 {
      IdElement(id);
    } else if i == 1 {
      NonceElement(nonce);
    } else {
      MacElement(mac);
    }
  }

  lemma Rearranged<T>(s: seq<T>, t: seq<T>, i: nat, j: nat, k: nat)
    requires |s| == 3 && |t| == 3 && IsOrder(i, j, k) && s[0] == t[i] && s[1] == t[j] && s[2] == t[k]
    ensures t[0] in s && t[1] in s && t[2] in s
  {
  }

  /** Encoding then decoding, for every id, nonce and MAC: the encoder refuses exactly the nonces
      that are not version 4, and what it produces decodes exactly when id and MAC are not empty. */
  lemma EncodeThenDecode(id: seq<byte>, nonce: Uuid, mac: seq<byte>)
    ensures EncodeAuthHeader(id, nonce, mac).Header? <==> IsV4(nonce)
    ensures IsV4(nonce) ==> (Denotes(EncodeAuthHeader(id, nonce, mac).text, id, nonce, mac) <==> id != [] && mac != [])
  {
    if IsV4(nonce) && id != [] && mac != [] {
      var x, y, z := IdText(id), NonceText(nonce), MacText(mac);
      DecodesInAnyOrder(id, nonce, mac, 0, 1, 2);
      EncodedText(x, y, z);
    }
  }

  lemma EncodedText(x: string, y: string, z: string)
    ensures "MAC " + x + "," + y + "," + z == HeaderOf(x, y, z)
  {
    JoinThree(x, y, z, ',');
    assert "MAC " + x + "," + y + "," + z == "MAC " + (x + [','] + (y + [','] + z));
  }

  // ---------------------------------------------------------------- what the parts mean

  /** Version 4 and the variant of RFC 4122 show in the text: a 4 at the head of the third group, and one
      of 8, 9, a and b at the head of the fourth. */
  lemma V4Text(u: Uuid)
    ensures |UuidText(u)| == 36
    ensures IsV4(u) <==> UuidText(u)[14] == '4' && UuidText(u)[19] in "89ab"
  {
    UuidTextSlices(u);
    var s := UuidText(u);
    assert s[14] == s[14..18][0] == HexDigit(u[6] / 16) by {
      assert u[6..8][0] == u[6];
    }
    assert s[19] == s[19..23][0] == HexDigit(u[8] / 16) by {
      assert u[8..10][0] == u[8];
    }
    HexDigitsMean('4');
    EightToEleven(u[8] / 16);
  }

  lemma EightToEleven(v: int)
    requires 0 <= v < 16
    ensures HexDigit(v) in "89ab" <==> 8 <= v <= 11
  {
    var digits := "89ab";
    assert digits[0] == '8' && digits[1] == '9' && digits[2] == 'a' && digits[3] == 'b';
  }

  /** A nonce is also read from 32 bare digits. */
  lemma UuidBareForm(u: Uuid)
    ensures ParseUuid(EncodeHex(u)) == Some(u)
  {
    HexRoundTrip(u);
  }

  /** Also from its text between two delimiters, whatever these are. */
  lemma UuidEnclosedForm(u: Uuid, open: char, close: char)
    ensures ParseUuid([open] + UuidText(u) + [close]) == Some(u)
  {
    UuidRoundTrip(u);
    var s := [open] + UuidText(u) + [close];
    assert |s| == 38 by { UuidTextSlices(u); }
    assert s[1..37] == UuidText(u);
  }

  /** The characters of the urn prefix, in both cases. */
  const URN := ["uU", "rR", "nN", ":", "uU", "uU", "iI", "dD", ":"]

  /** And from its text after a urn prefix, each of its letters in either case. */
  lemma UuidUrnForm(u: Uuid, prefix: string)
    requires |prefix| == 9 && forall i :: 0 <= i < 9 ==> prefix[i] in URN[i]
    ensures ParseUuid(prefix + UuidText(u)) == Some(u)
  {
    UuidRoundTrip(u);
    UuidTextSlices(u);
    var s := prefix + UuidText(u);
    assert s[..9] == prefix && s[9..] == UuidText(u);
    UrnLowers(prefix);
  }

  lemma UrnLowers(prefix: string)
    requires |prefix| == 9 && forall i :: 0 <= i < 9 ==> prefix[i] in URN[i]
    ensures LowerAll(prefix) == "urn:uuid:"
  {
    assert prefix[0] in URN[0] && prefix[1] in URN[1] && prefix[2] in URN[2] && prefix[3] in URN[3];
    assert prefix[4] in URN[4] && prefix[5] in URN[5] && prefix[6] in URN[6] && prefix[7] in URN[7];
    assert prefix[8] in URN[8];
  }

  /** Which error an element gives, each from what is wrong with it and in this order. */
  lemma ElementErrors(text: string, found: set<FieldName>)
    ensures var p, e := ParsePair(text), ElementOf(text, found);
            var key := if p.Pair? then KeyOf(p.key) else OtherKey;
            && (p.BadPair? ==> e == Bad(p.error))
            && (e == Bad(DuplicateKey) <==> p.Pair? && key in found)
            && (e == Bad(UnknownKey) <==> p.Pair? && key !in found && p.key !in {"id", "nonce", "mac"})
            && (e == Bad(MalformedId) <==> p.Pair? && key !in found && p.key == "id" && Decode64(p.value).None?)
            && (e == Bad(MalformedMac) <==> p.Pair? && key !in found && p.key == "mac" && Decode64(p.value).None?)
            && (e == Bad(MalformedNonce) <==> p.Pair? && key !in found && p.key == "nonce" && ParseUuid(p.value).None?)
            && (e == Bad(NotV4Nonce) <==>
                  && p.Pair? && key !in found && p.key == "nonce"
                  && ParseUuid(p.value).Some? && !IsV4(ParseUuid(p.value).value))
  {
    PairErrors(text);
  }

  /** A pair is bad exactly when it does not have one equals sign, or its value is not in quotes. */
  lemma PairErrors(text: string)
    ensures var kv := Split(text, '=');
            && (ParsePair(text) == BadPair(MalformedPair) <==> |kv| != 2)
            && (ParsePair(text) == BadPair(NotQuoted) <==>
                  && |kv| == 2
                  && !(|kv[1]| >= 2 && kv[1][0] == '"' && kv[1][|kv[1]| - 1] == '"'))
            && (ParsePair(text).Pair? ==>
                  && |kv| == 2 && ParsePair(text).key == TrimSpace(kv[0])
                  && kv[1] == "\"" + ParsePair(text).value + "\"")
  {
  }

  /** The scheme is at fault exactly when the header does not begin with it and a space. */
  lemma WrongTypeIff(header: string)
    ensures FailsWith(header, WrongType) <==> !("MAC " <= header)
  {
    if HasMacPrefix(header) && FirstError(Pairs(header), WrongType) {
      var texts := Pairs(header);
      var i :| 0 <= i < |texts| && ErrorAt(texts, i) == Some(WrongType) && NoErrorsBefore(texts, i);
      ElementErrors(texts[i], KeysOf(texts[..i]));
    }
  }

  lemma OneFirstError(texts: seq<string>, e: HeaderError, e': HeaderError)
    requires FirstError(texts, e) && FirstError(texts, e')
    ensures e == e'
  {
    var i :| 0 <= i < |texts| && ErrorAt(texts, i) == Some(e) && NoErrorsBefore(texts, i);
    var j :| 0 <= j < |texts| && ErrorAt(texts, j) == Some(e') && NoErrorsBefore(texts, j);
    assert i == j;
  }

  lemma NoFirstError(texts: seq<string>, e: HeaderError)
    requires NoErrors(texts)
    ensures !FirstError(texts, e)
  {
  }

  /** A header fails with at most one error. */
  lemma OneFailure(header: string, e: HeaderError, e': HeaderError)
    requires FailsWith(header, e) && FailsWith(header, e')
    ensures e == e'
  {
    if HasMacPrefix(header) {
      var texts := Pairs(header);
      if NoErrors(texts) {
        NoFirstError(texts, e);
        NoFirstError(texts, e');
      } else {
        OneFirstError(texts, e, e');
      }
    }
  }

  /** Where every element is good, the MAC is missed first, then the nonce, then the id. */
  lemma MissingParts(header: string, fs: seq<Field>)
    requires "MAC " <= header && NoErrors(Pairs(header)) && fs == ParseFields(Pairs(header))
    ensures FailsWith(header, MissingMac) <==> !HasMac(fs)
    ensures FailsWith(header, MissingNonce) <==> HasMac(fs) && !HasNonce(fs)
    ensures FailsWith(header, MissingId) <==> HasMac(fs) && HasNonce(fs)
  {
    NoFirstError(Pairs(header), MissingMac);
    NoFirstError(Pairs(header), MissingNonce);
    NoFirstError(Pairs(header), MissingId);
  }

  ghost predicate HasMac(fs: seq<Field>) { exists mac :: mac != [] && MacField(mac) in fs }

  ghost predicate HasNonce(fs: seq<Field>) { exists nonce :: NonceField(nonce) in fs }
}
