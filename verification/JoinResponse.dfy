/** The first step of a bootstrap: the gateway lists a detached signature per token, and the holder
    of a token looks up and completes its own. */
module JoinResponse {
  import opened Core
  import opened Encodings
  import opened Text
  import opened DetachedJws

  type Listing = seq<Option<BootstrapToken>>

  ghost predicate Readable(list: Listing) {
    forall i :: 0 <= i < |list| ==> RawToken(list[i]).Some?
  }

  ghost function Raw(list: Listing, i: nat): Token
    requires i < |list| && Readable(list)
  {
    RawToken(list[i]).value
  }

  /** No later entry has the same id. */
  ghost predicate LastOfId(list: Listing, i: nat)
    requires i < |list| && Readable(list)
  {
    forall j :: i < j < |list| ==> Raw(list, j).id != Raw(list, i).id
  }

  /** One signature for each listed id, made for the last entry that has the id. */
  ghost predicate Answers(list: Listing, signatures: map<string, string>, key: SigningKey) {
    && Readable(list)
    && (forall i :: 0 <= i < |list| && LastOfId(list, i) ==>
          Raw(list, i).HexID() in signatures && signatures[Raw(list, i).HexID()] == Detached(Raw(list, i), key))
    && (forall id :: id in signatures ==> exists i :: 0 <= i < |list| && Raw(list, i).HexID() == id)
  }

  method BootstrapJoinResponse(tokenList: Listing, key: SigningKey) returns (r: Option<map<string, string>>)
    ensures r.Some? <==> Readable(tokenList)
    ensures r.Some? ==> Answers(tokenList, r.value, key)
    ensures r.Some? ==> (r.value == map[] <==> tokenList == [])
  {
    var signatures: map<string, string> := map[];
    for n := 0 to |tokenList|
      invariant Answers(tokenList[..n], signatures, key)
      invariant signatures == map[] <==> n == 0
    {
      var rawToken := FromBootstrapToken(tokenList[n]);
      if rawToken.None? {
        return None;
      }
      var sig := SignDetached(rawToken.value, key);
      AnswersNext(tokenList, n, signatures, key);
      signatures := signatures[rawToken.value.HexID() := sig];
    }
    assert tokenList[..|tokenList|] == tokenList;
    return Some(signatures);
  }

  lemma AnswersNext(list: Listing, n: nat, signatures: map<string, string>, key: SigningKey)
    requires n < |list| && Answers(list[..n], signatures, key) && RawToken(list[n]).Some?
    ensures var raw := RawToken(list[n]).value;
            var signatures' := signatures[raw.HexID() := Detached(raw, key)];
            Answers(list[..n + 1], signatures', key) && signatures' != map[]
  {
    AnswersOneMore(list[..n], list[n], signatures, key);
    assert list[..n + 1] == list[..n] + [list[n]];
    var raw := RawToken(list[n]).value;
    assert raw.HexID() in signatures[raw.HexID() := Detached(raw, key)];
  }

  lemma HexIdsDiffer(a: Token, b: Token)
    ensures a.HexID() == b.HexID() <==> a.id == b.id
  {
    HexRoundTrip(a.id);
    HexRoundTrip(b.id);
  }

  lemma AnswersOneMore(list: Listing, t: Option<BootstrapToken>, signatures: map<string, string>, key: SigningKey)
    requires Answers(list, signatures, key) && RawToken(t).Some?
    ensures var raw := RawToken(t).value;
            Answers(list + [t], signatures[raw.HexID() := Detached(raw, key)], key)
  {
    var raw := RawToken(t).value;
    var more, signatures' := list + [t], signatures[raw.HexID() := Detached(raw, key)];
    assert Readable(more);
    forall i | 0 <= i < |more| && LastOfId(more, i)
      ensures Raw(more, i).HexID() in signatures' && signatures'[Raw(more, i).HexID()] == Detached(Raw(more, i), key)
    {
      if i < |list| {
        LastBefore(list, t, i);
        HexIdsDiffer(Raw(more, i), raw);
      }
    }
    forall id | id in signatures' ensures exists i :: 0 <= i < |more| && Raw(more, i).HexID() == id {
      if id == raw.HexID() {
        assert Raw(more, |list|).HexID() == id;
      } else {
        var i :| 0 <= i < |list| && Raw(list, i).HexID() == id;
        assert Raw(more, i).HexID() == id;
      }
    }
  }

  lemma LastBefore(list: Listing, t: Option<BootstrapToken>, i: nat)
    requires Readable(list) && RawToken(t).Some? && Readable(list + [t])
    requires i < |list| && LastOfId(list + [t], i)
    ensures Raw(list + [t], i) == Raw(list, i) && LastOfId(list, i) && Raw(list, i).id != RawToken(t).value.id
  {
    forall j | i < j < |list| ensures Raw(list, j).id != Raw(list, i).id {
      assert Raw(list + [t], j) == Raw(list, j);
    }
    assert Raw(list + [t], |list|) == RawToken(t).value;
  }

  /** The holder looks its id up and completes the signature found there. */
  function FindValidSignature(signatures: map<string, string>, held: Token, key: SigningKey): Option<string> {
    if held.HexID() in signatures then Verified(held, signatures[held.HexID()], key) else None
  }

  /** A lookup succeeds exactly when the last listed token with the holder's id is signed like the
      holder's, and then gives the holder's own signed message. */
  lemma FoundIff(list: Listing, signatures: map<string, string>, key: SigningKey, held: Token)
    requires Answers(list, signatures, key)
    ensures FindValidSignature(signatures, held, key).Some? <==>
            exists i :: 0 <= i < |list| && LastOfId(list, i) && Raw(list, i).id == held.id
                        && key.signature(key.Input(Raw(list, i))) == key.signature(key.Input(held))
    ensures FindValidSignature(signatures, held, key).Some? ==>
              FindValidSignature(signatures, held, key) == Some(key.Sign(held))
  {
    if held.HexID() in signatures {
      var k :| 0 <= k < |list| && Raw(list, k).HexID() == held.HexID();
      HexIdsDiffer(Raw(list, k), held);
      var i := LastIndex(list, k);
      VerifiesIff(Raw(list, i), held, key);
      forall j | 0 <= j < |list| && LastOfId(list, j) && Raw(list, j).id == held.id ensures j == i {
        assert Raw(list, i).id == Raw(list, j).id;
      }
    }
  }

  ghost function LastIndex(list: Listing, k: nat): (i: nat)
    requires Readable(list) && k < |list|
    ensures k <= i < |list| && LastOfId(list, i) && Raw(list, i).id == Raw(list, k).id
    decreases |list| - k
  {
    if j :| k < j < |list| && Raw(list, j).id == Raw(list, k).id then LastIndex(list, j) else k
  }

  ghost predicate DistinctIds(list: Listing)
    requires Readable(list)
  {
    forall i, j :: 0 <= i < j < |list| ==> Raw(list, i).id != Raw(list, j).id
  }

  /** With distinct ids the holder of every listed token finds its own signature, and the message it
      completes is one the gateway later accepts as carrying that token. */
  lemma EveryHolderFinds(list: Listing, signatures: map<string, string>, key: SigningKey, i: nat)
    requires Answers(list, signatures, key) && DistinctIds(list) && i < |list|
    ensures FindValidSignature(signatures, Raw(list, i), key) == Some(key.Sign(Raw(list, i)))
    ensures key.Open(key.Sign(Raw(list, i))) == Some(key.json(Raw(list, i)))
  {
    SignedOpens(Raw(list, i), key);
    assert LastOfId(list, i);
    FoundIff(list, signatures, key, Raw(list, i));
  }

  /** Different tokens have different JSON, and different inputs different signatures. */
  ghost predicate Injective(key: SigningKey) {
    && (forall a: Token, b: Token :: key.json(a) == key.json(b) ==> a == b)
    && (forall x: string, y: string :: key.signature(x) == key.signature(y) ==> x == y)
  }

  /** With distinct ids and a collision-free key, the lookup succeeds for the listed tokens alone. */
  lemma OnlyHoldersFind(list: Listing, signatures: map<string, string>, key: SigningKey, held: Token)
    requires Answers(list, signatures, key) && DistinctIds(list) && Injective(key)
    ensures FindValidSignature(signatures, held, key).Some? <==> exists i :: 0 <= i < |list| && Raw(list, i) == held
  {
    if i :| 0 <= i < |list| && Raw(list, i) == held {
      EveryHolderFinds(list, signatures, key, i);
    } else {
      FoundIff(list, signatures, key, held);
      forall i | 0 <= i < |list| ensures key.signature(key.Input(Raw(list, i))) != key.signature(key.Input(held)) {
        InputsDiffer(key, Raw(list, i), held);
      }
    }
  }

  lemma InputsDiffer(key: SigningKey, a: Token, b: Token)
    requires Injective(key)
    ensures key.signature(key.Input(a)) == key.signature(key.Input(b)) <==> a == b
  {
    if key.Input(a) == key.Input(b) {
      assert key.Payload(a) == key.Input(a)[|Encode64(key.header)| + 1..];
      assert key.Payload(b) == key.Input(b)[|Encode64(key.header)| + 1..];
      Base64RoundTrip(key.json(a));
      Base64RoundTrip(key.json(b));
    }
  }

  predicate Blank(s: string) { forall c :: c in s ==> IsSpace(c) }

  /** Refuses a request that is already authorized, a listing that fails or cannot be read, and an
      empty listing; an absent entry in the listing counts as an entry. */
  method HandleBootstrapJoin(authorization: string, listed: Option<Listing>, key: SigningKey)
    returns (status: int, signatures: map<string, string>)
    ensures status in {200, 400, 405, 500}
    ensures status == 400 <==> !Blank(authorization)
    ensures status == 500 <==> Blank(authorization) && !(listed.Some? && Readable(listed.value))
    ensures status == 405 <==> Blank(authorization) && listed == Some([])
    ensures status == 200 ==> listed.Some? && Answers(listed.value, signatures, key)
  {
    BlankTrims(authorization);
    var authHeader := TrimSpace(authorization);
    if authHeader == "" {
      if listed.None? {
        return 500, map[];
      }
      var resp := BootstrapJoinResponse(listed.value, key);
      if resp.None? {
        return 500, map[];
      }
      if resp.value == map[] {
        return 405, map[];
      }
      return 200, resp.value;
    } else {
      return 400, map[];
    }
  }

  /** Trimming leaves nothing exactly of a text of spaces. */
  lemma BlankTrims(s: string)
    ensures TrimSpace(s) == "" <==> Blank(s)
  {
    LeftBlank(s);
    RightBlank(TrimLeft(s));
    TrimLeftProperties(s);
  }

  lemma {:induction false} LeftBlank(s: string)
    ensures TrimLeft(s) == "" <==> Blank(s)
  {
    if s != "" && IsSpace(s[0]) {
      LeftBlank(s[1..]);
      assert s == [s[0]] + s[1..];
    } else if s != "" {
      assert s[0] in s;
    }
  }

  lemma {:induction false} RightBlank(s: string)
    ensures TrimRight(s) == "" <==> Blank(s)
  {
    if s != "" && IsSpace(s[|s| - 1]) {
      RightBlank(s[..|s| - 1]);
      assert s == s[..|s| - 1] + [s[|s| - 1]];
    } else if s != "" {
      assert s[|s| - 1] in s;
    }
  }

  /** A hole in the listing is signed like a token with nothing in it, under the empty id. */
  lemma HoleIsSigned(list: Listing, signatures: map<string, string>, key: SigningKey, i: nat)
    requires Answers(list, signatures, key) && i < |list| && list[i].None?
    ensures Raw(list, i) == Token([], []) && "" in signatures
  {
    var last := LastIndex(list, i);
    assert EncodeHex([]) == "";
    assert Raw(list, last).HexID() in signatures;
  }
}
