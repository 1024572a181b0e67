/** The OpenID user-info cache: two maps that together behave like one table of user sessions. */
module UserInfoCache {
  import opened Core

  /** A claim is represented by its printed form. */
  datatype UserInfo = UserInfo(raw: map<string, string>, identifyingClaim: string) {
    function UserID(): Option<string> {
      if identifyingClaim in raw then Some(raw[identifyingClaim]) else None
    }
  }

  datatype State = State(cache: map<string, UserInfo>, knownUsers: map<string, string>)

  /** A call of Get, with what the provider answers if it is asked. */
  datatype Request = Request(accessToken: string, fetched: Option<map<string, string>>)

  const EMPTY := State(map[], map[])

  /** The known-users map is the exact inverse of token-to-user over the cached entries. */
  ghost predicate Inverse(s: State) {
    && (forall u :: u in s.knownUsers ==> s.knownUsers[u] in s.cache && s.cache[s.knownUsers[u]].UserID() == Some(u))
    && forall t :: t in s.cache ==>
         && s.cache[t].UserID().Some?
         && s.cache[t].UserID().value in s.knownUsers
         && s.knownUsers[s.cache[t].UserID().value] == t
  }

  class Cache {
    const identifyingClaim: string
    var cache: map<string, UserInfo>
    var knownUsers: map<string, string>

    ghost function Contents(): State
      reads this
    {
      State(cache, knownUsers)
    }

    constructor (identifyingClaim: string)
      ensures Contents() == EMPTY && this.identifyingClaim == identifyingClaim && Inverse(Contents())
    {
      this.identifyingClaim := identifyingClaim;
      cache, knownUsers := map[], map[];
    }

    /** Answers from the cache, or from the provider. A stored answer displaces whatever else was
        cached for the same user, and nothing else; a failed call changes nothing. */
    method Get(request: Request) returns (info: Option<UserInfo>)
      requires Inverse(Contents())
      modifies this`cache, this`knownUsers
      ensures Inverse(Contents())
      ensures (Contents(), info) == Next(old(Contents()), request, identifyingClaim)
    {
      var accessToken := request.accessToken;
      if accessToken in cache {
        return Some(cache[accessToken]);
      }
      if request.fetched.None? {
        return None;
      }
      var fetchedInfo := UserInfo(request.fetched.value, identifyingClaim);
      var id := fetchedInfo.UserID();
      if id.None? {
        return None;
      }
      ghost var before := Contents();
      NeverTheSameToken(before, id.value, accessToken);
      if id.value in knownUsers {
        var previousAccessToken := knownUsers[id.value];
        if previousAccessToken != accessToken {
          knownUsers := knownUsers[id.value := accessToken];
          cache := cache - {previousAccessToken};
        }
      } else {
        knownUsers := knownUsers[id.value := accessToken];
      }
      cache := cache[accessToken := fetchedInfo];
      OthersKept(before, id.value);
      StoreKeepsInverse(before, accessToken, fetchedInfo);
      return Some(fetchedInfo);
    }
  }

  /** The entries cached for anybody but the user. */
  function Others(s: State, user: string): map<string, UserInfo> {
    map t | t in s.cache && s.cache[t].UserID() != Some(user) :: s.cache[t]
  }

  /** What one call does: its new state and its answer. */
  function Next(s: State, r: Request, claim: string): (State, Option<UserInfo>) {
    if r.accessToken in s.cache then (s, Some(s.cache[r.accessToken]))
    else if r.fetched.None? || claim !in r.fetched.value then (s, None)
    else
      var info := UserInfo(r.fetched.value, claim);
      (Store(s, r.accessToken, info), Some(info))
  }

  function Store(s: State, t: string, info: UserInfo): State
    requires info.UserID().Some?
  {
    var id := info.UserID().value;
    State(Others(s, id)[t := info], s.knownUsers[id := t])
  }

  /** Where the cache misses, the token known for the user is another one. */
  lemma NeverTheSameToken(s: State, user: string, t: string)
    requires Inverse(s) && t !in s.cache
    ensures user in s.knownUsers ==> s.knownUsers[user] != t
  {
  }

  lemma OthersKept(s: State, user: string)
    requires Inverse(s)
    ensures Others(s, user) == if user in s.knownUsers then s.cache - {s.knownUsers[user]} else s.cache
  {
    forall t | t in s.cache
      ensures s.cache[t].UserID() == Some(user) <==> user in s.knownUsers && s.knownUsers[user] == t
    {
    }
  }

  lemma StoreKeepsInverse(s: State, t: string, info: UserInfo)
    requires Inverse(s) && t !in s.cache && info.UserID().Some?
    ensures Inverse(Store(s, t, info))
  {
    var id := info.UserID().value;
    var after := Store(s, t, info);
    forall u | u in after.knownUsers
      ensures after.knownUsers[u] in after.cache && after.cache[after.knownUsers[u]].UserID() == Some(u)
    {
      if u != id {
        assert s.knownUsers[u] in Others(s, id);
      }
    }
  }

  /** The simple cache: one session per user, holding the token last fetched for it. */
  datatype Session = Session(accessToken: string, info: UserInfo)

  ghost predicate Holds(m: map<string, Session>, t: string) {
    exists u :: u in m && m[u].accessToken == t
  }

  ghost function Holder(m: map<string, Session>, t: string): string
    requires Holds(m, t)
  {
    var u :| u in m && m[u].accessToken == t; u
  }

  ghost function SimpleNext(m: map<string, Session>, r: Request, claim: string)
    : (map<string, Session>, Option<UserInfo>)
  {
    if Holds(m, r.accessToken) then (m, Some(m[Holder(m, r.accessToken)].info))
    else if r.fetched.None? || claim !in r.fetched.value then (m, None)
    else
      var info := UserInfo(r.fetched.value, claim);
      (m[info.UserID().value := Session(r.accessToken, info)], Some(info))
  }

  /** The sessions that the two maps stand for. */
  function Sessions(s: State): map<string, Session>
    requires forall u :: u in s.knownUsers ==> s.knownUsers[u] in s.cache
  {
    map u | u in s.knownUsers :: Session(s.knownUsers[u], s.cache[s.knownUsers[u]])
  }

  lemma CachedIsHeld(s: State, t: string)
    requires Inverse(s)
    ensures Holds(Sessions(s), t) <==> t in s.cache
    ensures t in s.cache ==> Sessions(s)[Holder(Sessions(s), t)].info == s.cache[t]
  {
    if t in s.cache {
      var u := s.cache[t].UserID().value;
      assert u in Sessions(s) && Sessions(s)[u].accessToken == t;
    }
  }

  lemma StepRefines(s: State, r: Request, claim: string)
    requires Inverse(s)
    ensures Inverse(Next(s, r, claim).0)
    ensures (Sessions(Next(s, r, claim).0), Next(s, r, claim).1) == SimpleNext(Sessions(s), r, claim)
  {
    CachedIsHeld(s, r.accessToken);
    if r.accessToken !in s.cache && r.fetched.Some? && claim in r.fetched.value {
      var info := UserInfo(r.fetched.value, claim);
      StoreKeepsInverse(s, r.accessToken, info);
      StoredSession(s, r.accessToken, info);
    }
  }

  ghost predicate AgreeAt<V>(l: map<string, V>, r: map<string, V>, u: string) {
    (u in l <==> u in r) && (u in l ==> l[u] == r[u])
  }

  lemma AgreeingMaps<V>(l: map<string, V>, r: map<string, V>)
    requires forall u :: AgreeAt(l, r, u)
    ensures l == r
  {
    assert forall u :: u in l ==> AgreeAt(l, r, u);
    assert forall u :: u in r ==> AgreeAt(l, r, u);
  }

  lemma StoredSession(s: State, t: string, info: UserInfo)
    requires Inverse(s) && t !in s.cache && info.UserID().Some?
    requires Inverse(Store(s, t, info))
    ensures Sessions(Store(s, t, info)) == Sessions(s)[info.UserID().value := Session(t, info)]
  {
    var l, r := Sessions(Store(s, t, info)), Sessions(s)[info.UserID().value := Session(t, info)];
    forall u ensures AgreeAt(l, r, u) {
      SessionAt(s, t, info, u);
    }
    AgreeingMaps(l, r);
  }

  lemma SessionAt(s: State, t: string, info: UserInfo, u: string)
    requires Inverse(s) && t !in s.cache && info.UserID().Some?
    requires Inverse(Store(s, t, info))
    ensures AgreeAt(Sessions(Store(s, t, info)), Sessions(s)[info.UserID().value := Session(t, info)], u)
  {
    if u in s.knownUsers && u != info.UserID().value {
      OtherSession(s, t, info, u);
    }
  }

  /** Storing an answer leaves the other users' tokens and entries alone. */
  lemma OtherSession(s: State, t: string, info: UserInfo, u: string)
    requires Inverse(s) && t !in s.cache && info.UserID().Some?
    requires u in s.knownUsers && u != info.UserID().value
    ensures var after := Store(s, t, info);
            && after.knownUsers[u] == s.knownUsers[u] && s.knownUsers[u] in after.cache
            && after.cache[s.knownUsers[u]] == s.cache[s.knownUsers[u]]
  {
    assert s.knownUsers[u] in Others(s, info.UserID().value);
  }

  /** The state after a run of calls, and what the calls answered. */
  function Run(rs: seq<Request>, claim: string): (State, seq<Option<UserInfo>>) {
    if rs == [] then (EMPTY, [])
    else
      var (s, answers) := Run(rs[..|rs| - 1], claim);
      var (s', answer) := Next(s, rs[|rs| - 1], claim);
      (s', answers + [answer])
  }

  ghost function SimpleRun(rs: seq<Request>, claim: string): (map<string, Session>, seq<Option<UserInfo>>) {
    if rs == [] then (map[], [])
    else
      var (m, answers) := SimpleRun(rs[..|rs| - 1], claim);
      var (m', answer) := SimpleNext(m, rs[|rs| - 1], claim);
      (m', answers + [answer])
  }

  /** Every run keeps the two maps inverse and answers exactly as the simple cache does. */
  lemma {:induction false} RunRefines(rs: seq<Request>, claim: string)
    ensures Inverse(Run(rs, claim).0)
    ensures (Sessions(Run(rs, claim).0), Run(rs, claim).1) == SimpleRun(rs, claim)
  {
    if rs != [] {
      RunRefines(rs[..|rs| - 1], claim);
      StepRefines(Run(rs[..|rs| - 1], claim).0, rs[|rs| - 1], claim);
    }
  }

  /** At most one token per user is cached, and as many tokens as there are users known. */
  lemma OneTokenPerUser(rs: seq<Request>, claim: string, t: string, t': string)
    ensures var s := Run(rs, claim).0;
            t in s.cache && t' in s.cache && s.cache[t].UserID() == s.cache[t'].UserID() ==> t == t'
    ensures |Run(rs, claim).0.cache| == |Run(rs, claim).0.knownUsers|
  {
    RunRefines(rs, claim);
    SameSize(rs, claim);
  }

  lemma {:induction false} SameSize(rs: seq<Request>, claim: string)
    ensures |Run(rs, claim).0.cache| == |Run(rs, claim).0.knownUsers|
  {
    if rs != [] {
      var s, r := Run(rs[..|rs| - 1], claim).0, rs[|rs| - 1];
      SameSize(rs[..|rs| - 1], claim);
      RunRefines(rs[..|rs| - 1], claim);
      if r.accessToken !in s.cache && r.fetched.Some? && claim in r.fetched.value {
        StoreSize(s, r.accessToken, UserInfo(r.fetched.value, claim));
      }
    }
  }

  lemma StoreSize(s: State, t: string, info: UserInfo)
    requires Inverse(s) && t !in s.cache && info.UserID().Some?
    requires |s.cache| == |s.knownUsers|
    ensures |Store(s, t, info).cache| == |Store(s, t, info).knownUsers|
  {
    var id := info.UserID().value;
    OthersKept(s, id);
    if id in s.knownUsers {
      SwapSize(s.cache, s.knownUsers[id], t, info);
      KeepSize(s.knownUsers, id, t);
    }
  }

  lemma SwapSize<V>(m: map<string, V>, x: string, y: string, v: V)
    requires x in m && y !in m
    ensures |(m - {x})[y := v]| == |m|
  {
    assert (m - {x}).Keys == m.Keys - {x};
  }

  lemma KeepSize<V>(m: map<string, V>, x: string, v: V)
    requires x in m
    ensures |m[x := v]| == |m|
  {
    assert m[x := v].Keys == m.Keys;
  }

  // ---------------------------------------------------------------- where answers come from

  /** The user of an answer is the value of the identifying claim in what the provider sent. */
  lemma UserIsClaim(raw: map<string, string>, claim: string)
    ensures UserInfo(raw, claim).UserID() == if claim in raw then Some(raw[claim]) else None
  {
  }

  /** A call is answered from the cache, or with what the provider sends, and not at all exactly when the
      token is not cached and the provider fails or sends no identifying claim. */
  lemma AnswerIs(s: State, r: Request, claim: string)
    ensures var (s', answer) := Next(s, r, claim);
            && (r.accessToken in s.cache ==> answer == Some(s.cache[r.accessToken]) && s' == s)
            && (r.accessToken !in s.cache && answer.Some? ==>
                  && r.fetched == Some(answer.value.raw) && answer.value.identifyingClaim == claim
                  && r.accessToken in s'.cache && s'.cache[r.accessToken] == answer.value
                  && claim in answer.value.raw && answer.value.raw[claim] in s'.knownUsers
                  && s'.knownUsers[answer.value.raw[claim]] == r.accessToken)
            && (answer.None? <==> r.accessToken !in s.cache && (r.fetched.None? || claim !in r.fetched.value))
            && (answer.None? ==> s' == s)
  {
  }

  /** The provider sent this for the token in one of the calls. */
  ghost predicate SentFor(rs: seq<Request>, t: string, raw: map<string, string>) {
    exists j :: 0 <= j < |rs| && rs[j].accessToken == t && rs[j].fetched == Some(raw)
  }

  lemma SentLonger(rs: seq<Request>, r: Request, t: string, raw: map<string, string>)
    requires SentFor(rs, t, raw)
    ensures SentFor(rs + [r], t, raw)
  {
    var j :| 0 <= j < |rs| && rs[j].accessToken == t && rs[j].fetched == Some(raw);
    assert (rs + [r])[j] == rs[j];
  }

  lemma CachedStep(s: State, r: Request, claim: string, t: string)
    requires t in Next(s, r, claim).0.cache
    ensures var entry := Next(s, r, claim).0.cache[t];
            || (t in s.cache && s.cache[t] == entry)
            || (t == r.accessToken && r.fetched == Some(entry.raw) && entry.identifyingClaim == claim)
  {
  }

  /** Everything cached for a token was sent by the provider for that very token. */
  lemma {:induction false} CachedWasSent(rs: seq<Request>, claim: string, t: string)
    requires t in Run(rs, claim).0.cache
    ensures SentFor(rs, t, Run(rs, claim).0.cache[t].raw) && Run(rs, claim).0.cache[t].identifyingClaim == claim
  {
    var n := |rs| - 1;
    var init, r := rs[..n], rs[n];
    var s := Run(init, claim).0;
    CachedStep(s, r, claim, t);
    var entry := Run(rs, claim).0.cache[t];
    if t in s.cache && s.cache[t] == entry {
      CachedWasSent(init, claim, t);
      SentLonger(init, r, t, entry.raw);
      assert init + [r] == rs;
    } else {
      assert rs[n].accessToken == t && rs[n].fetched == Some(entry.raw);
    }
  }

  /** So in every run every answer is something the provider sent for the token asked about. */
  lemma AnswersWereSent(rs: seq<Request>, r: Request, claim: string)
    ensures var answer := Next(Run(rs, claim).0, r, claim).1;
            answer.Some? ==>
              SentFor(rs + [r], r.accessToken, answer.value.raw) && answer.value.identifyingClaim == claim
  {
    var s := Run(rs, claim).0;
    var answer := Next(s, r, claim).1;
    if r.accessToken in s.cache {
      CachedWasSent(rs, claim, r.accessToken);
      SentLonger(rs, r, r.accessToken, answer.value.raw);
    } else if answer.Some? {
      assert (rs + [r])[|rs|] == r;
    }
  }
}
