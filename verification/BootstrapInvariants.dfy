/** Invariants of serial bootstrap runs: clusters and keyrings stay in step, the right to join a
    cluster has an origin, and usage is counted. */
module BootstrapInvariants {
  import opened Core
  import opened Ecdh
  import opened Bootstrap
  import opened BootstrapRuns

  // ---------------------------------------------------------------- clusters and keyrings

  /** The capabilities are named and all different, and the gateway holds one set of shared keys
      for each of them. */
  ghost predicate InStep(s: Stores, c: string)
    requires c in s.clusters
  {
    && NoDuplicates(s.clusters[c].capabilities)
    && (forall i :: 0 <= i < |s.clusters[c].capabilities| ==> s.clusters[c].capabilities[i].name != "")
    && s.clusters[c].id == c
    && c in s.keyrings && |s.keyrings[c].sharedKeys| == |s.clusters[c].capabilities|
  }

  ghost predicate Consistent(s: Stores) { forall c :: c in s.clusters ==> InStep(s, c) }

  predicate FailureFree(e: Event) { e.AuthEvent? ==> e.env.failing == {} }

  /** The request passes every check and then a store call fails between the write of the cluster and
      that of its keyring. A new cluster comes out in step all the same if a ring with exactly one
      key set was left over from an earlier cluster of that name. */
  predicate Breaks(s: Stores, cert: nat, e: Event) {
    && e.AuthEvent? && Refusal(s, cert, e.req, e.env).None?
    && var c, failing := e.req.body.value.clientId, e.env.failing;
    if c in s.clusters then
      && UpdateToken !in failing && UpdateCluster !in failing
      && (OpenKeyring in failing || GetKeyring in failing || PutKeyring in failing)
    else
      && CreateCluster !in failing
      && (UpdateToken in failing || OpenKeyring in failing || PutKeyring in failing)
      && !(c in s.keyrings && |s.keyrings[c].sharedKeys| == 1)
  }

  lemma FailureFreeNeverBreaks(s: Stores, cert: nat, e: Event)
    requires FailureFree(e)
    ensures !Breaks(s, cert, e)
  {
  }

  /** An event takes consistent stores to consistent stores if and only if it does not break them. */
  lemma ConsistentStep(s: Stores, cert: nat, e: Event)
    requires Consistent(s)
    ensures Consistent(Next(s, cert, e)) <==> !Breaks(s, cert, e)
  {
    if e.AuthEvent? && Refusal(s, cert, e.req, e.env).None? {
      if Auth(s, cert, e.req, e.env).1.status == 200 {
        forall c | c in Next(s, cert, e).clusters ensures InStep(Next(s, cert, e), c) {
          AuthInStep(s, cert, e.req, e.env, c);
        }
      } else {
        FailedStep(s, cert, e);
      }
    } else {
      forall c | c in Next(s, cert, e).clusters ensures InStep(Next(s, cert, e), c) {
        assert InStep(s, c);
      }
    }
  }

  /** A request that a failing store call stops half way. */
  lemma FailedStep(s: Stores, cert: nat, e: Event)
    requires Consistent(s) && e.AuthEvent? && Refusal(s, cert, e.req, e.env).None?
    requires Auth(s, cert, e.req, e.env).1.status != 200
    ensures Consistent(Next(s, cert, e)) <==> !Breaks(s, cert, e)
  {
    var s', c := Next(s, cert, e), e.req.body.value.clientId;
    assert s'.keyrings == s.keyrings;
    if c in s.clusters {
      assert InStep(s, c);
    }
    forall d | d in s'.clusters && d != c ensures InStep(s', d) {
      assert InStep(s, d);
    }
    if Breaks(s, cert, e) {
      assert !InStep(s', c);
    } else if c in s'.clusters {
      assert InStep(s', c);
    }
  }

  lemma AuthInStep(s: Stores, cert: nat, req: AuthRequest, env: Env, c: string)
    requires Consistent(s) && Auth(s, cert, req, env).1.status == 200 && c in Auth(s, cert, req, env).0.clusters
    ensures InStep(Auth(s, cert, req, env).0, c)
  {
    AnsweredOkIff(s, cert, req, env);
    OkEffect(s, cert, req, env);
    if c != req.body.value.clientId {
      OthersInStep(s, Auth(s, cert, req, env).0, req.body.value.clientId, c);
    } else if c in s.clusters {
      NewCapabilityInStep(s, Auth(s, cert, req, env).0, c, ClusterCapability(req.body.value.capability));
    }
  }

  /** A cluster that keeps its record and its ring stays in step. */
  lemma OthersInStep(s: Stores, s': Stores, named: string, c: string)
    requires Consistent(s) && c != named && c in s'.clusters
    requires s'.clusters - {named} == s.clusters - {named} && s'.keyrings - {named} == s.keyrings - {named}
    ensures InStep(s', c)
  {
    assert c in s'.clusters - {named};
    assert c in s.keyrings - {named};
    assert s'.clusters[c] == (s'.clusters - {named})[c] == s.clusters[c];
    assert s'.keyrings[c] == (s'.keyrings - {named})[c] == s.keyrings[c];
  }

  /** So does one that gains a capability it lacked together with a key set. */
  lemma NewCapabilityInStep(s: Stores, s': Stores, c: string, cap: ClusterCapability)
    requires Consistent(s) && c in s.clusters && c in s'.clusters && c in s'.keyrings && c in s.keyrings
    requires cap.name != "" && !HasClusterCapability(s.clusters[c].capabilities, cap)
    requires s'.clusters[c] == s.clusters[c].(capabilities := s.clusters[c].capabilities + [cap])
    requires |s'.keyrings[c].sharedKeys| == |s.keyrings[c].sharedKeys| + 1
    ensures InStep(s', c)
  {
    var caps := s.clusters[c].capabilities;
    assert InStep(s, c);
    assert forall i :: 0 <= i < |caps| ==> !ClusterCapabilityEqual(caps[i], cap);
    assert forall i :: 0 <= i < |caps| ==> caps[i] != cap;
  }

  ghost predicate NothingBreaks(s: Stores, cert: nat, es: seq<Event>) {
    forall i :: 0 <= i < |es| ==> !Breaks(Run(s, cert, es[..i]), cert, es[i])
  }

  ghost predicate ConsistentAfter(s: Stores, cert: nat, es: seq<Event>, i: nat)
    requires i <= |es|
  {
    Consistent(Run(s, cert, es[..i]))
  }

  ghost predicate AlwaysConsistent(s: Stores, cert: nat, es: seq<Event>) {
    forall i :: 0 <= i <= |es| ==> ConsistentAfter(s, cert, es, i)
  }

  lemma NothingBreaksOneMore(s: Stores, cert: nat, es: seq<Event>, e: Event)
    ensures NothingBreaks(s, cert, es + [e]) <==> NothingBreaks(s, cert, es) && !Breaks(Run(s, cert, es), cert, e)
  {
    var more := es + [e];
    assert forall i :: 0 <= i < |es| ==> more[..i] == es[..i] && more[i] == es[i];
    assert more[..|es|] == es && more[|es|] == e;
  }

  lemma ConsistentAfterPrefix(s: Stores, cert: nat, es: seq<Event>, e: Event, i: nat)
    requires i <= |es|
    ensures ConsistentAfter(s, cert, es + [e], i) <==> ConsistentAfter(s, cert, es, i)
  {
    assert (es + [e])[..i] == es[..i];
  }

  lemma ConsistentAtEnd(s: Stores, cert: nat, es: seq<Event>)
    ensures ConsistentAfter(s, cert, es, |es|) <==> Consistent(Run(s, cert, es))
  {
    assert es[..|es|] == es;
  }

  lemma AlwaysConsistentOneMore(s: Stores, cert: nat, es: seq<Event>, e: Event)
    ensures AlwaysConsistent(s, cert, es + [e]) <==>
            AlwaysConsistent(s, cert, es) && Consistent(Run(s, cert, es + [e]))
  {
    forall i | 0 <= i <= |es| ensures ConsistentAfter(s, cert, es + [e], i) <==> ConsistentAfter(s, cert, es, i) {
      ConsistentAfterPrefix(s, cert, es, e, i);
    }
    ConsistentAtEnd(s, cert, es + [e]);
  }

  /** A run from consistent stores, for instance empty ones, is consistent throughout if and only if
      no event of it breaks them; consistent means that every stored cluster has a duplicate-free
      capability list and a keyring with as many shared key sets. */
  lemma {:induction false} RunsStayConsistent(s: Stores, cert: nat, es: seq<Event>)
    requires Consistent(s)
    ensures AlwaysConsistent(s, cert, es) <==> NothingBreaks(s, cert, es)
  {
    if es == [] {
      ConsistentAtEnd(s, cert, es);
    } else {
      var n := |es| - 1;
      RunsStayConsistent(s, cert, es[..n]);
      StayConsistentOneMore(s, cert, es[..n], es[n]);
      assert es == es[..n] + [es[n]];
    }
  }

  lemma StayConsistentOneMore(s: Stores, cert: nat, es: seq<Event>, e: Event)
    requires AlwaysConsistent(s, cert, es) <==> NothingBreaks(s, cert, es)
    ensures AlwaysConsistent(s, cert, es + [e]) <==> NothingBreaks(s, cert, es + [e])
  {
    NothingBreaksOneMore(s, cert, es, e);
    AlwaysConsistentOneMore(s, cert, es, e);
    RunOneMore(s, cert, es, e);
    if AlwaysConsistent(s, cert, es) {
      assert ConsistentAfter(s, cert, es, |es|);
      ConsistentAtEnd(s, cert, es);
      ConsistentStep(Run(s, cert, es), cert, e);
    }
  }

  lemma RunOneMore(s: Stores, cert: nat, es: seq<Event>, e: Event)
    ensures Run(s, cert, es + [e]) == Next(Run(s, cert, es), cert, e)
  {
    assert (es + [e])[..|es|] == es;
  }

  /** In particular every failure-free run ends in consistent stores. */
  lemma FailureFreeRuns(s: Stores, cert: nat, es: seq<Event>)
    requires Consistent(s) && forall i :: 0 <= i < |es| ==> FailureFree(es[i])
    ensures Consistent(Run(s, cert, es))
  {
    forall i | 0 <= i < |es| ensures !Breaks(Run(s, cert, es[..i]), cert, es[i]) {
      FailureFreeNeverBreaks(Run(s, cert, es[..i]), cert, es[i]);
    }
    RunsStayConsistent(s, cert, es);
    assert ConsistentAfter(s, cert, es, |es|);
    ConsistentAtEnd(s, cert, es);
  }

  /** Some event does break consistent stores: a failing write leaves a cluster without a keyring. */
  lemma FailedPutBreaksConsistency()
    ensures exists s, cert, e :: Consistent(s) && Breaks(s, cert, e) && !Consistent(Next(s, cert, e))
  {
    var t := BootstrapToken("t", "", 0, 0, 0, map[], []);
    var s := Stores(map["t" := t], map[], map[], []);
    var b := AuthBody("c", Some(Pub(1)), "metrics");
    var e := AuthEvent(AuthRequest(Jws(0, "t"), Some(b)), Env(2, {PutKeyring}, Installable));
    assert 'c' in "c";
    assert Refusal(s, 0, e.req, e.env) == None;
    ConsistentStep(s, 0, e);
    assert Consistent(s) && Breaks(s, 0, e) && !Consistent(Next(s, 0, e));
  }

  // ---------------------------------------------------------------- the right to join

  predicate MayJoin(t: BootstrapToken, c: string) { HasTokenCapability(t.capabilities, JoinFor(c)) }

  /** The event created the token with the right to join `c`. */
  predicate GrantedAtCreation(e: Event, tid: string, c: string) {
    e.CreateTokenEvent? && e.token.tokenId == tid && MayJoin(e.token, c)
  }

  /** The event is a request with this token that creates cluster `c` and gets as far as updating the
      token, whatever fails after that. */
  predicate GrantedByCreating(s: Stores, cert: nat, e: Event, tid: string, c: string) {
    && Spends(s, cert, e, tid) && e.req.body.value.clientId == c && c !in s.clusters
  }

  /** The event makes the token id stand for another token, or for none. */
  predicate Resets(e: Event, tid: string) {
    (e.CreateTokenEvent? && e.token.tokenId == tid) || (e.DeleteTokenEvent? && e.tokenId == tid)
  }

  /** No event from position `k` on replaces the token. */
  predicate KeptFrom(es: seq<Event>, k: nat, tid: string) {
    forall i :: k <= i < |es| ==> !Resets(es[i], tid)
  }

  /** This very token was created with the right, or created the cluster. */
  ghost predicate OriginAt(s: Stores, cert: nat, es: seq<Event>, i: nat, tid: string, c: string)
    requires i < |es|
  {
    && KeptFrom(es, i + 1, tid)
    && (GrantedAtCreation(es[i], tid, c) || GrantedByCreating(Run(s, cert, es[..i]), cert, es[i], tid, c))
  }

  ghost predicate HasOrigin(s: Stores, cert: nat, es: seq<Event>, tid: string, c: string) {
    exists i :: 0 <= i < |es| && OriginAt(s, cert, es, i, tid, c)
  }

  /** The right was there from the start and the token is still the same one. */
  predicate HadFromStart(s: Stores, es: seq<Event>, tid: string, c: string) {
    tid in s.tokens && MayJoin(s.tokens[tid], c) && KeptFrom(es, 0, tid)
  }

  lemma AddedJoin(caps: seq<TokenCapability>, c: string, d: string)
    requires HasTokenCapability(WithTokenCapability(caps, JoinFor(c)), JoinFor(d)) && c != d
    ensures HasTokenCapability(caps, JoinFor(d))
  {
    var all := WithTokenCapability(caps, JoinFor(c));
    var i :| 0 <= i < |all| && TokenCapabilityEqual(all[i], JoinFor(d));
    TokenCapabilityEqualIsIdentityOnFull(all[i], JoinFor(d));
    assert i < |caps|;
  }

  /** The token is stored and may join the cluster. */
  predicate CanJoin(s: Stores, tid: string, c: string) { tid in s.tokens && MayJoin(s.tokens[tid], c) }

  /** After an event a token has the right to join a cluster if and only if the event created the token
      with it, or kept the token and the right was there or the token created the cluster. */
  lemma JoinStep(s: Stores, cert: nat, e: Event, tid: string, c: string)
    ensures CanJoin(Next(s, cert, e), tid, c) <==>
            || GrantedAtCreation(e, tid, c)
            || (!Resets(e, tid) && (CanJoin(s, tid, c) || GrantedByCreating(s, cert, e, tid, c)))
  {
    if e.AuthEvent? && Refusal(s, cert, e.req, e.env).None? && e.req.authorization.tokenId == tid {
      JoinByRequest(s, cert, e, c);
    }
  }

  lemma JoinByRequest(s: Stores, cert: nat, e: Event, c: string)
    requires e.AuthEvent? && Refusal(s, cert, e.req, e.env).None?
    ensures var tid := e.req.authorization.tokenId;
            CanJoin(Next(s, cert, e), tid, c) <==> CanJoin(s, tid, c) || GrantedByCreating(s, cert, e, tid, c)
  {
    var b, caps := e.req.body.value, s.tokens[e.req.authorization.tokenId].capabilities;
    assert b.clientId != "";
    JoinGranted(caps, b.clientId);
    AddedKeeps(caps, b.clientId, c);
  }

  /** Granting the right to join one cluster changes no other right, and takes none away. */
  lemma AddedKeeps(caps: seq<TokenCapability>, c: string, d: string)
    ensures c != d ==> (HasTokenCapability(WithTokenCapability(caps, JoinFor(c)), JoinFor(d)) <==>
                        HasTokenCapability(caps, JoinFor(d)))
    ensures HasTokenCapability(caps, JoinFor(d)) ==>
              HasTokenCapability(WithTokenCapability(caps, JoinFor(c)), JoinFor(d))
  {
    var all := WithTokenCapability(caps, JoinFor(c));
    if HasTokenCapability(caps, JoinFor(d)) {
      var i :| 0 <= i < |caps| && TokenCapabilityEqual(caps[i], JoinFor(d));
      assert TokenCapabilityEqual(all[i], JoinFor(d));
    } else if c != d && HasTokenCapability(all, JoinFor(d)) {
      AddedJoin(caps, c, d);
    }
  }

  lemma OriginOneMore(s: Stores, cert: nat, es: seq<Event>, e: Event, i: nat, tid: string, c: string)
    requires i < |es|
    ensures OriginAt(s, cert, es + [e], i, tid, c) <==> OriginAt(s, cert, es, i, tid, c) && !Resets(e, tid)
  {
    var more := es + [e];
    assert more[..i] == es[..i] && more[i] == es[i] && more[|es|] == e;
    assert forall j :: 0 <= j < |es| ==> more[j] == es[j];
  }

  lemma LastOrigin(s: Stores, cert: nat, es: seq<Event>, e: Event, tid: string, c: string)
    ensures OriginAt(s, cert, es + [e], |es|, tid, c) <==>
            GrantedAtCreation(e, tid, c) || GrantedByCreating(Run(s, cert, es), cert, e, tid, c)
  {
    assert (es + [e])[..|es|] == es;
  }

  lemma HasOriginOneMore(s: Stores, cert: nat, es: seq<Event>, e: Event, tid: string, c: string)
    ensures HasOrigin(s, cert, es + [e], tid, c) <==>
            || GrantedAtCreation(e, tid, c) || GrantedByCreating(Run(s, cert, es), cert, e, tid, c)
            || (HasOrigin(s, cert, es, tid, c) && !Resets(e, tid))
  {
    LastOrigin(s, cert, es, e, tid, c);
    forall i | 0 <= i < |es|
      ensures OriginAt(s, cert, es + [e], i, tid, c) <==> OriginAt(s, cert, es, i, tid, c) && !Resets(e, tid)
    {
      OriginOneMore(s, cert, es, e, i, tid, c);
    }
  }

  lemma FromStartOneMore(s: Stores, es: seq<Event>, e: Event, tid: string, c: string)
    ensures HadFromStart(s, es + [e], tid, c) <==> HadFromStart(s, es, tid, c) && !Resets(e, tid)
  {
    var more := es + [e];
    assert more[|es|] == e && forall j :: 0 <= j < |es| ==> more[j] == es[j];
  }

  /** After every run, failures included, a stored token may join a cluster if and only if it, and not an
      earlier token of the same id, was created with that right, created that cluster in a request
      that reached the token update, or had the right before the run. */
  lemma {:induction false} JoinHasOrigin(s: Stores, cert: nat, es: seq<Event>, tid: string, c: string)
    ensures CanJoin(Run(s, cert, es), tid, c) <==> HadFromStart(s, es, tid, c) || HasOrigin(s, cert, es, tid, c)
  {
    if es != [] {
      var n := |es| - 1;
      JoinHasOrigin(s, cert, es[..n], tid, c);
      assert es == es[..n] + [es[n]];
      JoinHasOriginStep(s, cert, es[..n], es[n], tid, c);
    }
  }

  lemma JoinHasOriginStep(s: Stores, cert: nat, es: seq<Event>, e: Event, tid: string, c: string)
    requires CanJoin(Run(s, cert, es), tid, c) <==> HadFromStart(s, es, tid, c) || HasOrigin(s, cert, es, tid, c)
    ensures CanJoin(Run(s, cert, es + [e]), tid, c) <==>
            HadFromStart(s, es + [e], tid, c) || HasOrigin(s, cert, es + [e], tid, c)
  {
    RunOneMore(s, cert, es, e);
    JoinStep(Run(s, cert, es), cert, e, tid, c);
    HasOriginOneMore(s, cert, es, e, tid, c);
    FromStartOneMore(s, es, e, tid, c);
  }

  /** A capability appears on an existing cluster only through a request naming it whose token may
      join the cluster; nothing ever removes one. */
  lemma CapabilityNeedsRight(s: Stores, cert: nat, e: Event, c: string)
    requires c in s.clusters && c in Next(s, cert, e).clusters
    ensures var were, are := s.clusters[c].capabilities, Next(s, cert, e).clusters[c].capabilities;
            && were <= are && |are| <= |were| + 1
            && (are != were ==>
                  && e.AuthEvent? && e.req.authorization.Jws? && e.req.authorization.signer == cert
                  && e.req.authorization.tokenId in s.tokens && MayJoin(s.tokens[e.req.authorization.tokenId], c)
                  && are == were + [ClusterCapability(e.req.body.value.capability)]
                  && !HasClusterCapability(were, ClusterCapability(e.req.body.value.capability)))
  {
  }

  // ---------------------------------------------------------------- usage

  /** The event is a request with this token that gets as far as updating the token. */
  predicate Spends(s: Stores, cert: nat, e: Event, tid: string) {
    && e.AuthEvent? && Refusal(s, cert, e.req, e.env).None? && e.req.authorization.tokenId == tid
    && UpdateToken !in e.env.failing
    && (e.req.body.value.clientId !in s.clusters ==> CreateCluster !in e.env.failing)
  }

  function Uses(s: Stores, cert: nat, es: seq<Event>, tid: string): nat {
    if es == [] then 0
    else
      var n := |es| - 1;
      Uses(s, cert, es[..n], tid) + if Spends(Run(s, cert, es[..n]), cert, es[n], tid) then 1 else 0
  }

  lemma UsageStep(s: Stores, cert: nat, e: Event, tid: string)
    requires tid in s.tokens && !Resets(e, tid)
    ensures tid in Next(s, cert, e).tokens
    ensures Next(s, cert, e).tokens[tid].usageCount ==
            s.tokens[tid].usageCount + if Spends(s, cert, e, tid) then 1 else 0
  {
  }

  /** In every run that keeps the token, failures included, its usage count rises by exactly the number
      of its requests that got as far as the token update. */
  lemma {:induction false} UsageIsCounted(s: Stores, cert: nat, es: seq<Event>, tid: string)
    requires tid in s.tokens && KeptFrom(es, 0, tid)
    ensures tid in Run(s, cert, es).tokens
    ensures Run(s, cert, es).tokens[tid].usageCount == s.tokens[tid].usageCount + Uses(s, cert, es, tid)
  {
    if es != [] {
      var n := |es| - 1;
      UsageIsCounted(s, cert, es[..n], tid);
      UsageStep(Run(s, cert, es[..n]), cert, es[n], tid);
    }
  }

  /** From consistent stores and without failures these are exactly the requests answered 200. */
  lemma SpentIffAnsweredOk(s: Stores, cert: nat, e: Event, tid: string)
    requires Consistent(s) && e.AuthEvent? && FailureFree(e)
    ensures Spends(s, cert, e, tid) <==>
            && e.req.authorization.Jws? && e.req.authorization.tokenId == tid
            && Auth(s, cert, e.req, e.env).1.status == 200
  {
    if e.req.body.Some? {
      var c := e.req.body.value.clientId;
      assert c in s.clusters ==> InStep(s, c);
    }
  }
}
