/** Nobody shares a list: each enqueued snapshot is a clone of its own, and none is the list the
    notifier keeps as its latest. */
module NotifierSharing {
  import opened Core
  import opened Notifier

  /** A list a fetcher got from the finder and may still store as the latest. */
  function FoundList(pc: Pc): Option<nat> {
    match pc
    case WantLatest(f) => Some(f.list)
    case Comparing(f) => Some(f.list)
    case _ => None
  }

  function CloneList(pc: Pc): Option<nat> { if pc.Sending? then Some(pc.clone) else None }

  ghost predicate Avoids(chans: seq<Channel>, list: nat) {
    forall c, k :: 0 <= c < |chans| && 0 <= k < |chans[c].enqueued| ==> chans[c].enqueued[k].list != list
  }

  ghost predicate Below(chans: seq<Channel>, n: nat) {
    forall c, k :: 0 <= c < |chans| && 0 <= k < |chans[c].enqueued| ==> chans[c].enqueued[k].list < n
  }

  ghost predicate AllDistinct(chans: seq<Channel>) {
    forall c, k, d, l ::
      (&& 0 <= c < |chans| && 0 <= k < |chans[c].enqueued| && 0 <= d < |chans| && 0 <= l < |chans[d].enqueued|
       && (c != d || k != l))
      ==> chans[c].enqueued[k].list != chans[d].enqueued[l].list
  }

  ghost predicate ThreadListsOk(s: State) {
    && s.latest.list < s.nextList && Avoids(s.chans, s.latest.list)
    && (forall t :: 0 <= t < |s.threads| && FoundList(s.threads[t]).Some? ==>
          FoundList(s.threads[t]).value < s.nextList && Avoids(s.chans, FoundList(s.threads[t]).value))
    && (forall t :: 0 <= t < |s.threads| && CloneList(s.threads[t]).Some? ==>
          && CloneList(s.threads[t]).value < s.nextList && Avoids(s.chans, CloneList(s.threads[t]).value)
          && CloneList(s.threads[t]).value != s.latest.list)
    && (forall t, u :: 0 <= t < |s.threads| && 0 <= u < |s.threads| && FoundList(s.threads[t]).Some? ==>
          FoundList(s.threads[t]) != CloneList(s.threads[u]))
  }

  ghost predicate Unshared(s: State) {
    AllDistinct(s.chans) && Below(s.chans, s.nextList) && ThreadListsOk(s)
  }

  /** Enqueueing a list nobody has keeps lists distinct, and keeps avoiding every other list. */
  lemma EnqueueDistinct(chans: seq<Channel>, c: nat, snap: Snapshot)
    requires AllDistinct(chans) && c < |chans| && Avoids(chans, snap.list) && |chans[c].buffer| < CAPACITY
    ensures AllDistinct(chans[c := Offer(chans[c], snap)])
    ensures forall l :: Avoids(chans, l) && l != snap.list ==> Avoids(chans[c := Offer(chans[c], snap)], l)
  {
  }

  /** The channels keep their enqueued lists, and what threads hold only moves. */
  lemma SharingLocal(s: State, s': State, t: nat)
    requires Unshared(s) && t < |s.threads| == |s'.threads| && s.nextList <= s'.nextList
    requires AllDistinct(s'.chans) && Below(s'.chans, s'.nextList)
    requires forall l :: Avoids(s.chans, l) ==> Avoids(s'.chans, l)
    requires forall u :: 0 <= u < |s.threads| && u != t ==>
               && FoundList(s'.threads[u]) == FoundList(s.threads[u])
               && CloneList(s'.threads[u]) == CloneList(s.threads[u])
    requires FoundList(s'.threads[t]) in {None, FoundList(s.threads[t]), Some(s.nextList)}
    requires CloneList(s'.threads[t]) in {None, CloneList(s.threads[t]), Some(s.nextList)}
    requires FoundList(s'.threads[t]).None? || CloneList(s'.threads[t]).None?
    requires || s'.nextList > s.nextList
             || (FoundList(s'.threads[t]) != Some(s.nextList) && CloneList(s'.threads[t]) != Some(s.nextList))
    requires s'.latest == s.latest
             || (&& Some(s'.latest.list) == FoundList(s.threads[t])
                 && forall u :: 0 <= u < |s.threads| ==> CloneList(s.threads[u]).None?)
    ensures Unshared(s')
  {
    assert Below(s.chans, s.nextList);
    assert Avoids(s.chans, s.nextList);
  }

  lemma SendSharing(s: State, t: nat)
    requires LocksHeld(s) && Unshared(s) && Legal(s, Run(t)) && s.threads[t].Sending?
    requires s.threads[t].next < |s.channels| && s.channels[s.threads[t].next] < |s.chans|
    ensures Unshared(RunThread(s, t))
  {
    var s', c := RunThread(s, t), s.channels[s.threads[t].next];
    var snap := Snapshot(s.threads[t].clone, Copy(s.latest.groups));
    assert CloneList(s.threads[t]) == Some(snap.list);
    forall u | 0 <= u < |s.threads| && u != t ensures CloneList(s.threads[u]).None? {
      assert HoldsChannels(s.threads[t]) && s.channelsMu == Some(t);
    }
    if |s.chans[c].buffer| < CAPACITY {
      EnqueueDistinct(s.chans, c, snap);
      assert Avoids(s.chans, s.nextList);
      EnqueueThreads(s, s', t, snap.list);
    } else {
      SkipSharing(s, s', t, c);
    }
  }

  lemma EnqueueThreads(s: State, s': State, t: nat, sent: nat)
    requires Unshared(s) && t < |s.threads| && CloneList(s.threads[t]) == Some(sent)
    requires forall u :: 0 <= u < |s.threads| && u != t ==> CloneList(s.threads[u]).None?
    requires t < |s'.threads| && s'.threads == s.threads[t := s'.threads[t]]
    requires CloneList(s'.threads[t]) == Some(s.nextList) && FoundList(s'.threads[t]).None?
    requires s'.nextList == s.nextList + 1 && s'.latest == s.latest
    requires AllDistinct(s'.chans) && Below(s'.chans, s'.nextList) && Avoids(s.chans, s.nextList)
    requires forall l :: Avoids(s.chans, l) && l != sent ==> Avoids(s'.chans, l)
    ensures Unshared(s')
  {
    forall u | 0 <= u < |s'.threads| && FoundList(s'.threads[u]).Some?
      ensures FoundList(s'.threads[u]).value < s'.nextList && Avoids(s'.chans, FoundList(s'.threads[u]).value)
    {
      assert FoundList(s.threads[u]) != CloneList(s.threads[t]);
    }
  }

  lemma SkipSharing(s: State, s': State, t: nat, c: nat)
    requires Unshared(s) && t < |s.threads| && c < |s.chans| && s.threads[t].Sending? && |s.chans[c].buffer| >= CAPACITY
    requires var Sending(next, clone) := s.threads[t];
             s' == At(s, t, Sending(next + 1, clone)).(
                     chans := s.chans[c := Offer(s.chans[c], Snapshot(clone, Copy(s.latest.groups)))])
    ensures Unshared(s')
  {
    assert forall d :: 0 <= d < |s.chans| ==> s'.chans[d].enqueued == s.chans[d].enqueued;
    assert forall l :: Avoids(s.chans, l) ==> Avoids(s'.chans, l);
    SharingLocal(s, s', t);
  }

  lemma AddSharing(s: State, t: nat)
    requires Unshared(s) && Legal(s, Run(t)) && s.threads[t].Adding?
    ensures Unshared(RunThread(s, t))
  {
    var s' := RunThread(s, t);
    assert forall c :: 0 <= c < |s'.chans| && s'.chans[c].enqueued != [] ==> c < |s.chans| && s'.chans[c] == s.chans[c];
    assert forall l :: Avoids(s.chans, l) ==> Avoids(s'.chans, l);
    SharingLocal(s, s', t);
  }

  lemma FetchSharing(s: State, t: nat)
    requires LocksHeld(s) && Unshared(s) && Legal(s, Run(t))
    requires s.threads[t].WantFetch? || s.threads[t].Testing? || s.threads[t].Woken? || s.threads[t].WantLatest?
             || s.threads[t].Comparing? || s.threads[t].WantChannels? || s.threads[t].Sent?
             || (&& s.threads[t].Sending?
                 && (s.threads[t].next >= |s.channels| || s.channels[s.threads[t].next] >= |s.chans|))
    ensures Unshared(RunThread(s, t))
  {
    var s' := RunThread(s, t);
    if s.threads[t].Comparing? {
      forall u | 0 <= u < |s.threads| ensures CloneList(s.threads[u]).None? {
        assert HoldsLatest(s.threads[u]) <==> s.latestMu == Some(u);
        assert s.latestMu == Some(t);
      }
    }
    assert s'.chans == s.chans && Below(s'.chans, s'.nextList);
    SharingLocal(s, s', t);
  }

  lemma SubscriberSharing(s: State, t: nat)
    requires Unshared(s) && Legal(s, Run(t))
    requires s.threads[t].WantSubscribe? || s.threads[t].Added? || s.threads[t].Announced?
             || s.threads[t].WantRemove? || s.threads[t].Removing?
    ensures Unshared(RunThread(s, t))
  {
    SharingLocal(s, RunThread(s, t), t);
  }

  lemma RunSharing(s: State, t: nat)
    requires LocksHeld(s) && Unshared(s) && Legal(s, Run(t))
    ensures Unshared(RunThread(s, t))
  {
    match s.threads[t]
    case Sending(i, _) =>
      if i < |s.channels| && s.channels[i] < |s.chans| { SendSharing(s, t); } else { FetchSharing(s, t); }
    case Adding => AddSharing(s, t);
    case WantSubscribe => SubscriberSharing(s, t);
    case Added(_) => SubscriberSharing(s, t);
    case Announced(_) => SubscriberSharing(s, t);
    case WantRemove(_) => SubscriberSharing(s, t);
    case Removing(_) => SubscriberSharing(s, t);
    case _ => FetchSharing(s, t);
  }

  lemma ReceiveSharing(s: State, c: nat)
    requires Unshared(s) && Legal(s, Receive(c))
    ensures Unshared(Apply(s, Receive(c)))
  {
    var s' := Apply(s, Receive(c));
    assert forall d :: 0 <= d < |s.chans| ==> s'.chans[d].enqueued == s.chans[d].enqueued;
    assert forall l :: Avoids(s.chans, l) ==> Avoids(s'.chans, l);
  }

  lemma SpawnSharing(s: State, fetcher: bool)
    requires Unshared(s)
    ensures Unshared(Apply(s, Spawn(fetcher)))
  {
    var s' := Apply(s, Spawn(fetcher));
    assert FoundList(s'.threads[|s.threads|]).None? && CloneList(s'.threads[|s.threads|]).None?;
    assert forall t :: 0 <= t < |s.threads| ==> s'.threads[t] == s.threads[t];
  }

  lemma FoundSharing(s: State, t: nat, groups: Option<seq<Group>>)
    requires Unshared(s) && Legal(s, Found(t, groups))
    ensures Unshared(Apply(s, Found(t, groups)))
  {
    SharingLocal(s, Apply(s, Found(t, groups)), t);
  }

  lemma CancelSharing(s: State, t: nat)
    requires Unshared(s) && Legal(s, Cancel(t))
    ensures Unshared(Apply(s, Cancel(t)))
  {
    SharingLocal(s, Apply(s, Cancel(t)), t);
  }

  lemma SharingStep(s: State, step: Step)
    requires LocksHeld(s) && Unshared(s) && Legal(s, step)
    ensures Unshared(Apply(s, step))
  {
    match step
    case Run(t) => RunSharing(s, t);
    case Found(t, groups) => FoundSharing(s, t, groups);
    case Cancel(t) => CancelSharing(s, t);
    case Receive(c) => ReceiveSharing(s, c);
    case Spawn(fetcher) => SpawnSharing(s, fetcher);
  }

  lemma {:induction false} RunIsUnshared(states: seq<State>, trace: seq<Step>, i: nat)
    requires IsRun(states, trace) && i < |states|
    ensures Unshared(states[i])
  {
    if i > 0 {
      RunIsUnshared(states, trace, i - 1);
      RunIsSafe(states, trace, i - 1);
      SharingStep(states[i - 1], trace[i - 1]);
    }
  }

  /** In every reachable state, two snapshots ever handed to subscribers are the same list only if they
      are the same delivery, and none is the list kept as the latest. */
  lemma NoSharedLists(states: seq<State>, trace: seq<Step>, s: State, c: nat, k: nat, d: nat, l: nat)
    requires IsRun(states, trace) && s in states
    requires c < |s.chans| && k < |s.chans[c].enqueued| && d < |s.chans| && l < |s.chans[d].enqueued|
    ensures s.chans[c].enqueued[k].list == s.chans[d].enqueued[l].list <==> c == d && k == l
    ensures s.chans[c].enqueued[k].list != s.latest.list
  {
    var i :| 0 <= i < |states| && states[i] == s;
    RunIsUnshared(states, trace, i);
  }
}
