/** What subscribers of the notifier receive: every change since they subscribed, in order, except
    exactly those offered while their buffer was full; and nobody shares a list. */
module NotifierDelivery {
  import opened Core
  import opened Notifier

  // ---------------------------------------------------------------- changes in order

  /** The copies of the changes from `since` on that were offered to a buffer with room. */
  function Accepted(history: seq<seq<Group>>, since: nat, offers: seq<nat>): seq<seq<Group>>
    requires since + |offers| <= |history|
  {
    if offers == [] then []
    else
      var n := |offers| - 1;
      Accepted(history, since, offers[..n]) + if offers[n] < CAPACITY then [Copy(history[since + n])] else []
  }

  function Contents(snaps: seq<Snapshot>): (r: seq<seq<Group>>)
    ensures |r| == |snaps| && forall i :: 0 <= i < |r| ==> r[i] == snaps[i].groups
  {
    seq(|snaps|, i requires 0 <= i < |snaps| => snaps[i].groups)
  }

  /** The channel's buffer holds the last of what was enqueued, at most its capacity; and what was
      enqueued is the copies of the accepted changes. */
  ghost predicate Tracks(ch: Channel, history: seq<seq<Group>>) {
    && |ch.buffer| <= CAPACITY && |ch.buffer| <= |ch.enqueued|
    && ch.buffer == ch.enqueued[|ch.enqueued| - |ch.buffer|..]
    && ch.since + |ch.offers| <= |history|
    && (forall k :: 0 <= k < |ch.offers| ==> ch.offers[k] <= CAPACITY)
    && Contents(ch.enqueued) == Accepted(history, ch.since, ch.offers)
  }

  /** How many history entries the channel at position p of the list has been offered or predates. */
  function Due(s: State, p: nat): int {
    if s.latestMu.None? || s.latestMu.value >= |s.threads| then |s.history|
    else
      match s.threads[s.latestMu.value]
      case WantChannels => |s.history| - 1
      case Sending(i, _) => if p < i then |s.history| else |s.history| - 1
      case _ => |s.history|
  }

  /** The channel a subscriber's thread is responsible for, until it is removed. */
  function Responsible(pc: Pc): Option<nat> {
    match pc
    case Added(c) => Some(c)
    case Announced(c) => Some(c)
    case Subscribed(c) => Some(c)
    case WantRemove(c) => Some(c)
    case Removing(c) => Some(c)
    case _ => None
  }

  ghost predicate HistoryOk(s: State) {
    && |s.history| >= 1 && s.latest.groups == s.history[|s.history| - 1]
    && forall i :: 0 < i < |s.history| ==> s.history[i - 1] != s.history[i]
  }

  ghost predicate ChannelsOk(s: State) {
    && NoDuplicates(s.channels)
    && (forall p :: 0 <= p < |s.channels| ==> s.channels[p] < |s.chans|)
    && (forall c :: 0 <= c < |s.chans| ==> Tracks(s.chans[c], s.history))
    && forall p :: 0 <= p < |s.channels| ==>
         s.chans[s.channels[p]].since + |s.chans[s.channels[p]].offers| == Due(s, p)
  }

  ghost predicate OwnersOk(s: State) {
    && (forall t :: 0 <= t < |s.threads| && Responsible(s.threads[t]).Some? ==>
          Responsible(s.threads[t]).value in s.channels)
    && (forall t, u :: 0 <= t < u < |s.threads| && Responsible(s.threads[t]).Some? ==>
          Responsible(s.threads[t]) != Responsible(s.threads[u]))
  }

  lemma {:induction false} AcceptedStable(history: seq<seq<Group>>, x: seq<Group>, since: nat, offers: seq<nat>)
    requires since + |offers| <= |history|
    ensures Accepted(history + [x], since, offers) == Accepted(history, since, offers)
  {
    if offers != [] {
      AcceptedStable(history, x, since, offers[..|offers| - 1]);
    }
  }

  lemma TracksStable(ch: Channel, history: seq<seq<Group>>, x: seq<Group>)
    requires Tracks(ch, history)
    ensures Tracks(ch, history + [x])
  {
    AcceptedStable(history, x, ch.since, ch.offers);
  }

  /** An offer of the newest change to a channel that was offered all others. */
  lemma OfferTracks(ch: Channel, history: seq<seq<Group>>, snap: Snapshot)
    requires Tracks(ch, history) && ch.since + |ch.offers| == |history| - 1
    requires snap.groups == Copy(history[|history| - 1])
    ensures Tracks(Offer(ch, snap), history)
  {
    var ch' := Offer(ch, snap);
    assert ch'.offers[..|ch.offers|] == ch.offers;
    if |ch.buffer| < CAPACITY {
      assert Contents(ch'.enqueued) == Contents(ch.enqueued) + [snap.groups];
      assert ch'.enqueued[|ch'.enqueued| - |ch'.buffer|..] == ch.enqueued[|ch.enqueued| - |ch.buffer|..] + [snap];
    }
  }

  lemma ReceiveTracks(ch: Channel, history: seq<seq<Group>>)
    requires Tracks(ch, history) && ch.buffer != []
    ensures Tracks(ch.(buffer := ch.buffer[1..]), history)
  {
  }

  lemma HistoryStep(s: State, step: Step)
    requires HistoryOk(s) && Legal(s, step)
    ensures HistoryOk(Apply(s, step))
  {
  }

  /** Sending to the next channel. */
  lemma SendChannels(s: State, t: nat)
    requires LocksHeld(s) && HistoryOk(s) && ChannelsOk(s) && Legal(s, Run(t)) && s.threads[t].Sending?
    requires s.threads[t].next < |s.channels|
    ensures ChannelsOk(RunThread(s, t))
  {
    var s', i := RunThread(s, t), s.threads[t].next;
    var c := s.channels[i];
    var snap := Snapshot(s.threads[t].clone, Copy(s.latest.groups));
    assert s.latestMu == Some(t);
    assert Due(s, i) == |s.history| - 1;
    OfferTracks(s.chans[c], s.history, snap);
    forall p | 0 <= p < |s.channels|
      ensures s'.chans[s'.channels[p]].since + |s'.chans[s'.channels[p]].offers| == Due(s', p)
    {
      SendDue(s, t, p);
    }
  }

  /** The channel a snapshot is offered to has been offered one more change, the others as many. */
  lemma SendDue(s: State, t: nat, p: nat)
    requires LocksHeld(s) && ChannelsOk(s) && Legal(s, Run(t)) && s.threads[t].Sending?
    requires s.threads[t].next < |s.channels| && p < |s.channels|
    ensures var s' := RunThread(s, t);
            && s'.channels == s.channels && |s'.chans| == |s.chans|
            && s'.chans[s'.channels[p]].since + |s'.chans[s'.channels[p]].offers| == Due(s', p)
  {
    var i := s.threads[t].next;
    assert s.latestMu == Some(t);
    assert s.chans[s.channels[p]].since + |s.chans[s.channels[p]].offers| == Due(s, p);
    assert p != i ==> s.channels[p] != s.channels[i];
  }

  lemma {:induction false} WithoutFacts(s: seq<nat>, x: nat)
    requires NoDuplicates(s)
    ensures NoDuplicates(Without(s, x)) && forall y :: y in Without(s, x) <==> y in s && y != x
  {
    if s != [] {
      assert NoDuplicates(s[1..]);
      assert forall y :: y in s <==> y == s[0] || y in s[1..];
      if s[0] != x {
        WithoutFacts(s[1..], x);
        var r := Without(s[1..], x);
        assert s[0] !in r;
        assert Without(s, x) == [s[0]] + r;
      } else {
        assert x !in s[1..];
      }
    }
  }

  lemma RemoveChannels(s: State, t: nat)
    requires LocksHeld(s) && ChannelsOk(s) && Legal(s, Run(t)) && s.threads[t].Removing?
    ensures ChannelsOk(RunThread(s, t))
  {
    var s', c := RunThread(s, t), s.threads[t].chan;
    WithoutFacts(s.channels, c);
    forall p | 0 <= p < |s'.channels|
      ensures s'.channels[p] < |s'.chans|
      ensures s'.chans[s'.channels[p]].since + |s'.chans[s'.channels[p]].offers| == Due(s', p)
    {
      assert s'.channels[p] in s.channels;
      var q :| 0 <= q < |s.channels| && s.channels[q] == s'.channels[p];
      assert s.chans[s.channels[q]].since + |s.chans[s.channels[q]].offers| == Due(s, q);
      NobodySends(s, s', t, p, q);
    }
  }

  /** While another thread holds channelsMu no send is under way, so the position does not matter. */
  lemma NobodySends(s: State, s': State, t: nat, p: nat, q: nat)
    requires LocksHeld(s) && s.channelsMu == Some(t) && t < |s.threads| && s.threads[t].Removing?
    requires s'.threads == s.threads[t := Done] && s'.latestMu == s.latestMu && s'.history == s.history
    ensures Due(s', p) == Due(s, q)
  {
    if s.latestMu.Some? {
      assert s.latestMu.value != t;
      assert !s.threads[s.latestMu.value].Sending?;
    }
  }

  lemma CompareChannels(s: State, t: nat)
    requires LocksHeld(s) && ChannelsOk(s) && Legal(s, Run(t)) && s.threads[t].Comparing?
    ensures ChannelsOk(RunThread(s, t))
  {
    var s' := RunThread(s, t);
    assert s.latestMu == Some(t);
    forall c | 0 <= c < |s.chans| ensures Tracks(s'.chans[c], s'.history) {
      TracksStable(s.chans[c], s.history, s.threads[t].found.groups);
    }
  }

  lemma AddChannels(s: State, t: nat)
    requires LocksHeld(s) && HistoryOk(s) && ChannelsOk(s) && Legal(s, Run(t)) && s.threads[t].Adding?
    ensures ChannelsOk(RunThread(s, t))
  {
    var s' := RunThread(s, t);
    assert s.channelsMu == Some(t);
    if s.latestMu.Some? {
      assert s.latestMu.value != t && !s.threads[s.latestMu.value].Sending?;
    }
    assert Contents([]) == [];
    forall p | 0 <= p < |s'.channels|
      ensures s'.chans[s'.channels[p]].since + |s'.chans[s'.channels[p]].offers| == Due(s', p)
    {
      if p < |s.channels| {
        assert s.chans[s.channels[p]].since + |s.chans[s.channels[p]].offers| == Due(s, p);
      }
    }
  }

  /** Steps that leave the channels, the history and the progress of any delivery alone. */
  lemma QuietChannels(s: State, s': State)
    requires ChannelsOk(s) && s'.channels == s.channels && s'.chans == s.chans && s'.history == s.history
    requires forall p :: 0 <= p < |s.channels| ==> Due(s', p) == Due(s, p)
    ensures ChannelsOk(s')
  {
  }

  lemma QuietFetch(s: State, t: nat)
    requires LocksHeld(s) && HistoryOk(s) && ChannelsOk(s) && Legal(s, Run(t))
    requires s.threads[t].WantFetch? || s.threads[t].Testing? || s.threads[t].Woken? || s.threads[t].WantLatest?
             || s.threads[t].WantChannels? || s.threads[t].Sent?
             || (s.threads[t].Sending? && s.threads[t].next >= |s.channels|)
    ensures ChannelsOk(RunThread(s, t))
  {
    assert HoldsLatest(s.threads[t]) <==> s.latestMu == Some(t);
    QuietChannels(s, RunThread(s, t));
  }

  lemma QuietSubscribe(s: State, t: nat)
    requires LocksHeld(s) && ChannelsOk(s) && Legal(s, Run(t))
    requires s.threads[t].WantSubscribe? || s.threads[t].Added? || s.threads[t].Announced? || s.threads[t].WantRemove?
    ensures ChannelsOk(RunThread(s, t))
  {
    assert s.latestMu != Some(t);
    QuietChannels(s, RunThread(s, t));
  }

  lemma RunChannels(s: State, t: nat)
    requires LocksHeld(s) && HistoryOk(s) && ChannelsOk(s) && Legal(s, Run(t))
    ensures ChannelsOk(RunThread(s, t))
  {
    match s.threads[t]
    case Sending(i, _) => if i < |s.channels| { SendChannels(s, t); } else { QuietFetch(s, t); }
    case Comparing(_) => CompareChannels(s, t);
    case Adding => AddChannels(s, t);
    case Removing(_) => RemoveChannels(s, t);
    case WantSubscribe => QuietSubscribe(s, t);
    case Added(_) => QuietSubscribe(s, t);
    case Announced(_) => QuietSubscribe(s, t);
    case WantRemove(_) => QuietSubscribe(s, t);
    case _ => QuietFetch(s, t);
  }

  lemma ChannelsStep(s: State, step: Step)
    requires LocksHeld(s) && HistoryOk(s) && ChannelsOk(s) && Legal(s, step)
    ensures ChannelsOk(Apply(s, step))
  {
    var s' := Apply(s, step);
    match step
    case Run(t) => RunChannels(s, t);
    case Spawn(_) => QuietChannels(s, s');
    case Found(t, _) =>
      assert s.latestMu != Some(t);
      QuietChannels(s, s');
    case Cancel(t) =>
      assert s.latestMu != Some(t);
      QuietChannels(s, s');
    case Receive(c) =>
      ReceiveTracks(s.chans[c], s.history);
      forall p | 0 <= p < |s.channels|
        ensures s'.chans[s'.channels[p]].since + |s'.chans[s'.channels[p]].offers| == Due(s', p)
      {
        assert s.chans[s.channels[p]].since + |s.chans[s.channels[p]].offers| == Due(s, p);
      }
  }

  /** One thread moves: it keeps its channel, gives it up, or takes one nobody has. */
  lemma OwnersLocal(s: State, s': State, t: nat)
    requires OwnersOk(s) && t < |s.threads| == |s'.threads|
    requires forall u :: 0 <= u < |s.threads| && u != t ==> Responsible(s'.threads[u]) == Responsible(s.threads[u])
    requires forall c :: c in s.channels ==>
               c in s'.channels || (Responsible(s.threads[t]) == Some(c) && Responsible(s'.threads[t]).None?)
    requires var r, r' := Responsible(s.threads[t]), Responsible(s'.threads[t]);
             r' == r || r'.None? || (r'.value !in s.channels && r'.value in s'.channels)
    ensures OwnersOk(s')
  {
    forall u | 0 <= u < |s'.threads| && Responsible(s'.threads[u]).Some?
      ensures Responsible(s'.threads[u]).value in s'.channels
    {
      if u != t && Responsible(s.threads[t]).Some? {
        assert Responsible(s.threads[t]) != Responsible(s.threads[u]);
      }
    }
  }

  lemma OwnersRemove(s: State, t: nat)
    requires LocksHeld(s) && ChannelsOk(s) && OwnersOk(s) && Legal(s, Run(t)) && s.threads[t].Removing?
    ensures OwnersOk(RunThread(s, t))
  {
    WithoutFacts(s.channels, s.threads[t].chan);
    OwnersLocal(s, RunThread(s, t), t);
  }

  lemma OwnersAdd(s: State, t: nat)
    requires ChannelsOk(s) && OwnersOk(s) && Legal(s, Run(t)) && s.threads[t].Adding?
    ensures OwnersOk(RunThread(s, t))
  {
    var s' := RunThread(s, t);
    assert |s.chans| !in s.channels && s'.channels[|s.channels|] == |s.chans|;
    assert forall c :: c in s.channels ==> c in s'.channels;
    OwnersLocal(s, s', t);
  }

  lemma OwnersKept(s: State, t: nat)
    requires OwnersOk(s) && Legal(s, Run(t)) && !s.threads[t].Adding? && !s.threads[t].Removing?
    ensures OwnersOk(RunThread(s, t))
  {
    var s' := RunThread(s, t);
    assert s'.channels == s.channels;
    assert Responsible(s'.threads[t]) == Responsible(s.threads[t]);
    forall u | 0 <= u < |s.threads| && u != t ensures Responsible(s'.threads[u]) == Responsible(s.threads[u]) {
    }
    OwnersLocal(s, s', t);
  }

  lemma OwnersStep(s: State, step: Step)
    requires LocksHeld(s) && ChannelsOk(s) && OwnersOk(s) && Legal(s, step)
    ensures OwnersOk(Apply(s, step))
  {
    match step
    case Run(t) =>
      if s.threads[t].Removing? {
        OwnersRemove(s, t);
      } else if s.threads[t].Adding? {
        OwnersAdd(s, t);
      } else {
        OwnersKept(s, t);
      }
    case Found(t, _) => OwnersLocal(s, Apply(s, step), t);
    case Cancel(t) => OwnersLocal(s, Apply(s, step), t);
    case _ =>
  }

  lemma {:induction false} RunDelivers(states: seq<State>, trace: seq<Step>, i: nat)
    requires IsRun(states, trace) && i < |states|
    ensures LocksHeld(states[i]) && HistoryOk(states[i]) && ChannelsOk(states[i]) && OwnersOk(states[i])
  {
    RunIsSafe(states, trace, i);
    if i > 0 {
      RunDelivers(states, trace, i - 1);
      HistoryStep(states[i - 1], trace[i - 1]);
      ChannelsStep(states[i - 1], trace[i - 1]);
      OwnersStep(states[i - 1], trace[i - 1]);
    }
  }

  /** In every reachable state of every run: consecutive values of `latest` differ; every channel's
      buffer holds at most three snapshots; what was ever enqueued on it is, in order, copies of the
      history of `latest` from its subscription on minus exactly the changes offered while three were buffered;
      and a live subscriber has been offered every change since it subscribed, save one whose delivery
      is still under way. */
  lemma EveryChangeInOrder(states: seq<State>, trace: seq<Step>, s: State, t: nat)
    requires IsRun(states, trace) && s in states
    requires t < |s.threads| && s.threads[t].Subscribed?
    ensures forall i :: 0 < i < |s.history| ==> s.history[i - 1] != s.history[i]
    ensures var c := s.threads[t].chan;
            && c < |s.chans| && c in s.channels
            && var ch := s.chans[c];
            && |ch.buffer| <= CAPACITY && ch.since + |ch.offers| <= |s.history|
            && Contents(ch.enqueued) == Accepted(s.history, ch.since, ch.offers)
            && (forall k :: 0 <= k < |ch.offers| ==> ch.offers[k] <= CAPACITY)
            && |s.history| - 1 <= ch.since + |ch.offers|
            && (s.latestMu.None? ==> ch.since + |ch.offers| == |s.history|)
  {
    var i :| 0 <= i < |states| && states[i] == s;
    RunDelivers(states, trace, i);
    assert Responsible(s.threads[t]) == Some(s.threads[t].chan);
    var p :| 0 <= p < |s.channels| && s.channels[p] == s.threads[t].chan;
    assert s.chans[s.channels[p]].since + |s.chans[s.channels[p]].offers| == Due(s, p);
  }

  /** What is delivered is the value of `latest` itself exactly when no group carries anything that a copy
      does not take over. */
  lemma CopyIsExactIff(groups: seq<Group>)
    ensures Copy(groups) == groups <==> forall i :: 0 <= i < |groups| ==> groups[i].rest == 0
  {
    if forall i :: 0 <= i < |groups| ==> groups[i].rest == 0 {
      assert forall i :: 0 <= i < |groups| ==> Copy(groups)[i] == groups[i];
    }
  }

  /** Two different values are delivered alike exactly when they differ only there. */
  lemma CopiesEqualIff(a: seq<Group>, b: seq<Group>)
    ensures Copy(a) == Copy(b) <==>
            |a| == |b| && forall i :: 0 <= i < |a| ==> a[i].name == b[i].name && a[i].rules == b[i].rules
  {
    if |a| == |b| && forall i :: 0 <= i < |a| ==> a[i].name == b[i].name && a[i].rules == b[i].rules {
      assert forall i :: 0 <= i < |a| ==> Copy(a)[i] == Copy(b)[i];
    }
  }
}
