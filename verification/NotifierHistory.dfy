/** Where the notifier's history comes from and where it goes: what a fetch finds is compared and becomes
    history, what is buffered is received in order, and a channel is listed as long as its subscriber
    stays (pkg/rules/notifier.go). */
module NotifierHistory {
  import opened Core
  import opened Notifier
  import opened NotifierDelivery

  // ---------------------------------------------------------------- single steps

  /** A fetch that found another list than the latest makes it the latest and goes on to deliver it; one
      that found the same list ends and changes nothing. */
  lemma CompareStep(s: State, t: nat)
    requires Legal(s, Run(t)) && s.threads[t].Comparing?
    ensures var s', found := Apply(s, Run(t)), s.threads[t].found;
            && (s'.threads[t] == WantChannels <==> found.groups != s.latest.groups)
            && (found.groups != s.latest.groups ==>
                  s'.latest == found && s'.history == s.history + [found.groups] && s'.latestMu == s.latestMu)
            && (found.groups == s.latest.groups ==>
                  && s'.threads[t] == Done && s'.latest == s.latest && s'.history == s.history
                  && s'.chans == s.chans && s'.latestMu == None)
            && s'.channels == s.channels && s'.chans == s.chans
  {
  }

  /** A new thread begins as a fetch or as a subscription, beside all the others. */
  lemma SpawnStep(s: State, fetcher: bool)
    requires Legal(s, Spawn(fetcher))
    ensures var s', n := Apply(s, Spawn(fetcher)), |s.threads|;
            && |s'.threads| == n + 1 && s'.threads[..n] == s.threads && s' == s.(threads := s'.threads)
            && (fetcher ==> s'.threads[n] == WantFetch) && (!fetcher ==> s'.threads[n] == WantSubscribe)
  {
  }

  /** A fetch goes on to the finder exactly when there is a channel, and otherwise sleeps without the mutex. */
  lemma TestStep(s: State, t: nat)
    requires Legal(s, Run(t)) && s.threads[t].Testing?
    ensures var s' := Apply(s, Run(t));
            && s'.channelsMu == None
            && (s'.threads[t] == Finding <==> s.channels != []) && (s'.threads[t] == Asleep <==> s.channels == [])
  {
  }

  /** The delivery ends exactly when every channel of the list was offered the change. */
  lemma SendStep(s: State, t: nat)
    requires ChannelsOk(s) && Legal(s, Run(t)) && s.threads[t].Sending?
    ensures var s', i := Apply(s, Run(t)), s.threads[t].next;
            if i < |s.channels| then
              && s'.threads[t].Sending? && s'.threads[t].next == i + 1
              && var snap := Snapshot(s.threads[t].clone, Copy(s.latest.groups));
              && s'.chans[s.channels[i]] == Offer(s.chans[s.channels[i]], snap)
              && (forall c :: 0 <= c < |s.chans| && c != s.channels[i] ==> s'.chans[c] == s.chans[c])
            else s'.threads[t] == Sent && s'.chans == s.chans && s'.channelsMu == None
  {
  }

  // ---------------------------------------------------------------- found lists become history

  /** The list a thread carries from the finder to the comparison. */
  function Carried(pc: Pc): Option<seq<Group>> {
    match pc
    case WantLatest(found) => Some(found.groups)
    case Comparing(found) => Some(found.groups)
    case _ => None
  }

  /** A list is carried on from a step to the next, or was just found. */
  lemma CarriedStep(s: State, step: Step, t: nat)
    requires Legal(s, step) && t < |Apply(s, step).threads| && Carried(Apply(s, step).threads[t]).Some?
    ensures || (t < |s.threads| && Carried(s.threads[t]) == Carried(Apply(s, step).threads[t]))
            || step == Found(t, Carried(Apply(s, step).threads[t]))
  {
    match step
    case Run(u) => CarriedRun(s, u, t);
    case _ =>
  }

  /** A thread's step leaves the other threads alone, except that it may wake sleepers. */
  lemma OtherThreads(s: State, u: nat, t: nat)
    requires Legal(s, Run(u)) && t < |s.threads| && t != u
    ensures |RunThread(s, u).threads| == |s.threads|
    ensures RunThread(s, u).threads[t] == s.threads[t] || (s.threads[t].Asleep? && RunThread(s, u).threads[t].Woken?)
  {
  }

  lemma OwnStep(s: State, u: nat)
    requires Legal(s, Run(u))
    ensures |RunThread(s, u).threads| == |s.threads|
    ensures Carried(RunThread(s, u).threads[u]).Some? ==> Carried(s.threads[u]) == Carried(RunThread(s, u).threads[u])
  {
    ThreadsKept(s, u);
    OwnCarried(s, u);
  }

  lemma ThreadsKept(s: State, u: nat)
    requires Legal(s, Run(u))
    ensures |RunThread(s, u).threads| == |s.threads|
  {
  }

  lemma OwnCarried(s: State, u: nat)
    requires Legal(s, Run(u)) && |RunThread(s, u).threads| == |s.threads|
    ensures Carried(RunThread(s, u).threads[u]).Some? ==> Carried(s.threads[u]) == Carried(RunThread(s, u).threads[u])
  {
  }

  lemma CarriedRun(s: State, u: nat, t: nat)
    requires Legal(s, Run(u)) && t < |RunThread(s, u).threads| && Carried(RunThread(s, u).threads[t]).Some?
    ensures t < |s.threads| && Carried(s.threads[t]) == Carried(RunThread(s, u).threads[t])
  {
    OwnStep(s, u);
    if t != u {
      OtherThreads(s, u, t);
    }
  }

  /** Step i of a run. */
  lemma StepOf(states: seq<State>, trace: seq<Step>, i: nat)
    requires IsRun(states, trace) && i < |trace|
    ensures Legal(states[i], trace[i]) && states[i + 1] == Apply(states[i], trace[i])
  {
  }

  /** Thread t's finder returned these groups before step i. */
  ghost predicate FoundBefore(trace: seq<Step>, i: nat, t: nat, groups: Option<seq<Group>>) {
    exists k :: 0 <= k < i && k < |trace| && trace[k] == Found(t, groups)
  }

  /** What a fetch compares is what its finder returned. */
  lemma {:induction false} ComparesWhatItFound(states: seq<State>, trace: seq<Step>, i: nat, t: nat)
    requires IsRun(states, trace) && i < |states| && t < |states[i].threads| && Carried(states[i].threads[t]).Some?
    ensures FoundBefore(trace, i, t, Carried(states[i].threads[t]))
  {
    StepOf(states, trace, i - 1);
    CarriedStep(states[i - 1], trace[i - 1], t);
    var groups := Carried(states[i].threads[t]);
    if trace[i - 1] != Found(t, groups) {
      ComparesWhatItFound(states, trace, i - 1, t);
    }
  }

  lemma HistoryGrowsStep(s: State, step: Step)
    requires Legal(s, step)
    ensures s.history <= Apply(s, step).history
  {
  }

  lemma {:induction false} HistoryGrows(states: seq<State>, trace: seq<Step>, i: nat, j: nat)
    requires IsRun(states, trace) && i <= j < |states|
    ensures states[i].history <= states[j].history
  {
    if i < j {
      HistoryGrows(states, trace, i, j - 1);
      HistoryGrowsStep(states[j - 1], trace[j - 1]);
    }
  }

  /** Every list that a fetch compares is from then on in the history, at the place of the list that was
      the latest or right after it. */
  lemma EveryComparedListIsHistory(states: seq<State>, trace: seq<Step>, i: nat, j: nat, t: nat)
    requires IsRun(states, trace) && i < |trace| && i < j < |states|
    requires trace[i] == Run(t) && states[i].threads[t].Comparing?
    ensures exists h :: && |states[i].history| - 1 <= h <= |states[i].history| && 0 <= h < |states[j].history|
                        && states[j].history[h] == states[i].threads[t].found.groups
  {
    RunDelivers(states, trace, i);
    CompareStep(states[i], t);
    HistoryGrows(states, trace, i + 1, j);
    var n, found := |states[i].history|, states[i].threads[t].found.groups;
    var h := if found == states[i].latest.groups then n - 1 else n;
    assert states[i + 1].history[h] == found;
  }

  lemma NewHistory(s: State, step: Step)
    requires Legal(s, step) && Apply(s, step).history != s.history
    ensures step.Run? && s.threads[step.thread].Comparing?
    ensures Apply(s, step).history == s.history + [s.threads[step.thread].found.groups]
  {
  }

  /** Some fetch found these groups before step i. */
  ghost predicate FoundBySome(trace: seq<Step>, i: nat, groups: seq<Group>) {
    exists t: nat :: FoundBefore(trace, i, t, Some(groups))
  }

  lemma FoundEarlier(trace: seq<Step>, i: nat, j: nat, groups: seq<Group>)
    requires FoundBySome(trace, i, groups) && i <= j
    ensures FoundBySome(trace, j, groups)
  {
    var t: nat :| FoundBefore(trace, i, t, Some(groups));
    assert FoundBefore(trace, j, t, Some(groups));
  }

  /** And nothing else is: every entry of the history after the first was found by some fetch. */
  lemma {:induction false} HistoryWasFound(states: seq<State>, trace: seq<Step>, i: nat, h: nat)
    requires IsRun(states, trace) && i < |states| && 0 < h < |states[i].history|
    ensures FoundBySome(trace, i, states[i].history[h])
  {
    StepOf(states, trace, i - 1);
    HistoryGrowsStep(states[i - 1], trace[i - 1]);
    if h < |states[i - 1].history| {
      HistoryWasFound(states, trace, i - 1, h);
      FoundEarlier(trace, i - 1, i, states[i].history[h]);
    } else {
      NewHistory(states[i - 1], trace[i - 1]);
      var t := trace[i - 1].thread;
      ComparesWhatItFound(states, trace, i - 1, t);
      assert FoundBefore(trace, i - 1, t, Some(states[i].history[h]));
      FoundEarlier(trace, i - 1, i, states[i].history[h]);
    }
  }

  // ---------------------------------------------------------------- receiving

  /** How often channel c was received from. */
  function Receipts(trace: seq<Step>, c: nat): nat {
    if trace == [] then 0
    else
      var n := |trace| - 1;
      Receipts(trace[..n], c) + if trace[n] == Receive(c) then 1 else 0
  }

  lemma ReceiptStep(s: State, step: Step, c: nat)
    requires Legal(s, step) && c < |s.chans|
    ensures var before, after := s.chans[c], Apply(s, step).chans[c];
            |after.enqueued| - |after.buffer|
            == |before.enqueued| - |before.buffer| + if step == Receive(c) then 1 else 0
  {
    match step
    case Run(t) => ReceiptRun(s, t, c);
    case _ =>
  }

  lemma ReceiptRun(s: State, t: nat, c: nat)
    requires Legal(s, Run(t)) && c < |s.chans|
    ensures var before, after := s.chans[c], RunThread(s, t).chans[c];
            |after.enqueued| - |after.buffer| == |before.enqueued| - |before.buffer|
  {
  }

  lemma NewChannel(s: State, step: Step, c: nat)
    requires Legal(s, step) && |s.chans| <= c < |Apply(s, step).chans|
    ensures Apply(s, step).chans[c].buffer == [] && Apply(s, step).chans[c].enqueued == []
  {
  }

  lemma ChansGrow(s: State, step: Step)
    requires Legal(s, step)
    ensures |s.chans| <= |Apply(s, step).chans|
  {
  }

  lemma {:induction false} NoReceiptBefore(states: seq<State>, trace: seq<Step>, i: nat, c: nat)
    requires IsRun(states, trace) && i < |states| && |states[i].chans| <= c
    ensures Receipts(trace[..i], c) == 0
  {
    if i > 0 {
      ChansGrow(states[i - 1], trace[i - 1]);
      NoReceiptBefore(states, trace, i - 1, c);
      assert trace[..i][..i - 1] == trace[..i - 1];
    }
  }

  /** As many snapshots have left a channel as were received from it. */
  lemma {:induction false} ReceivedCount(states: seq<State>, trace: seq<Step>, i: nat, c: nat)
    requires IsRun(states, trace) && i < |states| && c < |states[i].chans|
    ensures Receipts(trace[..i], c) == |states[i].chans[c].enqueued| - |states[i].chans[c].buffer|
  {
    var n := i - 1;
    assert trace[..i][..n] == trace[..n];
    if c < |states[n].chans| {
      ReceivedCount(states, trace, n, c);
      ReceiptStep(states[n], trace[n], c);
    } else {
      NewChannel(states[n], trace[n], c);
      NoReceiptBefore(states, trace, n, c);
    }
  }

  /** So the k-th receipt from a channel, counted from zero, gets the k-th snapshot ever enqueued on it:
      in order, none lost and none twice. */
  lemma ReceivedInOrder(states: seq<State>, trace: seq<Step>, i: nat, c: nat)
    requires IsRun(states, trace) && i < |trace| && trace[i] == Receive(c)
    ensures var ch, k := states[i].chans[c], Receipts(trace[..i], c);
            && k < |ch.enqueued| && ch.buffer != [] && ch.buffer[0] == ch.enqueued[k]
            && states[i + 1].chans[c].buffer == ch.buffer[1..]
  {
    ReceivedCount(states, trace, i, c);
    RunDelivers(states, trace, i);
    assert Tracks(states[i].chans[c], states[i].history);
  }

  // ---------------------------------------------------------------- no channel outlives its subscriber

  /** Some subscriber has appended the channel and not yet removed it. */
  ghost predicate Owned(threads: seq<Pc>, c: nat) {
    exists t :: 0 <= t < |threads| && Responsible(threads[t]) == Some(c)
  }

  /** Every listed channel belongs to a subscriber that has not removed it. */
  ghost predicate NoOrphans(s: State) { forall c :: c in s.channels ==> Owned(s.threads, c) }

  /** A step of thread t that does not give up the channel. */
  lemma StillOwned(threads: seq<Pc>, threads': seq<Pc>, t: nat, c: nat)
    requires Owned(threads, c) && t < |threads| <= |threads'|
    requires forall u :: 0 <= u < |threads| && u != t ==> Responsible(threads'[u]) == Responsible(threads[u])
    requires Responsible(threads[t]) == Some(c) ==> Responsible(threads'[t]) == Some(c)
    ensures Owned(threads', c)
  {
    var u :| 0 <= u < |threads| && Responsible(threads[u]) == Some(c);
    assert Responsible(threads'[u]) == Some(c);
  }

  lemma OthersResponsible(s: State, t: nat)
    requires Legal(s, Run(t))
    ensures |RunThread(s, t).threads| == |s.threads|
    ensures forall u :: 0 <= u < |s.threads| && u != t ==>
              Responsible(RunThread(s, t).threads[u]) == Responsible(s.threads[u])
  {
    OwnStep(s, t);
    forall u | 0 <= u < |s.threads| && u != t
      ensures Responsible(RunThread(s, t).threads[u]) == Responsible(s.threads[u])
    {
      OtherThreads(s, t, u);
    }
  }

  /** A thread's step leaves the list of channels alone, or appends its own new one, or removes its own. */
  lemma QuietStep(s: State, t: nat)
    requires Legal(s, Run(t)) && !s.threads[t].Adding? && !s.threads[t].Removing?
    ensures RunThread(s, t).channels == s.channels
    ensures Responsible(RunThread(s, t).threads[t]) == Responsible(s.threads[t])
  {
  }

  lemma AppendStep(s: State, t: nat)
    requires Legal(s, Run(t)) && s.threads[t].Adding?
    ensures RunThread(s, t).channels == s.channels + [|s.chans|]
    ensures Responsible(RunThread(s, t).threads[t]) == Some(|s.chans|)
  {
  }

  lemma RemoveStep(s: State, t: nat)
    requires ChannelsOk(s) && Legal(s, Run(t)) && s.threads[t].Removing?
    ensures forall c :: c in RunThread(s, t).channels <==> c in s.channels && c != s.threads[t].chan
  {
    WithoutFacts(s.channels, s.threads[t].chan);
  }

  lemma OrphansRun(s: State, t: nat)
    requires ChannelsOk(s) && NoOrphans(s) && Legal(s, Run(t))
    ensures NoOrphans(RunThread(s, t))
  {
    OthersResponsible(s, t);
    if s.threads[t].Adding? {
      AppendStep(s, t);
    } else if s.threads[t].Removing? {
      RemoveStep(s, t);
    } else {
      QuietStep(s, t);
    }
    forall c | c in RunThread(s, t).channels ensures Owned(RunThread(s, t).threads, c) {
      if c !in s.channels {
        assert Responsible(RunThread(s, t).threads[t]) == Some(c);
      } else {
        StillOwned(s.threads, RunThread(s, t).threads, t, c);
      }
    }
  }

  lemma OrphansStep(s: State, step: Step)
    requires ChannelsOk(s) && NoOrphans(s) && Legal(s, step)
    ensures NoOrphans(Apply(s, step))
  {
    var s' := Apply(s, step);
    match step
    case Run(t) => OrphansRun(s, t);
    case Receive(_) =>
    case Spawn(_) =>
      forall c | c in s'.channels ensures Owned(s'.threads, c) {
        var u :| 0 <= u < |s.threads| && Responsible(s.threads[u]) == Some(c);
        assert s'.threads[u] == s.threads[u];
      }
    case Found(t, _) =>
      forall c | c in s'.channels ensures Owned(s'.threads, c) {
        StillOwned(s.threads, s'.threads, t, c);
      }
    case Cancel(t) =>
      forall c | c in s'.channels ensures Owned(s'.threads, c) {
        StillOwned(s.threads, s'.threads, t, c);
      }
  }

  lemma {:induction false} RunHasNoOrphans(states: seq<State>, trace: seq<Step>, i: nat)
    requires IsRun(states, trace) && i < |states|
    ensures NoOrphans(states[i])
  {
    if i > 0 {
      RunHasNoOrphans(states, trace, i - 1);
      RunDelivers(states, trace, i - 1);
      StepOf(states, trace, i - 1);
      OrphansStep(states[i - 1], trace[i - 1]);
    }
  }

  lemma OwnedIsListed(s: State, c: nat)
    requires OwnersOk(s) && Owned(s.threads, c)
    ensures c in s.channels
  {
  }

  /** In every reachable state the listed channels are exactly those of the subscribers that have appended
      and not yet removed theirs, each once. */
  lemma ListedIffSubscribed(states: seq<State>, trace: seq<Step>, i: nat, c: nat)
    requires IsRun(states, trace) && i < |states|
    ensures NoDuplicates(states[i].channels) && (c in states[i].channels <==> Owned(states[i].threads, c))
  {
    RunDelivers(states, trace, i);
    RunHasNoOrphans(states, trace, i);
    if Owned(states[i].threads, c) {
      OwnedIsListed(states[i], c);
    }
  }
}
