/** The rule update notifier (pkg/rules/notifier.go) as interleaved steps of any number of threads:
    fetchers running FetchRules, subscribers running NotifyC and, when cancelled, its removal
    goroutine, and consumers receiving from the channels.

    A snapshot carries the identity of the list it is stored in, so sharing is visible. */
module Notifier {
  import opened Core

  /** `rest` is whatever a group carries besides what a copy takes over. */
  datatype Group = Group(name: string, rules: seq<string>, rest: int)

  /** The copy that is sent: what is not taken over is left at zero. */
  function Copy(groups: seq<Group>): (r: seq<Group>)
    ensures |r| == |groups| && forall i :: 0 <= i < |r| ==> r[i] == groups[i].(rest := 0)
  {
    seq(|groups|, i requires 0 <= i < |groups| => groups[i].(rest := 0))
  }

  datatype Snapshot = Snapshot(list: nat, groups: seq<Group>)

  /** Where a thread is. Names starting with Want block until the mutex is free. */
  datatype Pc =
    | WantFetch                       // FetchRules: before the first lock
    | Testing                         // holds channelsMu, tests whether there are channels
    | Asleep                          // in Cond.Wait, not signalled
    | Woken                           // in Cond.Wait, signalled; wants channelsMu again
    | Finding                         // calls the finder, holds nothing
    | WantLatest(found: Snapshot)
    | Comparing(found: Snapshot)      // holds latestMu
    | WantChannels                    // holds latestMu, latest is assigned
    | Sending(next: nat, clone: nat)  // holds both; the clone to send next
    | Sent                            // holds latestMu
    | WantSubscribe                   // NotifyC: before the lock
    | Adding                          // holds channelsMu
    | Added(chan: nat)                // holds channelsMu, the channel is appended
    | Announced(chan: nat)            // holds channelsMu
    | Subscribed(chan: nat)           // returned; its context is live
    | WantRemove(chan: nat)           // the context is done
    | Removing(chan: nat)             // holds channelsMu
    | Done

  /** A channel: what is buffered, all that was ever enqueued, the history index it subscribed at, and
      for each change since, how many snapshots were buffered when the change was offered. */
  datatype Channel = Channel(buffer: seq<Snapshot>, enqueued: seq<Snapshot>, since: nat, offers: seq<nat>)

  const CAPACITY := 3

  datatype State = State(
    threads: seq<Pc>,
    channelsMu: Option<nat>,
    latestMu: Option<nat>,
    channels: seq<nat>,
    chans: seq<Channel>,
    latest: Snapshot,
    history: seq<seq<Group>>,
    nextList: nat)

  datatype Step =
    | Spawn(fetcher: bool)
    | Run(thread: nat)
    | Found(thread: nat, groups: Option<seq<Group>>)
    | Cancel(thread: nat)
    | Receive(chan: nat)

  predicate HoldsChannels(pc: Pc) {
    pc.Testing? || pc.Sending? || pc.Adding? || pc.Added? || pc.Announced? || pc.Removing?
  }

  predicate HoldsLatest(pc: Pc) { pc.Comparing? || pc.WantChannels? || pc.Sending? || pc.Sent? }

  predicate WantsChannels(pc: Pc) {
    pc.WantFetch? || pc.Woken? || pc.WantChannels? || pc.WantSubscribe? || pc.WantRemove?
  }

  predicate WantsLatest(pc: Pc) { pc.WantLatest? }

  /** Waiting for something other than a mutex: a signal, the context, or nothing at all. */
  predicate Resting(pc: Pc) { pc.Asleep? || pc.Subscribed? || pc.Done? }

  /** The thread can take its next step now. */
  predicate Ready(s: State, t: nat)
    requires t < |s.threads|
  {
    var pc := s.threads[t];
    !Resting(pc) && (WantsChannels(pc) ==> s.channelsMu.None?) && (WantsLatest(pc) ==> s.latestMu.None?)
  }

  predicate Legal(s: State, step: Step) {
    match step
    case Spawn(_) => true
    case Run(t) =>
      t < |s.threads| && Ready(s, t) && !s.threads[t].Finding?
    case Found(t, _) => t < |s.threads| && s.threads[t].Finding?
    case Cancel(t) => t < |s.threads| && s.threads[t].Subscribed?
    case Receive(c) => c < |s.chans| && s.chans[c].buffer != []
  }

  function At(s: State, t: nat, pc: Pc): State
    requires t < |s.threads|
  {
    s.(threads := s.threads[t := pc])
  }

  function WakeAll(threads: seq<Pc>): (r: seq<Pc>)
    ensures |r| == |threads|
    ensures forall i :: 0 <= i < |r| ==> r[i] == if threads[i].Asleep? then Woken else threads[i]
  {
    seq(|threads|, i requires 0 <= i < |threads| => if threads[i].Asleep? then Woken else threads[i])
  }

  function Without(s: seq<nat>, x: nat): seq<nat> {
    if s == [] then [] else if s[0] == x then s[1..] else [s[0]] + Without(s[1..], x)
  }

  /** Offers a snapshot to a channel: enqueued unless the buffer is full. */
  function Offer(ch: Channel, snap: Snapshot): Channel {
    var tried := ch.(offers := ch.offers + [|ch.buffer|]);
    if |ch.buffer| < CAPACITY then tried.(buffer := ch.buffer + [snap], enqueued := ch.enqueued + [snap]) else tried
  }

  /** The number of history entries already dealt with when a channel is appended. */
  function SubscribedAt(s: State): nat {
    if && s.latestMu.Some? && s.latestMu.value < |s.threads|
       && s.threads[s.latestMu.value].WantChannels? && |s.history| > 0
    then |s.history| - 1 else |s.history|
  }

  function Sending1(s: State, t: nat): State
    requires t < |s.threads| && s.threads[t].Sending?
  {
    var Sending(i, clone) := s.threads[t];
    if i >= |s.channels| || s.channels[i] >= |s.chans| then At(s, t, Sent).(channelsMu := None)
    else
      var c := s.channels[i];
      var ch := Offer(s.chans[c], Snapshot(clone, Copy(s.latest.groups)));
      if |s.chans[c].buffer| < CAPACITY then
        At(s, t, Sending(i + 1, s.nextList)).(chans := s.chans[c := ch], nextList := s.nextList + 1)
      else
        At(s, t, Sending(i + 1, clone)).(chans := s.chans[c := ch])
  }

  function RunThread(s: State, t: nat): State
    requires Legal(s, Run(t))
  {
    match s.threads[t]
    case WantFetch => At(s, t, Testing).(channelsMu := Some(t))
    case Testing =>
      if |s.channels| == 0 then At(s, t, Asleep).(channelsMu := None) else At(s, t, Finding).(channelsMu := None)
    case Woken => At(s, t, Testing).(channelsMu := Some(t))
    case WantLatest(found) => At(s, t, Comparing(found)).(latestMu := Some(t))
    case Comparing(found) =>
      if found.groups == s.latest.groups then At(s, t, Done).(latestMu := None)
      else At(s, t, WantChannels).(latest := found, history := s.history + [found.groups])
    case WantChannels =>
      At(s, t, Sending(0, s.nextList)).(channelsMu := Some(t), nextList := s.nextList + 1)
    case Sending(_, _) => Sending1(s, t)
    case Sent => At(s, t, Done).(latestMu := None)
    case WantSubscribe => At(s, t, Adding).(channelsMu := Some(t))
    case Adding =>
      At(s, t, Added(|s.chans|)).(chans := s.chans + [Channel([], [], SubscribedAt(s), [])],
                                  channels := s.channels + [|s.chans|])
    case Added(c) =>
      var s' := if |s.channels| == 1 then s.(threads := WakeAll(s.threads)) else s;
      At(s', t, Announced(c))
    case Announced(c) => At(s, t, Subscribed(c)).(channelsMu := None)
    case WantRemove(c) => At(s, t, Removing(c)).(channelsMu := Some(t))
    case Removing(c) => At(s, t, Done).(channels := Without(s.channels, c), channelsMu := None)
    case _ => s
  }

  function Apply(s: State, step: Step): State
    requires Legal(s, step)
  {
    match step
    case Spawn(fetcher) => s.(threads := s.threads + [if fetcher then WantFetch else WantSubscribe])
    case Run(t) => RunThread(s, t)
    case Found(t, None) => At(s, t, Done)
    case Found(t, Some(groups)) => At(s, t, WantLatest(Snapshot(s.nextList, groups))).(nextList := s.nextList + 1)
    case Cancel(t) => At(s, t, WantRemove(s.threads[t].chan))
    case Receive(c) => s.(chans := s.chans[c := s.chans[c].(buffer := s.chans[c].buffer[1..])])
  }

  /** NewUpdateNotifier: an empty list is the latest, nobody is subscribed. */
  const INITIAL := State([], None, None, [], [], Snapshot(0, []), [[]], 1)

  /** A run: any interleaving of steps from the initial state. */
  ghost predicate IsRun(states: seq<State>, trace: seq<Step>) {
    && |states| == |trace| + 1 && states[0] == INITIAL
    && forall i :: 0 <= i < |trace| ==> Legal(states[i], trace[i]) && states[i + 1] == Apply(states[i], trace[i])
  }

  /** The comparison of a found list with the latest one: first the lengths, then group by group. */
  method Modified(groups: seq<Group>, latest: seq<Group>) returns (modified: bool)
    ensures modified <==> groups != latest
  {
    modified := false;
    if |groups| == |latest| {
      for i := 0 to |groups|
        invariant !modified && groups[..i] == latest[..i]
      {
        if groups[i] != latest[i] {
          modified := true;
          break;
        }
      }
    } else {
      modified := true;
    }
    assert !modified ==> groups[..|groups|] == latest[..|latest|];
  }

  // ---------------------------------------------------------------- mutexes

  ghost predicate LocksHeld(s: State) {
    && (forall t :: 0 <= t < |s.threads| ==> (HoldsChannels(s.threads[t]) <==> s.channelsMu == Some(t)))
    && (forall t :: 0 <= t < |s.threads| ==> (HoldsLatest(s.threads[t]) <==> s.latestMu == Some(t)))
    && (s.channelsMu.Some? ==> s.channelsMu.value < |s.threads|)
    && (s.latestMu.Some? ==> s.latestMu.value < |s.threads|)
  }

  /** A thread may acquire a free mutex and release its own. */
  predicate MutexMove(before: Option<nat>, after: Option<nat>, t: nat) {
    after == before || (before.None? && after == Some(t)) || (before == Some(t) && after.None?)
  }

  lemma LocksLocal(s: State, s': State, t: nat)
    requires LocksHeld(s) && t < |s.threads| == |s'.threads|
    requires MutexMove(s.channelsMu, s'.channelsMu, t) && MutexMove(s.latestMu, s'.latestMu, t)
    requires HoldsChannels(s'.threads[t]) <==> s'.channelsMu == Some(t)
    requires HoldsLatest(s'.threads[t]) <==> s'.latestMu == Some(t)
    requires forall u :: 0 <= u < |s.threads| && u != t ==>
               s'.threads[u] == s.threads[u] || (s.threads[u].Asleep? && s'.threads[u].Woken?)
    ensures LocksHeld(s')
  {
    forall u | 0 <= u < |s.threads|
      ensures HoldsChannels(s'.threads[u]) <==> s'.channelsMu == Some(u)
      ensures HoldsLatest(s'.threads[u]) <==> s'.latestMu == Some(u)
    {
      assert HoldsChannels(s.threads[u]) <==> s.channelsMu == Some(u);
      assert HoldsLatest(s.threads[u]) <==> s.latestMu == Some(u);
    }
  }

  lemma LocksFetch(s: State, t: nat)
    requires LocksHeld(s) && Legal(s, Run(t))
    requires s.threads[t].WantFetch? || s.threads[t].Testing? || s.threads[t].Woken? || s.threads[t].WantLatest?
             || s.threads[t].Comparing? || s.threads[t].WantChannels? || s.threads[t].Sending? || s.threads[t].Sent?
    ensures LocksHeld(RunThread(s, t))
  {
    LocksLocal(s, RunThread(s, t), t);
  }

  lemma LocksSubscribe(s: State, t: nat)
    requires LocksHeld(s) && Legal(s, Run(t))
    requires s.threads[t].WantSubscribe? || s.threads[t].Adding? || s.threads[t].Added? || s.threads[t].Announced?
             || s.threads[t].WantRemove? || s.threads[t].Removing?
    ensures LocksHeld(RunThread(s, t))
  {
    LocksLocal(s, RunThread(s, t), t);
  }

  lemma LocksStep(s: State, step: Step)
    requires LocksHeld(s) && Legal(s, step)
    ensures LocksHeld(Apply(s, step))
  {
    match step
    case Run(t) =>
      var pc := s.threads[t];
      if pc.WantSubscribe? || pc.Adding? || pc.Added? || pc.Announced? || pc.WantRemove? || pc.Removing? {
        LocksSubscribe(s, t);
      } else {
        LocksFetch(s, t);
      }
    case Found(t, _) => LocksLocal(s, Apply(s, step), t);
    case Cancel(t) => LocksLocal(s, Apply(s, step), t);
    case Spawn(_) =>
      var s' := Apply(s, step);
      forall u | 0 <= u < |s'.threads|
        ensures HoldsChannels(s'.threads[u]) <==> s'.channelsMu == Some(u)
        ensures HoldsLatest(s'.threads[u]) <==> s'.latestMu == Some(u)
      {
        assert u < |s.threads| ==> s'.threads[u] == s.threads[u];
      }
    case Receive(_) =>
  }

  // ---------------------------------------------------------------- wakeups

  /** A sleeping fetcher means there is no channel, or the first one is just being announced. */
  ghost predicate NoLostWakeup(s: State) {
    forall t :: 0 <= t < |s.threads| && s.threads[t].Asleep? ==>
      || s.channels == []
      || (&& |s.channels| == 1 && s.channelsMu.Some? && s.channelsMu.value < |s.threads|
          && s.threads[s.channelsMu.value].Added?)
  }

  lemma {:induction false} WithoutLength(s: seq<nat>, x: nat)
    ensures |s| - 1 <= |Without(s, x)| <= |s|
  {
    if s != [] && s[0] != x {
      WithoutLength(s[1..], x);
    }
  }

  lemma WakeupStep(s: State, step: Step)
    requires LocksHeld(s) && NoLostWakeup(s) && Legal(s, step)
    ensures NoLostWakeup(Apply(s, step))
  {
    match step
    case Run(t) => WakeupRun(s, t);
    case _ =>
  }

  lemma WakeupRun(s: State, t: nat)
    requires LocksHeld(s) && NoLostWakeup(s) && Legal(s, Run(t))
    ensures NoLostWakeup(RunThread(s, t))
  {
    if s.threads[t].Removing? {
      WithoutLength(s.channels, s.threads[t].chan);
    }
  }

  lemma {:induction false} RunIsSafe(states: seq<State>, trace: seq<Step>, i: nat)
    requires IsRun(states, trace) && i < |states|
    ensures LocksHeld(states[i]) && NoLostWakeup(states[i])
  {
    if i > 0 {
      RunIsSafe(states, trace, i - 1);
      LocksStep(states[i - 1], trace[i - 1]);
      WakeupStep(states[i - 1], trace[i - 1]);
    }
  }

  /** In every reachable state, whenever a channel is subscribed and no subscriber is between appending
      its channel and announcing it, no fetcher sleeps unsignalled; and a subscriber at that point can
      announce next, which wakes every sleeper. */
  lemma NoFetcherForgotten(states: seq<State>, trace: seq<Step>, s: State, t: nat)
    requires IsRun(states, trace) && s in states && t < |s.threads| && s.threads[t].Asleep? && s.channels != []
    ensures s.channelsMu.Some? && s.channelsMu.value < |s.threads| && s.threads[s.channelsMu.value].Added?
    ensures Legal(s, Run(s.channelsMu.value)) && Apply(s, Run(s.channelsMu.value)).threads[t] == Woken
  {
    var i :| 0 <= i < |states| && states[i] == s;
    RunIsSafe(states, trace, i);
  }

  /** No circular wait: in every reachable state a blocked thread waits for a mutex whose holder can
      run, or waits for latestMu whose holder waits for channelsMu whose holder can run. No holder of
      channelsMu ever waits for a mutex, and a sleeping fetcher holds none. */
  lemma NoDeadlock(states: seq<State>, trace: seq<Step>, s: State, t: nat)
    requires IsRun(states, trace) && s in states && t < |s.threads| && !Resting(s.threads[t])
    ensures || Ready(s, t)
            || (WantsChannels(s.threads[t]) && Held(s, s.channelsMu) && Ready(s, s.channelsMu.value))
            || (WantsLatest(s.threads[t]) && Held(s, s.latestMu)
                && (|| Ready(s, s.latestMu.value)
                    || (&& WantsChannels(s.threads[s.latestMu.value])
                        && Held(s, s.channelsMu) && Ready(s, s.channelsMu.value))))
    ensures s.channelsMu == Some(t) ==> Ready(s, t)
  {
    var i :| 0 <= i < |states| && states[i] == s;
    RunIsSafe(states, trace, i);
  }

  predicate Held(s: State, m: Option<nat>) { m.Some? && m.value < |s.threads| }
}
