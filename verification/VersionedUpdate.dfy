/** Optimistic updates of one key (pkg/storage/etcd/token_store.go and cluster_store.go): read the
    value and its version, mutate, commit if the version is unchanged, retry a bounded number of
    times. Any number of clients interleave their reads and commits, and other writers put and
    delete the key.

    `erase` forgets what a read may refresh: the time to live and lease of a token, nothing of a
    cluster. Versions count writes since the key was last created; `life` counts the creations,
    which the store does not show. */
module VersionedUpdate {

  /** Reads of a cluster refresh nothing. */
  function Same<T>(x: T): T { x }

  datatype Entry<T> = Absent | Present(value: T, version: nat)

  datatype Phase<T> =
    | Ready(failed: nat)                                        // about to read; so many commits failed
    | HasRead(seen: T, version: nat, failed: nat, life: nat)    // about to commit what it read in that life
    | Succeeded(failed: nat)
    | Exhausted                                                 // the retry budget is spent
    | KeyMissing                                                // the read found no key

  datatype Client<!T> = Client(mutate: T -> T, phase: Phase<T>)

  /** `base` is the value last put, `log` the clients that committed since, `commits` all of them. */
  datatype State<!T> =
    State(entry: Entry<T>, life: nat, clients: seq<Client<T>>, base: T, log: seq<nat>, commits: seq<nat>)

  datatype Step<T> = Read(client: nat, seen: T) | Commit(client: nat) | Put(value: T) | Delete

  ghost predicate Legal<T, E(!new)>(s: State<T>, step: Step<T>, erase: T -> E) {
    match step
    case Read(c, seen) =>
      && c < |s.clients| && s.clients[c].phase.Ready?
      && (s.entry.Present? ==> erase(seen) == erase(s.entry.value))
    case Commit(c) => c < |s.clients| && s.clients[c].phase.HasRead?
    case Put(_) => true
    case Delete => true
  }

  function SetPhase<T>(s: State<T>, c: nat, p: Phase<T>): State<T>
    requires c < |s.clients|
  {
    s.(clients := s.clients[c := s.clients[c].(phase := p)])
  }

  ghost function Apply<T, E(!new)>(s: State<T>, step: Step<T>, erase: T -> E, budget: nat): State<T>
    requires Legal(s, step, erase)
  {
    match step
    case Read(c, seen) =>
      if s.entry.Absent? then SetPhase(s, c, KeyMissing)
      else SetPhase(s, c, HasRead(seen, s.entry.version, s.clients[c].phase.failed, s.life))
    case Commit(c) =>
      var p := s.clients[c].phase;
      if s.entry.Present? && s.entry.version == p.version then
        SetPhase(s.(entry := Present(s.clients[c].mutate(p.seen), p.version + 1),
                    log := s.log + [c], commits := s.commits + [c]), c, Succeeded(p.failed))
      else SetPhase(s, c, if p.failed + 1 < budget then Ready(p.failed + 1) else Exhausted)
    case Put(v) =>
      if s.entry.Present? then s.(entry := Present(v, s.entry.version + 1), base := v, log := [])
      else s.(entry := Present(v, 1), life := s.life + 1, base := v, log := [])
    case Delete => s.(entry := Absent)
  }

  /** `trace` is a possible sequence of steps from `s`. */
  ghost predicate Runs<T, E(!new)>(s: State<T>, trace: seq<Step<T>>, erase: T -> E, budget: nat)
    decreases |trace|, 0
  {
    trace == [] || (var n := |trace| - 1;
                    Runs(s, trace[..n], erase, budget) && Legal(After(s, trace[..n], erase, budget), trace[n], erase))
  }

  ghost function After<T, E(!new)>(s: State<T>, trace: seq<Step<T>>, erase: T -> E, budget: nat): State<T>
    requires Runs(s, trace, erase, budget)
    decreases |trace|, 1
  {
    if trace == [] then s
    else var n := |trace| - 1; Apply(After(s, trace[..n], erase, budget), trace[n], erase, budget)
  }

  lemma OneMore<T, E(!new)>(s: State<T>, trace: seq<Step<T>>, step: Step<T>, erase: T -> E, budget: nat)
    requires Runs(s, trace, erase, budget) && Legal(After(s, trace, erase, budget), step, erase)
    ensures Runs(s, trace + [step], erase, budget)
    ensures After(s, trace + [step], erase, budget) == Apply(After(s, trace, erase, budget), step, erase, budget)
  {
    assert (trace + [step])[..|trace|] == trace;
  }

  // ---------------------------------------------------------------- linearization

  /** The value obtained by applying the mutators of the clients in `log`, in order. */
  function Fold<T>(base: T, log: seq<nat>, clients: seq<Client<T>>): T
    requires forall i :: 0 <= i < |log| ==> log[i] < |clients|
  {
    if log == [] then base
    else var n := |log| - 1; clients[log[n]].mutate(Fold(base, log[..n], clients))
  }

  /** The mutator's effect does not depend on what a read may refresh. */
  ghost predicate Respects<T(!new), E(!new)>(m: T -> T, erase: T -> E) {
    forall x, y {:trigger m(x), m(y)} :: erase(x) == erase(y) ==> erase(m(x)) == erase(m(y))
  }

  ghost predicate InLog<T>(s: State<T>) { forall i :: 0 <= i < |s.log| ==> s.log[i] < |s.clients| }

  /** What a client read in the key's present life is still there if the version is. */
  ghost predicate FreshRead<T, E(!new)>(s: State<T>, c: nat, erase: T -> E)
    requires c < |s.clients|
  {
    s.clients[c].phase.HasRead? ==>
      && s.clients[c].phase.life <= s.life
      && (s.entry.Present? && s.clients[c].phase.life == s.life ==>
            && s.clients[c].phase.version <= s.entry.version
            && (s.clients[c].phase.version == s.entry.version ==>
                  erase(s.clients[c].phase.seen) == erase(s.entry.value)))
  }

  function Occurrences(log: seq<nat>, c: nat): nat {
    if log == [] then 0 else Occurrences(log[..|log| - 1], c) + if log[|log| - 1] == c then 1 else 0
  }

  ghost predicate AllRespect<T(!new), E(!new)>(s: State<T>, erase: T -> E) {
    forall c :: 0 <= c < |s.clients| ==> Respects(s.clients[c].mutate, erase)
  }

  /** The stored value is the last put one folded with the mutators committed since. */
  ghost predicate Folded<T, E(!new)>(s: State<T>, erase: T -> E) {
    InLog(s) && (s.entry.Present? ==> erase(s.entry.value) == erase(Fold(s.base, s.log, s.clients)))
  }

  ghost predicate AllFresh<T, E(!new)>(s: State<T>, erase: T -> E) {
    forall c :: 0 <= c < |s.clients| ==> FreshRead(s, c, erase)
  }

  /** Each call that returned success committed once, and no other call did. */
  ghost predicate Counted<T>(s: State<T>) {
    forall c :: 0 <= c < |s.clients| ==> Occurrences(s.commits, c) == if s.clients[c].phase.Succeeded? then 1 else 0
  }

  /** What every step keeps. */
  ghost predicate Sound<T(!new), E(!new)>(s: State<T>, erase: T -> E) {
    AllRespect(s, erase) && InLog(s) && AllFresh(s, erase) && Counted(s)
  }

  /** The step is a commit that finds the version it read. */
  predicate Succeeds<T>(s: State<T>, step: Step<T>) {
    && step.Commit? && step.client < |s.clients| && s.clients[step.client].phase.HasRead?
    && s.entry.Present? && s.entry.version == s.clients[step.client].phase.version
  }

  /** A commit that succeeds on a read from an earlier life of the key. */
  predicate Stale<T>(s: State<T>, step: Step<T>) {
    Succeeds(s, step) && s.clients[step.client].phase.life != s.life
  }

  /** A commit that succeeds writes what it would have written had it read the present value. */
  ghost predicate Harmless<T, E(!new)>(s: State<T>, step: Step<T>, erase: T -> E) {
    Succeeds(s, step) ==>
      var client := s.clients[step.client];
      erase(client.mutate(client.phase.seen)) == erase(client.mutate(s.entry.value))
  }

  /** Folding looks only at the mutators. */
  lemma {:induction false} FoldMutators<T>(base: T, log: seq<nat>, a: seq<Client<T>>, b: seq<Client<T>>)
    requires |a| == |b| && forall i :: 0 <= i < |a| ==> a[i].mutate == b[i].mutate
    requires forall i :: 0 <= i < |log| ==> log[i] < |a|
    ensures Fold(base, log, a) == Fold(base, log, b)
  {
    if log != [] {
      FoldMutators(base, log[..|log| - 1], a, b);
    }
  }

  lemma Respected<T(!new), E(!new)>(m: T -> T, erase: T -> E, x: T, y: T)
    requires Respects(m, erase) && erase(x) == erase(y)
    ensures erase(m(x)) == erase(m(y))
  {
  }

  lemma OccurrencesOneMore(log: seq<nat>, x: nat, c: nat)
    ensures Occurrences(log + [x], c) == Occurrences(log, c) + if x == c then 1 else 0
  {
    assert (log + [x])[..|log|] == log;
  }

  lemma FoldOneMore<T>(base: T, log: seq<nat>, c: nat, clients: seq<Client<T>>)
    requires c < |clients| && forall i :: 0 <= i < |log| ==> log[i] < |clients|
    ensures Fold(base, log + [c], clients) == clients[c].mutate(Fold(base, log, clients))
  {
    assert (log + [c])[..|log|] == log;
  }

  /** Only a stale commit can do harm. */
  lemma NotStaleIsHarmless<T(!new), E(!new)>(s: State<T>, step: Step<T>, erase: T -> E)
    requires Sound(s, erase) && !Stale(s, step)
    ensures Harmless(s, step, erase)
  {
    if Succeeds(s, step) {
      var client := s.clients[step.client];
      assert FreshRead(s, step.client, erase);
      Respected(client.mutate, erase, client.phase.seen, s.entry.value);
    }
  }

  /** A successful commit keeps the stored value a fold of the committed mutators if and only if it is
      harmless. */
  lemma CommitFoldsIff<T(!new), E(!new)>(s: State<T>, c: nat, erase: T -> E, budget: nat)
    requires AllRespect(s, erase) && Folded(s, erase) && Legal(s, Commit(c), erase) && Succeeds(s, Commit(c))
    ensures Folded(Apply(s, Commit(c), erase, budget), erase) <==> Harmless(s, Commit(c), erase)
  {
    var s', client := Apply(s, Commit(c), erase, budget), s.clients[c];
    FoldMutators(s.base, s'.log, s.clients, s'.clients);
    FoldOneMore(s.base, s.log, c, s.clients);
    Respected(client.mutate, erase, s.entry.value, Fold(s.base, s.log, s.clients));
  }

  /** Every step keeps the stored value a fold if and only if it is harmless. */
  lemma FoldedStep<T(!new), E(!new)>(s: State<T>, step: Step<T>, erase: T -> E, budget: nat)
    requires AllRespect(s, erase) && Folded(s, erase) && Legal(s, step, erase)
    ensures Folded(Apply(s, step, erase, budget), erase) <==> Harmless(s, step, erase)
  {
    if Succeeds(s, step) {
      CommitFoldsIff(s, step.client, erase, budget);
    } else if step.Read? || step.Commit? {
      FoldMutators(s.base, s.log, s.clients, Apply(s, step, erase, budget).clients);
    }
  }

  lemma StaysFresh<T, E(!new)>(s: State<T>, step: Step<T>, erase: T -> E, budget: nat)
    requires AllFresh(s, erase) && Legal(s, step, erase)
    ensures AllFresh(Apply(s, step, erase, budget), erase)
  {
    forall d | 0 <= d < |s.clients| ensures FreshRead(Apply(s, step, erase, budget), d, erase) {
      assert FreshRead(s, d, erase);
    }
  }

  lemma StaysCounted<T, E(!new)>(s: State<T>, step: Step<T>, erase: T -> E, budget: nat)
    requires Counted(s) && Legal(s, step, erase)
    ensures Counted(Apply(s, step, erase, budget))
  {
    if Succeeds(s, step) {
      var c := step.client;
      forall d | 0 <= d < |s.clients|
        ensures Occurrences(s.commits + [c], d) == Occurrences(s.commits, d) + if c == d then 1 else 0
      {
        OccurrencesOneMore(s.commits, c, d);
      }
    }
  }

  /** Every read, commit, put and delete keeps what is sound. */
  lemma StepKeeps<T(!new), E(!new)>(s: State<T>, step: Step<T>, erase: T -> E, budget: nat)
    requires Sound(s, erase) && Legal(s, step, erase)
    ensures Sound(Apply(s, step, erase, budget), erase)
  {
    StaysFresh(s, step, erase, budget);
    StaysCounted(s, step, erase, budget);
  }

  /** In every state of the run the stored value is a fold. */
  ghost predicate AlwaysFolded<T, E(!new)>(s: State<T>, trace: seq<Step<T>>, erase: T -> E, budget: nat)
    requires Runs(s, trace, erase, budget)
  {
    && Folded(After(s, trace, erase, budget), erase)
    && (trace == [] || AlwaysFolded(s, trace[..|trace| - 1], erase, budget))
  }

  ghost predicate AllHarmless<T, E(!new)>(s: State<T>, trace: seq<Step<T>>, erase: T -> E, budget: nat)
    requires Runs(s, trace, erase, budget)
  {
    trace == [] || (var n := |trace| - 1;
                    && AllHarmless(s, trace[..n], erase, budget)
                    && Harmless(After(s, trace[..n], erase, budget), trace[n], erase))
  }

  ghost predicate NeverStale<T, E(!new)>(s: State<T>, trace: seq<Step<T>>, erase: T -> E, budget: nat)
    requires Runs(s, trace, erase, budget)
  {
    trace == [] || (var n := |trace| - 1;
                    && NeverStale(s, trace[..n], erase, budget)
                    && !Stale(After(s, trace[..n], erase, budget), trace[n]))
  }

  lemma {:induction false} RunKeeps<T(!new), E(!new)>(s: State<T>, trace: seq<Step<T>>, erase: T -> E, budget: nat)
    requires Sound(s, erase) && Runs(s, trace, erase, budget)
    ensures Sound(After(s, trace, erase, budget), erase)
  {
    if trace != [] {
      var n := |trace| - 1;
      RunKeeps(s, trace[..n], erase, budget);
      StepKeeps(After(s, trace[..n], erase, budget), trace[n], erase, budget);
    }
  }

  /** For every interleaving of any number of clients and other writers, re-creations included: the
      stored value is throughout, up to what a read may refresh, the value last put folded with the
      mutators of exactly the commits since, in commit order, if and only if every successful
      commit of the run is harmless. */
  lemma {:induction false} FoldedIffHarmless<T(!new), E(!new)>(s: State<T>, trace: seq<Step<T>>, erase: T -> E,
                                                               budget: nat)
    requires Sound(s, erase) && Folded(s, erase) && Runs(s, trace, erase, budget)
    ensures AlwaysFolded(s, trace, erase, budget) <==> AllHarmless(s, trace, erase, budget)
  {
    if trace != [] {
      var n := |trace| - 1;
      FoldedIffHarmless(s, trace[..n], erase, budget);
      if AlwaysFolded(s, trace[..n], erase, budget) {
        RunKeeps(s, trace[..n], erase, budget);
        FoldedStep(After(s, trace[..n], erase, budget), trace[n], erase, budget);
      }
    }
  }

  lemma {:induction false} NeverStaleIsHarmless<T(!new), E(!new)>(s: State<T>, trace: seq<Step<T>>, erase: T -> E,
                                                                  budget: nat)
    requires Sound(s, erase) && Runs(s, trace, erase, budget) && NeverStale(s, trace, erase, budget)
    ensures AllHarmless(s, trace, erase, budget)
  {
    if trace != [] {
      var n := |trace| - 1;
      NeverStaleIsHarmless(s, trace[..n], erase, budget);
      RunKeeps(s, trace[..n], erase, budget);
      NotStaleIsHarmless(After(s, trace[..n], erase, budget), trace[n], erase);
    }
  }

  /** In every run each call that reports success committed exactly once and every other call not at
      all; and unless some commit succeeds on a read older than the last creation of the key, the
      stored value is the fold of the committed mutators. */
  lemma Linearizable<T(!new), E(!new)>(s: State<T>, trace: seq<Step<T>>, erase: T -> E, budget: nat)
    requires Sound(s, erase) && Folded(s, erase) && Runs(s, trace, erase, budget)
    ensures var s' := After(s, trace, erase, budget);
            && InLog(s')
            && (forall c :: 0 <= c < |s'.clients| ==>
                  Occurrences(s'.commits, c) == if s'.clients[c].phase.Succeeded? then 1 else 0)
            && (NeverStale(s, trace, erase, budget) && s'.entry.Present? ==>
                  erase(s'.entry.value) == erase(Fold(s'.base, s'.log, s'.clients)))
  {
    RunKeeps(s, trace, erase, budget);
    if NeverStale(s, trace, erase, budget) {
      NeverStaleIsHarmless(s, trace, erase, budget);
      FoldedIffHarmless(s, trace, erase, budget);
      assert Folded(After(s, trace, erase, budget), erase);
    }
  }

  /** A state in which nobody has read or committed yet is sound. */
  lemma Initially<T(!new), E(!new)>(s: State<T>, erase: T -> E)
    requires s.log == [] && s.commits == [] && (s.entry.Present? ==> s.entry.value == s.base)
    requires forall c :: 0 <= c < |s.clients| ==> s.clients[c].phase == Ready(0) && Respects(s.clients[c].mutate, erase)
    ensures Sound(s, erase) && Folded(s, erase)
  {
  }

  function PlusOne(x: int): int { x + 1 }

  /** Stale commits do happen: versions restart, so an update in flight across a deletion and a
      re-creation commits on top of a value it never saw. */
  lemma RecreationLosesAPut(budget: nat)
    ensures var s := State(Present(5, 1), 1, [Client(PlusOne, Ready(0))], 5, [], []);
            var trace := [Read(0, 5), Delete, Put(100), Commit(0)];
            && Sound(s, Same<int>) && Folded(s, Same<int>) && Runs(s, trace, Same<int>, budget)
            && var s' := After(s, trace, Same<int>, budget);
            && s'.entry == Present(6, 2) && s'.clients[0].phase == Succeeded(0)
            && s'.base == 100 && s'.log == [0] && Fold(s'.base, s'.log, s'.clients) == 101
  {
    var s := State(Present(5, 1), 1, [Client(PlusOne, Ready(0))], 5, [], []);
    var trace := [Read(0, 5), Delete, Put(100), Commit(0)];
    OneMore(s, [], trace[0], Same<int>, budget);
    OneMore(s, [trace[0]], trace[1], Same<int>, budget);
    OneMore(s, [trace[0]] + [trace[1]], trace[2], Same<int>, budget);
    OneMore(s, [trace[0]] + [trace[1]] + [trace[2]], trace[3], Same<int>, budget);
    assert trace == [] + [trace[0]] + [trace[1]] + [trace[2]] + [trace[3]];
    assert [0][..0] == [];
  }
}
