/** How often the versioned update loop can fail: with N updaters of one key and no other writer, a
    retry budget of N is enough, and for two or more updaters also necessary. */
module UpdateContention {
  import opened Core
  import opened VersionedUpdate

  function Total<T>(cs: seq<Client<T>>, weight: Phase<T> -> nat): nat {
    if cs == [] then 0 else Total(cs[..|cs| - 1], weight) + weight(cs[|cs| - 1].phase)
  }

  lemma {:induction false} TotalUpdate<T>(cs: seq<Client<T>>, c: nat, x: Client<T>, weight: Phase<T> -> nat)
    requires c < |cs|
    ensures Total(cs[c := x], weight) + weight(cs[c].phase) == Total(cs, weight) + weight(x.phase)
  {
    var n := |cs| - 1;
    if c == n {
      assert cs[c := x][..n] == cs[..n];
    } else {
      assert cs[c := x][..n] == cs[..n][c := x];
      TotalUpdate(cs[..n], c, x, weight);
    }
  }

  lemma {:induction false} TotalAtMost<T>(cs: seq<Client<T>>, weight: Phase<T> -> nat, k: nat)
    requires forall c :: 0 <= c < |cs| ==> weight(cs[c].phase) <= k
    ensures Total(cs, weight) <= |cs| * k
  {
    if cs != [] {
      var n := |cs| - 1;
      TotalAtMost(cs[..n], weight, k);
      assert |cs| * k == n * k + k;
    }
  }

  lemma {:induction false} TotalZero<T>(cs: seq<Client<T>>, weight: Phase<T> -> nat)
    requires forall c :: 0 <= c < |cs| ==> weight(cs[c].phase) == 0
    ensures Total(cs, weight) == 0
  {
    if cs != [] {
      TotalZero(cs[..|cs| - 1], weight);
    }
  }

  lemma {:induction false} TotalOnes<T>(cs: seq<Client<T>>)
    requires forall c :: 0 <= c < |cs| ==> cs[c].phase.Succeeded?
    ensures Winners(cs) == |cs|
  {
    if cs != [] {
      TotalOnes(cs[..|cs| - 1]);
    }
  }

  function Won<T>(p: Phase<T>): nat { if p.Succeeded? then 1 else 0 }

  /** The reads and commits a client has behind it. */
  function Spent<T>(p: Phase<T>): nat {
    match p
    case Ready(f) => 2 * f
    case HasRead(_, _, f, _) => 2 * f + 1
    case Succeeded(f) => 2 * f + 2
    case _ => 0
  }

  function Winners<T>(cs: seq<Client<T>>): nat { Total(cs, Won) }

  /** A client that has not succeeded leaves room for at most the others to have. */
  lemma WinnersExcept<T>(cs: seq<Client<T>>, c: nat)
    requires c < |cs| && !cs[c].phase.Succeeded?
    ensures Winners(cs) <= |cs| - 1
  {
    TotalUpdate(cs, c, cs[c].(phase := Succeeded(0)), Won);
    TotalAtMost(cs[c := cs[c].(phase := Succeeded(0))], Won, 1);
  }

  ghost predicate Starts<T>(s: State<T>) {
    && s.entry.Present? && s.base == s.entry.value && s.log == [] && s.commits == []
    && forall c :: 0 <= c < |s.clients| ==> s.clients[c].phase == Ready(0)
  }

  predicate OnlyUpdates<T>(trace: seq<Step<T>>) {
    forall i :: 0 <= i < |trace| ==> trace[i].Read? || trace[i].Commit?
  }

  /** Every failure of a client is paid for by a commit of another since the start. */
  ghost predicate PaidFor<T>(p: Phase<T>, start: nat, version: nat, n: nat) {
    match p
    case Ready(f) => f <= version - start
    case HasRead(_, v, f, _) => f <= v - start && v <= version
    case Succeeded(f) => f <= n - 1
    case _ => false
  }

  ghost predicate Contended<T>(s: State<T>, start: nat) {
    && s.entry.Present? && s.entry.version == start + Winners(s.clients) && s.log == s.commits
    && |s.commits| == Winners(s.clients)
    && forall c :: 0 <= c < |s.clients| ==> PaidFor(s.clients[c].phase, start, s.entry.version, |s.clients|)
  }

  lemma ContendedStep<T, E(!new)>(s: State<T>, step: Step<T>, erase: T -> E, budget: nat, start: nat)
    requires Contended(s, start) && Legal(s, step, erase) && (step.Read? || step.Commit?)
    requires |s.clients| <= budget
    ensures Contended(Apply(s, step, erase, budget), start)
    ensures Total(Apply(s, step, erase, budget).clients, Spent) == Total(s.clients, Spent) + 1
  {
    var s', c := Apply(s, step, erase, budget), step.client;
    MoverPays(s, step, erase, budget, start);
    TotalUpdate(s.clients, c, s'.clients[c], Won);
    TotalUpdate(s.clients, c, s'.clients[c], Spent);
    assert s'.clients == s.clients[c := s'.clients[c]];
    forall d | 0 <= d < |s'.clients| ensures PaidFor(s'.clients[d].phase, start, s'.entry.version, |s'.clients|) {
      assert PaidFor(s.clients[d].phase, start, s.entry.version, |s.clients|);
    }
  }

  /** The client that moves still has its failures paid for, and spends one step. */
  lemma MoverPays<T, E(!new)>(s: State<T>, step: Step<T>, erase: T -> E, budget: nat, start: nat)
    requires Contended(s, start) && Legal(s, step, erase) && (step.Read? || step.Commit?)
    requires |s.clients| <= budget
    ensures var s', c := Apply(s, step, erase, budget), step.client;
            && PaidFor(s'.clients[c].phase, start, s'.entry.version, |s.clients|)
            && Spent(s'.clients[c].phase) == Spent(s.clients[c].phase) + 1
  {
    assert PaidFor(s.clients[step.client].phase, start, s.entry.version, |s.clients|);
    WinnersExcept(s.clients, step.client);
  }

  lemma {:induction false} ContendedRun<T, E(!new)>(s: State<T>, trace: seq<Step<T>>, erase: T -> E, budget: nat)
    requires Starts(s) && Runs(s, trace, erase, budget) && OnlyUpdates(trace) && |s.clients| <= budget
    ensures var s' := After(s, trace, erase, budget);
            |s'.clients| == |s.clients| && Contended(s', s.entry.version) && Total(s'.clients, Spent) == |trace|
  {
    if trace == [] {
      TotalZero(s.clients, Won);
      TotalZero(s.clients, Spent);
    } else {
      var n := |trace| - 1;
      ContendedRun(s, trace[..n], erase, budget);
      ContendedStep(After(s, trace[..n], erase, budget), trace[n], erase, budget, s.entry.version);
    }
  }

  /** Updates change neither the mutators nor the value last put. */
  lemma {:induction false} MutatorsKept<T, E(!new)>(s: State<T>, trace: seq<Step<T>>, erase: T -> E, budget: nat)
    requires Runs(s, trace, erase, budget) && OnlyUpdates(trace)
    ensures var s' := After(s, trace, erase, budget);
            && |s'.clients| == |s.clients| && s'.base == s.base
            && forall c :: 0 <= c < |s.clients| ==> s'.clients[c].mutate == s.clients[c].mutate
  {
    if trace != [] {
      MutatorsKept(s, trace[..|trace| - 1], erase, budget);
    }
  }

  /** No updater can take another step. */
  ghost predicate Final<T(!new), E(!new)>(s: State<T>, erase: T -> E) {
    forall step: Step<T> :: step.Read? || step.Commit? ==> !Legal(s, step, erase)
  }

  /** With N concurrent updaters of one existing key, no other writer and a budget of at least N: no
      updater ever gives up, each fails at most N - 1 times, every run ends within 2 N N steps, and a
      run that cannot go on has every updater successful with N commits. */
  lemma BudgetSuffices<T(!new), E(!new)>(s: State<T>, trace: seq<Step<T>>, erase: T -> E, budget: nat)
    requires Starts(s) && Runs(s, trace, erase, budget) && OnlyUpdates(trace) && |s.clients| <= budget
    ensures var s', n := After(s, trace, erase, budget), |s.clients|;
            && |s'.clients| == n && |trace| <= n * (2 * n)
            && (forall c :: 0 <= c < n ==> !s'.clients[c].phase.Exhausted? && !s'.clients[c].phase.KeyMissing?
                                           && s'.clients[c].phase.failed <= n - 1)
            && (Final(s', erase) ==>
                  && (forall c :: 0 <= c < n ==> s'.clients[c].phase.Succeeded?)
                  && |s'.commits| == n && s'.log == s'.commits && s'.entry.version == s.entry.version + n)
  {
    ContendedRun(s, trace, erase, budget);
    var s', n := After(s, trace, erase, budget), |s.clients|;
    forall c | 0 <= c < n
      ensures !s'.clients[c].phase.Exhausted? && !s'.clients[c].phase.KeyMissing? && s'.clients[c].phase.failed <= n - 1
      ensures Spent(s'.clients[c].phase) <= 2 * n
    {
      assert PaidFor(s'.clients[c].phase, s.entry.version, s'.entry.version, n);
      if !s'.clients[c].phase.Succeeded? {
        WinnersExcept(s'.clients, c);
      }
    }
    TotalAtMost(s'.clients, Spent, 2 * n);
    if Final(s', erase) {
      forall c | 0 <= c < n ensures s'.clients[c].phase.Succeeded? {
        assert !Legal(s', Read(c, s'.entry.value), erase);
        assert !Legal(s', Commit(c), erase);
      }
      TotalOnes(s'.clients);
    }
  }

  // ---------------------------------------------------------------- the budget is needed

  /** After j rounds in which client 0 reads, another client updates and client 0's commit fails. */
  ghost predicate Starved<T>(s: State<T>, n: nat, j: nat, budget: nat) {
    && s.entry.Present? && j < n == |s.clients|
    && s.clients[0].phase == (if j == 0 || j < budget then Ready(j) else Exhausted)
    && forall c :: j < c < |s.clients| ==> s.clients[c].phase == Ready(0)
  }

  /** One such round: client 0 reads, client j reads and commits, client 0 fails to commit. */
  lemma Round<T(!new)>(s: State<T>, j: nat, budget: nat)
    requires 0 < j < |s.clients| && Starved(s, |s.clients|, j - 1, budget) && s.clients[0].phase.Ready?
    ensures var v := s.entry.value;
            && Legal(s, Read(0, v), Same<T>)
            && var s1 := Apply(s, Read(0, v), Same<T>, budget);
            && Legal(s1, Read(j, v), Same<T>)
            && var s2 := Apply(s1, Read(j, v), Same<T>, budget);
            && Legal(s2, Commit(j), Same<T>)
            && var s3 := Apply(s2, Commit(j), Same<T>, budget);
            && Legal(s3, Commit(0), Same<T>) && Starved(Apply(s3, Commit(0), Same<T>, budget), |s.clients|, j, budget)
  {
    var v := s.entry.value;
    var s1 := Apply(s, Read(0, v), Same<T>, budget);
    var s2 := Apply(s1, Read(j, v), Same<T>, budget);
    assert s2.clients[0].phase == HasRead(v, s.entry.version, j - 1, s.life);
    assert s2.clients[j].phase == HasRead(v, s.entry.version, 0, s.life);
    var s3 := Apply(s2, Commit(j), Same<T>, budget);
    assert s3.clients[0].phase == HasRead(v, s.entry.version, j - 1, s.life) && s3.entry.version == s.entry.version + 1;
  }

  lemma {:induction false} Starve<T(!new)>(s: State<T>, j: nat, budget: nat) returns (trace: seq<Step<T>>)
    requires Starts(s) && j < |s.clients| && (j <= 1 || j <= budget)
    ensures Runs(s, trace, Same<T>, budget) && OnlyUpdates(trace)
    ensures Starved(After(s, trace, Same<T>, budget), |s.clients|, j, budget)
  {
    if j == 0 {
      trace := [];
    } else {
      var before := Starve(s, j - 1, budget);
      trace := RoundTrace(s, before, j, budget);
    }
  }

  lemma RoundTrace<T(!new)>(s: State<T>, before: seq<Step<T>>, j: nat, budget: nat) returns (trace: seq<Step<T>>)
    requires Runs(s, before, Same<T>, budget) && OnlyUpdates(before)
    requires 0 < j < |s.clients| && (j == 1 || j <= budget)
    requires Starved(After(s, before, Same<T>, budget), |s.clients|, j - 1, budget)
    ensures Runs(s, trace, Same<T>, budget) && OnlyUpdates(trace)
    ensures Starved(After(s, trace, Same<T>, budget), |s.clients|, j, budget)
  {
    var s0 := After(s, before, Same<T>, budget);
    var v := s0.entry.value;
    Round(s0, j, budget);
    TwoMore(s, before, Read(0, v), Read(j, v), budget);
    var half := before + [Read(0, v)] + [Read(j, v)];
    TwoMore(s, half, Commit(j), Commit(0), budget);
    trace := half + [Commit(j)] + [Commit(0)];
  }

  lemma TwoMore<T(!new)>(s: State<T>, trace: seq<Step<T>>, a: Step<T>, b: Step<T>, budget: nat)
    requires Runs(s, trace, Same<T>, budget)
    requires var t := After(s, trace, Same<T>, budget);
             Legal(t, a, Same<T>) && Legal(Apply(t, a, Same<T>, budget), b, Same<T>)
    ensures Runs(s, trace + [a] + [b], Same<T>, budget)
    ensures After(s, trace + [a] + [b], Same<T>, budget)
            == Apply(Apply(After(s, trace, Same<T>, budget), a, Same<T>, budget), b, Same<T>, budget)
  {
    OneMore(s, trace, a, Same<T>, budget);
    OneMore(s, trace + [a], b, Same<T>, budget);
  }

  /** For two or more updaters the budget N is exact: some run exhausts an updater if and only if
      the budget is smaller than N. */
  lemma BudgetIsExact<T(!new)>(s: State<T>, budget: nat)
    requires Starts(s) && |s.clients| >= 2
    ensures (exists trace :: Exhausts(s, trace, budget)) <==> budget < |s.clients|
  {
    if budget < |s.clients| {
      var j := if budget == 0 then 1 else budget;
      var trace := Starve(s, j, budget);
      assert After(s, trace, Same<T>, budget).clients[0].phase.Exhausted?;
      assert Exhausts(s, trace, budget);
    } else if exists trace :: Exhausts(s, trace, budget) {
      var trace :| Exhausts(s, trace, budget);
      BudgetSuffices(s, trace, Same<T>, budget);
    }
  }

  /** A run of updates alone in which some updater runs out of attempts. */
  ghost predicate Exhausts<T(!new)>(s: State<T>, trace: seq<Step<T>>, budget: nat) {
    && Runs(s, trace, Same<T>, budget) && OnlyUpdates(trace)
    && SomeExhausted(After(s, trace, Same<T>, budget))
  }

  ghost predicate SomeExhausted<T>(s: State<T>) { exists c :: 0 <= c < |s.clients| && s.clients[c].phase.Exhausted? }

  // ---------------------------------------------------------------- usage counts

  lemma {:induction false} FoldIncrements(base: BootstrapToken, log: seq<nat>, clients: seq<Client<BootstrapToken>>)
    requires forall i :: 0 <= i < |log| ==> log[i] < |clients|
    requires forall c :: 0 <= c < |clients| ==> clients[c].mutate == Used
    ensures Fold(base, log, clients).usageCount == base.usageCount + |log|
  {
    if log != [] {
      FoldIncrements(base, log[..|log| - 1], clients);
    }
  }

  /** N concurrent increments with a budget of at least N raise the usage count by exactly N. */
  lemma ConcurrentIncrements(s: State<BootstrapToken>, trace: seq<Step<BootstrapToken>>, budget: nat)
    requires Starts(s) && |s.clients| <= budget
    requires forall c :: 0 <= c < |s.clients| ==> s.clients[c].mutate == Used
    requires Runs(s, trace, EraseLease, budget) && OnlyUpdates(trace)
    requires Final(After(s, trace, EraseLease, budget), EraseLease)
    ensures var e := After(s, trace, EraseLease, budget).entry;
            e.Present? && e.value.usageCount == s.entry.value.usageCount + |s.clients|
  {
    BudgetSuffices(s, trace, EraseLease, budget);
    MutatorsKept(s, trace, EraseLease, budget);
    forall c | 0 <= c < |s.clients| ensures Respects(s.clients[c].mutate, EraseLease) {
      IncrementRespects();
    }
    Initially(s, EraseLease);
    UpdatesNeverStale(s, trace, EraseLease, budget);
    Linearizable(s, trace, EraseLease, budget);
    var s' := After(s, trace, EraseLease, budget);
    FoldIncrements(s'.base, s'.log, s'.clients);
    assert EraseLease(s'.entry.value).usageCount == s'.entry.value.usageCount;
    assert EraseLease(Fold(s'.base, s'.log, s'.clients)).usageCount == Fold(s'.base, s'.log, s'.clients).usageCount;
  }

  lemma IncrementRespects()
    ensures Respects(Used, EraseLease)
  {
    forall x, y | EraseLease(x) == EraseLease(y)
      ensures EraseLease(Used(x)) == EraseLease(Used(y))
    {
      assert EraseLease(Used(x)) == Used(EraseLease(x));
      assert EraseLease(Used(y)) == Used(EraseLease(y));
    }
  }

  /** Every read in flight is from the key's present life. */
  ghost predicate ReadsCurrent<T>(s: State<T>) {
    forall c :: 0 <= c < |s.clients| && s.clients[c].phase.HasRead? ==> s.clients[c].phase.life == s.life
  }

  lemma {:induction false} UpdatesNeverStale<T, E(!new)>(s: State<T>, trace: seq<Step<T>>, erase: T -> E, budget: nat)
    requires ReadsCurrent(s) && Runs(s, trace, erase, budget) && OnlyUpdates(trace)
    ensures NeverStale(s, trace, erase, budget) && ReadsCurrent(After(s, trace, erase, budget))
  {
    if trace != [] {
      UpdatesNeverStale(s, trace[..|trace| - 1], erase, budget);
    }
  }
}
