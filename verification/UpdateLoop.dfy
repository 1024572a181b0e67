/** The body of UpdateToken and UpdateCluster (pkg/storage/etcd) as a loop over one stored key.

    `env(k)` is what happens around attempt k: the writes of other clients before its read, those
    between its read and its commit, and whether the store fails one of the two calls; `view(k, v)` is
    what read k returns for a stored value v (a token's lease data is refreshed). */
module UpdateLoop {
  import opened Core
  import opened VersionedUpdate

  datatype UpdateResult<T> = Updated(value: T) | NotFound | TooManyRetries | StoreFailed

  datatype Fault = NoFault | ReadFault | CommitFault

  datatype Around<T> = Around(before: seq<Step<T>>, between: seq<Step<T>>, fault: Fault)

  predicate IsWrite<T>(step: Step<T>) { step.Put? || step.Delete? }

  function Written<T>(e: Entry<T>, w: Step<T>): Entry<T>
    requires IsWrite(w)
  {
    if w.Delete? then Absent else Present(w.value, if e.Present? then e.version + 1 else 1)
  }

  /** The one client of the step system that this call is. */
  ghost function Alone<T>(entry: Entry<T>, mutate: T -> T, base: T): State<T> {
    State(entry, 0, [Client(mutate, Ready(0))], base, [], [])
  }

  /** The phase in which the call ends. */
  ghost predicate EndsIn<T>(p: Phase<T>, r: UpdateResult<T>) {
    match r
    case Updated(_) => p.Succeeded?
    case NotFound => p == KeyMissing
    case TooManyRetries => p == Exhausted
    case StoreFailed => p.Ready? || p.HasRead?
  }

  /** The trace is a run of the step system with this call as its one client, from the entry `start` to
      the entry `entry`, and leaves the call in phase `p`. */
  ghost predicate Reaches<T(!new), E(!new)>(start: Entry<T>, base: T, trace: seq<Step<T>>, erase: T -> E, budget: nat,
                                            entry: Entry<T>, mutate: T -> T, p: Phase<T>)
  {
    && Runs(Alone(start, mutate, base), trace, erase, budget)
    && var s := After(Alone(start, mutate, base), trace, erase, budget);
    && s.entry == entry && s.clients == [Client(mutate, p)]
  }

  predicate AllWrites<T>(steps: seq<Step<T>>) { forall i :: 0 <= i < |steps| ==> IsWrite(steps[i]) }

  predicate OnlyWrites<T>(a: Around<T>) { AllWrites(a.before) && AllWrites(a.between) }

  /** What other clients write around the first n attempts. */
  function Writes<T>(env: nat -> Around<T>, n: nat): seq<Step<T>> {
    if n == 0 then [] else Writes(env, n - 1) + env(n - 1).before + env(n - 1).between
  }

  /** What other clients write in a trace. */
  function Foreign<T>(trace: seq<Step<T>>): seq<Step<T>> {
    if trace == [] then []
    else
      var n := |trace| - 1;
      Foreign(trace[..n]) + if IsWrite(trace[n]) then [trace[n]] else []
  }

  /** The entry an attempt reads, and the one it commits to, from the entry it begins with. */
  function AtRead<T>(e: Entry<T>, around: Around<T>): Entry<T>
    requires OnlyWrites(around)
  {
    AllWritten(e, around.before)
  }

  function AtCommit<T>(e: Entry<T>, around: Around<T>): Entry<T>
    requires OnlyWrites(around)
  {
    AllWritten(AtRead(e, around), around.between)
  }

  /** The attempt gets to its commit and finds another version than it read, or no key. */
  predicate Conflicts<T>(e: Entry<T>, around: Around<T>)
    requires OnlyWrites(around)
  {
    && around.fault == NoFault && AtRead(e, around).Present?
    && !(AtCommit(e, around).Present? && AtCommit(e, around).version == AtRead(e, around).version)
  }

  /** What of the writes around it an attempt lives to see. */
  function Seen<T>(e: Entry<T>, around: Around<T>): seq<Step<T>>
    requires OnlyWrites(around)
  {
    if around.fault == ReadFault || AtRead(e, around).Absent? then around.before else around.before + around.between
  }

  /** Attempt k, from the entry `e`, has this outcome and leaves this entry; no outcome is a conflict. */
  ghost predicate Gives<T>(e: Entry<T>, around: Around<T>, mutate: T -> T, view: (nat, T) -> T, k: nat,
                           outcome: Option<UpdateResult<T>>, after: Entry<T>)
    requires OnlyWrites(around)
  {
    match outcome
    case None => Conflicts(e, around) && after == AtCommit(e, around)
    case Some(StoreFailed) =>
      || (around.fault == ReadFault && after == AtRead(e, around))
      || (around.fault == CommitFault && AtRead(e, around).Present? && after == AtCommit(e, around))
    case Some(NotFound) => around.fault != ReadFault && AtRead(e, around).Absent? && after == Absent
    case Some(Updated(next)) =>
      && around.fault == NoFault && AtRead(e, around).Present? && !Conflicts(e, around)
      && next == mutate(view(k, AtRead(e, around).value)) && after == Present(next, AtRead(e, around).version + 1)
    case Some(TooManyRetries) => false
  }

  /** Attempts before k conflict, and attempt k ends the call, the last attempt also by a conflict. */
  ghost predicate Ends<T>(start: Entry<T>, env: nat -> Around<T>, mutate: T -> T, view: (nat, T) -> T, budget: nat,
                          k: nat, r: UpdateResult<T>, after: Entry<T>)
    requires forall j :: OnlyWrites(env(j))
  {
    && k < budget && (r.TooManyRetries? ==> k + 1 == budget)
    && AllConflict(start, env, k)
    && Gives(EntryBefore(start, env, k), env(k), mutate, view, k, if r.TooManyRetries? then None else Some(r), after)
  }

  /** The entry attempt k begins with, when none before it committed. */
  function EntryBefore<T>(start: Entry<T>, env: nat -> Around<T>, k: nat): Entry<T>
    requires forall j :: OnlyWrites(env(j))
  {
    if k == 0 then start else AtCommit(EntryBefore(start, env, k - 1), env(k - 1))
  }

  /** The first k attempts conflict. */
  predicate AllConflict<T>(start: Entry<T>, env: nat -> Around<T>, k: nat)
    requires forall j :: OnlyWrites(env(j))
  {
    k == 0 || (AllConflict(start, env, k - 1) && Conflicts(EntryBefore(start, env, k - 1), env(k - 1)))
  }

  class StoredKey<T(!new)> {
    var entry: Entry<T>

    constructor (entry: Entry<T>)
      ensures this.entry == entry
    {
      this.entry := entry;
    }

    /** Retries on a changed version, at most `budget` attempts, and stops at the first other outcome.
        `ended` is the attempt that ends the call. */
    method Update(mutate: T -> T, budget: nat, env: nat -> Around<T>, view: (nat, T) -> T)
      returns (r: UpdateResult<T>, ghost ended: nat)
      requires budget > 0 && forall k :: OnlyWrites(env(k))
      modifies this
      ensures Ends(old(entry), env, mutate, view, budget, ended, r, entry)
    {
      ghost var start := entry;
      var failed := 0;
      while true
        invariant failed < budget && entry == EntryBefore(start, env, failed) && AllConflict(start, env, failed)
        decreases budget - failed
      {
        var outcome := Attempt(mutate, env(failed), failed, view);
        if outcome.Some? {
          return outcome.value, failed;
        }
        failed := failed + 1;
        if failed == budget {
          return TooManyRetries, failed - 1;
        }
      }
    }

    /** One attempt: it ends the call, or finds the version changed. */
    method Attempt(mutate: T -> T, around: Around<T>, k: nat, view: (nat, T) -> T)
      returns (outcome: Option<UpdateResult<T>>)
      requires OnlyWrites(around)
      modifies this
      ensures Gives(old(entry), around, mutate, view, k, outcome, entry)
    {
      Interfere(around.before);
      if around.fault == ReadFault {
        return Some(StoreFailed);
      }
      if entry.Absent? {
        return Some(NotFound);
      }
      var seen, version := view(k, entry.value), entry.version;
      Interfere(around.between);
      var next := mutate(seen);
      if around.fault == CommitFault {
        return Some(StoreFailed);
      }
      if entry.Present? && entry.version == version {
        entry := Present(next, version + 1);
        return Some(Updated(next));
      }
      return None;
    }

    /** Other clients' writes happen. */
    method Interfere(writes: seq<Step<T>>)
      requires AllWrites(writes)
      modifies this
      ensures entry == AllWritten(old(entry), writes)
    {
      for i := 0 to |writes|
        invariant entry == AllWritten(old(entry), writes[..i])
      {
        entry := Written(entry, writes[i]);
        assert writes[..i + 1][..i] == writes[..i];
      }
      assert writes[..|writes|] == writes;
    }
  }

  function AllWritten<T>(e: Entry<T>, writes: seq<Step<T>>): Entry<T>
    requires AllWrites(writes)
  {
    if writes == [] then e else Written(AllWritten(e, writes[..|writes| - 1]), writes[|writes| - 1])
  }

  lemma OneWrite<T, E(!new)>(s: State<T>, trace: seq<Step<T>>, w: Step<T>, erase: T -> E, budget: nat)
    requires IsWrite(w) && Runs(s, trace, erase, budget)
    ensures Runs(s, trace + [w], erase, budget)
    ensures After(s, trace + [w], erase, budget).entry == Written(After(s, trace, erase, budget).entry, w)
    ensures After(s, trace + [w], erase, budget).clients == After(s, trace, erase, budget).clients
  {
    OneMore(s, trace, w, erase, budget);
  }

  lemma AppendLast<X>(a: seq<X>, b: seq<X>)
    requires b != []
    ensures a + b == a + b[..|b| - 1] + [b[|b| - 1]]
  {
  }

  /** Other clients' writes extend a run and touch nothing but the entry. */
  lemma {:induction false} WritesRun<T, E(!new)>(s: State<T>, trace: seq<Step<T>>, writes: seq<Step<T>>,
                                                 erase: T -> E, budget: nat)
    requires Runs(s, trace, erase, budget) && AllWrites(writes)
    ensures Runs(s, trace + writes, erase, budget)
    ensures var before, after := After(s, trace, erase, budget), After(s, trace + writes, erase, budget);
            after.entry == AllWritten(before.entry, writes) && after.clients == before.clients
    decreases |writes|
  {
    if writes == [] {
      assert trace + writes == trace;
    } else {
      var n := |writes| - 1;
      var init, w := writes[..n], writes[n];
      WritesRun(s, trace, init, erase, budget);
      var t := trace + init;
      OneWrite(s, t, w, erase, budget);
      AppendLast(trace, writes);
    }
  }

  /** What a commit makes of the entry and of the call, given the version read. */
  function Committed<T>(e: Entry<T>, version: nat, next: T): Entry<T> {
    if e.Present? && e.version == version then Present(next, version + 1) else e
  }

  function PhaseAfter<T>(e: Entry<T>, version: nat, failed: nat, budget: nat): Phase<T> {
    if e.Present? && e.version == version then Succeeded(failed)
    else if failed + 1 < budget then Ready(failed + 1) else Exhausted
  }

  /** Other clients' writes change the entry and nothing else. */
  lemma WritesReach<T(!new), E(!new)>(start: Entry<T>, base: T, trace: seq<Step<T>>, writes: seq<Step<T>>,
                                      erase: T -> E, budget: nat, entry: Entry<T>, mutate: T -> T, p: Phase<T>)
    requires Reaches(start, base, trace, erase, budget, entry, mutate, p)
    requires AllWrites(writes)
    ensures Reaches(start, base, trace + writes, erase, budget, AllWritten(entry, writes), mutate, p)
  {
    WritesRun(Alone(start, mutate, base), trace, writes, erase, budget);
  }

  /** A read that finds no key ends the call. */
  lemma MissedReach<T(!new), E(!new)>(start: Entry<T>, base: T, trace: seq<Step<T>>, seen: T, failed: nat,
                                      erase: T -> E, budget: nat, entry: Entry<T>, mutate: T -> T)
    requires Reaches(start, base, trace, erase, budget, entry, mutate, Ready(failed)) && entry.Absent?
    ensures Reaches(start, base, trace + [Read(0, seen)], erase, budget, entry, mutate, KeyMissing)
  {
    OneMore(Alone(start, mutate, base), trace, Read(0, seen), erase, budget);
  }

  /** A read that finds the key. */
  lemma ReadReach<T(!new), E(!new)>(start: Entry<T>, base: T, trace: seq<Step<T>>, seen: T, failed: nat,
                                    erase: T -> E, budget: nat, entry: Entry<T>, mutate: T -> T)
    returns (p: Phase<T>)
    requires Reaches(start, base, trace, erase, budget, entry, mutate, Ready(failed))
    requires entry.Present? && erase(seen) == erase(entry.value)
    ensures Reaches(start, base, trace + [Read(0, seen)], erase, budget, entry, mutate, p)
    ensures p.HasRead? && p.seen == seen && p.version == entry.version && p.failed == failed
  {
    var s0 := Alone(start, mutate, base);
    OneMore(s0, trace, Read(0, seen), erase, budget);
    p := HasRead(seen, entry.version, failed, After(s0, trace, erase, budget).life);
  }

  /** The commit that ends an attempt. */
  lemma CommitReach<T(!new), E(!new)>(start: Entry<T>, base: T, trace: seq<Step<T>>, erase: T -> E, budget: nat,
                                      entry: Entry<T>, mutate: T -> T, p: Phase<T>)
    requires Reaches(start, base, trace, erase, budget, entry, mutate, p) && p.HasRead?
    ensures Reaches(start, base, trace + [Commit(0)], erase, budget,
                    Committed(entry, p.version, mutate(p.seen)), mutate, PhaseAfter(entry, p.version, p.failed, budget))
  {
    OneMore(Alone(start, mutate, base), trace, Commit(0), erase, budget);
  }

  // ---------------------------------------------------------------- the others' writes

  lemma {:induction false} ForeignWrites<T>(trace: seq<Step<T>>, writes: seq<Step<T>>)
    requires AllWrites(writes)
    ensures Foreign(trace + writes) == Foreign(trace) + writes
    decreases |writes|
  {
    if writes == [] {
      assert trace + writes == trace;
    } else {
      var n := |writes| - 1;
      ForeignWrites(trace, writes[..n]);
      assert (trace + writes)[..|trace| + n] == trace + writes[..n];
      assert writes == writes[..n] + [writes[n]];
    }
  }

  lemma ForeignOwn<T>(trace: seq<Step<T>>, step: Step<T>)
    requires !IsWrite(step)
    ensures Foreign(trace + [step]) == Foreign(trace)
  {
    assert (trace + [step])[..|trace|] == trace;
  }

  lemma {:induction false} WrittenConcat<T>(e: Entry<T>, a: seq<Step<T>>, b: seq<Step<T>>)
    requires AllWrites(a) && AllWrites(b)
    ensures AllWrites(a + b) && AllWritten(e, a + b) == AllWritten(AllWritten(e, a), b)
    decreases |b|
  {
    if b == [] {
      assert a + b == a;
    } else {
      var n := |b| - 1;
      WrittenConcat(e, a, b[..n]);
      assert (a + b)[..|a| + n] == a + b[..n];
    }
  }

  /** The entry an attempt begins with is what the others' writes so far make of the first one. */
  lemma {:induction false} EntryIsWritten<T>(start: Entry<T>, env: nat -> Around<T>, k: nat)
    requires forall j :: OnlyWrites(env(j))
    ensures AllWrites(Writes(env, k)) && EntryBefore(start, env, k) == AllWritten(start, Writes(env, k))
  {
    if k > 0 {
      EntryIsWritten(start, env, k - 1);
      WrittenConcat(start, Writes(env, k - 1), env(k - 1).before);
      WrittenConcat(start, Writes(env, k - 1) + env(k - 1).before, env(k - 1).between);
    }
  }

  /** What the others write while the call lasts. */
  function Interference<T>(start: Entry<T>, env: nat -> Around<T>, k: nat): seq<Step<T>>
    requires forall j :: OnlyWrites(env(j))
  {
    Writes(env, k) + Seen(EntryBefore(start, env, k), env(k))
  }

  /** A call that does not report an update wrote nothing: the entry is what the others make of it. */
  lemma OthersOnly<T>(start: Entry<T>, env: nat -> Around<T>, mutate: T -> T, view: (nat, T) -> T, budget: nat,
                      k: nat, r: UpdateResult<T>, after: Entry<T>)
    requires forall j :: OnlyWrites(env(j))
    requires Ends(start, env, mutate, view, budget, k, r, after)
    ensures AllWrites(Interference(start, env, k))
    ensures !r.Updated? ==> after == AllWritten(start, Interference(start, env, k))
  {
    var e, around := EntryBefore(start, env, k), env(k);
    EntryIsWritten(start, env, k);
    WrittenConcat(e, around.before, around.between);
    WrittenConcat(start, Writes(env, k), Seen(e, around));
  }

  /** An attempt has one outcome. */
  lemma OneOutcome<T>(e: Entry<T>, around: Around<T>, mutate: T -> T, view: (nat, T) -> T, k: nat,
                      o: Option<UpdateResult<T>>, after: Entry<T>, o': Option<UpdateResult<T>>, after': Entry<T>)
    requires OnlyWrites(around)
    requires Gives(e, around, mutate, view, k, o, after) && Gives(e, around, mutate, view, k, o', after')
    ensures o == o' && after == after' && (o.None? <==> Conflicts(e, around))
  {
  }

  lemma {:induction false} ConflictsAt<T>(start: Entry<T>, env: nat -> Around<T>, k: nat, j: nat)
    requires (forall i :: OnlyWrites(env(i))) && AllConflict(start, env, k) && j < k
    ensures Conflicts(EntryBefore(start, env, j), env(j))
  {
    if j < k - 1 {
      ConflictsAt(start, env, k - 1, j);
    }
  }

  /** The contract leaves nothing open: what the others do determines which attempt ends the call, its
      result and the entry. */
  lemma CallIsDetermined<T>(start: Entry<T>, env: nat -> Around<T>, mutate: T -> T, view: (nat, T) -> T, budget: nat,
                            k: nat, r: UpdateResult<T>, after: Entry<T>, k': nat, r': UpdateResult<T>, after': Entry<T>)
    requires forall j :: OnlyWrites(env(j))
    requires Ends(start, env, mutate, view, budget, k, r, after)
    requires Ends(start, env, mutate, view, budget, k', r', after')
    ensures k == k' && r == r' && after == after'
  {
    var o, o' := if r.TooManyRetries? then None else Some(r), if r'.TooManyRetries? then None else Some(r');
    OneOutcome(EntryBefore(start, env, k), env(k), mutate, view, k, o, after, o, after);
    OneOutcome(EntryBefore(start, env, k'), env(k'), mutate, view, k', o', after', o', after');
    if k < k' {
      ConflictsAt(start, env, k', k);
    }
    if k' < k {
      ConflictsAt(start, env, k, k');
    }
    OneOutcome(EntryBefore(start, env, k), env(k), mutate, view, k, o, after, o', after');
  }

  /** Unless somebody deletes the key between the read and the commit, a commit that finds the version it
      read replaces exactly what was read. */
  lemma ReplacesWhatItRead<T>(e: Entry<T>, around: Around<T>)
    requires OnlyWrites(around) && AtRead(e, around).Present? && Delete !in around.between
    ensures AtCommit(e, around).Present? && AtCommit(e, around).version == AtRead(e, around).version + |around.between|
    ensures !Conflicts(e, around) && around.fault == NoFault ==> AtCommit(e, around) == AtRead(e, around)
  {
    PutsRaiseVersion(AtRead(e, around), around.between);
  }

  lemma {:induction false} PutsRaiseVersion<T>(e: Entry<T>, writes: seq<Step<T>>)
    requires AllWrites(writes) && e.Present? && Delete !in writes
    ensures AllWritten(e, writes).Present? && AllWritten(e, writes).version == e.version + |writes|
  {
    if writes != [] {
      PutsRaiseVersion(e, writes[..|writes| - 1]);
    }
  }

  // ---------------------------------------------------------------- the call as a run

  /** An attempt that gets to its commit: the others' writes, its read, the others' writes. */
  lemma ToCommit<T(!new), E(!new)>(start: Entry<T>, base: T, trace: seq<Step<T>>, e: Entry<T>, around: Around<T>,
                                   mutate: T -> T, seen: T, k: nat, erase: T -> E, budget: nat)
    returns (trace': seq<Step<T>>, p: Phase<T>)
    requires OnlyWrites(around) && Reaches(start, base, trace, erase, budget, e, mutate, Ready(k))
    requires AtRead(e, around).Present? && erase(seen) == erase(AtRead(e, around).value)
    ensures trace <= trace' && Foreign(trace') == Foreign(trace) + (around.before + around.between)
    ensures Reaches(start, base, trace', erase, budget, AtCommit(e, around), mutate, p)
    ensures p.HasRead? && p.seen == seen && p.version == AtRead(e, around).version && p.failed == k
  {
    WritesReach(start, base, trace, around.before, erase, budget, e, mutate, Ready(k));
    var t1 := trace + around.before;
    p := ReadReach(start, base, t1, seen, k, erase, budget, AtRead(e, around), mutate);
    var t2 := t1 + [Read(0, seen)];
    WritesReach(start, base, t2, around.between, erase, budget, AtRead(e, around), mutate, p);
    trace' := t2 + around.between;
    ForeignWrites(trace, around.before);
    ForeignOwn(t1, Read(0, seen));
    ForeignWrites(t2, around.between);
  }

  /** An attempt that ends before its commit. */
  lemma EarlyEnd<T(!new), E(!new)>(start: Entry<T>, base: T, trace: seq<Step<T>>, e: Entry<T>, around: Around<T>,
                                   mutate: T -> T, k: nat, r: UpdateResult<T>, erase: T -> E, budget: nat)
    returns (trace': seq<Step<T>>, p: Phase<T>)
    requires OnlyWrites(around) && Reaches(start, base, trace, erase, budget, e, mutate, Ready(k))
    requires if around.fault == ReadFault then r == StoreFailed else AtRead(e, around).Absent? && r == NotFound
    ensures trace <= trace' && Foreign(trace') == Foreign(trace) + around.before
    ensures Reaches(start, base, trace', erase, budget, AtRead(e, around), mutate, p) && EndsIn(p, r)
  {
    WritesReach(start, base, trace, around.before, erase, budget, e, mutate, Ready(k));
    ForeignWrites(trace, around.before);
    trace', p := trace + around.before, Ready(k);
    if around.fault != ReadFault {
      MissedReach(start, base, trace', base, k, erase, budget, AtRead(e, around), mutate);
      ForeignOwn(trace', Read(0, base));
      trace', p := trace' + [Read(0, base)], KeyMissing;
    }
  }

  /** Every attempt extends a run by the others' writes it lives to see and by its own steps. */
  lemma AttemptRun<T(!new), E(!new)>(start: Entry<T>, base: T, trace: seq<Step<T>>, e: Entry<T>, around: Around<T>,
                                     mutate: T -> T, view: (nat, T) -> T, k: nat, outcome: Option<UpdateResult<T>>,
                                     after: Entry<T>, erase: T -> E, budget: nat)
    returns (trace': seq<Step<T>>, p: Phase<T>)
    requires OnlyWrites(around) && Reaches(start, base, trace, erase, budget, e, mutate, Ready(k))
    requires Gives(e, around, mutate, view, k, outcome, after) && forall i, v :: erase(view(i, v)) == erase(v)
    ensures trace <= trace' && Foreign(trace') == Foreign(trace) + Seen(e, around)
    ensures Reaches(start, base, trace', erase, budget, after, mutate, p)
    ensures if outcome.Some? then EndsIn(p, outcome.value)
            else p == if k + 1 < budget then Ready(k + 1) else Exhausted
  {
    if around.fault == ReadFault || AtRead(e, around).Absent? {
      trace', p := EarlyEnd(start, base, trace, e, around, mutate, k, outcome.value, erase, budget);
    } else {
      var seen := view(k, AtRead(e, around).value);
      trace', p := ToCommit(start, base, trace, e, around, mutate, seen, k, erase, budget);
      if around.fault == NoFault {
        CommitReach(start, base, trace', erase, budget, AtCommit(e, around), mutate, p);
        ForeignOwn(trace', Commit(0));
        trace', p := trace' + [Commit(0)], PhaseAfter(AtCommit(e, around), p.version, k, budget);
      }
    }
  }

  /** The attempts before one that is reached make a run. */
  lemma {:induction false} ConflictsRun<T(!new), E(!new)>(start: Entry<T>, base: T, env: nat -> Around<T>,
                                                          mutate: T -> T, view: (nat, T) -> T, k: nat, erase: T -> E,
                                                          budget: nat)
    returns (trace: seq<Step<T>>)
    requires (forall j :: OnlyWrites(env(j))) && forall i, v :: erase(view(i, v)) == erase(v)
    requires k < budget && AllConflict(start, env, k)
    ensures Reaches(start, base, trace, erase, budget, EntryBefore(start, env, k), mutate, Ready(k))
    ensures Foreign(trace) == Writes(env, k)
  {
    if k == 0 {
      trace := [];
    } else {
      var before := ConflictsRun(start, base, env, mutate, view, k - 1, erase, budget);
      trace := ConflictRun(start, base, before, EntryBefore(start, env, k - 1), env(k - 1), mutate, view, k - 1,
                           erase, budget);
      WritesOneMore(env, k - 1);
    }
  }

  lemma WritesOneMore<T>(env: nat -> Around<T>, k: nat)
    ensures Writes(env, k + 1) == Writes(env, k) + (env(k).before + env(k).between)
  {
  }

  /** An attempt that conflicts, with attempts left. */
  lemma ConflictRun<T(!new), E(!new)>(start: Entry<T>, base: T, trace: seq<Step<T>>, e: Entry<T>, around: Around<T>,
                                      mutate: T -> T, view: (nat, T) -> T, k: nat, erase: T -> E, budget: nat)
    returns (trace': seq<Step<T>>)
    requires OnlyWrites(around) && Reaches(start, base, trace, erase, budget, e, mutate, Ready(k))
    requires Conflicts(e, around) && k + 1 < budget && forall i, v :: erase(view(i, v)) == erase(v)
    ensures Foreign(trace') == Foreign(trace) + (around.before + around.between)
    ensures Reaches(start, base, trace', erase, budget, AtCommit(e, around), mutate, Ready(k + 1))
  {
    var p;
    trace', p := AttemptRun(start, base, trace, e, around, mutate, view, k, None, AtCommit(e, around), erase, budget);
  }

  /** The call is a run of the step system with itself as the one client, from the entry it found to the
      entry it left, in which the others write exactly what they write while it lasts, and which
      ends as the call reports. */
  lemma CallIsRun<T(!new), E(!new)>(start: Entry<T>, base: T, env: nat -> Around<T>, mutate: T -> T,
                                    view: (nat, T) -> T, budget: nat, k: nat, r: UpdateResult<T>, after: Entry<T>,
                                    erase: T -> E)
    returns (trace: seq<Step<T>>, p: Phase<T>)
    requires (forall j :: OnlyWrites(env(j))) && forall i, v :: erase(view(i, v)) == erase(v)
    requires Ends(start, env, mutate, view, budget, k, r, after)
    ensures Reaches(start, base, trace, erase, budget, after, mutate, p) && EndsIn(p, r)
    ensures Foreign(trace) == Interference(start, env, k)
  {
    trace := ConflictsRun(start, base, env, mutate, view, k, erase, budget);
    trace, p := AttemptRun(start, base, trace, EntryBefore(start, env, k), env(k), mutate, view, k,
                           if r.TooManyRetries? then None else Some(r), after, erase, budget);
  }
}
