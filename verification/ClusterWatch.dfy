/** The cluster watch (pkg/management/clusters.go): per tick, the difference between the listing and
    what the client knows is sent as events. */
module ClusterWatch {
  import opened Core

  datatype Event = Added(id: string) | Deleted(id: string)

  /** A tick's listing, or its failure, and after how many events the stream breaks. */
  datatype Tick = Tick(listing: Option<seq<string>>, sends: nat)

  /** What a client that starts with `known` knows after the events; nothing if an id is added while
      present or deleted while absent. */
  function Replay(known: set<string>, events: seq<Event>): Option<set<string>> {
    if events == [] then Some(known)
    else
      var n := |events| - 1;
      match Replay(known, events[..n])
      case None => None
      case Some(s) =>
        match events[n]
        case Added(id) => if id in s then None else Some(s + {id})
        case Deleted(id) => if id in s then Some(s - {id}) else None
  }

  lemma ReplayOneMore(known: set<string>, events: seq<Event>, e: Event, s: set<string>)
    requires Replay(known, events) == Some(s)
    ensures e.Added? && e.id !in s ==> Replay(known, events + [e]) == Some(s + {e.id})
    ensures e.Deleted? && e.id in s ==> Replay(known, events + [e]) == Some(s - {e.id})
  {
    assert (events + [e])[..|events|] == events;
  }

  lemma {:induction false} ReplayConcat(known: set<string>, a: seq<Event>, b: seq<Event>, s: set<string>)
    requires Replay(known, a) == Some(s)
    ensures Replay(known, a + b) == Replay(s, b)
  {
    if b == [] {
      assert a + b == a;
    } else {
      var n := |b| - 1;
      ReplayConcat(known, a, b[..n], s);
      assert (a + b)[..|a| + n] == a + b[..n];
    }
  }

  function Ids(listing: seq<string>): set<string> { set id | id in listing }

  /** How many events it takes to get from one set of ids to another. */
  function Needed(before: set<string>, after: set<string>): nat { |after - before| + |before - after| }

  /** Every event is one of the changes. */
  ghost predicate Belong(events: seq<Event>, before: set<string>, after: set<string>) {
    forall i :: 0 <= i < |events| ==>
      if events[i].Added? then events[i].id in after - before else events[i].id in before - after
  }

  /** The events of a completed tick say exactly what changed, each change once. */
  ghost predicate Minimal(events: seq<Event>, before: set<string>, after: set<string>) {
    |events| == Needed(before, after) && Belong(events, before, after)
  }

  lemma ProperSubset(a: set<string>, b: set<string>, x: string)
    requires a <= b && x in b && x !in a
    ensures |a| < |b|
  {
    assert b == a + (b - a);
    assert x in b - a;
  }

  /** The events sent so far announce exactly what has become known, each id once. */
  ghost predicate Announced(before: set<string>, known: set<string>, events: seq<Event>) {
    && Replay(before, events) == Some(known) && |events| == |known - before|
    && forall k :: 0 <= k < |events| ==> events[k].Added? && events[k].id in known - before
  }

  lemma AnnouncedOneMore(before: set<string>, known: set<string>, events: seq<Event>, id: string)
    requires Announced(before, known, events) && before <= known && id !in known
    ensures Announced(before, known + {id}, events + [Added(id)])
  {
    ReplayOneMore(before, events, Added(id), known);
    assert known + {id} - before == (known - before) + {id};
  }

  /** The events say exactly what was new in the listing and what has since been dropped from `all`. */
  ghost predicate Forgotten(before: set<string>, listed: set<string>, all: set<string>, known: set<string>,
                            events: seq<Event>) {
    && Replay(before, events) == Some(known) && |events| == |listed - before| + |all - known|
    && Belong(events, before, listed)
  }

  lemma ForgottenOneMore(before: set<string>, listed: set<string>, all: set<string>, known: set<string>,
                         events: seq<Event>, id: string)
    requires Forgotten(before, listed, all, known, events) && known <= all == before + listed
    requires id in known && id !in listed
    ensures Forgotten(before, listed, all, known - {id}, events + [Deleted(id)])
  {
    ReplayOneMore(before, events, Deleted(id), known);
    assert all - (known - {id}) == (all - known) + {id};
  }

  lemma AnnouncedStartsForgetting(before: set<string>, listed: set<string>, events: seq<Event>)
    requires Announced(before, before + listed, events)
    ensures Forgotten(before, listed, before + listed, before + listed, events)
  {
    assert before + listed - before == listed - before;
    assert (before + listed) - (before + listed) == {};
  }

  lemma ForgottenIsMinimal(before: set<string>, listed: set<string>, events: seq<Event>)
    requires Forgotten(before, listed, before + listed, listed, events)
    ensures Minimal(events, before, listed)
  {
    assert before + listed - listed == before - listed;
  }

  /** Where an id is still to be announced, more events are needed than were sent. */
  lemma MoreToAnnounce(before: set<string>, known: set<string>, listed: set<string>, events: seq<Event>, id: string)
    requires Announced(before, known, events) && known <= before + listed && id in listed && id !in known
    requires before <= known
    ensures |events| < |listed - before| && Belong(events, before, listed)
  {
    ProperSubset(known - before, listed - before, id);
  }

  /** What the announcing loop knows after i listed ids. */
  ghost predicate Announcing(listing: seq<string>, i: nat, before: set<string>, known: set<string>,
                             updatedIds: set<string>, events: seq<Event>)
  {
    && i <= |listing| && updatedIds == Ids(listing[..i]) && known == before + updatedIds
    && Announced(before, known, events)
  }

  lemma AnnounceNext(listing: seq<string>, i: nat, before: set<string>, known: set<string>,
                     updatedIds: set<string>, events: seq<Event>)
    requires i < |listing| && Announcing(listing, i, before, known, updatedIds, events)
    ensures var id := listing[i];
            if id in known then Announcing(listing, i + 1, before, known, updatedIds + {id}, events)
            else Announcing(listing, i + 1, before, known + {id}, updatedIds + {id}, events + [Added(id)])
  {
    IdsOneMore(listing, i);
    if listing[i] in known {
      assert before + (updatedIds + {listing[i]}) == known;
    } else {
      AnnouncedOneMore(before, known, events, listing[i]);
      assert before + (updatedIds + {listing[i]}) == known + {listing[i]};
    }
  }

  lemma StoppedAt(listing: seq<string>, i: nat, before: set<string>, known: set<string>, updatedIds: set<string>,
                  events: seq<Event>)
    requires i < |listing| && Announcing(listing, i, before, known, updatedIds, events) && listing[i] !in known
    ensures |events| < |Ids(listing) - before| && Belong(events, before, Ids(listing))
  {
    MoreToAnnounce(before, known, Ids(listing), events, listing[i]);
  }

  /** Where an id is still to be deleted, too. */
  lemma MoreToForget(before: set<string>, listed: set<string>, known: set<string>, events: seq<Event>, id: string)
    requires Forgotten(before, listed, before + listed, known, events) && listed <= known <= before + listed
    requires id in known && id !in listed
    ensures |events| < Needed(before, listed)
  {
    ProperSubset(before + listed - known, before - listed, id);
  }

  class Watcher {
    var known: set<string>

    constructor ()
      ensures known == {}
    {
      known := {};
    }

    /** Takes over the client's list if every cluster on it is stored. */
    method Start(listed: seq<string>, stored: set<string>) returns (ok: bool)
      requires known == {}
      modifies this
      ensures ok <==> Ids(listed) <= stored
      ensures ok ==> known == Ids(listed)
    {
      for i := 0 to |listed|
        invariant known == Ids(listed[..i]) && known <= stored
      {
        IdsOneMore(listed, i);
        if listed[i] !in stored {
          assert listed[i] in Ids(listed);
          return false;
        }
        known := known + {listed[i]};
      }
      assert listed[..|listed|] == listed;
      return true;
    }

    /** Compares a listing with what is known, announcing additions first and then deletions, the
        latter in any order. The stream accepts `sends` events and then breaks. */
    method OnTick(listing: seq<string>, sends: nat) returns (ok: bool, events: seq<Event>)
      modifies this
      ensures Replay(old(known), events).Some? && |events| <= sends
      ensures ok ==> known == Ids(listing) && Replay(old(known), events) == Some(known)
      ensures ok ==> Minimal(events, old(known), known)
      ensures !ok ==> |events| == sends < Needed(old(known), Ids(listing)) && Belong(events, old(known), Ids(listing))
    {
      ghost var before := known;
      var updatedIds;
      ok, updatedIds, events := Announce(listing, sends);
      if ok {
        ok, events := Forget(updatedIds, sends, events, before);
      }
    }

    /** Announces what is newly listed. */
    method Announce(listing: seq<string>, sends: nat) returns (ok: bool, updatedIds: set<string>, events: seq<Event>)
      modifies this
      ensures Replay(old(known), events).Some? && |events| <= sends
      ensures ok ==> updatedIds == Ids(listing) && known == old(known) + updatedIds
      ensures ok ==> Announced(old(known), known, events)
      ensures !ok ==> |events| == sends < |Ids(listing) - old(known)| && Belong(events, old(known), Ids(listing))
    {
      updatedIds, events := {}, [];
      ghost var before := known;
      for i := 0 to |listing|
        invariant Announcing(listing, i, before, known, updatedIds, events) && |events| <= sends
      {
        AnnounceNext(listing, i, before, known, updatedIds, events);
        ghost var was, listedBefore := known, updatedIds;
        updatedIds := updatedIds + {listing[i]};
        if listing[i] !in known {
          known := known + {listing[i]};
          if |events| == sends {
            StoppedAt(listing, i, before, was, listedBefore, events);
            return false, updatedIds, events;
          }
          events := events + [Added(listing[i])];
        }
      }
      assert listing[..|listing|] == listing;
      return true, updatedIds, events;
    }

    /** Deletes what is no longer listed. */
    method Forget(updatedIds: set<string>, sends: nat, announced: seq<Event>, ghost before: set<string>)
      returns (ok: bool, events: seq<Event>)
      requires known == before + updatedIds && Announced(before, known, announced) && |announced| <= sends
      modifies this
      ensures Replay(before, events).Some? && |events| <= sends
      ensures ok ==> known == updatedIds && Replay(before, events) == Some(known) && Minimal(events, before, known)
      ensures !ok ==> |events| == sends < Needed(before, updatedIds) && Belong(events, before, updatedIds)
    {
      events := announced;
      AnnouncedStartsForgetting(before, updatedIds, announced);
      var remaining := known;
      while remaining != {}
        invariant known == updatedIds + remaining && known <= before + updatedIds && |events| <= sends
        invariant Forgotten(before, updatedIds, before + updatedIds, known, events)
        decreases remaining
      {
        var id :| id in remaining;
        if id !in updatedIds {
          ForgottenOneMore(before, updatedIds, before + updatedIds, known, events, id);
          MoreToForget(before, updatedIds, known, events, id);
          known := known - {id};
          if |events| == sends {
            return false, events;
          }
          events := events + [Deleted(id)];
        }
        remaining := remaining - {id};
      }
      ForgottenIsMinimal(before, updatedIds, events);
      return true, events;
    }
  }

  /** What the client knows before tick k, if the ticks before it were completed. */
  function Before(start: set<string>, ticks: seq<Tick>, k: nat): set<string>
    requires k <= |ticks| && forall i :: 0 <= i < k ==> ticks[i].listing.Some?
  {
    if k == 0 then start else Ids(ticks[k - 1].listing.value)
  }

  /** The number of events sent before tick k. */
  function From(marks: seq<nat>, k: nat): nat
    requires k <= |marks|
  {
    if k == 0 then 0 else marks[k - 1]
  }

  ghost predicate Listed(ticks: seq<Tick>, n: nat) {
    n <= |ticks| && forall i :: 0 <= i < n ==> ticks[i].listing.Some?
  }

  /** Tick k sent one event for each change between what the client knew and the listing, no more than
      the stream took, and so brought the client to exactly that listing. */
  ghost predicate Completed(start: set<string>, events: seq<Event>, marks: seq<nat>, ticks: seq<Tick>, k: nat)
    requires k < |marks| <= |ticks| && Listed(ticks, |marks|)
  {
    && From(marks, k) <= marks[k] <= |events| && marks[k] - From(marks, k) <= ticks[k].sends
    && Minimal(events[From(marks, k)..marks[k]], Before(start, ticks, k), Ids(ticks[k].listing.value))
    && Replay(start, events[..marks[k]]) == Some(Ids(ticks[k].listing.value))
  }

  ghost predicate InStep(start: set<string>, events: seq<Event>, marks: seq<nat>, ticks: seq<Tick>) {
    && |marks| <= |ticks| && Listed(ticks, |marks|)
    && forall k :: 0 <= k < |marks| ==> Completed(start, events, marks, ticks, k)
  }

  /** The watch ends with the first tick that is not completed: its listing fails and nothing is sent, or
      it needs more events than the stream takes and as many of them are sent as it takes. */
  ghost predicate BreaksOff(start: set<string>, events: seq<Event>, marks: seq<nat>, ticks: seq<Tick>)
    requires |marks| < |ticks| && Listed(ticks, |marks|)
  {
    var n := |marks|;
    if ticks[n].listing.None? then |events| == From(marks, n)
    else
      var before, after := Before(start, ticks, n), Ids(ticks[n].listing.value);
      && ticks[n].sends < Needed(before, after) && |events| == From(marks, n) + ticks[n].sends
      && Belong(events[From(marks, n)..], before, after)
  }

  lemma InStepLonger(start: set<string>, events: seq<Event>, more: seq<Event>, marks: seq<nat>, ticks: seq<Tick>)
    requires InStep(start, events, marks, ticks)
    ensures InStep(start, events + more, marks, ticks)
  {
    forall k | 0 <= k < |marks| ensures Completed(start, events + more, marks, ticks, k) {
      assert Completed(start, events, marks, ticks, k);
      assert (events + more)[..marks[k]] == events[..marks[k]];
      assert (events + more)[From(marks, k)..marks[k]] == events[From(marks, k)..marks[k]];
    }
  }

  /** One more completed tick. */
  lemma InStepMark(start: set<string>, events: seq<Event>, more: seq<Event>, marks: seq<nat>, ticks: seq<Tick>)
    requires InStep(start, events, marks, ticks) && |marks| < |ticks| && ticks[|marks|].listing.Some?
    requires |events| == From(marks, |marks|) && |more| <= ticks[|marks|].sends
    requires Minimal(more, Before(start, ticks, |marks|), Ids(ticks[|marks|].listing.value))
    requires Replay(start, events + more) == Some(Ids(ticks[|marks|].listing.value))
    ensures InStep(start, events + more, marks + [|events + more|], ticks)
  {
    InStepLonger(start, events, more, marks, ticks);
    var marks', all := marks + [|events + more|], events + more;
    assert all[..|all|] == all && all[|events|..|all|] == more;
    forall k | 0 <= k < |marks'| ensures Completed(start, all, marks', ticks, k) {
      if k < |marks| {
        assert Completed(start, all, marks, ticks, k);
      }
    }
  }

  /** The stream of one watch: the events after the client's list, and after each completed tick the
      number of events sent so far. Every tick is completed until a listing fails or a tick needs
      more events than the stream takes. */
  method WatchClusters(listed: seq<string>, stored: set<string>, ticks: seq<Tick>)
    returns (started: bool, events: seq<Event>, marks: seq<nat>)
    ensures started <==> Ids(listed) <= stored
    ensures !started ==> events == [] && marks == []
    ensures Replay(Ids(listed), events).Some? && InStep(Ids(listed), events, marks, ticks)
    ensures started && |marks| < |ticks| ==> BreaksOff(Ids(listed), events, marks, ticks)
    ensures |marks| == |ticks| ==> |events| == From(marks, |marks|)
  {
    events, marks := [], [];
    var w := new Watcher();
    started := w.Start(listed, stored);
    if !started {
      return;
    }
    for n := 0 to |ticks|
      invariant |marks| == n && InStep(Ids(listed), events, marks, ticks)
      invariant w.known == Before(Ids(listed), ticks, n) && Replay(Ids(listed), events) == Some(w.known)
      invariant |events| == From(marks, n)
    {
      if ticks[n].listing.None? {
        return;
      }
      ghost var before := w.known;
      var ok, more := w.OnTick(ticks[n].listing.value, ticks[n].sends);
      ReplayConcat(Ids(listed), events, more, before);
      if !ok {
        InStepLonger(Ids(listed), events, more, marks, ticks);
        assert (events + more)[|events|..] == more;
        events := events + more;
        return;
      }
      InStepMark(Ids(listed), events, more, marks, ticks);
      events := events + more;
      marks := marks + [|events|];
    }
  }

  lemma IdsOneMore(listing: seq<string>, i: nat)
    requires i < |listing|
    ensures Ids(listing[..i + 1]) == Ids(listing[..i]) + {listing[i]}
  {
    assert listing[..i + 1] == listing[..i] + [listing[i]];
  }
}
