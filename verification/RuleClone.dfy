/** Deep copies of rule groups (pkg/rules/types.go) and their delivery to subscribers
    (pkg/rules/notifier.go): lists, rules and label maps as heap objects. */
module RuleClone {
  import opened Core

  /** A map from strings to strings that several holders could share. */
  class StringMap {
    var entries: map<string, string>

    constructor ()
      ensures entries == map[]
    {
      entries := map[];
    }
  }

  datatype RuleNode = RuleNode(record: string, alert: string, expr: string, duration: int,
                               labels: StringMap?, annotations: StringMap?)

  /** `rest` is whatever else a group carries; the copy leaves it at zero. */
  datatype RuleGroup = RuleGroup(name: string, interval: int, rest: int, rules: array<RuleNode>)

  /** The rule without identities; a map may be absent. */
  datatype RuleValue = RuleValue(record: string, alert: string, expr: string, duration: int,
                                 labels: Option<map<string, string>>, annotations: Option<map<string, string>>)

  function Entries(m: StringMap?): Option<map<string, string>>
    reads m
  {
    if m == null then None else Some(m.entries)
  }

  ghost function Value(r: RuleNode): RuleValue
    reads r.labels, r.annotations
  {
    RuleValue(r.record, r.alert, r.expr, r.duration, Entries(r.labels), Entries(r.annotations))
  }

  /** An absent map stays absent; any other is copied entry by entry. */
  method CloneMap(m: StringMap?) returns (c: StringMap?)
    ensures Entries(c) == Entries(m) && (c != null ==> fresh(c))
  {
    if m == null {
      return null;
    }
    var copy := new StringMap();
    var remaining := m.entries.Keys;
    while remaining != {}
      invariant fresh(copy) && remaining <= m.entries.Keys
      invariant copy.entries.Keys == m.entries.Keys - remaining
      invariant forall k :: k in copy.entries ==> copy.entries[k] == m.entries[k]
      decreases remaining
    {
      var k :| k in remaining;
      copy.entries := copy.entries[k := m.entries[k]];
      remaining := remaining - {k};
    }
    assert copy.entries == m.entries;
    return copy;
  }

  /** Two places hold no map in common. */
  predicate Apart(a: StringMap?, b: StringMap?) { a == null || a != b }

  ghost predicate MapsIn(r: RuleNode, owned: set<object>) {
    (r.labels != null ==> r.labels in owned) && (r.annotations != null ==> r.annotations in owned)
  }

  ghost predicate MapsApart(r: RuleNode, q: RuleNode) {
    && Apart(r.labels, q.labels) && Apart(r.labels, q.annotations)
    && Apart(r.annotations, q.labels) && Apart(r.annotations, q.annotations)
  }

  /** Every map of the rules belongs to `owned`, and no two places hold the same map. */
  ghost predicate OwnMaps(rules: seq<RuleNode>, owned: set<object>) {
    && (forall i :: 0 <= i < |rules| ==> MapsIn(rules[i], owned) && Apart(rules[i].labels, rules[i].annotations))
    && forall i, j :: 0 <= i < j < |rules| ==> MapsApart(rules[i], rules[j])
  }

  ghost function MapsOf(r: RuleNode): set<object> {
    (if r.labels != null then {r.labels} else {}) + (if r.annotations != null then {r.annotations} else {})
  }

  lemma OwnOneMore(rules: seq<RuleNode>, r: RuleNode, owned: set<object>)
    requires OwnMaps(rules, owned) && MapsOf(r) !! owned && Apart(r.labels, r.annotations)
    ensures OwnMaps(rules + [r], owned + MapsOf(r))
  {
    forall i | 0 <= i < |rules| ensures MapsApart(rules[i], r) {
      assert MapsIn(rules[i], owned);
    }
  }

  method CloneRule(r: RuleNode) returns (c: RuleNode)
    ensures fresh(MapsOf(c)) && Apart(c.labels, c.annotations)
    ensures Value(c) == Value(r)
  {
    var labels := CloneMap(r.labels);
    var annotations := CloneMap(r.annotations);
    c := RuleNode(r.record, r.alert, r.expr, r.duration, labels, annotations);
  }

  /** The group's rule list and maps are among these objects. */
  ghost predicate GroupWithin(g: RuleGroup, frame: set<object>)
    reads frame
  {
    g.rules in frame && forall i :: 0 <= i < g.rules.Length ==> MapsIn(g.rules[i], frame)
  }

  /** The groups agree in all that is copied. */
  ghost predicate SameGroup(g: RuleGroup, c: RuleGroup, frame: set<object>)
    requires GroupWithin(g, frame) && GroupWithin(c, frame)
    reads frame
  {
    && c.name == g.name && c.interval == g.interval && c.rules.Length == g.rules.Length
    && forall i :: 0 <= i < g.rules.Length ==> Value(c.rules[i]) == Value(g.rules[i])
  }

  /** A group with an equal name, interval and rules whose rule list and maps are all new, each map in
      one place; the rest is zero. */
  method CloneRuleGroup(g: RuleGroup, ghost frame: set<object>) returns (c: RuleGroup, ghost owned: set<object>)
    requires GroupWithin(g, frame)
    ensures fresh(owned) && GroupWithin(g, frame + owned) && GroupWithin(c, frame + owned)
    ensures SameGroup(g, c, frame + owned) && c.rest == 0
    ensures GroupWithin(c, owned) && OwnMaps(c.rules[..], owned)
  {
    var rules := new RuleNode[g.rules.Length](i requires 0 <= i < g.rules.Length reads g.rules => g.rules[i]);
    owned := {rules};
    for n := 0 to g.rules.Length
      invariant fresh(owned) && rules in owned
      invariant OwnMaps(rules[..n], owned)
      invariant forall i :: 0 <= i < n ==> Value(rules[i]) == Value(g.rules[i])
    {
      var r := CloneRule(g.rules[n]);
      OwnOneMore(rules[..n], r, owned);
      rules[n] := r;
      owned := owned + MapsOf(r);
      assert rules[..n + 1] == rules[..n] + [r];
    }
    assert rules[..g.rules.Length] == rules[..];
    c := RuleGroup(g.name, g.interval, 0, rules);
    CloneIsWithin(c, owned);
  }

  lemma CloneIsWithin(c: RuleGroup, owned: set<object>)
    requires c.rules in owned && OwnMaps(c.rules[..], owned)
    ensures GroupWithin(c, owned)
  {
    forall i | 0 <= i < c.rules.Length ensures MapsIn(c.rules[i], owned) {
      assert c.rules[..][i] == c.rules[i];
    }
  }

  /** The list, its groups' rule lists and their maps are among these objects. */
  ghost predicate Within(list: array<RuleGroup>, frame: set<object>)
    reads frame
  {
    list in frame && forall n :: 0 <= n < list.Length ==> GroupWithin(list[n], frame)
  }

  /** The lists agree in all that is copied. */
  ghost predicate SameList(list: array<RuleGroup>, c: array<RuleGroup>, frame: set<object>)
    requires Within(list, frame) && Within(c, frame)
    reads frame
  {
    list.Length == c.Length && forall n :: 0 <= n < list.Length ==> SameGroup(list[n], c[n], frame)
  }

  lemma WithinMore(g: RuleGroup, frame: set<object>, more: set<object>)
    requires GroupWithin(g, frame) && frame <= more
    ensures GroupWithin(g, more)
  {
  }

  /** `cs` are copies of `gs`, each in its own part of what is owned. */
  ghost predicate Copied(gs: seq<RuleGroup>, cs: seq<RuleGroup>, frame: set<object>, owned: set<object>,
                         parts: seq<set<object>>)
    reads frame, owned
  {
    && |gs| == |cs| == |parts|
    && (forall n :: 0 <= n < |parts| ==> parts[n] <= owned)
    && (forall m, n :: 0 <= m < n < |parts| ==> parts[m] !! parts[n])
    && forall n :: 0 <= n < |gs| ==> CopiedIn(gs[n], cs[n], frame, parts[n])
  }

  ghost predicate CopiedIn(g: RuleGroup, c: RuleGroup, frame: set<object>, part: set<object>)
    reads frame, part
  {
    && GroupWithin(g, frame + part) && GroupWithin(c, frame + part) && SameGroup(g, c, frame + part) && c.rest == 0
    && GroupWithin(c, part) && OwnMaps(c.rules[..], part)
  }

  lemma CopiedOneMore(gs: seq<RuleGroup>, cs: seq<RuleGroup>, frame: set<object>, owned: set<object>,
                      parts: seq<set<object>>,
                      g: RuleGroup, c: RuleGroup, part: set<object>)
    requires Copied(gs, cs, frame, owned, parts) && CopiedIn(g, c, frame, part) && part !! owned
    ensures Copied(gs + [g], cs + [c], frame, owned + part, parts + [part])
  {
  }

  /** A list of equal groups that shares nothing with any list, rule or map that existed before, nor
      one of its groups with another. */
  method CloneRuleGroupList(list: array<RuleGroup>, ghost frame: set<object>)
    returns (cloned: array<RuleGroup>, ghost owned: set<object>, ghost parts: seq<set<object>>)
    requires Within(list, frame)
    ensures fresh(owned) && Within(list, frame + owned) && Within(cloned, frame + owned) && Within(cloned, owned)
    ensures SameList(list, cloned, frame + owned)
    ensures Copied(list[..], cloned[..], frame, owned, parts)
  {
    cloned := new RuleGroup[list.Length](i requires 0 <= i < list.Length reads list => list[i]);
    owned, parts := {}, [];
    for k := 0 to list.Length
      invariant fresh(owned) && cloned !in owned
      invariant Copied(list[..k], cloned[..k], frame, owned, parts)
    {
      var c, part := CloneRuleGroup(list[k], frame);
      CopiedOneMore(list[..k], cloned[..k], frame, owned, parts, list[k], c, part);
      assert list[..k + 1] == list[..k] + [list[k]];
      ghost var before := cloned[..k];
      cloned[k] := c;
      assert cloned[..k + 1] == before + [c];
      owned, parts := owned + part, parts + [part];
    }
    assert list[..list.Length] == list[..] && cloned[..cloned.Length] == cloned[..];
    CopiedGrows(list[..], cloned[..], frame, owned, parts, {cloned});
    owned := owned + {cloned};
    AllCopied(list, cloned, frame, owned, parts);
  }

  /** More owned objects change nothing. */
  lemma CopiedGrows(gs: seq<RuleGroup>, cs: seq<RuleGroup>, frame: set<object>, owned: set<object>,
                    parts: seq<set<object>>,
                    more: set<object>)
    requires Copied(gs, cs, frame, owned, parts)
    ensures Copied(gs, cs, frame, owned + more, parts)
  {
  }

  lemma AllCopied(list: array<RuleGroup>, cloned: array<RuleGroup>, frame: set<object>, owned: set<object>,
                  parts: seq<set<object>>)
    requires list in frame && cloned in owned && Copied(list[..], cloned[..], frame, owned, parts)
    ensures Within(list, frame + owned) && Within(cloned, frame + owned) && Within(cloned, owned)
    ensures SameList(list, cloned, frame + owned)
  {
    forall n | 0 <= n < list.Length
      ensures GroupWithin(list[n], frame + owned) && GroupWithin(cloned[n], frame + owned)
      ensures GroupWithin(cloned[n], owned)
      ensures SameGroup(list[n], cloned[n], frame + owned)
    {
      assert list[..][n] == list[n] && cloned[..][n] == cloned[n];
      WithinMore(list[n], frame + parts[n], frame + owned);
      WithinMore(cloned[n], frame + parts[n], frame + owned);
      WithinMore(cloned[n], parts[n], owned);
    }
  }

  /** The subscribers' channels: for each, the lists waiting in its buffer. */
  class Channels {
    var buffers: seq<seq<array<RuleGroup>>>

    constructor (n: nat)
      ensures |buffers| == n && forall i :: 0 <= i < n ==> buffers[i] == []
    {
      buffers := seq(n, _ => []);
    }
  }

  const CAPACITY := 3

  /** The list is a copy of `latest` made of new objects only, all of them in `owned`. */
  ghost predicate CopyOf(latest: array<RuleGroup>, list: array<RuleGroup>, frame: set<object>, owned: set<object>)
    reads frame, owned
  {
    && Within(latest, frame + owned) && Within(list, frame + owned) && Within(list, owned)
    && SameList(latest, list, frame + owned)
  }

  /** A list handed to a subscriber, and the objects it is made of. */
  datatype Delivery = Delivery(list: array<RuleGroup>, owned: set<object>)

  /** Every delivery is a copy of the latest list, and no two of them share an object; all their objects
      are in `all`. */
  ghost predicate Unshared(latest: array<RuleGroup>, sent: seq<Option<Delivery>>, frame: set<object>, all: set<object>)
    reads frame, all
  {
    && (forall i :: 0 <= i < |sent| && sent[i].Some? ==>
          sent[i].value.owned <= all && CopyOf(latest, sent[i].value.list, frame, sent[i].value.owned))
    && forall i, j :: 0 <= i < j < |sent| && sent[i].Some? && sent[j].Some? ==>
         sent[i].value.owned !! sent[j].value.owned
  }

  ghost function OwnedBy(d: Option<Delivery>): set<object> { if d.Some? then d.value.owned else {} }

  /** The same, delivery by delivery. */
  ghost predicate SentApart(latest: array<RuleGroup>, sent: seq<Option<Delivery>>, frame: set<object>, all: set<object>)
    reads frame, all
  {
    sent == [] ||
    (var d := sent[|sent| - 1];
     && OwnedBy(d) <= all && (d.Some? ==> CopyOf(latest, d.value.list, frame, d.value.owned))
     && SentApart(latest, sent[..|sent| - 1], frame, all - OwnedBy(d)))
  }

  lemma SentOneMore(latest: array<RuleGroup>, sent: seq<Option<Delivery>>, frame: set<object>, all: set<object>,
                    d: Option<Delivery>)
    requires SentApart(latest, sent, frame, all) && OwnedBy(d) !! all
    requires d.Some? ==> CopyOf(latest, d.value.list, frame, d.value.owned)
    ensures SentApart(latest, sent + [d], frame, all + OwnedBy(d))
  {
    assert (sent + [d])[..|sent|] == sent;
    assert all + OwnedBy(d) - OwnedBy(d) == all;
  }

  lemma {:induction false} ApartIsUnshared(latest: array<RuleGroup>, sent: seq<Option<Delivery>>, frame: set<object>,
                                           all: set<object>)
    requires SentApart(latest, sent, frame, all)
    ensures Unshared(latest, sent, frame, all)
  {
    if sent != [] {
      var n := |sent| - 1;
      ApartIsUnshared(latest, sent[..n], frame, all - OwnedBy(sent[n]));
      assert forall i :: 0 <= i < n ==> sent[..n][i] == sent[i];
    }
  }

  /** What a channel's buffer becomes. */
  function Extended(buffer: seq<array<RuleGroup>>, d: Option<Delivery>): seq<array<RuleGroup>> {
    if d.Some? then buffer + [d.value.list] else buffer
  }

  method CloneLatest(latest: array<RuleGroup>, ghost frame: set<object>)
    returns (cloned: array<RuleGroup>, ghost owned: set<object>)
    requires Within(latest, frame)
    ensures fresh(owned) && CopyOf(latest, cloned, frame, owned)
  {
    ghost var parts;
    cloned, owned, parts := CloneRuleGroupList(latest, frame);
  }

  /** Sends the copy if channel k has room, and then makes the next one. */
  method Offer(channels: Channels, k: nat, latest: array<RuleGroup>, cloned: array<RuleGroup>,
               ghost owned: set<object>, ghost frame: set<object>)
    returns (next: array<RuleGroup>, ghost nextOwned: set<object>, ghost d: Option<Delivery>)
    requires k < |channels.buffers| && Within(latest, frame) && CopyOf(latest, cloned, frame, owned)
    requires channels !in frame && channels !in owned
    modifies channels
    ensures channels.buffers == old(channels.buffers)[k := Extended(old(channels.buffers)[k], d)]
    ensures d == if |old(channels.buffers)[k]| < CAPACITY then Some(Delivery(cloned, owned)) else None
    ensures CopyOf(latest, next, frame, nextOwned)
    ensures if d.Some? then fresh(nextOwned) && CopyOf(latest, cloned, frame, owned) else nextOwned == owned
  {
    next, nextOwned, d := cloned, owned, None;
    if |channels.buffers[k]| < CAPACITY {
      channels.buffers := channels.buffers[k := channels.buffers[k] + [cloned]];
      d := Some(Delivery(cloned, owned));
      next, nextOwned := CloneLatest(latest, frame);
    }
  }

  /** Every channel that had room got its delivery at the end of its buffer, and no other changed. */
  ghost predicate Delivered(before: seq<seq<array<RuleGroup>>>, after: seq<seq<array<RuleGroup>>>,
                            sent: seq<Option<Delivery>>) {
    && |before| == |after| && |sent| <= |before|
    && (forall i :: 0 <= i < |sent| ==> after[i] == Extended(before[i], sent[i]))
    && (forall i :: 0 <= i < |sent| ==> (sent[i].Some? <==> |before[i]| < CAPACITY))
    && forall i :: |sent| <= i < |before| ==> after[i] == before[i]
  }

  /** The delivery loop: each channel with room gets a copy of the latest list and the next copy is made;
      a copy that a full channel did not take goes to the next channel. All objects delivered are
      new, so none is among the objects `frame` of the latest list, and no two channels share one. */
  method Deliver(latest: array<RuleGroup>, channels: Channels, ghost frame: set<object>)
    returns (ghost sent: seq<Option<Delivery>>, ghost all: set<object>)
    requires Within(latest, frame) && channels !in frame
    modifies channels
    ensures |sent| == |channels.buffers| && Delivered(old(channels.buffers), channels.buffers, sent)
    ensures fresh(all) && all !! frame && Unshared(latest, sent, frame, all)
  {
    sent, all := [], {};
    ghost var before := channels.buffers;
    var cloned, owned := CloneLatest(latest, frame);
    for k := 0 to |channels.buffers|
      invariant |sent| == k && Delivered(before, channels.buffers, sent) && Within(latest, frame)
      invariant fresh(all) && fresh(owned) && all !! owned
      invariant CopyOf(latest, cloned, frame, owned) && SentApart(latest, sent, frame, all)
    {
      ghost var d;
      cloned, owned, d := Offer(channels, k, latest, cloned, owned, frame);
      SentOneMore(latest, sent, frame, all, d);
      sent, all := sent + [d], all + OwnedBy(d);
    }
    ApartIsUnshared(latest, sent, frame, all);
  }
}
