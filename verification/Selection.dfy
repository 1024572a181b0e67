/** Cluster selection (pkg/storage/selection.go). */
module Selection {
  import opened Core
  import opened Validation

  /** An unknown operator, which validation refuses, is skipped by the matcher. */
  datatype Operator = In | NotIn | Exists | DoesNotExist | UnknownOperator

  datatype Requirement = Requirement(key: string, operator: Operator, values: seq<string>)

  datatype LabelSelector = LabelSelector(matchLabels: Labels, matchExpressions: seq<Requirement>)

  datatype ClusterSelector =
    ClusterSelector(clusterIds: seq<string>, labelSelector: Option<LabelSelector>, emptyMatchesNone: bool)

  /** Reading a Go map: the zero string for a missing key. */
  function Lookup(labels: Labels, key: string): string { if key in labels then labels[key] else "" }

  /** What one requirement asks of a cluster's labels. */
  predicate Satisfied(r: Requirement, labels: Labels) {
    match r.operator
    case In => Lookup(labels, r.key) in r.values
    case NotIn => r.key in labels && labels[r.key] !in r.values
    case Exists => r.key in labels
    case DoesNotExist => r.key !in labels
    case UnknownOperator => true
  }

  predicate LabelsMatch(sel: LabelSelector, labels: Labels) {
    forall k :: k in sel.matchLabels ==> Lookup(labels, k) == sel.matchLabels[k]
  }

  /** Every part of the selector holds. */
  predicate FullyMatches(sel: LabelSelector, labels: Labels) {
    && LabelsMatch(sel, labels)
    && forall i :: 0 <= i < |sel.matchExpressions| ==> Satisfied(sel.matchExpressions[i], labels)
  }

  function FirstNotIn(exprs: seq<Requirement>): (n: nat)
    ensures n <= |exprs|
    ensures n < |exprs| ==> exprs[n].operator == NotIn
    ensures forall i :: 0 <= i < n ==> exprs[i].operator != NotIn
  {
    if exprs == [] || exprs[0].operator == NotIn then 0 else 1 + FirstNotIn(exprs[1..])
  }

  /** The labels and the expressions up to and including the first NotIn hold. */
  predicate SelectorMatches(sel: LabelSelector, labels: Labels) {
    && LabelsMatch(sel, labels)
    && forall i :: 0 <= i < |sel.matchExpressions| && i <= FirstNotIn(sel.matchExpressions) ==>
         Satisfied(sel.matchExpressions[i], labels)
  }

  method LabelSelectorMatches(sel: LabelSelector, labels: Labels) returns (matches: bool)
    ensures matches <==> SelectorMatches(sel, labels)
  {
    var remaining := sel.matchLabels.Keys;
    while remaining != {}
      invariant remaining <= sel.matchLabels.Keys
      invariant forall k :: k in sel.matchLabels && k !in remaining ==> Lookup(labels, k) == sel.matchLabels[k]
      decreases remaining
    {
      var key :| key in remaining;
      if Lookup(labels, key) != sel.matchLabels[key] {
        return false;
      }
      remaining := remaining - {key};
    }
    for n := 0 to |sel.matchExpressions|
      invariant n <= FirstNotIn(sel.matchExpressions)
      invariant forall i :: 0 <= i < n ==> Satisfied(sel.matchExpressions[i], labels)
    {
      var req := sel.matchExpressions[n];
      match req.operator {
        case In =>
          var ok := false;
          for j := 0 to |req.values|
            invariant !ok && forall i :: 0 <= i < j ==> Lookup(labels, req.key) != req.values[i]
          {
            if Lookup(labels, req.key) == req.values[j] {
              ok := true;
              break;
            }
          }
          if !ok {
            return false;
          }
        case NotIn =>
          if req.key !in labels {
            return false;
          }
          var v := labels[req.key];
          for j := 0 to |req.values|
            invariant forall i :: 0 <= i < j ==> v != req.values[i]
          {
            if v == req.values[j] {
              return false;
            }
          }
          return true;
        case Exists =>
          if req.key !in labels {
            return false;
          }
        case DoesNotExist =>
          if req.key in labels {
            return false;
          }
        case UnknownOperator =>
      }
      assert Satisfied(req, labels);
    }
    return true;
  }

  /** A selector with nothing after its first NotIn means its whole conjunction, for all labels. */
  lemma NothingAfterNotIn(sel: LabelSelector, labels: Labels)
    requires |sel.matchExpressions| <= FirstNotIn(sel.matchExpressions) + 1
    ensures SelectorMatches(sel, labels) == FullyMatches(sel, labels)
  {
  }

  // ---------------------------------------------------------------- exactly when nothing is lost

  /** What a cluster has at one key: a value, or no label at all. */
  function At(labels: Labels, key: string): Option<string> { if key in labels then Some(labels[key]) else None }

  /** What a requirement asks of the one label it names. */
  predicate Meets(r: Requirement, v: Option<string>) {
    match r.operator
    case In => (if v.Some? then v.value else "") in r.values
    case NotIn => v.Some? && v.value !in r.values
    case Exists => v.Some?
    case DoesNotExist => v.None?
    case UnknownOperator => true
  }

  /** The match label of a key and the requirements on it up to the first NotIn allow this value. */
  ghost predicate Permits(sel: LabelSelector, key: string, v: Option<string>) {
    && (key in sel.matchLabels ==> (if v.Some? then v.value else "") == sel.matchLabels[key])
    && forall i :: 0 <= i < |sel.matchExpressions| && i <= FirstNotIn(sel.matchExpressions) ==>
         sel.matchExpressions[i].key == key ==> Meets(sel.matchExpressions[i], v)
  }

  /** Whatever the selector permits at the key of a requirement meets the requirement. */
  ghost predicate Implied(sel: LabelSelector, r: Requirement) {
    forall v :: Permits(sel, r.key, v) ==> Meets(r, v)
  }

  ghost predicate RestImplied(sel: LabelSelector) {
    forall j :: FirstNotIn(sel.matchExpressions) < j < |sel.matchExpressions| ==> Implied(sel, sel.matchExpressions[j])
  }

  /** Some key of the selector is left no value, not even none. */
  ghost predicate Contradictory(sel: LabelSelector) { exists key :: Stuck(sel, key) }

  ghost predicate Stuck(sel: LabelSelector, key: string) { forall v :: !Permits(sel, key, v) }

  /** Matching is a question about each key on its own. */
  lemma MatchesByKey(sel: LabelSelector, labels: Labels)
    ensures SelectorMatches(sel, labels) <==> forall key :: Permits(sel, key, At(labels, key))
  {
    if forall key :: Permits(sel, key, At(labels, key)) {
      forall k | k in sel.matchLabels ensures Lookup(labels, k) == sel.matchLabels[k] {
        assert Permits(sel, k, At(labels, k));
      }
      forall i | 0 <= i < |sel.matchExpressions| && i <= FirstNotIn(sel.matchExpressions)
        ensures Satisfied(sel.matchExpressions[i], labels)
      {
        assert Permits(sel, sel.matchExpressions[i].key, At(labels, sel.matchExpressions[i].key));
      }
    }
  }

  ghost function Choice(sel: LabelSelector, key: string): (v: Option<string>)
    requires !Stuck(sel, key)
    ensures Permits(sel, key, v)
  {
    var v :| Permits(sel, key, v); v
  }

  /** The keys the selector speaks of. */
  function KeysOf(sel: LabelSelector): set<string> {
    sel.matchLabels.Keys + set i | 0 <= i < |sel.matchExpressions| :: sel.matchExpressions[i].key
  }

  /** A selector that leaves every key some value is matched by some labels. */
  lemma NotContradictory(sel: LabelSelector) returns (labels: Labels)
    requires !Contradictory(sel)
    ensures SelectorMatches(sel, labels)
  {
    labels := map key | key in KeysOf(sel) && !Stuck(sel, key) && Choice(sel, key).Some? :: Choice(sel, key).value;
    forall key ensures Permits(sel, key, At(labels, key)) {
      assert !Stuck(sel, key);
      if key in KeysOf(sel) {
        assert At(labels, key) == Choice(sel, key);
      }
    }
    MatchesByKey(sel, labels);
  }

  /** Labels changed at one key. */
  function Set(labels: Labels, key: string, v: Option<string>): Labels {
    match v
    case Some(value) => labels[key := value]
    case None => labels - {key}
  }

  /** A requirement after the first NotIn that is not implied is lost for some labels. */
  lemma LostRequirement(sel: LabelSelector, accepted: Labels, j: nat, v: Option<string>) returns (labels: Labels)
    requires SelectorMatches(sel, accepted) && FirstNotIn(sel.matchExpressions) < j < |sel.matchExpressions|
    requires Permits(sel, sel.matchExpressions[j].key, v) && !Meets(sel.matchExpressions[j], v)
    ensures SelectorMatches(sel, labels) && !FullyMatches(sel, labels)
  {
    var r := sel.matchExpressions[j];
    labels := Set(accepted, r.key, v);
    MatchesByKey(sel, accepted);
    forall key ensures Permits(sel, key, At(labels, key)) {
      assert At(labels, key) == if key == r.key then v else At(accepted, key);
    }
    MatchesByKey(sel, labels);
    assert !Satisfied(r, labels);
  }

  /** For every selector: the matcher means the whole conjunction for all labels if and only if the
      selector is contradictory up to its first NotIn, or every requirement after it is implied by
      what precedes on the same key. */
  lemma ExactCondition(sel: LabelSelector)
    ensures (forall labels :: SelectorMatches(sel, labels) == FullyMatches(sel, labels))
            <==> Contradictory(sel) || RestImplied(sel)
  {
    if !Contradictory(sel) && !RestImplied(sel) {
      var accepted := NotContradictory(sel);
      var j :| FirstNotIn(sel.matchExpressions) < j < |sel.matchExpressions| && !Implied(sel, sel.matchExpressions[j]);
      var v :| Permits(sel, sel.matchExpressions[j].key, v) && !Meets(sel.matchExpressions[j], v);
      var labels := LostRequirement(sel, accepted, j, v);
      assert SelectorMatches(sel, labels) != FullyMatches(sel, labels);
    } else {
      forall labels ensures SelectorMatches(sel, labels) == FullyMatches(sel, labels) {
        NothingLost(sel, labels);
      }
    }
  }

  lemma NothingLost(sel: LabelSelector, labels: Labels)
    requires Contradictory(sel) || RestImplied(sel)
    ensures SelectorMatches(sel, labels) == FullyMatches(sel, labels)
  {
    MatchesByKey(sel, labels);
    if SelectorMatches(sel, labels) {
      assert forall key :: !Stuck(sel, key) by {
        forall key ensures !Stuck(sel, key) {
          assert Permits(sel, key, At(labels, key));
        }
      }
      forall j | 0 <= j < |sel.matchExpressions| ensures Satisfied(sel.matchExpressions[j], labels) {
        var r := sel.matchExpressions[j];
        assert Permits(sel, r.key, At(labels, r.key));
        assert j > FirstNotIn(sel.matchExpressions) ==> Implied(sel, r);
      }
    }
  }

  /** The keys of the selector's match labels and expressions are all different. */
  predicate DistinctKeys(sel: LabelSelector) {
    && (forall i :: 0 <= i < |sel.matchExpressions| ==> sel.matchExpressions[i].key !in sel.matchLabels)
    && forall i, j :: 0 <= i < j < |sel.matchExpressions| ==> sel.matchExpressions[i].key != sel.matchExpressions[j].key
  }

  /** Hence a valid selector with distinct keys that some labels match means its whole conjunction
      exactly when nothing follows its first NotIn. */
  lemma ExactForDistinctKeys(sel: LabelSelector, accepted: Labels)
    requires ValidSelector(sel) && DistinctKeys(sel) && SelectorMatches(sel, accepted)
    ensures (forall labels :: SelectorMatches(sel, labels) == FullyMatches(sel, labels))
            <==> |sel.matchExpressions| <= FirstNotIn(sel.matchExpressions) + 1
  {
    var exprs := sel.matchExpressions;
    var n := FirstNotIn(exprs);
    if |exprs| > n + 1 {
      var r := exprs[n + 1];
      var v := if r.operator == DoesNotExist then Some("") else None;
      assert Permits(sel, r.key, v) && !Meets(r, v);
      var labels := LostRequirement(sel, accepted, n + 1, v);
      assert SelectorMatches(sel, labels) != FullyMatches(sel, labels);
    } else {
      forall labels ensures SelectorMatches(sel, labels) == FullyMatches(sel, labels) {
        NothingAfterNotIn(sel, labels);
      }
    }
  }

  /** A selector that the matcher accepts although its last requirement fails. */
  lemma SkippedRequirement()
    ensures var sel := LabelSelector(map[], [Requirement("a", NotIn, []), Requirement("b", Exists, [])]);
            SelectorMatches(sel, map["a" := "x"]) && !FullyMatches(sel, map["a" := "x"])
  {
    var sel := LabelSelector(map[], [Requirement("a", NotIn, []), Requirement("b", Exists, [])]);
    assert !Satisfied(sel.matchExpressions[1], map["a" := "x"]);
  }

  /** Validation of a selector (pkg/core/validation.go). */
  predicate ValidRequirement(r: Requirement) {
    && r.key != "" && ValidLabelName(r.key) && r.operator != UnknownOperator
    && forall i :: 0 <= i < |r.values| ==> ValidLabelValue(r.values[i])
  }

  predicate ValidSelector(sel: LabelSelector) {
    && ValidLabels(sel.matchLabels)
    && forall i :: 0 <= i < |sel.matchExpressions| ==> ValidRequirement(sel.matchExpressions[i])
  }

  /** In a validated selector a match label or an In requirement is met only by a label that is present
      with a listed value; without validation a missing label counts as the empty value. */
  lemma ValidatedInNeedsKey(sel: LabelSelector, labels: Labels, r: Requirement, k: string)
    requires ValidSelector(sel)
    ensures r in sel.matchExpressions && r.operator == In && Satisfied(r, labels) ==>
              r.key in labels && labels[r.key] in r.values
    ensures k in sel.matchLabels && LabelsMatch(sel, labels) ==> k in labels && labels[k] == sel.matchLabels[k]
  {
    if r in sel.matchExpressions && r.operator == In && Satisfied(r, labels) {
      var j :| 0 <= j < |r.values| && r.values[j] == Lookup(labels, r.key);
      assert ValidRequirement(r);
      assert ValidLabelValue(r.values[j]);
    }
  }

  predicate IsEmpty(sel: Option<LabelSelector>) {
    sel.None? || (sel.value.matchLabels == map[] && sel.value.matchExpressions == [])
  }

  /** Which clusters a selector stands for. */
  predicate Selects(p: ClusterSelector, c: Cluster) {
    if IsEmpty(p.labelSelector) && p.clusterIds == [] then !p.emptyMatchesNone
    else c.id in p.clusterIds || (!IsEmpty(p.labelSelector) && SelectorMatches(p.labelSelector.value, c.labels))
  }

  method Predicate(p: ClusterSelector) returns (f: Cluster -> bool)
    ensures forall c :: f(c) <==> Selects(p, c)
  {
    var emptyLabelSelector := IsEmpty(p.labelSelector);
    if emptyLabelSelector && p.clusterIds == [] {
      if p.emptyMatchesNone {
        return (_: Cluster) => false;
      }
      return (_: Cluster) => true;
    }
    var idSet: set<string> := {};
    for i := 0 to |p.clusterIds|
      invariant forall x :: x in idSet <==> x in p.clusterIds[..i]
    {
      idSet := idSet + {p.clusterIds[i]};
    }
    assert p.clusterIds[..|p.clusterIds|] == p.clusterIds;
    f := (c: Cluster) =>
      if c.id in idSet then true
      else if emptyLabelSelector then false
      else SelectorMatches(p.labelSelector.value, c.labels);
  }

  /** What the operators ask, against each other: on a label that is there, In and NotIn are opposites and
      ask whether its value is listed; Exists and DoesNotExist are opposites everywhere; NotIn needs
      the label; a missing label is In exactly a list with the empty value. */
  lemma OperatorLaws(key: string, values: seq<string>, labels: Labels)
    ensures var listed, unlisted := Requirement(key, In, values), Requirement(key, NotIn, values);
            && (key in labels ==>
                  (Satisfied(listed, labels) <==> exists i :: 0 <= i < |values| && values[i] == labels[key]))
            && (key in labels ==> (Satisfied(unlisted, labels) <==> !Satisfied(listed, labels)))
            && (key !in labels ==> !Satisfied(unlisted, labels) && (Satisfied(listed, labels) <==> "" in values))
    ensures Satisfied(Requirement(key, Exists, values), labels) <==> key in labels
    ensures Satisfied(Requirement(key, DoesNotExist, values), labels) <==> key !in labels
    ensures Satisfied(Requirement(key, UnknownOperator, values), labels)
  {
  }

  /** An absent selector, or one without labels and expressions, and no ids: all clusters, or none with the
      option. */
  lemma EmptySelects(sel: Option<LabelSelector>, none: bool, c: Cluster)
    requires sel == None || sel == Some(LabelSelector(map[], []))
    ensures Selects(ClusterSelector([], sel, none), c) <==> !none
  {
  }

  /** Ids without a selector: exactly those ids, whatever the option. */
  lemma IdsSelect(ids: seq<string>, sel: Option<LabelSelector>, none: bool, c: Cluster)
    requires ids != [] && (sel == None || sel == Some(LabelSelector(map[], [])))
    ensures Selects(ClusterSelector(ids, sel, none), c) <==> c.id in ids
  {
  }

  /** A selector with something in it: the ids, and the clusters whose labels match. */
  lemma SelectorSelects(ids: seq<string>, sel: LabelSelector, none: bool, c: Cluster)
    requires sel.matchLabels != map[] || sel.matchExpressions != []
    ensures Selects(ClusterSelector(ids, Some(sel), none), c) <==> c.id in ids || SelectorMatches(sel, c.labels)
  {
  }
}
