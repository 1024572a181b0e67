/** From role bindings to the list of clusters a subject may access (pkg/storage/rbac_provider.go,
    pkg/storage/taints.go, and the listing calls of pkg/storage/etcd).

    A store is a snapshot: stored bindings, roles and clusters, and which of its calls fail. */
module Rbac {
  import opened Core
  import opened Selection
  import opened SortedIds

  datatype Role = Role(id: string, clusterIds: seq<string>, matchLabels: Option<LabelSelector>)

  datatype RoleBinding = RoleBinding(id: string, roleId: string, subjects: seq<string>, taints: seq<string>)

  /** `unreadable` roles fail with an error other than not-found when bindings are listed;
      `unavailable` roles fail in any way when access is resolved afterwards. */
  datatype Store = Store(
    bindings: seq<RoleBinding>,
    roles: map<string, Role>,
    clusters: seq<Cluster>,
    bindingsFail: bool,
    clustersFail: bool,
    unreadable: set<string>,
    unavailable: set<string>)

  datatype Result<T> = Ok(value: T) | Err

  const ROLE_NOT_FOUND := "role not found"
  const NO_SUBJECTS := "no subjects"

  function Tainted(store: Store, rb: RoleBinding): RoleBinding {
    var t := if rb.roleId !in store.roles then rb.taints + [ROLE_NOT_FOUND] else rb.taints;
    rb.(taints := if rb.subjects == [] then t + [NO_SUBJECTS] else t)
  }

  /** A binding read from the store, whose taints are filled in place. */
  class BindingObject {
    var binding: RoleBinding

    constructor (binding: RoleBinding)
      ensures this.binding == binding
    {
      this.binding := binding;
    }

    method ApplyTaints(store: Store) returns (ok: bool)
      modifies this
      ensures ok <==> old(binding).roleId !in store.unreadable
      ensures binding == if ok then Tainted(store, old(binding)) else old(binding)
    {
      if binding.roleId in store.unreadable {
        return false;
      }
      if binding.roleId !in store.roles {
        binding := binding.(taints := binding.taints + [ROLE_NOT_FOUND]);
      }
      if |binding.subjects| == 0 {
        binding := binding.(taints := binding.taints + [NO_SUBJECTS]);
      }
      return true;
    }
  }

  method ListRoleBindings(store: Store) returns (r: Result<seq<RoleBinding>>)
    ensures r.Err? <==>
            || store.bindingsFail
            || exists i :: 0 <= i < |store.bindings| && store.bindings[i].roleId in store.unreadable
    ensures r.Ok? ==> |r.value| == |store.bindings|
                      && forall i :: 0 <= i < |r.value| ==> r.value[i] == Tainted(store, store.bindings[i])
  {
    if store.bindingsFail {
      return Err;
    }
    var items := [];
    for i := 0 to |store.bindings|
      invariant |items| == i
      invariant forall j :: 0 <= j < i ==> store.bindings[j].roleId !in store.unreadable
      invariant forall j :: 0 <= j < i ==> items[j] == Tainted(store, store.bindings[j])
    {
      var rb := new BindingObject(store.bindings[i]);
      var ok := rb.ApplyTaints(store);
      if !ok {
        return Err;
      }
      items := items + [rb.binding];
    }
    return Ok(items);
  }

  /** The clusters a role's label selector stands for; an absent or empty selector is no cluster. */
  function RoleSelector(role: Role): ClusterSelector { ClusterSelector([], role.matchLabels, true) }

  /** The selected clusters, in order. */
  function Selected(clusters: seq<Cluster>, sel: ClusterSelector): seq<Cluster> {
    if clusters == [] then []
    else
      var n := |clusters| - 1;
      Selected(clusters[..n], sel) + if Selects(sel, clusters[n]) then [clusters[n]] else []
  }

  lemma {:induction false} SelectedIn(clusters: seq<Cluster>, sel: ClusterSelector, c: Cluster)
    ensures c in Selected(clusters, sel) <==> c in clusters && Selects(sel, c)
  {
    if clusters != [] {
      var n := |clusters| - 1;
      SelectedIn(clusters[..n], sel, c);
      assert clusters == clusters[..n] + [clusters[n]];
    }
  }

  method ListClusters(store: Store, sel: ClusterSelector) returns (r: Result<seq<Cluster>>)
    ensures r.Err? <==> store.clustersFail
    ensures r.Ok? ==> r.value == Selected(store.clusters, sel)
    ensures r.Ok? ==> forall c :: c in r.value <==> c in store.clusters && Selects(sel, c)
  {
    if store.clustersFail {
      return Err;
    }
    var selectorPredicate := Predicate(sel);
    var items := [];
    for i := 0 to |store.clusters|
      invariant items == Selected(store.clusters[..i], sel)
    {
      assert store.clusters[..i + 1][..i] == store.clusters[..i];
      if selectorPredicate(store.clusters[i]) {
        items := items + [store.clusters[i]];
      }
    }
    assert store.clusters[..|store.clusters|] == store.clusters;
    forall c ensures c in items <==> c in store.clusters && Selects(sel, c) {
      SelectedIn(store.clusters, sel, c);
    }
    return Ok(items);
  }

  /** The binding names the subject, has no taint, and its role is found when access is resolved. */
  predicate Applies(store: Store, rb: RoleBinding, subject: string) {
    && subject in rb.subjects && Tainted(store, rb).taints == []
    && rb.roleId in store.roles && rb.roleId !in store.unavailable
  }

  predicate Reaches(store: Store, role: Role, id: string) {
    || id in role.clusterIds
    || exists i :: && 0 <= i < |store.clusters| && store.clusters[i].id == id
                   && Selects(RoleSelector(role), store.clusters[i])
  }

  /** The subject may access the cluster id, through some applicable binding. */
  ghost predicate MayAccess(store: Store, subject: string, id: string) {
    exists rb :: rb in store.bindings && Applies(store, rb, subject) && Reaches(store, store.roles[rb.roleId], id)
  }

  /** Resolution fails exactly when bindings cannot be listed, or clusters cannot and some binding applies. */
  ghost predicate Fails(store: Store, subject: string) {
    || store.bindingsFail
    || (exists i :: 0 <= i < |store.bindings| && store.bindings[i].roleId in store.unreadable)
    || (store.clustersFail && exists rb :: rb in store.bindings && Applies(store, rb, subject))
  }

  method SubjectAccess(store: Store, subject: string) returns (r: Result<seq<string>>)
    ensures r.Err? <==> Fails(store, subject)
    ensures r.Ok? ==> StrictlySorted(r.value) && forall id :: id in r.value <==> MayAccess(store, subject, id)
  {
    var listed := ListRoleBindings(store);
    if listed.Err? {
      return Err;
    }
    var rbs := listed.value;
    var allowed: set<string> := {};
    for n := 0 to |rbs|
      invariant forall id :: id in allowed <==> exists i :: 0 <= i < n && Grants(store, i, subject, id)
      invariant store.clustersFail ==> forall i :: 0 <= i < n ==> !Applies(store, store.bindings[i], subject)
    {
      var rb := rbs[n];
      ghost var before := allowed;
      var appliesToUser := false;
      for j := 0 to |rb.subjects|
        invariant appliesToUser <==> exists i :: 0 <= i < j && rb.subjects[i] == subject
      {
        if rb.subjects[j] == subject {
          appliesToUser := true;
        }
      }
      if !appliesToUser || |rb.taints| > 0 || rb.roleId !in store.roles || rb.roleId in store.unavailable {
        assert !Applies(store, store.bindings[n], subject);
        continue;
      }
      assert Applies(store, store.bindings[n], subject);
      var role := store.roles[rb.roleId];
      for j := 0 to |role.clusterIds|
        invariant forall id :: id in allowed <==> id in before || id in role.clusterIds[..j]
      {
        allowed := allowed + {role.clusterIds[j]};
      }
      assert role.clusterIds[..|role.clusterIds|] == role.clusterIds;
      var filtered := ListClusters(store, RoleSelector(role));
      if filtered.Err? {
        assert store.bindings[n] in store.bindings;
        return Err;
      }
      var items := filtered.value;
      for j := 0 to |items|
        invariant forall id :: id in allowed <==>
                    id in before || id in role.clusterIds || exists i :: 0 <= i < j && items[i].id == id
      {
        allowed := allowed + {items[j].id};
      }
      AccessStep(store, n, subject, role, items, before, allowed);
    }
    AccessCollected(store, subject, allowed);
    var sorted := Sort(allowed);
    return Ok(sorted);
  }

  /** Binding i lets the subject reach the id. */
  predicate Grants(store: Store, i: nat, subject: string, id: string)
    requires i < |store.bindings|
  {
    Applies(store, store.bindings[i], subject) && Reaches(store, store.roles[store.bindings[i].roleId], id)
  }

  lemma AccessStep(store: Store, n: nat, subject: string, role: Role, items: seq<Cluster>,
                   before: set<string>, after: set<string>)
    requires n < |store.bindings| && Applies(store, store.bindings[n], subject)
    requires role == store.roles[store.bindings[n].roleId]
    requires forall c :: c in items <==> c in store.clusters && Selects(RoleSelector(role), c)
    requires forall id :: id in before <==> exists i :: 0 <= i < n && Grants(store, i, subject, id)
    requires forall id :: id in after <==>
               id in before || id in role.clusterIds || exists i :: 0 <= i < |items| && items[i].id == id
    ensures forall id :: id in after <==> exists i :: 0 <= i < n + 1 && Grants(store, i, subject, id)
  {
    forall id ensures id in after <==> exists i :: 0 <= i < n + 1 && Grants(store, i, subject, id) {
      ListedIds(store, role, items, id);
      if id in after {
        assert id !in before ==> Grants(store, n, subject, id);
      }
      if exists i :: 0 <= i < n + 1 && Grants(store, i, subject, id) {
        var i :| 0 <= i < n + 1 && Grants(store, i, subject, id);
        assert i == n ==> Reaches(store, role, id);
      }
    }
  }

  lemma ListedIds(store: Store, role: Role, items: seq<Cluster>, id: string)
    requires forall c :: c in items <==> c in store.clusters && Selects(RoleSelector(role), c)
    ensures Reaches(store, role, id) <==> id in role.clusterIds || exists i :: 0 <= i < |items| && items[i].id == id
  {
    if i :| 0 <= i < |items| && items[i].id == id {
      assert items[i] in items;
      var k :| 0 <= k < |store.clusters| && store.clusters[k] == items[i];
    }
    if i :| 0 <= i < |store.clusters| && store.clusters[i].id == id && Selects(RoleSelector(role), store.clusters[i]) {
      assert store.clusters[i] in items;
    }
  }

  lemma AccessCollected(store: Store, subject: string, allowed: set<string>)
    requires forall id :: id in allowed <==> exists i :: 0 <= i < |store.bindings| && Grants(store, i, subject, id)
    ensures forall id :: id in allowed <==> MayAccess(store, subject, id)
  {
    forall id ensures id in allowed <==> MayAccess(store, subject, id) {
      if id in allowed {
        var i :| 0 <= i < |store.bindings| && Grants(store, i, subject, id);
        assert store.bindings[i] in store.bindings;
      }
      if MayAccess(store, subject, id) {
        var rb :| rb in store.bindings && Applies(store, rb, subject) && Reaches(store, store.roles[rb.roleId], id);
        var i :| 0 <= i < |store.bindings| && store.bindings[i] == rb;
        assert Grants(store, i, subject, id);
      }
    }
  }

  /** The store as access control sees it: the order and multiplicity of its lists do not matter. */
  ghost predicate SameContents(a: Store, b: Store) {
    && (forall rb :: rb in a.bindings <==> rb in b.bindings) && (forall c :: c in a.clusters <==> c in b.clusters)
    && a.roles == b.roles && a.unavailable == b.unavailable
  }

  /** Stores with the same contents in any order give the same access list, element by element. */
  lemma AccessIgnoresOrder(a: Store, b: Store, subject: string, xs: seq<string>, ys: seq<string>)
    requires SameContents(a, b)
    requires StrictlySorted(xs) && forall id :: id in xs <==> MayAccess(a, subject, id)
    requires StrictlySorted(ys) && forall id :: id in ys <==> MayAccess(b, subject, id)
    ensures xs == ys
  {
    forall id ensures MayAccess(a, subject, id) <==> MayAccess(b, subject, id) {
      AccessMonotone(a, b, subject, id);
      AccessMonotone(b, a, subject, id);
    }
    SortedUnique(xs, ys);
  }

  /** More bindings and more clusters never remove access; in particular a new binding does not. */
  lemma AccessMonotone(a: Store, b: Store, subject: string, id: string)
    requires (forall rb :: rb in a.bindings ==> rb in b.bindings) && (forall c :: c in a.clusters ==> c in b.clusters)
    requires a.roles == b.roles && b.unavailable <= a.unavailable
    ensures MayAccess(a, subject, id) ==> MayAccess(b, subject, id)
  {
    if MayAccess(a, subject, id) {
      var rb :| rb in a.bindings && Applies(a, rb, subject) && Reaches(a, a.roles[rb.roleId], id);
      var role := a.roles[rb.roleId];
      assert Applies(b, rb, subject);
      if id !in role.clusterIds {
        var i :| 0 <= i < |a.clusters| && a.clusters[i].id == id && Selects(RoleSelector(role), a.clusters[i]);
        assert a.clusters[i] in a.clusters;
        var k :| 0 <= k < |b.clusters| && b.clusters[k] == a.clusters[i];
      }
      assert Reaches(b, role, id);
    }
  }

  /** A binding whose role is missing, or that names nobody, gives no access to anyone. */
  lemma TaintedGivesNothing(store: Store, rb: RoleBinding, subject: string)
    requires rb.roleId !in store.roles || rb.subjects == [] || rb.taints != []
    ensures !Applies(store, rb, subject)
  {
  }

  /** A role without a selector, or with an empty one, reaches exactly its explicit ids. */
  lemma RoleWithoutSelector(store: Store, role: Role, id: string)
    requires role.matchLabels == None || role.matchLabels == Some(LabelSelector(map[], []))
    ensures Reaches(store, role, id) <==> id in role.clusterIds
  {
    forall i | 0 <= i < |store.clusters| ensures !Selects(RoleSelector(role), store.clusters[i]) {
      EmptySelects(role.matchLabels, true, store.clusters[i]);
    }
  }

  /** A role with a selector reaches its explicit ids and the stored clusters whose labels match. */
  lemma RoleWithSelector(store: Store, role: Role, sel: LabelSelector, id: string)
    requires role.matchLabels == Some(sel) && (sel.matchLabels != map[] || sel.matchExpressions != [])
    ensures Reaches(store, role, id) <==>
            || id in role.clusterIds
            || exists c :: c in store.clusters && c.id == id && SelectorMatches(sel, c.labels)
  {
    forall c ensures Selects(RoleSelector(role), c) <==> SelectorMatches(sel, c.labels) {
      SelectorSelects([], sel, true, c);
    }
    if c :| c in store.clusters && c.id == id && SelectorMatches(sel, c.labels) {
      var i :| 0 <= i < |store.clusters| && store.clusters[i] == c;
      assert Selects(RoleSelector(role), store.clusters[i]);
    }
  }

  /** A binding applies exactly when it names the subject, was stored without taints, and its role is
      there both when bindings are listed and when access is resolved. */
  lemma AppliesIff(store: Store, rb: RoleBinding, subject: string)
    ensures Applies(store, rb, subject) <==>
            subject in rb.subjects && rb.taints == [] && rb.roleId in store.roles && rb.roleId !in store.unavailable
  {
  }

  /** An empty selector without the option lists every cluster, as the cluster watch asks for. */
  lemma EmptyListsAll(clusters: seq<Cluster>)
    ensures Selected(clusters, ClusterSelector([], None, false)) == clusters
  {
    forall c | c in clusters ensures Selects(ClusterSelector([], None, false), c) {
      EmptySelects(None, false, c);
    }
    AllSelected(clusters, ClusterSelector([], None, false));
  }

  lemma {:induction false} AllSelected(clusters: seq<Cluster>, sel: ClusterSelector)
    requires forall c :: c in clusters ==> Selects(sel, c)
    ensures Selected(clusters, sel) == clusters
  {
    if clusters != [] {
      var n := |clusters| - 1;
      AllSelected(clusters[..n], sel);
      assert clusters == clusters[..n] + [clusters[n]];
    }
  }

  /** With the option it lists none. */
  lemma {:induction false} EmptyListsNone(clusters: seq<Cluster>)
    ensures Selected(clusters, ClusterSelector([], None, true)) == []
  {
    if clusters != [] {
      EmptyListsNone(clusters[..|clusters| - 1]);
      EmptySelects(None, true, clusters[|clusters| - 1]);
    }
  }
}
