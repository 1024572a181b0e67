/** The tenant header: a list of ids in one delimited string (pkg/util/codecs.go), and the middleware
    that fills it from a subject's access list (pkg/rbac/middleware.go). The delimiter is one
    character, as at every use. */
module TenantHeader {
  import opened Core
  import opened Text
  import opened Validation
  import opened SortedIds
  import opened Rbac

  /** The ids that are not empty, trimmed. */
  function Filtered(ids: seq<string>): seq<string> {
    if ids == [] then []
    else
      var n := |ids| - 1;
      Filtered(ids[..n]) + if ids[n] == "" then [] else [TrimSpace(ids[n])]
  }

  method Encode(ids: seq<string>, delimiter: char) returns (s: string)
    ensures s == Join(Filtered(ids), delimiter)
  {
    var filtered := [];
    for i := 0 to |ids|
      invariant filtered == Filtered(ids[..i])
    {
      assert ids[..i + 1][..i] == ids[..i];
      if ids[i] == "" {
        continue;
      }
      filtered := filtered + [TrimSpace(ids[i])];
    }
    assert ids[..|ids|] == ids;
    s := Join(filtered, delimiter);
  }

  function Trimmed(parts: seq<string>): (r: seq<string>)
    ensures |r| == |parts| && forall i :: 0 <= i < |r| ==> r[i] == TrimSpace(parts[i])
  {
    seq(|parts|, i requires 0 <= i < |parts| => TrimSpace(parts[i]))
  }

  method Decode(s: string, delimiter: char) returns (ids: seq<string>)
    ensures ids == Trimmed(Split(s, delimiter))
  {
    var parts := Split(s, delimiter);
    ghost var original := parts;
    for i := 0 to |parts|
      invariant |parts| == |original|
      invariant forall j :: 0 <= j < i ==> parts[j] == TrimSpace(original[j])
      invariant forall j :: i <= j < |parts| ==> parts[j] == original[j]
    {
      parts := parts[i := TrimSpace(parts[i])];
    }
    ids := parts;
  }

  /** Encoding, then decoding. */
  function Transported(ids: seq<string>, delimiter: char): seq<string> {
    Trimmed(Split(Join(Filtered(ids), delimiter), delimiter))
  }

  predicate Clean(id: string, delimiter: char) { id != "" && Trim(id) && delimiter !in id }

  lemma {:induction false} FilteredClean(ids: seq<string>)
    requires forall i :: 0 <= i < |ids| ==> ids[i] != "" && Trim(ids[i])
    ensures Filtered(ids) == ids
  {
    if ids != [] {
      var n := |ids| - 1;
      FilteredClean(ids[..n]);
      TrimSpaceProperties(ids[n]);
      assert ids == ids[..n] + [ids[n]];
    }
  }

  lemma {:induction false} FilteredFacts(ids: seq<string>, delimiter: char)
    requires Free(ids, delimiter)
    ensures Free(Filtered(ids), delimiter) && |Filtered(ids)| <= |ids|
    ensures |Filtered(ids)| == |ids| <==> forall i :: 0 <= i < |ids| ==> ids[i] != ""
  {
    if ids != [] {
      var n := |ids| - 1;
      FilteredFacts(ids[..n], delimiter);
      TrimSpaceProperties(ids[n]);
      assert forall i :: 0 <= i < n ==> ids[..n][i] == ids[i];
    }
  }

  /** What arrives is trimmed and free of the delimiter, whatever was sent. */
  lemma TransportedIsClean(ids: seq<string>, delimiter: char, i: nat)
    requires i < |Transported(ids, delimiter)|
    ensures Trim(Transported(ids, delimiter)[i]) && delimiter !in Transported(ids, delimiter)[i]
  {
    var text := Join(Filtered(ids), delimiter);
    SplitFree(text, delimiter);
    TrimSpaceProperties(Split(text, delimiter)[i]);
  }

  /** A list arrives as it was sent exactly when it is not empty and each id is non-empty, trimmed
      and free of the delimiter; the one other list that survives holds just the empty id. */
  lemma RoundTripIff(ids: seq<string>, delimiter: char)
    ensures Transported(ids, delimiter) == ids <==>
            (ids != [] && forall i :: 0 <= i < |ids| ==> Clean(ids[i], delimiter)) || ids == [""]
  {
    if ids != [] && forall i :: 0 <= i < |ids| ==> Clean(ids[i], delimiter) {
      CleanArrives(ids, delimiter);
    } else if ids == [""] {
      assert Filtered([""]) == [] by { assert [""][..0] == []; }
      assert Split("", delimiter) == [""];
    } else if Transported(ids, delimiter) == ids {
      forall i | 0 <= i < |ids| ensures Trim(ids[i]) && delimiter !in ids[i] {
        TransportedIsClean(ids, delimiter, i);
      }
      var i :| 0 <= i < |ids| && ids[i] == "";
      DroppedNeverArrives(ids, delimiter, i);
    }
  }

  lemma CleanArrives(ids: seq<string>, delimiter: char)
    requires ids != [] && forall i :: 0 <= i < |ids| ==> Clean(ids[i], delimiter)
    ensures Transported(ids, delimiter) == ids
  {
    FilteredClean(ids);
    SplitJoin(ids, delimiter);
    TrimmedClean(ids);
  }

  lemma TrimmedClean(ids: seq<string>)
    requires forall i :: 0 <= i < |ids| ==> Trim(ids[i])
    ensures Trimmed(ids) == ids
  {
    forall i | 0 <= i < |ids| ensures Trimmed(ids)[i] == ids[i] {
      TrimSpaceProperties(ids[i]);
    }
  }

  /** A list with an empty id arrives shorter, unless it is only that id. */
  lemma DroppedNeverArrives(ids: seq<string>, delimiter: char, i: nat)
    requires i < |ids| && ids[i] == "" && Free(ids, delimiter) && ids != [""]
    ensures Transported(ids, delimiter) != ids
  {
    FilteredFacts(ids, delimiter);
    var f := Filtered(ids);
    if f != [] {
      SplitJoin(f, delimiter);
      assert |Transported(ids, delimiter)| == |f|;
    } else {
      assert |Split("", delimiter)| == 1;
      assert |ids| == 1 ==> ids == [""];
    }
  }

  datatype Response = Refused(status: int) | Forwarded(header: string, clusterIds: seq<string>)

  /** Fills the header with the subject's access list; a subject without access is turned away. */
  method Handle(store: Store, userId: Option<string>, delimiter: char) returns (r: Response)
    ensures r.Refused? ==> r.status == 401
    ensures r.Forwarded? <==>
              && userId.Some? && !Fails(store, userId.value) && exists id :: MayAccess(store, userId.value, id)
    ensures r.Forwarded? ==>
              && StrictlySorted(r.clusterIds)
              && (forall id :: id in r.clusterIds <==> MayAccess(store, userId.value, id))
              && r.header == Join(Filtered(r.clusterIds), delimiter)
  {
    if userId.None? {
      return Refused(401);
    }
    var access := SubjectAccess(store, userId.value);
    if access.Err? {
      return Refused(401);
    }
    if |access.value| == 0 {
      return Refused(401);
    }
    assert access.value[0] in access.value;
    var ids := [];
    for i := 0 to |access.value|
      invariant ids == access.value[..i]
    {
      ids := ids + [access.value[i]];
    }
    assert ids == access.value;
    var header := Encode(ids, delimiter);
    return Forwarded(header, ids);
  }

  /** Roles and clusters whose ids passed validation. */
  ghost predicate Validated(store: Store) {
    && (forall c :: c in store.clusters ==> ValidId(c.id))
    && forall k :: k in store.roles ==> forall id :: id in store.roles[k].clusterIds ==> ValidId(id)
  }

  /** With validated ids and the '|' delimiter, the header decodes to exactly the sorted list of
      the clusters the subject may access. */
  lemma HeaderCarriesAccess(store: Store, subject: string, ids: seq<string>)
    requires Validated(store) && ids != []
    requires forall id :: id in ids <==> MayAccess(store, subject, id)
    ensures Transported(ids, '|') == ids
  {
    forall i | 0 <= i < |ids| ensures Clean(ids[i], '|') {
      assert ids[i] in ids;
      AccessibleIsValid(store, subject, ids[i]);
      ValidIsClean(ids[i]);
    }
    RoundTripIff(ids, '|');
  }

  lemma AccessibleIsValid(store: Store, subject: string, id: string)
    requires Validated(store) && MayAccess(store, subject, id)
    ensures ValidId(id)
  {
    var rb :| rb in store.bindings && Applies(store, rb, subject) && Reaches(store, store.roles[rb.roleId], id);
    if id !in store.roles[rb.roleId].clusterIds {
      var i :| 0 <= i < |store.clusters| && store.clusters[i].id == id;
      assert store.clusters[i] in store.clusters;
    }
  }

  lemma ValidIsClean(id: string)
    requires ValidId(id)
    ensures Clean(id, '|')
  {
    assert id[0] in id && id[|id| - 1] in id;
  }
}
