/** The mutators handed to the stores' update calls (pkg/storage/mutators.go).

    `equal` is the comparator of the capability type. Capability lists live in an
    object the mutators change in place; the functions say what list results. */
module Mutators {
  import opened Core

  ghost predicate Holds<T(!new)>(caps: seq<T>, c: T, equal: (T, T) -> bool) {
    exists i :: 0 <= i < |caps| && equal(caps[i], c)
  }

  ghost function Added<T(!new)>(caps: seq<T>, c: T, equal: (T, T) -> bool): seq<T> {
    if Holds(caps, c, equal) then caps else caps + [c]
  }

  function Removed<T>(caps: seq<T>, c: T, equal: (T, T) -> bool): seq<T> {
    if caps == [] then []
    else
      var rest := Removed(caps[..|caps| - 1], c, equal);
      if equal(caps[|caps| - 1], c) then rest else rest + [caps[|caps| - 1]]
  }

  /** An object with a capability list and a usage count. */
  class Metadata<T(==,!new)> {
    var capabilities: seq<T>
    var usageCount: int

    constructor (capabilities: seq<T>, usageCount: int)
      ensures this.capabilities == capabilities && this.usageCount == usageCount
    {
      this.capabilities, this.usageCount := capabilities, usageCount;
    }

    method IncrementUsageCount()
      modifies this
      ensures usageCount == old(usageCount) + 1 && capabilities == old(capabilities)
    {
      usageCount := usageCount + 1;
    }

    method AddCapability(c: T, equal: (T, T) -> bool)
      modifies this
      ensures capabilities == Added(old(capabilities), c, equal)
      ensures usageCount == old(usageCount)
    {
      var present := false;
      for i := 0 to |capabilities|
        invariant !present && capabilities == old(capabilities) && usageCount == old(usageCount)
        invariant forall j :: 0 <= j < i ==> !equal(capabilities[j], c)
      {
        if equal(capabilities[i], c) {
          present := true;
          break;
        }
      }
      if !present {
        capabilities := capabilities + [c];
      }
    }

    method RemoveCapability(c: T, equal: (T, T) -> bool)
      modifies this
      ensures capabilities == Removed(old(capabilities), c, equal)
      ensures usageCount == old(usageCount)
    {
      var kept := [];
      for i := 0 to |capabilities|
        invariant capabilities == old(capabilities) && usageCount == old(usageCount)
        invariant kept == Removed(capabilities[..i], c, equal)
      {
        assert capabilities[..i + 1][..i] == capabilities[..i];
        if !equal(capabilities[i], c) {
          kept := kept + [capabilities[i]];
        }
      }
      assert capabilities[..|capabilities|] == capabilities;
      capabilities := kept;
    }
  }

  /** Removing leaves exactly the non-matching capabilities, and a list without a match alone. */
  lemma {:induction false} RemovedContents<T(!new)>(caps: seq<T>, c: T, equal: (T, T) -> bool)
    ensures !Holds(Removed(caps, c, equal), c, equal)
    ensures forall x :: x in Removed(caps, c, equal) <==> x in caps && !equal(x, c)
    ensures !Holds(caps, c, equal) ==> Removed(caps, c, equal) == caps
  {
    if caps != [] {
      var n := |caps| - 1;
      RemovedContents(caps[..n], c, equal);
      assert caps == caps[..n] + [caps[n]];
      assert !equal(caps[n], c) ==>
               Removed(caps, c, equal)[..|Removed(caps[..n], c, equal)|] == Removed(caps[..n], c, equal);
      if !Holds(caps, c, equal) {
        assert forall i :: 0 <= i < n ==> caps[..n][i] == caps[i];
      }
    }
  }

  /** Adding a capability that was absent and removing it again restores the list. */
  lemma AddThenRemove<T(!new)>(caps: seq<T>, c: T, equal: (T, T) -> bool)
    requires equal(c, c) && !Holds(caps, c, equal)
    ensures Removed(Added(caps, c, equal), c, equal) == caps
  {
    assert (caps + [c])[..|caps|] == caps;
    RemovedContents(caps, c, equal);
  }

  /** Adding keeps a list free of matching pairs, and makes the capability present. */
  lemma AddedKeepsDistinct<T(!new)>(caps: seq<T>, c: T, equal: (T, T) -> bool)
    requires equal(c, c)
    requires forall i, j :: 0 <= i < j < |caps| ==> !equal(caps[i], caps[j])
    ensures Holds(Added(caps, c, equal), c, equal)
    ensures var r := Added(caps, c, equal); forall i, j :: 0 <= i < j < |r| ==> !equal(r[i], r[j])
    ensures Added(Added(caps, c, equal), c, equal) == Added(caps, c, equal)
  {
    var r := Added(caps, c, equal);
    if !Holds(caps, c, equal) {
      assert r[|caps|] == c;
    }
  }

  /** The add mutator under the comparator of token capabilities. */
  lemma AddedToToken(caps: seq<TokenCapability>, c: TokenCapability)
    ensures Added(caps, c, TokenCapabilityEqual) == WithTokenCapability(caps, c)
  {
    assert Holds(caps, c, TokenCapabilityEqual) <==> HasTokenCapability(caps, c);
  }

  /** The add mutator under the comparator of cluster capabilities. */
  lemma AddedToCluster(caps: seq<ClusterCapability>, c: ClusterCapability)
    ensures Added(caps, c, ClusterCapabilityEqual) == WithClusterCapability(caps, c)
  {
    assert Holds(caps, c, ClusterCapabilityEqual) <==> HasClusterCapability(caps, c);
  }

  /** Removing goes through the list piece by piece, in order. */
  lemma {:induction false} RemovedConcat<T>(a: seq<T>, b: seq<T>, c: T, equal: (T, T) -> bool)
    ensures Removed(a + b, c, equal) == Removed(a, c, equal) + Removed(b, c, equal)
  {
    if b == [] {
      assert a + b == a;
    } else {
      var n := |b| - 1;
      RemovedConcat(a, b[..n], c, equal);
      assert (a + b)[..|a| + n] == a + b[..n];
    }
  }
}
