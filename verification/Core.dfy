/** The records every part of the gateway shares (pkg/core), and their comparators.

    A record whose metadata message is absent reads like one whose metadata fields
    are all zero, so the metadata fields are kept in the record itself. */
module Core {

  datatype Option<+T> = None | Some(value: T)

  type Labels = map<string, string>

  datatype Reference = Reference(id: string)

  datatype TokenCapability = TokenCapability(kind: string, reference: Option<Reference>)

  datatype ClusterCapability = ClusterCapability(name: string)

  datatype BootstrapToken = BootstrapToken(
    tokenId: string,
    secret: string,
    leaseId: int,
    ttl: int,
    usageCount: int,
    labels: Labels,
    capabilities: seq<TokenCapability>)

  datatype Cluster = Cluster(id: string, labels: Labels, capabilities: seq<ClusterCapability>)

  /** A token used once more. */
  function Used(t: BootstrapToken): BootstrapToken { t.(usageCount := t.usageCount + 1) }

  /** A token without what a read may refresh. */
  function EraseLease(t: BootstrapToken): BootstrapToken { t.(ttl := 0, leaseId := 0) }

  const JOIN_EXISTING_CLUSTER := "join_existing_cluster"

  /** The capability that lets a token extend an existing cluster. */
  function JoinFor(clusterId: string): TokenCapability {
    TokenCapability(JOIN_EXISTING_CLUSTER, Some(Reference(clusterId)))
  }

  /** Equal, and neither side is the zero value. */
  predicate EqualNonzero(a: string, b: string) {
    if a == "" || b == "" then false else a == b
  }

  /** A missing reference equals only another missing reference. */
  predicate ReferenceEqual(a: Option<Reference>, b: Option<Reference>) {
    if a.None? || b.None? then a == b else EqualNonzero(a.value.id, b.value.id)
  }

  predicate ReferenceEqualNonzero(a: Option<Reference>, b: Option<Reference>) {
    if ReferenceEqual(a, None) || ReferenceEqual(b, None) then false else ReferenceEqual(a, b)
  }

  predicate TokenCapabilityEqual(a: TokenCapability, b: TokenCapability) {
    EqualNonzero(a.kind, b.kind) && ReferenceEqualNonzero(a.reference, b.reference)
  }

  predicate ClusterCapabilityEqual(a: ClusterCapability, b: ClusterCapability) {
    EqualNonzero(a.name, b.name)
  }

  /** A token capability all of whose parts are set. */
  predicate FullCapability(c: TokenCapability) {
    c.kind != "" && c.reference.Some? && c.reference.value.id != ""
  }

  /** The token comparator is identity restricted to capabilities with every part set:
      a partially filled capability matches nothing, not even itself. */
  lemma TokenCapabilityEqualIsIdentityOnFull(a: TokenCapability, b: TokenCapability)
    ensures TokenCapabilityEqual(a, b) <==> a == b && FullCapability(a)
  {
    if TokenCapabilityEqual(a, b) {
      assert a.reference == Some(Reference(a.reference.value.id));
    }
  }

  /** The cluster comparator is identity restricted to named capabilities. */
  lemma ClusterCapabilityEqualIsIdentityOnNamed(a: ClusterCapability, b: ClusterCapability)
    ensures ClusterCapabilityEqual(a, b) <==> a == b && a.name != ""
    ensures ClusterCapabilityEqual(a, b) <==> a.name == b.name != ""
  {
  }

  predicate HasTokenCapability(caps: seq<TokenCapability>, c: TokenCapability) {
    exists i :: 0 <= i < |caps| && TokenCapabilityEqual(caps[i], c)
  }

  predicate HasClusterCapability(caps: seq<ClusterCapability>, c: ClusterCapability) {
    exists i :: 0 <= i < |caps| && ClusterCapabilityEqual(caps[i], c)
  }

  function WithTokenCapability(caps: seq<TokenCapability>, c: TokenCapability): seq<TokenCapability> {
    if HasTokenCapability(caps, c) then caps else caps + [c]
  }

  function WithClusterCapability(caps: seq<ClusterCapability>, c: ClusterCapability): seq<ClusterCapability> {
    if HasClusterCapability(caps, c) then caps else caps + [c]
  }

  ghost predicate NoDuplicates<T>(s: seq<T>) {
    forall i, j :: 0 <= i < j < |s| ==> s[i] != s[j]
  }
}
