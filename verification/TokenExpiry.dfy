/** Expiring bootstrap tokens in the two backends: pkg/storage/crds/token_store.go computes the
    remaining time from the creation time, pkg/storage/etcd/token_store.go attaches a lease. Both
    behave like one simple store of tokens with deadlines.

    Time is in whole seconds, as Unix time; it only moves forward. */
module TokenExpiry {
  import opened Core

  // ---------------------------------------------------------------- the simple store

  /** A token, forgetting lease id and remaining time, and the second at which it is gone. */
  datatype Dated = Dated(token: BootstrapToken, deadline: int)

  type Simple = map<string, Dated>

  datatype Op =
    | Create(token: BootstrapToken, ttl: int)
    | Remove(id: string)
    | Update(id: string, mutate: BootstrapToken -> BootstrapToken)
    | Collect(id: string)              // best-effort deletion of an expired token
    | Tick(seconds: nat)

  /** What the store's mutators do: they leave lease id and remaining time alone and do not look at them. */
  ghost predicate LeaseBlind(m: BootstrapToken -> BootstrapToken) {
    forall t: BootstrapToken, ttl: int, lease: int ::
      m(t.(ttl := ttl, leaseId := lease)) == m(t).(ttl := ttl, leaseId := lease)
  }

  function SimpleStep(s: Simple, now: int, op: Op): Simple {
    match op
    case Create(t, ttl) => if ttl > 0 then s[t.tokenId := Dated(EraseLease(t), now + ttl)] else s
    case Remove(id) => s - {id}
    case Update(id, m) => if id in s then s[id := s[id].(token := EraseLease(m(s[id].token)))] else s
    case Collect(_) => s
    case Tick(d) => map id | id in s && now + d < s[id].deadline :: s[id]
  }

  function After(now: int, op: Op): int { if op.Tick? then now + op.seconds else now }

  // ---------------------------------------------------------------- the CRD store

  datatype CrdToken = CrdToken(created: int, spec: BootstrapToken)

  type Crd = map<string, CrdToken>

  function Deadline(c: CrdToken): int { c.created + c.spec.ttl }

  function Max0(x: int): int { if x < 0 then 0 else x }

  class TokenObject {
    var created: int
    var spec: BootstrapToken

    constructor (c: CrdToken)
      ensures created == c.created && spec == c.spec
    {
      created, spec := c.created, c.spec;
    }

    /** Rewrites the time to live to what is left of it, never below zero. */
    method PatchTtl(now: int)
      modifies this
      ensures created == old(created)
      ensures spec == old(spec).(ttl := Max0(Deadline(CrdToken(old(created), old(spec))) - now))
    {
      var ttl := spec.ttl;
      var newTtl := ttl - (now - created);
      if newTtl < 0 {
        newTtl := 0;
      }
      spec := spec.(ttl := newTtl);
    }
  }

  class CrdStore {
    var items: Crd

    constructor ()
      ensures items == map[]
    {
      items := map[];
    }

    /** Refused if the name is taken, which random token ids make unlikely. */
    method CreateToken(t: BootstrapToken, ttl: int, now: int) returns (r: Option<BootstrapToken>)
      modifies this
      ensures r.None? <==> t.tokenId in old(items)
      ensures r.None? ==> items == old(items)
      ensures r.Some? ==> r.value == t.(leaseId := -1, ttl := ttl, usageCount := 0)
      ensures r.Some? ==> items == CrdStep(old(items), now, Create(t.(usageCount := 0), ttl))
    {
      var token := t.(leaseId := -1, ttl := ttl, usageCount := 0);
      if t.tokenId in items {
        return None;
      }
      items := items[t.tokenId := CrdToken(now, token)];
      return Some(token);
    }

    /** An expired token gives another error than a missing one. */
    method GetToken(id: string, now: int) returns (r: CrdLookup)
      ensures r == CrdMissing <==> id !in items
      ensures r == CrdExpired <==> id in items && Deadline(items[id]) <= now
      ensures forall t :: r == CrdFound(t) <==> CrdGet(items, id, now) == Some(t)
    {
      if id !in items {
        return CrdMissing;
      }
      var token := new TokenObject(items[id]);
      token.PatchTtl(now);
      if token.spec.ttl <= 0 {
        return CrdExpired;
      }
      return CrdFound(token.spec);
    }

    /** One entry per stored item, in any order; an expired item leaves a hole. `listing` are the names of
        the items as the backend lists them. */
    method ListTokens(now: int) returns (tokens: seq<Option<BootstrapToken>>, listing: seq<string>)
      ensures Enumerates(listing, items.Keys) && tokens == CrdList(items, listing, now)
    {
      var list := Enumerate(items.Keys);
      listing := list;
      tokens := seq(|list|, _ => None);
      for i := 0 to |list|
        invariant |tokens| == |list|
        invariant forall j :: 0 <= j < i ==> tokens[j] == CrdGet(items, list[j], now)
        invariant forall j :: i <= j < |list| ==> tokens[j].None?
      {
        var item := new TokenObject(items[list[i]]);
        item.PatchTtl(now);
        if item.spec.ttl <= 0 {
          continue;
        }
        tokens := tokens[i := Some(item.spec)];
      }
    }

    /** Applies the mutator to the stored object; the stored time to live is not patched, and expiry
        is not checked. `others` is what another client does to the object during each of the first
        attempts: a write makes the attempt conflict, a deletion ends the call. The mutator takes
        effect once, on the last of those writes, or not at all. */
    method UpdateToken(id: string, mutate: BootstrapToken -> BootstrapToken, others: seq<Option<CrdToken>>, budget: nat)
      returns (r: Option<BootstrapToken>)
      modifies this
      ensures r.Some? <==> id in old(items) && |others| < budget && FirstGone(others) == |others|
      ensures r.Some? ==>
                var s := Disturbed(old(items), id, others);
                r == CrdUpdated(s, id, mutate) && items == CrdStep(s, 0, Update(id, mutate))
      ensures r.Some? ==>
                && r.value == mutate(if others == [] then old(items)[id].spec else others[|others| - 1].value.spec)
                && id in items && items[id].spec == r.value && items - {id} == old(items) - {id}
      ensures r.None? && id in old(items) ==>
                items == if FirstGone(others) < |others| && FirstGone(others) < budget then old(items) - {id}
                         else Disturbed(old(items), id, others[..budget])
      ensures id !in old(items) ==> items == old(items)
    {
      for attempt := 0 to budget
        invariant attempt <= FirstGone(others) && (attempt > 0 ==> id in old(items))
        invariant items == Disturbed(old(items), id, others[..attempt])
      {
        if id !in items {
          return None;
        }
        var clone := items[id];
        clone := clone.(spec := mutate(clone.spec));
        if attempt == |others| {
          assert others[..attempt] == others;
          items := items[id := clone];
          return Some(clone.spec);
        }
        match others[attempt] {
          case None =>
            items := items - {id};
            return None;
          case Some(written) =>
            items := items[id := written];
        }
      }
      return None;
    }
  }

  datatype CrdLookup = CrdFound(token: BootstrapToken) | CrdMissing | CrdExpired

  /** The first deletion among what other clients do. */
  function FirstGone(others: seq<Option<CrdToken>>): (n: nat)
    ensures n <= |others| && (n < |others| ==> others[n].None?) && forall i :: 0 <= i < n ==> others[i].Some?
  {
    if others == [] || others[0].None? then 0 else 1 + FirstGone(others[1..])
  }

  /** The ids of a listing: each key once. */
  ghost predicate Enumerates(listing: seq<string>, keys: set<string>) {
    NoDuplicates(listing) && forall id :: id in listing <==> id in keys
  }

  /** The keys in whatever order the backend lists them. */
  method Enumerate(keys: set<string>) returns (listing: seq<string>)
    ensures Enumerates(listing, keys)
  {
    listing := [];
    var remaining := keys;
    while remaining != {}
      invariant remaining <= keys && Enumerates(listing, keys - remaining)
      decreases remaining
    {
      var id :| id in remaining;
      listing := listing + [id];
      remaining := remaining - {id};
    }
  }

  /** The store after other clients' writes to one object, the last of which stays. */
  function Disturbed(s: Crd, id: string, others: seq<Option<CrdToken>>): Crd {
    if others == [] || others[|others| - 1].None? then s else s[id := others[|others| - 1].value]
  }

  function CrdStep(s: Crd, now: int, op: Op): Crd {
    match op
    case Create(t, ttl) => s[t.tokenId := CrdToken(now, t.(leaseId := -1, ttl := ttl))]
    case Remove(id) => s - {id}
    case Update(id, m) => if id in s then s[id := s[id].(spec := m(s[id].spec))] else s
    case Collect(id) => if id in s && Deadline(s[id]) <= now then s - {id} else s
    case Tick(_) => s
  }

  /** What the store reports for a token: the time left, if any is left. */
  function CrdGet(s: Crd, id: string, now: int): Option<BootstrapToken> {
    if id in s && now < Deadline(s[id]) then Some(s[id].spec.(ttl := Deadline(s[id]) - now)) else None
  }

  ghost function CrdList(s: Crd, listing: seq<string>, now: int): (r: seq<Option<BootstrapToken>>)
    ensures |r| == |listing| && forall i :: 0 <= i < |r| ==> r[i] == CrdGet(s, listing[i], now)
  {
    seq(|listing|, i requires 0 <= i < |listing| => CrdGet(s, listing[i], now))
  }

  /** What an update returns. */
  function CrdUpdated(s: Crd, id: string, m: BootstrapToken -> BootstrapToken): Option<BootstrapToken> {
    if id in s then Some(m(s[id].spec)) else None
  }

  function CrdSimple(s: Crd, now: int): Simple {
    map id | id in s && now < Deadline(s[id]) :: Dated(EraseLease(s[id].spec), Deadline(s[id]))
  }

  // ---------------------------------------------------------------- the etcd store

  datatype Kv = Kv(value: BootstrapToken, lease: int)

  datatype Etcd = Etcd(kvs: map<string, Kv>, leases: map<int, int>, nextLease: int)

  class EtcdStore {
    var kvs: map<string, Kv>
    var leases: map<int, int>
    var nextLease: int

    ghost function Contents(): Etcd
      reads this
    {
      Etcd(kvs, leases, nextLease)
    }

    constructor ()
      ensures Contents() == Etcd(map[], map[], 1)
    {
      kvs, leases, nextLease := map[], map[], 1;
    }

    /** Grants a lease and attaches the token to it; a lease of no time is gone at once. */
    method CreateToken(t: BootstrapToken, ttl: int, now: int) returns (r: BootstrapToken)
      modifies this
      ensures Contents() == EtcdStep(old(Contents()), now, Create(t.(usageCount := 0), ttl))
      ensures r == t.(leaseId := old(nextLease), ttl := ttl, usageCount := 0)
    {
      var lease := nextLease;
      nextLease := nextLease + 1;
      var token := t.(leaseId := lease, ttl := 0, usageCount := 0);
      if ttl > 0 {
        leases := leases[lease := now + ttl];
        kvs := kvs[t.tokenId := Kv(token, lease)];
      }
      return token.(ttl := ttl);
    }

    /** Fills in the lease id and the time the lease has left. */
    method AddLeaseMetadata(token: BootstrapToken, lease: int, now: int) returns (r: BootstrapToken)
      requires lease in leases
      ensures r == token.(leaseId := lease, ttl := leases[lease] - now)
    {
      r := token.(leaseId := lease);
      r := r.(ttl := leases[lease] - now);
    }

    method GetToken(id: string, now: int) returns (r: Option<BootstrapToken>)
      requires Leased(Contents(), now)
      ensures r == EtcdGet(Contents(), id, now) && (r.None? <==> id !in kvs)
    {
      if id !in kvs {
        return None;
      }
      var token := AddLeaseMetadata(kvs[id].value, kvs[id].lease, now);
      return Some(token);
    }

    /** One entry per stored key, in any order; there are no holes. `listing` are the keys as listed. */
    method ListTokens(now: int) returns (tokens: seq<BootstrapToken>, listing: seq<string>)
      requires Leased(Contents(), now)
      ensures Enumerates(listing, kvs.Keys) && |tokens| == |listing|
      ensures forall i :: 0 <= i < |tokens| ==> EtcdGet(Contents(), listing[i], now) == Some(tokens[i])
    {
      var list := Enumerate(kvs.Keys);
      listing := list;
      tokens := [];
      for i := 0 to |list|
        invariant |tokens| == i
        invariant forall j :: 0 <= j < i ==> EtcdGet(Contents(), list[j], now) == Some(tokens[j])
      {
        assert list[i] in kvs.Keys;
        var token := AddLeaseMetadata(kvs[list[i]].value, kvs[list[i]].lease, now);
        tokens := tokens + [token];
      }
    }

    /** Deletes the key and revokes its lease. */
    method DeleteToken(id: string, now: int) returns (ok: bool)
      requires Leased(Contents(), now)
      modifies this
      ensures ok <==> id in old(kvs)
      ensures Contents() == EtcdStep(old(Contents()), now, Remove(id)) && Leased(Contents(), now)
    {
      var t := GetToken(id, now);
      if t.None? {
        return false;
      }
      EtcdRemove(Contents(), now, id);
      RevokedAlone(Contents(), now, id);
      kvs := kvs - {id};
      leases := leases - {t.value.leaseId};
      return true;
    }

    /** One attempt that nobody interferes with; the write keeps the lease. */
    method UpdateToken(id: string, mutate: BootstrapToken -> BootstrapToken, now: int)
      returns (r: Option<BootstrapToken>)
      requires Leased(Contents(), now)
      modifies this
      ensures r == EtcdUpdated(old(Contents()), id, mutate, now)
      ensures Contents() == EtcdStep(old(Contents()), now, Update(id, mutate))
    {
      var t := GetToken(id, now);
      if t.None? {
        return None;
      }
      var token := mutate(t.value);
      kvs := kvs[id := kvs[id].(value := token)];
      return Some(token);
    }
  }

  /** A read refreshes the lease id and the remaining time from the lease. */
  function EtcdRead(s: Etcd, id: string, now: int): BootstrapToken
    requires id in s.kvs && s.kvs[id].lease in s.leases
  {
    s.kvs[id].value.(leaseId := s.kvs[id].lease, ttl := s.leases[s.kvs[id].lease] - now)
  }

  /** Expired or revoked leases take the keys attached to them along; an update keeps the lease. */
  function EtcdStep(s: Etcd, now: int, op: Op): Etcd {
    match op
    case Create(t, ttl) =>
      if ttl > 0 then
        Etcd(s.kvs[t.tokenId := Kv(t.(leaseId := s.nextLease, ttl := 0), s.nextLease)],
             s.leases[s.nextLease := now + ttl], s.nextLease + 1)
      else s.(nextLease := s.nextLease + 1)
    case Remove(id) =>
      if id in s.kvs then
        s.(kvs := map k | k in s.kvs && s.kvs[k].lease != s.kvs[id].lease :: s.kvs[k],
           leases := s.leases - {s.kvs[id].lease})
      else s
    case Update(id, m) =>
      if id in s.kvs && s.kvs[id].lease in s.leases
      then s.(kvs := s.kvs[id := s.kvs[id].(value := m(EtcdRead(s, id, now)))]) else s
    case Collect(_) => s
    case Tick(d) =>
      s.(kvs := map k | k in s.kvs && s.kvs[k].lease in s.leases && now + d < s.leases[s.kvs[k].lease] :: s.kvs[k],
         leases := map l | l in s.leases && now + d < s.leases[l] :: s.leases[l])
  }

  function EtcdGet(s: Etcd, id: string, now: int): Option<BootstrapToken> {
    if id in s.kvs && s.kvs[id].lease in s.leases then Some(EtcdRead(s, id, now)) else None
  }

  function EtcdUpdated(s: Etcd, id: string, m: BootstrapToken -> BootstrapToken, now: int): Option<BootstrapToken> {
    if id in s.kvs && s.kvs[id].lease in s.leases then Some(m(EtcdRead(s, id, now))) else None
  }

  ghost function EtcdList(s: Etcd, listing: seq<string>, now: int): (r: seq<Option<BootstrapToken>>)
    ensures |r| == |listing| && forall i :: 0 <= i < |r| ==> r[i] == EtcdGet(s, listing[i], now)
  {
    seq(|listing|, i requires 0 <= i < |listing| => EtcdGet(s, listing[i], now))
  }

  function EtcdSimple(s: Etcd): Simple {
    map id | id in s.kvs && s.kvs[id].lease in s.leases :: Dated(EraseLease(s.kvs[id].value), s.leases[s.kvs[id].lease])
  }

  /** Every key has a live lease of its own. */
  ghost predicate Leased(s: Etcd, now: int) {
    && (forall id :: id in s.kvs ==> s.kvs[id].lease in s.leases)
    && (forall l :: l in s.leases ==> now < s.leases[l] && l < s.nextLease)
    && (forall a, b :: a in s.kvs && b in s.kvs && a != b ==> s.kvs[a].lease != s.kvs[b].lease)
  }

  // ---------------------------------------------------------------- refinement

  datatype World = World(now: int, crd: Crd, etcd: Etcd, simple: Simple)

  function Do(w: World, op: Op): World {
    World(After(w.now, op), CrdStep(w.crd, w.now, op), EtcdStep(w.etcd, w.now, op), SimpleStep(w.simple, w.now, op))
  }

  /** A new token has an id nobody used; mutators are blind to leases. */
  ghost predicate Allowed(w: World, op: Op) {
    && (op.Create? ==> op.token.tokenId !in w.crd && op.token.tokenId !in w.etcd.kvs)
    && (op.Update? ==> LeaseBlind(op.mutate))
  }

  ghost predicate Refines(w: World) {
    Leased(w.etcd, w.now) && CrdSimple(w.crd, w.now) == w.simple && EtcdSimple(w.etcd) == w.simple
  }

  lemma BlindErase(m: BootstrapToken -> BootstrapToken, t: BootstrapToken)
    requires LeaseBlind(m)
    ensures EraseLease(m(t)) == EraseLease(m(EraseLease(t))) && m(t).ttl == t.ttl && m(t).leaseId == t.leaseId
  {
    assert t == t.(ttl := t.ttl, leaseId := t.leaseId);
    assert EraseLease(t) == t.(ttl := 0, leaseId := 0);
  }

  /** One step of the CRD store is one step of the simple store. */
  lemma CrdCommutes(s: Crd, now: int, op: Op)
    requires op.Create? ==> op.token.tokenId !in s
    requires op.Update? ==> LeaseBlind(op.mutate)
    ensures CrdSimple(CrdStep(s, now, op), After(now, op)) == SimpleStep(CrdSimple(s, now), now, op)
  {
    match op
    case Create(t, ttl) => CrdCreate(s, now, t, ttl);
    case Update(id, m) => CrdUpdate(s, now, id, m);
    case Tick(d) => CrdTick(s, now, d);
    case _ => CrdDrop(s, now, op);
  }

  lemma CrdCreate(s: Crd, now: int, t: BootstrapToken, ttl: int)
    requires t.tokenId !in s
    ensures CrdSimple(CrdStep(s, now, Create(t, ttl)), now) == SimpleStep(CrdSimple(s, now), now, Create(t, ttl))
  {
    var l, r := CrdSimple(CrdStep(s, now, Create(t, ttl)), now), SimpleStep(CrdSimple(s, now), now, Create(t, ttl));
    assert l == r;
  }

  lemma CrdTick(s: Crd, now: int, d: nat)
    ensures CrdSimple(s, now + d) == SimpleStep(CrdSimple(s, now), now, Tick(d))
  {
    var l, r := CrdSimple(s, now + d), SimpleStep(CrdSimple(s, now), now, Tick(d));
    assert l == r;
  }

  lemma CrdDrop(s: Crd, now: int, op: Op)
    requires op.Remove? || op.Collect?
    ensures CrdSimple(CrdStep(s, now, op), now) == SimpleStep(CrdSimple(s, now), now, op)
  {
    var l, r := CrdSimple(CrdStep(s, now, op), now), SimpleStep(CrdSimple(s, now), now, op);
    assert l == r;
  }

  lemma CrdUpdate(s: Crd, now: int, id: string, m: BootstrapToken -> BootstrapToken)
    requires LeaseBlind(m)
    ensures CrdSimple(CrdStep(s, now, Update(id, m)), now) == SimpleStep(CrdSimple(s, now), now, Update(id, m))
  {
    var l, r := CrdSimple(CrdStep(s, now, Update(id, m)), now), SimpleStep(CrdSimple(s, now), now, Update(id, m));
    if id in s {
      BlindErase(m, s[id].spec);
    }
    assert l.Keys == r.Keys;
    assert l == r;
  }

  /** One step of the etcd store is one step of the simple store, and every key keeps its own lease. */
  lemma EtcdCommutes(s: Etcd, now: int, op: Op)
    requires Leased(s, now)
    requires op.Create? ==> op.token.tokenId !in s.kvs
    requires op.Update? ==> LeaseBlind(op.mutate)
    ensures Leased(EtcdStep(s, now, op), After(now, op))
    ensures EtcdSimple(EtcdStep(s, now, op)) == SimpleStep(EtcdSimple(s), now, op)
  {
    match op
    case Create(t, ttl) => EtcdCreate(s, now, t, ttl);
    case Remove(id) => EtcdRemove(s, now, id);
    case Update(id, m) => EtcdUpdate(s, now, id, m);
    case Collect(_) =>
    case Tick(d) => EtcdTick(s, now, d);
  }

  lemma EtcdCreate(s: Etcd, now: int, t: BootstrapToken, ttl: int)
    requires Leased(s, now) && t.tokenId !in s.kvs
    ensures Leased(EtcdStep(s, now, Create(t, ttl)), now)
    ensures EtcdSimple(EtcdStep(s, now, Create(t, ttl))) == SimpleStep(EtcdSimple(s), now, Create(t, ttl))
  {
    if ttl <= 0 {
      return;
    }
    var s' := EtcdStep(s, now, Create(t, ttl));
    forall id | id in s.kvs ensures s'.kvs[id] == s.kvs[id] && s.kvs[id].lease < s.nextLease {
      assert s.kvs[id].lease in s.leases;
    }
    assert Leased(s', now);
    EtcdCreateSimple(s, now, t, ttl);
  }

  lemma EtcdCreateSimple(s: Etcd, now: int, t: BootstrapToken, ttl: int)
    requires t.tokenId !in s.kvs && s.nextLease !in s.leases && ttl > 0
    requires forall id :: id in s.kvs ==> s.kvs[id].lease in s.leases
    ensures EtcdSimple(EtcdStep(s, now, Create(t, ttl))) == SimpleStep(EtcdSimple(s), now, Create(t, ttl))
  {
    var l, r := EtcdSimple(EtcdStep(s, now, Create(t, ttl))), SimpleStep(EtcdSimple(s), now, Create(t, ttl));
    forall id ensures (id in l <==> id in r) && (id in l ==> l[id] == r[id]) {
      EtcdCreateAt(s, now, t, ttl, id);
    }
    assert l.Keys == r.Keys;
  }

  lemma EtcdCreateAt(s: Etcd, now: int, t: BootstrapToken, ttl: int, id: string)
    requires t.tokenId !in s.kvs && s.nextLease !in s.leases && ttl > 0
    requires forall k :: k in s.kvs ==> s.kvs[k].lease in s.leases
    ensures var l, r := EtcdSimple(EtcdStep(s, now, Create(t, ttl))), SimpleStep(EtcdSimple(s), now, Create(t, ttl));
            (id in l <==> id in r) && (id in l ==> l[id] == r[id])
  {
    assert id in s.kvs ==> s.kvs[id].lease != s.nextLease;
  }

  lemma EtcdRemove(s: Etcd, now: int, id: string)
    requires Leased(s, now)
    ensures Leased(EtcdStep(s, now, Remove(id)), now)
    ensures EtcdSimple(EtcdStep(s, now, Remove(id))) == SimpleStep(EtcdSimple(s), now, Remove(id))
  {
    var s' := EtcdStep(s, now, Remove(id));
    var l, r := EtcdSimple(s'), SimpleStep(EtcdSimple(s), now, Remove(id));
    assert forall k :: k in s'.kvs <==> k in s.kvs && k != id;
    assert l.Keys == r.Keys;
    assert l == r;
  }

  /** Revoking a lease takes only the one key along that has it. */
  lemma RevokedAlone(s: Etcd, now: int, id: string)
    requires Leased(s, now) && id in s.kvs
    ensures EtcdStep(s, now, Remove(id)).kvs == s.kvs - {id}
  {
  }

  lemma EtcdTick(s: Etcd, now: int, d: nat)
    requires Leased(s, now)
    ensures Leased(EtcdStep(s, now, Tick(d)), now + d)
    ensures EtcdSimple(EtcdStep(s, now, Tick(d))) == SimpleStep(EtcdSimple(s), now, Tick(d))
  {
    EtcdTickSimple(s, now, d);
  }

  lemma EtcdTickSimple(s: Etcd, now: int, d: nat)
    ensures EtcdSimple(EtcdStep(s, now, Tick(d))) == SimpleStep(EtcdSimple(s), now, Tick(d))
  {
    var l, r := EtcdSimple(EtcdStep(s, now, Tick(d))), SimpleStep(EtcdSimple(s), now, Tick(d));
    forall id ensures (id in l <==> id in r) && (id in l ==> l[id] == r[id]) {
      EtcdTickAt(s, now, d, id);
    }
    assert l.Keys == r.Keys;
  }

  lemma EtcdTickAt(s: Etcd, now: int, d: nat, id: string)
    ensures var l, r := EtcdSimple(EtcdStep(s, now, Tick(d))), SimpleStep(EtcdSimple(s), now, Tick(d));
            (id in l <==> id in r) && (id in l ==> l[id] == r[id])
  {
    var s' := EtcdStep(s, now, Tick(d));
    if id in s'.kvs {
      assert s'.kvs[id] == s.kvs[id];
    }
  }

  lemma EtcdUpdate(s: Etcd, now: int, id: string, m: BootstrapToken -> BootstrapToken)
    requires Leased(s, now) && LeaseBlind(m)
    ensures Leased(EtcdStep(s, now, Update(id, m)), now)
    ensures EtcdSimple(EtcdStep(s, now, Update(id, m))) == SimpleStep(EtcdSimple(s), now, Update(id, m))
  {
    var l, r := EtcdSimple(EtcdStep(s, now, Update(id, m))), SimpleStep(EtcdSimple(s), now, Update(id, m));
    if id in s.kvs {
      BlindErase(m, s.kvs[id].value);
      BlindErase(m, EtcdRead(s, id, now));
      assert EraseLease(EtcdRead(s, id, now)) == EraseLease(s.kvs[id].value);
    }
    assert l.Keys == r.Keys;
    assert l == r;
  }

  function RunOps(w: World, ops: seq<Op>): World {
    if ops == [] then w else Do(RunOps(w, ops[..|ops| - 1]), ops[|ops| - 1])
  }

  ghost predicate AllAllowed(w: World, ops: seq<Op>) {
    forall i :: 0 <= i < |ops| ==> Allowed(RunOps(w, ops[..i]), ops[i])
  }

  lemma DoRefines(w: World, op: Op)
    requires Refines(w) && Allowed(w, op)
    ensures Refines(Do(w, op))
  {
    CrdCommutes(w.crd, w.now, op);
    EtcdCommutes(w.etcd, w.now, op);
  }

  lemma AllowedPrefix(w: World, ops: seq<Op>, n: nat)
    requires AllAllowed(w, ops) && n <= |ops|
    ensures AllAllowed(w, ops[..n])
  {
    assert forall i :: 0 <= i < n ==> ops[..n][..i] == ops[..i];
  }

  /** Both backends refine the simple store through every run. */
  lemma {:induction false} RunsRefine(w: World, ops: seq<Op>)
    requires Refines(w) && AllAllowed(w, ops)
    ensures Refines(RunOps(w, ops))
  {
    if ops != [] {
      var n := |ops| - 1;
      AllowedPrefix(w, ops, n);
      RunsRefine(w, ops[..n]);
      DoRefines(RunOps(w, ops[..n]), ops[n]);
    }
  }

  /** After every run both backends answer a lookup alike, up to the lease id: with the time left to
      the deadline if any is left, and with nothing otherwise. */
  lemma BackendsAgree(w: World, ops: seq<Op>, id: string)
    requires Refines(w) && AllAllowed(w, ops)
    ensures var w' := RunOps(w, ops);
            var a, b := CrdGet(w'.crd, id, w'.now), EtcdGet(w'.etcd, id, w'.now);
            && (a.Some? <==> id in w'.simple) && (b.Some? <==> id in w'.simple)
            && (a.Some? ==> && a.value.(leaseId := 0) == b.value.(leaseId := 0)
                            && a.value.ttl == w'.simple[id].deadline - w'.now > 0)
  {
    RunsRefine(w, ops);
    Reports(RunOps(w, ops), id);
  }

  // ---------------------------------------------------------------- lists

  /** The tokens the simple store would report now. */
  function View(simple: Simple, now: int): map<string, BootstrapToken> {
    map id | id in simple :: simple[id].token.(ttl := simple[id].deadline - now)
  }

  /** The present entries of a list, without their lease ids. */
  function Present(tokens: seq<Option<BootstrapToken>>): seq<BootstrapToken> {
    if tokens == [] then []
    else
      var n := |tokens| - 1;
      Present(tokens[..n]) + if tokens[n].Some? then [tokens[n].value.(leaseId := 0)] else []
  }

  /** What a map has for the ids of a list, in order. */
  function Collect(m: map<string, BootstrapToken>, ids: seq<string>): seq<BootstrapToken> {
    if ids == [] then []
    else
      var n := |ids| - 1;
      Collect(m, ids[..n]) + if ids[n] in m then [m[ids[n]]] else []
  }

  lemma {:induction false} CollectConcat(m: map<string, BootstrapToken>, a: seq<string>, b: seq<string>)
    ensures Collect(m, a + b) == Collect(m, a) + Collect(m, b)
  {
    if b == [] {
      assert a + b == a;
    } else {
      var n := |b| - 1;
      CollectConcat(m, a, b[..n]);
      assert (a + b)[..|a| + n] == a + b[..n];
    }
  }

  /** Taking one id out of a list takes its token out of what is collected. */
  lemma CollectWithout(m: map<string, BootstrapToken>, a: seq<string>, x: string, b: seq<string>)
    requires x in m
    ensures multiset(Collect(m, a + [x] + b)) == multiset(Collect(m, a + b)) + multiset([m[x]])
  {
    CollectConcat(m, a + [x], b);
    CollectConcat(m, a, [x]);
    CollectConcat(m, a, b);
    assert Collect(m, [x]) == [m[x]];
  }

  /** Two duplicate-free lists with the same ids of the map collect the same tokens. */
  lemma {:induction false} CollectSame(m: map<string, BootstrapToken>, xs: seq<string>, ys: seq<string>)
    requires NoDuplicates(xs) && NoDuplicates(ys)
    requires forall id :: id in m ==> (id in xs <==> id in ys)
    ensures multiset(Collect(m, xs)) == multiset(Collect(m, ys))
    decreases |xs|
  {
    if xs == [] {
      CollectNothing(m, ys);
    } else {
      var n := |xs| - 1;
      var init, x := xs[..n], xs[n];
      assert xs == init + [x];
      if x !in m {
        CollectSame(m, init, ys);
      } else {
        var p :| 0 <= p < |ys| && ys[p] == x;
        var a, b := ys[..p], ys[p + 1..];
        assert ys == a + [x] + b;
        RemovedAt(ys, p);
        CollectSame(m, init, a + b);
        CollectWithout(m, a, x, b);
      }
    }
  }

  lemma RemovedAt(ys: seq<string>, p: nat)
    requires NoDuplicates(ys) && p < |ys|
    ensures NoDuplicates(ys[..p] + ys[p + 1..])
    ensures forall id :: id in ys[..p] + ys[p + 1..] <==> id in ys && id != ys[p]
  {
    var rest := ys[..p] + ys[p + 1..];
    forall id ensures id in rest <==> id in ys && id != ys[p] {
      if id in ys && id != ys[p] {
        var i :| 0 <= i < |ys| && ys[i] == id;
        assert rest[if i < p then i else i - 1] == id;
      }
    }
  }

  lemma {:induction false} CollectNothing(m: map<string, BootstrapToken>, ids: seq<string>)
    requires forall id :: id in m ==> id !in ids
    ensures Collect(m, ids) == []
  {
    if ids != [] {
      CollectNothing(m, ids[..|ids| - 1]);
    }
  }

  /** A list that reports the view of each listed id collects the view. */
  lemma {:induction false} PresentIsCollect(m: map<string, BootstrapToken>, ids: seq<string>,
                                            tokens: seq<Option<BootstrapToken>>)
    requires |ids| == |tokens|
    requires forall i :: 0 <= i < |ids| ==> (tokens[i].Some? <==> ids[i] in m)
    requires forall i :: 0 <= i < |ids| && tokens[i].Some? ==> tokens[i].value.(leaseId := 0) == m[ids[i]]
    ensures Present(tokens) == Collect(m, ids)
  {
    if ids != [] {
      var n := |ids| - 1;
      PresentIsCollect(m, ids[..n], tokens[..n]);
    }
  }

  /** After every run, whatever order the backends list their keys in, the present entries of the two
      lists are the same tokens with the same time left, each as often, up to the lease id. */
  lemma ListsAgree(w: World, ops: seq<Op>, crdIds: seq<string>, etcdIds: seq<string>)
    requires Refines(w) && AllAllowed(w, ops)
    requires Enumerates(crdIds, RunOps(w, ops).crd.Keys) && Enumerates(etcdIds, RunOps(w, ops).etcd.kvs.Keys)
    ensures var w' := RunOps(w, ops);
            var crd := multiset(Present(CrdList(w'.crd, crdIds, w'.now)));
            && crd == multiset(Present(EtcdList(w'.etcd, etcdIds, w'.now)))
            && crd == multiset(Collect(View(w'.simple, w'.now), crdIds))
  {
    RunsRefine(w, ops);
    var w' := RunOps(w, ops);
    var m := View(w'.simple, w'.now);
    forall id ensures CrdGet(w'.crd, id, w'.now).Some? <==> id in m
              ensures EtcdGet(w'.etcd, id, w'.now).Some? <==> id in m
              ensures id in m ==> && CrdGet(w'.crd, id, w'.now).value.(leaseId := 0) == m[id]
                                  && EtcdGet(w'.etcd, id, w'.now).value.(leaseId := 0) == m[id]
    {
      Reports(w', id);
    }
    PresentIsCollect(m, crdIds, CrdList(w'.crd, crdIds, w'.now));
    PresentIsCollect(m, etcdIds, EtcdList(w'.etcd, etcdIds, w'.now));
    CollectSame(m, crdIds, etcdIds);
  }

  /** Both backends report what the simple store does. */
  lemma Reports(w: World, id: string)
    requires Refines(w)
    ensures var m := View(w.simple, w.now);
            && (CrdGet(w.crd, id, w.now).Some? <==> id in m) && (EtcdGet(w.etcd, id, w.now).Some? <==> id in m)
            && (id in m ==> && CrdGet(w.crd, id, w.now).value.(leaseId := 0) == m[id]
                            && EtcdGet(w.etcd, id, w.now).value.(leaseId := 0) == m[id]
                            && m[id].ttl == w.simple[id].deadline - w.now > 0)
            && (id in m ==> id in w.crd && id in w.etcd.kvs)
  {
    assert id in CrdSimple(w.crd, w.now) <==> id in w.simple;
    assert id in EtcdSimple(w.etcd) <==> id in w.simple;
    if id in w.simple {
      var x, y := w.crd[id].spec, w.etcd.kvs[id].value;
      assert EraseLease(x) == EraseLease(y) == w.simple[id].token;
      assert w.etcd.leases[w.etcd.kvs[id].lease] == Deadline(w.crd[id]) == w.simple[id].deadline;
      assert x.(ttl := 0, leaseId := 0) == w.simple[id].token;
    }
  }

  // ---------------------------------------------------------------- remaining time over runs

  function CrdRun(s: Crd, now: int, ops: seq<Op>): (Crd, int) {
    if ops == [] then (s, now)
    else
      var (s', now') := CrdRun(s, now, ops[..|ops| - 1]);
      (CrdStep(s', now', ops[|ops| - 1]), After(now', ops[|ops| - 1]))
  }

  ghost predicate BlindRun(ops: seq<Op>, id: string) {
    forall i :: 0 <= i < |ops| ==>
      (ops[i].Update? ==> LeaseBlind(ops[i].mutate)) && !(ops[i].Create? && ops[i].token.tokenId == id)
  }

  /** The seconds a run lets pass. */
  function Elapsed(ops: seq<Op>): nat {
    if ops == [] then 0
    else Elapsed(ops[..|ops| - 1]) + if ops[|ops| - 1].Tick? then ops[|ops| - 1].seconds else 0
  }

  /** Over any run, a stored token is gone or keeps its deadline, however often it is updated; and a
      token that is gone stays gone. */
  lemma {:induction false} DeadlineIsFixed(s: Crd, now: int, ops: seq<Op>, id: string)
    requires BlindRun(ops, id)
    ensures var (s', now') := CrdRun(s, now, ops);
            now' == now + Elapsed(ops) && (id in s' ==> id in s && Deadline(s'[id]) == Deadline(s[id]))
  {
    if ops != [] {
      var n := |ops| - 1;
      DeadlineIsFixed(s, now, ops[..n], id);
      var (s1, _) := CrdRun(s, now, ops[..n]);
      if ops[n].Update? && ops[n].id in s1 {
        BlindErase(ops[n].mutate, s1[ops[n].id].spec);
      }
    }
  }

  /** The reported time to live is the initial one minus the time that passed, for as long as the token
      is reported; it never grows, updates do not touch it, and an expired token never reappears. */
  lemma RemainingTime(s: Crd, now: int, ops: seq<Op>, id: string)
    requires BlindRun(ops, id)
    ensures var (s', now') := CrdRun(s, now, ops);
            var before, after := CrdGet(s, id, now), CrdGet(s', id, now');
            && (after.Some? ==> before.Some? && after.value.ttl == before.value.ttl - Elapsed(ops) > 0)
            && (id in s' ==> (after.Some? <==> before.Some? && before.value.ttl > Elapsed(ops)))
  {
    DeadlineIsFixed(s, now, ops, id);
  }

  function Granting(clusterId: string): BootstrapToken -> BootstrapToken {
    (t: BootstrapToken) => Used(t).(capabilities := WithTokenCapability(t.capabilities, JoinFor(clusterId)))
  }

  lemma IncrementIsBlind()
    ensures LeaseBlind(Used)
  {
  }

  lemma GrantingIsBlind(clusterId: string)
    ensures LeaseBlind(Granting(clusterId))
  {
    var m := Granting(clusterId);
    forall t: BootstrapToken, ttl: int, lease: int
      ensures m(t.(ttl := ttl, leaseId := lease)) == m(t).(ttl := ttl, leaseId := lease)
    {
      var u := t.(ttl := ttl, leaseId := lease);
      assert m(u) == Used(u).(capabilities := WithTokenCapability(t.capabilities, JoinFor(clusterId)));
    }
  }

  /** The mutators the gateway uses are of the blind kind. */
  lemma GatewayMutatorsAreBlind(clusterId: string)
    ensures LeaseBlind(Used) && LeaseBlind(Granting(clusterId))
  {
    IncrementIsBlind();
    GrantingIsBlind(clusterId);
  }

  /** Expired, and not yet collected by the CRD store. */
  predicate Lingers(w: World, id: string) { id in w.crd && Deadline(w.crd[id]) <= w.now }

  /** Both backends update a token, or neither finds it, exactly unless it lingers; and where both do,
      the tokens they return are equal but for the lease and the time to live, of which the CRD
      store returns the initial and the etcd store the remaining one. */
  lemma UpdatesAgreeIff(w: World, id: string, m: BootstrapToken -> BootstrapToken)
    requires Refines(w) && LeaseBlind(m)
    ensures var a, b := CrdUpdated(w.crd, id, m), EtcdUpdated(w.etcd, id, m, w.now);
            && ((a.Some? <==> b.Some?) <==> !Lingers(w, id))
            && (Lingers(w, id) ==> a.Some? && b.None?)
            && (a.Some? && b.Some? ==>
                  && EraseLease(a.value) == EraseLease(b.value)
                  && a.value.ttl == w.crd[id].spec.ttl && b.value.ttl == Deadline(w.crd[id]) - w.now)
  {
    Reports(w, id);
    assert id in w.etcd.kvs ==> id in EtcdSimple(w.etcd);
    if id in w.simple {
      var x, y := w.crd[id].spec, EtcdRead(w.etcd, id, w.now);
      assert EraseLease(y) == EraseLease(w.etcd.kvs[id].value);
      BlindErase(m, x);
      BlindErase(m, y);
      assert Dated(EraseLease(x), Deadline(w.crd[id])) == w.simple[id];
      assert EtcdSimple(w.etcd)[id] == w.simple[id];
    }
  }

  /** A lingering token that a lookup no longer reports is still counted as used by the CRD store. */
  lemma ExpiredUpdateDiffers(w: World, id: string)
    requires Refines(w) && Lingers(w, id)
    ensures CrdGet(w.crd, id, w.now).None? && id !in w.etcd.kvs
    ensures var s' := CrdStep(w.crd, w.now, Update(id, Used));
            id in s' && s'[id].spec.usageCount == w.crd[id].spec.usageCount + 1
  {
    assert id !in CrdSimple(w.crd, w.now);
    assert id !in EtcdSimple(w.etcd);
  }

  // ---------------------------------------------------------------- what the operations mean for lookups

  /** A token is reported from its creation on until its time is over, with the time left, as it was made. */
  lemma CreateThenGet(s: Crd, now: int, t: BootstrapToken, ttl: int, elapsed: nat, id: string)
    ensures var s' := CrdStep(CrdStep(s, now, Create(t, ttl)), now, Tick(elapsed));
            && CrdGet(s', t.tokenId, now + elapsed)
               == (if elapsed < ttl then Some(t.(leaseId := -1, ttl := ttl - elapsed)) else None)
            && (id != t.tokenId ==> CrdGet(s', id, now + elapsed) == CrdGet(s, id, now + elapsed))
  {
  }

  /** A removed token is not reported, and no other changes; collecting changes no report and
      leaves a token exactly if it is reported. */
  lemma RemoveThenGet(s: Crd, now: int, removed: string, id: string)
    ensures CrdGet(CrdStep(s, now, Remove(removed)), id, now) == if id == removed then None else CrdGet(s, id, now)
    ensures CrdGet(CrdStep(s, now, Op.Collect(removed)), id, now) == CrdGet(s, id, now)
    ensures removed in CrdStep(s, now, Op.Collect(removed)) <==> CrdGet(s, removed, now).Some?
  {
  }

  /** An updated token is reported as the mutator made it, with the same time left, and no other changes. */
  lemma UpdateThenGet(s: Crd, now: int, updated: string, m: BootstrapToken -> BootstrapToken, id: string)
    requires LeaseBlind(m)
    ensures var before, after := CrdGet(s, id, now), CrdGet(CrdStep(s, now, Update(updated, m)), id, now);
            after == if id == updated && before.Some? then Some(m(before.value)) else before
  {
    if updated in s {
      var spec := s[updated].spec;
      BlindErase(m, spec);
      var left := Deadline(s[updated]) - now;
      assert spec.(ttl := left) == spec.(ttl := left, leaseId := spec.leaseId);
      assert m(spec.(ttl := left, leaseId := spec.leaseId)) == m(spec).(ttl := left, leaseId := spec.leaseId);
    }
  }
}
