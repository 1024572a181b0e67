/** The byte-wise order of strings, and lists of ids strictly sorted by it. */
module SortedIds {

  predicate Less(a: string, b: string) {
    if b == "" then false
    else if a == "" then true
    else if a[0] != b[0] then a[0] < b[0]
    else Less(a[1..], b[1..])
  }

  /** The order is strict and total. */
  lemma {:induction false} LessTotal(a: string, b: string)
    ensures a == b || Less(a, b) || Less(b, a)
    ensures !(Less(a, b) && Less(b, a)) && (a == b ==> !Less(a, b))
  {
    if a != "" && b != "" && a[0] == b[0] {
      LessTotal(a[1..], b[1..]);
      if a[1..] == b[1..] {
        assert a == [a[0]] + a[1..];
        assert b == [b[0]] + b[1..];
      }
    }
  }

  lemma {:induction false} LessTransitive(a: string, b: string, c: string)
    requires Less(a, b) && Less(b, c)
    ensures Less(a, c)
    decreases |a|
  {
    if a != "" && a[0] == b[0] && b[0] == c[0] {
      LessTransitive(a[1..], b[1..], c[1..]);
    }
  }

  ghost predicate StrictlySorted(s: seq<string>) {
    forall i, j :: 0 <= i < j < |s| ==> Less(s[i], s[j])
  }

  /** A set of ids has only one strictly sorted list. */
  lemma {:induction false} SortedUnique(a: seq<string>, b: seq<string>)
    requires StrictlySorted(a) && StrictlySorted(b) && forall x :: x in a <==> x in b
    ensures a == b
  {
    if a == [] {
      if b != [] {
        HasMember(b);
        assert false;
      }
    } else {
      assert a[0] in b;
      assert b[0] in a;
      var i :| 0 <= i < |b| && b[i] == a[0];
      var j :| 0 <= j < |a| && a[j] == b[0];
      LessTotal(a[0], b[0]);
      assert a[0] == b[0];
      forall x ensures x in a[1..] <==> x in b[1..] {
        SameTail(a, b, x);
        SameTail(b, a, x);
      }
      SortedUnique(a[1..], b[1..]);
      assert a == [a[0]] + a[1..];
      assert b == [b[0]] + b[1..];
    }
  }

  lemma HasMember(s: seq<string>)
    requires s != []
    ensures exists x :: x in s
  {
    assert s[0] in s;
  }

  lemma SameTail(a: seq<string>, b: seq<string>, x: string)
    requires a != [] && b != [] && a[0] == b[0] && StrictlySorted(a) && forall y :: y in a ==> y in b
    ensures x in a[1..] ==> x in b[1..]
  {
    if x in a[1..] {
      var i :| 0 <= i < |a[1..]| && a[1..][i] == x;
      assert a[i + 1] == x && x in a;
      assert Less(a[0], a[i + 1]);
      LessTotal(a[0], a[0]);
      var j :| 0 <= j < |b| && b[j] == x;
      assert j != 0;
      assert b[1..][j - 1] == x;
    }
  }

  /** Puts a new id at its place. */
  method Insert(sorted: seq<string>, x: string) returns (r: seq<string>)
    requires StrictlySorted(sorted) && x !in sorted
    ensures StrictlySorted(r) && forall y :: y in r <==> y in sorted || y == x
  {
    var k := 0;
    while k < |sorted| && Less(sorted[k], x)
      invariant 0 <= k <= |sorted| && forall i :: 0 <= i < k ==> Less(sorted[i], x)
    {
      k := k + 1;
    }
    r := sorted[..k] + [x] + sorted[k..];
    forall i | k <= i < |sorted| ensures Less(x, sorted[i]) {
      LessTotal(sorted[k], x);
      if i > k {
        LessTransitive(x, sorted[k], sorted[i]);
      }
    }
    forall i, j | 0 <= i < j < |r| ensures Less(r[i], r[j]) {
      if i < k < j {
        LessTransitive(r[i], x, r[j]);
      }
    }
    forall y ensures y in r <==> y in sorted || y == x {
      if y in sorted {
        var i :| 0 <= i < |sorted| && sorted[i] == y;
        assert r[if i < k then i else i + 1] == y;
      }
      assert r[k] == x;
    }
  }

  /** Lists a set, taken in any order, in sorted order. */
  method Sort(ids: set<string>) returns (r: seq<string>)
    ensures StrictlySorted(r) && forall x :: x in r <==> x in ids
  {
    r := [];
    var remaining := ids;
    while remaining != {}
      invariant remaining <= ids && StrictlySorted(r)
      invariant forall x :: x in r <==> x in ids && x !in remaining
      decreases remaining
    {
      var x :| x in remaining;
      r := Insert(r, x);
      remaining := remaining - {x};
    }
  }

  /** What the order is: at the first difference the smaller character comes first, and a proper prefix
      comes before what it begins. */
  lemma {:induction false} LessMeans(a: string, b: string)
    ensures Less(a, b) <==>
            exists k :: && 0 <= k <= |a| && k < |b| && a[..k] == b[..k]
                        && (k == |a| || (k < |a| && a[k] < b[k]))
  {
    if a != "" && b != "" && a[0] == b[0] {
      LessMeans(a[1..], b[1..]);
      if k :| 0 <= k <= |a[1..]| && k < |b[1..]| && a[1..][..k] == b[1..][..k]
              && (k == |a[1..]| || (k < |a[1..]| && a[1..][k] < b[1..][k]))
      {
        assert a[..k + 1] == [a[0]] + a[1..][..k] && b[..k + 1] == [b[0]] + b[1..][..k];
      }
      if k :| 0 <= k <= |a| && k < |b| && a[..k] == b[..k] && (k == |a| || (k < |a| && a[k] < b[k])) {
        assert k > 0;
        assert a[1..][..k - 1] == a[..k][1..] && b[1..][..k - 1] == b[..k][1..];
      }
    } else if b != "" && (a == "" || a[0] < b[0]) {
      assert a[..0] == b[..0];
    }
  }
}
