/** The lexicographic order of strings, and the sorted listing of a set of strings, which is unique. */
module Ordering {

  predicate Less(a: string, b: string) {
    b != "" && (a == "" || a[0] < b[0] || (a[0] == b[0] && Less(a[1..], b[1..])))
  }

  /** The strings agree up to `k`, where the first ends or has the smaller character. */
  predicate SmallerAt(a: string, b: string, k: int) {
    0 <= k <= |a| && k < |b| && a[..k] == b[..k] && (k == |a| || a[k] < b[k])
  }

  lemma {:induction false} SmallerIsLess(a: string, b: string, k: nat)
    requires SmallerAt(a, b, k)
    ensures Less(a, b)
  {
    if k > 0 {
      assert a[..k][0] == b[..k][0];
      assert a[1..][..k - 1] == a[..k][1..] && b[1..][..k - 1] == b[..k][1..];
      SmallerIsLess(a[1..], b[1..], k - 1);
    }
  }

  lemma {:induction false} LessIsSmaller(a: string, b: string) returns (k: nat)
    requires Less(a, b)
    ensures SmallerAt(a, b, k)
  {
    k := 0;
    if a != "" && a[0] == b[0] {
      var rest := LessIsSmaller(a[1..], b[1..]);
      k := rest + 1;
      assert a[..k] == [a[0]] + a[1..][..rest] && b[..k] == [b[0]] + b[1..][..rest];
    }
  }

  /** The order is the lexicographic one. */
  lemma {:induction false} LessIsLexicographic(a: string, b: string)
    ensures Less(a, b) <==> exists k :: SmallerAt(a, b, k)
  {
    hide Less, SmallerAt;
    if Less(a, b) {
      var k := LessIsSmaller(a, b);
    }
    if k :| SmallerAt(a, b, k) {
      assert k >= 0 by { PlaceIsNatural(a, b, k); }
      SmallerIsLess(a, b, k);
    }
  }

  lemma PlaceIsNatural(a: string, b: string, k: int)
    requires SmallerAt(a, b, k)
    ensures k >= 0
  {
  }

  predicate StrictlySorted(s: seq<string>) {
    forall i, j | 0 <= i < j < |s| :: Less(s[i], s[j])
  }

  lemma {:induction false} LessIrreflexive(a: string)
    ensures !Less(a, a)
  {
    if a != "" {
      LessIrreflexive(a[1..]);
    }
  }

  lemma {:induction false} LessTransitive(a: string, b: string, c: string)
    requires Less(a, b) && Less(b, c)
    ensures Less(a, c)
  {
    if a != "" && a[0] == b[0] == c[0] {
      LessTransitive(a[1..], b[1..], c[1..]);
    }
  }

  lemma {:induction false} LessTotal(a: string, b: string)
    ensures a == b || Less(a, b) || Less(b, a)
  {
    if a != "" && b != "" && a[0] == b[0] {
      LessTotal(a[1..], b[1..]);
      assert a == [a[0]] + a[1..] && b == [b[0]] + b[1..];
    }
  }

  /** The place of `x` in a sorted listing: everything before it is smaller, everything after larger. */
  function Insert(s: seq<string>, x: string): (r: seq<string>)
    requires StrictlySorted(s) && x !in s
    ensures StrictlySorted(r)
    ensures forall y :: y in r <==> y in s || y == x
  {
    if s == [] then [x]
    else if Less(x, s[0]) then
      assert forall j | 0 <= j < |s| :: Less(x, s[j]) by {
        forall j | 0 <= j < |s| ensures Less(x, s[j]) {
          if j > 0 { LessTransitive(x, s[0], s[j]); }
        }
      }
      [x] + s
    else
      var tail := Insert(s[1..], x);
      assert forall j | 0 <= j < |tail| :: Less(s[0], tail[j]) by {
        forall j | 0 <= j < |tail| ensures Less(s[0], tail[j]) {
          assert tail[j] in tail;
          if tail[j] == x { LessTotal(x, s[0]); }
        }
      }
      assert s == [s[0]] + s[1..];
      [s[0]] + tail
  }

  ghost function Sorted(s: set<string>): (r: seq<string>)
    ensures StrictlySorted(r)
    ensures forall y :: y in r <==> y in s
  {
    if s == {} then [] else var x :| x in s; Insert(Sorted(s - {x}), x)
  }

  lemma SameEmptiness(a: seq<string>, b: seq<string>)
    requires forall y :: y in a <==> y in b
    ensures a == [] <==> b == []
  {
    if b != [] {
      assert b[0] in b;
    }
    if a != [] {
      assert a[0] in a;
    }
  }

  /** A strictly sorted listing is determined by its members. */
  lemma {:induction false} SortedUnique(a: seq<string>, b: seq<string>)
    requires StrictlySorted(a) && StrictlySorted(b)
    requires forall y :: y in a <==> y in b
    ensures a == b
  {
    SameEmptiness(a, b);
    if a != [] {
      assert a[0] in b;
      var i :| 0 <= i < |b| && b[i] == a[0];
      assert b[0] in a;
      var j :| 0 <= j < |a| && a[j] == b[0];
      if i > 0 {
        if j > 0 {
          LessTransitive(a[0], b[0], a[0]);
        }
        LessIrreflexive(a[0]);
      }
      forall y ensures y in a[1..] <==> y in b[1..] {
        LessIrreflexive(a[0]);
        if y in a[1..] {
          assert y in a && y != a[0];
          assert y in b;
          var k :| 0 <= k < |b| && b[k] == y;
          assert b[k] == b[1..][k - 1];
        }
        if y in b[1..] {
          assert y in b && y != b[0];
          assert y in a;
          var k :| 0 <= k < |a| && a[k] == y;
          assert a[k] == a[1..][k - 1];
        }
      }
      SortedUnique(a[1..], b[1..]);
      assert a == [a[0]] + a[1..] && b == [b[0]] + b[1..];
    }
  }

  /** Lists a set of strings in order, whatever order its members come in. */
  method SortStrings(s: set<string>) returns (r: seq<string>)
    ensures r == Sorted(s)
  {
    r := [];
    var todo := s;
    while todo != {}
      invariant todo <= s
      invariant StrictlySorted(r)
      invariant forall y :: y in r <==> y in s - todo
      decreases |todo|
    {
      var x :| x in todo;
      r := Insert(r, x);
      todo := todo - {x};
    }
    SortedUnique(r, Sorted(s));
  }
}
