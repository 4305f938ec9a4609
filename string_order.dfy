/** The order of `std::string` comparison: lexicographic on characters,
    each compared by its unsigned code, a proper prefix first. It orders the
    keys of the tables and the results of glob expansion. */
module StringOrder {

  predicate Less(a: string, b: string) {
    if a == [] then b != []
    else if b == [] then false
    else if a[0] == b[0] then Less(a[1..], b[1..])
    else a[0] < b[0]
  }

  lemma LessIrreflexive(a: string)
    ensures !Less(a, a)
  {
  }

  lemma {:induction false} LessTransitive(a: string, b: string, c: string)
    requires Less(a, b) && Less(b, c)
    ensures Less(a, c)
  {
    if a != [] && b != [] && c != [] && a[0] == b[0] && b[0] == c[0] {
      LessTransitive(a[1..], b[1..], c[1..]);
    }
  }

  lemma {:induction false} LessTotal(a: string, b: string)
    ensures a == b || Less(a, b) || Less(b, a)
  {
    if a != [] && b != [] && a[0] == b[0] {
      LessTotal(a[1..], b[1..]);
      if a[1..] == b[1..] {
        assert a == [a[0]] + a[1..] && b == [b[0]] + b[1..];
      }
    }
  }

  lemma {:induction false} LessAsymmetric(a: string, b: string)
    requires Less(a, b)
    ensures !Less(b, a)
  {
    if a != [] && b != [] && a[0] == b[0] {
      LessAsymmetric(a[1..], b[1..]);
    }
  }

  /** Strictly increasing: sorted and free of duplicates. */
  predicate StrictlySorted(s: seq<string>) {
    forall i, j :: 0 <= i < j < |s| ==> Less(s[i], s[j])
  }

  /** The head of a strictly sorted list is below every other element. */
  lemma HeadBelow(a: seq<string>, y: string)
    ensures StrictlySorted(a) && y in a ==> y == a[0] || Less(a[0], y)
  {
    if StrictlySorted(a) && y in a {
      var k :| 0 <= k < |a| && a[k] == y;
      if k > 0 {
        assert Less(a[0], a[k]);
      }
    }
  }

  lemma TailMembers(a: seq<string>, y: string)
    requires StrictlySorted(a) && a != []
    ensures y in a[1..] <==> y in a && y != a[0]
  {
    if y in a[1..] {
      var k :| 0 <= k < |a[1..]| && a[1..][k] == y;
      assert a[k + 1] == y && Less(a[0], a[k + 1]);
      LessIrreflexive(y);
    }
    if y in a && y != a[0] {
      var k :| 0 <= k < |a| && a[k] == y;
      assert a[1..][k - 1] == y;
    }
  }

  lemma LessAsymmetricAll(a: string, b: string)
    ensures Less(a, b) ==> !Less(b, a)
  {
    if Less(a, b) {
      LessAsymmetric(a, b);
    }
  }

  /** Two duplicate-free sorted lists with the same elements are equal: the
      result of sorting and removing duplicates depends only on the set of
      elements. */
  lemma {:induction false} SortedUnique(a: seq<string>, b: seq<string>)
    requires StrictlySorted(a) && StrictlySorted(b)
    requires forall y :: y in a <==> y in b
    ensures a == b
    decreases |a|
  {
    if a != [] && b != [] {
      HeadBelow(a, b[0]);
      HeadBelow(b, a[0]);
      LessAsymmetricAll(a[0], b[0]);
      assert a[0] == b[0];
      forall y
        ensures y in a[1..] <==> y in b[1..]
      {
        TailMembers(a, y);
        TailMembers(b, y);
      }
      SortedUnique(a[1..], b[1..]);
      assert a == [a[0]] + a[1..] && b == [b[0]] + b[1..];
    } else {
      SameElementsEmpty(a, b);
    }
  }

  lemma SameElementsEmpty(a: seq<string>, b: seq<string>)
    requires forall y :: y in a <==> y in b
    ensures a == [] <==> b == []
  {
    if a != [] {
      assert a[0] in b;
    }
    if b != [] {
      assert b[0] in a;
    }
  }

  /** Where x goes in a strictly sorted list: the first position whose element
      is not below x. */
  method InsertionPoint(acc: seq<string>, x: string) returns (p: nat)
    requires StrictlySorted(acc)
    ensures p <= |acc|
    ensures forall k :: 0 <= k < p ==> Less(acc[k], x)
    ensures p < |acc| ==> !Less(acc[p], x)
  {
    p := 0;
    while p < |acc| && Less(acc[p], x)
      invariant p <= |acc|
      invariant forall k :: 0 <= k < p ==> Less(acc[k], x)
    {
      p := p + 1;
    }
  }

  /** Adds x to a strictly sorted list unless it is already there. */
  method InsertUnique(acc: seq<string>, x: string) returns (r: seq<string>)
    requires StrictlySorted(acc)
    ensures StrictlySorted(r)
    ensures forall y :: y in r <==> y in acc || y == x
  {
    var p := InsertionPoint(acc, x);
    if p < |acc| && acc[p] == x {
      return acc;
    }
    r := acc[..p] + [x] + acc[p..];
    forall i, j | 0 <= i < j < |r|
      ensures Less(r[i], r[j])
    {
      if j < p {
        assert r[i] == acc[i] && r[j] == acc[j];
      } else if j == p {
        assert r[j] == x && r[i] == acc[i];
      } else if i == p {
        assert r[i] == x && r[j] == acc[j - 1];
        if j - 1 > p {
          assert Less(acc[p], acc[j - 1]);
        }
        LessTotal(acc[p], x);
        if Less(x, acc[p]) && j - 1 > p {
          LessTransitive(x, acc[p], acc[j - 1]);
        }
      } else if i < p {
        assert r[i] == acc[i] && r[j] == acc[j - 1];
      } else {
        assert r[i] == acc[i - 1] && r[j] == acc[j - 1];
      }
    }
    assert acc == acc[..p] + acc[p..];
  }

  /** `std::sort` followed by `std::unique`: the elements of xs in increasing
      order, each once. */
  method SortUnique(xs: seq<string>) returns (r: seq<string>)
    ensures StrictlySorted(r)
    ensures forall y :: y in r <==> y in xs
  {
    r := [];
    var i := 0;
    while i < |xs|
      invariant 0 <= i <= |xs|
      invariant StrictlySorted(r)
      invariant forall y :: y in r <==> y in xs[..i]
    {
      assert xs[..i + 1] == xs[..i] + [xs[i]];
      r := InsertUnique(r, xs[i]);
      i := i + 1;
    }
    assert xs[..i] == xs;
  }
}
