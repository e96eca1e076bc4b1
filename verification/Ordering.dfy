/** The order Python's `sorted` and SQL's `ORDER BY` put names and MAC addresses in. */
module Ordering {
  import opened Sequences

  predicate LexLe(a: string, b: string) {
    a == [] || (b != [] && (a[0] < b[0] || (a[0] == b[0] && LexLe(a[1..], b[1..]))))
  }

  lemma LexTotal(a: string, b: string)
    ensures LexLe(a, b) || LexLe(b, a)
  {
  }

  lemma LexAntisymmetric(a: string, b: string)
    requires LexLe(a, b) && LexLe(b, a)
    ensures a == b
  {
  }

  lemma LexTransitive(a: string, b: string, c: string)
    requires LexLe(a, b) && LexLe(b, c)
    ensures LexLe(a, c)
  {
  }

  // The shorter of a text and its beginning comes first; else the first difference decides.
  lemma {:induction false} LexLeIff(a: string, b: string)
    ensures LexLe(a, b) <==> a <= b || exists k: nat :: FirstSmaller(a, b, k)
  {
    if a == [] {
    } else if b == [] {
    } else if a[0] == b[0] {
      LexLeIff(a[1..], b[1..]);
      assert a == [a[0]] + a[1..] && b == [b[0]] + b[1..];
      if k: nat :| FirstSmaller(a[1..], b[1..], k) {
        assert a[..k + 1] == [a[0]] + a[1..][..k] && b[..k + 1] == [b[0]] + b[1..][..k];
        assert FirstSmaller(a, b, k + 1);
      }
      if k: nat :| FirstSmaller(a, b, k) {
        assert k > 0 && a[1..][..k - 1] == a[..k][1..] && b[1..][..k - 1] == b[..k][1..];
        assert FirstSmaller(a[1..], b[1..], k - 1);
      }
      assert a <= b <==> a[1..] <= b[1..];
    } else {
      if a[0] < b[0] {
        assert FirstSmaller(a, b, 0);
      }
      if k: nat :| FirstSmaller(a, b, k) {
        if k > 0 {
          assert a[..k][0] == b[..k][0];
        }
      }
    }
  }

  ghost predicate FirstSmaller(a: string, b: string, k: nat) {
    k < |a| && k < |b| && a[..k] == b[..k] && a[k] < b[k]
  }

  predicate IsLeast(m: string, s: set<string>) {
    m in s && forall x :: x in s ==> LexLe(m, x)
  }

  lemma {:induction false} LeastExists(s: set<string>) returns (m: string)
    requires s != {}
    ensures IsLeast(m, s)
  {
    var x :| x in s;
    LexTotal(x, x);
    if s == {x} {
      m := x;
    } else {
      var rest := LeastExists(s - {x});
      LexTotal(x, rest);
      m := if LexLe(x, rest) then x else rest;
      forall y | y in s
        ensures LexLe(m, y)
      {
        if y != x {
          LexTransitive(m, rest, y);
        }
      }
    }
  }

  // The first of `s` in lexicographic order.
  function Least(s: set<string>): (m: string)
    requires s != {}
    ensures IsLeast(m, s)
  {
    var _ := LeastWitness(s);
    assert forall x, y :: IsLeast(x, s) && IsLeast(y, s) ==> x == y by {
      forall x, y | IsLeast(x, s) && IsLeast(y, s)
        ensures x == y
      {
        LexAntisymmetric(x, y);
      }
    }
    var m :| m in s && IsLeast(m, s);
    m
  }

  ghost function LeastWitness(s: set<string>): (m: string)
    requires s != {}
    ensures IsLeast(m, s)
  {
    assert exists m :: IsLeast(m, s) by {
      var m := LeastExists(s);
    }
    var m :| IsLeast(m, s);
    m
  }

  // The members of `s` in lexicographic order, each once.
  function Sorted(s: set<string>): (r: seq<string>)
    ensures forall x :: x in r <==> x in s
    ensures |r| == |s|
  {
    if s == {} then []
    else
      var m := Least(s);
      [m] + Sorted(s - {m})
  }

  lemma {:induction false} SortedAscends(s: set<string>, i: nat, j: nat)
    requires i < j < |Sorted(s)|
    ensures Sorted(s)[i] != Sorted(s)[j] && LexLe(Sorted(s)[i], Sorted(s)[j])
  {
    var m := Least(s);
    var rest := Sorted(s - {m});
    if i == 0 {
      assert rest[j - 1] in rest;
    } else {
      SortedAscends(s - {m}, i - 1, j - 1);
    }
  }

  lemma SortedNoDuplicates(s: set<string>)
    ensures NoDuplicates(Sorted(s))
  {
  }

  lemma SortedWithin(s: set<string>)
    ensures forall i :: 0 <= i < |Sorted(s)| ==> Sorted(s)[i] in s
  {
  }

  ghost predicate InNameOrder(s: seq<string>) {
    forall i, j :: 0 <= i < j < |s| ==> LexLe(s[i], s[j])
  }

  lemma SortedInNameOrder(s: set<string>)
    ensures InNameOrder(Sorted(s))
  {
    forall i, j | 0 <= i < j < |Sorted(s)|
      ensures LexLe(Sorted(s)[i], Sorted(s)[j])
    {
      SortedAscends(s, i, j);
    }
  }
}
