/**
  Keep-first deduplication and filtering, the two list operations that both the
  ancestor walk and the package merge are built from.
*/
module Sequences {

  ghost predicate NoDuplicates<T>(s: seq<T>) {
    forall i, j :: 0 <= i < j < |s| ==> s[i] != s[j]
  }

  function Elements<T>(s: seq<T>): set<T> {
    set x | x in s
  }

  // The members of `s` that are not in `drop`, in order.
  function Without<T(==)>(s: seq<T>, drop: set<T>): seq<T> {
    if s == [] then []
    else
      var last := s[|s| - 1];
      Without(s[..|s| - 1], drop) + if last in drop then [] else [last]
  }

  // `s` with every repeated occurrence after the first removed.
  function KeepFirst<T(==)>(s: seq<T>): seq<T> {
    if s == [] then []
    else
      var front, last := s[..|s| - 1], s[|s| - 1];
      KeepFirst(front) + if last in front then [] else [last]
  }

  // `x` stands before `y`: some occurrence of `x` precedes every occurrence of `y`.
  ghost predicate Precedes<T>(s: seq<T>, x: T, y: T) {
    exists i :: 0 <= i < |s| && s[i] == x && y !in s[..i + 1]
  }

  lemma TakeSnoc<T>(s: seq<T>, i: nat)
    requires i < |s|
    ensures s[..i + 1] == s[..i] + [s[i]]
  {
  }

  lemma TakeAll<T>(s: seq<T>)
    ensures s[..|s|] == s
  {
  }

  lemma ElementsConcat<T>(a: seq<T>, b: seq<T>)
    ensures Elements(a + b) == Elements(a) + Elements(b)
  {
  }

  lemma ConcatAssociative<T>(a: seq<T>, b: seq<T>, c: seq<T>)
    ensures a + b + c == a + (b + c)
  {
  }

  lemma ConcatInside<T>(a: seq<T>, b: seq<T>, c: seq<T>, d: seq<T>, e: seq<T>)
    ensures a + (b + c) + d + e == a + (b + (c + d + e))
  {
  }

  lemma SetAssociative<T>(a: set<T>, b: set<T>, c: set<T>)
    ensures a + b + c == a + (b + c)
  {
  }

  lemma NothingConcat<T>(s: seq<T>)
    ensures [] + s == s && s + [] == s
  {
  }

  lemma ConcatIndex<T>(a: seq<T>, b: seq<T>, i: nat)
    requires |a| <= i < |a + b|
    ensures (a + b)[i] == b[i - |a|]
  {
  }

  lemma WithoutSnoc<T>(s: seq<T>, x: T, drop: set<T>)
    ensures x in drop ==> Without(s + [x], drop) == Without(s, drop)
    ensures x !in drop ==> Without(s + [x], drop) == Without(s, drop) + [x]
  {
  }

  lemma KeepFirstSnoc<T>(s: seq<T>, x: T)
    ensures x in s ==> KeepFirst(s + [x]) == KeepFirst(s)
    ensures x !in s ==> KeepFirst(s + [x]) == KeepFirst(s) + [x]
  {
  }

  lemma {:induction false} KeepFirstPrefix<T>(a: seq<T>, s: seq<T>)
    requires a <= s
    ensures KeepFirst(a) <= KeepFirst(s)
    decreases |s|
  {
    if a == s {
    } else {
      assert a <= s[..|s| - 1];
      KeepFirstPrefix(a, s[..|s| - 1]);
    }
  }

  lemma {:induction false} WithoutMembers<T>(s: seq<T>, drop: set<T>)
    ensures forall x :: x in Without(s, drop) <==> x in s && x !in drop
  {
    if s == [] {
    } else {
      WithoutMembers(s[..|s| - 1], drop);
      assert s == s[..|s| - 1] + [s[|s| - 1]];
    }
  }

  lemma {:induction false} WithoutConcat<T>(a: seq<T>, b: seq<T>, drop: set<T>)
    ensures Without(a + b, drop) == Without(a, drop) + Without(b, drop)
  {
    if b == [] {
      NothingConcat(a);
      NothingConcat(Without(a, drop));
    } else {
      var front, last := b[..|b| - 1], b[|b| - 1];
      WithoutConcat(a, front, drop);
      TakeSnoc(b, |b| - 1);
      TakeAll(b);
      WithoutConcatSnoc(a, front, last, drop);
    }
  }

  lemma WithoutConcatSnoc<T>(a: seq<T>, front: seq<T>, last: T, drop: set<T>)
    requires Without(a + front, drop) == Without(a, drop) + Without(front, drop)
    ensures Without(a + (front + [last]), drop) == Without(a, drop) + Without(front + [last], drop)
  {
    ConcatAssociative(a, front, [last]);
    WithoutSnoc(a + front, last, drop);
    WithoutSnoc(front, last, drop);
    if last !in drop {
      ConcatAssociative(Without(a, drop), Without(front, drop), [last]);
    }
  }

  lemma {:induction false} WithoutTwice<T>(s: seq<T>, d: set<T>, e: set<T>)
    ensures Without(Without(s, d), e) == Without(s, d + e)
  {
    if s == [] {
    } else {
      var front, last := s[..|s| - 1], s[|s| - 1];
      WithoutTwice(front, d, e);
      if last !in d {
        WithoutSnoc(Without(front, d), last, e);
      } else {
        assert Without(s, d) == Without(front, d);
      }
    }
  }

  lemma {:induction false} WithoutNothing<T>(s: seq<T>)
    ensures Without(s, {}) == s
  {
    if s == [] {
    } else {
      WithoutNothing(s[..|s| - 1]);
      assert s == s[..|s| - 1] + [s[|s| - 1]];
    }
  }

  lemma {:induction false} KeepFirstMembers<T>(s: seq<T>)
    ensures forall x :: x in KeepFirst(s) <==> x in s
  {
    if s == [] {
    } else {
      KeepFirstMembers(s[..|s| - 1]);
      assert s == s[..|s| - 1] + [s[|s| - 1]];
    }
  }

  lemma {:induction false} KeepFirstNoDuplicates<T>(s: seq<T>)
    ensures NoDuplicates(KeepFirst(s))
  {
    if s == [] {
    } else {
      KeepFirstNoDuplicates(s[..|s| - 1]);
      KeepFirstMembers(s[..|s| - 1]);
    }
  }

  lemma {:induction false} KeepFirstIdentity<T>(s: seq<T>)
    requires NoDuplicates(s)
    ensures KeepFirst(s) == s
  {
    if s == [] {
    } else {
      KeepFirstIdentity(s[..|s| - 1]);
      assert s == s[..|s| - 1] + [s[|s| - 1]];
    }
  }

  // Deduplicating a concatenation: the second half loses what the first half already has.
  lemma {:induction false} KeepFirstConcat<T>(a: seq<T>, b: seq<T>)
    ensures KeepFirst(a + b) == KeepFirst(a) + Without(KeepFirst(b), Elements(a))
  {
    if b == [] {
      NothingConcat(a);
      NothingConcat(KeepFirst(a));
    } else {
      var front, last := b[..|b| - 1], b[|b| - 1];
      KeepFirstConcat(a, front);
      TakeSnoc(b, |b| - 1);
      TakeAll(b);
      KeepFirstConcatSnoc(a, front, last);
    }
  }

  lemma KeepFirstConcatSnoc<T>(a: seq<T>, front: seq<T>, last: T)
    requires KeepFirst(a + front) == KeepFirst(a) + Without(KeepFirst(front), Elements(a))
    ensures KeepFirst(a + (front + [last])) == KeepFirst(a) + Without(KeepFirst(front + [last]), Elements(a))
  {
    ConcatAssociative(a, front, [last]);
    KeepFirstSnoc(a + front, last);
    KeepFirstSnoc(front, last);
    WithoutSnoc(KeepFirst(front), last, Elements(a));
    if last !in front && last !in a {
      ConcatAssociative(KeepFirst(a), Without(KeepFirst(front), Elements(a)), [last]);
    }
  }

  // Appending a duplicate-free sequence adds what neither `a` nor `seen` has.
  lemma KeepFirstAppend<T>(a: seq<T>, b: seq<T>, seen: set<T>)
    requires NoDuplicates(b)
    ensures Without(KeepFirst(a + b), seen) == Without(KeepFirst(a), seen) + Without(b, seen + Elements(a))
  {
    KeepFirstConcat(a, b);
    KeepFirstIdentity(b);
    WithoutConcat(KeepFirst(a), Without(b, Elements(a)), seen);
    WithoutTwice(b, Elements(a), seen);
    assert Elements(a) + seen == seen + Elements(a);
  }

  lemma WithoutEverything<T>(s: seq<T>, drop: set<T>)
    requires Elements(s) <= drop
    ensures Without(s, drop) == []
  {
  }

  lemma KeepFirstMember<T>(s: seq<T>, x: T)
    requires x in KeepFirst(s)
    ensures x in s
  {
  }

  // The survivors stand in the order of their first occurrences.
  lemma {:induction false} KeepFirstOrder<T>(s: seq<T>, i: nat, j: nat)
    requires i < j < |KeepFirst(s)|
    ensures Precedes(s, KeepFirst(s)[i], KeepFirst(s)[j])
  {
    var front, last := s[..|s| - 1], s[|s| - 1];
    var kept := KeepFirst(front);
    KeepFirstMembers(front);
    if j < |kept| {
      KeepFirstOrder(front, i, j);
      var k :| 0 <= k < |front| && front[k] == kept[i] && kept[j] !in front[..k + 1];
      assert s[..k + 1] == front[..k + 1];
    } else {
      KeepFirstMember(front, kept[i]);
      var k :| 0 <= k < |front| && front[k] == kept[i];
      assert s[..k + 1] == front[..k + 1];
      assert forall x :: x in front[..k + 1] ==> x in front;
    }
  }
}
