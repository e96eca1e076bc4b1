/**
  The profile directory as both the resolver and the build cascade read it, and
  reachability over the parent edges, the one relation both walks are stated in.
*/
module ProfileTree {

  type Name = string
  type Path = string

  const BASE_PROFILE: Name := "base"

  // What a profile directory contributes: the names in its `parent` file, the
  // entries of `extra-packages.list` and the files below `overlay/`.
  datatype Profile = Profile(declared: seq<Name>, packages: seq<string>, overlay: map<Path, string>)

  type Tree = map<Name, Profile>

  // The parents of `n`, the implicit `base` first. A name without a directory has
  // no `parent` file but still inherits from `base`.
  function Parents(t: Tree, n: Name): seq<Name> {
    var declared := if n in t then t[n].declared else [];
    if n != BASE_PROFILE && BASE_PROFILE !in declared && BASE_PROFILE in t then
      [BASE_PROFILE] + declared
    else
      declared
  }

  // The profile inherits from `base` without saying so.
  ghost predicate BaseIsImplicit(t: Tree, n: Name) {
    n != "base" && "base" in t && !(n in t && "base" in t[n].declared)
  }

  // A parent is a name its profile declares, or the implicit `base`.
  lemma ParentIff(t: Tree, n: Name, q: Name)
    ensures q in Parents(t, n) <==> (n in t && q in t[n].declared) || (q == "base" && BaseIsImplicit(t, n))
  {
  }

  // `base` comes before what is declared, which keeps its order.
  lemma ParentsInOrder(t: Tree, n: Name)
    ensures n in t ==> |Parents(t, n)| == |t[n].declared| + if BaseIsImplicit(t, n) then 1 else 0
    ensures n in t ==> Parents(t, n)[|Parents(t, n)| - |t[n].declared|..] == t[n].declared
    ensures BaseIsImplicit(t, n) ==> Parents(t, n) != [] && Parents(t, n)[0] == "base"
  {
  }

  // Parent edges one after another. Only existing profiles have outgoing edges:
  // neither walk ever follows the parents of a missing directory.
  ghost predicate Walk(t: Tree, w: seq<Name>, a: Name, b: Name) {
    && |w| > 0 && w[0] == a && w[|w| - 1] == b
    && forall i :: 0 <= i < |w| - 1 ==> w[i] in t && w[i + 1] in Parents(t, w[i])
  }

  ghost predicate Reaches(t: Tree, a: Name, b: Name) {
    exists w :: Walk(t, w, a, b)
  }

  // Some parent of `n` inherits from `n` again.
  ghost predicate OnCycle(t: Tree, n: Name) {
    exists q :: q in Parents(t, n) && Reaches(t, q, n)
  }

  // Everything `n` inherits from exists and none of it lies on a cycle.
  ghost predicate Resolvable(t: Tree, n: Name) {
    forall m :: Reaches(t, n, m) ==> m in t && !OnCycle(t, m)
  }

  // `n` together with all existing profiles above it.
  ghost function Ancestry(t: Tree, n: Name): set<Name> {
    set m | m in t && Reaches(t, n, m)
  }

  lemma ReachesSelf(t: Tree, n: Name)
    ensures Reaches(t, n, n)
  {
    assert Walk(t, [n], n, n);
  }

  lemma WalkTail(t: Tree, w: seq<Name>, a: Name, b: Name)
    requires Walk(t, w, a, b) && |w| > 1
    ensures a in t && w[1] in Parents(t, a) && Walk(t, w[1..], w[1], b)
  {
  }

  lemma ReachesParent(t: Tree, n: Name, q: Name, m: Name)
    requires n in t && q in Parents(t, n) && Reaches(t, q, m)
    ensures Reaches(t, n, m)
  {
    var w :| Walk(t, w, q, m);
    assert Walk(t, [n] + w, n, m);
  }

  // A walk between different names starts with a parent edge.
  lemma ReachesFirstEdge(t: Tree, n: Name, m: Name) returns (q: Name)
    requires Reaches(t, n, m) && n != m
    ensures n in t && q in Parents(t, n) && Reaches(t, q, m)
  {
    var w :| Walk(t, w, n, m);
    q := w[1];
    WalkTail(t, w, n, m);
  }

  lemma {:induction false} WalkThenReach(t: Tree, w: seq<Name>, a: Name, b: Name, c: Name)
    requires Walk(t, w, a, b) && Reaches(t, b, c)
    ensures Reaches(t, a, c)
    decreases |w|
  {
    if |w| > 1 {
      WalkTail(t, w, a, b);
      WalkThenReach(t, w[1..], w[1], b, c);
      ReachesParent(t, a, w[1], c);
    }
  }

  lemma ReachesTransitive(t: Tree, a: Name, b: Name, c: Name)
    requires Reaches(t, a, b) && Reaches(t, b, c)
    ensures Reaches(t, a, c)
  {
    var w :| Walk(t, w, a, b);
    WalkThenReach(t, w, a, b, c);
  }

  lemma ResolvableReached(t: Tree, n: Name, m: Name)
    requires Resolvable(t, n) && Reaches(t, n, m)
    ensures Resolvable(t, m) && m in t && Ancestry(t, m) <= Ancestry(t, n)
  {
    forall x | Reaches(t, m, x)
      ensures Reaches(t, n, x)
    {
      ReachesTransitive(t, n, m, x);
    }
  }

  lemma ResolvableParent(t: Tree, n: Name, q: Name)
    requires Resolvable(t, n) && q in Parents(t, n)
    ensures n in t && !OnCycle(t, n) && Resolvable(t, q)
    ensures n in Ancestry(t, n) && n !in Ancestry(t, q)
    ensures Ancestry(t, q) < Ancestry(t, n)
  {
    ReachesSelf(t, n);
    ReachesSelf(t, q);
    ReachesParent(t, n, q, q);
    ResolvableReached(t, n, q);
  }

  // Resolvability and ancestry, one level down.
  lemma AncestryUnfold(t: Tree, n: Name)
    requires n in t
    ensures forall m :: m in Ancestry(t, n) <==> m == n || exists q :: q in Parents(t, n) && m in Ancestry(t, q)
  {
    ReachesSelf(t, n);
    forall m | m in Ancestry(t, n) && m != n
      ensures exists q :: q in Parents(t, n) && m in Ancestry(t, q)
    {
      var q := ReachesFirstEdge(t, n, m);
      assert m in Ancestry(t, q);
    }
    forall m, q | q in Parents(t, n) && m in Ancestry(t, q)
      ensures m in Ancestry(t, n)
    {
      ReachesParent(t, n, q, m);
    }
  }

  lemma ResolvableUnfold(t: Tree, n: Name)
    requires n in t && !OnCycle(t, n)
    requires forall q :: q in Parents(t, n) ==> Resolvable(t, q)
    ensures Resolvable(t, n)
  {
    forall m | Reaches(t, n, m)
      ensures m in t && !OnCycle(t, m)
    {
      if m != n {
        var q := ReachesFirstEdge(t, n, m);
      }
    }
  }

  // ---- What the edges lead to ------------------------------------------------

  lemma DeclaredIsReached(t: Tree, n: Name, q: Name)
    requires n in t && q in t[n].declared
    ensures Reaches(t, n, q)
  {
    ParentIff(t, n, q);
    ReachesSelf(t, q);
    ReachesParent(t, n, q, q);
  }

  // Every profile inherits from `base`, whether it says so or not.
  lemma BaseIsReached(t: Tree, n: Name)
    requires "base" in t && n in t
    ensures Reaches(t, n, "base")
  {
    ReachesSelf(t, n);
    if n != "base" {
      ParentIff(t, n, "base");
      ReachesSelf(t, "base");
      ReachesParent(t, n, "base", "base");
    }
  }

  // Nothing else is inherited from: a set that holds what its profiles declare, and
  // `base`, is never left.
  lemma {:induction false} NothingElseReached(t: Tree, names: set<Name>, w: seq<Name>, n: Name, m: Name)
    requires Walk(t, w, n, m) && n in names && ("base" in t ==> "base" in names)
    requires forall p, q :: p in names && p in t && q in t[p].declared ==> q in names
    ensures m in names
    decreases |w|
  {
    if |w| == 1 {
    } else {
      WalkTail(t, w, n, m);
      ParentIff(t, n, w[1]);
      NothingElseReached(t, names, w[1..], w[1], m);
    }
  }
}
