/**
  Linearising a profile's ancestors: the depth-first walk over three mutable
  collections, its compositional meaning, and what the staged image inherits.
*/
module ResolveProfile {
  import opened Sequences
  import opened ProfileTree

  datatype ResolutionError = CycleDetected(name: Name) | ProfileNotFound(name: Name)

  datatype Outcome = Pass | Fail(error: ResolutionError)

  datatype Resolution = Resolved(chain: seq<Name>) | Rejected(error: ResolutionError)

  // ---- The meaning of a chain ------------------------------------------------

  // A profile's chain: its parents' chains one after another, keeping the first
  // occurrence of each name, and then the profile itself.
  ghost function Chain(t: Tree, n: Name): seq<Name>
    requires Resolvable(t, n)
    decreases Ancestry(t, n), 1, 0
  {
    ParentsBelow(t, n);
    KeepFirst(ChainsOf(t, Parents(t, n), Ancestry(t, n))) + [n]
  }

  // The chains of `ps`, concatenated. `bound` only serves termination.
  ghost function ChainsOf(t: Tree, ps: seq<Name>, bound: set<Name>): seq<Name>
    requires AllBelow(t, ps, bound)
    decreases bound, 0, |ps|
  {
    if ps == [] then [] else ChainsOf(t, ps[..|ps| - 1], bound) + Chain(t, ps[|ps| - 1])
  }

  ghost predicate AllBelow(t: Tree, ps: seq<Name>, bound: set<Name>) {
    forall p :: p in ps ==> Resolvable(t, p) && Ancestry(t, p) < bound
  }

  lemma ParentsBelow(t: Tree, n: Name)
    requires Resolvable(t, n)
    ensures AllBelow(t, Parents(t, n), Ancestry(t, n))
  {
    forall p | p in Parents(t, n)
      ensures Resolvable(t, p) && Ancestry(t, p) < Ancestry(t, n)
    {
      ResolvableParent(t, n, p);
    }
  }

  lemma {:induction false} ChainsOfMember(t: Tree, ps: seq<Name>, bound: set<Name>, x: Name)
    requires AllBelow(t, ps, bound)
    ensures x in ChainsOf(t, ps, bound) <==> exists p :: p in ps && x in Ancestry(t, p)
    decreases bound, 0, |ps|
  {
    if ps == [] {
    } else {
      var front, last := ps[..|ps| - 1], ps[|ps| - 1];
      assert ps == front + [last];
      ChainsOfMember(t, front, bound, x);
      ChainMember(t, last, x);
    }
  }

  // A chain lists exactly the profile and everything it inherits from.
  lemma {:induction false} ChainMember(t: Tree, n: Name, x: Name)
    requires Resolvable(t, n)
    ensures x in Chain(t, n) <==> x in Ancestry(t, n)
    decreases Ancestry(t, n), 1, 0
  {
    ParentsBelow(t, n);
    ReachesSelf(t, n);
    var below := ChainsOf(t, Parents(t, n), Ancestry(t, n));
    ChainsOfMember(t, Parents(t, n), Ancestry(t, n), x);
    KeepFirstMembers(below);
    AncestryUnfold(t, n);
    assert x in KeepFirst(below) <==> x in below;
  }

  lemma ChainElements(t: Tree, n: Name)
    requires Resolvable(t, n)
    ensures Elements(Chain(t, n)) == Ancestry(t, n)
  {
    forall x
      ensures x in Elements(Chain(t, n)) <==> x in Ancestry(t, n)
    {
      ChainMember(t, n, x);
    }
  }

  lemma ChainNoDuplicates(t: Tree, n: Name)
    requires Resolvable(t, n)
    ensures NoDuplicates(Chain(t, n))
  {
    ParentsBelow(t, n);
    var below := ChainsOf(t, Parents(t, n), Ancestry(t, n));
    KeepFirstNoDuplicates(below);
    KeepFirstMembers(below);
    ChainsOfMember(t, Parents(t, n), Ancestry(t, n), n);
    forall p | p in Parents(t, n)
      ensures n !in Ancestry(t, p)
    {
      ResolvableParent(t, n, p);
    }
    assert n in KeepFirst(below) <==> n in below;
  }

  // Every profile stands after everything it inherits from.
  ghost predicate AncestorsFirst(t: Tree, s: seq<Name>) {
    forall i, q :: 0 <= i < |s| && q in Ancestry(t, s[i]) && q != s[i] ==> q in s[..i]
  }

  lemma AncestorsFirstConcat(t: Tree, a: seq<Name>, b: seq<Name>)
    requires AncestorsFirst(t, a) && AncestorsFirst(t, b)
    ensures AncestorsFirst(t, a + b)
  {
    var s := a + b;
    forall i, q | 0 <= i < |s| && q in Ancestry(t, s[i]) && q != s[i]
      ensures q in s[..i]
    {
      if i < |a| {
        assert s[..i] == a[..i];
      } else {
        assert s[..i] == a + b[..i - |a|];
        assert q in b[..i - |a|];
      }
    }
  }

  lemma {:induction false} AncestorsFirstKeepFirst(t: Tree, s: seq<Name>)
    requires AncestorsFirst(t, s)
    ensures AncestorsFirst(t, KeepFirst(s))
  {
    if s == [] {
    } else {
      var front, last := s[..|s| - 1], s[|s| - 1];
      assert forall i :: 0 <= i < |front| ==> front[..i] == s[..i];
      AncestorsFirstKeepFirst(t, front);
      KeepFirstMembers(front);
      var kept := KeepFirst(s);
      forall i, q | 0 <= i < |kept| && q in Ancestry(t, kept[i]) && q != kept[i]
        ensures q in kept[..i]
      {
        var rest := KeepFirst(front);
        if i < |rest| {
          assert kept[..i] == rest[..i];
        } else {
          assert kept[..i] == rest;
          assert q in front;
          assert q in KeepFirst(front);
        }
      }
    }
  }

  lemma {:induction false} ChainsOfAncestorsFirst(t: Tree, ps: seq<Name>, bound: set<Name>)
    requires AllBelow(t, ps, bound)
    ensures AncestorsFirst(t, ChainsOf(t, ps, bound))
    decreases bound, 0, |ps|
  {
    if ps == [] {
    } else {
      var front, last := ps[..|ps| - 1], ps[|ps| - 1];
      ChainsOfAncestorsFirst(t, front, bound);
      ChainAncestorsFirst(t, last);
      AncestorsFirstConcat(t, ChainsOf(t, front, bound), Chain(t, last));
    }
  }

  lemma {:induction false} ChainAncestorsFirst(t: Tree, n: Name)
    requires Resolvable(t, n)
    ensures AncestorsFirst(t, Chain(t, n))
    decreases Ancestry(t, n), 1, 0
  {
    ParentsBelow(t, n);
    var below := ChainsOf(t, Parents(t, n), Ancestry(t, n));
    ChainsOfAncestorsFirst(t, Parents(t, n), Ancestry(t, n));
    AncestorsFirstKeepFirst(t, below);
    var chain := Chain(t, n);
    forall i, q | 0 <= i < |chain| && q in Ancestry(t, chain[i]) && q != chain[i]
      ensures q in chain[..i]
    {
      if i < |chain| - 1 {
        assert chain[..i] == KeepFirst(below)[..i];
      } else {
        ChainMember(t, n, q);
        assert chain == chain[..i] + [n];
      }
    }
  }

  // What a resolved chain promises to the build: no repetition, exactly the target
  // and its ancestors, every profile after all it inherits from, the target last.
  lemma ChainIsLinearisation(t: Tree, n: Name)
    requires Resolvable(t, n)
    ensures NoDuplicates(Chain(t, n))
    ensures forall x :: x in Chain(t, n) <==> Reaches(t, n, x)
    ensures forall i, j | 0 <= i < |Chain(t, n)| && 0 <= j < |Chain(t, n)| ::
              Reaches(t, Chain(t, n)[i], Chain(t, n)[j]) ==> j <= i
    ensures |Chain(t, n)| > 0 && Chain(t, n)[|Chain(t, n)| - 1] == n
  {
    var chain := Chain(t, n);
    ChainNoDuplicates(t, n);
    ChainAncestorsFirst(t, n);
    forall x
      ensures x in chain <==> Reaches(t, n, x)
    {
      ChainMember(t, n, x);
    }
    forall i, j | 0 <= i < |chain| && 0 <= j < |chain| && Reaches(t, chain[i], chain[j])
      ensures j <= i
    {
      if j != i {
        assert chain[j] in chain && Reaches(t, n, chain[j]);
        assert chain[j] in Ancestry(t, chain[i]);
        var k :| 0 <= k < i && chain[k] == chain[j];
      }
    }
  }

  lemma {:induction false} ChainsOfPrefix(t: Tree, ps: seq<Name>, bound: set<Name>, k: nat)
    requires AllBelow(t, ps, bound) && k <= |ps|
    ensures AllBelow(t, ps[..k], bound) && ChainsOf(t, ps[..k], bound) <= ChainsOf(t, ps, bound)
    decreases |ps|
  {
    if k == |ps| {
      TakeAll(ps);
    } else {
      var front := ps[..|ps| - 1];
      assert front[..k] == ps[..k];
      ChainsOfPrefix(t, front, bound, k);
    }
  }

  lemma LeadsToMember(t: Tree, ps: seq<Name>, bound: set<Name>, x: Name)
    requires AllBelow(t, ps, bound)
    ensures x in ChainsOf(t, ps, bound) <==> exists p :: p in ps && Reaches(t, p, x)
  {
    ChainsOfMember(t, ps, bound, x);
    forall p | p in ps
      ensures Reaches(t, p, x) <==> x in Ancestry(t, p)
    {
    }
  }

  // A name the parents up to the `k`-th lead to comes before one they do not lead to.
  lemma EarlierParentFirst(t: Tree, n: Name, k: nat, x: Name, y: Name)
    requires Resolvable(t, n) && k <= |Parents(t, n)| && y != n
    requires exists p :: p in Parents(t, n)[..k] && Reaches(t, p, x)
    requires forall p :: p in Parents(t, n)[..k] ==> !Reaches(t, p, y)
    ensures Precedes(Chain(t, n), x, y)
  {
    ParentsBelow(t, n);
    var ps, bound := Parents(t, n), Ancestry(t, n);
    ChainsOfPrefix(t, ps, bound, k);
    var some, all := ChainsOf(t, ps[..k], bound), ChainsOf(t, ps, bound);
    LeadsToMember(t, ps[..k], bound, x);
    LeadsToMember(t, ps[..k], bound, y);
    KeepFirstPrefix(some, all);
    KeepFirstMembers(some);
    PrefixPrecedes(KeepFirst(some), Chain(t, n), x, y);
  }

  lemma PrefixPrecedes(a: seq<Name>, s: seq<Name>, x: Name, y: Name)
    requires a <= s && x in a && y !in a
    ensures Precedes(s, x, y)
  {
    var i :| 0 <= i < |a| && a[i] == x;
    assert s[..i + 1] == a[..i + 1];
    assert s[i] == x && y !in s[..i + 1];
  }

  // Declared parents come in the order they are declared, unless the later one is
  // inherited through an earlier one.
  lemma DeclaredOrderKept(t: Tree, n: Name, i: nat, j: nat)
    requires Resolvable(t, n) && n in t && i < j < |t[n].declared|
    requires forall k :: 0 <= k <= i ==> !Reaches(t, t[n].declared[k], t[n].declared[j])
    requires BaseIsImplicit(t, n) ==> !Reaches(t, "base", t[n].declared[j])
    ensures Precedes(Chain(t, n), t[n].declared[i], t[n].declared[j])
  {
    var ps, declared := Parents(t, n), t[n].declared;
    var k := |ps| - |declared| + i + 1;
    ParentsInOrder(t, n);
    ReachesSelf(t, declared[i]);
    assert ps[..k][k - 1] == declared[i];
    forall p | p in ps[..k]
      ensures !Reaches(t, p, declared[j])
    {
      FirstParents(t, n, i, p);
    }
    ParentIff(t, n, declared[j]);
    ResolvableParent(t, n, declared[j]);
    ReachesSelf(t, n);
    EarlierParentFirst(t, n, k, declared[i], declared[j]);
  }

  // The parents up to the `i`-th declared one.
  lemma FirstParents(t: Tree, n: Name, i: nat, p: Name)
    requires n in t && i < |t[n].declared| && |Parents(t, n)| >= |t[n].declared|
    requires p in Parents(t, n)[..|Parents(t, n)| - |t[n].declared| + i + 1]
    ensures (p == "base" && BaseIsImplicit(t, n)) || exists k :: 0 <= k <= i && t[n].declared[k] == p
  {
    var ps, declared := Parents(t, n), t[n].declared;
    ParentsInOrder(t, n);
    var x :| 0 <= x < |ps| - |declared| + i + 1 && ps[x] == p;
    var y := x - (|ps| - |declared|);
    assert y >= 0 ==> ps[|ps| - |declared|..][y] == p;
  }

  lemma {:induction false} ChainsOfFirst(t: Tree, ps: seq<Name>, bound: set<Name>)
    requires AllBelow(t, ps, bound) && ps != []
    ensures Chain(t, ps[0]) <= ChainsOf(t, ps, bound)
  {
    ChainsOfPrefix(t, ps, bound, 1);
    assert ps[..1][..0] == [] && ps[..1] == [ps[0]];
    NothingConcat(Chain(t, ps[0]));
  }

  // The chain of every profile starts at `base`, which inherits from nothing.
  lemma {:induction false} ChainStartsAtBase(t: Tree, n: Name)
    requires "base" in t && t["base"].declared == [] && Resolvable(t, n)
    ensures Chain(t, n) != [] && Chain(t, n)[0] == "base"
    decreases Ancestry(t, n)
  {
    ReachesSelf(t, n);
    ParentsInOrder(t, n);
    ParentIff(t, n, "base");
    if n == "base" {
      assert Parents(t, n) == [];
    } else {
      var first := Parents(t, n)[0];
      ResolvableParent(t, n, first);
      ChainStartsAtBase(t, first);
      ParentsBelow(t, n);
      ChainsOfFirst(t, Parents(t, n), Ancestry(t, n));
      KeepFirstPrefix([Chain(t, first)[0]], ChainsOf(t, Parents(t, n), Ancestry(t, n)));
    }
  }

  // ---- The walk --------------------------------------------------------------

  // Finished names are resolvable and their ancestors are finished too.
  ghost predicate SeenClosed(t: Tree, seen: set<Name>) {
    forall s :: s in seen ==> Resolvable(t, s) && Ancestry(t, s) <= seen
  }

  // The names being visited form the path from the target down to `n`.
  ghost predicate LeadTo(t: Tree, visiting: set<Name>, n: Name) {
    forall v :: v in visiting ==> v in t && exists q :: q in Parents(t, v) && Reaches(t, q, n)
  }

  // The error names a profile above `n` (or `n` itself) that is missing or that
  // inherits from itself.
  ghost predicate Rejects(t: Tree, n: Name, error: ResolutionError) {
    && Reaches(t, n, error.name)
    && match error
       case CycleDetected(m) => OnCycle(t, m)
       case ProfileNotFound(m) => m !in t
  }

  lemma CycleFound(t: Tree, visiting: set<Name>, n: Name)
    requires n in visiting && LeadTo(t, visiting, n)
    ensures Rejects(t, n, CycleDetected(n))
  {
    ReachesSelf(t, n);
  }

  lemma NameAbsent(t: Tree, n: Name)
    requires n !in t
    ensures Rejects(t, n, ProfileNotFound(n))
  {
    ReachesSelf(t, n);
  }

  lemma ParentRejected(t: Tree, n: Name, p: Name, error: ResolutionError)
    requires n in t && p in Parents(t, n) && Rejects(t, p, error)
    ensures Rejects(t, n, error)
  {
    ReachesParent(t, n, p, error.name);
  }

  lemma PathLeadsToParent(t: Tree, visiting: set<Name>, n: Name, p: Name)
    requires n in t && p in Parents(t, n) && LeadTo(t, visiting, n)
    ensures LeadTo(t, visiting + {n}, p)
  {
    ReachesSelf(t, p);
    forall v | v in visiting + {n}
      ensures exists q :: q in Parents(t, v) && Reaches(t, q, p)
    {
      if v != n {
        var q :| q in Parents(t, v) && Reaches(t, q, n);
        ReachesParent(t, n, p, p);
        ReachesTransitive(t, q, n, p);
      }
    }
  }

  lemma ParentIsBelow(t: Tree, n: Name, p: Name)
    requires n in t && p in Parents(t, n) && Resolvable(t, p)
    ensures Ancestry(t, p) < Ancestry(t, n)
  {
    ReachesSelf(t, n);
    AncestryUnfold(t, n);
    assert n !in Ancestry(t, p);
  }

  lemma ChainsOfSnoc(t: Tree, ps: seq<Name>, p: Name, bound: set<Name>)
    requires AllBelow(t, ps, bound) && Resolvable(t, p) && Ancestry(t, p) < bound
    ensures AllBelow(t, ps + [p], bound)
    ensures ChainsOf(t, ps + [p], bound) == ChainsOf(t, ps, bound) + Chain(t, p)
  {
  }

  // Visiting `n` emits exactly its chain without what was emitted before.
  ghost predicate Visited(t: Tree, n: Name, chain: seq<Name>, seen: set<Name>, chain': seq<Name>, seen': set<Name>) {
    && Resolvable(t, n)
    && chain' == chain + Without(Chain(t, n), seen)
    && seen' == seen + Ancestry(t, n)
    && SeenClosed(t, seen')
  }

  // The same for the first `i` parents of `n`, visited one after another.
  ghost predicate ParentsVisited(t: Tree, n: Name, i: nat,
                                 chain: seq<Name>, seen: set<Name>, chain': seq<Name>, seen': set<Name>)
  {
    && i <= |Parents(t, n)|
    && AllBelow(t, Parents(t, n)[..i], Ancestry(t, n))
    && var emitted := ChainsOf(t, Parents(t, n)[..i], Ancestry(t, n));
    && chain' == chain + Without(KeepFirst(emitted), seen)
    && seen' == seen + Elements(emitted)
    && SeenClosed(t, seen')
  }

  lemma VisitAgain(t: Tree, n: Name, chain: seq<Name>, seen: set<Name>)
    requires SeenClosed(t, seen) && n in seen
    ensures Visited(t, n, chain, seen, chain, seen)
  {
    ChainElements(t, n);
    WithoutEverything(Chain(t, n), seen);
  }

  lemma NoParentVisited(t: Tree, n: Name, chain: seq<Name>, seen: set<Name>)
    requires SeenClosed(t, seen)
    ensures ParentsVisited(t, n, 0, chain, seen, chain, seen)
  {
  }

  lemma StepEmits(t: Tree, n: Name, i: nat, seen: set<Name>)
    requires n in t && i < |Parents(t, n)|
    requires AllBelow(t, Parents(t, n)[..i], Ancestry(t, n)) && Resolvable(t, Parents(t, n)[i])
    ensures AllBelow(t, Parents(t, n)[..i + 1], Ancestry(t, n))
    ensures
      var before := ChainsOf(t, Parents(t, n)[..i], Ancestry(t, n));
      var after := ChainsOf(t, Parents(t, n)[..i + 1], Ancestry(t, n));
      var own := Chain(t, Parents(t, n)[i]);
      && Elements(after) == Elements(before) + Ancestry(t, Parents(t, n)[i])
      && Without(KeepFirst(after), seen)
         == Without(KeepFirst(before), seen) + Without(own, seen + Elements(before))
  {
    var ps, p, bound := Parents(t, n), Parents(t, n)[i], Ancestry(t, n);
    ParentIsBelow(t, n, p);
    ChainsOfSnoc(t, ps[..i], p, bound);
    TakeSnoc(ps, i);
    var before, own := ChainsOf(t, ps[..i], bound), Chain(t, p);
    ChainElements(t, p);
    ChainNoDuplicates(t, p);
    KeepFirstAppend(before, own, seen);
    ElementsConcat(before, own);
  }

  // One more parent visited: what it adds to the deduplicated concatenation is its
  // own chain without what had been emitted before.
  lemma ParentVisited(t: Tree, n: Name, i: nat, chain: seq<Name>, seen: set<Name>,
                      chain1: seq<Name>, seen1: set<Name>, chain2: seq<Name>, seen2: set<Name>)
    requires n in t && i < |Parents(t, n)|
    requires ParentsVisited(t, n, i, chain, seen, chain1, seen1)
    requires Visited(t, Parents(t, n)[i], chain1, seen1, chain2, seen2)
    ensures ParentsVisited(t, n, i + 1, chain, seen, chain2, seen2)
  {
    var p := Parents(t, n)[i];
    StepEmits(t, n, i, seen);
    var before := ChainsOf(t, Parents(t, n)[..i], Ancestry(t, n));
    ConcatAssociative(chain, Without(KeepFirst(before), seen), Without(Chain(t, p), seen1));
    SetAssociative(seen, Elements(before), Ancestry(t, p));
  }

  // All parents visited: the profile itself has not been emitted on the way.
  lemma WalkEnds(t: Tree, n: Name, bound: set<Name>)
    requires n in t && bound == Ancestry(t, n) && AllBelow(t, Parents(t, n), bound)
    ensures Resolvable(t, n) && n !in ChainsOf(t, Parents(t, n), bound)
    ensures Chain(t, n) == KeepFirst(ChainsOf(t, Parents(t, n), bound)) + [n]
  {
    assert !OnCycle(t, n);
    ResolvableUnfold(t, n);
    ChainsOfMember(t, Parents(t, n), bound, n);
  }

  lemma WalkEmits(t: Tree, n: Name, below: seq<Name>, seen: set<Name>)
    requires Resolvable(t, n) && n !in seen
    requires Chain(t, n) == KeepFirst(below) + [n]
    ensures Ancestry(t, n) == Elements(below) + {n}
    ensures Without(Chain(t, n), seen) == Without(KeepFirst(below), seen) + [n]
  {
    ChainElements(t, n);
    KeepFirstMembers(below);
    assert Elements(KeepFirst(below) + [n]) == Elements(below) + {n};
    WithoutSnoc(KeepFirst(below), n, seen);
  }

  lemma SelfSeen(t: Tree, n: Name, seen: set<Name>)
    requires SeenClosed(t, seen) && Resolvable(t, n) && Ancestry(t, n) <= seen + {n}
    ensures SeenClosed(t, seen + {n})
  {
  }

  lemma SelfEmitted(t: Tree, n: Name, chain: seq<Name>, seen: set<Name>, chain': seq<Name>, seen': set<Name>)
    requires n in t && n !in seen
    requires ParentsVisited(t, n, |Parents(t, n)|, chain, seen, chain', seen')
    ensures n !in seen'
    ensures Visited(t, n, chain, seen, chain' + [n], seen' + {n})
  {
    TakeAll(Parents(t, n));
    var below := ChainsOf(t, Parents(t, n), Ancestry(t, n));
    WalkEnds(t, n, Ancestry(t, n));
    WalkEmits(t, n, below, seen);
    SetAssociative(seen, Elements(below), {n});
    SelfSeen(t, n, seen');
    ConcatAssociative(chain, Without(KeepFirst(below), seen), [n]);
  }

  // The three collections the nested `visit` mutates.
  class Resolver {
    const tree: Tree
    var chain: seq<Name>
    var seen: set<Name>
    var visiting: set<Name>

    constructor (t: Tree)
      ensures tree == t && chain == [] && seen == {} && visiting == {}
    {
      tree, chain, seen, visiting := t, [], {}, {};
    }

    // Visiting a name emits exactly its chain without what was emitted before; a
    // failure names a profile above `name` that is missing or inherits from itself.
    method Visit(name: Name) returns (outcome: Outcome)
      requires SeenClosed(tree, seen) && LeadTo(tree, visiting, name)
      modifies this
      ensures outcome.Pass? ==> Visited(tree, name, old(chain), old(seen), chain, seen) && visiting == old(visiting)
      ensures outcome.Fail? ==> Rejects(tree, name, outcome.error)
      decreases tree.Keys - visiting
    {
      if name in seen {
        VisitAgain(tree, name, chain, seen);
        return Pass;
      }
      if name in visiting {
        CycleFound(tree, visiting, name);
        return Fail(CycleDetected(name));
      }
      if name !in tree {
        NameAbsent(tree, name);
        return Fail(ProfileNotFound(name));
      }
      visiting := visiting + {name};
      var parents := Parents(tree, name);
      NoParentVisited(tree, name, chain, seen);
      for i := 0 to |parents|
        invariant visiting == old(visiting) + {name}
        invariant ParentsVisited(tree, name, i, old(chain), old(seen), chain, seen)
      {
        ghost var chain1, seen1 := chain, seen;
        PathLeadsToParent(tree, old(visiting), name, parents[i]);
        var visited := Visit(parents[i]);
        if visited.Fail? {
          ParentRejected(tree, name, parents[i], visited.error);
          return visited;
        }
        ParentVisited(tree, name, i, old(chain), old(seen), chain1, seen1, chain, seen);
      }
      visiting := visiting - {name};
      SelfEmitted(tree, name, old(chain), old(seen), chain, seen);
      if name !in seen {
        chain := chain + [name];
        seen := seen + {name};
      }
      outcome := Pass;
    }
  }

  // Linearises `name`: succeeds exactly when every ancestor exists and none lies on
  // a cycle, and then yields the compositional chain.
  method ResolveChain(t: Tree, name: Name) returns (r: Resolution)
    ensures r.Resolved? <==> Resolvable(t, name)
    ensures r.Resolved? ==> r.chain == Chain(t, name)
    ensures r.Rejected? ==> Rejects(t, name, r.error)
  {
    var walk := new Resolver(t);
    var outcome := walk.Visit(name);
    if outcome.Fail? {
      return Rejected(outcome.error);
    }
    WithoutNothing(Chain(t, name));
    r := Resolved(walk.chain);
  }
}
