/**
  What a resolved chain contributes to the staged image: the merged package list
  and the merged overlay tree.
*/
module ImageLayers {
  import opened Sequences
  import opened ProfileTree
  import opened ResolveProfile

  // ---- Packages --------------------------------------------------------------

  function Packages(t: Tree, n: Name): seq<string> {
    if n in t then t[n].packages else []
  }

  // Every package entry of the chain, in chain order, repetitions included.
  function PackageEntries(t: Tree, chain: seq<Name>): seq<string> {
    if chain == [] then []
    else PackageEntries(t, chain[..|chain| - 1]) + Packages(t, chain[|chain| - 1])
  }

  method MergeExtraPackages(t: Tree, chain: seq<Name>) returns (out: seq<string>)
    ensures out == KeepFirst(PackageEntries(t, chain))
  {
    out := [];
    var seen: set<string> := {};
    for i := 0 to |chain|
      invariant Collected(out, seen, PackageEntries(t, chain[..i]))
    {
      var lines := Packages(t, chain[i]);
      ghost var before := PackageEntries(t, chain[..i]);
      EntriesSnoc(t, chain, i);
      for j := 0 to |lines|
        invariant Collected(out, seen, before + lines[..j])
      {
        CollectedSnoc(out, seen, before, lines, j);
        if lines[j] in seen {
          continue;
        }
        seen := seen + {lines[j]};
        out := out + [lines[j]];
      }
      TakeAll(lines);
    }
    TakeAll(chain);
  }

  // `out` and `seen` are what deduplicating `s` has produced so far.
  ghost predicate Collected<T>(out: seq<T>, seen: set<T>, s: seq<T>) {
    out == KeepFirst(s) && seen == Elements(s)
  }

  lemma CollectedSnoc<T>(out: seq<T>, seen: set<T>, s: seq<T>, more: seq<T>, j: nat)
    requires j < |more| && Collected(out, seen, s + more[..j])
    ensures more[j] in seen ==> Collected(out, seen, s + more[..j + 1])
    ensures more[j] !in seen ==> Collected(out + [more[j]], seen + {more[j]}, s + more[..j + 1])
  {
    assert s + more[..j + 1] == s + more[..j] + [more[j]];
    KeepFirstSnoc(s + more[..j], more[j]);
    ElementsConcat(s + more[..j], [more[j]]);
  }

  lemma EntriesSnoc(t: Tree, chain: seq<Name>, i: nat)
    requires i < |chain|
    ensures PackageEntries(t, chain[..i]) + Packages(t, chain[i])[..0] == PackageEntries(t, chain[..i])
    ensures PackageEntries(t, chain[..i + 1]) == PackageEntries(t, chain[..i]) + Packages(t, chain[i])
  {
    assert chain[..i + 1][..i] == chain[..i];
  }

  lemma {:induction false} PackageEntry(t: Tree, chain: seq<Name>, x: string)
    ensures x in PackageEntries(t, chain) <==> exists n :: n in chain && n in t && x in t[n].packages
  {
    if chain == [] {
    } else {
      PackageEntry(t, chain[..|chain| - 1], x);
      assert chain == chain[..|chain| - 1] + [chain[|chain| - 1]];
    }
  }

  // The entries stand in chain order, and those of one profile as it lists them.
  lemma EntriesInOrder(t: Tree, chain: seq<Name>, n: Name)
    ensures PackageEntries(t, []) == []
    ensures PackageEntries(t, chain + [n]) == PackageEntries(t, chain) + if n in t then t[n].packages else []
  {
    assert (chain + [n])[..|chain|] == chain;
  }

  // The merged list holds exactly what the profile and its ancestors list.
  lemma MergedPackagesAre(t: Tree, n: Name, x: string)
    requires Resolvable(t, n)
    ensures x in KeepFirst(PackageEntries(t, Chain(t, n))) <==> exists a :: a in t && Reaches(t, n, a) && x in t[a].packages
  {
    var chain := Chain(t, n);
    KeepFirstMembers(PackageEntries(t, chain));
    PackageEntry(t, chain, x);
    forall a
      ensures a in chain <==> a in t && Reaches(t, n, a)
    {
      ChainMember(t, n, a);
    }
  }

  // The merged list of a profile: no repetition, first-occurrence order, and all of
  // the merged list of every profile it inherits from.
  lemma MergedPackagesInherit(t: Tree, n: Name, a: Name)
    requires Resolvable(t, n) && Reaches(t, n, a)
    ensures Resolvable(t, a)
    ensures NoDuplicates(KeepFirst(PackageEntries(t, Chain(t, n))))
    ensures forall x :: x in KeepFirst(PackageEntries(t, Chain(t, a))) ==>
              x in KeepFirst(PackageEntries(t, Chain(t, n)))
    ensures forall i, j :: 0 <= i < j < |KeepFirst(PackageEntries(t, Chain(t, n)))| ==>
              Precedes(PackageEntries(t, Chain(t, n)), KeepFirst(PackageEntries(t, Chain(t, n)))[i],
                       KeepFirst(PackageEntries(t, Chain(t, n)))[j])
  {
    ResolvableReached(t, n, a);
    var mine, theirs := PackageEntries(t, Chain(t, n)), PackageEntries(t, Chain(t, a));
    KeepFirstNoDuplicates(mine);
    forall x | x in KeepFirst(theirs)
      ensures x in KeepFirst(mine)
    {
      MergedPackagesAre(t, a, x);
      var b :| b in t && Reaches(t, a, b) && x in t[b].packages;
      ReachesTransitive(t, n, a, b);
      MergedPackagesAre(t, n, x);
    }
    forall i, j | 0 <= i < j < |KeepFirst(mine)|
      ensures Precedes(mine, KeepFirst(mine)[i], KeepFirst(mine)[j])
    {
      KeepFirstOrder(mine, i, j);
    }
  }

  // ---- Overlays --------------------------------------------------------------

  type Files = map<Path, string>

  function Overlay(t: Tree, n: Name): Files {
    if n in t then t[n].overlay else map[]
  }

  ghost predicate Ships(t: Tree, n: Name, p: Path) {
    n in t && p in t[n].overlay
  }

  // The last member of the chain that ships `p` stands at `i`.
  ghost predicate LastToShip(t: Tree, chain: seq<Name>, p: Path, i: nat) {
    i < |chain| && Ships(t, chain[i], p) && forall j :: i < j < |chain| ==> !Ships(t, chain[j], p)
  }

  // `tree` with the overlays of the chain copied over it in turn.
  ghost predicate Layered(t: Tree, chain: seq<Name>, tree: Files, dest: Files) {
    && (forall p, i: nat :: LastToShip(t, chain, p, i) ==> p in dest && dest[p] == t[chain[i]].overlay[p])
    && (forall p :: (forall i :: 0 <= i < |chain| ==> !Ships(t, chain[i], p)) ==>
          (p in dest <==> p in tree) && (p in tree ==> dest[p] == tree[p]))
  }

  lemma {:induction false} SomeLast(t: Tree, chain: seq<Name>, p: Path, i: nat) returns (last: nat)
    requires i < |chain| && Ships(t, chain[i], p)
    ensures i <= last && LastToShip(t, chain, p, last)
    decreases |chain| - i
  {
    if j: nat :| i < j < |chain| && Ships(t, chain[j], p) {
      last := SomeLast(t, chain, p, j);
    } else {
      last := i;
    }
  }

  lemma LayeredSnoc(t: Tree, chain: seq<Name>, n: Name, tree: Files, dest: Files)
    requires Layered(t, chain, tree, dest)
    ensures Layered(t, chain + [n], tree, dest + Overlay(t, n))
  {
    var longer, dest' := chain + [n], dest + Overlay(t, n);
    forall p, i: nat | LastToShip(t, longer, p, i)
      ensures p in dest' && dest'[p] == t[longer[i]].overlay[p]
    {
      if i < |chain| {
        assert !Ships(t, longer[|chain|], p);
        assert forall j :: 0 <= j < |chain| ==> longer[j] == chain[j];
        assert LastToShip(t, chain, p, i);
      }
    }
    forall p | forall i :: 0 <= i < |longer| ==> !Ships(t, longer[i], p)
      ensures (p in dest' <==> p in tree) && (p in tree ==> dest'[p] == tree[p])
    {
      assert !Ships(t, longer[|chain|], p);
      assert forall j :: 0 <= j < |chain| ==> longer[j] == chain[j];
    }
  }

  // Copies every overlay of the chain over `tree`; each path ends up with the content
  // of the last member that ships it.
  method MergeOverlays(t: Tree, chain: seq<Name>, tree: Files) returns (dest: Files)
    ensures Layered(t, chain, tree, dest)
  {
    dest := tree;
    for i := 0 to |chain|
      invariant Layered(t, chain[..i], tree, dest)
    {
      TakeSnoc(chain, i);
      LayeredSnoc(t, chain[..i], chain[i], tree, dest);
      dest := dest + Overlay(t, chain[i]);
    }
    TakeAll(chain);
  }

  // No file of a profile is shadowed by one of its own ancestors.
  lemma NoAncestorShadows(t: Tree, n: Name, i: nat, p: Path)
    requires Resolvable(t, n) && i < |Chain(t, n)| && Ships(t, Chain(t, n)[i], p)
    ensures exists winner: nat :: LastToShip(t, Chain(t, n), p, winner)
    ensures forall winner: nat :: LastToShip(t, Chain(t, n), p, winner) ==>
              winner >= i && (winner == i || !Reaches(t, Chain(t, n)[i], Chain(t, n)[winner]))
  {
    var last := SomeLast(t, Chain(t, n), p, i);
    ChainIsLinearisation(t, n);
  }
}
