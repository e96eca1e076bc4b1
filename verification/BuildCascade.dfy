/**
  The ordered list of builds a changed profile triggers: a work-list closure over the
  child edges followed by a round-based topological sort, and its agreement with the
  ancestor walk of the resolver.
*/
module BuildCascade {
  import opened Sequences
  import opened Options
  import opened Ordering
  import opened ProfileTree
  import opened ResolveProfile

  // ---- The meaning of a cascade ----------------------------------------------

  // `root` and every existing profile that inherits from it.
  ghost function Downstream(t: Tree, root: Name): set<Name> {
    set n | n in t.Keys + {root} && Reaches(t, n, root)
  }

  function ParentsIn(t: Tree, n: Name, names: set<Name>): set<Name> {
    set p | p in Parents(t, n) && p in names
  }

  function Ready(t: Tree, names: set<Name>): set<Name> {
    set n | n in names && ParentsIn(t, n, names) == {}
  }

  // Round by round, everything whose parents have all been emitted, in name order;
  // once nothing is ready, all that is left in name order.
  function Rounds(t: Tree, names: set<Name>): seq<Name>
    decreases names
  {
    var ready := Ready(t, names);
    if ready == {} then Sorted(names) else Sorted(ready) + Rounds(t, names - ready)
  }

  ghost function CascadeOrder(t: Tree, root: Name): seq<Name> {
    Rounds(t, Downstream(t, root))
  }

  lemma {:induction false} RoundsMembers(t: Tree, names: set<Name>)
    ensures forall x :: x in Rounds(t, names) <==> x in names
    ensures NoDuplicates(Rounds(t, names))
    decreases names
  {
    var ready := Ready(t, names);
    if ready == {} {
      SortedNoDuplicates(names);
    } else {
      RoundsMembers(t, names - ready);
      SortedNoDuplicates(ready);
      ConcatNoDuplicates(Sorted(ready), Rounds(t, names - ready));
    }
  }

  lemma ConcatNoDuplicates<T>(a: seq<T>, b: seq<T>)
    requires NoDuplicates(a) && NoDuplicates(b)
    requires forall x :: x in a ==> x !in b
    ensures NoDuplicates(a + b)
  {
    forall i, j | 0 <= i < j < |a + b|
      ensures (a + b)[i] != (a + b)[j]
    {
      if i < |a| <= j {
        assert a[i] in a && b[j - |a|] in b;
      }
    }
  }

  // `n` is not stuck: nothing between it and the rest of `names` inherits from itself.
  ghost predicate Clean(t: Tree, names: set<Name>, n: Name) {
    forall m :: m in names && Reaches(t, n, m) ==> !OnCycle(t, m)
  }

  ghost function Above(t: Tree, names: set<Name>, n: Name): set<Name> {
    set m | m in names && Reaches(t, n, m)
  }

  // A round with nothing ready leaves only names stuck behind a cycle.
  lemma {:induction false} StuckBehindCycle(t: Tree, root: Name, names: set<Name>, n: Name)
    requires names <= Downstream(t, root) && Ready(t, names) == {}
    requires n in names && Clean(t, names, n)
    ensures false
    decreases Above(t, names, n)
  {
    ReachesSelf(t, n);
    assert n !in Ready(t, names);
    var p :| p in ParentsIn(t, n, names);
    if n in t {
      forall m | m in names && Reaches(t, p, m)
        ensures Reaches(t, n, m) && m in Above(t, names, n)
      {
        ReachesParent(t, n, p, m);
      }
      assert n in Above(t, names, n) && n !in Above(t, names, p);
      StuckBehindCycle(t, root, names, p);
    }
  }

  // In the build order of a set of names, a name that no cycle holds up stands after
  // each of its parents in the set.
  ghost predicate ParentsFirst(t: Tree, names: set<Name>, order: seq<Name>) {
    forall i, p :: 0 <= i < |order| && p in names && p in Parents(t, order[i]) && Clean(t, names, order[i]) ==>
      p in order[..i]
  }

  lemma {:induction false} RoundsParentsFirst(t: Tree, root: Name, names: set<Name>)
    requires names <= Downstream(t, root)
    ensures ParentsFirst(t, names, Rounds(t, names))
    decreases names
  {
    var ready := Ready(t, names);
    if ready == {} {
      NothingClean(t, root, names);
    } else {
      RoundsParentsFirst(t, root, names - ready);
      RoundsMembers(t, names - ready);
      ReadyThenRest(t, names, Sorted(ready), Rounds(t, names - ready));
    }
  }

  lemma NothingClean(t: Tree, root: Name, names: set<Name>)
    requires names <= Downstream(t, root) && Ready(t, names) == {}
    ensures ParentsFirst(t, names, Sorted(names))
  {
    var order := Sorted(names);
    forall i | 0 <= i < |order|
      ensures !Clean(t, names, order[i])
    {
      assert order[i] in order;
      if Clean(t, names, order[i]) {
        StuckBehindCycle(t, root, names, order[i]);
      }
    }
  }

  lemma ReadyThenRest(t: Tree, names: set<Name>, first: seq<Name>, rest: seq<Name>)
    requires forall x :: x in first <==> x in Ready(t, names)
    requires ParentsFirst(t, names - Ready(t, names), rest)
    requires forall x :: x in rest <==> x in names - Ready(t, names)
    ensures ParentsFirst(t, names, first + rest)
  {
    var order := first + rest;
    assert forall i :: 0 <= i < |first| ==> order[i] in first;
    forall i, p | 0 <= i < |order| && p in names && p in Parents(t, order[i]) && Clean(t, names, order[i])
      ensures p in order[..i]
    {
      NotReadyYet(t, names, order[i], p);
      if i >= |first| {
        assert order[..i] == first + rest[..i - |first|];
        if p !in first {
          ConcatIndex(first, rest, i);
          assert Clean(t, names - Ready(t, names), rest[i - |first|]);
          assert p in Parents(t, rest[i - |first|]) && p in names - Ready(t, names);
        }
      }
    }
  }

  lemma NotReadyYet(t: Tree, names: set<Name>, n: Name, p: Name)
    requires p in names && p in Parents(t, n)
    ensures n !in Ready(t, names)
  {
    assert p in ParentsIn(t, n, names);
  }

  // ---- Generation by generation ----------------------------------------------

  // `w` leads from `n` up `depth` generations of parents within `names`.
  ghost predicate Ladder(t: Tree, names: set<Name>, n: Name, depth: nat, w: seq<Name>) {
    && |w| == depth + 1 && w[0] == n
    && forall i :: 0 < i <= depth ==> w[i] in names && w[i] in Parents(t, w[i - 1])
  }

  // `n` has at least `depth` generations of parents above it within `names`.
  ghost predicate Under(t: Tree, names: set<Name>, n: Name, depth: nat) {
    exists w :: Ladder(t, names, n, depth, w)
  }

  lemma UnderStep(t: Tree, names: set<Name>, n: Name, p: Name, depth: nat)
    requires p in Parents(t, n) && p in names && Under(t, names, p, depth)
    ensures Under(t, names, n, depth + 1)
  {
    var w :| Ladder(t, names, p, depth, w);
    assert Ladder(t, names, n, depth + 1, [n] + w);
  }

  lemma UnderParent(t: Tree, names: set<Name>, n: Name, depth: nat) returns (p: Name)
    requires Under(t, names, n, depth + 1)
    ensures p in Parents(t, n) && p in names && Under(t, names, p, depth)
  {
    var w :| Ladder(t, names, n, depth + 1, w);
    p := w[1];
    assert Ladder(t, names, p, depth, w[1..]);
  }

  lemma UnderNothing(t: Tree, names: set<Name>, n: Name)
    ensures Under(t, names, n, 0)
  {
    assert Ladder(t, names, n, 0, [n]);
  }

  ghost predicate NoDeeper(t: Tree, names: set<Name>, n: Name, m: Name) {
    forall depth: nat :: Under(t, names, n, depth) ==> Under(t, names, m, depth)
  }

  // Fewer generations come first, and names of one generation in their order.
  ghost predicate InOrder(t: Tree, names: set<Name>, n: Name, m: Name) {
    NoDeeper(t, names, n, m) && (NoDeeper(t, names, m, n) ==> LexLe(n, m))
  }

  ghost predicate InGenerations(t: Tree, names: set<Name>, order: seq<Name>) {
    forall i, j :: 0 <= i < j < |order| ==> InOrder(t, names, order[i], order[j])
  }

  lemma ReadyIsShallow(t: Tree, names: set<Name>, n: Name, depth: nat)
    requires n in Ready(t, names)
    ensures Under(t, names, n, depth) <==> depth == 0
  {
    UnderNothing(t, names, n);
    if depth > 0 && Under(t, names, n, depth) {
      var p := UnderParent(t, names, n, depth - 1);
      NotReadyYet(t, names, n, p);
      assert false;
    }
  }

  lemma NotReadyHasParent(t: Tree, names: set<Name>, n: Name) returns (p: Name)
    requires n in names && n !in Ready(t, names)
    ensures p in Parents(t, n) && p in names
  {
    p :| p in ParentsIn(t, n, names);
  }

  lemma NotReadyIsUnder(t: Tree, names: set<Name>, n: Name)
    requires n in names && n !in Ready(t, names)
    ensures Under(t, names, n, 1)
  {
    var p := NotReadyHasParent(t, names, n);
    UnderNothing(t, names, p);
    UnderStep(t, names, n, p, 0);
  }

  // Without the ready names, the others are one generation less deep.
  lemma {:induction false} OneLessDeep(t: Tree, names: set<Name>, n: Name, depth: nat)
    requires n in names && n !in Ready(t, names)
    ensures Under(t, names, n, depth + 1) ==> Under(t, names - Ready(t, names), n, depth)
    decreases depth
  {
    if depth == 0 {
      UnderNothing(t, names - Ready(t, names), n);
    } else if Under(t, names, n, depth + 1) {
      var p := UnderParent(t, names, n, depth);
      ReadyIsShallowAt(t, names, p, depth);
      OneLessDeep(t, names, p, depth - 1);
      UnderStep(t, names - Ready(t, names), n, p, depth - 1);
    }
  }

  lemma ReadyIsShallowAt(t: Tree, names: set<Name>, n: Name, depth: nat)
    requires Under(t, names, n, depth) && depth > 0
    ensures n !in Ready(t, names)
  {
    if n in Ready(t, names) {
      ReadyIsShallow(t, names, n, depth);
    }
  }

  lemma {:induction false} OneDeeper(t: Tree, names: set<Name>, n: Name, depth: nat)
    requires n in names && n !in Ready(t, names)
    ensures Under(t, names - Ready(t, names), n, depth) ==> Under(t, names, n, depth + 1)
    decreases depth
  {
    if depth == 0 {
      NotReadyIsUnder(t, names, n);
    } else if Under(t, names - Ready(t, names), n, depth) {
      var p := UnderParent(t, names - Ready(t, names), n, depth - 1);
      OneDeeper(t, names, p, depth - 1);
      UnderStep(t, names, n, p, depth);
    }
  }

  lemma NoDeeperRest(t: Tree, names: set<Name>, n: Name, m: Name)
    requires n in names && n !in Ready(t, names) && m in names && m !in Ready(t, names)
    ensures NoDeeper(t, names, n, m) <==> NoDeeper(t, names - Ready(t, names), n, m)
  {
    if NoDeeper(t, names, n, m) {
      forall depth: nat | Under(t, names - Ready(t, names), n, depth)
        ensures Under(t, names - Ready(t, names), m, depth)
      {
        OneDeeper(t, names, n, depth);
        OneLessDeep(t, names, m, depth);
      }
    }
    if NoDeeper(t, names - Ready(t, names), n, m) {
      forall depth: nat | Under(t, names, n, depth)
        ensures Under(t, names, m, depth)
      {
        DeeperToo(t, names, n, m, depth);
      }
    }
  }

  lemma DeeperToo(t: Tree, names: set<Name>, n: Name, m: Name, depth: nat)
    requires n in names && n !in Ready(t, names) && m in names && m !in Ready(t, names)
    requires NoDeeper(t, names - Ready(t, names), n, m) && Under(t, names, n, depth)
    ensures Under(t, names, m, depth)
  {
    if depth == 0 {
      UnderNothing(t, names, m);
    } else {
      OneLessDeep(t, names, n, depth - 1);
      OneDeeper(t, names, m, depth - 1);
    }
  }

  // With nothing ready, every name has parents without end above it.
  lemma {:induction false} StuckIsDeep(t: Tree, names: set<Name>, n: Name, depth: nat)
    requires Ready(t, names) == {} && n in names
    ensures Under(t, names, n, depth)
    decreases depth
  {
    if depth == 0 {
      UnderNothing(t, names, n);
    } else {
      var p := NotReadyHasParent(t, names, n);
      StuckIsDeep(t, names, p, depth - 1);
      UnderStep(t, names, n, p, depth - 1);
    }
  }

  lemma StuckNoDeeper(t: Tree, names: set<Name>, n: Name, m: Name)
    requires Ready(t, names) == {} && m in names
    ensures NoDeeper(t, names, n, m)
  {
    forall depth: nat
      ensures Under(t, names, m, depth)
    {
      StuckIsDeep(t, names, m, depth);
    }
  }

  lemma StuckInGenerations(t: Tree, names: set<Name>, order: seq<Name>)
    requires Ready(t, names) == {} && InNameOrder(order) && forall x :: x in order ==> x in names
    ensures InGenerations(t, names, order)
  {
    forall i, j | 0 <= i < j < |order|
      ensures InOrder(t, names, order[i], order[j])
    {
      StuckNoDeeper(t, names, order[i], order[j]);
    }
  }

  lemma ReadyBefore(t: Tree, names: set<Name>, n: Name, m: Name)
    requires n in Ready(t, names) && m in names
    ensures NoDeeper(t, names, n, m)
    ensures m !in Ready(t, names) ==> !NoDeeper(t, names, m, n)
  {
    forall depth: nat
      ensures Under(t, names, n, depth) <==> depth == 0
    {
      ReadyIsShallow(t, names, n, depth);
    }
    UnderNothing(t, names, m);
    if m !in Ready(t, names) {
      NotReadyIsUnder(t, names, m);
    }
  }

  lemma RestInOrder(t: Tree, names: set<Name>, n: Name, m: Name)
    requires n in names - Ready(t, names) && m in names - Ready(t, names)
    requires InOrder(t, names - Ready(t, names), n, m)
    ensures InOrder(t, names, n, m)
  {
    NoDeeperRest(t, names, n, m);
    NoDeeperRest(t, names, m, n);
  }

  // One round and the rest after it.
  lemma RoundThenRest(t: Tree, names: set<Name>, first: seq<Name>, rest: seq<Name>, i: nat, j: nat)
    requires InNameOrder(first) && forall x :: x in first ==> x in Ready(t, names)
    requires InGenerations(t, names - Ready(t, names), rest) && forall x :: x in rest ==> x in names - Ready(t, names)
    requires i < j < |first + rest|
    ensures InOrder(t, names, (first + rest)[i], (first + rest)[j])
  {
    var n, m := (first + rest)[i], (first + rest)[j];
    if j < |first| {
      assert n in first && m in first;
      ReadyBefore(t, names, n, m);
    } else if i < |first| {
      ConcatIndex(first, rest, j);
      assert n in first && m in rest;
      ReadyBefore(t, names, n, m);
    } else {
      ConcatIndex(first, rest, i);
      ConcatIndex(first, rest, j);
      assert n in rest && m in rest;
      RestInOrder(t, names, n, m);
    }
  }

  // The rounds list a set of names generation by generation, each in name order.
  lemma {:induction false} RoundsInGenerations(t: Tree, names: set<Name>)
    ensures InGenerations(t, names, Rounds(t, names))
    decreases names
  {
    var ready := Ready(t, names);
    if ready == {} {
      SortedInNameOrder(names);
      StuckInGenerations(t, names, Sorted(names));
    } else {
      var first, rest := Sorted(ready), Rounds(t, names - ready);
      SortedInNameOrder(ready);
      RoundsInGenerations(t, names - ready);
      RoundsMembers(t, names - ready);
      assert forall x :: x in first ==> x in ready;
      forall i, j | 0 <= i < j < |first + rest|
        ensures InOrder(t, names, (first + rest)[i], (first + rest)[j])
      {
        RoundThenRest(t, names, first, rest, i, j);
      }
    }
  }

  // ---- What a cascade promises -----------------------------------------------

  // No cycle stands between `n` and `root`.
  ghost predicate CleanBelow(t: Tree, root: Name, n: Name) {
    forall m :: Reaches(t, n, m) && Reaches(t, m, root) ==> !OnCycle(t, m)
  }

  lemma CascadeMembers(t: Tree, root: Name)
    ensures NoDuplicates(CascadeOrder(t, root))
    ensures forall n :: n in CascadeOrder(t, root) <==> Reaches(t, n, root)
  {
    RoundsMembers(t, Downstream(t, root));
    forall n
      ensures n in Downstream(t, root) <==> Reaches(t, n, root)
    {
      DownstreamMember(t, root, n);
    }
  }

  lemma DownstreamMember(t: Tree, root: Name, n: Name)
    ensures n in Downstream(t, root) <==> Reaches(t, n, root)
  {
  }

  lemma CleanParent(t: Tree, root: Name, n: Name, q: Name)
    requires CleanBelow(t, root, n) && n in t && q in Parents(t, n)
    ensures CleanBelow(t, root, q)
  {
    forall x | Reaches(t, q, x) && Reaches(t, x, root)
      ensures !OnCycle(t, x)
    {
      ReachesParent(t, n, q, x);
    }
  }

  lemma CleanFor(t: Tree, root: Name, n: Name)
    requires CleanBelow(t, root, n)
    ensures Clean(t, Downstream(t, root), n)
  {
  }

  // Everything a profile inherits from is built before it, unless a cycle is in the way.
  lemma {:induction false} AncestorBuiltFirst(t: Tree, root: Name, order: seq<Name>, i: nat, m: Name, w: seq<Name>)
    requires ParentsFirst(t, Downstream(t, root), order)
    requires i < |order| && CleanBelow(t, root, order[i])
    requires Walk(t, w, order[i], m) && |w| > 1 && Reaches(t, m, root)
    ensures m in order[..i]
    decreases |w|
  {
    var n, q := order[i], w[1];
    WalkTail(t, w, n, m);
    ReachesTransitive(t, q, m, root);
    DownstreamMember(t, root, q);
    CleanFor(t, root, n);
    assert q in order[..i];
    var j: nat :| j < i && order[j] == q;
    if |w| > 2 {
      CleanParent(t, root, n, q);
      AncestorBuiltFirst(t, root, order, j, m, w[1..]);
      TakeOfTake(order, j, i, m);
    }
  }

  lemma TakeOfTake<T>(s: seq<T>, j: nat, i: nat, x: T)
    requires j <= i <= |s| && x in s[..j]
    ensures x in s[..i]
  {
  }

  // Rebuilding `base` rebuilds the whole fleet.
  lemma BaseRebuildsAll(t: Tree, n: Name)
    requires "base" in t
    ensures n in CascadeOrder(t, "base") <==> n in t
  {
    CascadeMembers(t, "base");
    if n in t {
      BaseIsReached(t, n);
    } else if Reaches(t, n, "base") {
      var _ := ReachesFirstEdge(t, n, "base");
    }
  }

  // In the first round only the root can be ready, and it is unless it inherits from itself.
  lemma FirstRound(t: Tree, root: Name)
    ensures root in Downstream(t, root)
    ensures Ready(t, Downstream(t, root)) == if OnCycle(t, root) then {} else {root}
  {
    var names := Downstream(t, root);
    ReachesSelf(t, root);
    forall n | n in names
      ensures n in Ready(t, names) <==> n == root && !OnCycle(t, root)
    {
      if n != root {
        var q := ReachesFirstEdge(t, n, root);
        DownstreamMember(t, root, q);
        NotReadyYet(t, names, n, q);
      } else if OnCycle(t, root) {
        var q :| q in Parents(t, root) && Reaches(t, q, root);
        DownstreamMember(t, root, q);
        NotReadyYet(t, names, root, q);
      } else {
        assert ParentsIn(t, root, names) == {};
      }
    }
  }

  // The list starts with its root exactly when the root does not inherit from itself,
  // or happens to come first by name.
  lemma RootFirst(t: Tree, root: Name)
    ensures |CascadeOrder(t, root)| > 0
    ensures CascadeOrder(t, root)[0] == root <==>
            !OnCycle(t, root) || forall n :: Reaches(t, n, root) ==> LexLe(root, n)
  {
    FirstRound(t, root);
    var order := if OnCycle(t, root) then Sorted(Downstream(t, root))
                 else Sorted({root}) + Rounds(t, Downstream(t, root) - {root});
    assert order == CascadeOrder(t, root);
    LexTotal(root, root);
    LeastIsFirst({root}, root);
    LeastIsFirst(Downstream(t, root), root);
    LeastDownstream(t, root);
  }

  // Two profiles that inherit from each other.
  function TwoCycle(a: Name, b: Name): Tree {
    map[a := Profile([b], [], map[]), b := Profile([a], [], map[])]
  }

  // Rebuilding the larger of them starts with the smaller.
  lemma CycleStartsElsewhere(a: Name, b: Name)
    requires a != b && LexLe(a, b)
    ensures OnCycle(TwoCycle(a, b), b)
    ensures CascadeOrder(TwoCycle(a, b), b) != [] && CascadeOrder(TwoCycle(a, b), b)[0] != b
  {
    var t := TwoCycle(a, b);
    assert Parents(t, a) == [b] && Parents(t, b) == [a];
    ReachesSelf(t, b);
    ReachesParent(t, a, b, b);
    RootFirst(t, b);
    if LexLe(b, a) {
      LexAntisymmetric(a, b);
    }
  }

  lemma LeastDownstream(t: Tree, root: Name)
    ensures IsLeast(root, Downstream(t, root)) <==> forall n :: Reaches(t, n, root) ==> LexLe(root, n)
  {
    ReachesSelf(t, root);
    forall n
      ensures Reaches(t, n, root) <==> n in Downstream(t, root)
    {
      DownstreamMember(t, root, n);
    }
  }

  lemma LeastIsFirst(s: set<string>, x: string)
    requires x in s
    ensures Sorted(s) != [] && (Sorted(s)[0] == x <==> IsLeast(x, s))
  {
    if IsLeast(x, s) {
      LexAntisymmetric(x, Least(s));
    }
  }

  // ---- Agreement with the resolver -------------------------------------------

  // The build order of a cascade: whatever inherits from `root` through no cycle is
  // built after everything it inherits from that is rebuilt too.
  lemma CascadeOrdersAncestors(t: Tree, root: Name, i: nat, m: Name)
    requires i < |CascadeOrder(t, root)| && CleanBelow(t, root, CascadeOrder(t, root)[i])
    requires m in CascadeOrder(t, root) && m != CascadeOrder(t, root)[i]
    requires Reaches(t, CascadeOrder(t, root)[i], m)
    ensures m in CascadeOrder(t, root)[..i]
  {
    var order := CascadeOrder(t, root);
    CascadeMembers(t, root);
    RoundsParentsFirst(t, root, Downstream(t, root));
    var w :| Walk(t, w, order[i], m);
    AncestorBuiltFirst(t, root, order, i, m, w);
  }

  // The two walks agree: a resolvable profile is rebuilt exactly when the root is in
  // its chain, and every other member of its chain that is rebuilt is built before it.
  lemma WalksAgree(t: Tree, root: Name, p: Name)
    requires Resolvable(t, p)
    ensures p in CascadeOrder(t, root) <==> root in Chain(t, p)
    ensures forall i, m | 0 <= i < |CascadeOrder(t, root)| && CascadeOrder(t, root)[i] == p ::
              m in Chain(t, p) && m in CascadeOrder(t, root) && m != p ==> m in CascadeOrder(t, root)[..i]
  {
    var order := CascadeOrder(t, root);
    CascadeMembers(t, root);
    ChainIsLinearisation(t, p);
    forall i, m | 0 <= i < |order| && order[i] == p && m in Chain(t, p) && m in order && m != p
      ensures m in order[..i]
    {
      CascadeOrdersAncestors(t, root, i, m);
    }
  }

  // ---- The computation -------------------------------------------------------

  function Listed(children: map<Name, seq<Name>>, n: Name): seq<Name> {
    if n in children then children[n] else []
  }

  // `children` holds the reversed parent edges of the profiles in `done`.
  ghost predicate ChildrenOf(t: Tree, done: set<Name>, children: map<Name, seq<Name>>) {
    forall n, c :: c in Listed(children, n) <==> c in done && n in Parents(t, c)
  }

  // `profile` has been listed under the names in `done`, and nothing else has changed.
  ghost predicate Appended(before: map<Name, seq<Name>>, children: map<Name, seq<Name>>, profile: Name, done: seq<Name>) {
    forall n :: ListedWith(Listed(before, n), Listed(children, n), profile, n in done)
  }

  ghost predicate ListedWith(before: seq<Name>, after: seq<Name>, profile: Name, added: bool) {
    forall c :: c in after <==> c in before || (c == profile && added)
  }

  lemma AppendChild(before: map<Name, seq<Name>>, children: map<Name, seq<Name>>, profile: Name, parents: seq<Name>, i: nat)
    requires i < |parents| && Appended(before, children, profile, parents[..i])
    ensures Appended(before, children[parents[i] := Listed(children, parents[i]) + [profile]], profile, parents[..i + 1])
  {
    TakeSnoc(parents, i);
    var parent := parents[i];
    var after := children[parent := Listed(children, parent) + [profile]];
    forall n
      ensures ListedWith(Listed(before, n), Listed(after, n), profile, n in parents[..i + 1])
    {
      assert ListedWith(Listed(before, n), Listed(children, n), profile, n in parents[..i]);
      assert n in parents[..i + 1] <==> n in parents[..i] || n == parent;
    }
  }

  lemma ProfileListed(t: Tree, done: set<Name>, before: map<Name, seq<Name>>, children: map<Name, seq<Name>>, profile: Name)
    requires ChildrenOf(t, done, before)
    requires Appended(before, children, profile, Parents(t, profile)[..|Parents(t, profile)|])
    ensures ChildrenOf(t, done + {profile}, children)
  {
    TakeAll(Parents(t, profile));
    forall n, c
      ensures c in Listed(children, n) <==> c in done + {profile} && n in Parents(t, c)
    {
      assert ListedWith(Listed(before, n), Listed(children, n), profile, n in Parents(t, profile));
    }
  }

  // The direct-children adjacency, profiles taken in whatever order the directory lists them.
  method ReadChildren(t: Tree) returns (children: map<Name, seq<Name>>)
    ensures ChildrenOf(t, t.Keys, children)
  {
    children := map n | n in t :: [];
    var todo := t.Keys;
    while todo != {}
      invariant todo <= t.Keys && ChildrenOf(t, t.Keys - todo, children)
      decreases todo
    {
      var profile :| profile in todo;
      var parents := Parents(t, profile);
      ghost var before := children;
      for i := 0 to |parents|
        invariant Appended(before, children, profile, parents[..i])
      {
        AppendChild(before, children, profile, parents, i);
        children := children[parents[i] := Listed(children, parents[i]) + [profile]];
      }
      ProfileListed(t, t.Keys - todo, before, children, profile);
      assert t.Keys - (todo - {profile}) == t.Keys - todo + {profile};
      todo := todo - {profile};
    }
    assert t.Keys - todo == t.Keys;
  }

  // Every child of a collected name is collected or waiting.
  ghost predicate Pending(children: map<Name, seq<Name>>, inSet: set<Name>, stack: seq<Name>) {
    forall n :: n in inSet ==> forall c :: c in Listed(children, n) ==> c in inSet || c in stack
  }

  ghost predicate AllIn<T>(s: seq<T>, names: set<T>) {
    forall x :: x in s ==> x in names
  }

  // The transitive descendants of `root`, by a work list.
  method CollectDownstream(t: Tree, root: Name, children: map<Name, seq<Name>>) returns (inSet: set<Name>)
    requires ChildrenOf(t, t.Keys, children)
    ensures inSet == Downstream(t, root)
  {
    inSet := {root};
    var stack := Listed(children, root);
    ghost var names := Downstream(t, root);
    DownstreamMember(t, root, root);
    ReachesSelf(t, root);
    ChildrenAreDownstream(t, root, root, children);
    while stack != []
      invariant root in inSet && inSet <= names && AllIn(stack, names)
      invariant Pending(children, inSet, stack)
      decreases names - inSet, |stack|
    {
      var node := stack[|stack| - 1];
      PopStack(children, inSet, stack, names);
      stack := stack[..|stack| - 1];
      if node in inSet {
        continue;
      }
      ChildrenAreDownstream(t, root, node, children);
      PushChildren(children, inSet, stack, node, names);
      inSet := inSet + {node};
      stack := stack + Listed(children, node);
    }
    ClosedIsDownstream(t, root, inSet, children);
  }

  lemma PopStack(children: map<Name, seq<Name>>, inSet: set<Name>, stack: seq<Name>, names: set<Name>)
    requires stack != [] && AllIn(stack, names) && Pending(children, inSet, stack)
    ensures stack[|stack| - 1] in names && AllIn(stack[..|stack| - 1], names)
    ensures stack[|stack| - 1] in inSet ==> Pending(children, inSet, stack[..|stack| - 1])
    ensures forall n, c :: n in inSet && c in Listed(children, n) ==>
              c in inSet || c == stack[|stack| - 1] || c in stack[..|stack| - 1]
  {
  }

  lemma PushChildren(children: map<Name, seq<Name>>, inSet: set<Name>, stack: seq<Name>, node: Name, names: set<Name>)
    requires AllIn(stack, names) && AllIn(Listed(children, node), names)
    requires forall n, c :: n in inSet && c in Listed(children, n) ==> c in inSet || c == node || c in stack
    ensures AllIn(stack + Listed(children, node), names)
    ensures Pending(children, inSet + {node}, stack + Listed(children, node))
  {
  }

  lemma ChildrenAreDownstream(t: Tree, root: Name, n: Name, children: map<Name, seq<Name>>)
    requires ChildrenOf(t, t.Keys, children) && n in Downstream(t, root)
    ensures AllIn(Listed(children, n), Downstream(t, root))
  {
    forall c | c in Listed(children, n)
      ensures c in Downstream(t, root)
    {
      ReachesParent(t, c, n, root);
    }
  }

  lemma {:induction false} ClosedContains(t: Tree, root: Name, inSet: set<Name>, children: map<Name, seq<Name>>,
                                          n: Name, w: seq<Name>)
    requires ChildrenOf(t, t.Keys, children) && root in inSet && Pending(children, inSet, [])
    requires Walk(t, w, n, root)
    ensures n in inSet
    decreases |w|
  {
    if |w| > 1 {
      WalkTail(t, w, n, root);
      ClosedContains(t, root, inSet, children, w[1], w[1..]);
      assert n in Listed(children, w[1]);
    }
  }

  lemma ClosedIsDownstream(t: Tree, root: Name, inSet: set<Name>, children: map<Name, seq<Name>>)
    requires ChildrenOf(t, t.Keys, children) && root in inSet && Pending(children, inSet, [])
    requires inSet <= Downstream(t, root)
    ensures inSet == Downstream(t, root)
  {
    forall n | n in Downstream(t, root)
      ensures n in inSet
    {
      var w :| Walk(t, w, n, root);
      ClosedContains(t, root, inSet, children, n, w);
    }
  }

  // What is left to emit, each name with those of its parents that are left too.
  ghost predicate Remaining(t: Tree, names: set<Name>, remaining: map<Name, set<Name>>) {
    remaining.Keys == names && forall n :: n in names ==> remaining[n] == ParentsIn(t, n, names)
  }

  // The topological sort: rounds of ready names, then whatever a cycle holds up.
  method SortTopologically(t: Tree, inSet: set<Name>) returns (ordered: seq<Name>)
    ensures ordered == Rounds(t, inSet)
  {
    var remaining := map n | n in inSet :: ParentsIn(t, n, inSet);
    ordered := [];
    assert remaining.Keys == inSet;
    NothingConcat(Rounds(t, inSet));
    while remaining != map[]
      invariant Remaining(t, remaining.Keys, remaining)
      invariant ordered + Rounds(t, remaining.Keys) == Rounds(t, inSet)
      decreases remaining.Keys
    {
      var readySet := set n | n in remaining && remaining[n] == {};
      ReadyIsComputed(t, remaining.Keys, remaining);
      var ready := Sorted(readySet);
      if ready == [] {
        StuckEnds(t, ordered, remaining.Keys, Rounds(t, inSet));
        ordered := ordered + Sorted(remaining.Keys);
        return;
      }
      ordered, remaining := EmitRound(t, ordered, ready, remaining);
    }
    NothingLeft(t, ordered, remaining.Keys, Rounds(t, inSet));
  }

  lemma StuckEnds(t: Tree, emitted: seq<Name>, names: set<Name>, all: seq<Name>)
    requires Sorted(Ready(t, names)) == [] && emitted + Rounds(t, names) == all
    ensures emitted + Sorted(names) == all
  {
  }

  lemma NothingLeft(t: Tree, emitted: seq<Name>, names: set<Name>, all: seq<Name>)
    requires names == {} && emitted + Rounds(t, names) == all
    ensures emitted == all
  {
  }

  // Emits the names that are ready, striking each from everyone's parents.
  method EmitRound(t: Tree, emitted: seq<Name>, ready: seq<Name>, waiting: map<Name, set<Name>>)
    returns (ordered: seq<Name>, remaining: map<Name, set<Name>>)
    requires Remaining(t, waiting.Keys, waiting) && ready == Sorted(Ready(t, waiting.Keys)) && ready != []
    ensures remaining.Keys < waiting.Keys && Remaining(t, remaining.Keys, remaining)
    ensures ordered + Rounds(t, remaining.Keys) == emitted + Rounds(t, waiting.Keys)
  {
    ordered, remaining := emitted, waiting;
    RoundStarts(t, waiting.Keys, emitted, ready, remaining);
    for i := 0 to |ready|
      invariant InRound(t, waiting.Keys, emitted, ready[..i], ordered, remaining)
    {
      var node := ready[i];
      RoundContinues(t, waiting.Keys, emitted, ready, i, ordered, remaining);
      ordered := ordered + [node];
      remaining := map n | n in remaining && n != node :: remaining[n] - {node};
    }
    TakeAll(ready);
    RoundDone(t, waiting.Keys, emitted, ready, ordered, remaining);
  }

  // Within a round, `done` has been emitted and struck from everyone's parents.
  ghost predicate InRound(t: Tree, names: set<Name>, emitted: seq<Name>, done: seq<Name>,
                          ordered: seq<Name>, remaining: map<Name, set<Name>>)
  {
    && ordered == emitted + done
    && remaining.Keys == names - Elements(done)
    && forall n :: n in remaining ==> remaining[n] == ParentsIn(t, n, names) - Elements(done)
  }

  lemma RoundStarts(t: Tree, names: set<Name>, emitted: seq<Name>, ready: seq<Name>, remaining: map<Name, set<Name>>)
    requires Remaining(t, names, remaining)
    ensures InRound(t, names, emitted, ready[..0], emitted, remaining)
  {
  }

  lemma RoundContinues(t: Tree, names: set<Name>, emitted: seq<Name>, ready: seq<Name>, i: nat,
                       ordered: seq<Name>, remaining: map<Name, set<Name>>)
    requires i < |ready| && InRound(t, names, emitted, ready[..i], ordered, remaining)
    ensures InRound(t, names, emitted, ready[..i + 1], ordered + [ready[i]],
                    map n | n in remaining && n != ready[i] :: remaining[n] - {ready[i]})
  {
  }

  lemma ReadyIsComputed(t: Tree, names: set<Name>, remaining: map<Name, set<Name>>)
    requires Remaining(t, names, remaining)
    ensures (set n | n in remaining && remaining[n] == {}) == Ready(t, names)
  {
  }

  lemma RoundShrinks(t: Tree, names: set<Name>, emitted: seq<Name>, ready: seq<Name>,
                     ordered: seq<Name>, remaining: map<Name, set<Name>>)
    requires ready == Sorted(Ready(t, names)) && ready != []
    requires InRound(t, names, emitted, ready, ordered, remaining)
    ensures remaining.Keys == names - Ready(t, names) && remaining.Keys < names
    ensures Remaining(t, remaining.Keys, remaining)
  {
    assert ready[0] in ready;
    assert Elements(ready) == Ready(t, names);
  }

  lemma RoundDone(t: Tree, names: set<Name>, emitted: seq<Name>, ready: seq<Name>,
                  ordered: seq<Name>, remaining: map<Name, set<Name>>)
    requires ready == Sorted(Ready(t, names)) && ready != []
    requires InRound(t, names, emitted, ready, ordered, remaining)
    ensures remaining.Keys < names && Remaining(t, remaining.Keys, remaining)
    ensures ordered + Rounds(t, remaining.Keys) == emitted + Rounds(t, names)
  {
    RoundShrinks(t, names, emitted, ready, ordered, remaining);
    assert Rounds(t, names) == ready + Rounds(t, names - Ready(t, names));
    ConcatAssociative(emitted, ready, Rounds(t, remaining.Keys));
  }

  // The builds a change of `root` triggers; just `root` where there is no profiles
  // directory.
  method ComputeBuildCascade(profiles: Option<Tree>, root: Name) returns (order: seq<Name>)
    ensures profiles.None? ==> order == [root]
    ensures profiles.Some? ==> order == CascadeOrder(profiles.value, root)
  {
    if profiles.None? {
      return [root];
    }
    var children := ReadChildren(profiles.value);
    var inSet := CollectDownstream(profiles.value, root, children);
    order := SortTopologically(profiles.value, inSet);
  }
}
