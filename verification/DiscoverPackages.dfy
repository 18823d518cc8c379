/** Breadth-first discovery of the packages below a root.

    A listing is the order in which a queue visits a package graph: the root, then the
    subpackages of every listed package in turn.  Discovery accepts exactly the graphs
    in which each reachable package is reached once. */
module DiscoverPackages {
  import opened Wrappers
  import opened PackageGraph
  import opened Sequences
  import opened SiblingGroups

  /** The state of the queue loop.  The first `n` packages of `all` have been taken, the
      rest are queued; the subpackages of the `k`-th taken package sit, in listing
      order, at `first[k]` up to `first[k + 1]`, and it was queued before it was taken. */
  ghost predicate Queued(w: World, root: Path, all: seq<Path>, n: nat, first: seq<nat>) {
    && n <= |all| && all != [] && all[0] == root
    && |first| == n + 1 && first[0] == 1 && first[n] == |all|
    && (forall k :: 0 <= k < n ==> Siblings(w, all, first, k))
    && Distinct(all[..n])
  }

  ghost predicate Siblings(w: World, all: seq<Path>, first: seq<nat>, k: nat)
    requires k < |all| && k + 1 < |first|
  {
    && Group(first, |all|, k)
    && Children(w, all[k]) == all[first[k]..first[k + 1]]
  }

  /** `order` is the complete, duplicate-free breadth-first listing from `root`, and
      `first` the index of its sibling groups. */
  ghost predicate Listing(w: World, root: Path, order: seq<Path>, first: seq<nat>) {
    Queued(w, root, order, |order|, first) && Distinct(order)
  }

  /** Every package reachable from `root` is reached once: no subpackage listing names
      the root, and no package is named twice, by two listings or by one. */
  ghost predicate TreeShaped(w: World, root: Path) {
    && (forall p, i :: Reaches(w, root, p) && 0 <= i < |Children(w, p)| ==> Children(w, p)[i] != root)
    && (forall p, q, i, j |
          && Reaches(w, root, p) && Reaches(w, root, q)
          && 0 <= i < |Children(w, p)| && 0 <= j < |Children(w, q)|
          && Children(w, p)[i] == Children(w, q)[j]
          :: p == q && i == j)
  }

  // ---------------------------------------------------------------- positions in the queue

  lemma QueuedInGroups(w: World, root: Path, all: seq<Path>, n: nat, first: seq<nat>)
    requires Queued(w, root, all, n, first)
    ensures Groups(first, n, |all|)
  {
    forall k | 0 <= k < n ensures Group(first, |all|, k) {
      assert Siblings(w, all, first, k);
    }
  }

  /** The `i`-th subpackage of the `k`-th package sits `i` places after `first[k]`. */
  lemma ChildAt(w: World, root: Path, all: seq<Path>, n: nat, first: seq<nat>, k: nat, i: nat)
    requires Queued(w, root, all, n, first) && k < n && i < |Children(w, all[k])|
    ensures k < first[k] + i < first[k + 1] <= |all| && all[first[k] + i] == Children(w, all[k])[i]
  {
    assert Siblings(w, all, first, k);
  }

  /** Every queued package other than the root was queued by one taken package. */
  lemma ParentOf(w: World, root: Path, all: seq<Path>, n: nat, first: seq<nat>, t: nat) returns (k: nat)
    requires Queued(w, root, all, n, first) && 0 < t < |all|
    ensures k < n && k < t && first[k] <= t < first[k + 1]
    ensures t - first[k] < |Children(w, all[k])| && Children(w, all[k])[t - first[k]] == all[t]
    ensures all[t] in Children(w, all[k])
  {
    QueuedInGroups(w, root, all, n, first);
    k := GroupOf(first, n, |all|, t, n);
    assert Siblings(w, all, first, k);
    assert all[first[k]..first[k + 1]][t - first[k]] == all[t];
  }

  lemma {:induction false} QueuedIsReachable(w: World, root: Path, all: seq<Path>, n: nat, first: seq<nat>, t: nat)
    requires Queued(w, root, all, n, first) && t < |all|
    ensures Reaches(w, root, all[t])
    decreases t
  {
    if t == 0 {
      ReachesSelf(w, root);
    } else {
      var k := ParentOf(w, root, all, n, first, t);
      QueuedIsReachable(w, root, all, n, first, k);
      ReachesChild(w, root, all[k], all[t]);
    }
  }

  /** A package queued twice, where the taken ones are distinct, refutes tree shape. */
  lemma RepeatIsNoTree(w: World, root: Path, all: seq<Path>, n: nat, first: seq<nat>, s: nat, t: nat)
    requires Queued(w, root, all, n, first) && s < t < |all| && all[s] == all[t]
    ensures !TreeShaped(w, root)
  {
    var l := ParentOf(w, root, all, n, first, t);
    QueuedIsReachable(w, root, all, n, first, l);
    if s > 0 {
      var k := ParentOf(w, root, all, n, first, s);
      QueuedIsReachable(w, root, all, n, first, k);
      assert k != l ==> all[..n][k] != all[..n][l];
      NoSharedChild(w, root, all[k], s - first[k], all[l], t - first[l]);
    }
  }

  lemma NoSharedChild(w: World, root: Path, p: Path, i: nat, q: Path, j: nat)
    requires Reaches(w, root, p) && Reaches(w, root, q)
    requires i < |Children(w, p)| && j < |Children(w, q)|
    requires Children(w, p)[i] == Children(w, q)[j] && (p != q || i != j)
    ensures !TreeShaped(w, root)
  {
  }

  // ---------------------------------------------------------------- what a listing lists

  /** A listing is complete: it contains every package reachable from the root. */
  lemma ListingComplete(w: World, root: Path, order: seq<Path>, first: seq<nat>, q: Path)
    requires Listing(w, root, order, first)
    ensures q in order <==> Reaches(w, root, q)
  {
    if q in order {
      var t :| 0 <= t < |order| && order[t] == q;
      QueuedIsReachable(w, root, order, |order|, first, t);
    } else if Reaches(w, root, q) {
      var listed := set p | p in order;
      forall p, c | p in listed && c in Children(w, p) ensures c in listed {
        var k :| 0 <= k < |order| && order[k] == p;
        var i :| 0 <= i < |Children(w, p)| && Children(w, p)[i] == c;
        ChildAt(w, root, order, |order|, first, k, i);
      }
      ReachStaysInside(w, listed, root, q);
    }
  }

  /** The position of a reachable package's `i`-th subpackage, after the package itself. */
  lemma PositionOfChild(w: World, root: Path, order: seq<Path>, first: seq<nat>, p: Path, i: nat)
    returns (k: nat, t: nat)
    requires Listing(w, root, order, first) && Reaches(w, root, p) && i < |Children(w, p)|
    ensures k < |order| && order[k] == p && k < t < |order| && t == first[k] + i < first[k + 1]
    ensures order[t] == Children(w, p)[i]
  {
    ListingComplete(w, root, order, first, p);
    k :| 0 <= k < |order| && order[k] == p;
    ChildAt(w, root, order, |order|, first, k, i);
    t := first[k] + i;
  }

  /** A listing exists only where every reachable package is reached once. */
  lemma ListingIsTree(w: World, root: Path, order: seq<Path>, first: seq<nat>)
    requires Listing(w, root, order, first)
    ensures TreeShaped(w, root)
  {
    forall p, i | Reaches(w, root, p) && 0 <= i < |Children(w, p)|
      ensures Children(w, p)[i] != root
    {
      var k, t := PositionOfChild(w, root, order, first, p, i);
    }
    forall p, q, i, j |
      && Reaches(w, root, p) && Reaches(w, root, q)
      && 0 <= i < |Children(w, p)| && 0 <= j < |Children(w, q)|
      && Children(w, p)[i] == Children(w, q)[j]
      ensures p == q && i == j
    {
      var k, s := PositionOfChild(w, root, order, first, p, i);
      var l, t := PositionOfChild(w, root, order, first, q, j);
      QueuedInGroups(w, root, order, |order|, first);
      OneGroup(first, |order|, |order|, k, l, s);
    }
  }

  /** Along a walk the positions in a listing only grow. */
  lemma {:induction false} WalkAscends(w: World, root: Path, order: seq<Path>, first: seq<nat>, walk: seq<Path>, s: nat, t: nat)
    requires Listing(w, root, order, first) && s < |order| && t < |order|
    requires WalkFromTo(w, walk, order[s], order[t])
    ensures s <= t
    decreases |walk|
  {
    if |walk| > 1 {
      QueuedIsReachable(w, root, order, |order|, first, s);
      assert walk[1] in Children(w, walk[0]);
      var i :| 0 <= i < |Children(w, order[s])| && Children(w, order[s])[i] == walk[1];
      var k, u := PositionOfChild(w, root, order, first, order[s], i);
      WalkAscends(w, root, order, first, walk[1..], u, t);
    }
  }

  /** Packages that can be listed have no cycle: whatever breadth-first rendering accepts
      has none for depth-first rendering to find. */
  lemma ListingHasNoCycle(w: World, root: Path, order: seq<Path>, first: seq<nat>)
    requires Listing(w, root, order, first)
    ensures !CycleBelow(w, root)
  {
    if CycleBelow(w, root) {
      var q, c :| Reaches(w, root, q) && c in Children(w, q) && Reaches(w, c, q);
      var i :| 0 <= i < |Children(w, q)| && Children(w, q)[i] == c;
      var k, t := PositionOfChild(w, root, order, first, q, i);
      var walk :| WalkFromTo(w, walk, c, q);
      WalkAscends(w, root, order, first, walk, t, k);
    }
  }

  /** Packages are listed in order of depth: of two listed packages, no walk from the
      root to the earlier one is longer than a walk to the later one. */
  lemma {:induction false} DepthNeverDecreases(w: World, root: Path, order: seq<Path>, first: seq<nat>,
                                               s: nat, t: nat, toS: seq<Path>, toT: seq<Path>)
    requires Listing(w, root, order, first) && s <= t < |order|
    requires WalkFromTo(w, toS, root, order[s]) && WalkFromTo(w, toT, root, order[t])
    ensures |toS| <= |toT|
    decreases |toS|
  {
    if |toS| > 1 {
      var k := LastHop(w, root, order, first, s, toS);
      var l := LastHop(w, root, order, first, t, toT);
      if l < k {
        QueuedInGroups(w, root, order, |order|, first);
        GroupsAscend(first, |order|, |order|, l + 1, k);
      }
      DepthNeverDecreases(w, root, order, first, k, l, toS[..|toS| - 1], toT[..|toT| - 1]);
    }
  }

  lemma LastHop(w: World, root: Path, order: seq<Path>, first: seq<nat>, t: nat, walk: seq<Path>) returns (k: nat)
    requires Listing(w, root, order, first) && t < |order| && WalkFromTo(w, walk, root, order[t])
    requires |walk| > 1 || t > 0
    ensures |walk| > 1 && k < t && first[k] <= t < first[k + 1]
    ensures WalkFromTo(w, walk[..|walk| - 1], root, order[k])
  {
    var n := |walk| - 1;
    var p := walk[n - 1];
    assert WalkFromTo(w, walk[..n], root, p);
    var i :| 0 <= i < |Children(w, p)| && Children(w, p)[i] == order[t];
    var s;
    k, s := PositionOfChild(w, root, order, first, p, i);
  }

  // ---------------------------------------------------------------- nodes

  function Paths(nodes: seq<PkgNode>): (ps: seq<Path>)
    ensures |ps| == |nodes| && forall i :: 0 <= i < |nodes| ==> ps[i] == nodes[i].path
  {
    seq(|nodes|, i requires 0 <= i < |nodes| => nodes[i].path)
  }

  /** Each taken package's subpackage nodes are a slice of the node list. */
  ghost predicate KidsAreSlices(all: seq<PkgNode>, n: nat, first: seq<nat>, kids: map<Path, seq<PkgNode>>)
    requires n <= |all| && |first| == n + 1
  {
    forall k :: 0 <= k < n ==> KidsAt(all, first, kids, k)
  }

  ghost predicate KidsAt(all: seq<PkgNode>, first: seq<nat>, kids: map<Path, seq<PkgNode>>, k: nat)
    requires k < |all| && k + 1 < |first|
  {
    && all[k].path in kids && first[k] <= first[k + 1] <= |all|
    && kids[all[k].path] == all[first[k]..first[k + 1]]
  }

  /** The queue loop's state at the level of nodes. */
  ghost predicate Frontier(w: World, root: Path, universe: set<Path>,
                           all: seq<PkgNode>, n: nat, first: seq<nat>, kids: map<Path, seq<PkgNode>>) {
    && Queued(w, root, Paths(all), n, first)
    && Distinct(all)
    && (forall i :: 0 <= i < |all| ==> all[i].path in universe)
    && KidsAreSlices(all, n, first, kids)
  }

  /** Exactly the visited nodes are filed; they are Dry and hold local resources. */
  ghost predicate Filed(hctx: HydrationContext, visited: seq<PkgNode>)
    reads hctx, visited
  {
    && (forall p :: p in hctx.pkgs ==> hctx.pkgs[p] in visited && hctx.pkgs[p].path == p)
    && (forall node :: node in visited ==> node.path in hctx.pkgs)
    && (forall node :: node in visited ==> node.state == Dry && hctx.w.local(node.path) == Ok(node.resources))
  }

  lemma TakeNext(w: World, root: Path, all: seq<Path>, n: nat, first: seq<nat>)
    requires Queued(w, root, all, n, first) && n < |all| && all[n] !in all[..n]
    ensures Queued(w, root, all + Children(w, all[n]), n + 1, first + [|all| + |Children(w, all[n])|])
  {
    var all', first' := all + Children(w, all[n]), first + [|all| + |Children(w, all[n])|];
    forall k | 0 <= k < n + 1 ensures Siblings(w, all', first', k) {
      if k < n {
        assert Siblings(w, all, first, k);
        assert all'[first[k]..first[k + 1]] == all[first[k]..first[k + 1]];
      }
    }
    assert all'[..n + 1] == all[..n] + [all[n]];
  }

  /** The slices already recorded stay, and the next one is the nodes just queued. */
  lemma KidsGrow(all: seq<PkgNode>, n: nat, first: seq<nat>, kids: map<Path, seq<PkgNode>>, newNodes: seq<PkgNode>)
    requires n < |all| && |first| == n + 1 && first[n] == |all|
    requires KidsAreSlices(all, n, first, kids)
    requires forall i :: 0 <= i < n ==> all[i].path != all[n].path
    ensures KidsAreSlices(all + newNodes, n + 1, first + [|all| + |newNodes|], kids[all[n].path := newNodes])
  {
    var all', first', kids' := all + newNodes, first + [|all| + |newNodes|], kids[all[n].path := newNodes];
    forall k | 0 <= k < n + 1 ensures KidsAt(all', first', kids', k) {
      if k < n {
        assert KidsAt(all, first, kids, k);
        assert all'[first[k]..first[k + 1]] == all[first[k]..first[k + 1]];
      }
    }
  }

  lemma FrontierGrows(w: World, root: Path, universe: set<Path>, all: seq<PkgNode>, n: nat, first: seq<nat>,
                      kids: map<Path, seq<PkgNode>>, newNodes: seq<PkgNode>)
    requires Closed(w, universe) && Frontier(w, root, universe, all, n, first, kids)
    requires n < |all| && all[n].path !in Paths(all[..n])
    requires Paths(newNodes) == Children(w, all[n].path)
    requires Distinct(newNodes) && forall x :: x in newNodes ==> x !in all
    ensures Frontier(w, root, universe, all + newNodes, n + 1, first + [|all| + |newNodes|],
                     kids[all[n].path := newNodes])
  {
    assert Paths(all)[..n] == Paths(all[..n]);
    TakeNext(w, root, Paths(all), n, first);
    forall i | 0 <= i < n ensures all[i].path != all[n].path {
      assert Paths(all[..n])[i] == all[i].path;
    }
    KidsGrow(all, n, first, kids, newNodes);
    assert Paths(all + newNodes) == Paths(all) + Paths(newNodes);
    DistinctAppend(all, newNodes);
    forall i | 0 <= i < |newNodes| ensures newNodes[i].path in universe {
      assert Paths(newNodes)[i] in Children(w, all[n].path);
    }
  }

  lemma VisitedAgain(w: World, root: Path, universe: set<Path>, all: seq<PkgNode>, n: nat, first: seq<nat>,
                     kids: map<Path, seq<PkgNode>>)
    requires Frontier(w, root, universe, all, n, first, kids)
    requires n < |all| && all[n].path in Paths(all[..n])
    ensures !TreeShaped(w, root)
  {
    var s :| 0 <= s < n && Paths(all[..n])[s] == all[n].path;
    RepeatIsNoTree(w, root, Paths(all), n, first, s, n);
  }

  lemma PathsOf(nodes: seq<PkgNode>, p: Path)
    ensures p in Paths(nodes) <==> exists node :: node in nodes && node.path == p
  {
    if node :| node in nodes && node.path == p {
      var i :| 0 <= i < |nodes| && nodes[i] == node;
      assert Paths(nodes)[i] == p;
    }
    if p in Paths(nodes) {
      var i :| 0 <= i < |nodes| && Paths(nodes)[i] == p;
      assert nodes[i] in nodes;
    }
  }

  lemma Requeue<T>(taken: seq<T>, queue: seq<T>, added: seq<T>)
    requires queue != []
    ensures (taken + [queue[0]]) + (queue[1..] + added) == (taken + queue) + added
  {
  }

  lemma NextInLine<T>(taken: seq<T>, queue: seq<T>)
    requires queue != [] && Distinct(taken + queue)
    ensures (taken + queue)[|taken|] == queue[0] && queue[0] in taken + queue
    ensures (taken + queue)[..|taken|] == taken && queue[0] !in taken
  {
    var all := taken + queue;
    assert forall i :: 0 <= i < |taken| ==> all[i] == taken[i];
  }

  /** A package may be visited when it is new or already Wet. */
  method ValidatePackageState(current: PkgNode, hctx: HydrationContext) returns (err: Option<Error>)
    modifies hctx`pkgs, current`state
    ensures current.path !in old(hctx.pkgs) ==>
              err == None && current.state == Dry && hctx.pkgs == old(hctx.pkgs)[current.path := current]
    ensures current.path in old(hctx.pkgs) ==>
              && hctx.pkgs == old(hctx.pkgs) && current.state == old(current.state)
              && err == match old(hctx.pkgs[current.path].state)
                        case Hydrating => Some(CycleDetected)
                        case Wet => None
                        case Dry => Some(InvalidState)
  {
    if current.path in hctx.pkgs {
      match hctx.pkgs[current.path].state
      case Hydrating => return Some(CycleDetected);
      case Wet => return None;
      case Dry => return Some(InvalidState);
    }
    current.state := Dry;
    hctx.pkgs := hctx.pkgs[current.path := current];
    err := None;
  }

  /** Nodes for the direct subpackages of `current`, in listing order. */
  method ProcessSubpackages(current: PkgNode, w: World) returns (newNodes: seq<PkgNode>, err: Option<Error>)
    ensures err.None? ==>
              && Paths(newNodes) == Children(w, current.path)
              && Distinct(newNodes) && forall n :: n in newNodes ==> fresh(n)
    ensures err.Some? ==> err.value.ReadFailed?
    ensures err.Some? ==>
              w.subpackages(current.path).Err? || exists c :: c in Children(w, current.path) && w.openable(c).Err?
  {
    newNodes, err := [], None;
    var subs := w.subpackages(current.path);
    if subs.Err? {
      return [], Some(ReadFailed(subs.error));
    }
    for i := 0 to |subs.value|
      invariant Paths(newNodes) == subs.value[..i] && err == None
      invariant Distinct(newNodes) && forall n :: n in newNodes ==> fresh(n)
    {
      var kptfile := w.openable(subs.value[i]);
      if kptfile.Err? {
        assert subs.value[i] in Children(w, current.path);
        return [], Some(ReadFailed(kptfile.error));
      }
      var node := new PkgNode(subs.value[i]);
      newNodes := newNodes + [node];
    }
  }

  /** Some read that discovery depends on fails. */
  ghost predicate SomeReadFails(w: World, root: Path) {
    exists p :: Reaches(w, root, p) && (w.local(p).Err? || w.subpackages(p).Err? || w.openable(p).Err?)
  }

  /** Why discovery may stop: the packages are no tree, or a read fails. */
  ghost predicate Explained(w: World, root: Path, e: Error) {
    (e == InvalidState && !TreeShaped(w, root)) || (e.ReadFailed? && SomeReadFails(w, root))
  }

  lemma KidsReachable(w: World, root: Path, p: Path)
    requires Reaches(w, root, p)
    ensures forall c :: c in Children(w, p) ==> Reaches(w, root, c)
  {
    forall c | c in Children(w, p) ensures Reaches(w, root, c) {
      ReachesChild(w, root, p, c);
    }
  }

  /** Check a package, load it, list its subpackages. */
  method VisitPackage(current: PkgNode, hctx: HydrationContext, ghost root: Path)
    returns (newNodes: seq<PkgNode>, err: Option<Error>)
    requires forall p :: p in hctx.pkgs ==> hctx.pkgs[p].state == Dry
    requires Reaches(hctx.w, root, current.path)
    modifies hctx`pkgs, current
    ensures err == Some(InvalidState) <==> current.path in old(hctx.pkgs)
    ensures err.Some? && err != Some(InvalidState) ==> err.value.ReadFailed? && SomeReadFails(hctx.w, root)
    ensures err.None? ==>
              && hctx.pkgs == old(hctx.pkgs)[current.path := current]
              && current.state == Dry && hctx.w.local(current.path) == Ok(current.resources)
              && Paths(newNodes) == Children(hctx.w, current.path)
              && Distinct(newNodes) && forall n :: n in newNodes ==> fresh(n)
  {
    newNodes := [];
    err := ValidatePackageState(current, hctx);
    if err.Some? {
      return;
    }
    KidsReachable(hctx.w, root, current.path);
    var own := hctx.w.local(current.path);
    if own.Err? {
      err := Some(ReadFailed(own.error));
      return;
    }
    current.resources := own.value;
    newNodes, err := ProcessSubpackages(current, hctx.w);
  }

  /** One turn of the queue. */
  method Turn(hctx: HydrationContext, current: PkgNode, ghost root: Path, ghost universe: set<Path>,
              ghost all: seq<PkgNode>, ghost n: nat, ghost first: seq<nat>, ghost kids: map<Path, seq<PkgNode>>)
    returns (newNodes: seq<PkgNode>, err: Option<Error>)
    requires Closed(hctx.w, universe) && Frontier(hctx.w, root, universe, all, n, first, kids)
    requires n < |all| && all[n] == current && current !in all[..n] && Filed(hctx, all[..n])
    modifies hctx`pkgs, current
    ensures err.Some? ==> Explained(hctx.w, root, err.value)
    ensures err.None? ==>
              && (forall x :: x in newNodes ==> fresh(x))
              && hctx.pkgs == old(hctx.pkgs)[current.path := current] && current.path !in old(hctx.pkgs)
              && Filed(hctx, all[..n] + [current])
              && Frontier(hctx.w, root, universe, all + newNodes, n + 1, first + [|all| + |newNodes|],
                          kids[current.path := newNodes])
  {
    hide Queued, KidsAreSlices, TreeShaped, SomeReadFails, Children;
    QueuedIsReachable(hctx.w, root, Paths(all), n, first, n);
    newNodes, err := VisitPackage(current, hctx, root);
    PathsOf(all[..n], current.path);
    if err == Some(InvalidState) {
      VisitedAgain(hctx.w, root, universe, all, n, first, kids);
    } else if err.None? {
      FrontierGrows(hctx.w, root, universe, all, n, first, kids, newNodes);
    }
  }

  /** The node list of a successful discovery: a complete listing of the packages, one
      Dry node each, holding its local resources; `first` locates the subpackages. */
  ghost predicate Discovered(w: World, root: Path, nodes: seq<PkgNode>, first: seq<nat>, kids: map<Path, seq<PkgNode>>)
    reads nodes
  {
    && Listing(w, root, Paths(nodes), first) && Distinct(nodes)
    && (forall i :: 0 <= i < |nodes| ==> nodes[i].state == Dry && w.local(nodes[i].path) == Ok(nodes[i].resources))
    && KidsAreSlices(nodes, |nodes|, first, kids)
  }

  /** Between two turns: `nodes` have been taken and filed, `queue` is waiting. */
  ghost predicate Underway(root: PkgNode, hctx: HydrationContext, universe: set<Path>,
                           nodes: seq<PkgNode>, queue: seq<PkgNode>, first: seq<nat>, kids: map<Path, seq<PkgNode>>)
    reads hctx, nodes
  {
    && Closed(hctx.w, universe)
    && Frontier(hctx.w, root.path, universe, nodes + queue, |nodes|, first, kids)
    && Filed(hctx, nodes) && (nodes + queue)[0] == root
  }

  lemma StillUnderway(root: PkgNode, hctx: HydrationContext, universe: set<Path>, nodes: seq<PkgNode>, queue: seq<PkgNode>,
                      newNodes: seq<PkgNode>, first: seq<nat>, kids: map<Path, seq<PkgNode>>)
    requires queue != [] && (nodes + queue)[0] == root && Closed(hctx.w, universe)
    requires Frontier(hctx.w, root.path, universe, (nodes + queue) + newNodes, |nodes| + 1, first, kids)
    requires Filed(hctx, nodes + [queue[0]])
    ensures Underway(root, hctx, universe, nodes + [queue[0]], queue[1..] + newNodes, first, kids)
  {
    Requeue(nodes, queue, newNodes);
    assert ((nodes + queue) + newNodes)[0] == (nodes + queue)[0];
  }

  /** Take the first package off the queue. */
  method TakeFirst(root: PkgNode, hctx: HydrationContext, nodes: seq<PkgNode>, queue: seq<PkgNode>, kids: map<Path, seq<PkgNode>>,
                   ghost universe: set<Path>, ghost first: seq<nat>)
    returns (newNodes: seq<PkgNode>, err: Option<Error>, ghost first': seq<nat>)
    requires queue != [] && Underway(root, hctx, universe, nodes, queue, first, kids)
    modifies hctx`pkgs, queue[0]
    ensures err.Some? ==> Explained(hctx.w, root.path, err.value)
    ensures err.None? ==>
              && Underway(root, hctx, universe, nodes + [queue[0]], queue[1..] + newNodes, first',
                          kids[queue[0].path := newNodes])
              && (forall x :: x in newNodes ==> fresh(x))
              && queue[0].path in hctx.pkgs && queue[0].path !in old(hctx.pkgs)
              && old(hctx.pkgs.Keys) <= hctx.pkgs.Keys && queue[0].path in universe
  {
    hide Queued, KidsAreSlices, Explained, TreeShaped, Distinct;
    NextInLine(nodes, queue);
    ghost var all := nodes + queue;
    newNodes, err := Turn(hctx, queue[0], root.path, universe, all, |nodes|, first, kids);
    first' := first + [|all| + |newNodes|];
    if err.None? {
      StillUnderway(root, hctx, universe, nodes, queue, newNodes, first', kids[queue[0].path := newNodes]);
    }
  }

  /** The queue, until it is empty or something fails. */
  method DrainQueue(root: PkgNode, hctx: HydrationContext, ghost universe: set<Path>)
    returns (nodes: seq<PkgNode>, kids: map<Path, seq<PkgNode>>, err: Option<Error>, ghost first: seq<nat>)
    requires Closed(hctx.w, universe) && root.path in universe && hctx.pkgs == map[]
    modifies hctx`pkgs, root
    ensures err.None? ==> Underway(root, hctx, universe, nodes, [], first, kids)
    ensures err.None? ==> forall n :: n in nodes ==> n == root || fresh(n)
    ensures err.Some? ==> Explained(hctx.w, root.path, err.value)
  {
    var queue := [root];
    nodes, kids, err := [], map[], None;
    first := [1];
    Start(root, hctx, universe);
    hide *;
    while queue != []
      invariant Underway(root, hctx, universe, nodes, queue, first, kids) && err == None
      invariant forall x :: x in nodes || x in queue ==> x == root || fresh(x)
      decreases universe - hctx.pkgs.Keys
    {
      var current, newNodes := queue[0], [];
      assert current in queue;
      newNodes, err, first := TakeFirst(root, hctx, nodes, queue, kids, universe, first);
      if err.Some? {
        return [], map[], err, [];
      }
      assert forall x :: x in queue[1..] + newNodes ==> x in queue || x in newNodes;
      nodes := nodes + [current];
      queue := queue[1..] + newNodes;
      kids := kids[current.path := newNodes];
    }
  }

  /** Discovery always terminates.  It lists the reachable packages exactly when each is
      reached once; otherwise, unless a read failed, it reports an invalid state (also
      for a cycle: discovered packages are still Dry). */
  method DiscoverAndLoadPackages(root: PkgNode, hctx: HydrationContext, ghost universe: set<Path>)
    returns (nodes: seq<PkgNode>, kids: map<Path, seq<PkgNode>>, err: Option<Error>, ghost first: seq<nat>)
    requires Closed(hctx.w, universe) && root.path in universe && hctx.pkgs == map[]
    modifies hctx`pkgs, root
    ensures err.None? ==> Discovered(hctx.w, root.path, nodes, first, kids) && nodes[0] == root
    ensures err.None? ==> TreeShaped(hctx.w, root.path) && hctx.pkgs.Keys == set p | p in Paths(nodes)
    ensures err.None? ==> forall n :: n in nodes ==> n == root || fresh(n)
    ensures err.Some? ==> Explained(hctx.w, root.path, err.value)
    ensures !SomeReadFails(hctx.w, root.path) ==> (err.None? <==> TreeShaped(hctx.w, root.path))
    ensures CycleBelow(hctx.w, root.path) ==> err.Some?
    ensures CycleBelow(hctx.w, root.path) && !SomeReadFails(hctx.w, root.path) ==> err == Some(InvalidState)
  {
    nodes, kids, err, first := DrainQueue(root, hctx, universe);
    if err.None? {
      assert nodes + [] == nodes;
      Finish(hctx.w, root.path, universe, nodes, first, kids);
      FiledPaths(hctx, nodes);
      FiledIsDry(hctx, nodes);
    }
  }

  lemma Start(root: PkgNode, hctx: HydrationContext, universe: set<Path>)
    requires Closed(hctx.w, universe) && root.path in universe && hctx.pkgs == map[]
    ensures Underway(root, hctx, universe, [], [root], [1], map[])
  {
    assert [] + [root] == [root];
  }

  lemma Finish(w: World, root: Path, universe: set<Path>, nodes: seq<PkgNode>, first: seq<nat>, kids: map<Path, seq<PkgNode>>)
    requires Frontier(w, root, universe, nodes, |nodes|, first, kids)
    ensures Listing(w, root, Paths(nodes), first) && Distinct(nodes) && KidsAreSlices(nodes, |nodes|, first, kids)
    ensures TreeShaped(w, root) && !CycleBelow(w, root)
  {
    assert Paths(nodes)[..|nodes|] == Paths(nodes);
    ListingIsTree(w, root, Paths(nodes), first);
    ListingHasNoCycle(w, root, Paths(nodes), first);
  }

  lemma FiledIsDry(hctx: HydrationContext, nodes: seq<PkgNode>)
    requires Filed(hctx, nodes)
    ensures forall i :: 0 <= i < |nodes| ==>
              nodes[i].state == Dry && hctx.w.local(nodes[i].path) == Ok(nodes[i].resources)
  {
  }

  lemma FiledPaths(hctx: HydrationContext, nodes: seq<PkgNode>)
    requires Filed(hctx, nodes)
    ensures hctx.pkgs.Keys == set p | p in Paths(nodes)
  {
    forall p ensures p in hctx.pkgs <==> p in Paths(nodes) {
      PathsOf(nodes, p);
    }
  }
}
