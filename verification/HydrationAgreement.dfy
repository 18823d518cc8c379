/** The two hydration orders render the same resources when pipelines change nothing. */
module HydrationAgreement {
  import opened PackageGraph
  import opened Resources
  import opened DiscoverPackages
  import opened ScopedVisibility
  import opened Redistribution
  import opened Sequences
  import opened SiblingGroups
  import opened HydrateBreadthFirst
  import DepthFirst = HydrateDepthFirst

  /** Every read of a listed package succeeds, and its resources carry its path as the
      reader sets it. */
  ghost predicate Readable(w: World, order: seq<Path>) {
    && (forall i :: 0 <= i < |order| ==> w.local(order[i]).Ok? && w.subpackages(order[i]).Ok? && w.openable(order[i]).Ok?)
    && TaggedFrom(order, Locals(w, order), 0)
  }

  /** What the pipeline of the `t`-th package receives as long as nothing has been changed. */
  ghost function ReceivedAt(w: World, order: seq<Path>, first: seq<nat>, t: nat): seq<Resource>
    requires Tree(first, |order|) && t < |order|
  {
    PipelineInput(first, Locals(w, order), t)
  }

  ghost predicate SucceedsAt(w: World, order: seq<Path>, first: seq<nat>, t: nat)
    requires Tree(first, |order|) && t < |order|
  {
    w.run(order[t], ReceivedAt(w, order, first, t)).Ran?
  }

  /** Every pipeline that succeeds on what its package holds and what is below returns just
      that. */
  ghost predicate Quiet(w: World, order: seq<Path>, first: seq<nat>) {
    && Tree(first, |order|) && Readable(w, order)
    && forall t :: 0 <= t < |order| && SucceedsAt(w, order, first, t) ==>
         w.run(order[t], ReceivedAt(w, order, first, t)) == Ran(ReceivedAt(w, order, first, t))
  }

  /** The pipelines of the `k`-th package and of all below it succeed. */
  ghost predicate ScopeSucceeds(w: World, order: seq<Path>, first: seq<nat>, k: nat)
    requires Tree(first, |order|) && k < |order|
  {
    forall t :: 0 <= t < |order| && t in Scope(first, |order|, k) ==> SucceedsAt(w, order, first, t)
  }

  /** What breadth-first rendering accepts, depth-first rendering completes, unless a read
      or a pipeline fails there. */
  lemma ListedPackagesHydrate(w: World, save: bool, universe: set<Path>, root: Path, order: seq<Path>, first: seq<nat>)
    requires Closed(w, universe) && root in universe && Listing(w, root, order, first)
    requires DepthFirst.NothingBreaks(w, save, universe, root)
    ensures DepthFirst.Reference(w, save, universe, root, {}).Done?
  {
    ListingHasNoCycle(w, root, order, first);
    DepthFirst.FailsExactlyOnCycles(w, save, universe, root);
  }

  /** The scope of a package is itself and the scopes of its subpackages. */
  lemma ScopeSucceedsExactly(w: World, order: seq<Path>, first: seq<nat>, k: nat)
    requires Tree(first, |order|) && k < |order|
    ensures Group(first, |order|, k)
    ensures ScopeSucceeds(w, order, first, k) <==>
            && SucceedsAt(w, order, first, k)
            && forall j :: first[k] <= j < first[k + 1] ==> ScopeSucceeds(w, order, first, j)
  {
    var n := |order|;
    assert Group(first, n, k);
    if ScopeSucceeds(w, order, first, k) {
      forall j, t | first[k] <= j < first[k + 1] && 0 <= t < n && t in Scope(first, n, j) ensures SucceedsAt(w, order, first, t) {
        MemberOfRange(first, n, first[k], first[k + 1], j, t);
      }
      assert k in Scope(first, n, k);
    } else {
      var t :| 0 <= t < n && t in Scope(first, n, k) && !SucceedsAt(w, order, first, t);
      if t != k {
        var j := RangeMember(first, n, first[k], first[k + 1], t);
        assert !ScopeSucceeds(w, order, first, j);
      }
    }
  }

  /** Depth-first, a listed package hydrates exactly when the pipelines in its scope succeed,
      and then it yields what it sees breadth-first: its own resources and those of
      everything below it, each package before its subpackages. */
  lemma {:induction false} DepthFirstYieldsScope(w: World, save: bool, universe: set<Path>, root: Path,
                                                 order: seq<Path>, first: seq<nat>, k: nat, above: set<Path>)
    requires Closed(w, universe) && Listing(w, root, order, first) && Quiet(w, order, first)
    requires k < |order| && order[k] in universe && forall t :: k <= t < |order| ==> order[t] !in above
    ensures var r := DepthFirst.Reference(w, save, universe, order[k], above);
            && (r.Done? <==> ScopeSucceeds(w, order, first, k))
            && (r.Done? ==> r == DepthFirst.Done(ReceivedAt(w, order, first, k)))
    decreases |order| - k
  {
    hide DepthFirst.Reference, DepthFirst.ReferenceAll, Scope, ScopeOfRange, ResourcesAt, ScopeSucceeds, PipelineInput, TaggedFrom;
    var held, lo, subs := Locals(w, order), first[k], Children(w, order[k]);
    assert Siblings(w, order, first, k);
    ScopeSucceedsExactly(w, order, first, k);
    if j :| lo <= j < first[k + 1] && !ScopeSucceeds(w, order, first, j) {
      assert order[j] == subs[j - lo] && subs[j - lo] in subs;
      DepthFirstYieldsScope(w, save, universe, root, order, first, j, above + {order[k]});
      FailsWithSubpackage(w, save, universe, order[k], above, order[j]);
    } else {
      forall i | 0 <= i < |subs|
        ensures lo + i < |order| && subs[i] in universe
        ensures Yields(w, save, universe, above + {order[k]}, subs[i], first, held, lo + i)
      {
        assert subs[i] == order[lo + i] && subs[i] in subs;
        DepthFirstYieldsScope(w, save, universe, root, order, first, lo + i, above + {order[k]});
      }
      ReferenceOfYielding(w, save, universe, order, first, k, above);
    }
  }

  /** A package whose subpackages yield what they see runs its pipeline on what it sees. */
  lemma ReferenceOfYielding(w: World, save: bool, universe: set<Path>, order: seq<Path>, first: seq<nat>, k: nat, above: set<Path>)
    requires Closed(w, universe) && Tree(first, |order|) && Readable(w, order)
    requires k < |order| && order[k] in universe && order[k] !in above && Siblings(w, order, first, k)
    requires forall i :: 0 <= i < |Children(w, order[k])| ==>
               && Children(w, order[k])[i] in universe && first[k] + i < |order|
               && Yields(w, save, universe, above + {order[k]}, Children(w, order[k])[i], first, Locals(w, order), first[k] + i)
    ensures var r := DepthFirst.Reference(w, save, universe, order[k], above);
            && (r.Done? <==> SucceedsAt(w, order, first, k))
            && (r.Done? ==> r == DepthFirst.Done(w.run(order[k], ReceivedAt(w, order, first, k)).output))
  {
    hide DepthFirst.Reference, DepthFirst.ReferenceAll, Scope, ScopeOfRange, ResourcesAt, Yields;
    var held, lo, subs := Locals(w, order), first[k], Children(w, order[k]);
    GatherRange(w, save, universe, subs, |subs|, above + {order[k]}, first, held, lo, held[k]);
    assert subs[..|subs|] == subs;
    InputIsOwnAndBelow(first, held, k);
    ReferenceOfGathered(w, save, universe, order[k], above, ReceivedAt(w, order, first, k));
  }

  lemma FailsWithSubpackage(w: World, save: bool, universe: set<Path>, p: Path, above: set<Path>, c: Path)
    requires Closed(w, universe) && p in universe && c in Children(w, p)
    requires DepthFirst.Reference(w, save, universe, c, above + {p}).Failed?
    ensures DepthFirst.Reference(w, save, universe, p, above).Failed?
  {
    if DepthFirst.Reference(w, save, universe, p, above).Done? {
      DepthFirst.GatheredAll(w, save, universe, w.subpackages(p).value, above + {p}, w.local(p).value, c);
    }
  }

  lemma ReferenceOfGathered(w: World, save: bool, universe: set<Path>, p: Path, above: set<Path>, input: seq<Resource>)
    requires Closed(w, universe) && p in universe && p !in above && w.local(p).Ok? && w.subpackages(p).Ok?
    requires DepthFirst.ReferenceAll(w, save, universe, w.subpackages(p).value, above + {p}, w.local(p).value) ==
             DepthFirst.Gathered(input)
    ensures var r := DepthFirst.Reference(w, save, universe, p, above);
            && (r.Done? <==> w.run(p, input).Ran?)
            && (r.Done? ==> r == DepthFirst.Done(w.run(p, input).output))
  {
  }

  /** Depth-first, the subpackage `c` yields what the `j`-th package sees. */
  ghost predicate Yields(w: World, save: bool, universe: set<Path>, above: set<Path>, c: Path,
                         first: seq<nat>, held: seq<seq<Resource>>, j: nat)
    requires Closed(w, universe) && c in universe && Tree(first, |held|) && j < |held|
  {
    w.openable(c).Ok? && DepthFirst.Reference(w, save, universe, c, above) == DepthFirst.Done(PipelineInput(first, held, j))
  }

  /** Subpackages that each yield what they see yield, together, what their range holds. */
  lemma {:induction false} GatherRange(w: World, save: bool, universe: set<Path>, subs: seq<Path>, m: nat, above: set<Path>,
                                       first: seq<nat>, held: seq<seq<Resource>>, lo: nat, own: seq<Resource>)
    requires Closed(w, universe) && Tree(first, |held|) && m <= |subs| && lo + |subs| <= |held|
    requires forall c :: c in subs ==> c in universe
    requires forall i :: 0 <= i < |subs| ==> Yields(w, save, universe, above, subs[i], first, held, lo + i)
    ensures DepthFirst.ReferenceAll(w, save, universe, subs[..m], above, own) ==
            DepthFirst.Gathered(own + RangeResources(first, held, lo, lo + m))
    decreases m
  {
    hide *;
    if m == 0 {
      GatherNone(w, save, universe, subs, above, first, held, lo, own);
    } else {
      var before, j := own + RangeResources(first, held, lo, lo + m - 1), lo + (m - 1);
      GatherRange(w, save, universe, subs, m - 1, above, first, held, lo, own);
      Snoc(subs, m - 1);
      GatherOneMore(w, save, universe, subs[..m], above, own, before, first, held, j);
      RangeTakesInput(first, held, lo, j, own, before);
    }
  }

  lemma GatherNone(w: World, save: bool, universe: set<Path>, subs: seq<Path>, above: set<Path>,
                   first: seq<nat>, held: seq<seq<Resource>>, lo: nat, own: seq<Resource>)
    requires Closed(w, universe) && Tree(first, |held|) && lo <= |held|
    ensures DepthFirst.ReferenceAll(w, save, universe, subs[..0], above, own) ==
            DepthFirst.Gathered(own + RangeResources(first, held, lo, lo))
  {
    EmptyRange(first, held, lo, own);
  }

  lemma GatherOneMore(w: World, save: bool, universe: set<Path>, ps: seq<Path>, above: set<Path>, own: seq<Resource>,
                      before: seq<Resource>, first: seq<nat>, held: seq<seq<Resource>>, j: nat)
    requires Closed(w, universe) && ps != [] && forall c :: c in ps ==> c in universe
    requires DepthFirst.ReferenceAll(w, save, universe, ps[..|ps| - 1], above, own) == DepthFirst.Gathered(before)
    requires Tree(first, |held|) && j < |held| && Yields(w, save, universe, above, ps[|ps| - 1], first, held, j)
    ensures DepthFirst.ReferenceAll(w, save, universe, ps, above, own) ==
            DepthFirst.Gathered(before + PipelineInput(first, held, j))
  {
  }

  /** On a package tree whose pipelines change nothing, both orders succeed exactly when all
      pipelines do; then breadth-first leaves every package's resources where they were, and
      both return the same multiset of resources: all packages' local resources. */
  lemma HydrationsAgree(w: World, save: bool, universe: set<Path>, root: Path, order: seq<Path>, first: seq<nat>)
    requires Closed(w, universe) && root in universe && Listing(w, root, order, first) && Quiet(w, order, first)
    ensures var depth, breadth := DepthFirst.Reference(w, save, universe, root, {}), RunFrom(w, save, order, first, Locals(w, order), 0);
            && (depth.Done? <==> forall t :: 0 <= t < |order| ==> SucceedsAt(w, order, first, t))
            && (breadth.Completed? <==> depth.Done?)
            && (breadth.Completed? ==> breadth == Completed(Locals(w, order)))
            && (depth.Done? ==> multiset(depth.resources) == multiset(ResourcesAt(Locals(w, order), Everything(|order|))))
  {
    hide DepthFirst.Reference, RunFrom, ResourcesAt, Scope;
    var held, n := Locals(w, order), |order|;
    IdentityRun(w, save, order, first, held, 0);
    DepthFirstYieldsScope(w, save, universe, root, order, first, 0, {});
    assert forall t :: 0 <= t < n ==> (SucceedsAt(w, order, first, t) <==> OutcomeAt(w, order, first, held, t).Ran?);
    RootScopeIsAll(first, n);
    RootInputIsAll(first, held);
  }

  lemma RootScopeIsAll(first: seq<nat>, n: nat)
    requires Tree(first, n)
    ensures forall t :: 0 <= t < n ==> t in Scope(first, n, 0)
  {
    forall t | 0 <= t < n ensures t in Scope(first, n, 0) {
      RootSeesAll(first, n, t);
    }
  }

  /** The root sees, up to order, everything. */
  lemma RootInputIsAll(first: seq<nat>, held: seq<seq<Resource>>)
    requires Tree(first, |held|)
    ensures multiset(PipelineInput(first, held, 0)) == multiset(ResourcesAt(held, Everything(|held|)))
  {
    var n := |held|;
    var scope := Scope(first, n, 0);
    ScopeInRange(first, n, 0);
    ScopeDistinct(first, n, 0);
    RootScopeIsAll(first, n);
    assert Outside(scope, n) == [] by {
      if Outside(scope, n) != [] {
        assert Outside(scope, n)[0] in Outside(scope, n);
      }
    }
    TotalSplits(held, scope);
  }
}
