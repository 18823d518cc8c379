/** One step of breadth-first hydration: a pipeline's output goes back to the packages
    its resources are tagged with.  What this keeps, and exactly when. */
module Redistribution {
  import opened PackageGraph
  import opened Resources
  import opened DiscoverPackages
  import opened ScopedVisibility
  import opened Sequences
  import opened SiblingGroups

  /** The package a resource in the output of `current`'s pipeline belongs to. */
  function Owner(r: Resource, current: Path): Path {
    if PackageOf(r) == "" then current else PackageOf(r)
  }

  lemma OwnerOfTagged(r: Resource, p: Path, current: Path)
    requires TaggedWith(r, p)
    ensures Owner(r, current) == p
  {
  }

  /** The resources of `output` that belong to `p`, in order. */
  function Share(output: seq<Resource>, current: Path, p: Path): seq<Resource> {
    if output == [] then
      []
    else
      var n := |output| - 1;
      Share(output[..n], current, p) + (if Owner(output[n], current) == p then [output[n]] else [])
  }

  /** What each node holds once `output` of the pipeline at `k` has been distributed.  A
      node other than `k` that gets nothing keeps what it had. */
  function Redistribute(names: seq<Path>, held: seq<seq<Resource>>, k: nat, output: seq<Resource>): seq<seq<Resource>>
    requires |held| == |names| && k < |names|
  {
    seq(|names|, t requires 0 <= t < |names| =>
      var share := Share(output, names[k], names[t]);
      if t == k || share != [] then share else held[t])
  }

  ghost predicate Within(at: seq<nat>, lo: nat, hi: nat) {
    forall i :: 0 <= i < |at| ==> lo <= at[i] < hi
  }

  /** The resource lists at the given positions, appended. */
  ghost function ResourcesAt(held: seq<seq<Resource>>, at: seq<nat>): seq<Resource>
    requires Within(at, 0, |held|)
  {
    if at == [] then [] else ResourcesAt(held, at[..|at| - 1]) + held[at[|at| - 1]]
  }

  /** What the pipeline at `k` gets to see. */
  ghost function PipelineInput(first: seq<nat>, held: seq<seq<Resource>>, k: nat): seq<Resource>
    requires Tree(first, |held|) && k < |held|
  {
    ScopeInRange(first, |held|, k);
    ResourcesAt(held, Scope(first, |held|, k))
  }

  lemma ScopeInRange(first: seq<nat>, n: nat, k: nat)
    requires Tree(first, n) && k < n
    ensures Within(Scope(first, n, k), k, n)
  {
    var scope := Scope(first, n, k);
    forall i | 0 <= i < |scope| ensures k <= scope[i] < n {
      assert scope[i] in scope;
      ScopeBounds(first, n, k, scope[i]);
    }
  }

  // ---------------------------------------------------------------- lists

  lemma {:induction false} ResourcesAtAppend(held: seq<seq<Resource>>, a: seq<nat>, b: seq<nat>)
    requires Within(a, 0, |held|) && Within(b, 0, |held|)
    ensures Within(a + b, 0, |held|)
    ensures ResourcesAt(held, a + b) == ResourcesAt(held, a) + ResourcesAt(held, b)
  {
    if b == [] {
      assert a + b == a;
    } else {
      var n := |b| - 1;
      assert (a + b)[..|a| + n] == a + b[..n];
      ResourcesAtAppend(held, a, b[..n]);
      Assoc(ResourcesAt(held, a), ResourcesAt(held, b[..n]), held[b[n]]);
    }
  }

  lemma {:induction false} ResourcesAtMember(held: seq<seq<Resource>>, at: seq<nat>, r: Resource)
    requires Within(at, 0, |held|)
    ensures r in ResourcesAt(held, at) <==> exists i :: 0 <= i < |at| && r in held[at[i]]
  {
    if at != [] {
      var n := |at| - 1;
      ResourcesAtMember(held, at[..n], r);
      assert forall i :: 0 <= i < n ==> at[..n][i] == at[i];
    }
  }

  lemma {:induction false} SameResourcesAt(held: seq<seq<Resource>>, other: seq<seq<Resource>>, at: seq<nat>)
    requires |held| == |other| && Within(at, 0, |held|)
    requires forall i :: 0 <= i < |at| ==> held[at[i]] == other[at[i]]
    ensures ResourcesAt(held, at) == ResourcesAt(other, at)
  {
    if at != [] {
      SameResourcesAt(held, other, at[..|at| - 1]);
    }
  }

  /** Only how often each position occurs matters for the multiset of resources. */
  lemma {:induction false} OrderIrrelevant(held: seq<seq<Resource>>, a: seq<nat>, b: seq<nat>)
    requires multiset(a) == multiset(b) && Within(a, 0, |held|) && Within(b, 0, |held|)
    ensures multiset(ResourcesAt(held, a)) == multiset(ResourcesAt(held, b))
    decreases |a|
  {
    if a == [] {
      assert |multiset(b)| == 0;
    } else {
      var n := |a| - 1;
      assert a == a[..n] + [a[n]];
      assert a[n] in multiset(b);
      var front, rest := SplitAround(b, a[n]);
      ResourcesAtMiddle(held, front, a[n], rest);
      OrderIrrelevant(held, a[..n], front + rest);
    }
  }

  lemma ResourcesAtMiddle(held: seq<seq<Resource>>, front: seq<nat>, t: nat, rest: seq<nat>)
    requires Within(front + [t] + rest, 0, |held|)
    ensures t < |held| && Within(front + rest, 0, |held|)
    ensures multiset(ResourcesAt(held, front + [t] + rest)) ==
            multiset(ResourcesAt(held, front + rest)) + multiset(held[t])
  {
    var all := front + [t] + rest;
    assert forall i :: 0 <= i < |front| ==> front[i] == all[i];
    assert forall i :: 0 <= i < |rest| ==> rest[i] == all[|front| + 1 + i];
    assert all[|front|] == t;
    ResourcesAtAppend(held, front, rest);
    ResourcesAtAppend(held, front + [t], rest);
  }

  lemma {:induction false} ShareMember(output: seq<Resource>, current: Path, p: Path, r: Resource)
    ensures r in Share(output, current, p) <==> r in output && Owner(r, current) == p
  {
    if output != [] {
      var n := |output| - 1;
      ShareMember(output[..n], current, p, r);
      assert output == output[..n] + [output[n]];
    }
  }

  lemma {:induction false} ShareAppend(a: seq<Resource>, b: seq<Resource>, current: Path, p: Path)
    ensures Share(a + b, current, p) == Share(a, current, p) + Share(b, current, p)
  {
    hide Owner;
    if b == [] {
      assert a + b == a;
    } else {
      var n := |b| - 1;
      assert (a + b)[..|a| + n] == a + b[..n];
      ShareAppend(a, b[..n], current, p);
      Assoc(Share(a, current, p), Share(b[..n], current, p), if Owner(b[n], current) == p then [b[n]] else []);
    }
  }

  lemma {:induction false} ShareAllOrNothing(output: seq<Resource>, current: Path, p: Path, q: Path)
    requires forall r :: r in output ==> Owner(r, current) == p
    ensures Share(output, current, q) == if p == q then output else []
  {
    if output != [] {
      var n := |output| - 1;
      assert output[n] in output && output == output[..n] + [output[n]];
      ShareAllOrNothing(output[..n], current, p, q);
    }
  }

  // ---------------------------------------------------------------- the frame

  /** No resource of the output names a package outside the scope of `k`.  (Tags that
      name no package at all are allowed: such resources are dropped.) */
  ghost predicate StaysInScope(names: seq<Path>, first: seq<nat>, k: nat, output: seq<Resource>)
    requires Tree(first, |names|) && k < |names|
  {
    forall r, t :: r in output && 0 <= t < |names| && Owner(r, names[k]) == names[t] ==>
      t in Scope(first, |names|, k)
  }

  /** Distributing the output leaves every package outside the scope of `k` alone. */
  ghost predicate LeavesOthersAlone(names: seq<Path>, first: seq<nat>, k: nat, output: seq<Resource>, held: seq<seq<Resource>>)
    requires |held| == |names| && Tree(first, |names|) && k < |names|
  {
    forall t :: 0 <= t < |names| && t !in Scope(first, |names|, k) ==>
      Redistribute(names, held, k, output)[t] == held[t]
  }

  /** A pipeline cannot modify the packages outside its own subtree, whatever they hold,
      exactly when its output carries no tag of such a package. */
  lemma FrameExactly(names: seq<Path>, first: seq<nat>, k: nat, output: seq<Resource>)
    requires Distinct(names) && Tree(first, |names|) && k < |names|
    ensures StaysInScope(names, first, k, output) <==>
            forall held :: |held| == |names| ==> LeavesOthersAlone(names, first, k, output, held)
  {
    var n := |names|;
    if StaysInScope(names, first, k, output) {
      forall held | |held| == n ensures LeavesOthersAlone(names, first, k, output, held) {
        FrameHolds(names, first, k, output, held);
      }
    } else {
      var r, t :| r in output && 0 <= t < n && Owner(r, names[k]) == names[t] && t !in Scope(first, n, k);
      var held: seq<seq<Resource>> := seq(n, _ => []);
      ShareMember(output, names[k], names[t], r);
      assert Redistribute(names, held, k, output)[t] != held[t];
      assert !LeavesOthersAlone(names, first, k, output, held);
    }
  }

  lemma FrameHolds(names: seq<Path>, first: seq<nat>, k: nat, output: seq<Resource>, held: seq<seq<Resource>>)
    requires |held| == |names| && Tree(first, |names|) && k < |names|
    requires StaysInScope(names, first, k, output)
    ensures LeavesOthersAlone(names, first, k, output, held)
  {
    forall t | 0 <= t < |names| && t !in Scope(first, |names|, k)
      ensures Redistribute(names, held, k, output)[t] == held[t]
    {
      assert Share(output, names[k], names[t]) == [] by {
        if Share(output, names[k], names[t]) != [] {
          ShareMember(output, names[k], names[t], Share(output, names[k], names[t])[0]);
        }
      }
      assert k in Scope(first, |names|, k);
    }
  }

  /** Every known package that owns some output is reached from the one at `k`. */
  ghost predicate OwnersBelow(w: World, root: Path, current: Path, output: seq<Resource>) {
    forall r :: r in output && Reaches(w, root, Owner(r, current)) ==> Reaches(w, current, Owner(r, current))
  }

  /** The same over a listing of packages: a pipeline cannot modify packages it does not
      reach exactly when it tags its output with none of them. */
  lemma PackageFrameExactly(w: World, root: Path, names: seq<Path>, first: seq<nat>, k: nat, output: seq<Resource>)
    requires Listing(w, root, names, first) && k < |names|
    ensures Tree(first, |names|)
    ensures OwnersBelow(w, root, names[k], output) <==>
            forall held :: |held| == |names| ==> LeavesOthersAlone(names, first, k, output, held)
  {
    ListingIsIndexTree(w, root, names, first);
    FrameExactly(names, first, k, output);
    if OwnersBelow(w, root, names[k], output) {
      forall r, t | r in output && 0 <= t < |names| && Owner(r, names[k]) == names[t] ensures t in Scope(first, |names|, k) {
        ListingComplete(w, root, names, first, names[t]);
        ScopeIsReach(w, root, names, first, k, t);
      }
    }
    if StaysInScope(names, first, k, output) {
      forall r | r in output && Reaches(w, root, Owner(r, names[k])) ensures Reaches(w, names[k], Owner(r, names[k])) {
        ListingComplete(w, root, names, first, Owner(r, names[k]));
        var t :| 0 <= t < |names| && names[t] == Owner(r, names[k]);
        ScopeIsReach(w, root, names, first, k, t);
      }
    }
  }

  // ---------------------------------------------------------------- ownership

  /** Every node holds only resources that belong to its package. */
  ghost predicate OwnTags(names: seq<Path>, held: seq<seq<Resource>>)
    requires |held| == |names|
  {
    forall t, r :: 0 <= t < |names| && r in held[t] ==> Owner(r, names[t]) == names[t]
  }

  /** As read from disk: the tag is present on every resource of the nodes from `k` on. */
  ghost predicate TaggedFrom(names: seq<Path>, held: seq<seq<Resource>>, k: nat)
    requires |held| == |names|
  {
    forall t, r :: k <= t < |names| && r in held[t] ==> TaggedWith(r, names[t])
  }

  /** Whatever a pipeline puts out, every node ends up with resources of its own package,
      and the packages whose pipelines are still to come with explicitly tagged ones. */
  lemma RedistributeKeepsOwnership(names: seq<Path>, held: seq<seq<Resource>>, k: nat, output: seq<Resource>)
    requires Distinct(names) && |held| == |names| && k < |names|
    requires OwnTags(names, held) && TaggedFrom(names, held, k)
    ensures OwnTags(names, Redistribute(names, held, k, output))
    ensures TaggedFrom(names, Redistribute(names, held, k, output), k + 1)
  {
    var after := Redistribute(names, held, k, output);
    forall t, r | 0 <= t < |names| && r in after[t]
      ensures Owner(r, names[t]) == names[t] && (t > k ==> TaggedWith(r, names[t]))
    {
      ShareMember(output, names[k], names[t], r);
    }
  }

  // ---------------------------------------------------------------- conservation

  /** Every package in the scope that had resources still gets at least one. */
  ghost predicate KeepsEveryPackage(names: seq<Path>, first: seq<nat>, k: nat, output: seq<Resource>, held: seq<seq<Resource>>)
    requires |held| == |names| && Tree(first, |names|) && k < |names|
  {
    forall t :: 0 <= t < |names| && t in Scope(first, |names|, k) && t != k && held[t] != [] ==>
      exists r :: r in output && Owner(r, names[k]) == names[t]
  }

  /** Every resource of the output belongs to some package in the scope. */
  ghost predicate OwnedInScope(names: seq<Path>, first: seq<nat>, k: nat, output: seq<Resource>)
    requires Tree(first, |names|) && k < |names|
  {
    forall r :: r in output ==>
      exists t :: 0 <= t < |names| && t in Scope(first, |names|, k) && Owner(r, names[k]) == names[t]
  }

  ghost predicate Conserves(names: seq<Path>, first: seq<nat>, k: nat, output: seq<Resource>, held: seq<seq<Resource>>)
    requires |held| == |names| && Tree(first, |names|) && k < |names|
  {
    multiset(PipelineInput(first, Redistribute(names, held, k, output), k)) == multiset(output)
  }

  /** After a step the nodes in the scope hold, together, exactly the pipeline's output,
      if and only if every output resource belongs to the scope and no package that had
      resources lost all of them (its node would keep the old ones). */
  lemma ConservesExactly(names: seq<Path>, first: seq<nat>, k: nat, output: seq<Resource>, held: seq<seq<Resource>>)
    requires Distinct(names) && |held| == |names| && Tree(first, |names|) && k < |names|
    requires TaggedFrom(names, held, k)
    ensures Conserves(names, first, k, output, held) <==>
            OwnedInScope(names, first, k, output) && KeepsEveryPackage(names, first, k, output, held)
  {
    if OwnedInScope(names, first, k, output) && KeepsEveryPackage(names, first, k, output, held) {
      NothingLost(names, first, k, output, held);
    } else if Conserves(names, first, k, output, held) {
      ConservingKeepsPackages(names, first, k, output, held);
      ConservingIsOwned(names, first, k, output, held);
    }
  }

  ghost function Shares(names: seq<Path>, k: nat, output: seq<Resource>): seq<seq<Resource>>
    requires k < |names|
  {
    seq(|names|, t requires 0 <= t < |names| => Share(output, names[k], names[t]))
  }

  lemma NothingLost(names: seq<Path>, first: seq<nat>, k: nat, output: seq<Resource>, held: seq<seq<Resource>>)
    requires Distinct(names) && |held| == |names| && Tree(first, |names|) && k < |names|
    requires OwnedInScope(names, first, k, output) && KeepsEveryPackage(names, first, k, output, held)
    ensures Conserves(names, first, k, output, held)
  {
    var scope, after, shares := Scope(first, |names|, k), Redistribute(names, held, k, output), Shares(names, k, output);
    ScopeInRange(first, |names|, k);
    ScopeDistinct(first, |names|, k);
    forall i | 0 <= i < |scope| ensures after[scope[i]] == shares[scope[i]] {
      var t := scope[i];
      if t != k && held[t] != [] {
        var r :| r in output && Owner(r, names[k]) == names[t];
        ShareMember(output, names[k], names[t], r);
      }
    }
    SameResourcesAt(after, shares, scope);
    SharesMakeUpOutput(names, k, output, scope);
  }

  /** Split among distinct packages that own all of it, an output is neither lost nor
      duplicated. */
  lemma {:induction false} SharesMakeUpOutput(names: seq<Path>, k: nat, output: seq<Resource>, at: seq<nat>)
    requires Distinct(names) && Distinct(at) && k < |names| && Within(at, 0, |names|)
    requires forall r :: r in output ==> exists t :: 0 <= t < |names| && t in at && Owner(r, names[k]) == names[t]
    ensures multiset(ResourcesAt(Shares(names, k, output), at)) == multiset(output)
    decreases |output|
  {
    if output == [] {
      AllEmpty(Shares(names, k, output), at);
    } else {
      var n := |output| - 1;
      var r := output[n];
      var before, after := Shares(names, k, output[..n]), Shares(names, k, output);
      assert r in output && output == output[..n] + [r];
      SharesMakeUpOutput(names, k, output[..n], at);
      var t :| 0 <= t < |names| && t in at && Owner(r, names[k]) == names[t];
      forall u | 0 <= u < |names| && u != t ensures after[u] == before[u] {
        assert names[u] != names[t];
      }
      OneMore(before, after, at, t, r);
    }
  }

  lemma {:induction false} AllEmpty(held: seq<seq<Resource>>, at: seq<nat>)
    requires Within(at, 0, |held|) && forall i :: 0 <= i < |at| ==> held[at[i]] == []
    ensures ResourcesAt(held, at) == []
  {
    if at != [] {
      AllEmpty(held, at[..|at| - 1]);
    }
  }

  lemma {:induction false} OneMore(before: seq<seq<Resource>>, after: seq<seq<Resource>>, at: seq<nat>, t: nat, r: Resource)
    requires |before| == |after| && Distinct(at) && t in at && Within(at, 0, |before|)
    requires after[t] == before[t] + [r]
    requires forall u :: 0 <= u < |before| && u != t ==> after[u] == before[u]
    ensures multiset(ResourcesAt(after, at)) == multiset(ResourcesAt(before, at)) + multiset{r}
  {
    var n := |at| - 1;
    if at[n] == t {
      SameResourcesAt(before, after, at[..n]);
    } else {
      OneMore(before, after, at[..n], t, r);
    }
  }

  lemma ConservingKeepsPackages(names: seq<Path>, first: seq<nat>, k: nat, output: seq<Resource>, held: seq<seq<Resource>>)
    requires Distinct(names) && |held| == |names| && Tree(first, |names|) && k < |names|
    requires TaggedFrom(names, held, k) && Conserves(names, first, k, output, held)
    ensures KeepsEveryPackage(names, first, k, output, held)
  {
    hide Owner, TaggedWith, Scope, ResourcesAt;
    var scope, after := Scope(first, |names|, k), Redistribute(names, held, k, output);
    ScopeInRange(first, |names|, k);
    forall t | 0 <= t < |names| && t in scope && t != k && held[t] != []
      ensures exists r :: r in output && Owner(r, names[k]) == names[t]
    {
      var r := after[t][0];
      var i :| 0 <= i < |scope| && scope[i] == t;
      assert r in after[scope[i]];
      ResourcesAtMember(after, scope, r);
      assert r in multiset(ResourcesAt(after, scope));
      ShareMember(output, names[k], names[t], r);
      if r in held[t] {
        OwnerOfTagged(r, names[t], names[k]);
      }
    }
  }

  lemma ConservingIsOwned(names: seq<Path>, first: seq<nat>, k: nat, output: seq<Resource>, held: seq<seq<Resource>>)
    requires Distinct(names) && |held| == |names| && Tree(first, |names|) && k < |names|
    requires TaggedFrom(names, held, k) && Conserves(names, first, k, output, held)
    ensures OwnedInScope(names, first, k, output)
  {
    var scope, after := Scope(first, |names|, k), Redistribute(names, held, k, output);
    ScopeInRange(first, |names|, k);
    forall r | r in output
      ensures exists t :: 0 <= t < |names| && t in scope && Owner(r, names[k]) == names[t]
    {
      assert r in multiset(output);
      ResourcesAtMember(after, scope, r);
      var i :| 0 <= i < |scope| && r in after[scope[i]];
      var t := scope[i];
      ShareMember(output, names[k], names[t], r);
    }
  }

  /** A pipeline that returns its input unchanged changes nothing anywhere. */
  lemma IdentityStep(names: seq<Path>, first: seq<nat>, k: nat, held: seq<seq<Resource>>)
    requires Distinct(names) && |held| == |names| && Tree(first, |names|) && k < |names|
    requires TaggedFrom(names, held, k)
    ensures Redistribute(names, held, k, PipelineInput(first, held, k)) == held
  {
    var scope := Scope(first, |names|, k);
    ScopeInRange(first, |names|, k);
    ScopeDistinct(first, |names|, k);
    forall t | 0 <= t < |names|
      ensures Redistribute(names, held, k, PipelineInput(first, held, k))[t] == held[t]
    {
      ShareOfInput(names, held, k, scope, t);
    }
  }

  lemma {:induction false} ShareOfInput(names: seq<Path>, held: seq<seq<Resource>>, k: nat, at: seq<nat>, t: nat)
    requires Distinct(names) && |held| == |names| && k < |names| && t < |names|
    requires TaggedFrom(names, held, k) && Within(at, k, |names|) && Distinct(at)
    ensures Share(ResourcesAt(held, at), names[k], names[t]) == if t in at then held[t] else []
  {
    if at != [] {
      var n := |at| - 1;
      var u := at[n];
      ShareOfInput(names, held, k, at[..n], t);
      ShareAppend(ResourcesAt(held, at[..n]), held[u], names[k], names[t]);
      ShareAllOrNothing(held[u], names[k], names[u], names[t]);
      LastOfDistinct(at, t);
    }
  }

  lemma LastOfDistinct(at: seq<nat>, t: nat)
    requires at != [] && Distinct(at)
    ensures at[|at| - 1] == t ==> t in at && t !in at[..|at| - 1]
    ensures at[|at| - 1] != t ==> (t in at <==> t in at[..|at| - 1])
  {
    var n := |at| - 1;
    assert at == at[..n] + [at[n]];
  }

  // ---------------------------------------------------------------- what the code does not keep

  /** A resource as it is read from a file of a package. */
  function ReadFrom(pkg: Path, kind: string, file: string): (r: Resource)
    ensures PackageOf(r) == pkg && PathOf(r) == file && r.kind == kind
  {
    Resource("v1", kind, "", "", map[],
             map[PKG_PATH_ANNOTATION := pkg, PATH_ANNOTATION := file, INDEX_ANNOTATION := "0"], "")
  }

  /** The documented frame fails without the condition: a subpackage whose pipeline puts
      out a resource tagged with its parent replaces what the parent holds, Kptfile and
      all. */
  lemma SubpackageCanReplaceParent()
    returns (names: seq<Path>, first: seq<nat>, held: seq<seq<Resource>>, output: seq<Resource>)
    ensures Distinct(names) && |held| == |names| == 2 && Tree(first, 2) && TaggedFrom(names, held, 0)
    ensures 0 !in Scope(first, 2, 1) && (forall t :: 0 <= t < 2 ==> held[t] != [] && held[t][0].kind == "Kptfile")
    ensures forall r :: r in held[0] ==> r !in Redistribute(names, held, 1, output)[0]
    ensures Redistribute(names, held, 1, output)[0] != []
  {
    names, first := ["/root", "/root/sub"], [1, 2, 2];
    var injected := ReadFrom("/root", "ConfigMap", "b.yaml");
    held := [[ReadFrom("/root", "Kptfile", "Kptfile")], [ReadFrom("/root/sub", "Kptfile", "Kptfile")]];
    output := [held[1][0], injected];
    assert Group(first, 2, 0) && Group(first, 2, 1);
    ScopeInRange(first, 2, 1);
    assert output[..1] == [held[1][0]] && [held[1][0]][..0] == [];
    assert Share(output, names[1], names[0]) == [injected];
  }

  /** When a pipeline deletes everything of a subpackage, its Kptfile included, that has no
      effect: the subpackage's node keeps it all. */
  lemma DeletedPackageComesBack()
    returns (names: seq<Path>, first: seq<nat>, held: seq<seq<Resource>>, output: seq<Resource>)
    ensures Distinct(names) && |held| == |names| == 2 && Tree(first, 2) && TaggedFrom(names, held, 0)
    ensures forall t :: 0 <= t < 2 ==> held[t] != [] && held[t][0].kind == "Kptfile"
    ensures OwnedInScope(names, first, 0, output) && (forall r :: r in held[1] ==> r !in output)
    ensures Redistribute(names, held, 0, output) == held
  {
    hide ReadFrom;
    names, first := ["/root", "/root/sub"], [1, 2, 2];
    output := [ReadFrom("/root", "Kptfile", "Kptfile")];
    held := [output, [ReadFrom("/root/sub", "Kptfile", "Kptfile"), ReadFrom("/root/sub", "ConfigMap", "a.yaml")]];
    assert Group(first, 2, 0) && Group(first, 2, 1);
    assert names[0] != names[1];
    ShareAllOrNothing(output, names[0], names[0], names[0]);
    ShareAllOrNothing(output, names[0], names[0], names[1]);
    assert 0 in Scope(first, 2, 0);
    assert Owner(output[0], names[0]) == names[0];
  }
}
