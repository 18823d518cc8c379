/** Breadth-first hydration: run every package's pipeline, parents first, on what it can
    see, and hand the output back to the packages it belongs to. */
module HydrateBreadthFirst {
  import opened Wrappers
  import opened PackageGraph
  import opened Resources
  import opened DiscoverPackages
  import opened ScopedVisibility
  import opened Redistribution
  import opened Sequences
  import opened SiblingGroups

  // ---------------------------------------------------------------- the run

  /** `held` lists what the nodes hold when the run is over. */
  datatype Run =
    | Completed(held: seq<seq<Resource>>)
    | Aborted(why: string, held: seq<seq<Resource>>)

  /** What the pipeline of the `k`-th package does when the nodes hold `held`. */
  ghost function OutcomeAt(w: World, names: seq<Path>, first: seq<nat>, held: seq<seq<Resource>>, k: nat): PipelineOutcome
    requires |held| == |names| && Tree(first, |names|) && k < |names|
  {
    w.run(names[k], PipelineInput(first, held, k))
  }

  /** The resources it leaves to be distributed; after a failure that came too early for
      any, its input. */
  ghost function OutputAt(w: World, names: seq<Path>, first: seq<nat>, held: seq<seq<Resource>>, k: nat): seq<Resource>
    requires |held| == |names| && Tree(first, |names|) && k < |names|
  {
    match OutcomeAt(w, names, first, held, k)
    case Ran(output) => output
    case Broke(_, reached) => if reached.Some? then reached.value else PipelineInput(first, held, k)
  }

  /** What the nodes hold once that has been distributed. */
  ghost function After(w: World, names: seq<Path>, first: seq<nat>, held: seq<seq<Resource>>, k: nat): (after: seq<seq<Resource>>)
    requires |held| == |names| && Tree(first, |names|) && k < |names|
    ensures |after| == |names|
  {
    Redistribute(names, held, k, OutputAt(w, names, first, held, k))
  }

  /** The run from the `k`-th package on, the nodes holding `held`. */
  ghost function RunFrom(w: World, save: bool, names: seq<Path>, first: seq<nat>, held: seq<seq<Resource>>, k: nat): (run: Run)
    requires |held| == |names| && Tree(first, |names|) && k <= |names|
    ensures |run.held| == |names|
    decreases |names| - k
  {
    if k == |names| then
      Completed(held)
    else
      var after := After(w, names, first, held, k);
      match OutcomeAt(w, names, first, held, k)
      case Ran(_) => RunFrom(w, save, names, first, after, k + 1)
      case Broke(why, _) => Aborted(why, if save then after else held)
  }

  lemma RunUnfolds(w: World, save: bool, names: seq<Path>, first: seq<nat>, held: seq<seq<Resource>>, k: nat)
    requires |held| == |names| && Tree(first, |names|) && k < |names|
    ensures match OutcomeAt(w, names, first, held, k)
            case Ran(_) => RunFrom(w, save, names, first, held, k) ==
                           RunFrom(w, save, names, first, After(w, names, first, held, k), k + 1)
            case Broke(why, _) => RunFrom(w, save, names, first, held, k) ==
                                  Aborted(why, if save then After(w, names, first, held, k) else held)
  {
  }

  /** One step, told by what the pipeline does with what its package sees: what it puts out
      is distributed, and the run goes on with that.  A failing pipeline ends the run; with
      saving, what it had reached is distributed first, or its input if it had reached
      nothing. */
  lemma StepDistributesOutput(w: World, save: bool, names: seq<Path>, first: seq<nat>, held: seq<seq<Resource>>, k: nat)
    requires |held| == |names| && Tree(first, |names|) && k < |names|
    ensures var input := PipelineInput(first, held, k);
            var run := RunFrom(w, save, names, first, held, k);
            match w.run(names[k], input)
            case Ran(output) => run == RunFrom(w, save, names, first, Redistribute(names, held, k, output), k + 1)
            case Broke(why, Some(reached)) =>
              run == Aborted(why, if save then Redistribute(names, held, k, reached) else held)
            case Broke(why, None) =>
              run == Aborted(why, if save then Redistribute(names, held, k, input) else held)
  {
    hide PipelineInput, Redistribute;
  }

  /** The positions of all packages, in listing order. */
  ghost function Everything(n: nat): (all: seq<nat>)
    ensures |all| == n && forall i :: 0 <= i < n ==> all[i] == i
  {
    seq(n, i requires 0 <= i < n => i)
  }

  /** What the `k`-th pipeline leaves is distributed: it succeeded, or failures are saved. */
  ghost predicate DistributesAt(w: World, save: bool, names: seq<Path>, first: seq<nat>, held: seq<seq<Resource>>, k: nat)
    requires |held| == |names| && Tree(first, |names|) && k < |names|
  {
    OutcomeAt(w, names, first, held, k).Ran? || save
  }

  /** Of the outputs that the run from the `k`-th package on distributes, none names a known
      package outside its own scope. */
  ghost predicate StaysOnTheWay(w: World, save: bool, names: seq<Path>, first: seq<nat>, held: seq<seq<Resource>>, k: nat)
    requires |held| == |names| && Tree(first, |names|) && k <= |names|
    decreases |names| - k
  {
    k < |names| ==>
      && (DistributesAt(w, save, names, first, held, k) ==>
            StaysInScope(names, first, k, OutputAt(w, names, first, held, k)))
      && (OutcomeAt(w, names, first, held, k).Ran? ==>
            StaysOnTheWay(w, save, names, first, After(w, names, first, held, k), k + 1))
  }

  /** Top-down isolation over a whole run, completed or not: once a package's pipeline has
      run and its output has been distributed, nothing that runs later changes what it
      holds, if no later output names a package outside its scope. */
  lemma {:induction false} LaterPackagesCannotChangeEarlier(w: World, save: bool, names: seq<Path>, first: seq<nat>,
                                                            held: seq<seq<Resource>>, k: nat, t: nat)
    requires |held| == |names| && Tree(first, |names|) && t < k <= |names|
    requires StaysOnTheWay(w, save, names, first, held, k)
    ensures RunFrom(w, save, names, first, held, k).held[t] == held[t]
    decreases |names| - k
  {
    hide OutputAt, After, StaysInScope, Scope, PipelineInput;
    if k < |names| {
      RunUnfolds(w, save, names, first, held, k);
      if DistributesAt(w, save, names, first, held, k) {
        StepLeavesEarlier(w, names, first, held, k, t);
      }
      if OutcomeAt(w, names, first, held, k).Ran? {
        LaterPackagesCannotChangeEarlier(w, save, names, first, After(w, names, first, held, k), k + 1, t);
      }
    }
  }

  lemma StepLeavesEarlier(w: World, names: seq<Path>, first: seq<nat>, held: seq<seq<Resource>>, k: nat, t: nat)
    requires |held| == |names| && Tree(first, |names|) && t < k < |names|
    requires StaysInScope(names, first, k, OutputAt(w, names, first, held, k))
    ensures After(w, names, first, held, k)[t] == held[t]
  {
    FrameHolds(names, first, k, OutputAt(w, names, first, held, k), held);
    if t in Scope(first, |names|, k) {
      ScopeBounds(first, |names|, k, t);
    }
  }

  /** What a pipeline receives names no package outside its scope, so a package that returns
      its input, or fails early on it, is isolated. */
  lemma InputStaysInScope(names: seq<Path>, first: seq<nat>, held: seq<seq<Resource>>, k: nat)
    requires Distinct(names) && |held| == |names| && Tree(first, |names|) && k < |names|
    requires TaggedFrom(names, held, k)
    ensures StaysInScope(names, first, k, PipelineInput(first, held, k))
  {
    hide Scope, ResourcesAt;
    var scope := Scope(first, |names|, k);
    ScopeInRange(first, |names|, k);
    forall r, t | r in PipelineInput(first, held, k) && 0 <= t < |names| && Owner(r, names[k]) == names[t]
      ensures t in scope
    {
      ResourcesAtMember(held, scope, r);
      var i :| 0 <= i < |scope| && r in held[scope[i]];
      OwnerOfTagged(r, names[scope[i]], names[k]);
      assert names[scope[i]] == names[t] && scope[i] in scope;
    }
  }

  /** Pipelines each of which leaves its input as it is, whether it succeeds or fails, keep
      every package isolated. */
  lemma {:induction false} UnchangingStays(w: World, save: bool, names: seq<Path>, first: seq<nat>,
                                           held: seq<seq<Resource>>, k: nat)
    requires Distinct(names) && |held| == |names| && Tree(first, |names|) && k <= |names|
    requires TaggedFrom(names, held, k)
    requires forall t :: k <= t < |names| ==> OutputAt(w, names, first, held, t) == PipelineInput(first, held, t)
    ensures StaysOnTheWay(w, save, names, first, held, k)
    decreases |names| - k
  {
    hide OutcomeAt, OutputAt, PipelineInput, StaysInScope, After, TaggedFrom;
    if k < |names| {
      InputStaysInScope(names, first, held, k);
      UnchangedStep(w, names, first, held, k);
      UnchangingStays(w, save, names, first, held, k + 1);
    }
  }

  /** However a run goes, every node ends up with resources of its own package only. */
  lemma {:induction false} RunKeepsOwnership(w: World, save: bool, names: seq<Path>, first: seq<nat>,
                                             held: seq<seq<Resource>>, k: nat)
    requires Distinct(names) && |held| == |names| && Tree(first, |names|) && k <= |names|
    requires OwnTags(names, held) && TaggedFrom(names, held, k)
    ensures OwnTags(names, RunFrom(w, save, names, first, held, k).held)
    decreases |names| - k
  {
    if k < |names| {
      RedistributeKeepsOwnership(names, held, k, OutputAt(w, names, first, held, k));
      if OutcomeAt(w, names, first, held, k).Ran? {
        RunKeepsOwnership(w, save, names, first, After(w, names, first, held, k), k + 1);
      }
    }
  }

  // ---------------------------------------------------------------- what all resources share

  ghost predicate HeldHave(has: Resource -> bool, held: seq<seq<Resource>>) {
    forall t :: 0 <= t < |held| ==> AllHave(has, held[t])
  }

  /** Whatever holds of every resource at the start of a run and is kept by pipelines holds
      of every resource at its end, completed or not. */
  lemma {:induction false} RunKeeps(w: World, save: bool, names: seq<Path>, first: seq<nat>, held: seq<seq<Resource>>, k: nat,
                                    has: Resource -> bool)
    requires |held| == |names| && Tree(first, |names|) && k <= |names|
    requires HeldHave(has, held) && PipelinesKeep(w, has)
    ensures HeldHave(has, RunFrom(w, save, names, first, held, k).held)
    decreases |names| - k
  {
    hide *;
    if k == |names| {
      RunIsOver(w, save, names, first, held);
    } else {
      StepKeeps(w, names, first, held, k, has);
      RunUnfolds(w, save, names, first, held, k);
      if OutcomeAt(w, names, first, held, k).Ran? {
        RunKeeps(w, save, names, first, After(w, names, first, held, k), k + 1, has);
      }
    }
  }

  lemma RunIsOver(w: World, save: bool, names: seq<Path>, first: seq<nat>, held: seq<seq<Resource>>)
    requires |held| == |names| && Tree(first, |names|)
    ensures RunFrom(w, save, names, first, held, |names|) == Completed(held)
  {
  }

  lemma StepKeeps(w: World, names: seq<Path>, first: seq<nat>, held: seq<seq<Resource>>, k: nat, has: Resource -> bool)
    requires |held| == |names| && Tree(first, |names|) && k < |names|
    requires HeldHave(has, held) && PipelinesKeep(w, has)
    ensures HeldHave(has, After(w, names, first, held, k))
  {
    InputHas(first, held, k, has);
    assert OutcomeHas(has, w.run(names[k], PipelineInput(first, held, k)));
    SharesHave(names, held, k, OutputAt(w, names, first, held, k), has);
  }

  lemma InputHas(first: seq<nat>, held: seq<seq<Resource>>, k: nat, has: Resource -> bool)
    requires Tree(first, |held|) && k < |held| && HeldHave(has, held)
    ensures AllHave(has, PipelineInput(first, held, k))
  {
    var scope := Scope(first, |held|, k);
    ScopeInRange(first, |held|, k);
    ListsHave(held, scope, has);
  }

  lemma ListsHave(held: seq<seq<Resource>>, at: seq<nat>, has: Resource -> bool)
    requires Within(at, 0, |held|) && HeldHave(has, held)
    ensures AllHave(has, ResourcesAt(held, at))
  {
    forall r | r in ResourcesAt(held, at) ensures has(r) {
      ResourcesAtMember(held, at, r);
      var i :| 0 <= i < |at| && r in held[at[i]];
      assert AllHave(has, held[at[i]]);
    }
  }

  lemma SharesHave(names: seq<Path>, held: seq<seq<Resource>>, k: nat, output: seq<Resource>, has: Resource -> bool)
    requires |held| == |names| && k < |names| && HeldHave(has, held) && AllHave(has, output)
    ensures HeldHave(has, Redistribute(names, held, k, output))
  {
    var after := Redistribute(names, held, k, output);
    forall t, r | 0 <= t < |names| && r in after[t] ensures has(r) {
      assert AllHave(has, held[t]);
      ShareMember(output, names[k], names[t], r);
    }
  }

  // ---------------------------------------------------------------- conservation over a run

  /** The first step of the run whose output does not belong to the pipeline's scope, or
      leaves a package there without any of the resources it had; past the end if none. */
  ghost function FirstLoss(w: World, names: seq<Path>, first: seq<nat>, held: seq<seq<Resource>>, k: nat): nat
    requires |held| == |names| && Tree(first, |names|) && k <= |names|
    decreases |names| - k
  {
    if k == |names| || OutcomeAt(w, names, first, held, k).Broke? then |names|
    else if !KeepsAt(w, names, first, held, k) then k
    else FirstLoss(w, names, first, After(w, names, first, held, k), k + 1)
  }

  ghost predicate KeepsAt(w: World, names: seq<Path>, first: seq<nat>, held: seq<seq<Resource>>, k: nat)
    requires |held| == |names| && Tree(first, |names|) && k < |names|
  {
    && OwnedInScope(names, first, k, OutputAt(w, names, first, held, k))
    && KeepsEveryPackage(names, first, k, OutputAt(w, names, first, held, k), held)
  }

  /** All that the pipelines from the `k`-th on receive, over a run. */
  ghost function Consumed(w: World, names: seq<Path>, first: seq<nat>, held: seq<seq<Resource>>, k: nat): multiset<Resource>
    requires |held| == |names| && Tree(first, |names|) && k <= |names|
    decreases |names| - k
  {
    if k == |names| then multiset{}
    else match w.run(names[k], PipelineInput(first, held, k))
      case Broke(_, _) => multiset{}
      case Ran(output) =>
        multiset(PipelineInput(first, held, k)) + Consumed(w, names, first, Redistribute(names, held, k, output), k + 1)
  }

  /** All that they put out. */
  ghost function Produced(w: World, names: seq<Path>, first: seq<nat>, held: seq<seq<Resource>>, k: nat): multiset<Resource>
    requires |held| == |names| && Tree(first, |names|) && k <= |names|
    decreases |names| - k
  {
    if k == |names| then multiset{}
    else match w.run(names[k], PipelineInput(first, held, k))
      case Broke(_, _) => multiset{}
      case Ran(output) => multiset(output) + Produced(w, names, first, Redistribute(names, held, k, output), k + 1)
  }

  ghost function Total(held: seq<seq<Resource>>): multiset<Resource> {
    multiset(ResourcesAt(held, Everything(|held|)))
  }

  lemma OccursOnce(s: seq<nat>, x: nat)
    requires Distinct(s)
    ensures multiset(s)[x] == if x in s then 1 else 0
    decreases |s|
  {
    if s != [] {
      var n := |s| - 1;
      assert s == s[..n] + [s[n]];
      OccursOnce(s[..n], x);
    }
  }

  /** The positions below `m` outside a scope. */
  ghost function Outside(scope: seq<nat>, m: nat): (rest: seq<nat>)
    ensures Within(rest, 0, m) && Distinct(rest)
    ensures forall t :: t in rest <==> 0 <= t < m && t !in scope
  {
    if m == 0 then [] else
    var rest := Outside(scope, m - 1);
    if m - 1 in scope then rest else rest + [m - 1]
  }

  lemma ScopeAndRest(scope: seq<nat>, n: nat)
    requires Distinct(scope) && Within(scope, 0, n)
    ensures multiset(scope + Outside(scope, n)) == multiset(Everything(n))
  {
    var rest := Outside(scope, n);
    forall x ensures multiset(scope + rest)[x] == multiset(Everything(n))[x] {
      if x >= 0 {
        OccursOnce(scope, x);
        OccursOnce(rest, x);
        OccursOnce(Everything(n), x);
        assert x < n ==> Everything(n)[x] == x;
      }
    }
  }

  lemma TotalSplits(held: seq<seq<Resource>>, scope: seq<nat>)
    requires Distinct(scope) && Within(scope, 0, |held|)
    ensures Total(held) == multiset(ResourcesAt(held, scope)) + multiset(ResourcesAt(held, Outside(scope, |held|)))
  {
    var rest := Outside(scope, |held|);
    ScopeAndRest(scope, |held|);
    ResourcesAtAppend(held, scope, rest);
    OrderIrrelevant(held, Everything(|held|), scope + rest);
  }

  /** One step exchanges the pipeline's input for its output and touches nothing else. */
  lemma StepExchanges(names: seq<Path>, first: seq<nat>, held: seq<seq<Resource>>, k: nat, output: seq<Resource>)
    requires Distinct(names) && |held| == |names| && Tree(first, |names|) && k < |names|
    requires TaggedFrom(names, held, k)
    requires OwnedInScope(names, first, k, output) && KeepsEveryPackage(names, first, k, output, held)
    ensures Total(Redistribute(names, held, k, output)) + multiset(PipelineInput(first, held, k)) ==
            Total(held) + multiset(output)
  {
    hide Scope, ResourcesAt, Outside, TaggedFrom, OwnedInScope, KeepsEveryPackage, StaysInScope, Share, Everything;
    var after, scope := Redistribute(names, held, k, output), Scope(first, |names|, k);
    ScopeInRange(first, |names|, k);
    ScopeDistinct(first, |names|, k);
    OwnedStays(names, first, k, output);
    FrameHolds(names, first, k, output, held);
    NothingLost(names, first, k, output, held);
    TotalSplits(held, scope);
    TotalSplits(after, scope);
    var rest := Outside(scope, |held|);
    forall i | 0 <= i < |rest| ensures held[rest[i]] == after[rest[i]] {
      assert rest[i] in rest;
    }
    SameResourcesAt(held, after, rest);
  }

  lemma OwnedStays(names: seq<Path>, first: seq<nat>, k: nat, output: seq<Resource>)
    requires Distinct(names) && Tree(first, |names|) && k < |names| && OwnedInScope(names, first, k, output)
    ensures StaysInScope(names, first, k, output)
  {
    forall r, t | r in output && 0 <= t < |names| && Owner(r, names[k]) == names[t]
      ensures t in Scope(first, |names|, k)
    {
      var u :| 0 <= u < |names| && u in Scope(first, |names|, k) && Owner(r, names[k]) == names[u];
      assert names[t] == names[u];
    }
  }

  /** The resources at the end of a run and all that its pipelines consumed are, together,
      those at the start and all that they produced. */
  ghost predicate Balanced(w: World, save: bool, names: seq<Path>, first: seq<nat>, held: seq<seq<Resource>>, k: nat)
    requires |held| == |names| && Tree(first, |names|) && k <= |names|
  {
    Total(RunFrom(w, save, names, first, held, k).held) + Consumed(w, names, first, held, k) ==
    Total(held) + Produced(w, names, first, held, k)
  }

  /** A run, from the `k`-th package on, that completes and none of whose steps loses
      anything; the packages still to come hold tagged resources. */
  ghost predicate Lossless(w: World, save: bool, names: seq<Path>, first: seq<nat>, held: seq<seq<Resource>>, k: nat)
    requires |held| == |names| && Tree(first, |names|) && k <= |names|
  {
    && Distinct(names) && OwnTags(names, held) && TaggedFrom(names, held, k)
    && FirstLoss(w, names, first, held, k) == |names| && RunFrom(w, save, names, first, held, k).Completed?
  }

  lemma LosslessNext(w: World, save: bool, names: seq<Path>, first: seq<nat>, held: seq<seq<Resource>>, k: nat)
    requires |held| == |names| && Tree(first, |names|) && k < |names| && Lossless(w, save, names, first, held, k)
    ensures OutcomeAt(w, names, first, held, k).Ran?
    ensures Lossless(w, save, names, first, After(w, names, first, held, k), k + 1)
    ensures Total(After(w, names, first, held, k)) + multiset(PipelineInput(first, held, k)) ==
            Total(held) + multiset(OutputAt(w, names, first, held, k))
  {
    RunUnfolds(w, save, names, first, held, k);
    KeepsUnfolds(w, names, first, held, k);
    StepConserves(w, names, first, held, k);
  }

  /** Conservation over a whole run none of whose steps loses anything. */
  lemma {:induction false} RunConserves(w: World, save: bool, names: seq<Path>, first: seq<nat>,
                                        held: seq<seq<Resource>>, k: nat)
    requires |held| == |names| && Tree(first, |names|) && k <= |names| && Lossless(w, save, names, first, held, k)
    ensures Balanced(w, save, names, first, held, k)
    decreases |names| - k
  {
    hide *;
    if k == |names| {
      NothingToBalance(w, save, names, first, held);
    } else {
      LosslessNext(w, save, names, first, held, k);
      RunConserves(w, save, names, first, After(w, names, first, held, k), k + 1);
      BalancedBefore(w, save, names, first, held, k);
    }
  }

  lemma NothingToBalance(w: World, save: bool, names: seq<Path>, first: seq<nat>, held: seq<seq<Resource>>)
    requires |held| == |names| && Tree(first, |names|)
    ensures Balanced(w, save, names, first, held, |names|)
  {
  }

  lemma BalancedBefore(w: World, save: bool, names: seq<Path>, first: seq<nat>, held: seq<seq<Resource>>, k: nat)
    requires |held| == |names| && Tree(first, |names|) && k < |names| && OutcomeAt(w, names, first, held, k).Ran?
    requires Total(After(w, names, first, held, k)) + multiset(PipelineInput(first, held, k)) ==
             Total(held) + multiset(OutputAt(w, names, first, held, k))
    requires Balanced(w, save, names, first, After(w, names, first, held, k), k + 1)
    ensures Balanced(w, save, names, first, held, k)
  {
    var after := After(w, names, first, held, k);
    RunUnfolds(w, save, names, first, held, k);
    TrafficUnfolds(w, names, first, held, k);
    Exchange(Total(RunFrom(w, save, names, first, after, k + 1).held), Consumed(w, names, first, after, k + 1),
             Produced(w, names, first, after, k + 1), Total(held), Total(after),
             multiset(PipelineInput(first, held, k)), multiset(OutputAt(w, names, first, held, k)));
  }

  lemma KeepsUnfolds(w: World, names: seq<Path>, first: seq<nat>, held: seq<seq<Resource>>, k: nat)
    requires |held| == |names| && Tree(first, |names|) && k < |names|
    requires FirstLoss(w, names, first, held, k) == |names| && OutcomeAt(w, names, first, held, k).Ran?
    ensures KeepsAt(w, names, first, held, k) && FirstLoss(w, names, first, After(w, names, first, held, k), k + 1) == |names|
  {
  }

  lemma StepConserves(w: World, names: seq<Path>, first: seq<nat>, held: seq<seq<Resource>>, k: nat)
    requires Distinct(names) && |held| == |names| && Tree(first, |names|) && k < |names|
    requires KeepsAt(w, names, first, held, k) && OwnTags(names, held) && TaggedFrom(names, held, k)
    ensures var after := After(w, names, first, held, k);
            && Total(after) + multiset(PipelineInput(first, held, k)) == Total(held) + multiset(OutputAt(w, names, first, held, k))
            && OwnTags(names, after) && TaggedFrom(names, after, k + 1)
  {
    StepExchanges(names, first, held, k, OutputAt(w, names, first, held, k));
    RedistributeKeepsOwnership(names, held, k, OutputAt(w, names, first, held, k));
  }

  lemma TrafficUnfolds(w: World, names: seq<Path>, first: seq<nat>, held: seq<seq<Resource>>, k: nat)
    requires |held| == |names| && Tree(first, |names|) && k < |names| && OutcomeAt(w, names, first, held, k).Ran?
    ensures var after := After(w, names, first, held, k);
            && Consumed(w, names, first, held, k) ==
               multiset(PipelineInput(first, held, k)) + Consumed(w, names, first, after, k + 1)
            && Produced(w, names, first, held, k) ==
               multiset(OutputAt(w, names, first, held, k)) + Produced(w, names, first, after, k + 1)
  {
  }

  lemma Exchange(end: multiset<Resource>, consumed: multiset<Resource>, produced: multiset<Resource>,
                 start: multiset<Resource>, next: multiset<Resource>, input: multiset<Resource>, output: multiset<Resource>)
    requires next + input == start + output && end + consumed == next + produced
    ensures end + (input + consumed) == start + (output + produced)
  {
    assert end + (input + consumed) == (next + produced) + input == (next + input) + produced;
  }

  /** A pipeline that leaves its input as it is changes no node. */
  lemma UnchangedStep(w: World, names: seq<Path>, first: seq<nat>, held: seq<seq<Resource>>, k: nat)
    requires Distinct(names) && |held| == |names| && Tree(first, |names|) && k < |names| && TaggedFrom(names, held, k)
    requires OutputAt(w, names, first, held, k) == PipelineInput(first, held, k)
    ensures After(w, names, first, held, k) == held && TaggedFrom(names, held, k + 1)
  {
    IdentityStep(names, first, k, held);
  }

  /** Where every pipeline that succeeds on what it receives returns that, a run completes
      exactly when all succeed, and then everything is where it was. */
  lemma {:induction false} IdentityRun(w: World, save: bool, names: seq<Path>, first: seq<nat>,
                                       held: seq<seq<Resource>>, k: nat)
    requires Distinct(names) && |held| == |names| && Tree(first, |names|) && k <= |names|
    requires TaggedFrom(names, held, k)
    requires forall t :: k <= t < |names| && OutcomeAt(w, names, first, held, t).Ran? ==>
               OutcomeAt(w, names, first, held, t) == Ran(PipelineInput(first, held, t))
    ensures RunFrom(w, save, names, first, held, k).Completed? <==>
            forall t :: k <= t < |names| ==> OutcomeAt(w, names, first, held, t).Ran?
    ensures RunFrom(w, save, names, first, held, k).Completed? ==> RunFrom(w, save, names, first, held, k) == Completed(held)
    decreases |names| - k
  {
    hide OutcomeAt, After, TaggedFrom, PipelineInput, RunFrom;
    if k == |names| {
      RunIsOver(w, save, names, first, held);
    } else {
      RunUnfolds(w, save, names, first, held, k);
      if OutcomeAt(w, names, first, held, k).Ran? {
        UnchangedStep(w, names, first, held, k);
        IdentityRun(w, save, names, first, held, k + 1);
      }
    }
  }

  // ---------------------------------------------------------------- the nodes

  /** What the nodes hold. */
  function Held(nodes: seq<PkgNode>): (held: seq<seq<Resource>>)
    reads nodes
    ensures |held| == |nodes| && forall i :: 0 <= i < |nodes| ==> held[i] == nodes[i].resources
  {
    seq(|nodes|, i requires 0 <= i < |nodes| reads nodes => nodes[i].resources)
  }

  /** A node list as discovery leaves it, without the node contents. */
  ghost predicate Indexed(nodes: seq<PkgNode>, first: seq<nat>, kids: map<Path, seq<PkgNode>>) {
    && Distinct(nodes) && Distinct(Paths(nodes)) && Tree(first, |nodes|)
    && KidsAreSlices(nodes, |nodes|, first, kids)
  }

  /** What the packages at `lo` up to `hi` and everything below them hold. */
  ghost function RangeResources(first: seq<nat>, held: seq<seq<Resource>>, lo: nat, hi: nat): seq<Resource>
    requires Tree(first, |held|) && lo <= hi <= |held|
  {
    RangeWithin(first, |held|, lo, hi);
    ResourcesAt(held, ScopeOfRange(first, |held|, lo, hi))
  }

  lemma RangeWithin(first: seq<nat>, n: nat, lo: nat, hi: nat)
    requires Tree(first, n) && lo <= hi <= n
    ensures Within(ScopeOfRange(first, n, lo, hi), lo, n)
  {
    var range := ScopeOfRange(first, n, lo, hi);
    forall i | 0 <= i < |range| ensures lo <= range[i] < n {
      assert range[i] in range;
      RangeBounds(first, n, lo, hi, range[i]);
    }
  }

  /** A range with one more package at its end. */
  lemma RangeSplits(first: seq<nat>, held: seq<seq<Resource>>, lo: nat, j: nat)
    requires Tree(first, |held|) && lo <= j < |held|
    ensures RangeResources(first, held, lo, j + 1) == RangeResources(first, held, lo, j) + PipelineInput(first, held, j)
  {
    RangeWithin(first, |held|, lo, j);
    ScopeInRange(first, |held|, j);
    ResourcesAtAppend(held, ScopeOfRange(first, |held|, lo, j), Scope(first, |held|, j));
  }

  lemma RangeGrows(first: seq<nat>, held: seq<seq<Resource>>, lo: nat, j: nat, input: seq<Resource>, soFar: seq<Resource>)
    requires Tree(first, |held|) && lo <= j < |held|
    requires soFar == input + RangeResources(first, held, lo, j)
    ensures Group(first, |held|, j)
    ensures input + RangeResources(first, held, lo, j + 1) ==
            (soFar + held[j]) + RangeResources(first, held, first[j], first[j + 1])
  {
    InputIsOwnAndBelow(first, held, j);
    RangeTakesInput(first, held, lo, j, input, soFar);
    Assoc(soFar, held[j], RangeResources(first, held, first[j], first[j + 1]));
  }

  lemma RangeTakesInput(first: seq<nat>, held: seq<seq<Resource>>, lo: nat, j: nat, input: seq<Resource>, soFar: seq<Resource>)
    requires Tree(first, |held|) && lo <= j < |held|
    requires soFar == input + RangeResources(first, held, lo, j)
    ensures input + RangeResources(first, held, lo, j + 1) == soFar + PipelineInput(first, held, j)
  {
    RangeSplits(first, held, lo, j);
    Assoc(input, RangeResources(first, held, lo, j), PipelineInput(first, held, j));
  }

  lemma InputIsOwnAndBelow(first: seq<nat>, held: seq<seq<Resource>>, k: nat)
    requires Tree(first, |held|) && k < |held|
    ensures Group(first, |held|, k)
    ensures PipelineInput(first, held, k) == held[k] + RangeResources(first, held, first[k], first[k + 1])
  {
    assert Group(first, |held|, k);
    RangeWithin(first, |held|, first[k], first[k + 1]);
    ResourcesAtAppend(held, [k], ScopeOfRange(first, |held|, first[k], first[k + 1]));
    assert ResourcesAt(held, [k]) == held[k];
  }

  /** The subpackages of the `k`-th node stand, in order, from `first[k]` on. */
  lemma KidsInPlace(nodes: seq<PkgNode>, kids: map<Path, seq<PkgNode>>, first: seq<nat>, k: nat)
    requires Indexed(nodes, first, kids) && k < |nodes|
    ensures Group(first, |nodes|, k) && nodes[k].path in kids
    ensures first[k] + |kids[nodes[k].path]| == first[k + 1]
  {
    assert KidsAt(nodes, first, kids, k);
  }

  lemma KidInPlace(nodes: seq<PkgNode>, kids: map<Path, seq<PkgNode>>, first: seq<nat>, k: nat, i: nat)
    requires Indexed(nodes, first, kids) && k < |nodes| && nodes[k].path in kids && i < |kids[nodes[k].path]|
    ensures k + 1 < |first| && first[k] + i < |nodes| && kids[nodes[k].path][i] == nodes[first[k] + i]
  {
    assert KidsAt(nodes, first, kids, k);
  }

  lemma EmptyRange(first: seq<nat>, held: seq<seq<Resource>>, lo: nat, input: seq<Resource>)
    requires Tree(first, |held|) && lo <= |held|
    ensures input + RangeResources(first, held, lo, lo) == input
  {
  }

  /** Append what the packages below `n` hold, each before its own subpackages. */
  method CollectDescendants(n: PkgNode, input: seq<Resource>, nodes: seq<PkgNode>, kids: map<Path, seq<PkgNode>>,
                            ghost first: seq<nat>, ghost k: nat)
    returns (extended: seq<Resource>)
    requires Indexed(nodes, first, kids) && k < |nodes| && nodes[k] == n
    ensures Group(first, |nodes|, k)
    ensures extended == input + RangeResources(first, Held(nodes), first[k], first[k + 1])
    decreases |nodes| - k, 0
  {
    KidsInPlace(nodes, kids, first, k);
    extended := input;
    var children := kids[n.path];
    ghost var lo, j := first[k], first[k];
    EmptyRange(first, Held(nodes), lo, input);
    for i := 0 to |children|
      invariant j == lo + i && extended == input + RangeResources(first, Held(nodes), lo, j)
    {
      KidInPlace(nodes, kids, first, k, i);
      extended := CollectChild(children[i], extended, nodes, kids, first, lo, j, input);
      j := j + 1;
    }
  }

  /** One subpackage, the `j`-th package, with everything below it. */
  method CollectChild(child: PkgNode, soFar: seq<Resource>, nodes: seq<PkgNode>, kids: map<Path, seq<PkgNode>>,
                      ghost first: seq<nat>, ghost lo: nat, ghost j: nat, ghost input: seq<Resource>)
    returns (extended: seq<Resource>)
    requires Indexed(nodes, first, kids) && lo <= j < |nodes| && nodes[j] == child
    requires soFar == input + RangeResources(first, Held(nodes), lo, j)
    ensures extended == input + RangeResources(first, Held(nodes), lo, j + 1)
    decreases |nodes| - j, 1
  {
    RangeGrows(first, Held(nodes), lo, j, input, soFar);
    extended := CollectDescendants(child, soFar + child.resources, nodes, kids, first, j);
  }

  /** A package sees itself and its descendants, and nothing else. */
  method BuildPipelineInputWithScopedVisibility(node: PkgNode, nodes: seq<PkgNode>, kids: map<Path, seq<PkgNode>>,
                                                ghost first: seq<nat>, ghost k: nat)
    returns (input: seq<Resource>)
    requires Indexed(nodes, first, kids) && k < |nodes| && nodes[k] == node
    ensures input == PipelineInput(first, Held(nodes), k)
  {
    InputIsOwnAndBelow(first, Held(nodes), k);
    input := CollectDescendants(node, node.resources, nodes, kids, first, k);
  }

  /** Group the resources of `current` by owner and hand each group to its node. */
  method PropagateResourcesAcrossNodes(current: PkgNode, nodes: seq<PkgNode>, ghost k: nat)
    requires Distinct(nodes) && Distinct(Paths(nodes)) && k < |nodes| && nodes[k] == current
    modifies nodes`resources
    ensures Held(nodes) == Redistribute(Paths(nodes), old(Held(nodes)), k, old(current.resources))
  {
    var byPackage := GroupByPackage(current.resources, current.path);
    var remaining := HandOut(byPackage, current, nodes, k);
    current.resources := remaining;
    ghost var names, held, output := Paths(nodes), old(Held(nodes)), old(current.resources);
    forall t | 0 <= t < |nodes|
      ensures nodes[t].resources == Redistribute(names, held, k, output)[t]
    {
      assert t != k ==> nodes[t] != current;
    }
  }

  function Received(byPackage: map<Path, seq<Resource>>, p: Path, otherwise: seq<Resource>): seq<Resource> {
    if p in byPackage then byPackage[p] else otherwise
  }

  /** Every node but `current` gets its group, if there is one; `current`'s is returned. */
  method HandOut(byPackage: map<Path, seq<Resource>>, current: PkgNode, nodes: seq<PkgNode>, ghost k: nat)
    returns (remaining: seq<Resource>)
    requires Distinct(nodes) && Distinct(Paths(nodes)) && k < |nodes| && nodes[k] == current
    modifies nodes`resources
    ensures remaining == Received(byPackage, current.path, [])
    ensures forall u :: 0 <= u < |nodes| && u != k ==>
              nodes[u].resources == Received(byPackage, nodes[u].path, old(nodes[u].resources))
  {
    remaining := [];
    for t := 0 to |nodes|
      invariant forall u :: t <= u < |nodes| ==> nodes[u].resources == old(nodes[u].resources)
      invariant forall u :: 0 <= u < t && u != k ==>
                  nodes[u].resources == Received(byPackage, nodes[u].path, old(nodes[u].resources))
      invariant remaining == if k < t then Received(byPackage, current.path, []) else []
    {
      var target := nodes[t];
      assert Paths(nodes)[t] == Paths(nodes)[k] ==> t == k;
      if target.path in byPackage {
        if target.path == current.path {
          remaining := remaining + byPackage[target.path];
        } else {
          target.resources := byPackage[target.path];
        }
      }
    }
  }

  method GroupByPackage(resources: seq<Resource>, current: Path) returns (byPackage: map<Path, seq<Resource>>)
    ensures forall p :: p in byPackage <==> Share(resources, current, p) != []
    ensures forall p :: p in byPackage ==> byPackage[p] == Share(resources, current, p)
  {
    byPackage := map[];
    for i := 0 to |resources|
      invariant forall p :: p in byPackage <==> Share(resources[..i], current, p) != []
      invariant forall p :: p in byPackage ==> byPackage[p] == Share(resources[..i], current, p)
    {
      assert resources[..i + 1][..i] == resources[..i];
      var r := resources[i];
      var p := Owner(r, current);
      byPackage := byPackage[p := (if p in byPackage then byPackage[p] else []) + [r]];
    }
    assert resources[..|resources|] == resources;
  }

  /** The root's node ends up with everything, in listing order. */
  method AggregateRootResources(nodes: seq<PkgNode>, root: PkgNode)
    modifies root`resources
    ensures root.resources == ResourcesAt(old(Held(nodes)), Everything(|nodes|))
  {
    var aggregated: seq<Resource> := [];
    ghost var held, all := Held(nodes), Everything(|nodes|);
    for t := 0 to |nodes|
      invariant aggregated == ResourcesAt(held, all[..t])
    {
      assert all[..t + 1][..t] == all[..t];
      aggregated := aggregated + nodes[t].resources;
    }
    assert all[..|nodes|] == all;
    root.resources := aggregated;
  }

  /** What the nodes hold at the end: the root everything, the others their share. */
  ghost predicate Aggregated(nodes: seq<PkgNode>, held: seq<seq<Resource>>)
    requires |held| == |nodes| && nodes != []
    reads nodes
  {
    && nodes[0].resources == ResourcesAt(held, Everything(|held|))
    && forall t :: 0 < t < |nodes| ==> nodes[t].resources == held[t]
  }

  /** What a node held before its own output is distributed does not matter. */
  lemma OwnListIrrelevant(names: seq<Path>, held: seq<seq<Resource>>, other: seq<seq<Resource>>, k: nat, output: seq<Resource>)
    requires |held| == |other| == |names| && k < |names|
    requires forall t :: 0 <= t < |names| && t != k ==> held[t] == other[t]
    ensures Redistribute(names, held, k, output) == Redistribute(names, other, k, output)
  {
  }

  /** Replace what `node` holds and distribute it. */
  method Distribute(node: PkgNode, output: seq<Resource>, nodes: seq<PkgNode>, ghost k: nat)
    requires Distinct(nodes) && Distinct(Paths(nodes)) && k < |nodes| && nodes[k] == node
    modifies nodes`resources
    ensures Held(nodes) == Redistribute(Paths(nodes), old(Held(nodes)), k, output)
  {
    node.resources := output;
    OwnListIrrelevant(Paths(nodes), Held(nodes), old(Held(nodes)), k, output);
    PropagateResourcesAcrossNodes(node, nodes, k);
  }

  /** Run the pipeline on what it sees. */
  method RunScoped(node: PkgNode, nodes: seq<PkgNode>, kids: map<Path, seq<PkgNode>>, hctx: HydrationContext,
                   ghost first: seq<nat>, ghost k: nat)
    returns (outcome: PipelineOutcome, output: seq<Resource>)
    requires Indexed(nodes, first, kids) && k < |nodes| && nodes[k] == node
    modifies hctx`pkgs, node`state
    ensures Held(nodes) == old(Held(nodes))
    ensures outcome == OutcomeAt(hctx.w, Paths(nodes), first, Held(nodes), k)
    ensures output == OutputAt(hctx.w, Paths(nodes), first, Held(nodes), k)
  {
    ghost var held := Held(nodes);
    node.state := Hydrating;
    hctx.pkgs := hctx.pkgs[node.path := node];
    assert Held(nodes) == held;
    var input := BuildPipelineInputWithScopedVisibility(node, nodes, kids, first, k);
    outcome := hctx.w.run(node.path, input);
    output := match outcome
      case Ran(output) => output
      case Broke(_, reached) => if reached.Some? then reached.value else input;
  }

  /** The pipeline of one package. */
  method RunPackage(node: PkgNode, nodes: seq<PkgNode>, kids: map<Path, seq<PkgNode>>, hctx: HydrationContext,
                    ghost first: seq<nat>, ghost k: nat)
    returns (err: Option<Error>)
    requires Indexed(nodes, first, kids) && k < |nodes| && nodes[k] == node
    modifies hctx`pkgs, nodes`resources, node`state
    ensures match OutcomeAt(hctx.w, Paths(nodes), first, old(Held(nodes)), k)
            case Ran(_) => err == None && node.state == Wet
            case Broke(why, _) => err == Some(PipelineFailed(why))
    ensures Held(nodes) == if err.None? || hctx.save then After(hctx.w, Paths(nodes), first, old(Held(nodes)), k)
                           else old(Held(nodes))
  {
    var outcome, output := RunScoped(node, nodes, kids, hctx, first, k);
    if outcome.Ran? {
      node.state := Wet;
      Distribute(node, output, nodes, k);
      err := None;
    } else {
      if hctx.save {
        Distribute(node, output, nodes, k);
      }
      err := Some(PipelineFailed(outcome.why));
    }
  }

  method ExecutePipelinesWithScopedVisibility(nodes: seq<PkgNode>, kids: map<Path, seq<PkgNode>>, hctx: HydrationContext,
                                              ghost first: seq<nat>)
    returns (err: Option<Error>)
    requires Indexed(nodes, first, kids)
    modifies hctx`pkgs, nodes
    ensures match RunFrom(hctx.w, hctx.save, Paths(nodes), first, old(Held(nodes)), 0)
            case Completed(held) => err == None && Aggregated(nodes, held)
            case Aborted(why, held) =>
              && err == Some(PipelineFailed(why))
              && if hctx.save then Aggregated(nodes, held) else Held(nodes) == held
  {
    hide RunFrom;
    ghost var run := RunFrom(hctx.w, hctx.save, Paths(nodes), first, Held(nodes), 0);
    err := RunAll(nodes, kids, hctx, first, run);
    if err.None? || hctx.save {
      AggregateRootResources(nodes, nodes[0]);
    }
  }

  /** `run` is what the run will come to from the `k`-th package on. */
  ghost predicate Remaining(hctx: HydrationContext, nodes: seq<PkgNode>, first: seq<nat>, k: nat, run: Run)
    reads nodes
  {
    && Tree(first, |nodes|) && k <= |nodes|
    && run == RunFrom(hctx.w, hctx.save, Paths(nodes), first, Held(nodes), k)
  }

  /** The pipeline of the `k`-th package. */
  method RunNext(nodes: seq<PkgNode>, kids: map<Path, seq<PkgNode>>, hctx: HydrationContext, k: nat,
                 ghost first: seq<nat>, ghost run: Run)
    returns (err: Option<Error>)
    requires Indexed(nodes, first, kids) && k < |nodes| && Remaining(hctx, nodes, first, k, run)
    modifies hctx`pkgs, nodes
    ensures err.None? ==> Remaining(hctx, nodes, first, k + 1, run)
    ensures err.Some? ==> run.Aborted? && err == Some(PipelineFailed(run.why)) && Held(nodes) == run.held
  {
    RunUnfolds(hctx.w, hctx.save, Paths(nodes), first, Held(nodes), k);
    err := RunPackage(nodes[k], nodes, kids, hctx, first, k);
  }

  lemma NothingRemains(hctx: HydrationContext, nodes: seq<PkgNode>, first: seq<nat>, run: Run)
    requires Remaining(hctx, nodes, first, |nodes|, run)
    ensures run == Completed(Held(nodes))
  {
  }

  /** Every pipeline in turn, up to the first failure. */
  method RunAll(nodes: seq<PkgNode>, kids: map<Path, seq<PkgNode>>, hctx: HydrationContext, ghost first: seq<nat>, ghost run: Run)
    returns (err: Option<Error>)
    requires Indexed(nodes, first, kids) && Remaining(hctx, nodes, first, 0, run)
    modifies hctx`pkgs, nodes
    ensures err == if run.Completed? then None else Some(PipelineFailed(run.why))
    ensures Held(nodes) == run.held
  {
    hide *;
    for k := 0 to |nodes|
      invariant Remaining(hctx, nodes, first, k, run)
    {
      err := RunNext(nodes, kids, hctx, k, first, run);
      if err.Some? {
        return;
      }
    }
    NothingRemains(hctx, nodes, first, run);
    err := None;
  }

  /** What discovery loads: the local resources of the listed packages. */
  ghost function Locals(w: World, order: seq<Path>): (held: seq<seq<Resource>>)
    ensures |held| == |order| && forall i :: 0 <= i < |order| && w.local(order[i]).Ok? ==> held[i] == w.local(order[i]).value
  {
    seq(|order|, i requires 0 <= i < |order| =>
      match w.local(order[i]) case Ok(own) => own case Err(_) => [])
  }

  lemma DiscoveredIsIndexed(w: World, root: Path, nodes: seq<PkgNode>, first: seq<nat>, kids: map<Path, seq<PkgNode>>)
    requires Discovered(w, root, nodes, first, kids)
    ensures Indexed(nodes, first, kids) && Held(nodes) == Locals(w, Paths(nodes))
  {
    ListingIsIndexTree(w, root, Paths(nodes), first);
    forall i | 0 <= i < |nodes| ensures Held(nodes)[i] == Locals(w, Paths(nodes))[i] {
      assert w.local(Paths(nodes)[i]) == Ok(nodes[i].resources);
    }
  }

  /** One whole breadth-first hydration.  On success the packages form a tree, `order`
      lists them, and the output is all resources at the end of the run over `order`. */
  method HydrateBfsOrder(root: PkgNode, hctx: HydrationContext, ghost universe: set<Path>)
    returns (output: Option<seq<Resource>>, err: Option<Error>, ghost order: seq<Path>, ghost first: seq<nat>)
    requires Closed(hctx.w, universe) && root.path in universe && hctx.pkgs == map[]
    modifies hctx`pkgs, root
    ensures TreeShaped(hctx.w, root.path) && !SomeReadFails(hctx.w, root.path) ==> Listing(hctx.w, root.path, order, first)
    ensures !Listing(hctx.w, root.path, order, first) ==>
              && err.Some? && output == None
              && (err == Some(InvalidState) || err.value.ReadFailed?)
    ensures CycleBelow(hctx.w, root.path) ==> err.Some? && output == None
    ensures CycleBelow(hctx.w, root.path) && !SomeReadFails(hctx.w, root.path) ==> err == Some(InvalidState)
    ensures Listing(hctx.w, root.path, order, first) ==>
              && Tree(first, |order|)
              && match RunFrom(hctx.w, hctx.save, order, first, Locals(hctx.w, order), 0)
                 case Completed(held) =>
                   err == None && output == Some(root.resources) && root.resources == ResourcesAt(held, Everything(|order|))
                 case Aborted(why, held) =>
                   && err == Some(PipelineFailed(why)) && output == None
                   && root.resources == if hctx.save then ResourcesAt(held, Everything(|order|)) else held[0]
  {
    var nodes, kids;
    nodes, kids, err, first := DiscoverAndLoadPackages(root, hctx, universe);
    output := None;
    order := Paths(nodes);
    if err.Some? {
      order := [];
      return;
    }
    assert !CycleBelow(hctx.w, root.path);
    DiscoveredIsIndexed(hctx.w, root.path, nodes, first, kids);
    assert forall i :: 0 <= i < |nodes| ==> nodes[i] in nodes;
    err := ExecutePipelinesWithScopedVisibility(nodes, kids, hctx, first);
    if err.None? {
      output := Some(root.resources);
    }
  }
}
