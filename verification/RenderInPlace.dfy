/** A whole render that writes in place: hydration with the pipelines the Kptfiles declare,
    in either order, and then pruning.  The path check at the end of every function makes
    pruning exact. */
module RenderInPlace {
  import opened DiscoverPackages
  import opened FilePaths
  import opened FilePruning
  import opened PackageGraph
  import opened PathSafety
  import opened Redistribution
  import opened Resources
  import opened ScopedVisibility
  import opened Sequences
  import opened Wrappers
  import BreadthFirst = HydrateBreadthFirst
  import DepthFirst = HydrateDepthFirst
  import FunctionExecution
  import MutatorChain
  import opened HydrationAgreement
  import PackagePipeline

  // ---------------------------------------------------------------- declared pipelines

  datatype Declared = Declared(mutators: seq<FunctionExecution.Function>, validators: seq<FunctionExecution.Function>)

  /** What the Kptfile of each package declares, if it is valid, and where its functions run. */
  datatype Kptfiles = Kptfiles(
    pipeline: Path -> Result<Declared, string>,
    runtime: Path -> FunctionExecution.Runtime)

  function Message(e: FunctionExecution.RunError): string {
    match e
    case OtherError(why) => why
    case AlreadyHandled => "already handled error"
    case ExecError(_) => "function failed"
  }

  /** The pipeline of the package at `p`. */
  function RunDeclared(kptfiles: Kptfiles, p: Path, input: seq<Resource>): PipelineOutcome {
    match kptfiles.pipeline(p)
    case Err(why) => Broke(why, None)
    case Ok(declared) =>
      var y := PackagePipeline.Pipeline(kptfiles.runtime(p), p, declared.mutators, declared.validators, input);
      if y.err.None? then Ran(y.output.value) else Broke(Message(y.err.value), y.output)
  }

  /** An invalid Kptfile breaks its pipeline; a valid one makes it put out what its functions
      leave, or hand that back when they fail. */
  lemma RunDeclaredExactly(kptfiles: Kptfiles, p: Path, input: seq<Resource>)
    ensures kptfiles.pipeline(p).Err? ==> RunDeclared(kptfiles, p, input) == Broke(kptfiles.pipeline(p).error, None)
    ensures kptfiles.pipeline(p).Ok? ==>
              var d := kptfiles.pipeline(p).value;
              var y := PackagePipeline.Pipeline(kptfiles.runtime(p), p, d.mutators, d.validators, input);
              if y.err.None? then Some(RunDeclared(kptfiles, p, input).output) == y.output && RunDeclared(kptfiles, p, input).Ran?
              else RunDeclared(kptfiles, p, input).Broke? && RunDeclared(kptfiles, p, input).reached == y.output
  {
  }

  /** A package with one function that takes everything and passes: the package yields what
      the function returns, with the package filled in. */
  lemma OneFunctionDecides(kptfiles: Kptfiles, p: Path, input: seq<Resource>, fn: FunctionExecution.Function)
    requires kptfiles.pipeline(p) == Ok(Declared([fn], []))
    requires fn.selectors == [] && fn.exclusions == [] && fn.configPath == "" && fn.configRef == None
    requires var rt := kptfiles.runtime(p);
             && (fn.exec == "" || rt.allowExec) && rt.instantiate(fn).Ok?
             && rt.condition(fn, input) == Ok(true) && rt.areKrm(input)
             && FunctionExecution.Passable(rt, p, rt.invoke(fn, None, input)) && rt.invoke(fn, None, input).failure.None?
    ensures RunDeclared(kptfiles, p, input) ==
            Ran(FunctionExecution.TagAll(kptfiles.runtime(p).invoke(fn, None, input).output, p))
  {
    hide FunctionExecution.TagAll, FunctionExecution.Passable, MutatorChain.TurnOf, MutatorChain.Chain;
    var rt := kptfiles.runtime(p);
    MutatorChain.PlainTurnLeavesOutput(rt, p, fn, input, None);
    MutatorChain.ChainOfOne(rt, p, fn, input);
    PackagePipeline.PipelineSucceedsExactly(rt, p, [fn], [], input);
    var output := FunctionExecution.TagAll(rt.invoke(fn, None, input).output, p);
    assert output + [] == output;
  }

  /** A world whose pipelines are the declared ones. */
  ghost predicate Declares(w: World, kptfiles: Kptfiles) {
    forall p, input :: w.run(p, input) == RunDeclared(kptfiles, p, input)
  }

  /** No pipeline lets a resource out of its package. */
  lemma DeclaredPipelinesKeepPaths(w: World, kptfiles: Kptfiles)
    requires Declares(w, kptfiles)
    ensures PipelinesKeep(w, StaysInPackage)
  {
    forall p, input | AllHave(StaysInPackage, input) ensures OutcomeHas(StaysInPackage, w.run(p, input)) {
      assert w.run(p, input) == RunDeclared(kptfiles, p, input);
      RunDeclaredStays(kptfiles, p, input);
    }
  }

  lemma RunDeclaredStays(kptfiles: Kptfiles, p: Path, input: seq<Resource>)
    requires AllHave(StaysInPackage, input)
    ensures OutcomeHas(StaysInPackage, RunDeclared(kptfiles, p, input))
  {
    match kptfiles.pipeline(p)
    case Err(_) =>
    case Ok(declared) => PipelineStays(kptfiles.runtime(p), p, declared.mutators, declared.validators, input);
  }

  // ---------------------------------------------------------------- reads

  /** The reader leaves every resource in a package within the root package, and in a file
      of that. */
  ghost predicate ReadsBelow(w: World, root: Path) {
    forall p :: Reaches(w, root, p) && w.local(p).Ok? ==> AllReadBelow(Parse(root), w.local(p).value)
  }

  /** Resources that were read in packages reachable from `root`. */
  ghost predicate ReadIn(w: World, root: Path, input: seq<Resource>) {
    forall r :: r in input ==> exists p :: Reaches(w, root, p) && w.local(p).Ok? && r in w.local(p).value
  }

  lemma InputIsReadBelow(w: World, root: Path, input: seq<Resource>)
    requires ReadsBelow(w, root) && ReadIn(w, root, input)
    ensures AllReadBelow(Parse(root), input)
  {
    forall r | r in input ensures ReadBelow(Parse(root), r) {
      var p :| Reaches(w, root, p) && w.local(p).Ok? && r in w.local(p).value;
      assert AllReadBelow(Parse(root), w.local(p).value);
    }
  }

  lemma ReadsStay(w: World, root: Path)
    requires ReadsBelow(w, root)
    ensures ReadsHave(w, root, StaysInPackage)
  {
    forall p | Reaches(w, root, p) && w.local(p).Ok? ensures AllHave(StaysInPackage, w.local(p).value) {
      assert AllReadBelow(Parse(root), w.local(p).value);
      forall r | r in w.local(p).value ensures StaysInPackage(r) {
        ReadStaysInPackage(Parse(root), r);
      }
    }
  }

  // ---------------------------------------------------------------- pruning after a render

  /** `left` is what pruning leaves of the files on the disk, where `input` was read and
      `output` has been written. */
  ghost predicate PrunedAfter(root: Path, input: seq<Resource>, output: seq<Resource>, before: set<Name>, after: set<Name>,
                              files: set<Place>, left: set<Place>) {
    && Rendered(Parse(root), input, output, before, after)
    && OnDisk(input, files) && Pruned(Parse(root), before, after, files, left)
  }

  /** Of the files on the disk, exactly those are gone that were read and that nothing of
      the output is kept in. */
  ghost predicate DropsExactly(input: seq<Resource>, output: seq<Resource>, files: set<Place>, left: set<Place>) {
    forall x :: x in left <==> x in files && (KeptIn(input, x) ==> KeptIn(output, x))
  }

  lemma PrunesExactly(root: Path, input: seq<Resource>, output: seq<Resource>, before: set<Name>, after: set<Name>,
                      files: set<Place>, left: set<Place>)
    requires PrunedAfter(root, input, output, before, after, files, left)
    requires AllReadBelow(Parse(root), input) && AllHave(StaysInPackage, output)
    ensures DropsExactly(input, output, files, left)
  {
    hide Rendered, OnDisk, Pruned, KeptIn, AllReadBelow;
    forall x ensures x in left <==> x in files && (KeptIn(input, x) ==> KeptIn(output, x)) {
      LeftIsAllButDropped(Parse(root), input, output, before, after, files, left, x);
    }
  }

  /** Depth-first rendering in place, with whatever pipelines and functions: if it succeeds,
      exactly the files go that were read and that no rendered resource is kept in. */
  lemma DepthFirstRenderPrunesExactly(w: World, kptfiles: Kptfiles, save: bool, universe: set<Path>, root: Path,
                                      input: seq<Resource>, before: set<Name>, after: set<Name>,
                                      files: set<Place>, left: set<Place>)
    requires Closed(w, universe) && root in universe && Declares(w, kptfiles)
    requires ReadsBelow(w, root) && ReadIn(w, root, input)
    requires DepthFirst.Reference(w, save, universe, root, {}).Done?
    requires PrunedAfter(root, input, DepthFirst.Reference(w, save, universe, root, {}).resources, before, after, files, left)
    ensures DropsExactly(input, DepthFirst.Reference(w, save, universe, root, {}).resources, files, left)
  {
    hide *;
    ReadsStay(w, root);
    DeclaredPipelinesKeepPaths(w, kptfiles);
    ReachesSelf(w, root);
    DepthFirst.ReferenceKeeps(w, save, universe, root, root, {}, StaysInPackage);
    InputIsReadBelow(w, root, input);
    PrunesExactly(root, input, DepthFirst.Reference(w, save, universe, root, {}).resources, before, after, files, left);
  }

  /** The same for breadth-first rendering: its output is all that the packages hold at the
      end of a completed run. */
  lemma BreadthFirstRenderPrunesExactly(w: World, kptfiles: Kptfiles, save: bool, root: Path, order: seq<Path>, first: seq<nat>,
                                        output: seq<Resource>, input: seq<Resource>, before: set<Name>, after: set<Name>,
                                        files: set<Place>, left: set<Place>)
    requires Listing(w, root, order, first) && Tree(first, |order|) && Declares(w, kptfiles)
    requires ReadsBelow(w, root) && ReadIn(w, root, input)
    requires EndsWith(w, save, order, first, output)
    requires PrunedAfter(root, input, output, before, after, files, left)
    ensures DropsExactly(input, output, files, left)
  {
    hide *;
    ReadsStay(w, root);
    DeclaredPipelinesKeepPaths(w, kptfiles);
    LocalsHave(w, root, order, first, StaysInPackage);
    BreadthFirst.RunKeeps(w, save, order, first, BreadthFirst.Locals(w, order), 0, StaysInPackage);
    EndHas(w, save, order, first, output, StaysInPackage);
    InputIsReadBelow(w, root, input);
    PrunesExactly(root, input, output, before, after, files, left);
  }

  /** A completed breadth-first run puts out `output`. */
  ghost predicate EndsWith(w: World, save: bool, order: seq<Path>, first: seq<nat>, output: seq<Resource>)
    requires Tree(first, |order|)
  {
    var run := BreadthFirst.RunFrom(w, save, order, first, BreadthFirst.Locals(w, order), 0);
    run.Completed? && output == ResourcesAt(run.held, BreadthFirst.Everything(|order|))
  }

  lemma EndHas(w: World, save: bool, order: seq<Path>, first: seq<nat>, output: seq<Resource>, has: Resource -> bool)
    requires Tree(first, |order|) && EndsWith(w, save, order, first, output)
    requires BreadthFirst.HeldHave(has, BreadthFirst.RunFrom(w, save, order, first, BreadthFirst.Locals(w, order), 0).held)
    ensures AllHave(has, output)
  {
    hide BreadthFirst.RunFrom, BreadthFirst.HeldHave, AllHave;
    var run := BreadthFirst.RunFrom(w, save, order, first, BreadthFirst.Locals(w, order), 0);
    BreadthFirst.ListsHave(run.held, BreadthFirst.Everything(|order|), has);
  }

  lemma LocalsHave(w: World, root: Path, order: seq<Path>, first: seq<nat>, has: Resource -> bool)
    requires Listing(w, root, order, first) && ReadsHave(w, root, has)
    ensures BreadthFirst.HeldHave(has, BreadthFirst.Locals(w, order))
  {
    forall t | 0 <= t < |order| ensures AllHave(has, BreadthFirst.Locals(w, order)[t]) {
      ListingComplete(w, root, order, first, order[t]);
      assert w.local(order[t]).Ok? ==> AllHave(has, w.local(order[t]).value);
    }
  }

  // ---------------------------------------------------------------- packages without functions

  ghost predicate WithoutFunctions(kptfiles: Kptfiles, order: seq<Path>, k: nat) {
    forall t :: k <= t < |order| ==> kptfiles.pipeline(order[t]) == Ok(Declared([], []))
  }

  /** All that happens to a package without functions: its resources must be KRM. */
  lemma RunWithoutFunctions(kptfiles: Kptfiles, p: Path, input: seq<Resource>)
    requires kptfiles.pipeline(p) == Ok(Declared([], []))
    ensures RunDeclared(kptfiles, p, input) ==
            if kptfiles.runtime(p).areKrm(input) then Ran(input) else Broke("input " + FunctionExecution.NOT_KRM, None)
  {
  }

  /** Packages without functions are isolated in breadth-first rendering, KRM or not: what
      they hand on names nothing outside their subtrees. */
  lemma IsolatedWithoutFunctions(w: World, kptfiles: Kptfiles, save: bool, order: seq<Path>, first: seq<nat>,
                                 held: seq<seq<Resource>>, k: nat)
    requires Distinct(order) && |held| == |order| && Tree(first, |order|) && k <= |order| && TaggedFrom(order, held, k)
    requires Declares(w, kptfiles) && WithoutFunctions(kptfiles, order, k)
    ensures BreadthFirst.StaysOnTheWay(w, save, order, first, held, k)
  {
    hide PipelineInput, TaggedFrom, RunDeclared, BreadthFirst.StaysOnTheWay;
    forall t | k <= t < |order|
      ensures BreadthFirst.OutputAt(w, order, first, held, t) == PipelineInput(first, held, t)
    {
      assert w.run(order[t], PipelineInput(first, held, t)) == RunDeclared(kptfiles, order[t], PipelineInput(first, held, t));
      RunWithoutFunctions(kptfiles, order[t], PipelineInput(first, held, t));
    }
    BreadthFirst.UnchangingStays(w, save, order, first, held, k);
  }

  ghost predicate AllKrm(w: World, kptfiles: Kptfiles, order: seq<Path>, first: seq<nat>)
    requires Tree(first, |order|)
  {
    forall t :: 0 <= t < |order| ==> kptfiles.runtime(order[t]).areKrm(ReceivedAt(w, order, first, t))
  }

  lemma QuietWithoutFunctions(w: World, kptfiles: Kptfiles, order: seq<Path>, first: seq<nat>)
    requires Tree(first, |order|) && Readable(w, order) && Declares(w, kptfiles) && WithoutFunctions(kptfiles, order, 0)
    ensures Quiet(w, order, first)
    ensures AllKrm(w, kptfiles, order, first) <==> forall t :: 0 <= t < |order| ==> SucceedsAt(w, order, first, t)
  {
    hide ReceivedAt, Readable, RunDeclared;
    forall t | 0 <= t < |order|
      ensures SucceedsAt(w, order, first, t) <==> kptfiles.runtime(order[t]).areKrm(ReceivedAt(w, order, first, t))
      ensures SucceedsAt(w, order, first, t) ==>
                w.run(order[t], ReceivedAt(w, order, first, t)) == Ran(ReceivedAt(w, order, first, t))
    {
      var input := ReceivedAt(w, order, first, t);
      assert w.run(order[t], input) == RunDeclared(kptfiles, order[t], input);
      RunWithoutFunctions(kptfiles, order[t], input);
    }
  }

  /** Without functions the two orders succeed alike, exactly when what every package sees is
      KRM, and then both render all local resources. */
  lemma OrdersAgreeWithoutFunctions(w: World, kptfiles: Kptfiles, save: bool, universe: set<Path>, root: Path,
                                    order: seq<Path>, first: seq<nat>)
    requires Closed(w, universe) && root in universe && Listing(w, root, order, first) && Tree(first, |order|)
    requires Readable(w, order) && Declares(w, kptfiles) && WithoutFunctions(kptfiles, order, 0)
    ensures var depth := DepthFirst.Reference(w, save, universe, root, {});
            var breadth := BreadthFirst.RunFrom(w, save, order, first, BreadthFirst.Locals(w, order), 0);
            && (depth.Done? <==> AllKrm(w, kptfiles, order, first)) && (breadth.Completed? <==> AllKrm(w, kptfiles, order, first))
            && (breadth.Completed? ==> breadth == BreadthFirst.Completed(BreadthFirst.Locals(w, order)))
            && (depth.Done? ==>
                  multiset(depth.resources) ==
                  multiset(ResourcesAt(BreadthFirst.Locals(w, order), BreadthFirst.Everything(|order|))))
  {
    hide Quiet, AllKrm, SucceedsAt, DepthFirst.Reference, BreadthFirst.RunFrom, Readable;
    QuietWithoutFunctions(w, kptfiles, order, first);
    HydrationsAgree(w, save, universe, root, order, first);
  }

  /** What was read in a listed package is kept in any output made of all local resources. */
  lemma AllReadsKept(w: World, root: Path, order: seq<Path>, first: seq<nat>, input: seq<Resource>, output: seq<Resource>, file: Place)
    requires Listing(w, root, order, first) && ReadIn(w, root, input) && KeptIn(input, file)
    requires multiset(output) == multiset(ResourcesAt(BreadthFirst.Locals(w, order), BreadthFirst.Everything(|order|)))
    ensures KeptIn(output, file)
  {
    hide FileOfResource, Listing;
    var held, all := BreadthFirst.Locals(w, order), BreadthFirst.Everything(|order|);
    var i :| 0 <= i < |input| && FileOfResource(input[i]) == file;
    var r := input[i];
    assert r in input;
    var p :| Reaches(w, root, p) && w.local(p).Ok? && r in w.local(p).value;
    ListingComplete(w, root, order, first, p);
    var t :| 0 <= t < |order| && order[t] == p;
    assert r in held[all[t]];
    ResourcesAtMember(held, all, r);
    assert r in multiset(output);
    var j :| 0 <= j < |output| && output[j] == r;
  }

  /** A package tree without functions loses no file by being rendered, in either order. */
  lemma NothingGoesWithoutFunctions(w: World, kptfiles: Kptfiles, save: bool, universe: set<Path>, root: Path,
                                    order: seq<Path>, first: seq<nat>, breadthFirst: bool, output: seq<Resource>,
                                    input: seq<Resource>, before: set<Name>, after: set<Name>,
                                    files: set<Place>, left: set<Place>)
    requires Closed(w, universe) && root in universe && Listing(w, root, order, first) && Tree(first, |order|)
    requires Readable(w, order) && Declares(w, kptfiles) && WithoutFunctions(kptfiles, order, 0)
    requires ReadsBelow(w, root) && ReadIn(w, root, input)
    requires if breadthFirst then EndsWith(w, save, order, first, output)
             else DepthFirst.Reference(w, save, universe, root, {}) == DepthFirst.Done(output)
    requires PrunedAfter(root, input, output, before, after, files, left)
    ensures left == files
  {
    hide *;
    OrdersAgreeWithoutFunctions(w, kptfiles, save, universe, root, order, first);
    if breadthFirst {
      BreadthFirstRenderPrunesExactly(w, kptfiles, save, root, order, first, output, input, before, after, files, left);
      EndsWithLocals(w, save, order, first, output);
    } else {
      DepthFirstRenderPrunesExactly(w, kptfiles, save, universe, root, input, before, after, files, left);
    }
    forall x ensures KeptIn(input, x) ==> KeptIn(output, x) {
      if KeptIn(input, x) {
        AllReadsKept(w, root, order, first, input, output, x);
      }
    }
    DropsNone(input, output, files, left);
  }

  lemma EndsWithLocals(w: World, save: bool, order: seq<Path>, first: seq<nat>, output: seq<Resource>)
    requires Tree(first, |order|) && EndsWith(w, save, order, first, output)
    requires var breadth := BreadthFirst.RunFrom(w, save, order, first, BreadthFirst.Locals(w, order), 0);
             breadth.Completed? ==> breadth == BreadthFirst.Completed(BreadthFirst.Locals(w, order))
    ensures output == ResourcesAt(BreadthFirst.Locals(w, order), BreadthFirst.Everything(|order|))
  {
  }

  lemma DropsNone(input: seq<Resource>, output: seq<Resource>, files: set<Place>, left: set<Place>)
    requires DropsExactly(input, output, files, left) && forall x :: KeptIn(input, x) ==> KeptIn(output, x)
    ensures left == files
  {
  }
}
