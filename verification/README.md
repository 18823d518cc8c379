# kpt: a verified model of package rendering

kpt keeps Kubernetes configuration in nested packages.  Rendering a package runs, for it and
every package nested in it, the pipeline of functions its Kptfile declares; updating a package
merges three versions of it.  This project models the algorithms behind that and proves what
they keep, over all inputs and all runs.

| file | subject |
|---|---|
| `Resources.dfy` | resources and the annotations that say where they are kept |
| `PackageGraph.dfy` | packages and everything hydration asks of the outside world |
| `HydrateDepthFirst.dfy` | depth-first rendering: the Dry/Hydrating/Wet state machine against a recursion that remembers nothing |
| `DiscoverPackages.dfy` | breadth-first discovery of the package tree |
| `ScopedVisibility.dfy` | which packages a pipeline sees |
| `Redistribution.dfy` | handing a pipeline's output back to the owning packages: frame and conservation |
| `HydrateBreadthFirst.dfy` | breadth-first rendering as a whole, over the nodes it updates in place |
| `HydrationAgreement.dfy` | the two rendering orders agree |
| `SelectiveMutation.dfy` | running a function on selected resources |
| `FunctionExecution.dfy` | one execution of a function: condition, run, checks, result entry |
| `MutatorChain.dfy` | the mutators of a package and the record kept of every step |
| `PackagePipeline.dfy` | validators, and a package's pipeline in every outcome |
| `FilePaths.dfy` | paths: cleaning, walking, relative paths, and how they are written |
| `FilePruning.dfy` | file names of rendered resources, and which files go |
| `PathSafety.dfy` | no resource escapes from its package by a pipeline |
| `RenderInPlace.dfy` | hydration with the declared pipelines, and pruning after it |
| `StructuralDiff.dfy` | the difference of two objects shown in a plan |
| `PlanBuilder.dfy` | the plan built from an event stream |
| `StaleItems.dfy` | removing what upstream dropped |
| `NonKrmMerge.dfy` | three-way update of plain files |
| `MergeKeys.dfy` | synthetic function names for merging Kptfiles |
| `HandleTable.dfy` | references from Go in WebAssembly to JavaScript values |
| `ArgLayout.dfy` | arguments, environment and 64-bit integers in linear memory |
| `GitCache.dfy` | the cache of a remote repository whose refs move |
| `Wrappers.dfy`, `Sequences.dfy`, `SiblingGroups.dfy` | what several of these share |

`dafny verify dfyconfig.toml` checks everything.

Function runtimes, conditions, the file system, the cluster and the library's three-way merge
are arbitrary functions, so every theorem holds for all of them; so are, in the theorems about
the two rendering orders, the pipelines, for which `RenderInPlace.dfy` puts the declared ones.
Where the source updates an object, a list or an array step by step, so does the model, in a
class or a method proved against a function; lemmas about that function say what it means.

## What turned out not to hold as documented

- The comment on breadth-first rendering says that a subpackage cannot modify its parents or
  siblings (`pkg/lib/kptops/render_executor.go:501-504`).  The code sends every output resource
  to whatever known package its tag names, so this holds exactly when the output carries no tag
  of a package outside the subtree (`Redistribution.FrameExactly`, over packages
  `Redistribution.PackageFrameExactly`, with the counterexample `SubpackageCanReplaceParent`).
- If a pipeline deletes everything of a subpackage, its Kptfile too, breadth-first rendering
  brings it back (`Redistribution.DeletedPackageComesBack`); `ConservesExactly` says when nothing
  of the kind happens.
- Breadth-first discovery has a check for cycles, but discovered packages are still Dry when
  they are met again: cycles and packages reached twice are both reported as an invalid state
  (`DiscoverPackages.DiscoverAndLoadPackages`; that no cycle slips through rests on
  `DiscoverPackages.ListingHasNoCycle`).
- With save-on-render-failure, everything processed up to the failure is said to be saved
  (`documentation/content/en/book/04-using-functions/_index.md:175`).  Depth-first, a package
  hands nothing on when a subpackage of it fails, so if the failing package is more than one
  level below the root, nothing is saved (`HydrateDepthFirst.DeepFailureIsNotSaved`;
  `HydrateDepthFirst.KeptExactly` has the condition).  Breadth-first, everything is
  (`HydrateBreadthFirst.StepDistributesOutput`).
- A resource that two selectors match is given to the function twice, and a function that keeps
  it fails the path check (`SelectiveMutation.OverlappingSelectorsAreRejected`); when such a
  function passes, `AcceptedExactly` and `OverlapAloneDecides` say.
- An empty package path is described as meaning the root package
  (`pkg/lib/kptops/render_executor.go:1071-1074`), but is refused before that as not absolute
  (`FilePruning.AcceptedExactlyWithinRoot`).
- The sorter's "number of segments" splits at the path-list separator, not at slashes
  (`pkg/lib/pkg/util.go:318-323`), so `a/x` counts as closer to the root than `b`
  (`StaleItems.DeeperCountsAsRootFirst`).  Descendants still come first, because a path is a
  proper prefix of those beneath it (`StaleItems.DescendantsFirst`).
- The merge key of an image is described as its name.  It is what precedes the first colon, so
  a registry with a port hides the name (`MergeKeys.PortsCollide`), and to an image pinned by
  digest the key adds the digest's algorithm, so that it does not meet the same image with a
  tag (`MergeKeys.DigestHidesRepository`).  `MergeKeys.ImageKeyIsRepositoryExactly` has the
  condition.  And when the merge itself fails, the synthetic names stay in the
  Kptfiles passed in (`MergeKeys.MergeKptfiles`).
- Negative zero stored for Go comes back as zero (`HandleTable.StoreThenLoad`).
- The length of arguments and environment is checked after everything has been written: a
  start that is refused may have overwritten the program's data
  (`ArgLayout.RefusedStartOverwritesData`).  The data stays intact exactly when the last write
  that is performed ends at 12288 or below (`ArgLayout.DataIsLeftAloneExactly`), as it does for
  every start that is not refused.
- The broker of a git repository is said to fetch all refs it is given
  (`internal/gitutil/gitutil.go:311-313`).  At the first abbreviated commit not fetched before
  it fetches everything and stops, and a tag given after that may be missing
  (`GitCache.LaterTagIsMissed`); branches never are (`GitCache.Broker.GetRepo`).

## Model

| member | source | states |
|---|---|---|
| `HydrateDepthFirst.Hydrate` | pkg/lib/kptops/render_executor.go:411-499 | one call returns exactly what a recursion without memory and without marks returns under the packages now in progress: same resources, same error, and on failure the same resources handed back (none from an intermediate parent) and kept by the node; on success the package is Wet and nothing outside its descendants was filed |
| `HydrateDepthFirst.HydrateRoot` | pkg/lib/kptops/render_executor.go:411-499 | a whole run terminates on every finite graph, cyclic or not; it never reports "invalid state"; on success the pipelines that ran are those of the reachable packages, each once and each after those of its subpackages, and all reachable packages are Wet |
| `HydrateDepthFirst.Revisit` | pkg/lib/kptops/render_executor.go:414-428 | a package met again answers as if it had been hydrated afresh: the cycle error while in progress, the remembered resources once Wet |
| `HydrateDepthFirst.HydrateSubpackages` | pkg/lib/kptops/render_executor.go:456-480 | subpackages left to right, appended to the own resources; the first failure stops the loop, and only with save-on-failure does the node keep what was gathered up to it |
| `HydrateDepthFirst.HydrateNext` | pkg/lib/kptops/render_executor.go:460-480 | one subpackage more, or the failure: resources are kept only with save-on-failure and only if the subpackage handed some back |
| `HydrateDepthFirst.HydrateSubpackage` | pkg/lib/kptops/render_executor.go:461-468 | a subpackage that cannot be opened fails the hydration before it is entered; otherwise its result is passed on unchanged, and Wet packages stay Wet |
| `HydrateDepthFirst.Begin` | pkg/lib/kptops/render_executor.go:429-433 | filing a new package as Hydrating keeps the invariant of the state machine and adds exactly it to the packages in progress |
| `HydrateDepthFirst.Complete` | pkg/lib/kptops/render_executor.go:493-498 | marking a package Wet once all its subpackages are keeps the invariant and the post-order of pipeline runs |
| `HydrateDepthFirst.WetIsReference` | pkg/lib/kptops/render_executor.go:417-421 | memoisation is sound: what a Wet node holds is what hydrating it again here would give |
| `HydrateDepthFirst.NestingIrrelevant` | pkg/lib/kptops/render_executor.go:411-499 | a package that hydrates gives the same result under every chain of enclosing packages it does not lead back into |
| `HydrateDepthFirst.DoneReaches` | pkg/lib/kptops/render_executor.go:414-428 | a package that hydrates reaches none of the packages it is nested in |
| `HydrateDepthFirst.FailureIsCycle` | pkg/lib/kptops/render_executor.go:414-428 | when the reads of the packages reachable from the root succeed, and their pipelines on what they receive, a failure is the cycle error and there is a cycle below or back into the enclosing packages |
| `HydrateDepthFirst.RunOwnPipeline` | pkg/lib/kptops/render_executor.go:482-498 | once the input is gathered: the pipeline's output and Wet, or the failure with what is handed back and kept |
| `HydrateDepthFirst.OwnPipelineDecides` | pkg/lib/kptops/render_executor.go:482-498 | a package yields what its pipeline puts out; when that fails, what it had reached is handed back, and kept with saving; with saving a non-empty input stands in for resources it did not hand back |
| `HydrateDepthFirst.SubpackageStops` | pkg/lib/kptops/render_executor.go:460-480 | a subpackage that fails stops its parent with its error; the parent hands nothing on, and keeps with saving what it had gathered and what that subpackage handed back, if it did |
| `HydrateDepthFirst.FailureHasCause` | pkg/lib/kptops/render_executor.go:414-498 | every failure is a cycle, an unreadable package, the package's own pipeline, or its first failing subpackage |
| `HydrateDepthFirst.HandedBackExactly` | pkg/lib/kptops/render_executor.go:466-498 | a failed package hands resources back if and only if it is its own pipeline that failed, with something to hand back |
| `HydrateDepthFirst.KeptExactly` | pkg/lib/kptops/render_executor.go:466-492 | a failed package keeps something if and only if failures are saved and the pipeline that failed is its own or that of a direct subpackage, with something to hand back |
| `HydrateDepthFirst.DeepFailureIsNotSaved` | pkg/lib/kptops/render_executor.go:466-477 | counterexample to saving what was processed: with saving, a failure two levels below the root leaves the root nothing, though the package between keeps its resources |
| `HydrateDepthFirst.GatheredAlone` | pkg/lib/kptops/render_executor.go:440-480 | where a package and all below it hydrate, what it gathers does not depend on the packages it is nested in |
| `HydrateDepthFirst.FailsExactlyOnCycles` | pkg/lib/kptops/render_executor.go:411-499 | when the reads of the reachable packages succeed, and their pipelines on what they receive, hydration fails if and only if a cycle is reachable from the root |
| `HydrateDepthFirst.CycleIsFound` | pkg/lib/kptops/render_executor.go:414-420 | where a cycle can be reached, hydration fails, whatever else succeeds or fails |
| `HydrateDepthFirst.ReferenceKeeps` | pkg/lib/kptops/render_executor.go:440-498 | a property of single resources that every read establishes and every pipeline keeps holds of all resources returned or kept, on success and on failure |
| `HydrateDepthFirst.NeverInvalidState` | pkg/lib/kptops/render_executor.go:423-427 | the invalid-state error is unreachable in depth-first hydration |
| `HydrateDepthFirst.PostOrderDescendants` | pkg/lib/kptops/render_executor.go:456-484 | in a post-order run a package comes after everything it reaches, not only after its direct subpackages |
| `DiscoverPackages.DiscoverAndLoadPackages` | pkg/lib/kptops/render_executor.go:525-553 | always terminates; when no read fails it succeeds if and only if every reachable package is reached once; then the node list is the complete, duplicate-free breadth-first listing, the children map holds each package's subpackages, every node is Dry with its local resources; otherwise the error is "invalid state" or the failed read; where there is a cycle it fails, and with "invalid state" if no read fails |
| `DiscoverPackages.ValidatePackageState` | pkg/lib/kptops/render_executor.go:556-571 | which packages may be visited: a new one is filed as Dry, a filed one gives the cycle error, nothing, or "invalid state" according to its state |
| `DiscoverPackages.ProcessSubpackages` | pkg/lib/kptops/render_executor.go:594-610 | one new node per direct subpackage in listing order, or the read that failed |
| `DiscoverPackages.VisitPackage` | pkg/lib/kptops/render_executor.go:530-545 | check, load and list one package: "invalid state" exactly if its path is filed already |
| `DiscoverPackages.Turn` | pkg/lib/kptops/render_executor.go:530-549 | one turn of the queue keeps the frontier invariant, or shows that the packages are no tree |
| `DiscoverPackages.DrainQueue` | pkg/lib/kptops/render_executor.go:526-550 | the queue loop ends with an empty queue and everything taken filed, or with an error that shows why |
| `DiscoverPackages.ListingComplete` | pkg/lib/kptops/render_executor.go:525-553 | a listing contains exactly the packages reachable from the root |
| `DiscoverPackages.ListingIsTree` | pkg/lib/kptops/render_executor.go:525-553 | a listing exists only where every reachable package is reached once |
| `DiscoverPackages.RepeatIsNoTree` | pkg/lib/kptops/render_executor.go:556-571 | a path queued twice proves that some package is reached twice |
| `DiscoverPackages.WalkAscends` | pkg/lib/kptops/render_executor.go:525-553 | along subpackages the positions in the listing only grow |
| `DiscoverPackages.ListingHasNoCycle` | pkg/lib/kptops/render_executor.go:525-571 | a listing exists only where no cycle can be reached: whatever breadth-first discovery accepts has none |
| `DiscoverPackages.DepthNeverDecreases` | pkg/lib/kptops/render_executor.go:525-553 | packages are listed in order of depth: no walk to an earlier one is longer than a walk to a later one |
| `DiscoverPackages.PositionOfChild` | pkg/lib/kptops/render_executor.go:525-553 | every subpackage is listed after its parent, at the place its index in the listing gives |
| `ScopedVisibility.ScopeClosed` | pkg/lib/kptops/render_executor.go:684-701 | a scope contains the subpackages of its members |
| `ScopedVisibility.ParentInScope` | pkg/lib/kptops/render_executor.go:684-701 | every member of a scope but its top has its parent in the scope |
| `ScopedVisibility.ScopesDisjoint` | pkg/lib/kptops/render_executor.go:684-701 | scopes that do not nest do not overlap: siblings see nothing of each other |
| `ScopedVisibility.ScopeDistinct` | pkg/lib/kptops/render_executor.go:684-701 | no package is seen twice by a pipeline |
| `ScopedVisibility.RootSeesAll` | pkg/lib/kptops/render_executor.go:684-701 | the root package sees every package |
| `ScopedVisibility.ScopeIsReach` | pkg/lib/kptops/render_executor.go:684-701 | a package is in a scope if and only if the scope's package reaches it |
| `Redistribution.FrameExactly` | pkg/lib/kptops/render_executor.go:501-504 | "a subpackage cannot modify parents or siblings" holds, whatever the other packages hold, if and only if the pipeline output carries no tag of a known package outside its own subtree |
| `Redistribution.PackageFrameExactly` | pkg/lib/kptops/render_executor.go:501-504 | the same over packages: nothing a pipeline does not reach can change if and only if its output is tagged with no such package |
| `Redistribution.FrameHolds` | pkg/lib/kptops/render_executor.go:647-673 | the sufficient half for given contents: every node outside the subtree is unchanged |
| `Redistribution.SubpackageCanReplaceParent` | pkg/lib/kptops/render_executor.go:661-670 | counterexample to the unconditional frame: a subpackage whose output has one resource tagged with its parent replaces all of the parent's resources, Kptfile included |
| `Redistribution.RedistributeKeepsOwnership` | pkg/lib/kptops/render_executor.go:647-673 | whatever the pipeline puts out, every node ends up with resources of its own package only, and packages still to run with explicitly tagged ones |
| `Redistribution.ConservesExactly` | pkg/lib/kptops/render_executor.go:647-673 | the subtree's lists together are a permutation of the pipeline output if and only if every output resource belongs to the subtree and every package there that had resources keeps at least one |
| `Redistribution.DeletedPackageComesBack` | pkg/lib/kptops/render_executor.go:661-670 | when a parent's pipeline deletes everything of a subpackage, Kptfile included, no node changes at all |
| `Redistribution.SharesMakeUpOutput` | pkg/lib/kptops/render_executor.go:651-659 | grouping by owner neither loses nor duplicates a resource |
| `Redistribution.IdentityStep` | pkg/lib/kptops/render_executor.go:647-673 | a pipeline that returns its input changes no node, without further hypotheses |
| `Redistribution.OrderIrrelevant` | pkg/lib/kptops/render_executor.go:686-701 | the multiset a pipeline sees does not depend on the order its packages are visited in |
| `HydrateBreadthFirst.CollectDescendants` | pkg/lib/kptops/render_executor.go:691-698 | appends what all packages below hold, each before its own subpackages |
| `HydrateBreadthFirst.CollectChild` | pkg/lib/kptops/render_executor.go:692-696 | one subpackage with everything below it |
| `HydrateBreadthFirst.BuildPipelineInputWithScopedVisibility` | pkg/lib/kptops/render_executor.go:686-701 | the input of a pipeline is what the packages of its scope hold, in scope order |
| `HydrateBreadthFirst.GroupByPackage` | pkg/lib/kptops/render_executor.go:650-659 | a group exists for exactly the packages that own output resources, untagged ones counting as the current package's, and holds them in order |
| `HydrateBreadthFirst.HandOut` | pkg/lib/kptops/render_executor.go:661-672 | every known node with a group gets it, the others keep what they had; the current node's group is returned |
| `HydrateBreadthFirst.PropagateResourcesAcrossNodes` | pkg/lib/kptops/render_executor.go:647-673 | the in-place loop over nodes has the effect of the redistribution function on all lists at once |
| `HydrateBreadthFirst.AggregateRootResources` | pkg/lib/kptops/render_executor.go:676-682 | the root ends up with all lists in listing order |
| `HydrateBreadthFirst.RunPackage` | pkg/lib/kptops/render_executor.go:615-640 | one package: run, distribute on success, on failure distribute only with save-on-failure, falling back to the input |
| `HydrateBreadthFirst.RunNext` | pkg/lib/kptops/render_executor.go:615-640 | one pipeline leads to what is left of the run, or to its abort |
| `HydrateBreadthFirst.StepDistributesOutput` | pkg/lib/kptops/render_executor.go:614-640 | one step, told by what the pipeline does with what its package sees: its output is distributed and the run goes on with that; on failure the run ends as it is, or, with saving, with what the pipeline had reached distributed, or its input if it had reached nothing |
| `HydrateBreadthFirst.RunAll` | pkg/lib/kptops/render_executor.go:614-640 | all pipelines in listing order up to the first failure leave the nodes as the run function says |
| `HydrateBreadthFirst.ExecutePipelinesWithScopedVisibility` | pkg/lib/kptops/render_executor.go:614-644 | final contents of all nodes after success, failure, and failure with saving |
| `HydrateBreadthFirst.HydrateBfsOrder` | pkg/lib/kptops/render_executor.go:505-521 | one whole breadth-first hydration: succeeds only on package trees, and then its output is all resources at the end of the run over the listing; where there is a cycle it fails, with "invalid state" if no read fails |
| `HydrateBreadthFirst.LaterPackagesCannotChangeEarlier` | pkg/lib/kptops/render_executor.go:614-644 | top-down isolation over a run, completed or aborted: if none of the outputs it still distributes names a known package outside its subtree, nothing that runs after a package changes what it holds |
| `HydrateBreadthFirst.InputStaysInScope` | pkg/lib/kptops/render_executor.go:686-701 | what a pipeline receives names no package outside its subtree |
| `HydrateBreadthFirst.UnchangingStays` | pkg/lib/kptops/render_executor.go:614-644 | so pipelines that leave their input as it is, whether they succeed or fail, keep every package isolated |
| `HydrateBreadthFirst.RunKeepsOwnership` | pkg/lib/kptops/render_executor.go:614-644 | after any run, failed ones included, every node holds only resources of its own package |
| `HydrateBreadthFirst.RunKeeps` | pkg/lib/kptops/render_executor.go:614-644 | a property of single resources that all have at the start and every pipeline keeps holds of all resources at the end of any run |
| `HydrateBreadthFirst.StepExchanges` | pkg/lib/kptops/render_executor.go:620-640 | one step exchanges the pipeline's input for its output in the multiset of all resources and touches nothing else |
| `HydrateBreadthFirst.RunConserves` | pkg/lib/kptops/render_executor.go:614-644 | over a whole run in which every output belongs to its scope and empties no package: resources at the end plus everything consumed equal resources at the start plus everything produced |
| `HydrateBreadthFirst.IdentityRun` | pkg/lib/kptops/render_executor.go:614-644 | where every pipeline that succeeds on what it receives returns that, a run completes if and only if all succeed, and then leaves everything where it was |
| `HydrationAgreement.ListedPackagesHydrate` | pkg/lib/kptops/render_executor.go:411-571 | what breadth-first discovery accepts, depth-first hydration completes, unless a read or a pipeline fails there |
| `HydrationAgreement.ScopeSucceedsExactly` | pkg/lib/kptops/render_executor.go:684-701 | the pipelines in a scope succeed if and only if the one at its top does and those in the scopes of its subpackages do |
| `HydrationAgreement.DepthFirstYieldsScope` | pkg/lib/kptops/render_executor.go:440-498 | on a tree whose pipelines change nothing, a package hydrates depth-first if and only if the pipelines in its breadth-first scope succeed, and then yields exactly the list it sees breadth-first |
| `HydrationAgreement.HydrationsAgree` | pkg/lib/kptops/render_executor.go:440-552 | on such a tree both orders succeed if and only if all pipelines do on what their packages see, and then return the same multiset of resources: all packages' local resources |
| `SelectiveMutation.DecimalInjective` | pkg/fn/runtime/utils.go:113-124 | different counters have different labels |
| `SelectiveMutation.SetResourceIds` | pkg/fn/runtime/utils.go:113-124 | in place, the i-th resource gets the decimal label i |
| `SelectiveMutation.DeleteResourceIds` | pkg/fn/runtime/utils.go:127-135 | in place, the label is removed from every resource and nothing else changes |
| `SelectiveMutation.LabelsIdentify` | pkg/fn/runtime/utils.go:113-124 | after labelling, ids are non-empty and equal only for the same position |
| `SelectiveMutation.SelectInput` | pkg/fn/runtime/utils.go:142-172 | the two loops select, in input order, every resource once for each selector it matches unless a non-empty exclusion matches it |
| `SelectiveMutation.CollectMatches` | pkg/fn/runtime/utils.go:145-152 | the first loop: one copy per matching selector |
| `SelectiveMutation.MatchesExclusion` | pkg/fn/runtime/utils.go:157-166 | a resource is excluded exactly if some non-empty exclusion matches it |
| `SelectiveMutation.SingleSelectorMatches` | pkg/fn/runtime/utils.go:183-221 | a selector that asks for one thing matches exactly the resources that have it: name, namespace, kind, API version, a label, an annotation |
| `SelectiveMutation.MatchesEachPart` | pkg/fn/runtime/utils.go:175-180 | a selector matches exactly what each of the things it asks for matches by itself |
| `SelectiveMutation.ExcludedExactly` | pkg/fn/runtime/utils.go:155-169 | an exclusion that asks for nothing excludes nothing, any other what it matches, several what one of them does |
| `SelectiveMutation.MultiplicityExactly` | pkg/fn/runtime/utils.go:142-172 | what is not excluded is selected once without selectors, once by each selector that matches it, and selectors add up |
| `SelectiveMutation.RemoveExcluded` | pkg/fn/runtime/utils.go:154-171 | the second loop: exactly the candidates that no exclusion matches, in order |
| `SelectiveMutation.SelectCounts` | pkg/fn/runtime/utils.go:142-172 | how often a resource is selected; it is selected at all if and only if it is in the input and matches |
| `SelectiveMutation.MergeWithInput` | pkg/fn/runtime/utils.go:62-88 | input order, unselected resources as they are, selected ones replaced by the first output resource of the same id or dropped, then the unlabelled output |
| `SelectiveMutation.MergedExactly` | pkg/fn/runtime/utils.go:62-88 | a resource comes out of the merge if and only if it is unselected input, the first output with the label of a selected input, or output without a label; output with any other label is lost |
| `SelectiveMutation.UnlabelledExactly` | pkg/fn/runtime/utils.go:82-86 | every copy of an output without a label is appended, and nothing else |
| `SelectiveMutation.SelectiveMutationRefinesPointwise` | pkg/lib/kptops/render_executor.go:830-876 | label, select, run, merge and strip equal applying a per-resource function to the selected resources in place, generated resources appended, for any output order and number of copies |
| `SelectiveMutation.SkippedChangesNothing` | pkg/lib/kptops/render_executor.go:830-876 | a skipped selective function leaves the list exactly as it was, also when selectors overlap |
| `SelectiveMutation.EnforcePathInvariants` | pkg/fn/runtime/runner.go:581-610 | accepts exactly the lists with no resource outside its package and no two in the same package, file and index |
| `SelectiveMutation.AcceptedExactly` | pkg/fn/runtime/runner.go:581-610 | the output of a function that treats the selected resources one by one passes the path check if and only if what it keeps lies inside the packages, at different places, and was selected once |
| `SelectiveMutation.OverlapAloneDecides` | pkg/fn/runtime/utils.go:147-151 | where what is kept lies inside and apart, the output is accepted if and only if no resource that is kept is matched by two selectors |
| `SelectiveMutation.OverlappingSelectorsAreRejected` | pkg/fn/runtime/utils.go:147-151 | a resource matched by two selectors is handed over twice, and a function that keeps it is rejected, wherever it keeps things |
| `FunctionExecution.SetPkgPathIfNotExist` | pkg/fn/runtime/runner.go:416-429 | fills in the package path where it is missing and changes nothing else |
| `FunctionExecution.TagExactly` | pkg/fn/runtime/runner.go:416-429 | a package that is named is left alone, a missing one becomes the pipeline's, and nothing else about a resource changes |
| `FunctionExecution.SamePlaceExactly` | pkg/fn/runtime/runner.go:586-607 | two resources are in one place if and only if their packages, cleaned paths and indices agree |
| `FunctionExecution.ExecutesExactly` | pkg/fn/runtime/runner.go:258-414 | when an execution is skipped, breaks, or returns, each as an if-and-only-if on the runtime's answers, and that it returns the function's output with packages filled in |
| `FunctionExecution.RefusedExactly` | pkg/fn/runtime/runner.go:369-399 | which complaint a refused execution is refused with: the first, in the order of the checks |
| `FunctionExecution.RecordsExactly` | pkg/fn/runtime/runner.go:275-287 | the result entry and the error of every way an execution can go, with the exit code of an executable |
| `FunctionExecution.Do` | pkg/fn/runtime/runner.go:369-414 | the checks in their order: input, then packages filled in, paths, output, structured results, and only then whether the function failed; which of them leaves a result entry |
| `FunctionExecution.Filter` | pkg/fn/runtime/runner.go:258-337 | one execution with its condition: result entry, skipped mark, error and output |
| `FunctionExecution.ReturnedIsChecked` | pkg/fn/runtime/runner.go:379-387 | what an execution returns passes the path check, is KRM, and every resource has a package: its own or the pipeline's |
| `FunctionExecution.FailureRecordedExactly` | pkg/fn/runtime/runner.go:376-409 | a failing function leaves a result entry if and only if what it left behind passes all checks; otherwise the complaint about that is the error |
| `MutatorChain.ExcludeAndRefreshFnConfig` | pkg/lib/kptops/render_executor.go:978-1000 | takes the first resource that is the function's config out of the list and makes it the runner's config; nothing else is lost |
| `MutatorChain.ConfigTakenOutExactly` | pkg/lib/kptops/render_executor.go:978-1000 | the config is the first resource of the package in the file named; it alone is taken out, and without one, or without a file, nothing is |
| `MutatorChain.PlainTurnLeavesOutput` | pkg/lib/kptops/render_executor.go:801-884 | a mutator without selectors that returns leaves what the function returned, packages filled in, and then its config: the resource its reference resolves to decides what it ran with, else the config taken out |
| `MutatorChain.SelectiveTurnLeavesMerge` | pkg/lib/kptops/render_executor.go:801-884 | a selective mutator that returns leaves the merge of what the function returned for the selected resources, labels removed, and then its config |
| `MutatorChain.TurnFailsExactly` | pkg/lib/kptops/render_executor.go:801-863 | a mutator fails if and only if its condition cannot be evaluated, or it holds and the selected input is not KRM, or what the function left does not pass the checks, or it failed |
| `MutatorChain.UnpreparedExactly` | pkg/lib/kptops/render_executor.go:814-823 | a mutator is not executed if and only if its reference does not resolve among the resources left in the list, and then for that reason |
| `MutatorChain.ClearedExactly` | pkg/lib/kptops/render_executor.go:1003-1015 | after a failure exactly four annotations are gone from every resource |
| `MutatorChain.ChainAppend` | pkg/lib/kptops/render_executor.go:801-886 | mutators one after the other: the later ones get what the earlier ones leave, unless those fail |
| `MutatorChain.CreatableExactly` | pkg/lib/kptops/render_executor.go:1100-1111 | a runner can be made unless the function is an executable and those are not allowed, or it cannot be instantiated; with the reason |
| `MutatorChain.ShownExactly` | pkg/lib/kptops/render_executor.go:1187-1189 | an error message is dropped from a step if and only if it mentions somewhere that it has been handled already |
| `MutatorChain.PreExecTells` | pkg/lib/kptops/render_executor.go:1203-1220 | a function that never got to run is recorded under its name as failed with code one and the reason |
| `MutatorChain.StepTells` | pkg/lib/kptops/render_executor.go:1162-1201 | a step names its function, and its skipped mark, exit code and message say how the execution went |
| `MutatorChain.FailedTurnReturnsInput` | pkg/lib/kptops/render_executor.go:855-863 | roll-back: when executing a mutator fails, the resources returned are, as a multiset, those that reached it with the run's annotations cleared |
| `MutatorChain.SelectiveTurnIsPointwise` | pkg/lib/kptops/render_executor.go:801-884 | a selective mutator whose function returns, and treats every selected resource by itself, has, config set aside and put back, the effect of that treatment on the selected resources alone, generated resources following |
| `MutatorChain.SkippedTurnKeepsResources` | pkg/lib/kptops/render_executor.go:801-884 | a mutator whose condition is not met leaves the multiset of resources as it was |
| `MutatorChain.ClearedMultiset` | pkg/lib/kptops/render_executor.go:1003-1015 | clearing annotations respects permutations |
| `MutatorChain.CaptureIsRecord` | pkg/lib/kptops/render_executor.go:1162-1201 | the step captured from the result list and the error is determined by how the execution went |
| `MutatorChain.FailingStepHasExitCode` | pkg/lib/kptops/render_executor.go:1189-1199 | a step has exit code zero if and only if its execution passed, also when the function itself exited with zero |
| `MutatorChain.FnChain` | pkg/lib/kptops/render_executor.go:1092-1114 | no runners if and only if some function cannot be created; then the first such index and its reason |
| `MutatorChain.ExecuteAndRecord` | pkg/lib/kptops/render_executor.go:843-866 | result entry, step and executed count for every outcome of an execution |
| `MutatorChain.ExecuteMutator` | pkg/lib/kptops/render_executor.go:830-884 | one mutator: resources, result entry, step and executed count in every outcome |
| `MutatorChain.RunMutator` | pkg/lib/kptops/render_executor.go:801-884 | the same from taking the config out to putting it back, including an unresolvable config reference, which leaves no record |
| `MutatorChain.RunChain` | pkg/lib/kptops/render_executor.go:801-886 | the mutators in turn up to the first failure: the trace of resource lists, the records, and roll-back to what the mutators before left; resources and error are those of the chain as a function of its input |
| `MutatorChain.RunMutators` | pkg/lib/kptops/render_executor.go:786-886 | the whole list; if a function cannot be created nothing runs and exactly the failed step of the first such function is recorded; resources and error are a function of the input |
| `MutatorChain.FirstErrorAt` | pkg/lib/kptops/render_executor.go:796-801 | the error of a list that cannot be created is that of its first such function |
| `MutatorChain.TraceUnique` | pkg/lib/kptops/render_executor.go:801-886 | the resource lists along a chain are determined by its input |
| `MutatorChain.OneEntryEach` | pkg/fn/runtime/runner.go:258-414 | passed executions leave one result entry each, with exit code zero |
| `PackagePipeline.RunSingleValidator` | pkg/lib/kptops/render_executor.go:907-954 | a validator's verdict and its exact step, entry and count in every outcome, with the reason of every refusal before execution |
| `PackagePipeline.ValidatesExactly` | pkg/lib/kptops/render_executor.go:907-944 | a validator is refused if and only if no runner can be made for it or its reference does not resolve in the whole list; otherwise it runs on what its selectors pick from the list without its config |
| `PackagePipeline.ExecuteValidator` | pkg/lib/kptops/render_executor.go:944-952 | the records of a validator that is executed |
| `PackagePipeline.RunValidators` | pkg/lib/kptops/render_executor.go:892-904 | all validators run on the same resources up to the first that fails; the records are exactly those of the validators up to and including it, on success and on failure |
| `PackagePipeline.ExecutedAreNotSkipped` | pkg/lib/kptops/render_executor.go:864-866 | the executed count grows by the number of entries that are not skips |
| `PackagePipeline.RunPipeline` | pkg/lib/kptops/render_executor.go:704-750 | success: steps and result entries grow by the number of functions, all with exit code zero, and the executed count by the non-skipped ones; failed mutators: no validator ran, the resources are those of the failed chain; failed validator: the mutated resources come back all the same, with exactly the records up to it; resources and error are a function of the input |
| `PackagePipeline.PipelineSucceedsExactly` | pkg/lib/kptops/render_executor.go:704-750 | a pipeline with functions succeeds if and only if all mutators pass and all validators on what they leave; that is what it puts out, and what it hands back when a validator fails |
| `PathSafety.ReturnedStays` | pkg/fn/runtime/runner.go:382-384 | no resource that a function returns escapes from its package |
| `PathSafety.TurnStays` | pkg/lib/kptops/render_executor.go:801-884 | nor any that a mutator leaves, whether it passes or fails: selected, merged, set aside or rolled back |
| `PathSafety.PipelineStays` | pkg/lib/kptops/render_executor.go:704-750 | nor any that a package's pipeline hands back, however it ends, if none that enters it does |
| `StructuralDiff.DiffValue` | commands/alpha/live/plan/diff.go:98-130 | the entries reported are exactly the topmost differences below the path, each once |
| `StructuralDiff.DiffMaps` | commands/alpha/live/plan/diff.go:39-67 | the same for objects, in whatever order the keys are visited |
| `StructuralDiff.DiffSlices` | commands/alpha/live/plan/diff.go:69-96 | the same for arrays, compared index by index |
| `StructuralDiff.DiffersIsTopmost` | commands/alpha/live/plan/diff.go:39-130 | step-by-step difference and the declarative one agree: same containers above, nothing on one side or a real change at the path |
| `StructuralDiff.DiffIsSymmetric` | commands/alpha/live/plan/diff.go:39-130 | swapping the values exchanges left and right in the entries and nothing else |
| `StructuralDiff.PathsIncomparable` | commands/alpha/live/plan/diff.go:39-130 | no entry lies at or below another |
| `StructuralDiff.NoSelfDifference` | commands/alpha/live/plan/diff.go:123-127 | a value does not differ from itself |
| `StructuralDiff.EmptyExactlyWhenEqual` | commands/alpha/live/plan/diff.go:98-130 | there is no entry if and only if the values are equal |
| `StructuralDiff.PartsAreIndependent` | commands/alpha/live/plan/diff.go:39-96 | entries below a container act on its parts separately |
| `StructuralDiff.DiffReconstructs` | commands/alpha/live/plan/diff.go:39-130 | applied to the left value in any order, the entries give the right value |
| `StructuralDiff.SparseInjective` | commands/alpha/live/plan/diff.go:39-130 | the form in which they are applied determines the value |
| `HandleTable.Go.constructor` | pkg/fn/runtime/jsglue.go:468-486 | the initial table satisfies the invariant, no reference being out |
| `HandleTable.Go.LoadValue` | pkg/fn/runtime/jsglue.go:159-169 | loading the word of an outstanding reference gives the value it was made for, and loading the word of a stored number, NaN or undefined gives that value back |
| `HandleTable.Go.StoreValue` | pkg/fn/runtime/jsglue.go:170-215 | the word written and the whole new table; the invariant is kept; a value that takes an entry has one reference more out, any other leaves the table alone |
| `HandleTable.Go.StoreHandle` | pkg/fn/runtime/jsglue.go:185-214 | a value that takes an entry: its entry counts one reference more |
| `HandleTable.Go.Intern` | pkg/fn/runtime/jsglue.go:185-194 | finds the entry of a value, recycles the last freed one, or appends |
| `HandleTable.Go.FinalizeRef` | pkg/fn/runtime/jsglue.go:311-321 | dropping an outstanding reference keeps the invariant; the last one frees the entry, predefined entries never |
| `HandleTable.StoreKeepsInv` | pkg/fn/runtime/jsglue.go:170-215 | storing keeps: index inverse to table, free entries distinct and unused, every count equal to the references out |
| `HandleTable.FinalizeKeepsInv` | pkg/fn/runtime/jsglue.go:311-321 | so does dropping an outstanding reference |
| `HandleTable.EveryRunKeepsInv` | pkg/fn/runtime/jsglue.go:159-321 | over every run of stores and drops of outstanding references the invariant holds and every reference out loads its value |
| `HandleTable.LoadOutstanding` | pkg/fn/runtime/jsglue.go:159-169 | an outstanding reference loads the value it was made for |
| `HandleTable.StoreThenLoad` | pkg/fn/runtime/jsglue.go:159-215 | storing and loading gives the value back if and only if it is not negative zero, which comes back as zero |
| `HandleTable.WordTellsKind` | pkg/fn/runtime/jsglue.go:170-214 | the high word of a stored value tells its kind; numbers, NaN and undefined have words of their own |
| `HandleTable.PredefinedAlwaysLoad` | pkg/fn/runtime/jsglue.go:468-485 | at all times the references Go takes for granted lead to NaN, zero, null, true, false, the global object and the Go object |
| `HandleTable.SameValueSameWord` | pkg/fn/runtime/jsglue.go:185-213 | while a value is in the table, storing it again gives the same word |
| `HandleTable.LastFreedIsReused` | pkg/fn/runtime/jsglue.go:185-319 | when the last reference to an entry is dropped its value is let go, and the entry is the next to be used |
| `ArgLayout.WordRoundTrip` | pkg/fn/runtime/jsglue.go:150-153 | a 32-bit word written is read back modulo 2^32 |
| `ArgLayout.LittleEndian` | pkg/fn/runtime/jsglue.go:150-158 | words are stored with the least significant byte first |
| `ArgLayout.NextIsLeast` | pkg/fn/runtime/jsglue.go:494-498 | the next string goes to the first multiple of eight behind the final zero of the one before |
| `ArgLayout.Int64RoundTripExactly` | pkg/fn/runtime/jsglue.go:150-158 | setInt64 followed by getInt64 is the identity if and only if the integer fits 64 bits, hence on every safe integer |
| `ArgLayout.StringsDoNotOverlap` | pkg/fn/runtime/jsglue.go:489-500 | strings occupy disjoint regions starting at multiples of eight, in order |
| `ArgLayout.WritesAscend` | pkg/fn/runtime/jsglue.go:489-519 | every write of start-up begins where those before it have ended, from 4096 up to the end of the table |
| `ArgLayout.WritesStay` | pkg/fn/runtime/jsglue.go:489-519 | what was written is still there at the end |
| `ArgLayout.NothingElseChanges` | pkg/fn/runtime/jsglue.go:489-519 | memory below the first write, and from the end of the last performed one on, is as before |
| `ArgLayout.Startup.StrPtr` | pkg/fn/runtime/jsglue.go:490-500 | the whole new memory: the string with its final zero, nothing else; fails, changing nothing, exactly when it does not fit in memory |
| `ArgLayout.Startup.StrPtrs` | pkg/fn/runtime/jsglue.go:501-512 | the whole new memory after a list of strings, up to the first that does not fit, and where they are |
| `ArgLayout.Startup.SetUint32` | pkg/fn/runtime/jsglue.go:515-517 | the whole new memory: four bytes; fails, changing nothing, exactly when they do not fit in memory |
| `ArgLayout.Startup.WriteTable` | pkg/fn/runtime/jsglue.go:514-519 | the whole new memory after the table of pointers, eight bytes an entry, up to the first word that does not fit |
| `ArgLayout.Startup.Place` | pkg/fn/runtime/jsglue.go:489-519 | the whole new memory after arguments, environment and table; completes exactly when everything fits in memory |
| `ArgLayout.Startup.Run` | pkg/fn/runtime/jsglue.go:489-526 | starts if and only if everything ends below the program's data and within memory; the whole new memory in every case; a start leaves everything below 4096 and from 12288 on alone |
| `ArgLayout.DataIsLeftAloneExactly` | pkg/fn/runtime/jsglue.go:520-525 | whatever memory holds, start-up, refused or not, leaves the data from 12288 on alone if and only if its last performed write ends there or below |
| `ArgLayout.AcceptedStartIsHarmless` | pkg/fn/runtime/jsglue.go:520-525 | a start that is not refused never reaches the data |
| `ArgLayout.RefusedStartOverwritesData` | pkg/fn/runtime/jsglue.go:520-525 | counterexample: one argument of more than 8192 bytes is refused, but its byte 8192 is then at address 12288 |
| `ArgLayout.ReadBackExactly` | pkg/fn/runtime/jsglue.go:490-500 | reading up to the next zero gives a placed string back if and only if it contains no zero |
| `ArgLayout.ArgumentsArrive` | pkg/fn/runtime/jsglue.go:501-519 | following the table, the program reads every argument as it was passed, if and only if it contains no zero |
| `ArgLayout.EnvironmentArrives` | pkg/fn/runtime/jsglue.go:507-519 | and every environment string, after the zero entry that ends the arguments |
| `ArgLayout.TableIsRead` | pkg/fn/runtime/jsglue.go:502-516 | read as 64-bit integers, the entries of the table are the places of the arguments, zero, the places of the environment, zero |
| `StaleItems.SorterTotal` | pkg/lib/pkg/util.go:308-337 | on distinct paths exactly one of the two comes first |
| `StaleItems.SorterTransitive` | pkg/lib/pkg/util.go:308-337 | and the comparison is transitive |
| `StaleItems.DescendantsFirst` | pkg/lib/pkg/util.go:332-337 | whatever lies beneath a directory is sorted before it, although the count compared first is of search-list entries, not of path segments |
| `StaleItems.AlphabetDecides` | pkg/lib/pkg/util.go:308-329 | paths without a list separator are ordered by the alphabet alone, not by depth |
| `StaleItems.DeeperCountsAsRootFirst` | pkg/lib/pkg/util.go:318-329 | so a deeper path can count as root first: a/x before b |
| `StaleItems.JoinsWithOneSlash` | pkg/lib/pkg/util.go:177-182 | the sorted paths are joined to their root by one slash, but by none after the current directory or the top |
| `StaleItems.EmptyInTurn` | pkg/lib/pkg/util.go:221-243 | when its turn comes a stale directory is empty if and only if everything beneath it was stale |
| `StaleItems.Package.Walk` | pkg/lib/pkg/util.go:177-216 | the walk removes exactly the stale files and collects exactly the stale directories |
| `StaleItems.Package.RemoveStaleItems` | pkg/lib/pkg/util.go:177-246 | final state: exactly the stale files and the stale directories with only stale items beneath are gone |
| `StaleItems.SurvivesExactly` | pkg/lib/pkg/util.go:176-246 | what upstream never had or still has survives; a file goes if and only if upstream had it, has it no longer, and it is not the root Kptfile; a directory, if and only if that holds of it and of everything beneath it |
| `StaleItems.NothingLeftToRemove` | pkg/lib/pkg/util.go:172-176 | a second run changes nothing; items that are not stale, the root Kptfile among them, survive |
| `GitCache.Broker.constructor` | internal/gitutil/gitutil.go:200-213 | an empty cache satisfies the invariant |
| `GitCache.Broker.MarkedCommitsAreStored` | internal/gitutil/gitutil.go:497-501 | a full commit marked as fetched is in the local clone |
| `GitCache.Broker.UpdateRefs` | internal/gitutil/gitutil.go:247-309 | the view of branches and tags is that of the remote now, or unchanged if the listing fails |
| `GitCache.Broker.FetchOne` | internal/gitutil/gitutil.go:502-514 | succeeds if and only if the remote knows the ref and fetching it works; then it stores the commit it names now under its resolved key, which was never fetched by name before; otherwise nothing changes |
| `GitCache.Broker.FetchAll` | internal/gitutil/gitutil.go:515-535 | a full fetch brings what all branches now point to, succeeds if and only if a commit so abbreviated is there then, marks it only in that case, and otherwise tells a failed fetch from a commit not found |
| `GitCache.Broker.CacheRef` | internal/gitutil/gitutil.go:475-536 | one requested ref: skipped if its current commit is marked, fetched by name, or by a full fetch; when each succeeds, as an if-and-only-if, and with which failure otherwise |
| `GitCache.Broker.CacheRepo` | internal/gitutil/gitutil.go:475-539 | succeeds if and only if every ref up to the first abbreviated commit not yet marked is marked, asked for by an earlier ref, or known to the remote and fetched, and the full fetch for that commit finds it; otherwise it names the first ref in the way; what is served, and what exactly the clone then holds |
| `GitCache.Broker.CommitsAskedForExactly` | internal/gitutil/gitutil.go:480-525 | a ref that is no name can be fetched by itself if and only if it is the full SHA of a commit that the remote has; one that is shorter and not yet marked needs a full fetch |
| `GitCache.NamesResolve` | internal/gitutil/gitutil.go:374-403 | a name stands for the branch of that name, or else for the tag; written in full, for just that |
| `GitCache.Broker.GetRepo` | internal/gitutil/gitutil.go:314-334 | whatever happened and moved before: when a call succeeds, as an if-and-only-if, and which ref it blames otherwise; after success the remote's current commit of every requested branch is in the clone, tags and full commits too up to the first abbreviated commit not yet marked, and what exactly the clone holds; the invariant holds, no commit is fetched by name twice |
| `GitCache.LaterTagIsMissed` | internal/gitutil/gitutil.go:515-537 | counterexample to serving all refs: a call succeeds and a tag requested after an abbreviated commit is not in the clone |
| `PlanBuilder.FetchResources` | pkg/live/planner/cluster.go:262-285 | one unset action per identifier in the apply, prune and delete groups, in order, holding the object now in the cluster if there is one and nothing else; fails if and only if one cannot be fetched, which an absent object or unknown kind can, and then with what the cluster says of the first such |
| `PlanBuilder.ListedExactly` | pkg/live/planner/cluster.go:264-269 | the identifiers of the groups one after the other, without those of groups that wait or are about the inventory |
| `PlanBuilder.PlannedExactly` | pkg/live/planner/cluster.go:138-260 | end to end: the last event that settles anything about a resource decides its type; a successful apply makes it Create, Unchanged or Update according to what the cluster holds |
| `PlanBuilder.UnsettledStaysUnset` | pkg/live/planner/cluster.go:138-260 | a resource about which nothing is settled keeps an unset action |
| `PlanBuilder.MessagesExactly` | pkg/live/planner/cluster.go:198-260 | end to end: error, skip reason and updated object are those of the last event of the kind that gives one |
| `PlanBuilder.LastFailureExactly` | pkg/live/planner/cluster.go:162-168 | the failure reported is that of the last fatal event, none if there is none |
| `PlanBuilder.IndexForIdentifier` | pkg/live/planner/cluster.go:330-341 | the first action with the identifier, none if there is none |
| `PlanBuilder.Record` | pkg/live/planner/cluster.go:173-193 | an event replaces exactly the action it is about, as its handler says |
| `PlanBuilder.Consume` | pkg/live/planner/cluster.go:151-193 | one event more: the plan after it, or the failed lookup or unlisted identifier that leaves none |
| `PlanBuilder.DryRunForPlan` | pkg/live/planner/cluster.go:138-196 | a plan comes out if and only if every init event can be fetched and every event is about a listed resource; then each action is the fold of the handlers over its own resource's events since the last init event; otherwise the first event not so is what it ends with |
| `PlanBuilder.LatestEventsDecide` | pkg/live/planner/cluster.go:198-260 | the type of the final action is the verdict of the latest event that settles anything, and error, skip reason and updated object are those of the latest event carrying one; an error message outlives later successes |
| `PlanBuilder.PlanKeepsIdentities` | pkg/live/planner/cluster.go:198-260 | identities, originals, number and order of actions never change |
| `PlanBuilder.InterleavingIrrelevant` | pkg/live/planner/cluster.go:138-196 | streams led by the same init event in which every resource has the same events in the same order are accepted alike and give the same plan, however they are interleaved |
| `PlanBuilder.ExchangeChangesNothing` | pkg/live/planner/cluster.go:138-196 | in particular exchanging neighbouring events about different resources |
| `PlanBuilder.LedByInitAcceptable` | pkg/live/planner/cluster.go:152-193 | a stream led by its only init event is accepted if and only if everything listed can be fetched and every event is about something listed |
| `PlanBuilder.OneEventOneAction` | pkg/live/planner/cluster.go:170-193 | non-interference: one more event changes the action of its own resource only |
| `NonKrmMerge.LocalDir.DropRemoved` | pkg/lib/update/resource-merge.go:225-250 | finds exactly the files added or modified locally, removes exactly the unmodified ones the update dropped, in any order |
| `NonKrmMerge.LocalDir.ReplaceNonKrmFiles` | pkg/lib/update/resource-merge.go:208-268 | every file ends up as the rule for one file says: local modification, else update, else gone; files neither walk shows are untouched |
| `NonKrmMerge.WalkIsStable` | pkg/lib/update/resource-merge.go:283-331 | the update touches no resource file, so a fresh walk shows what was shown before and what came in, nothing else |
| `NonKrmMerge.MergedExactly` | pkg/lib/update/resource-merge.go:225-268 | every case for one file: added or changed locally it stays; unchanged it follows the update, in content and in removal; hidden locally it is overwritten by the update or left alone |
| `NonKrmMerge.UpdatingTwiceChangesNothing` | pkg/lib/update/resource-merge.go:208-268 | a second run, with a fresh walk of what the first left, changes no file |
| `NonKrmMerge.UntouchedPackageBecomesTheUpdate` | pkg/lib/update/resource-merge.go:208-268 | without local changes the result is exactly the updated files |
| `NonKrmMerge.LocalFileKeptExactlyWhen` | pkg/lib/update/resource-merge.go:225-268 | when a local file keeps its content, as an if-and-only-if |
| `NonKrmMerge.LocallyDeletedFileReturns` | pkg/lib/update/resource-merge.go:259-268 | a local deletion is not a local change: the update brings the file back |
| `MergeKeys.BeforeColon` | pkg/kptfile/kptfileutil/util.go:460-463 | the prefix of a string up to its first colon |
| `MergeKeys.ImageKeyIsRepositoryExactly` | pkg/kptfile/kptfileutil/util.go:448-463 | for an image without tag, with a tag, with a digest or with both: its merge key is its repository if and only if the repository has no colon and is not followed immediately by a digest |
| `MergeKeys.DigestHidesRepository` | pkg/kptfile/kptfileutil/util.go:490-505 | counterexample: one function pinned by digest on one side and by tag on the other gets two names and does not meet itself in the merge |
| `MergeKeys.PortsCollide` | pkg/kptfile/kptfileutil/util.go:448-463 | two images of one registry with a port count as one function declared twice |
| `MergeKeys.ShouldAddFnKeyUtil` | pkg/kptfile/kptfileutil/util.go:452-470 | true if and only if no function is named and no key occurs twice |
| `MergeKeys.KptFile.ShouldAddFnKey` | pkg/kptfile/kptfileutil/util.go:436-446 | both lists of a file allow synthetic names |
| `MergeKeys.SameNameExactlyWhenSameKey` | pkg/kptfile/kptfileutil/util.go:490-505 | unnamed functions meet in the merge if and only if their keys are equal |
| `MergeKeys.RewrittenExactly` | pkg/kptfile/kptfileutil/util.go:490-524 | a pipeline is the rewritten one if and only if each of its two lists, in its own place, holds every function rewritten, in order |
| `MergeKeys.NamesExactly` | pkg/kptfile/kptfileutil/util.go:490-524 | a function keeps its name; without one it gets its executable or else its image up to the first colon, marked as synthetic; removal takes exactly such names away |
| `MergeKeys.AddedNamesAreDistinct` | pkg/kptfile/kptfileutil/util.go:474-505 | added names are pairwise distinct if and only if the keys are |
| `MergeKeys.RemoveUndoesAddExactly` | pkg/kptfile/kptfileutil/util.go:490-524 | removing synthetic names undoes adding them if and only if the user's own name does not begin like one |
| `MergeKeys.RewriteEach` | pkg/kptfile/kptfileutil/util.go:479-484 | the loop over one list rewrites every function of it |
| `MergeKeys.KptFile.Rewrite` | pkg/kptfile/kptfileutil/util.go:474-524 | both lists of a file are rewritten, nothing else |
| `MergeKeys.MergeSeesDistinctNames` | pkg/kptfile/kptfileutil/util.go:384-388 | within every list the library sees distinct names |
| `MergeKeys.NoSyntheticNameLeft` | pkg/kptfile/kptfileutil/util.go:508-524 | no synthetic name survives removal, whatever the library did to names |
| `MergeKeys.MergeKptfiles` | pkg/kptfile/kptfileutil/util.go:384-430 | success restores the updated and original files exactly and leaves local name, namespace, upstream and upstreamLock; failure leaves the synthetic names in all three files |
| `MergeKeys.FailureLeavesNamesBehind` | pkg/kptfile/kptfileutil/util.go:405-408 | after a failed merge with added names a file is as it was if and only if it declares no functions |
| `FilePaths.CleanIsNormal` | pkg/lib/kptops/render_executor.go:1087-1087 | a joined name has no empty or dot segments and all dot-dots in front |
| `FilePaths.CleanTwice` | pkg/lib/kptops/render_executor.go:1126-1126 | cleaning a clean name does nothing |
| `FilePaths.CleanLeadsToSamePlace` | pkg/lib/kptops/render_executor.go:1126-1126 | a path and its cleaned form lead to the same place from anywhere |
| `FilePaths.RelLeadsThere` | pkg/lib/kptops/render_executor.go:1076-1080 | following the relative path from the root leads to the package |
| `FilePruning.AcceptedExactlyWithinRoot` | pkg/lib/kptops/render_executor.go:1062-1089 | an output path is accepted if and only if both package paths are absolute and the package is the root or below it; an empty package path is refused |
| `FilePruning.TrackedAlikeExactlyWithinRoot` | pkg/lib/kptops/render_executor.go:1025-1130 | input and output tracking compute the same name if and only if the package lies within the root |
| `FilePruning.LiesWhereWritten` | pkg/lib/kptops/render_executor.go:1062-1130 | a resource tagged with an absolute package path and a plain relative path lies where the two together say, and input and output are tracked by what that is below the root |
| `Resources.PlaceIsRead` | pkg/fn/runtime/runner.go:586-607 | package, file and index are each read from their own annotation, a legacy annotation only where the other is missing |
| `FilePruning.NameLeadsToFile` | pkg/lib/kptops/render_executor.go:1062-1130 | the tracked name, seen from the root, is the file the resource has in its package |
| `FilePruning.SameFileExactlyWhenSameName` | pkg/lib/kptops/render_executor.go:1150-1152 | within the root, names are equal if and only if the files are |
| `FilePruning.EscapingNamesDiffer` | pkg/lib/kptops/render_executor.go:1150-1152 | outside they need not be, one file having two clean names: the reason for the path check |
| `FilePaths.EscapesExactly` | pkg/fn/runtime/runner.go:595-599 | the check on the cleaned string refuses exactly the paths that lead up, but for one: ".." itself |
| `FilePaths.SameStringExactlyWhenSamePath` | pkg/fn/runtime/runner.go:595-606 | cleaned strings are equal if and only if the cleaned paths are |
| `FilePruning.NameIsInside` | pkg/lib/kptops/render_executor.go:1076-1088 | a package within the root and a path in it that does not lead up give a name that does not lead up: the package followed by the path |
| `FilePruning.NameOfUp` | pkg/fn/runtime/runner.go:596-599 | the path the check lets through: below the root package its name leads inside, in the root package it is ".." |
| `FilePruning.StringsTellFilesApartExactly` | pkg/fn/runtime/runner.go:595-606 | the check tells two paths of a package apart as their files are if and only if both or neither are written as absolute |
| `FilePruning.SameFileExactlyWhenTrackedAlike` | pkg/lib/kptops/render_executor.go:1025-1130 | a resource that was read and one that passed the path check have the same name if and only if they have the same file |
| `FilePruning.TrackFiles` | pkg/lib/kptops/render_executor.go:1117-1146 | the set of names of a list of resources, or the first that has none |
| `FilePruning.Disk.PruneResources` | pkg/lib/kptops/render_executor.go:1150-1158 | removes exactly what is at or below an input name that is no output name |
| `FilePruning.ListedExactly` | pkg/lib/kptops/render_executor.go:1025-1152 | the name of a resource that was read below the root is kept if and only if some output resource that passed the path check is written to its file |
| `FilePruning.LeftExactly` | pkg/lib/kptops/render_executor.go:1117-1158 | on the disk, wherever paths lead: the file of an input resource is left if and only if every name the input has for it is a name of the output |
| `FilePruning.PrunedExactly` | pkg/lib/kptops/render_executor.go:1025-1158 | on the disk: the file of a resource that was read below the root is left if and only if some output resource that passed the path check is written to it |
| `FilePruning.KeptResourceKeepsItsFile` | pkg/lib/kptops/render_executor.go:1025-1158 | on the disk: a resource that keeps its package and, up to cleaning, its path never loses its file |
| `FilePruning.LeftIsAllButDropped` | pkg/lib/kptops/render_executor.go:1025-1158 | the whole disk after pruning: exactly the files are gone that were read and that no resource of the output is kept in; nothing that was written goes, and nothing that was not read |
| `RenderInPlace.DeclaredPipelinesKeepPaths` | pkg/lib/kptops/render_executor.go:704-750 | no pipeline that a Kptfile declares lets a resource escape from its package |
| `RenderInPlace.RunDeclaredExactly` | pkg/lib/kptops/render_executor.go:704-750 | an invalid Kptfile breaks its package's pipeline; a valid one makes it put out what its functions leave, or hand that back when they fail |
| `RenderInPlace.OneFunctionDecides` | pkg/lib/kptops/render_executor.go:704-886 | a package with one function that takes everything and passes yields what that function returns, packages filled in |
| `RenderInPlace.DepthFirstRenderPrunesExactly` | pkg/lib/kptops/render_executor.go:117-168 | a whole depth-first render with the declared pipelines, whatever functions they run: of the files on the disk exactly those go that were read and that no rendered resource is kept in |
| `RenderInPlace.BreadthFirstRenderPrunesExactly` | pkg/lib/kptops/render_executor.go:117-168 | the same for a whole breadth-first render |
| `RenderInPlace.IsolatedWithoutFunctions` | pkg/lib/kptops/render_executor.go:716-721 | packages without functions are isolated over a whole breadth-first run, whether their resources are KRM or not |
| `RenderInPlace.OrdersAgreeWithoutFunctions` | pkg/lib/kptops/render_executor.go:440-552 | in a package tree without functions each order succeeds if and only if what every package sees is KRM, and both then render the same multiset: all local resources |
| `RenderInPlace.NothingGoesWithoutFunctions` | pkg/lib/kptops/render_executor.go:117-168 | rendering a package tree without functions in place, in either order, removes no file |

## Left out

- Container, exec, wasm and CEL execution: a function is an arbitrary map from a config and a resource list to resources, readable or unreadable results, and possibly a failure.
- YAML and the kyaml readers, writers and `kio.Pipeline`: resources are records, marshalling is the identity, a pipeline is a call of its filter.
- PathSafety.TurnStays: what the filter returns is taken as what the mutator leaves. The library pipeline around the filter (pkg/lib/kptops/render_executor.go:843-852) runs after the path check, so what it might do to path annotations is outside the claim, here and in `PathSafety.PipelineStays` and `RenderInPlace.DeclaredPipelinesKeepPaths`.
- Reads fail or succeed as functions of the path; relative-path and annotation parse errors count among them.
- Resource documents are shared by pointer in the source; here lists hold values, so a function that changes a document through an alias kept elsewhere is not modelled.
- HydrateBreadthFirst.ExecutePipelinesWithScopedVisibility: the root's aggregate is built after the loop in one place, the source has the same call on the failing and on the succeeding path.
- SelectiveMutation.EnforcePathInvariants: package, cleaned file path and index of a resource come from a function `locate`, for which `FunctionExecution.LocationOf` is put; the three nested maps are one set of triples.
- FunctionExecution.Filter: a function without a condition is one whose condition holds; standard error, structured results and their severities are not part of the record; printing is left out.
- MutatorChain.ExcludeAndRefreshFnConfig: resources whose annotations cannot be parsed are not modelled.
- Pipeline validation of the Kptfile, result files and the render status written to it: shallow.
- FilePruning.PrunedExactly: what is written before pruning is the writer's business; only names and deletions are modelled. That reads tag resources with a package within the root and a file in it is what the package reader does, in a library that is not part of this model; so is reading path annotations, the legacy one counting where the other is missing. Windows paths are left out.
- RenderInPlace.DepthFirstRenderPrunesExactly: which files were read is a list of resources read in reachable packages, not collected on the way; adjusting the path annotations before writing is part of the naming of output resources.
- StructuralDiff.DiffValue: paths are sequences of steps; their rendering with dots is ambiguous and left out. Numbers are integers.
- HandleTable.Go.StoreValue: table indices are unbounded, the source has 32 bits for them; the other imported functions of the glue only call load and store.
- ArgLayout.Startup.Run: strings come as encoded bytes and the environment as a list already sorted and joined.
- StaleItems.SortDirs: the root is a clean path; an insertion stands in for the library sort; only that its result is sorted by the comparison is used. A directory is empty when nothing lies beneath it. Permissions, symbolic links and failing system calls are left out.
- GitCache.Broker.GetRepo: one call sees one state of the remote, branch names are not tag names; a full SHA is told by its length, and a name that only the local clone can resolve is not modelled. Because earlier fetches leave the clone shallow, a full fetch is only taken to bring what the branches point to, not their history; nor is it claimed to bring tags.
- PlanBuilder.DryRunForPlan: the applier is its event stream; an unknown identifier, on which the source panics, is an outcome.
- NonKrmMerge.LocalDir.ReplaceNonKrmFiles: which names are resource files, and which files nested packages hide, are functions, the latter of the resource files present; creating directories and removing empty ones is left out.
- MergeKeys.MergeKptfiles: the three Kptfiles are different objects and present; annotations, labels, info, inventory and status are one field.
- The package-level existence tables of the updaters, commands, printers, error resolvers, documentation tools, cluster clients, OCI and wasm transports, inventory store: user interface, network plumbing, or easy once the above is there.
