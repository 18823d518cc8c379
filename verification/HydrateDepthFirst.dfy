/** Depth-first, post-order hydration with the Dry/Hydrating/Wet state machine.

    The specification is the plain recursion over the package graph that neither
    remembers results nor marks nodes: it only carries the chain of packages above the
    current one.  `Hydrate` is the marking, memoising traversal. */
module HydrateDepthFirst {
  import opened Wrappers
  import opened PackageGraph
  import opened Resources
  import opened Sequences

  /** `returned` is the resource list handed to the caller along with the error, `kept`
      what the package's own node is left holding. */
  datatype Outcome =
    | Done(resources: seq<Resource>)
    | Failed(error: Error, returned: Option<seq<Resource>>, kept: Option<seq<Resource>>)

  datatype Gathering =
    | Gathered(resources: seq<Resource>)
    | Stopped(error: Error, kept: Option<seq<Resource>>)

  /** A Go slice that only ever grew by appends is nil exactly when it is empty. */
  function AppendedSlice(s: seq<Resource>): Option<seq<Resource>> {
    if s == [] then None else Some(s)
  }

  /** One package's pipeline, once its input has been gathered. */
  function FinishPackage(w: World, save: bool, p: Path, input: seq<Resource>): Outcome {
    match w.run(p, input)
    case Ran(output) => Done(output)
    case Broke(why, reached) =>
      var kept := if reached.None? then AppendedSlice(input) else reached;
      if save then Failed(PipelineFailed(why), kept, kept)
      else Failed(PipelineFailed(why), reached, None)
  }

  /** The reference: hydrate `p`, `above` being the packages it is nested in. */
  ghost function Reference(w: World, save: bool, universe: set<Path>, p: Path, above: set<Path>): Outcome
    requires Closed(w, universe) && p in universe
    decreases universe - above, 0
  {
    if p in above then
      Failed(CycleDetected, None, None)
    else
      match w.local(p)
      case Err(e) => Failed(ReadFailed(e), None, None)
      case Ok(own) =>
        match w.subpackages(p)
        case Err(e) => Failed(ReadFailed(e), None, None)
        case Ok(subs) =>
          match ReferenceAll(w, save, universe, subs, above + {p}, own)
          case Stopped(e, kept) => Failed(e, None, kept)
          case Gathered(input) => FinishPackage(w, save, p, input)
  }

  /** The packages `ps` nested in `above`, left to right, appended to `own`. */
  ghost function ReferenceAll(w: World, save: bool, universe: set<Path>,
                              ps: seq<Path>, above: set<Path>, own: seq<Resource>): Gathering
    requires Closed(w, universe) && forall c :: c in ps ==> c in universe
    decreases universe - above, 1, |ps|
  {
    if ps == [] then
      Gathered(own)
    else
      var n := |ps| - 1;
      match ReferenceAll(w, save, universe, ps[..n], above, own)
      case Stopped(e, kept) => Stopped(e, kept)
      case Gathered(input) =>
        match w.openable(ps[n])
        case Err(e) => Stopped(ReadFailed(e), None)
        case Ok(_) =>
          match Reference(w, save, universe, ps[n], above)
          case Done(resources) => Gathered(input + resources)
          case Failed(e, returned, _) =>
            Stopped(e, if save && returned.Some? then Some(input + returned.value) else None)
  }

  // ---------------------------------------------------------------- the reference

  lemma {:induction false} StoppedEarly(w: World, save: bool, universe: set<Path>, ps: seq<Path>, i: nat,
                                        above: set<Path>, own: seq<Resource>)
    requires Closed(w, universe) && (forall c :: c in ps ==> c in universe) && i <= |ps|
    requires ReferenceAll(w, save, universe, ps[..i], above, own).Stopped?
    ensures ReferenceAll(w, save, universe, ps, above, own) == ReferenceAll(w, save, universe, ps[..i], above, own)
  {
    if i == |ps| {
      assert ps[..i] == ps;
    } else {
      var n := |ps| - 1;
      assert ps[..n][..i] == ps[..i];
      StoppedEarly(w, save, universe, ps[..n], i, above, own);
    }
  }

  lemma {:induction false} GatheredAll(w: World, save: bool, universe: set<Path>, ps: seq<Path>,
                                       above: set<Path>, own: seq<Resource>, c: Path)
    requires Closed(w, universe) && (forall c :: c in ps ==> c in universe) && c in ps
    requires ReferenceAll(w, save, universe, ps, above, own).Gathered?
    ensures w.openable(c).Ok? && Reference(w, save, universe, c, above).Done?
  {
    var n := |ps| - 1;
    if c != ps[n] {
      assert c in ps[..n];
      GatheredAll(w, save, universe, ps[..n], above, own, c);
    }
  }

  lemma {:induction false} SameGathering(w: World, save: bool, universe: set<Path>, ps: seq<Path>,
                                         s: set<Path>, t: set<Path>, own: seq<Resource>)
    requires Closed(w, universe) && (forall c :: c in ps ==> c in universe)
    requires forall c :: c in ps ==> Reference(w, save, universe, c, s) == Reference(w, save, universe, c, t)
    ensures ReferenceAll(w, save, universe, ps, s, own) == ReferenceAll(w, save, universe, ps, t, own)
  {
    if ps != [] {
      SameGathering(w, save, universe, ps[..|ps| - 1], s, t, own);
    }
  }

  /** A package that hydrates reaches none of the packages it is nested in. */
  lemma {:induction false} DoneReachesNothingAbove(w: World, save: bool, universe: set<Path>, walk: seq<Path>, above: set<Path>)
    requires Closed(w, universe) && IsWalk(w, walk) && walk[0] in universe
    requires Reference(w, save, universe, walk[0], above).Done?
    ensures walk[|walk| - 1] !in above
    decreases |walk|
  {
    if |walk| > 1 {
      var p, c := walk[0], walk[1];
      GatheredAll(w, save, universe, w.subpackages(p).value, above + {p}, w.local(p).value, c);
      DoneReachesNothingAbove(w, save, universe, walk[1..], above + {p});
    }
  }

  lemma DoneReaches(w: World, save: bool, universe: set<Path>, p: Path, q: Path, above: set<Path>)
    requires Closed(w, universe) && p in universe
    requires Reference(w, save, universe, p, above).Done? && Reaches(w, p, q)
    ensures q !in above
  {
    var walk :| WalkFromTo(w, walk, p, q);
    DoneReachesNothingAbove(w, save, universe, walk, above);
  }

  /** Where a package hydrates, the packages it is nested in do not matter: the same
      result comes out under every chain it does not reach back into. */
  lemma {:induction false} NestingIrrelevant(w: World, save: bool, universe: set<Path>, p: Path, s: set<Path>, t: set<Path>)
    requires Closed(w, universe) && p in universe
    requires Reference(w, save, universe, p, s).Done?
    requires forall q :: Reaches(w, p, q) ==> q !in t
    ensures Reference(w, save, universe, p, t) == Reference(w, save, universe, p, s)
    decreases universe - s
  {
    ReachesSelf(w, p);
    var subs, own := w.subpackages(p).value, w.local(p).value;
    forall c | c in subs
      ensures Reference(w, save, universe, c, t + {p}) == Reference(w, save, universe, c, s + {p})
    {
      GatheredAll(w, save, universe, subs, s + {p}, own, c);
      forall q | Reaches(w, c, q)
        ensures q !in t + {p}
      {
        ReachesVia(w, p, c, q);
        DoneReaches(w, save, universe, c, q, s + {p});
      }
      NestingIrrelevant(w, save, universe, c, s + {p}, t + {p});
    }
    SameGathering(w, save, universe, subs, s + {p}, t + {p}, own);
  }

  lemma {:induction false} DoneFurtherDown(w: World, save: bool, universe: set<Path>, walk: seq<Path>, above: set<Path>)
    returns (deeper: set<Path>)
    requires Closed(w, universe) && IsWalk(w, walk) && walk[0] in universe
    requires Reference(w, save, universe, walk[0], above).Done?
    ensures walk[|walk| - 1] in universe
    ensures Reference(w, save, universe, walk[|walk| - 1], deeper).Done?
    decreases |walk|
  {
    if |walk| == 1 {
      deeper := above;
    } else {
      var p := walk[0];
      GatheredAll(w, save, universe, w.subpackages(p).value, above + {p}, w.local(p).value, walk[1]);
      deeper := DoneFurtherDown(w, save, universe, walk[1..], above + {p});
    }
  }

  /** What a package gathers does not depend on what it is nested in. */
  lemma GatheredAlone(w: World, save: bool, universe: set<Path>, p: Path, ps: seq<Path>, above: set<Path>, own: seq<Resource>)
    requires Closed(w, universe) && (forall c :: c in ps ==> c in universe)
    requires ReferenceAll(w, save, universe, ps, above + {p}, own).Gathered?
    ensures ReferenceAll(w, save, universe, ps, {p}, own) == ReferenceAll(w, save, universe, ps, above + {p}, own)
  {
    hide Reference, ReferenceAll;
    forall c | c in ps ensures Reference(w, save, universe, c, {p}) == Reference(w, save, universe, c, above + {p}) {
      GatheredAll(w, save, universe, ps, above + {p}, own, c);
      forall q | Reaches(w, c, q) ensures q !in {p} {
        DoneReaches(w, save, universe, c, q, above + {p});
      }
      NestingIrrelevant(w, save, universe, c, above + {p}, {p});
    }
    SameGathering(w, save, universe, ps, {p}, above + {p}, own);
  }

  /** The reads of a package succeed, and so does its pipeline on what it receives. */
  ghost predicate Works(w: World, save: bool, universe: set<Path>, p: Path)
    requires Closed(w, universe) && p in universe
  {
    && w.local(p).Ok? && w.subpackages(p).Ok? && (forall c :: c in Children(w, p) ==> w.openable(c).Ok?)
    && var gathering := ReferenceAll(w, save, universe, w.subpackages(p).value, {p}, w.local(p).value);
       (gathering.Gathered? ==> w.run(p, gathering.resources).Ran?)
  }

  /** Nothing fails in the packages reachable from `root`. */
  ghost predicate NothingBreaks(w: World, save: bool, universe: set<Path>, root: Path)
    requires Closed(w, universe) && root in universe
  {
    forall p :: Reaches(w, root, p) ==> p in universe && Works(w, save, universe, p)
  }

  lemma {:induction false} StoppedBySomeChild(w: World, save: bool, universe: set<Path>, ps: seq<Path>,
                                              above: set<Path>, own: seq<Resource>) returns (c: Path)
    requires forall c :: c in ps ==> w.openable(c).Ok?
    requires Closed(w, universe) && (forall c :: c in ps ==> c in universe)
    requires ReferenceAll(w, save, universe, ps, above, own).Stopped?
    ensures c in ps && Reference(w, save, universe, c, above).Failed?
    ensures Reference(w, save, universe, c, above).error == ReferenceAll(w, save, universe, ps, above, own).error
  {
    var n := |ps| - 1;
    if ReferenceAll(w, save, universe, ps[..n], above, own).Stopped? {
      c := StoppedBySomeChild(w, save, universe, ps[..n], above, own);
    } else {
      c := ps[n];
    }
  }

  /** Where nothing breaks, a package can only fail by being met again or by a subpackage
      that fails. */
  lemma FailsBySubpackage(w: World, save: bool, universe: set<Path>, p: Path, above: set<Path>) returns (c: Path)
    requires Closed(w, universe) && p in universe && p !in above && Works(w, save, universe, p)
    requires Reference(w, save, universe, p, above).Failed?
    ensures c in Children(w, p) && Reference(w, save, universe, c, above + {p}).Failed?
    ensures Reference(w, save, universe, c, above + {p}).error == Reference(w, save, universe, p, above).error
  {
    var subs, own := w.subpackages(p).value, w.local(p).value;
    if ReferenceAll(w, save, universe, subs, above + {p}, own).Gathered? {
      GatheredAlone(w, save, universe, p, subs, above, own);
      assert false;
    }
    c := StoppedBySomeChild(w, save, universe, subs, above + {p}, own);
  }

  /** With nothing else to fail, a failure is a cycle: either back into the packages
      above, or wholly below. */
  lemma {:induction false} FailureIsCycle(w: World, save: bool, universe: set<Path>, root: Path, p: Path, above: set<Path>)
    requires Closed(w, universe) && root in universe && NothingBreaks(w, save, universe, root)
    requires Reaches(w, root, p) && p in universe && Reference(w, save, universe, p, above).Failed?
    ensures Reference(w, save, universe, p, above).error == CycleDetected
    ensures CycleBelow(w, p) || exists q :: q in above && Reaches(w, p, q)
    decreases universe - above
  {
    hide ReferenceAll, Works;
    ReachesSelf(w, p);
    if p !in above {
      var c := FailsBySubpackage(w, save, universe, p, above);
      ReachesChild(w, root, p, c);
      FailureIsCycle(w, save, universe, root, c, above + {p});
      if CycleBelow(w, c) {
        var q, d :| Reaches(w, c, q) && d in Children(w, q) && Reaches(w, d, q);
        ReachesVia(w, p, c, q);
      } else {
        var q :| q in above + {p} && Reaches(w, c, q);
        ReachesVia(w, p, c, q);
      }
    }
  }

  /** When no read and no pipeline of a reachable package fails, hydration fails exactly
      when a cycle can be reached, and then the error is the cycle error. */
  lemma FailsExactlyOnCycles(w: World, save: bool, universe: set<Path>, root: Path)
    requires Closed(w, universe) && root in universe && NothingBreaks(w, save, universe, root)
    ensures Reference(w, save, universe, root, {}).Failed? <==> CycleBelow(w, root)
    ensures Reference(w, save, universe, root, {}).Failed? ==>
              Reference(w, save, universe, root, {}).error == CycleDetected
  {
    ReachesSelf(w, root);
    if Reference(w, save, universe, root, {}).Failed? {
      FailureIsCycle(w, save, universe, root, root, {});
    } else if CycleBelow(w, root) {
      CycleIsFound(w, save, universe, root);
    }
  }

  /** Where a cycle can be reached, hydration fails, whatever else might. */
  lemma CycleIsFound(w: World, save: bool, universe: set<Path>, root: Path)
    requires Closed(w, universe) && root in universe && CycleBelow(w, root)
    ensures Reference(w, save, universe, root, {}).Failed?
  {
    if Reference(w, save, universe, root, {}).Done? {
      var q, c :| Reaches(w, root, q) && c in Children(w, q) && Reaches(w, c, q);
      var walk :| WalkFromTo(w, walk, root, q);
      var deeper := DoneFurtherDown(w, save, universe, walk, {});
      GatheredAll(w, save, universe, w.subpackages(q).value, deeper + {q}, w.local(q).value, c);
      DoneReaches(w, save, universe, c, q, deeper + {q});
    }
  }

  // ---------------------------------------------------------------- what is handed back and kept

  /** Hydrating `p` gets as far as its own pipeline, which receives `input`. */
  ghost predicate Gathers(w: World, save: bool, universe: set<Path>, p: Path, above: set<Path>, input: seq<Resource>)
    requires Closed(w, universe) && p in universe
  {
    && p !in above && w.local(p).Ok? && w.subpackages(p).Ok?
    && ReferenceAll(w, save, universe, w.subpackages(p).value, above + {p}, w.local(p).value) == Gathered(input)
  }

  /** A package yields what its pipeline puts out.  If that fails, the resources it had
      reached are handed back, and with saving they are kept; with saving the input stands
      in for resources it did not hand back. */
  lemma OwnPipelineDecides(w: World, save: bool, universe: set<Path>, p: Path, above: set<Path>, input: seq<Resource>)
    requires Closed(w, universe) && p in universe && Gathers(w, save, universe, p, above, input)
    ensures var r := Reference(w, save, universe, p, above);
            match w.run(p, input)
            case Ran(output) => r == Done(output)
            case Broke(why, Some(reached)) =>
              r == Failed(PipelineFailed(why), Some(reached), if save then Some(reached) else None)
            case Broke(why, None) =>
              r == if save && input != [] then Failed(PipelineFailed(why), Some(input), Some(input))
                   else Failed(PipelineFailed(why), None, None)
  {
  }

  /** A package whose pipeline received `input` in vain. */
  ghost predicate FailsItself(w: World, save: bool, universe: set<Path>, p: Path, above: set<Path>)
    requires Closed(w, universe) && p in universe
  {
    exists input :: Gathers(w, save, universe, p, above, input) && w.run(p, input).Broke?
  }

  /** The first `n` subpackages of `p` hydrate, yielding `input` together with its own
      resources, and the next one fails. */
  ghost predicate StopsAt(w: World, save: bool, universe: set<Path>, p: Path, above: set<Path>, n: nat, input: seq<Resource>)
    requires Closed(w, universe) && p in universe
  {
    && p !in above && w.local(p).Ok? && w.subpackages(p).Ok? && n < |w.subpackages(p).value|
    && var subs := w.subpackages(p).value;
       && ReferenceAll(w, save, universe, subs[..n], above + {p}, w.local(p).value) == Gathered(input)
       && (w.openable(subs[n]).Ok? ==> Reference(w, save, universe, subs[n], above + {p}).Failed?)
  }

  /** What a failing subpackage leaves its parent: its error, nothing to hand on, and with
      saving what had been gathered and what it handed back, if it did. */
  lemma SubpackageStops(w: World, save: bool, universe: set<Path>, p: Path, above: set<Path>, n: nat, input: seq<Resource>)
    requires Closed(w, universe) && p in universe && StopsAt(w, save, universe, p, above, n, input)
    ensures var c := w.subpackages(p).value[n];
            Reference(w, save, universe, p, above) ==
            match w.openable(c)
            case Err(why) => Failed(ReadFailed(why), None, None)
            case Ok(_) =>
              var r := Reference(w, save, universe, c, above + {p});
              Failed(r.error, None, if save && r.returned.Some? then Some(input + r.returned.value) else None)
  {
    var subs := w.subpackages(p).value;
    assert subs[..n + 1][..n] == subs[..n] && subs[..n + 1][n] == subs[n];
    StoppedEarly(w, save, universe, subs, n + 1, above + {p}, w.local(p).value);
  }

  /** Every failure is one of these: a cycle, an unreadable package, its own pipeline, or a
      subpackage. */
  lemma FailureHasCause(w: World, save: bool, universe: set<Path>, p: Path, above: set<Path>)
    requires Closed(w, universe) && p in universe && Reference(w, save, universe, p, above).Failed?
    ensures || (p in above && Reference(w, save, universe, p, above) == Failed(CycleDetected, None, None))
            || (p !in above && w.local(p).Err? &&
                Reference(w, save, universe, p, above) == Failed(ReadFailed(w.local(p).error), None, None))
            || (p !in above && w.local(p).Ok? && w.subpackages(p).Err? &&
                Reference(w, save, universe, p, above) == Failed(ReadFailed(w.subpackages(p).error), None, None))
            || FailsItself(w, save, universe, p, above)
            || exists n: nat, input :: StopsAt(w, save, universe, p, above, n, input)
  {
    if p !in above && w.local(p).Ok? && w.subpackages(p).Ok? {
      match ReferenceAll(w, save, universe, w.subpackages(p).value, above + {p}, w.local(p).value)
      case Gathered(input) =>
        OwnPipelineDecides(w, save, universe, p, above, input);
        assert Gathers(w, save, universe, p, above, input);
      case Stopped(_, _) =>
        var n, input := FirstStop(w, save, universe, w.subpackages(p).value, above + {p}, w.local(p).value);
        assert StopsAt(w, save, universe, p, above, n, input);
    }
  }

  lemma {:induction false} FirstStop(w: World, save: bool, universe: set<Path>, ps: seq<Path>, above: set<Path>, own: seq<Resource>)
    returns (n: nat, input: seq<Resource>)
    requires Closed(w, universe) && (forall c :: c in ps ==> c in universe)
    requires ReferenceAll(w, save, universe, ps, above, own).Stopped?
    ensures n < |ps| && ReferenceAll(w, save, universe, ps[..n], above, own) == Gathered(input)
    ensures w.openable(ps[n]).Ok? ==> Reference(w, save, universe, ps[n], above).Failed?
  {
    var m := |ps| - 1;
    match ReferenceAll(w, save, universe, ps[..m], above, own)
    case Gathered(soFar) =>
      n, input := m, soFar;
    case Stopped(_, _) =>
      n, input := FirstStop(w, save, universe, ps[..m], above, own);
      assert ps[..m][..n] == ps[..n];
  }

  /** A package whose own pipeline fails with something to hand back. */
  ghost predicate HandsBack(w: World, save: bool, universe: set<Path>, p: Path, above: set<Path>)
    requires Closed(w, universe) && p in universe
  {
    exists input :: Gathers(w, save, universe, p, above, input) && w.run(p, input).Broke? &&
      (w.run(p, input).reached.Some? || (save && input != []))
  }

  /** Resources come back from a failed package exactly if it is its own pipeline that fails. */
  lemma HandedBackExactly(w: World, save: bool, universe: set<Path>, p: Path, above: set<Path>)
    requires Closed(w, universe) && p in universe && Reference(w, save, universe, p, above).Failed?
    ensures Reference(w, save, universe, p, above).returned.Some? <==> HandsBack(w, save, universe, p, above)
  {
    hide Reference, ReferenceAll, StopsAt, Gathers;
    if HandsBack(w, save, universe, p, above) {
      var input :| Gathers(w, save, universe, p, above, input) && w.run(p, input).Broke? &&
        (w.run(p, input).reached.Some? || (save && input != []));
      OwnPipelineDecides(w, save, universe, p, above, input);
    } else {
      FailureHasCause(w, save, universe, p, above);
      if n: nat, input :| StopsAt(w, save, universe, p, above, n, input) {
        SubpackageStops(w, save, universe, p, above, n, input);
      } else if input :| Gathers(w, save, universe, p, above, input) && w.run(p, input).Broke? {
        OwnPipelineDecides(w, save, universe, p, above, input);
      }
    }
  }

  /** The subpackage that stops `p` is one whose own pipeline fails, with something to hand
      back. */
  ghost predicate ChildHandsBack(w: World, save: bool, universe: set<Path>, p: Path, above: set<Path>, n: nat, input: seq<Resource>)
    requires Closed(w, universe) && p in universe
  {
    && StopsAt(w, save, universe, p, above, n, input) && w.openable(w.subpackages(p).value[n]).Ok?
    && HandsBack(w, save, universe, w.subpackages(p).value[n], above + {p})
  }

  /** A failed package keeps something exactly if failures are saved, and the pipeline that
      failed is its own or that of a direct subpackage. */
  lemma KeptExactly(w: World, save: bool, universe: set<Path>, p: Path, above: set<Path>)
    requires Closed(w, universe) && p in universe && Reference(w, save, universe, p, above).Failed?
    ensures Reference(w, save, universe, p, above).kept.Some? <==>
            save && (HandsBack(w, save, universe, p, above) ||
                     exists n: nat, input :: ChildHandsBack(w, save, universe, p, above, n, input))
  {
    hide Reference, ReferenceAll, Gathers;
    if HandsBack(w, save, universe, p, above) {
      var input :| Gathers(w, save, universe, p, above, input) && w.run(p, input).Broke? &&
        (w.run(p, input).reached.Some? || (save && input != []));
      OwnPipelineDecides(w, save, universe, p, above, input);
    } else if n: nat, input :| StopsAt(w, save, universe, p, above, n, input) {
      KeptFromChild(w, save, universe, p, above, n, input);
    } else {
      NothingKept(w, save, universe, p, above);
    }
  }

  lemma KeptFromChild(w: World, save: bool, universe: set<Path>, p: Path, above: set<Path>, n: nat, input: seq<Resource>)
    requires Closed(w, universe) && p in universe && StopsAt(w, save, universe, p, above, n, input)
    ensures Reference(w, save, universe, p, above).Failed?
    ensures Reference(w, save, universe, p, above).kept.Some? <==> save && ChildHandsBack(w, save, universe, p, above, n, input)
    ensures forall m: nat, other :: StopsAt(w, save, universe, p, above, m, other) ==> m == n
  {
    var subs := w.subpackages(p).value;
    SubpackageStops(w, save, universe, p, above, n, input);
    if w.openable(subs[n]).Ok? {
      HandedBackExactly(w, save, universe, subs[n], above + {p});
    }
    forall m: nat, other | StopsAt(w, save, universe, p, above, m, other) ensures m == n {
      OneStop(w, save, universe, p, above, n, input, m, other);
    }
  }

  lemma OneStop(w: World, save: bool, universe: set<Path>, p: Path, above: set<Path>,
                n: nat, input: seq<Resource>, m: nat, other: seq<Resource>)
    requires Closed(w, universe) && p in universe
    requires StopsAt(w, save, universe, p, above, n, input) && StopsAt(w, save, universe, p, above, m, other)
    ensures m == n
  {
    var subs, own := w.subpackages(p).value, w.local(p).value;
    if m < n {
      assert subs[m] in subs[..n] by {
        assert subs[..n][m] == subs[m];
      }
      GatheredAll(w, save, universe, subs[..n], above + {p}, own, subs[m]);
    } else if n < m {
      assert subs[n] in subs[..m] by {
        assert subs[..m][n] == subs[n];
      }
      GatheredAll(w, save, universe, subs[..m], above + {p}, own, subs[n]);
    }
  }

  lemma NothingKept(w: World, save: bool, universe: set<Path>, p: Path, above: set<Path>)
    requires Closed(w, universe) && p in universe && Reference(w, save, universe, p, above).Failed?
    requires !HandsBack(w, save, universe, p, above)
    requires forall n: nat, input :: !StopsAt(w, save, universe, p, above, n, input)
    ensures Reference(w, save, universe, p, above).kept.None?
  {
    hide Reference, ReferenceAll, Gathers, StopsAt;
    FailureHasCause(w, save, universe, p, above);
    if input :| Gathers(w, save, universe, p, above, input) && w.run(p, input).Broke? {
      OwnPipelineDecides(w, save, universe, p, above, input);
    }
  }

  /** Saving on failure reaches one level: when a package two levels down fails, its parent
      keeps what there is, but hands nothing on, and the root has nothing to save. */
  lemma DeepFailureIsNotSaved() returns (w: World, universe: set<Path>)
    ensures Closed(w, universe) && "/r" in universe
    ensures Children(w, "/r") == ["/r/a"] && Children(w, "/r/a") == ["/r/a/b"]
    ensures forall p :: w.local(p).Ok? && w.local(p).value != []
    ensures Reference(w, true, universe, "/r", {}) == Failed(PipelineFailed("failed"), None, None)
    ensures Reference(w, true, universe, "/r/a", {"/r"}).Failed? && Reference(w, true, universe, "/r/a", {"/r"}).kept.Some?
  {
    var kptfile := Resource("kpt.dev/v1", "Kptfile", "", "", map[], map[], "");
    w := World(
      p => Ok([kptfile]),
      p => Ok(if p == "/r" then ["/r/a"] else if p == "/r/a" then ["/r/a/b"] else []),
      p => Ok(()),
      (p, input) => if p == "/r/a/b" then Broke("failed", Some(input)) else Ran(input));
    universe := {"/r", "/r/a", "/r/a/b"};
    assert Closed(w, universe);
    assert {} + {"/r"} == {"/r"};
    assert Gathers(w, true, universe, "/r/a/b", {"/r"} + {"/r/a"}, [kptfile]);
    OwnPipelineDecides(w, true, universe, "/r/a/b", {"/r"} + {"/r/a"}, [kptfile]);
    assert w.subpackages("/r/a").value[..0] == [];
    SubpackageStops(w, true, universe, "/r/a", {"/r"}, 0, [kptfile]);
    assert w.subpackages("/r").value[..0] == [];
    SubpackageStops(w, true, universe, "/r", {}, 0, [kptfile]);
  }

  // ---------------------------------------------------------------- what all resources share

  ghost predicate OptionHas(has: Resource -> bool, resources: Option<seq<Resource>>) {
    resources.Some? ==> AllHave(has, resources.value)
  }

  /** Whatever holds of every resource read below `root` and is kept by pipelines holds of
      every resource that hydration returns or leaves, on success and on failure. */
  lemma {:induction false} ReferenceKeeps(w: World, save: bool, universe: set<Path>, root: Path, p: Path, above: set<Path>,
                                          has: Resource -> bool)
    requires Closed(w, universe) && p in universe && Reaches(w, root, p)
    requires ReadsHave(w, root, has) && PipelinesKeep(w, has)
    ensures match Reference(w, save, universe, p, above)
            case Done(resources) => AllHave(has, resources)
            case Failed(_, returned, kept) => OptionHas(has, returned) && OptionHas(has, kept)
    decreases universe - above, 0
  {
    hide ReadsHave, PipelinesKeep, ReferenceAll, FinishPackage;
    if p !in above && w.local(p).Ok? && w.subpackages(p).Ok? {
      var own, subs := w.local(p).value, w.subpackages(p).value;
      OwnHave(w, root, p, has);
      forall c | c in subs ensures Reaches(w, root, c) {
        ReachesChild(w, root, p, c);
      }
      GatheringKeeps(w, save, universe, root, subs, above + {p}, own, has);
      match ReferenceAll(w, save, universe, subs, above + {p}, own)
      case Stopped(_, _) =>
      case Gathered(input) => FinishKeeps(w, save, p, input, has);
    }
  }

  lemma OwnHave(w: World, root: Path, p: Path, has: Resource -> bool)
    requires ReadsHave(w, root, has) && Reaches(w, root, p) && w.local(p).Ok?
    ensures AllHave(has, w.local(p).value)
  {
  }

  lemma FinishKeeps(w: World, save: bool, p: Path, input: seq<Resource>, has: Resource -> bool)
    requires PipelinesKeep(w, has) && AllHave(has, input)
    ensures match FinishPackage(w, save, p, input)
            case Done(resources) => AllHave(has, resources)
            case Failed(_, returned, kept) => OptionHas(has, returned) && OptionHas(has, kept)
  {
    hide AllHave;
    assert OutcomeHas(has, w.run(p, input));
  }

  lemma {:induction false} GatheringKeeps(w: World, save: bool, universe: set<Path>, root: Path, ps: seq<Path>,
                                          above: set<Path>, own: seq<Resource>, has: Resource -> bool)
    requires Closed(w, universe) && (forall c :: c in ps ==> c in universe && Reaches(w, root, c))
    requires ReadsHave(w, root, has) && PipelinesKeep(w, has) && AllHave(has, own)
    ensures match ReferenceAll(w, save, universe, ps, above, own)
            case Gathered(resources) => AllHave(has, resources)
            case Stopped(_, kept) => OptionHas(has, kept)
    decreases universe - above, 1, |ps|
  {
    hide ReadsHave, PipelinesKeep, AllHave, Reference;
    if ps != [] {
      var n := |ps| - 1;
      GatheringKeeps(w, save, universe, root, ps[..n], above, own, has);
      match ReferenceAll(w, save, universe, ps[..n], above, own)
      case Stopped(_, _) =>
      case Gathered(input) =>
        ReferenceKeeps(w, save, universe, root, ps[n], above, has);
        match Reference(w, save, universe, ps[n], above)
        case Done(resources) => BothHave(has, input, resources);
        case Failed(_, returned, _) =>
          if returned.Some? {
            BothHave(has, input, returned.value);
          }
    }
  }

  // ---------------------------------------------------------------- the order of pipelines

  /** No package twice, and every package after all its subpackages. */
  ghost predicate PostOrder(w: World, ran: seq<Path>) {
    && Distinct(ran)
    && (forall i, c :: 0 <= i < |ran| && c in Children(w, ran[i]) ==> c in ran[..i])
  }

  lemma PostOrderGrows(w: World, ran: seq<Path>, p: Path)
    requires PostOrder(w, ran) && p !in ran
    requires forall c :: c in Children(w, p) ==> c in ran
    ensures PostOrder(w, ran + [p])
  {
    var longer := ran + [p];
    forall i, c | 0 <= i < |longer| && c in Children(w, longer[i])
      ensures c in longer[..i]
    {
      if i < |ran| {
        assert longer[..i] == ran[..i];
      } else {
        assert longer[..i] == ran;
      }
    }
  }

  /** In a post-order run a package comes after everything it reaches. */
  lemma {:induction false} PostOrderDescendants(w: World, ran: seq<Path>, i: nat, walk: seq<Path>)
    requires PostOrder(w, ran) && i < |ran|
    requires IsWalk(w, walk) && walk[0] == ran[i] && |walk| > 1
    ensures walk[|walk| - 1] in ran[..i]
    decreases |walk|
  {
    var c := walk[1];
    assert c in Children(w, walk[0]);
    var j :| 0 <= j < i && ran[j] == c;
    if |walk| > 2 {
      PostOrderDescendants(w, ran, j, walk[1..]);
      assert ran[..j] <= ran[..i];
    }
  }

  /** The "invalid state" error is never what hydration reports. */
  lemma {:induction false} NeverInvalidState(w: World, save: bool, universe: set<Path>, p: Path, above: set<Path>)
    requires Closed(w, universe) && p in universe
    ensures Reference(w, save, universe, p, above).Failed? ==>
              Reference(w, save, universe, p, above).error != InvalidState
    decreases universe - above, 0
  {
    if p !in above && w.local(p).Ok? && w.subpackages(p).Ok? {
      NeverInvalidStateAmong(w, save, universe, w.subpackages(p).value, above + {p}, w.local(p).value);
    }
  }

  lemma {:induction false} NeverInvalidStateAmong(w: World, save: bool, universe: set<Path>, ps: seq<Path>,
                                                  above: set<Path>, own: seq<Resource>)
    requires Closed(w, universe) && forall c :: c in ps ==> c in universe
    ensures ReferenceAll(w, save, universe, ps, above, own).Stopped? ==>
              ReferenceAll(w, save, universe, ps, above, own).error != InvalidState
    decreases universe - above, 1, |ps|
  {
    if ps != [] {
      NeverInvalidStateAmong(w, save, universe, ps[..|ps| - 1], above, own);
      NeverInvalidState(w, save, universe, ps[|ps| - 1], above);
    }
  }

  // ---------------------------------------------------------------- the traversal

  /** The packages whose hydration has begun and not ended. */
  ghost function InProgress(hctx: HydrationContext): set<Path>
    reads hctx, hctx.pkgs.Values
  {
    set q | q in hctx.pkgs && hctx.pkgs[q].state == Hydrating
  }

  ghost predicate IsWet(hctx: HydrationContext, q: Path)
    reads hctx, hctx.pkgs.Values
  {
    q in hctx.pkgs && hctx.pkgs[q].state == Wet
  }

  /** Every node is filed under its own path and has left the Dry state; a Wet node
      holds what the reference computes for it and has only Wet subpackages; the
      pipelines run so far are those of the Wet packages, each once, and each after
      the pipelines of its subpackages. */
  ghost predicate Valid(hctx: HydrationContext, universe: set<Path>)
    reads hctx, hctx.pkgs.Values
  {
    && Closed(hctx.w, universe)
    && NodesFiled(hctx, universe)
    && WetHoldsReference(hctx, universe)
    && WetDownwards(hctx)
    && (forall q :: q in hctx.ran <==> IsWet(hctx, q))
    && PostOrder(hctx.w, hctx.ran)
  }

  ghost predicate NodesFiled(hctx: HydrationContext, universe: set<Path>)
    reads hctx, hctx.pkgs.Values
  {
    forall q :: q in hctx.pkgs ==> q in universe && hctx.pkgs[q].path == q && hctx.pkgs[q].state != Dry
  }

  ghost predicate WetHoldsReference(hctx: HydrationContext, universe: set<Path>)
    reads hctx, hctx.pkgs.Values
  {
    forall q :: IsWet(hctx, q) ==> HoldsReference(hctx, universe, q)
  }

  ghost predicate HoldsReference(hctx: HydrationContext, universe: set<Path>, q: Path)
    reads hctx, hctx.pkgs.Values
  {
    Closed(hctx.w, universe) && q in universe && q in hctx.pkgs &&
    Reference(hctx.w, hctx.save, universe, q, {}) == Done(hctx.pkgs[q].resources)
  }

  ghost predicate WetDownwards(hctx: HydrationContext)
    reads hctx, hctx.pkgs.Values
  {
    forall q, c :: IsWet(hctx, q) && c in Children(hctx.w, q) ==> IsWet(hctx, c)
  }

  lemma WetClosed(hctx: HydrationContext, universe: set<Path>, p: Path)
    requires Valid(hctx, universe) && IsWet(hctx, p)
    ensures forall q :: Reaches(hctx.w, p, q) ==> IsWet(hctx, q)
  {
    var wet := set q | q in hctx.pkgs && hctx.pkgs[q].state == Wet;
    assert Closed(hctx.w, wet) by {
      forall q, c | q in wet && c in Children(hctx.w, q) ensures c in wet {
        assert IsWet(hctx, q) && IsWet(hctx, c);
      }
    }
    forall q | Reaches(hctx.w, p, q) ensures IsWet(hctx, q) {
      ReachStaysInside(hctx.w, wet, p, q);
    }
  }

  /** A Wet package can be reused under the packages now in progress. */
  lemma WetIsReference(hctx: HydrationContext, universe: set<Path>, p: Path)
    requires Valid(hctx, universe) && IsWet(hctx, p)
    ensures Reference(hctx.w, hctx.save, universe, p, InProgress(hctx)) == Done(hctx.pkgs[p].resources)
  {
    WetClosed(hctx, universe, p);
    NestingIrrelevant(hctx.w, hctx.save, universe, p, {}, InProgress(hctx));
  }

  /** Nodes already filed stay filed. */
  twostate predicate Extends(hctx: HydrationContext)
    reads hctx
  {
    forall q :: q in old(hctx.pkgs) ==> q in hctx.pkgs && hctx.pkgs[q] == old(hctx.pkgs[q])
  }

  /** Everything filed since was reached from `p`. */
  twostate predicate AddsOnlyBelow(hctx: HydrationContext, p: Path)
    reads hctx
  {
    forall q :: q in hctx.pkgs && q !in old(hctx.pkgs) ==> Reaches(hctx.w, p, q)
  }

  /** File a newly discovered package and mark it. */
  method Begin(hctx: HydrationContext, pn: PkgNode, ghost universe: set<Path>)
    requires Valid(hctx, universe) && pn.path in universe && pn.path !in hctx.pkgs && pn !in hctx.pkgs.Values
    modifies hctx`pkgs, pn`state
    ensures Valid(hctx, universe) && Extends(hctx)
    ensures hctx.pkgs == old(hctx.pkgs)[pn.path := pn] && pn.state == Hydrating
    ensures InProgress(hctx) == old(InProgress(hctx)) + {pn.path}
  {
    hctx.pkgs := hctx.pkgs[pn.path := pn];
    pn.state := Hydrating;
    assert forall q :: IsWet(hctx, q) <==> old(IsWet(hctx, q));
  }

  /** Record the pipeline run of a package all of whose subpackages are Wet. */
  method Complete(hctx: HydrationContext, pn: PkgNode, output: seq<Resource>, ghost universe: set<Path>)
    requires Valid(hctx, universe) && pn.path in universe && pn.path in hctx.pkgs && hctx.pkgs[pn.path] == pn
    requires pn.state == Hydrating
    requires forall c :: c in Children(hctx.w, pn.path) ==> IsWet(hctx, c)
    requires Reference(hctx.w, hctx.save, universe, pn.path, {}) == Done(output)
    modifies hctx`ran, pn
    ensures Valid(hctx, universe) && IsWet(hctx, pn.path)
    ensures InProgress(hctx) == old(InProgress(hctx)) - {pn.path}
    ensures hctx.ran == old(hctx.ran) + [pn.path]
  {
    PostOrderGrows(hctx.w, hctx.ran, pn.path);
    hctx.ran := hctx.ran + [pn.path];
    pn.state := Wet;
    pn.resources := output;
    assert forall q :: IsWet(hctx, q) <==> old(IsWet(hctx, q)) || q == pn.path;
    forall q | IsWet(hctx, q) ensures HoldsReference(hctx, universe, q) {
      assert q != pn.path ==> old(HoldsReference(hctx, universe, q));
    }
  }

  method Hydrate(hctx: HydrationContext, pn: PkgNode, ghost universe: set<Path>)
    returns (output: Option<seq<Resource>>, err: Option<Error>)
    requires Valid(hctx, universe) && pn.path in universe
    requires pn !in hctx.pkgs.Values && pn.state == Dry && pn.resources == []
    modifies hctx, pn
    decreases universe - hctx.pkgs.Keys, 0
    ensures Extends(hctx)
    ensures match Reference(hctx.w, hctx.save, universe, pn.path, old(InProgress(hctx)))
            case Done(resources) => err == None && output == Some(resources)
            case Failed(e, returned, kept) =>
              && err == Some(e) && output == returned
              && pn.resources == (if kept.Some? then kept.value else [])
    ensures err.None? ==> Valid(hctx, universe) && IsWet(hctx, pn.path) && InProgress(hctx) == old(InProgress(hctx))
    ensures err.None? ==> AddsOnlyBelow(hctx, pn.path)
    ensures err.None? && pn.path !in old(hctx.pkgs) ==> hctx.pkgs[pn.path] == pn
  {
    hide NodesFiled, WetHoldsReference, WetDownwards, PostOrder, IsWet, FinishPackage;
    var p := pn.path;
    output, err := None, None;
    if p in hctx.pkgs {
      output, err := Revisit(hctx, pn, universe);
      return;
    }
    Begin(hctx, pn, universe);
    ghost var above := InProgress(hctx);
    assert above - {p} == old(InProgress(hctx));
    ReachesSelf(hctx.w, p);

    var own := hctx.w.local(p);
    if own.Err? {
      err := Some(ReadFailed(own.error));
      return;
    }
    var subs := hctx.w.subpackages(p);
    if subs.Err? {
      err := Some(ReadFailed(subs.error));
      return;
    }
    var input;
    input, err := HydrateSubpackages(hctx, pn, own.value, subs.value, universe);
    if err.Some? {
      return;
    }
    output, err := RunOwnPipeline(hctx, pn, own.value, subs.value, input, universe);
  }

  /** The pipeline of a package whose input has been gathered. */
  method RunOwnPipeline(hctx: HydrationContext, pn: PkgNode, own: seq<Resource>, subs: seq<Path>, input: seq<Resource>,
                        ghost universe: set<Path>)
    returns (output: Option<seq<Resource>>, err: Option<Error>)
    requires Valid(hctx, universe) && pn.path in universe && pn.path in hctx.pkgs && hctx.pkgs[pn.path] == pn
    requires pn.state == Hydrating && pn.resources == []
    requires hctx.w.local(pn.path) == Ok(own) && hctx.w.subpackages(pn.path) == Ok(subs)
    requires forall c :: c in subs ==> IsWet(hctx, c)
    requires ReferenceAll(hctx.w, hctx.save, universe, subs, InProgress(hctx), own) == Gathered(input)
    modifies hctx`ran, pn
    ensures match FinishPackage(hctx.w, hctx.save, pn.path, input)
            case Done(resources) => err == None && output == Some(resources)
            case Failed(e, returned, kept) =>
              && err == Some(e) && output == returned
              && pn.resources == if kept.Some? then kept.value else []
    ensures err.None? ==> Valid(hctx, universe) && IsWet(hctx, pn.path)
    ensures err.None? ==> InProgress(hctx) == old(InProgress(hctx)) - {pn.path}
  {
    var outcome := hctx.w.run(pn.path, input);
    if outcome.Broke? {
      output := outcome.reached;
      if hctx.save {
        if output.None? {
          output := AppendedSlice(input);
        }
        pn.resources := if output.Some? then output.value else [];
      }
      err := Some(PipelineFailed(outcome.why));
      return;
    }
    output, err := Some(outcome.output), None;
    DoneAlone(hctx.w, hctx.save, universe, pn.path, InProgress(hctx), input);
    Complete(hctx, pn, outcome.output, universe);
  }

  lemma DoneAlone(w: World, save: bool, universe: set<Path>, p: Path, above: set<Path>, input: seq<Resource>)
    requires Closed(w, universe) && p in universe && p in above && w.local(p).Ok? && w.subpackages(p).Ok?
    requires ReferenceAll(w, save, universe, w.subpackages(p).value, above, w.local(p).value) == Gathered(input)
    requires w.run(p, input).Ran?
    ensures Reference(w, save, universe, p, {}) == Done(w.run(p, input).output)
  {
    assert above + {p} == above;
    GatheredAlone(w, save, universe, p, w.subpackages(p).value, above, w.local(p).value);
    assert {} + {p} == {p};
  }

  /** A package met before: still in progress, or finished. */
  method Revisit(hctx: HydrationContext, pn: PkgNode, ghost universe: set<Path>)
    returns (output: Option<seq<Resource>>, err: Option<Error>)
    requires Valid(hctx, universe) && pn.path in hctx.pkgs
    ensures match Reference(hctx.w, hctx.save, universe, pn.path, InProgress(hctx))
            case Done(resources) => err == None && output == Some(resources) && IsWet(hctx, pn.path)
            case Failed(e, returned, kept) => err == Some(e) && output == returned && kept == None
  {
    var curr := hctx.pkgs[pn.path];
    output, err := None, Some(InvalidState);
    if curr.state == Hydrating {
      err := Some(CycleDetected);
    } else if curr.state == Wet {
      WetIsReference(hctx, universe, pn.path);
      output, err := Some(curr.resources), None;
    } else {
      assert false;
    }
  }

  /** The subpackages of `pn`, left to right, appended to its own resources. */
  method HydrateSubpackages(hctx: HydrationContext, pn: PkgNode, own: seq<Resource>, subs: seq<Path>, ghost universe: set<Path>)
    returns (input: seq<Resource>, err: Option<Error>)
    requires Valid(hctx, universe) && pn.path in hctx.pkgs && hctx.pkgs[pn.path] == pn
    requires pn.state == Hydrating && pn.resources == []
    requires subs == Children(hctx.w, pn.path)
    modifies hctx, pn`resources
    decreases universe - hctx.pkgs.Keys, 3
    ensures Extends(hctx)
    ensures match ReferenceAll(hctx.w, hctx.save, universe, subs, old(InProgress(hctx)), own)
            case Gathered(resources) => err == None && input == resources && pn.resources == []
            case Stopped(e, kept) =>
              err == Some(e) && pn.resources == (if kept.Some? then kept.value else [])
    ensures err.None? ==> Valid(hctx, universe) && InProgress(hctx) == old(InProgress(hctx))
    ensures err.None? ==> forall c :: c in subs ==> IsWet(hctx, c)
    ensures err.None? ==> AddsOnlyBelow(hctx, pn.path)
  {
    input, err := own, None;
    ghost var above := InProgress(hctx);
    for i := 0 to |subs|
      invariant GatheredUpTo(hctx, universe, subs, i, above, own, input) && err == None && pn.resources == []
      invariant Extends(hctx) && AddsOnlyBelow(hctx, pn.path)
    {
      input, err := HydrateNext(hctx, pn, own, subs, i, input, universe);
      if err.Some? {
        return;
      }
    }
    assert subs[..|subs|] == subs;
  }

  /** The first `i` subpackages are Wet, and `input` has been gathered from them. */
  ghost predicate GatheredUpTo(hctx: HydrationContext, universe: set<Path>, subs: seq<Path>, i: nat, above: set<Path>,
                               own: seq<Resource>, input: seq<Resource>)
    reads hctx, hctx.pkgs.Values
  {
    && i <= |subs| && Valid(hctx, universe) && InProgress(hctx) == above
    && (forall c :: c in subs[..i] ==> IsWet(hctx, c)) && (forall c :: c in subs ==> c in universe)
    && ReferenceAll(hctx.w, hctx.save, universe, subs[..i], above, own) == Gathered(input)
  }

  /** The `i`-th subpackage.  If it fails, what was gathered is kept only when saving, and
      only if the subpackage itself handed resources back. */
  method HydrateNext(hctx: HydrationContext, pn: PkgNode, own: seq<Resource>, subs: seq<Path>, i: nat,
                     soFar: seq<Resource>, ghost universe: set<Path>)
    returns (input: seq<Resource>, err: Option<Error>)
    requires GatheredUpTo(hctx, universe, subs, i, InProgress(hctx), own, soFar) && i < |subs|
    requires subs == Children(hctx.w, pn.path) && pn.path in hctx.pkgs && hctx.pkgs[pn.path] == pn
    requires pn.state == Hydrating && pn.resources == []
    modifies hctx, pn`resources
    decreases universe - hctx.pkgs.Keys, 2
    ensures Extends(hctx)
    ensures err.None? ==>
              && GatheredUpTo(hctx, universe, subs, i + 1, old(InProgress(hctx)), own, input)
              && AddsOnlyBelow(hctx, pn.path) && pn.resources == []
    ensures err.Some? ==>
              match ReferenceAll(hctx.w, hctx.save, universe, subs, old(InProgress(hctx)), own)
              case Gathered(_) => false
              case Stopped(e, kept) => err == Some(e) && pn.resources == if kept.Some? then kept.value else []
  {
    ghost var above := InProgress(hctx);
    Snoc(subs, i);
    var transitive;
    transitive, err := HydrateSubpackage(hctx, pn.path, subs[i], universe);
    input := soFar;
    if err.Some? {
      StoppedEarly(hctx.w, hctx.save, universe, subs, i + 1, above, own);
      if transitive.Some? && hctx.save {
        input := input + transitive.value;
        pn.resources := input;
      }
      return;
    }
    input := input + transitive.value;
  }

  /** Open and hydrate the subpackage at `c`. */
  method HydrateSubpackage(hctx: HydrationContext, parent: Path, c: Path, ghost universe: set<Path>)
    returns (transitive: Option<seq<Resource>>, err: Option<Error>)
    requires Valid(hctx, universe) && parent in universe && c in Children(hctx.w, parent)
    modifies hctx
    decreases universe - hctx.pkgs.Keys, 1
    ensures Extends(hctx)
    ensures hctx.w.openable(c).Err? ==> err == Some(ReadFailed(hctx.w.openable(c).error)) && transitive == None
    ensures hctx.w.openable(c).Ok? ==>
              match Reference(hctx.w, hctx.save, universe, c, old(InProgress(hctx)))
              case Done(resources) => err == None && transitive == Some(resources)
              case Failed(e, returned, _) => err == Some(e) && transitive == returned
    ensures err.None? ==> Valid(hctx, universe) && IsWet(hctx, c) && InProgress(hctx) == old(InProgress(hctx))
    ensures err.None? ==> forall q :: old(IsWet(hctx, q)) ==> IsWet(hctx, q)
    ensures err.None? ==> AddsOnlyBelow(hctx, parent)
  {
    transitive, err := None, None;
    var kptfile := hctx.w.openable(c);
    if kptfile.Err? {
      err := Some(ReadFailed(kptfile.error));
      return;
    }
    var sub := new PkgNode(c);
    transitive, err := Hydrate(hctx, sub, universe);
    if err.None? {
      forall q | q in hctx.pkgs && q !in old(hctx.pkgs) ensures Reaches(hctx.w, parent, q) {
        ReachesVia(hctx.w, parent, c, q);
      }
    }
  }

  /** One whole depth-first hydration.  It answers as the reference does, never with the
      "invalid state" error; when it succeeds, the pipelines that ran are those of the
      packages reachable from the root, each once and each after its descendants'. */
  method HydrateRoot(w: World, save: bool, root: Path, ghost universe: set<Path>)
    returns (hctx: HydrationContext, node: PkgNode, output: Option<seq<Resource>>, err: Option<Error>)
    requires Closed(w, universe) && root in universe
    ensures match Reference(w, save, universe, root, {})
            case Done(resources) => err == None && output == Some(resources) && node.resources == resources
            case Failed(e, returned, kept) =>
              && err == Some(e) && output == returned
              && node.resources == (if kept.Some? then kept.value else [])
    ensures err != Some(InvalidState)
    ensures err.None? ==> PostOrder(w, hctx.ran) && forall q :: q in hctx.ran <==> Reaches(w, root, q)
    ensures err.None? ==> forall q :: Reaches(w, root, q) ==> IsWet(hctx, q)
  {
    hctx := new HydrationContext(w, save);
    node := new PkgNode(root);
    assert InProgress(hctx) == {};
    output, err := Hydrate(hctx, node, universe);
    NeverInvalidState(w, save, universe, root, {});
    if err.None? {
      WetClosed(hctx, universe, root);
    }
  }
}
