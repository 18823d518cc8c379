/** Packages, their resources, and everything a hydration asks of the outside world. */
module PackageGraph {
  import opened Resources
  import opened Sequences
  import opened Wrappers

  /** A package is known by its unique (absolute) path. */
  type Path = string

  datatype Error =
    | CycleDetected
    | InvalidState
    | ReadFailed(what: string)
    | PipelineFailed(why: string)

  /** What one package pipeline did to its input.  A failing pipeline may hand back the
      resources it had reached (`None` stands for Go's nil slice). */
  datatype PipelineOutcome =
    | Ran(output: seq<Resource>)
    | Broke(why: string, reached: Option<seq<Resource>>)

  /** The file system and the function runtimes, as arbitrary total functions. */
  datatype World = World(
    local: Path -> Result<seq<Resource>, string>,
    subpackages: Path -> Result<seq<Path>, string>,
    openable: Path -> Result<(), string>,
    run: (Path, seq<Resource>) -> PipelineOutcome)

  /** The direct subpackages of `p`; none when the listing cannot be read. */
  function Children(w: World, p: Path): seq<Path> {
    match w.subpackages(p)
    case Ok(subs) => subs
    case Err(_) => []
  }

  /** `universe` is a finite set of packages that no subpackage listing leaves. */
  ghost predicate Closed(w: World, universe: set<Path>) {
    forall p, c :: p in universe && c in Children(w, p) ==> c in universe
  }

  /** A walk along subpackage listings. */
  ghost predicate IsWalk(w: World, walk: seq<Path>) {
    && walk != []
    && forall i :: 0 < i < |walk| ==> walk[i] in Children(w, walk[i - 1])
  }

  ghost predicate WalkFromTo(w: World, walk: seq<Path>, p: Path, q: Path) {
    IsWalk(w, walk) && walk[0] == p && walk[|walk| - 1] == q
  }

  ghost predicate Reaches(w: World, p: Path, q: Path) {
    exists walk :: WalkFromTo(w, walk, p, q)
  }

  /** Some package reachable from `p` is its own proper descendant. */
  ghost predicate CycleBelow(w: World, p: Path) {
    exists q, c :: Reaches(w, p, q) && c in Children(w, q) && Reaches(w, c, q)
  }

  lemma ReachesSelf(w: World, p: Path)
    ensures Reaches(w, p, p)
  {
    assert WalkFromTo(w, [p], p, p);
  }

  lemma ReachesChild(w: World, p: Path, q: Path, c: Path)
    requires Reaches(w, p, q) && c in Children(w, q)
    ensures Reaches(w, p, c)
  {
    var walk :| WalkFromTo(w, walk, p, q);
    assert WalkFromTo(w, walk + [c], p, c);
  }

  lemma ReachesVia(w: World, p: Path, c: Path, q: Path)
    requires c in Children(w, p) && Reaches(w, c, q)
    ensures Reaches(w, p, q)
  {
    var walk :| WalkFromTo(w, walk, c, q);
    assert WalkFromTo(w, [p] + walk, p, q);
  }

  /** A set closed under subpackage listings contains everything its members reach. */
  lemma {:induction false} WalkStaysInside(w: World, inside: set<Path>, walk: seq<Path>)
    requires Closed(w, inside) && IsWalk(w, walk) && walk[0] in inside
    ensures walk[|walk| - 1] in inside
  {
    if |walk| > 1 {
      assert walk[1..][0] in Children(w, walk[0]);
      WalkStaysInside(w, inside, walk[1..]);
    }
  }

  lemma ReachStaysInside(w: World, inside: set<Path>, p: Path, q: Path)
    requires Closed(w, inside) && p in inside && Reaches(w, p, q)
    ensures q in inside
  {
    var walk :| WalkFromTo(w, walk, p, q);
    WalkStaysInside(w, inside, walk);
  }

  // ---------------------------------------------------------------- properties of single resources

  /** Every resource read in a package reachable from `root` has the property. */
  ghost predicate ReadsHave(w: World, root: Path, has: Resource -> bool) {
    forall p :: Reaches(w, root, p) && w.local(p).Ok? ==> AllHave(has, w.local(p).value)
  }

  ghost predicate OutcomeHas(has: Resource -> bool, outcome: PipelineOutcome) {
    match outcome
    case Ran(output) => AllHave(has, output)
    case Broke(_, reached) => reached.Some? ==> AllHave(has, reached.value)
  }

  /** Pipelines put out only resources with the property, if all they get have it. */
  ghost predicate PipelinesKeep(w: World, has: Resource -> bool) {
    forall p, input :: AllHave(has, input) ==> OutcomeHas(has, w.run(p, input))
  }

  lemma BothHave(has: Resource -> bool, a: seq<Resource>, b: seq<Resource>)
    requires AllHave(has, a) && AllHave(has, b)
    ensures AllHave(has, a + b)
  {
  }

  // ---------------------------------------------------------------- nodes

  datatype HydrationState = Dry | Hydrating | Wet

  /** A package being hydrated. */
  class PkgNode {
    const path: Path
    var state: HydrationState
    var resources: seq<Resource>

    constructor (path: Path)
      ensures this.path == path && state == Dry && resources == []
    {
      this.path := path;
      state, resources := Dry, [];
    }
  }

  /** The state shared by one hydration. */
  class HydrationContext {
    const w: World
    const save: bool
    var pkgs: map<Path, PkgNode>
    ghost var ran: seq<Path>  // the packages whose pipelines ran, in order

    constructor (w: World, save: bool)
      ensures this.w == w && this.save == save && pkgs == map[] && ran == []
    {
      this.w, this.save := w, save;
      pkgs, ran := map[], [];
    }
  }
}
