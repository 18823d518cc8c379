/** One execution of a function: the condition, the run, the checks on what comes out, and
    the entry in the result list. */
module FunctionExecution {
  import opened FilePaths
  import opened Resources
  import opened SelectiveMutation
  import opened Wrappers

  /** A function declared in a pipeline. */
  datatype Function = Function(
    name: string, image: string, exec: string, configPath: string, configRef: Option<string>,
    selectors: seq<Selector>, exclusions: seq<Selector>)
  {
    predicate IsSelective() {
      selectors != [] || exclusions != []
    }
  }

  /** What a function runtime hands back: resources, whether the structured results it left
      can be read, and its failure if it failed. */
  datatype Run = Run(output: seq<Resource>, results: Result<(), string>, failure: Option<Failure>)

  datatype Failure = Failure(execExitCode: Option<int>, why: string)

  /** Everything outside: conditions, the function runtimes, and what counts as KRM. */
  datatype Runtime = Runtime(
    instantiate: Function -> Result<(), string>,
    allowExec: bool,
    condition: (Function, seq<Resource>) -> Result<bool, string>,
    invoke: (Function, Option<Resource>, seq<Resource>) -> Run,
    resolveRef: (string, seq<Resource>) -> Result<Resource, string>,
    areKrm: seq<Resource> -> bool)

  /** How one execution can go.  Only the last three leave an entry in the result list. */
  datatype Execution =
    | Refused(why: string)
    | ConditionNotMet
    | Broke(execExitCode: Option<int>, why: string)
    | Returned(output: seq<Resource>)

  datatype RunError = AlreadyHandled | ExecError(exitCode: int) | OtherError(why: string)

  datatype ResultItem = ResultItem(exitCode: int, skipped: bool)

  datatype Step = Step(name: string, image: string, execPath: string, skipped: bool, exitCode: int, executionError: string)

  const NOT_ALLOWED := "must run with `--allow-exec` option to allow running function binaries"

  const NOT_KRM := "resource list must contain only KRM resources"

  const BAD_PATHS := "function must not modify resources outside of package, nor put two in one place"

  /** Where a resource is kept: package, cleaned path, index. */
  function LocationOf(r: Resource): Location {
    Location(PackageOf(r), CleanString(PathOf(r)), IndexOf(r))
  }

  /** Two resources are in one place exactly if package, path up to cleaning, and index agree. */
  lemma SamePlaceExactly(a: Resource, b: Resource)
    ensures LocationOf(a) == LocationOf(b) <==>
            && PackageOf(a) == PackageOf(b) && IndexOf(a) == IndexOf(b)
            && Parse(PathOf(a)).absolute == Parse(PathOf(b)).absolute
            && CleanRaw(Parse(PathOf(a))) == CleanRaw(Parse(PathOf(b)))
  {
    SameStringExactlyWhenSamePath(PathOf(a), PathOf(b));
  }

  // ---------------------------------------------------------------- the outcome of an execution

  /** A resource without a package path belongs to the package whose pipeline it is. */
  function Tag(r: Resource, pkg: string): Resource {
    if PackageOf(r) == "" then r.(annotations := r.annotations[PKG_PATH_ANNOTATION := pkg]) else r
  }

  /** A package that a resource names is left alone; otherwise it gets `pkg`, and nothing
      else about it changes. */
  lemma TagExactly(r: Resource, pkg: string)
    ensures PackageOf(r) != "" ==> Tag(r, pkg) == r
    ensures PackageOf(r) == "" ==> PackageOf(Tag(r, pkg)) == pkg
    ensures Tag(r, pkg).(annotations := r.annotations) == r
    ensures forall k :: k != PKG_PATH_ANNOTATION ==> Annotation(Tag(r, pkg), k) == Annotation(r, k)
    ensures PathOf(Tag(r, pkg)) == PathOf(r) && IndexOf(Tag(r, pkg)) == IndexOf(r)
  {
  }

  function TagAll(output: seq<Resource>, pkg: string): (tagged: seq<Resource>)
    ensures |tagged| == |output| && forall i :: 0 <= i < |output| ==> tagged[i] == Tag(output[i], pkg)
  {
    seq(|output|, i requires 0 <= i < |output| => Tag(output[i], pkg))
  }

  /** The complaint about an output, made before anyone looks at whether the function
      failed. */
  function Complaint(rt: Runtime, run: Run, tagged: seq<Resource>): Option<string> {
    if !PathsAllowed(LocationOf, tagged) then Some(BAD_PATHS)
    else if !rt.areKrm(tagged) then Some(NOT_KRM)
    else if run.results.Err? then Some(run.results.error)
    else None
  }

  function Outcome(rt: Runtime, pkg: string, run: Run): Execution {
    var tagged := TagAll(run.output, pkg);
    var complaint := Complaint(rt, run, tagged);
    if complaint.Some? then Refused(complaint.value)
    else if run.failure.Some? then Broke(run.failure.value.execExitCode, run.failure.value.why)
    else Returned(tagged)
  }

  function Execute(rt: Runtime, pkg: string, fn: Function, config: Option<Resource>, input: seq<Resource>): Execution {
    match rt.condition(fn, input)
    case Err(why) => Refused(why)
    case Ok(false) => ConditionNotMet
    case Ok(true) => if !rt.areKrm(input) then Refused(NOT_KRM) else Outcome(rt, pkg, rt.invoke(fn, config, input))
  }

  /** What a function left behind, failed or not, passes all checks. */
  predicate Passable(rt: Runtime, pkg: string, run: Run) {
    PathsAllowed(LocationOf, TagAll(run.output, pkg)) && rt.areKrm(TagAll(run.output, pkg)) && run.results.Ok?
  }

  /** How an execution goes, told by the runtime: it returns the function's output with
      packages filled in exactly if the condition holds, the input is KRM, what the function
      left passes all checks, and it did not fail; it breaks exactly if all that holds but
      for the last; it is skipped exactly if the condition does not hold. */
  lemma ExecutesExactly(rt: Runtime, pkg: string, fn: Function, config: Option<Resource>, input: seq<Resource>)
    ensures var e, run := Execute(rt, pkg, fn, config, input), rt.invoke(fn, config, input);
            var ran := rt.condition(fn, input) == Ok(true) && rt.areKrm(input) && Passable(rt, pkg, run);
            && (e.ConditionNotMet? <==> rt.condition(fn, input) == Ok(false))
            && (e.Returned? <==> ran && run.failure.None?)
            && (e.Returned? ==> e.output == TagAll(run.output, pkg))
            && (e.Broke? <==> ran && run.failure.Some?)
            && (e.Broke? ==> Failure(e.execExitCode, e.why) == run.failure.value)
  {
  }

  /** Why an execution is refused: the first complaint, in this order. */
  lemma RefusedExactly(rt: Runtime, pkg: string, fn: Function, config: Option<Resource>, input: seq<Resource>)
    requires Execute(rt, pkg, fn, config, input).Refused?
    ensures var why, run := Execute(rt, pkg, fn, config, input).why, rt.invoke(fn, config, input);
            if rt.condition(fn, input).Err? then why == rt.condition(fn, input).error
            else if !rt.areKrm(input) then why == "resource list must contain only KRM resources"
            else if !PathsAllowed(LocationOf, TagAll(run.output, pkg)) then
              why == "function must not modify resources outside of package, nor put two in one place"
            else if !rt.areKrm(TagAll(run.output, pkg)) then why == "resource list must contain only KRM resources"
            else run.results == Err(why)
  {
  }

  /** What a function gets to return: resources that all have a package, inside it and each
      in a place of its own. */
  lemma ReturnedIsChecked(rt: Runtime, pkg: string, fn: Function, config: Option<Resource>, input: seq<Resource>)
    requires Execute(rt, pkg, fn, config, input).Returned? && pkg != ""
    ensures var output := Execute(rt, pkg, fn, config, input).output;
            && PathsAllowed(LocationOf, output) && rt.areKrm(output)
            && (forall r :: r in output ==> PackageOf(r) != "")
            && (forall r :: r in output ==> r in rt.invoke(fn, config, input).output || PackageOf(r) == pkg)
  {
    hide PathsAllowed;
    var raw, output := rt.invoke(fn, config, input).output, Execute(rt, pkg, fn, config, input).output;
    forall r | r in output ensures PackageOf(r) != "" && (r in raw || PackageOf(r) == pkg) {
      var i :| 0 <= i < |output| && output[i] == r;
      assert r == Tag(raw[i], pkg);
    }
  }

  /** A function that failed leaves an entry exactly when what it left behind passes all
      checks; otherwise the complaint about that hides the failure. */
  lemma FailureRecordedExactly(rt: Runtime, pkg: string, fn: Function, config: Option<Resource>, input: seq<Resource>)
    requires rt.condition(fn, input) == Ok(true) && rt.areKrm(input) && rt.invoke(fn, config, input).failure.Some?
    ensures var run := rt.invoke(fn, config, input);
            Recorded(Execute(rt, pkg, fn, config, input)) != [] <==>
            Complaint(rt, run, TagAll(run.output, pkg)) == None
    ensures var run := rt.invoke(fn, config, input);
            Complaint(rt, run, TagAll(run.output, pkg)) == None ==>
              ErrorOf(Execute(rt, pkg, fn, config, input)) ==
              Some(if run.failure.value.execExitCode.Some? then AlreadyHandled else OtherError(run.failure.value.why))
  {
  }

  // ---------------------------------------------------------------- one execution

  class FunctionRunner {
    const fn: Function
    const pkg: string
    var config: Option<Resource>  // `None`: the one it was created with
    var skipped: bool

    constructor (fn: Function, pkg: string)
      ensures this.fn == fn && this.pkg == pkg && config == None && !skipped
    {
      this.fn, this.pkg := fn, pkg;
      config, skipped := None, false;
    }

    method SetFnConfig(r: Resource)
      modifies this`config
      ensures config == Some(r)
    {
      config := Some(r);
    }
  }

  /** The counters and records of one hydration. */
  class Ledger {
    var items: seq<ResultItem>
    var mutationSteps: seq<Step>
    var validationSteps: seq<Step>
    var executed: nat

    constructor ()
      ensures items == [] && mutationSteps == [] && validationSteps == [] && executed == 0
    {
      items, mutationSteps, validationSteps, executed := [], [], [], 0;
    }
  }

  /** What an execution adds to the result list. */
  function Recorded(e: Execution): seq<ResultItem> {
    match e
    case Refused(_) => []
    case ConditionNotMet => [ResultItem(0, true)]
    case Broke(code, _) => [ResultItem(if code.Some? then code.value else 1, false)]
    case Returned(_) => [ResultItem(0, false)]
  }

  predicate Passes(e: Execution) {
    e.ConditionNotMet? || e.Returned?
  }

  function Output(e: Execution, input: seq<Resource>): seq<Resource> {
    if e.Returned? then e.output else input
  }

  /** The error of an execution; exit codes do not survive in it. */
  function ErrorOf(e: Execution): (err: Option<RunError>)
    ensures err.None? <==> Passes(e)
  {
    match e
    case Refused(why) => Some(OtherError(why))
    case Broke(code, why) => Some(if code.Some? then AlreadyHandled else OtherError(why))
    case _ => None
  }

  /** What every way of going leaves: no entry, a skip, or an entry with the exit code of the
      executable, one for any other failure, zero for success; and the error passed on. */
  lemma RecordsExactly(e: Execution)
    ensures e.Refused? ==> Recorded(e) == [] && ErrorOf(e) == Some(OtherError(e.why))
    ensures e.ConditionNotMet? ==> Recorded(e) == [ResultItem(0, true)] && ErrorOf(e) == None
    ensures e.Returned? ==> Recorded(e) == [ResultItem(0, false)] && ErrorOf(e) == None
    ensures e.Broke? && e.execExitCode.Some? ==>
              Recorded(e) == [ResultItem(e.execExitCode.value, false)] && ErrorOf(e) == Some(AlreadyHandled)
    ensures e.Broke? && e.execExitCode.None? ==>
              Recorded(e) == [ResultItem(1, false)] && ErrorOf(e) == Some(OtherError(e.why))
  {
  }

  method SetPkgPathIfNotExist(resources: seq<Resource>, pkg: string) returns (tagged: seq<Resource>)
    ensures tagged == TagAll(resources, pkg)
  {
    tagged := resources;
    for i := 0 to |resources|
      invariant |tagged| == |resources|
      invariant forall j :: 0 <= j < |resources| ==> tagged[j] == if j < i then Tag(resources[j], pkg) else resources[j]
    {
      if PackageOf(tagged[i]) == "" {
        tagged := tagged[i := tagged[i].(annotations := tagged[i].annotations[PKG_PATH_ANNOTATION := pkg])];
      }
    }
  }

  /** Run the function: check what goes in, run, fill in packages, check what comes out,
      read the structured results, and only then look at whether it failed. */
  method Do(runner: FunctionRunner, rt: Runtime, ledger: Ledger, input: seq<Resource>)
    returns (output: seq<Resource>, err: Option<RunError>)
    modifies ledger`items
    ensures var e := if !rt.areKrm(input) then Refused(NOT_KRM)
                     else Outcome(rt, runner.pkg, rt.invoke(runner.fn, runner.config, input));
            && ledger.items == old(ledger.items) + Recorded(e)
            && err == ErrorOf(e)
            && (err.None? ==> output == Output(e, input))
  {
    output := [];
    if !rt.areKrm(input) {
      return [], Some(OtherError(NOT_KRM));
    }
    var run := rt.invoke(runner.fn, runner.config, input);
    output := SetPkgPathIfNotExist(run.output, runner.pkg);
    var allowed := EnforcePathInvariants(LocationOf, output);
    if !allowed {
      return output, Some(OtherError(BAD_PATHS));
    }
    if !rt.areKrm(output) {
      return output, Some(OtherError(NOT_KRM));
    }
    if run.results.Err? {
      return output, Some(OtherError(run.results.error));
    }
    if run.failure.Some? {
      var exitCode := 1;
      if run.failure.value.execExitCode.Some? {
        exitCode := run.failure.value.execExitCode.value;
      }
      ledger.items := ledger.items + [ResultItem(exitCode, false)];
      err := Some(if run.failure.value.execExitCode.Some? then AlreadyHandled else OtherError(run.failure.value.why));
      return;
    }
    ledger.items := ledger.items + [ResultItem(0, false)];
    err := None;
  }

  /** Check the condition; if it is met, run the function. */
  method Filter(runner: FunctionRunner, rt: Runtime, ledger: Ledger, input: seq<Resource>)
    returns (output: seq<Resource>, err: Option<RunError>)
    modifies runner`skipped, ledger`items
    ensures var e := Execute(rt, runner.pkg, runner.fn, runner.config, input);
            && ledger.items == old(ledger.items) + Recorded(e)
            && runner.skipped == e.ConditionNotMet?
            && err == ErrorOf(e)
            && (err.None? ==> output == Output(e, input))
  {
    runner.skipped := false;
    match rt.condition(runner.fn, input) {
      case Err(why) =>
        output, err := [], Some(OtherError(why));
      case Ok(met) =>
        if met {
          output, err := Do(runner, rt, ledger, input);
        } else {
          ledger.items := ledger.items + [ResultItem(0, true)];
          runner.skipped := true;
          output, err := input, None;
        }
    }
  }
}
