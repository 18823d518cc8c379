/** A package's pipeline: the mutators, then the validators on what they leave. */
module PackagePipeline {
  import opened FunctionExecution
  import opened MutatorChain
  import opened Resources
  import opened SelectiveMutation
  import opened Sequences
  import opened Wrappers

  // ---------------------------------------------------------------- validators

  /** How a validator goes: an execution, or why there is none. */
  function Validation(rt: Runtime, pkg: string, fn: Function, input: seq<Resource>): Result<Execution, string> {
    if CreationError(rt, fn).Some? then Err(CreationError(rt, fn).value)
    else
      var (filtered, config) := Exclude(pkg, fn.configPath, input);
      match ConfigFor(rt, fn, input, config)
      case Err(why) => Err(why)
      case Ok(fnConfig) => Ok(Execute(rt, pkg, fn, fnConfig, Select(filtered, fn.selectors, fn.exclusions)))
  }

  /** A validator is refused exactly if no runner can be made for it, or its reference cannot
      be resolved, which is looked for in the whole list; otherwise it is run on what its
      selectors pick from the list without its config. */
  lemma ValidatesExactly(rt: Runtime, pkg: string, fn: Function, input: seq<Resource>)
    ensures var v := Validation(rt, pkg, fn, input);
            var (filtered, config) := Exclude(pkg, fn.configPath, input);
            var selected := Select(filtered, fn.selectors, fn.exclusions);
            if CreationError(rt, fn).Some? then v == Err(CreationError(rt, fn).value)
            else match fn.configRef
              case None => v == Ok(Execute(rt, pkg, fn, config, selected))
              case Some(ref) => match rt.resolveRef(ref, input)
                case Err(why) => v == Err(why)
                case Ok(r) => v == Ok(Execute(rt, pkg, fn, Some(r), selected))
  {
  }

  function ValidationStep(fn: Function, v: Result<Execution, string>): Step {
    match v
    case Err(why) => PreExecFailureStep(fn, why)
    case Ok(e) => StepRecord(fn, e)
  }

  method RecordRefusal(fn: Function, why: string, ledger: Ledger) returns (err: Option<RunError>)
    modifies ledger`validationSteps
    ensures err == Some(OtherError(why))
    ensures ledger.validationSteps == old(ledger.validationSteps) + [PreExecFailureStep(fn, why)]
  {
    ledger.validationSteps := ledger.validationSteps + [PreExecFailureStep(fn, why)];
    err := Some(OtherError(why));
  }

  method RunSingleValidator(rt: Runtime, pkg: string, fn: Function, ledger: Ledger, input: seq<Resource>)
    returns (err: Option<RunError>)
    modifies ledger`items, ledger`validationSteps, ledger`executed
    ensures var v := Validation(rt, pkg, fn, input);
            && ledger.validationSteps == old(ledger.validationSteps) + [ValidationStep(fn, v)]
            && match v
               case Err(why) =>
                 err == Some(OtherError(why)) && ledger.items == old(ledger.items) && ledger.executed == old(ledger.executed)
               case Ok(e) =>
                 && err == ErrorOf(e) && ledger.items == old(ledger.items) + Recorded(e)
                 && ledger.executed == old(ledger.executed) + if e.Returned? then 1 else 0
  {
    if fn.exec != "" && !rt.allowExec {
      err := RecordRefusal(fn, NOT_ALLOWED, ledger);
      return;
    }
    var created := rt.instantiate(fn);
    if created.Err? {
      err := RecordRefusal(fn, created.error, ledger);
      return;
    }
    var runner := new FunctionRunner(fn, pkg);
    var filtered, config := ExcludeAndRefreshFnConfig(pkg, runner, input, fn.configPath);
    var selected := SelectInput(filtered, fn.selectors, fn.exclusions);
    if fn.configRef.Some? {
      var resolved := rt.resolveRef(fn.configRef.value, input);
      if resolved.Err? {
        err := RecordRefusal(fn, resolved.error, ledger);
        return;
      }
      runner.SetFnConfig(resolved.value);
    }
    err := ExecuteValidator(rt, runner, ledger, selected);
  }

  method ExecuteValidator(rt: Runtime, validator: FunctionRunner, ledger: Ledger, selected: seq<Resource>)
    returns (err: Option<RunError>)
    modifies validator`skipped, ledger`items, ledger`validationSteps, ledger`executed
    ensures var e := Execute(rt, validator.pkg, validator.fn, validator.config, selected);
            && err == ErrorOf(e)
            && ledger.items == old(ledger.items) + Recorded(e)
            && ledger.validationSteps == old(ledger.validationSteps) + [StepRecord(validator.fn, e)]
            && ledger.executed == old(ledger.executed) + if e.Returned? then 1 else 0
  {
    var countBefore := |ledger.items|;
    CaptureIsRecord(validator.fn, ledger.items, Execute(rt, validator.pkg, validator.fn, validator.config, selected));
    var _, failure := Filter(validator, rt, ledger, selected);
    var step := CaptureStepResult(validator.fn, ledger.items, countBefore, failure, validator.skipped);
    ledger.validationSteps := ledger.validationSteps + [step];
    if failure.None? && !validator.skipped {
      ledger.executed := ledger.executed + 1;
    }
    err := failure;
  }

  /** The validators of one package as a function, all on the same resources. */
  function Validations(rt: Runtime, pkg: string, input: seq<Resource>): Function -> Result<Execution, string> {
    (fn: Function) => Validation(rt, pkg, fn, input)
  }

  ghost predicate AllPassed(validate: Function -> Result<Execution, string>, fns: seq<Function>, es: seq<Execution>) {
    |es| <= |fns| && forall i :: 0 <= i < |es| ==> validate(fns[i]) == Ok(es[i]) && Passes(es[i])
  }

  /** How the validators went: all passed; or one could not be executed, `refused` saying
      why; or one failed.  Those before it passed and those after it did not run. */
  ghost predicate Validated(validate: Function -> Result<Execution, string>, fns: seq<Function>,
                            es: seq<Execution>, refused: Option<string>, failed: bool) {
    if !failed then
      AllPassed(validate, fns, es) && |es| == |fns| && refused == None
    else if refused.Some? then
      AllPassed(validate, fns, es) && |es| < |fns| && validate(fns[|es|]) == Err(refused.value)
    else
      && 0 < |es| <= |fns| && AllPassed(validate, fns, es[..|es| - 1])
      && validate(fns[|es| - 1]) == Ok(es[|es| - 1]) && !Passes(es[|es| - 1])
  }

  lemma OneMorePassed(validate: Function -> Result<Execution, string>, fns: seq<Function>, es: seq<Execution>, e: Execution)
    requires AllPassed(validate, fns, es) && |es| < |fns| && validate(fns[|es|]) == Ok(e)
    ensures Passes(e) ==> AllPassed(validate, fns, es + [e])
    ensures !Passes(e) ==> Validated(validate, fns, es + [e], None, true)
  {
    assert (es + [e])[..|es|] == es;
  }

  function RefusalStep(fns: seq<Function>, n: nat, refused: Option<string>): seq<Step> {
    if refused.Some? && n < |fns| then [PreExecFailureStep(fns[n], refused.value)] else []
  }

  /** The records of the validators, whether they passed or not. */
  ghost predicate ValidatorsAccounted(ledger: Ledger, items: seq<ResultItem>, steps: seq<Step>, executed: nat,
                                      fns: seq<Function>, es: seq<Execution>, refused: Option<string>)
    requires |es| <= |fns|
    reads ledger
  {
    && ledger.items == items + RecordedAll(es)
    && ledger.validationSteps == (steps + StepRecords(fns, es)) + RefusalStep(fns, |es|, refused)
    && ledger.executed == executed + ExecutedCount(es)
  }

  /** One validator more, after those that executed as `es`. */
  method RunNextValidator(rt: Runtime, pkg: string, fns: seq<Function>, k: nat, ledger: Ledger, input: seq<Resource>,
                          ghost validate: Function -> Result<Execution, string>, ghost v: Result<Execution, string>, ghost es: seq<Execution>,
                          ghost items: seq<ResultItem>, ghost steps: seq<Step>, ghost executed: nat)
    returns (err: Option<RunError>, ghost more: seq<Execution>, ghost refused: Option<string>)
    requires AllPassed(validate, fns, es) && k < |fns| && v == Validation(rt, pkg, fns[k], input) == validate(fns[k])
    requires |es| == k < |fns| && ValidatorsAccounted(ledger, items, steps, executed, fns, es, None)
    modifies ledger`items, ledger`validationSteps, ledger`executed
    ensures err.Some? ==> Validated(validate, fns, more, refused, true)
    ensures err.None? ==> AllPassed(validate, fns, more) && |more| == k + 1 && refused == None
    ensures |more| <= |fns| && ValidatorsAccounted(ledger, items, steps, executed, fns, more, refused)
    ensures err == match v case Err(why) => Some(OtherError(why)) case Ok(e) => ErrorOf(e)
  {
    hide Validation, ValidationError, Validations, Execute, StepRecord, StepRecords, Recorded, RecordedAll, ExecutedCount;
    more, refused := es, None;
    err := RunSingleValidator(rt, pkg, fns[k], ledger, input);
    if v.Err? {
      refused := Some(v.error);
    } else {
      StillAccounted(items, steps, fns, es, v.value);
      OneMorePassed(validate, fns, es, v.value);
      more := es + [v.value];
    }
  }

  /** The error of the first validator that fails. */
  function ValidationError(rt: Runtime, pkg: string, fns: seq<Function>, input: seq<Resource>): Option<RunError> {
    if fns == [] then None
    else match Validation(rt, pkg, fns[0], input)
      case Err(why) => Some(OtherError(why))
      case Ok(e) => if Passes(e) then ValidationError(rt, pkg, fns[1..], input) else ErrorOf(e)
  }

  lemma ValidationNext(rt: Runtime, pkg: string, fns: seq<Function>, k: nat, input: seq<Resource>)
    requires k < |fns|
    ensures match Validation(rt, pkg, fns[k], input)
            case Err(why) => ValidationError(rt, pkg, fns[k..], input) == Some(OtherError(why))
            case Ok(e) =>
              ValidationError(rt, pkg, fns[k..], input) ==
              if Passes(e) then ValidationError(rt, pkg, fns[k + 1..], input) else ErrorOf(e)
  {
    assert fns[k..][1..] == fns[k + 1..];
  }

  lemma ValidationEnds(rt: Runtime, pkg: string, fns: seq<Function>, input: seq<Resource>)
    ensures ValidationError(rt, pkg, fns[|fns|..], input) == None && fns[0..] == fns
  {
  }

  /** All validators, up to the first that fails; they never change the resources. */
  method RunValidators(rt: Runtime, pkg: string, fns: seq<Function>, ledger: Ledger, input: seq<Resource>)
    returns (err: Option<RunError>, ghost es: seq<Execution>, ghost refused: Option<string>)
    modifies ledger`items, ledger`validationSteps, ledger`executed
    ensures Validated(Validations(rt, pkg, input), fns, es, refused, err.Some?)
    ensures |es| <= |fns|
    ensures ValidatorsAccounted(ledger, old(ledger.items), old(ledger.validationSteps), old(ledger.executed), fns, es, refused)
    ensures err == ValidationError(rt, pkg, fns, input)
  {
    hide ValidationError, Validation;
    ValidationEnds(rt, pkg, fns, input);
    ghost var validate := Validations(rt, pkg, input);
    es, refused, err := [], None, None;
    for k := 0 to |fns|
      invariant err == None && refused == None && |es| == k
      invariant ValidationError(rt, pkg, fns[k..], input) == ValidationError(rt, pkg, fns, input)
      invariant AllPassed(validate, fns, es)
      invariant ValidatorsAccounted(ledger, old(ledger.items), old(ledger.validationSteps), old(ledger.executed), fns, es, None)
    {
      ValidationNext(rt, pkg, fns, k, input);
      err, es, refused := RunNextValidator(rt, pkg, fns, k, ledger, input, validate, Validation(rt, pkg, fns[k], input), es,
                                           old(ledger.items), old(ledger.validationSteps), old(ledger.executed));
      if err.Some? {
        return;
      }
    }
  }

  // ---------------------------------------------------------------- the whole pipeline

  /** How many of the result entries are of functions that were not skipped. */
  function NotSkipped(items: seq<ResultItem>): nat {
    if items == [] then 0
    else NotSkipped(items[..|items| - 1]) + if items[|items| - 1].skipped then 0 else 1
  }

  lemma {:induction false} NotSkippedAppend(a: seq<ResultItem>, b: seq<ResultItem>)
    ensures NotSkipped(a + b) == NotSkipped(a) + NotSkipped(b)
  {
    if b == [] {
      assert a + b == a;
    } else {
      assert (a + b)[..|a| + |b| - 1] == a + b[..|b| - 1];
      NotSkippedAppend(a, b[..|b| - 1]);
    }
  }

  lemma {:induction false} ExecutedAreNotSkipped(es: seq<Execution>)
    requires forall i :: 0 <= i < |es| ==> Passes(es[i])
    ensures NotSkipped(RecordedAll(es)) == ExecutedCount(es)
  {
    if es != [] {
      var n := |es| - 1;
      ExecutedAreNotSkipped(es[..n]);
      NotSkippedAppend(RecordedAll(es[..n]), Recorded(es[n]));
      assert Recorded(es[n])[..0] == [];
    }
  }

  /** Which part of a pipeline failed, if any. */
  datatype Stage = Nothing | Input | Mutators | Validators

  /** What went on in a pipeline: the resource lists between mutators, the executions that
      advanced, all executions of mutators, those of validators, why the last validator was
      not executed, and on success the new result entries. */
  datatype Went = Went(states: seq<seq<Resource>>, es: seq<Execution>, all: seq<Execution>,
                       vs: seq<Execution>, refused: Option<string>, added: seq<ResultItem>)

  /** The records of a hydration at one moment. */
  datatype Books = Books(items: seq<ResultItem>, mutationSteps: seq<Step>, validationSteps: seq<Step>, executed: nat)

  function BooksOf(ledger: Ledger): Books
    reads ledger
  {
    Books(ledger.items, ledger.mutationSteps, ledger.validationSteps, ledger.executed)
  }

  /** One step and one result entry for every declared function, in order; the executed
      count has grown by the number of new entries that are not skips. */
  ghost predicate Passed(rt: Runtime, pkg: string, mutators: seq<Function>, validators: seq<Function>, input: seq<Resource>,
                         output: Option<seq<Resource>>, went: Went, before: Books, after: Books) {
    && Ends(Turns(rt, pkg), mutators, went.states, went.es, went.es, output, false) && went.states[0] == input
    && |after.mutationSteps| == |before.mutationSteps| + |mutators|
    && |after.validationSteps| == |before.validationSteps| + |validators|
    && after.items == before.items + went.added && |went.added| == |mutators| + |validators|
    && (forall i :: 0 <= i < |went.added| ==> went.added[i].exitCode == 0)
    && after.executed == before.executed + NotSkipped(went.added)
  }

  /** A validator failed: the mutated resources are there all the same, with the records of
      all mutators and of the validators up to it. */
  ghost predicate FailedValidation(rt: Runtime, pkg: string, mutators: seq<Function>, validators: seq<Function>, input: seq<Resource>,
                                   output: Option<seq<Resource>>, went: Went, before: Books, after: Books) {
    && Ends(Turns(rt, pkg), mutators, went.states, went.es, went.es, output, false) && went.states[0] == input
    && Validated(Validations(rt, pkg, output.value), validators, went.vs, went.refused, true)
    && after.items == (before.items + RecordedAll(went.es)) + RecordedAll(went.vs)
    && after.mutationSteps == before.mutationSteps + StepRecords(mutators, went.es)
    && after.validationSteps ==
         (before.validationSteps + StepRecords(validators, went.vs)) + RefusalStep(validators, |went.vs|, went.refused)
    && after.executed == (before.executed + ExecutedCount(went.es)) + ExecutedCount(went.vs)
  }

  /** What comes back from a package's pipeline, as a function of what goes in. */
  function Pipeline(rt: Runtime, pkg: string, mutators: seq<Function>, validators: seq<Function>, input: seq<Resource>): Yield {
    if mutators == [] && validators == [] then
      if rt.areKrm(input) then Yield(Some(input), None) else Yield(None, Some(OtherError("input " + NOT_KRM)))
    else
      var mutated := Mutated(rt, pkg, mutators, input);
      if mutated.err.Some? then mutated
      else Yield(mutated.output, ValidationError(rt, pkg, validators, mutated.output.value))
  }

  /** A pipeline with functions succeeds exactly if all mutators pass and then all validators
      on what those leave; that is what it puts out, and also what it hands back when a
      validator fails. */
  lemma PipelineSucceedsExactly(rt: Runtime, pkg: string, mutators: seq<Function>, validators: seq<Function>, input: seq<Resource>)
    requires mutators != [] || validators != []
    ensures var y, mutated := Pipeline(rt, pkg, mutators, validators, input), Mutated(rt, pkg, mutators, input);
            && y.output == mutated.output
            && (mutated.err.Some? ==> y.err == mutated.err)
            && (y.err.None? <==> mutated.err.None? && forall i :: 0 <= i < |validators| ==>
                  ValidatorPasses(rt, pkg, validators[i], mutated.output.value))
  {
    var mutated := Mutated(rt, pkg, mutators, input);
    if mutated.err.None? {
      NoValidationErrorExactly(rt, pkg, validators, mutated.output.value);
    }
  }

  ghost predicate ValidatorPasses(rt: Runtime, pkg: string, fn: Function, input: seq<Resource>) {
    Validation(rt, pkg, fn, input).Ok? && Passes(Validation(rt, pkg, fn, input).value)
  }

  lemma {:induction false} NoValidationErrorExactly(rt: Runtime, pkg: string, fns: seq<Function>, input: seq<Resource>)
    ensures ValidationError(rt, pkg, fns, input).None? <==>
            forall i :: 0 <= i < |fns| ==> ValidatorPasses(rt, pkg, fns[i], input)
    decreases |fns|
  {
    hide Validation, Passes;
    if fns != [] {
      NoValidationErrorExactly(rt, pkg, fns[1..], input);
      if forall i :: 0 <= i < |fns[1..]| ==> ValidatorPasses(rt, pkg, fns[1..][i], input) {
        forall i | 1 <= i < |fns| ensures ValidatorPasses(rt, pkg, fns[i], input) {
          assert fns[1..][i - 1] == fns[i];
        }
      } else {
        var i :| 0 <= i < |fns[1..]| && !ValidatorPasses(rt, pkg, fns[1..][i], input);
        assert fns[i + 1] == fns[1..][i];
      }
    }
  }

  /** A package's pipeline, in every outcome.  If the mutators fail, no validator has run
      and the resources are those of the failed chain. */
  method RunPipeline(rt: Runtime, pkg: string, mutators: seq<Function>, validators: seq<Function>, ledger: Ledger, input: seq<Resource>)
    returns (output: Option<seq<Resource>>, err: Option<RunError>, ghost stage: Stage, ghost went: Went)
    modifies ledger
    ensures Yield(output, err) == Pipeline(rt, pkg, mutators, validators, input)
    ensures err.None? <==> stage.Nothing?
    ensures mutators == [] == validators ==>
              && (err.None? <==> rt.areKrm(input)) && output == (if rt.areKrm(input) then Some(input) else None)
              && BooksOf(ledger) == old(BooksOf(ledger))
    ensures stage.Nothing? ==> Passed(rt, pkg, mutators, validators, input, output, went, old(BooksOf(ledger)), BooksOf(ledger))
    ensures stage.Input? ==> mutators == [] == validators
    ensures stage.Mutators? ==>
              && MutatorsWent(rt, pkg, mutators, ledger, old(ledger.items), old(ledger.mutationSteps), old(ledger.executed),
                              input, output, true, went.states, went.es, went.all)
              && ledger.validationSteps == old(ledger.validationSteps)
    ensures stage.Validators? ==>
              FailedValidation(rt, pkg, mutators, validators, input, output, went, old(BooksOf(ledger)), BooksOf(ledger))
  {
    hide Passed, FailedValidation, Validated, Validations, Turns, Trace, RecordedAll, StepRecords, ExecutedCount, RefusalStep;
    hide NotSkipped, Mutated, ValidationError, FirstUncreatable;
    ghost var before := BooksOf(ledger);
    if mutators == [] && validators == [] {
      NothingDeclared(rt, pkg, input, before);
      went := Went([input], [], [], [], None, []);
      output, err, stage := Some(input), None, Nothing;
      if !rt.areKrm(input) {
        output, err, stage := None, Some(OtherError("input " + NOT_KRM)), Input;
      }
      return;
    }
    ghost var states, es, all, vs, refused;
    output, err, states, es, all := RunMutators(rt, pkg, mutators, ledger, input);
    went, stage := Went(states, es, all, [], None, []), Mutators;
    if err.Some? {
      return;
    }
    err, vs, refused := RunValidators(rt, pkg, validators, ledger, output.value);
    went, stage := Went(states, es, es, vs, refused, RecordedAll(es) + RecordedAll(vs)), Validators;
    BothWent(rt, pkg, mutators, validators, input, output, states, es, vs, refused, err.Some?, before, BooksOf(ledger));
    if err.None? {
      stage := Nothing;
    }
  }

  lemma NothingDeclared(rt: Runtime, pkg: string, input: seq<Resource>, books: Books)
    ensures Passed(rt, pkg, [], [], input, Some(input), Went([input], [], [], [], None, []), books, books)
  {
  }

  /** The records of a pipeline whose mutators passed. */
  lemma BothWent(rt: Runtime, pkg: string, mutators: seq<Function>, validators: seq<Function>, input: seq<Resource>,
                 output: Option<seq<Resource>>, states: seq<seq<Resource>>, es: seq<Execution>, vs: seq<Execution>,
                 refused: Option<string>, failed: bool, before: Books, after: Books)
    requires Ends(Turns(rt, pkg), mutators, states, es, es, output, false) && states[0] == input
    requires Validated(Validations(rt, pkg, output.value), validators, vs, refused, failed)
    requires after.items == (before.items + RecordedAll(es)) + RecordedAll(vs)
    requires after.mutationSteps == before.mutationSteps + StepRecords(mutators, es)
    requires |vs| <= |validators|
    requires after.validationSteps ==
               (before.validationSteps + StepRecords(validators, vs)) + RefusalStep(validators, |vs|, refused)
    requires after.executed == (before.executed + ExecutedCount(es)) + ExecutedCount(vs)
    ensures var went := Went(states, es, es, vs, refused, RecordedAll(es) + RecordedAll(vs));
            if failed then FailedValidation(rt, pkg, mutators, validators, input, output, went, before, after)
            else Passed(rt, pkg, mutators, validators, input, output, went, before, after)
  {
    hide Turns, Validations, RecordedAll, ExecutedCount, NotSkipped, AdvancesAt;
    if !failed {
      PassedAll(rt, pkg, mutators, es, states, vs);
      Assoc(before.items, RecordedAll(es), RecordedAll(vs));
    }
  }

  lemma PassedAll(rt: Runtime, pkg: string, mutators: seq<Function>, es: seq<Execution>, states: seq<seq<Resource>>, vs: seq<Execution>)
    requires Trace(Turns(rt, pkg), mutators, states, es) && forall i :: 0 <= i < |vs| ==> Passes(vs[i])
    ensures var added := RecordedAll(es) + RecordedAll(vs);
            && |added| == |es| + |vs|
            && (forall i :: 0 <= i < |added| ==> added[i].exitCode == 0)
            && NotSkipped(added) == ExecutedCount(es) + ExecutedCount(vs)
  {
    AdvancingPasses(rt, pkg);
    TracePasses(Turns(rt, pkg), mutators, states, es);
    EntriesOfBoth(es, vs);
  }

  lemma EntriesOfBoth(es: seq<Execution>, vs: seq<Execution>)
    requires (forall i :: 0 <= i < |es| ==> Passes(es[i])) && (forall i :: 0 <= i < |vs| ==> Passes(vs[i]))
    ensures var added := RecordedAll(es) + RecordedAll(vs);
            && |added| == |es| + |vs|
            && (forall i :: 0 <= i < |added| ==> added[i].exitCode == 0)
            && NotSkipped(added) == ExecutedCount(es) + ExecutedCount(vs)
  {
    hide RecordedAll, NotSkipped, ExecutedCount, Passes;
    OneEntryEach(es);
    OneEntryEach(vs);
    ExecutedAreNotSkipped(es);
    ExecutedAreNotSkipped(vs);
    NotSkippedAppend(RecordedAll(es), RecordedAll(vs));
  }
}
