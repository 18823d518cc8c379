/** The mutators of a package, one after the other, with the record that is kept of every
    step. */
module MutatorChain {
  import opened FunctionExecution
  import opened Resources
  import opened SelectiveMutation
  import opened Sequences
  import opened Wrappers

  // ---------------------------------------------------------------- the record of a step

  predicate Mentions(s: string, part: string) {
    exists i :: 0 <= i <= |s| && part <= s[i..]
  }

  /** An error that has been reported already is not shown again. */
  function Shown(why: string): string {
    if Mentions(why, "already handled error") then "" else why
  }

  lemma ShownExactly(why: string)
    ensures (exists before: string, after: string :: why == (before + "already handled error") + after) ==> Shown(why) == ""
    ensures Shown(why) != "" ==> Shown(why) == why
    ensures Shown(why) == "" ==>
              why == "" || exists before: string, after: string :: why == (before + "already handled error") + after
  {
    hide Mentions;
    var part := "already handled error";
    forall before: string, after: string | why == (before + part) + after ensures Mentions(why, part) {
      MentionedExactly(before, part, after);
    }
    if Mentions(why, part) {
      var before, after := Mentioned(why, part);
    }
  }

  lemma MentionedExactly(before: string, part: string, after: string)
    ensures Mentions((before + part) + after, part)
  {
    assert ((before + part) + after)[|before|..] == part + after;
  }

  lemma Mentioned(s: string, part: string) returns (before: string, after: string)
    requires Mentions(s, part)
    ensures s == (before + part) + after
  {
    var i :| 0 <= i <= |s| && part <= s[i..];
    before, after := s[..i], s[i + |part|..];
  }

  /** The record of a step, from the result entries added since it began and its error. */
  function CaptureStepResult(fn: Function, items: seq<ResultItem>, countBefore: nat, err: Option<RunError>, skipped: bool): Step {
    var recorded := if countBefore < |items| then items[|items| - 1].exitCode else 0;
    var exitCode := match err
      case None => recorded
      case Some(ExecError(code)) => code
      case Some(_) => if recorded == 0 then 1 else recorded;
    var message := if err.Some? && err.value.OtherError? then Shown(err.value.why) else "";
    Step(fn.name, fn.image, fn.exec, skipped, exitCode, message)
  }

  function PreExecFailureStep(fn: Function, why: string): Step {
    Step(fn.name, fn.image, fn.exec, false, 1, Shown(why))
  }

  /** A function that never got to run is recorded as failed, under its name. */
  lemma PreExecTells(fn: Function, why: string)
    ensures var step := PreExecFailureStep(fn, why);
            && step.name == fn.name && step.image == fn.image && step.execPath == fn.exec
            && !step.skipped && step.exitCode == 1 && step.executionError == Shown(why)
  {
  }

  // ---------------------------------------------------------------- function configs

  predicate IsConfig(pkg: string, configPath: string, r: Resource) {
    PackageOf(r) == pkg && PathOf(r) == configPath
  }

  /** The input without the first resource that is the function's config, and that one. */
  function Exclude(pkg: string, configPath: string, input: seq<Resource>): (r: (seq<Resource>, Option<Resource>))
    ensures multiset(WithConfig(r.0, r.1)) == multiset(input)
    ensures r.1.Some? ==> configPath != "" && IsConfig(pkg, configPath, r.1.value)
  {
    if configPath == "" || input == [] then (input, None)
    else if IsConfig(pkg, configPath, input[0]) then
      assert input == [input[0]] + input[1..];
      (input[1..], Some(input[0]))
    else
      var (rest, config) := Exclude(pkg, configPath, input[1..]);
      assert input == [input[0]] + input[1..];
      assert WithConfig([input[0]] + rest, config) == [input[0]] + WithConfig(rest, config);
      ([input[0]] + rest, config)
  }

  /** The config goes back to the end of the list. */
  function WithConfig(resources: seq<Resource>, config: Option<Resource>): seq<Resource> {
    if config.Some? then resources + [config.value] else resources
  }

  lemma ExcludeIndex(pkg: string, configPath: string, input: seq<Resource>, i: nat)
    requires configPath != "" && i < |input| && IsConfig(pkg, configPath, input[i])
    requires forall j :: 0 <= j < i ==> !IsConfig(pkg, configPath, input[j])
    ensures Exclude(pkg, configPath, input) == (input[..i] + input[i + 1..], Some(input[i]))
  {
    if i == 0 {
      assert input[..0] + input[1..] == input[1..];
    } else {
      var rest := input[1..];
      assert forall j :: 0 <= j < i - 1 ==> rest[j] == input[j + 1];
      ExcludeIndex(pkg, configPath, rest, i - 1);
      DropAfterFirst(input, i);
    }
  }

  lemma DropAfterFirst(input: seq<Resource>, i: nat)
    requires 0 < i < |input|
    ensures input[..i] + input[i + 1..] == [input[0]] + (input[1..][..i - 1] + input[1..][i..])
  {
  }

  lemma {:induction false} ExcludeNone(pkg: string, configPath: string, input: seq<Resource>)
    requires forall j :: 0 <= j < |input| ==> !IsConfig(pkg, configPath, input[j])
    ensures Exclude(pkg, configPath, input) == (input, None)
  {
    hide IsConfig;
    if input != [] {
      ExcludeNone(pkg, configPath, input[1..]);
      assert input == [input[0]] + input[1..];
    }
  }

  method ExcludeAndRefreshFnConfig(pkg: string, runner: FunctionRunner, input: seq<Resource>, configPath: string)
    returns (filtered: seq<Resource>, config: Option<Resource>)
    modifies runner`config
    ensures (filtered, config) == Exclude(pkg, configPath, input)
    ensures runner.config == if config.Some? then config else old(runner.config)
  {
    filtered, config := input, None;
    if configPath == "" {
      return;
    }
    for i := 0 to |input|
      invariant forall j :: 0 <= j < i ==> !IsConfig(pkg, configPath, input[j])
    {
      var r := input[i];
      if PackageOf(r) == pkg && PathOf(r) == configPath {
        ExcludeIndex(pkg, configPath, input, i);
        runner.SetFnConfig(r);
        return input[..i] + input[i + 1..], Some(r);
      }
    }
    ExcludeNone(pkg, configPath, input);
  }

  /** The config is the first resource of the package in the file `configPath`; it alone is
      taken out, and without such a resource, or without a path, nothing is. */
  lemma ConfigTakenOutExactly(pkg: string, configPath: string, input: seq<Resource>)
    ensures var (filtered, config) := Exclude(pkg, configPath, input);
            && (config.None? <==>
                  configPath == "" || forall i :: 0 <= i < |input| ==> !(PackageOf(input[i]) == pkg && PathOf(input[i]) == configPath))
            && (config.None? ==> filtered == input)
            && (config.Some? ==>
                  exists i :: 0 <= i < |input| && config == Some(input[i]) && filtered == input[..i] + input[i + 1..]
                    && FirstIn(pkg, configPath, input, i))
  {
    if configPath != "" {
      if i :| 0 <= i < |input| && IsConfig(pkg, configPath, input[i]) {
        var first := FirstConfig(pkg, configPath, input, i);
        ExcludeIndex(pkg, configPath, input, first);
        assert PackageOf(input[first]) == pkg && PathOf(input[first]) == configPath;
      } else {
        ExcludeNone(pkg, configPath, input);
      }
    }
  }

  ghost predicate FirstIn(pkg: string, configPath: string, input: seq<Resource>, i: nat)
    requires i < |input|
  {
    && PackageOf(input[i]) == pkg && PathOf(input[i]) == configPath
    && forall j :: 0 <= j < i ==> !(PackageOf(input[j]) == pkg && PathOf(input[j]) == configPath)
  }

  lemma {:induction false} FirstConfig(pkg: string, configPath: string, input: seq<Resource>, i: nat) returns (first: nat)
    requires i < |input| && IsConfig(pkg, configPath, input[i])
    ensures first <= i && IsConfig(pkg, configPath, input[first])
    ensures forall j :: 0 <= j < first ==> !IsConfig(pkg, configPath, input[j])
  {
    if j :| 0 <= j < i && IsConfig(pkg, configPath, input[j]) {
      first := FirstConfig(pkg, configPath, input, j);
    } else {
      first := i;
    }
  }

  // ---------------------------------------------------------------- clean-up after a failure

  const MUTATION_ANNOTATIONS := {
    "config.k8s.io/id",
    "internal.config.kubernetes.io/annotations-migration-resource-id",
    "internal.config.kubernetes.io/id",
    RESOURCE_ID_ANNOTATION
  }

  function Cleared(r: Resource): Resource {
    r.(annotations := r.annotations - MUTATION_ANNOTATIONS)
  }

  /** Four annotations go, everything else stays. */
  lemma ClearedExactly(r: Resource, key: string)
    ensures key in Cleared(r).annotations <==>
            && key in r.annotations
            && key != "config.k8s.io/id" && key != "internal.config.kubernetes.io/id"
            && key != "internal.config.kubernetes.io/annotations-migration-resource-id"
            && key != "internal.config.kubernetes.io/kpt-resource-id"
    ensures key in Cleared(r).annotations ==> Cleared(r).annotations[key] == r.annotations[key]
    ensures Cleared(r).(annotations := r.annotations) == r
  {
  }

  function ClearedAll(input: seq<Resource>): (cleared: seq<Resource>)
    ensures |cleared| == |input| && forall i :: 0 <= i < |input| ==> cleared[i] == Cleared(input[i])
  {
    seq(|input|, i requires 0 <= i < |input| => Cleared(input[i]))
  }

  lemma LabelsAreCleared(input: seq<Resource>)
    ensures ClearedAll(Labelled(input)) == ClearedAll(input)
  {
    forall i | 0 <= i < |input| ensures Cleared(Labelled(input)[i]) == Cleared(input[i]) {
      var a, b := Labelled(input)[i].annotations - MUTATION_ANNOTATIONS, input[i].annotations - MUTATION_ANNOTATIONS;
      assert a == b;
    }
  }

  lemma {:induction false} ClearedMultiset(a: seq<Resource>, b: seq<Resource>)
    requires multiset(a) == multiset(b)
    ensures multiset(ClearedAll(a)) == multiset(ClearedAll(b))
    decreases |a|
  {
    assert |a| == |multiset(a)| == |multiset(b)| == |b|;
    if a != [] {
      var n := |a| - 1;
      DropLast(a);
      var front, rest := SplitAround(b, a[n]);
      ClearedMultiset(a[..n], front + rest);
      ClearedMiddle(front, a[n], rest);
    }
  }

  lemma DropLast(s: seq<Resource>)
    requires s != []
    ensures s[|s| - 1] in multiset(s)
    ensures multiset(s[..|s| - 1]) == multiset(s) - multiset{s[|s| - 1]}
    ensures multiset(ClearedAll(s)) == multiset(ClearedAll(s[..|s| - 1])) + multiset{Cleared(s[|s| - 1])}
  {
    hide Cleared;
    var front, last := s[..|s| - 1], s[|s| - 1];
    assert s == front + [last];
    ClearedAppend(front, [last]);
    assert ClearedAll([last]) == [Cleared(last)];
  }

  lemma ClearedAppend(a: seq<Resource>, b: seq<Resource>)
    ensures ClearedAll(a + b) == ClearedAll(a) + ClearedAll(b)
  {
  }

  lemma ClearedMiddle(front: seq<Resource>, r: Resource, rest: seq<Resource>)
    ensures multiset(ClearedAll(front + [r] + rest)) == multiset(ClearedAll(front + rest)) + multiset{Cleared(r)}
  {
    ClearedAppend(front + [r], rest);
    ClearedAppend(front, [r]);
    ClearedAppend(front, rest);
    assert ClearedAll([r]) == [Cleared(r)];
  }

  // ---------------------------------------------------------------- the chain

  /** What one mutator makes of the resources that reach it. */
  datatype Turn =
    | Advanced(resources: seq<Resource>, e: Execution)
    | Unprepared(why: string)
    | Failed(returned: seq<Resource>, e: Execution)

  function ConfigFor(rt: Runtime, fn: Function, filtered: seq<Resource>, config: Option<Resource>): Result<Option<Resource>, string> {
    if fn.configRef.None? then Ok(config)
    else match rt.resolveRef(fn.configRef.value, filtered)
      case Ok(r) => Ok(Some(r))
      case Err(why) => Err(why)
  }

  function TurnOf(rt: Runtime, pkg: string, fn: Function, input: seq<Resource>): Turn {
    var (filtered, config) := Exclude(pkg, fn.configPath, input);
    match ConfigFor(rt, fn, filtered, config)
    case Err(why) => Unprepared(why)
    case Ok(fnConfig) => TurnOn(rt, pkg, fn, fnConfig, filtered, config)
  }

  /** The same, once the config has been taken out of the list. */
  function TurnOn(rt: Runtime, pkg: string, fn: Function, fnConfig: Option<Resource>, filtered: seq<Resource>,
                  config: Option<Resource>): Turn {
    var labelled := if fn.IsSelective() then Labelled(filtered) else filtered;
    var selected := Select(labelled, fn.selectors, fn.exclusions);
    var e := Execute(rt, pkg, fn, fnConfig, selected);
    if !Passes(e) then
      Failed(ClearedAll(WithConfig(labelled, config)), e)
    else
      var output := Output(e, selected);
      Advanced(WithConfig(
        if fn.IsSelective() then Stripped(MergedInput(output, selected, labelled) + Unlabelled(output)) else output,
        config), e)
  }

  /** The mutators of one package as functions from resources to turns. */
  function Turns(rt: Runtime, pkg: string): (Function, seq<Resource>) -> Turn {
    (fn, input) => TurnOf(rt, pkg, fn, input)
  }

  /** A chain of mutators that passed: `states[i]` reaches the `i`-th mutator, which makes
      `states[i + 1]` of it. */
  ghost predicate Trace(turn: (Function, seq<Resource>) -> Turn, fns: seq<Function>, states: seq<seq<Resource>>, es: seq<Execution>) {
    && |es| <= |fns| && |states| == |es| + 1
    && forall i :: 0 <= i < |es| ==> AdvancesAt(turn, fns, states, es, i)
  }

  ghost predicate AdvancesAt(turn: (Function, seq<Resource>) -> Turn, fns: seq<Function>,
                             states: seq<seq<Resource>>, es: seq<Execution>, i: nat)
    requires i < |es| && |es| <= |fns| && |states| == |es| + 1
  {
    turn(fns[i], states[i]) == Advanced(states[i + 1], es[i])
  }

  lemma TraceGrows(turn: (Function, seq<Resource>) -> Turn, fns: seq<Function>, states: seq<seq<Resource>>, es: seq<Execution>,
                   next: seq<Resource>, e: Execution)
    requires Trace(turn, fns, states, es) && |es| < |fns|
    requires turn(fns[|es|], states[|es|]) == Advanced(next, e)
    ensures Trace(turn, fns, states + [next], es + [e])
  {
    var states', es' := states + [next], es + [e];
    forall i | 0 <= i < |es'| ensures AdvancesAt(turn, fns, states', es', i) {
      if i < |es| {
        assert AdvancesAt(turn, fns, states, es, i);
      }
    }
  }

  /** The chain is determined by its input: two traces from the same resources agree. */
  lemma {:induction false} TraceUnique(turn: (Function, seq<Resource>) -> Turn, fns: seq<Function>, i: nat,
                                       states: seq<seq<Resource>>, es: seq<Execution>,
                                       states': seq<seq<Resource>>, es': seq<Execution>)
    requires Trace(turn, fns, states, es) && Trace(turn, fns, states', es')
    requires states[0] == states'[0] && i <= |es| && i <= |es'|
    ensures states[i] == states'[i]
  {
    if i > 0 {
      TraceUnique(turn, fns, i - 1, states, es, states', es');
      assert AdvancesAt(turn, fns, states, es, i - 1);
      assert AdvancesAt(turn, fns, states', es', i - 1);
    }
  }

  lemma TracePasses(turn: (Function, seq<Resource>) -> Turn, fns: seq<Function>, states: seq<seq<Resource>>, es: seq<Execution>)
    requires Trace(turn, fns, states, es)
    requires forall fn, input :: turn(fn, input).Advanced? ==> Passes(turn(fn, input).e)
    ensures forall i :: 0 <= i < |es| ==> Passes(es[i])
  {
    forall i | 0 <= i < |es| ensures Passes(es[i]) {
      assert AdvancesAt(turn, fns, states, es, i);
    }
  }

  lemma AdvancingPasses(rt: Runtime, pkg: string)
    ensures forall fn, input :: Turns(rt, pkg)(fn, input).Advanced? ==> Passes(Turns(rt, pkg)(fn, input).e)
  {
  }

  /** The config a function runs with: the resource its reference resolves to among those left
      in the list, or else the one taken out of the list. */
  ghost predicate RunsWith(rt: Runtime, pkg: string, fn: Function, input: seq<Resource>, fnConfig: Option<Resource>) {
    var (filtered, config) := Exclude(pkg, fn.configPath, input);
    match fn.configRef
    case Some(ref) => fnConfig.Some? && rt.resolveRef(ref, filtered) == Ok(fnConfig.value)
    case None => fnConfig == config
  }

  /** A mutator whose reference cannot be resolved is not even executed. */
  lemma UnpreparedExactly(rt: Runtime, pkg: string, fn: Function, input: seq<Resource>)
    ensures TurnOf(rt, pkg, fn, input).Unprepared? <==>
            fn.configRef.Some? && rt.resolveRef(fn.configRef.value, Exclude(pkg, fn.configPath, input).0).Err?
    ensures TurnOf(rt, pkg, fn, input).Unprepared? ==>
              Err(TurnOf(rt, pkg, fn, input).why) == rt.resolveRef(fn.configRef.value, Exclude(pkg, fn.configPath, input).0)
  {
  }

  /** A mutator without selectors that returns leaves its output, packages filled in, and
      then its config; it is run on everything but that. */
  lemma PlainTurnLeavesOutput(rt: Runtime, pkg: string, fn: Function, input: seq<Resource>, fnConfig: Option<Resource>)
    requires fn.selectors == [] && fn.exclusions == [] && RunsWith(rt, pkg, fn, input, fnConfig)
    requires var filtered := Exclude(pkg, fn.configPath, input).0;
             && rt.condition(fn, filtered) == Ok(true) && rt.areKrm(filtered)
             && Passable(rt, pkg, rt.invoke(fn, fnConfig, filtered)) && rt.invoke(fn, fnConfig, filtered).failure.None?
    ensures var (filtered, config) := Exclude(pkg, fn.configPath, input);
            var output := TagAll(rt.invoke(fn, fnConfig, filtered).output, pkg);
            TurnOf(rt, pkg, fn, input) ==
            Advanced(output + (if config.Some? then [config.value] else []), Returned(output))
  {
    hide *;
    var (filtered, config) := Exclude(pkg, fn.configPath, input);
    ConfigLast(TagAll(rt.invoke(fn, fnConfig, filtered).output, pkg), config);
    SelectAll(filtered);
    ExecutesExactly(rt, pkg, fn, fnConfig, filtered);
    ExecutedOn(rt, pkg, fn, input, fnConfig, filtered, filtered);
  }

  lemma ConfigLast(list: seq<Resource>, config: Option<Resource>)
    ensures WithConfig(list, config) == list + if config.Some? then [config.value] else []
  {
  }

  /** A selective mutator is run on the selected resources, labelled; its output takes their
      places by label, and the labels go. */
  lemma SelectiveTurnLeavesMerge(rt: Runtime, pkg: string, fn: Function, input: seq<Resource>, fnConfig: Option<Resource>)
    requires (fn.selectors != [] || fn.exclusions != []) && RunsWith(rt, pkg, fn, input, fnConfig)
    requires var labelled := Labelled(Exclude(pkg, fn.configPath, input).0);
             var selected := Select(labelled, fn.selectors, fn.exclusions);
             && rt.condition(fn, selected) == Ok(true) && rt.areKrm(selected)
             && Passable(rt, pkg, rt.invoke(fn, fnConfig, selected)) && rt.invoke(fn, fnConfig, selected).failure.None?
    ensures var (filtered, config) := Exclude(pkg, fn.configPath, input);
            var selected := Select(Labelled(filtered), fn.selectors, fn.exclusions);
            var output := TagAll(rt.invoke(fn, fnConfig, selected).output, pkg);
            TurnOf(rt, pkg, fn, input) ==
            Advanced(Stripped(MergedInput(output, selected, Labelled(filtered)) + Unlabelled(output))
                       + (if config.Some? then [config.value] else []), Returned(output))
  {
    hide *;
    var (filtered, config) := Exclude(pkg, fn.configPath, input);
    var selected := Select(Labelled(filtered), fn.selectors, fn.exclusions);
    var output := TagAll(rt.invoke(fn, fnConfig, selected).output, pkg);
    ConfigLast(Stripped(MergedInput(output, selected, Labelled(filtered)) + Unlabelled(output)), config);
    ExecutesExactly(rt, pkg, fn, fnConfig, selected);
    ExecutedOn(rt, pkg, fn, input, fnConfig, Labelled(filtered), selected);
  }

  /** What a turn comes to, its execution given. */
  lemma ExecutedOn(rt: Runtime, pkg: string, fn: Function, input: seq<Resource>, fnConfig: Option<Resource>,
                   labelled: seq<Resource>, selected: seq<Resource>)
    requires RunsWith(rt, pkg, fn, input, fnConfig) && selected == Select(labelled, fn.selectors, fn.exclusions)
    requires var filtered := Exclude(pkg, fn.configPath, input).0;
             labelled == if fn.selectors == [] && fn.exclusions == [] then filtered else Labelled(filtered)
    ensures var config := Exclude(pkg, fn.configPath, input).1;
            var e := Execute(rt, pkg, fn, fnConfig, selected);
            && (e.Returned? ==>
                  TurnOf(rt, pkg, fn, input) ==
                  Advanced(WithConfig(if fn.selectors == [] && fn.exclusions == [] then e.output
                                      else Stripped(MergedInput(e.output, selected, labelled) + Unlabelled(e.output)), config), e))
            && (!Passes(e) ==> TurnOf(rt, pkg, fn, input) == Failed(ClearedAll(WithConfig(labelled, config)), e))
  {
    hide Exclude, Execute, Select, MergedInput, Unlabelled, WithConfig, ClearedAll, Labelled, Stripped;
  }

  /** A turn fails exactly if its execution does: the condition cannot be evaluated, the input
      is not KRM, what the function left does not pass the checks, or it failed. */
  lemma TurnFailsExactly(rt: Runtime, pkg: string, fn: Function, input: seq<Resource>, fnConfig: Option<Resource>)
    requires RunsWith(rt, pkg, fn, input, fnConfig)
    ensures var filtered := Exclude(pkg, fn.configPath, input).0;
            var labelled := if fn.selectors == [] && fn.exclusions == [] then filtered else Labelled(filtered);
            var selected := Select(labelled, fn.selectors, fn.exclusions);
            var run := rt.invoke(fn, fnConfig, selected);
            TurnOf(rt, pkg, fn, input).Failed? <==>
            || rt.condition(fn, selected).Err?
            || (rt.condition(fn, selected) == Ok(true) &&
                !(rt.areKrm(selected) && Passable(rt, pkg, run) && run.failure.None?))
  {
    var filtered := Exclude(pkg, fn.configPath, input).0;
    var labelled := if fn.selectors == [] && fn.exclusions == [] then filtered else Labelled(filtered);
    var selected := Select(labelled, fn.selectors, fn.exclusions);
    ExecutesExactly(rt, pkg, fn, fnConfig, selected);
    TurnGoesAs(rt, pkg, fn, input, fnConfig, selected);
  }

  lemma TurnGoesAs(rt: Runtime, pkg: string, fn: Function, input: seq<Resource>, fnConfig: Option<Resource>, selected: seq<Resource>)
    requires RunsWith(rt, pkg, fn, input, fnConfig)
    requires var filtered := Exclude(pkg, fn.configPath, input).0;
             var labelled := if fn.selectors == [] && fn.exclusions == [] then filtered else Labelled(filtered);
             selected == Select(labelled, fn.selectors, fn.exclusions)
    ensures TurnOf(rt, pkg, fn, input).Failed? <==> !Passes(Execute(rt, pkg, fn, fnConfig, selected))
  {
    hide Exclude, Execute, Select, MergedInput, Unlabelled, WithConfig, ClearedAll, Labelled, Stripped, Passes;
  }

  /** Roll-back: when executing a mutator fails, what comes back is, as a multiset, what
      the mutators before it left, without the annotations added for the run. */
  lemma FailedTurnReturnsInput(rt: Runtime, pkg: string, fn: Function, input: seq<Resource>)
    requires TurnOf(rt, pkg, fn, input).Failed?
    ensures multiset(TurnOf(rt, pkg, fn, input).returned) == multiset(ClearedAll(input))
    ensures !Passes(TurnOf(rt, pkg, fn, input).e)
  {
    var (filtered, config) := Exclude(pkg, fn.configPath, input);
    LabelsClearedWithConfig(filtered, config);
    ClearedMultiset(WithConfig(filtered, config), input);
  }

  lemma LabelsClearedWithConfig(filtered: seq<Resource>, config: Option<Resource>)
    ensures ClearedAll(WithConfig(Labelled(filtered), config)) == ClearedAll(WithConfig(filtered, config))
  {
    LabelsAreCleared(filtered);
    if config.Some? {
      ClearedAppend(Labelled(filtered), [config.value]);
      ClearedAppend(filtered, [config.value]);
    }
  }

  /** A selective mutator that returns, and treats every selected resource as `f` says: its
      effect on the list is that of `f` on the selected resources alone; what it generated
      follows, then its config. */
  lemma SelectiveTurnIsPointwise(rt: Runtime, pkg: string, fn: Function, input: seq<Resource>, fnConfig: Option<Resource>,
                                 f: Resource -> Fate)
    requires (fn.selectors != [] || fn.exclusions != []) && RunsWith(rt, pkg, fn, input, fnConfig)
    requires var selected := Select(Labelled(Exclude(pkg, fn.configPath, input).0), fn.selectors, fn.exclusions);
             var run := rt.invoke(fn, fnConfig, selected);
             && rt.condition(fn, selected) == Ok(true) && rt.areKrm(selected) && Passable(rt, pkg, run) && run.failure.None?
             && KeepsIds(f, selected) && Treats(f, selected, TagAll(run.output, pkg))
    ensures var (filtered, config) := Exclude(pkg, fn.configPath, input);
            var selected := Select(Labelled(filtered), fn.selectors, fn.exclusions);
            var output := TagAll(rt.invoke(fn, fnConfig, selected).output, pkg);
            TurnOf(rt, pkg, fn, input) == Advanced(
              Pointwise(f, filtered, fn.selectors, fn.exclusions) + Stripped(Unlabelled(output))
                + (if config.Some? then [config.value] else []), Returned(output))
  {
    hide *;
    var filtered := Exclude(pkg, fn.configPath, input).0;
    var selected := Select(Labelled(filtered), fn.selectors, fn.exclusions);
    SelectiveTurnLeavesMerge(rt, pkg, fn, input, fnConfig);
    SelectiveMutationRefinesPointwise(f, filtered, fn.selectors, fn.exclusions, TagAll(rt.invoke(fn, fnConfig, selected).output, pkg));
  }

  /** A mutator whose condition is not met leaves the resources as they were, but for the
      place of its config in the list. */
  lemma SkippedTurnKeepsResources(rt: Runtime, pkg: string, fn: Function, input: seq<Resource>)
    requires TurnOf(rt, pkg, fn, input).Advanced? && TurnOf(rt, pkg, fn, input).e.ConditionNotMet?
    requires forall r :: r in input ==> RESOURCE_ID_ANNOTATION !in r.annotations
    ensures multiset(TurnOf(rt, pkg, fn, input).resources) == multiset(input)
  {
    var (filtered, config) := Exclude(pkg, fn.configPath, input);
    assert TurnOf(rt, pkg, fn, input).resources == WithConfig(filtered, config) by {
      if fn.IsSelective() {
        forall i | 0 <= i < |filtered| ensures RESOURCE_ID_ANNOTATION !in filtered[i].annotations {
          KeptByExclude(filtered, config, input, filtered[i]);
        }
        SkippedChangesNothing(filtered, fn.selectors, fn.exclusions);
      } else {
        SelectAll(filtered);
      }
    }
  }

  lemma KeptByExclude(filtered: seq<Resource>, config: Option<Resource>, input: seq<Resource>, r: Resource)
    requires multiset(WithConfig(filtered, config)) == multiset(input) && r in filtered
    ensures r in input
  {
    assert r in multiset(WithConfig(filtered, config));
  }

  // ---------------------------------------------------------------- the records

  function StepRecord(fn: Function, e: Execution): Step {
    var exitCode := match e
      case Refused(_) => 1
      case ConditionNotMet => 0
      case Broke(code, _) => if code.None? || code.value == 0 then 1 else code.value
      case Returned(_) => 0;
    var message := match e
      case Refused(why) => Shown(why)
      case Broke(code, why) => if code.Some? then "" else Shown(why)
      case _ => "";
    Step(fn.name, fn.image, fn.exec, e.ConditionNotMet?, exitCode, message)
  }

  lemma CaptureIsRecord(fn: Function, items: seq<ResultItem>, e: Execution)
    ensures CaptureStepResult(fn, items + Recorded(e), |items|, ErrorOf(e), e.ConditionNotMet?) == StepRecord(fn, e)
  {
    match e
    case Refused(_) => assert items + Recorded(e) == items;
    case _ =>
  }

  function StepRecords(fns: seq<Function>, es: seq<Execution>): (steps: seq<Step>)
    requires |es| <= |fns|
    ensures |steps| == |es| && forall i :: 0 <= i < |es| ==> steps[i] == StepRecord(fns[i], es[i])
  {
    seq(|es|, i requires 0 <= i < |es| => StepRecord(fns[i], es[i]))
  }

  function RecordedAll(es: seq<Execution>): seq<ResultItem> {
    if es == [] then [] else RecordedAll(es[..|es| - 1]) + Recorded(es[|es| - 1])
  }

  /** How many functions ran and returned: neither skipped nor failed. */
  function ExecutedCount(es: seq<Execution>): nat {
    if es == [] then 0
    else ExecutedCount(es[..|es| - 1]) + if es[|es| - 1].Returned? then 1 else 0
  }

  lemma RecordsGrow(es: seq<Execution>, e: Execution)
    ensures RecordedAll(es + [e]) == RecordedAll(es) + Recorded(e)
    ensures ExecutedCount(es + [e]) == ExecutedCount(es) + if e.Returned? then 1 else 0
  {
    assert (es + [e])[..|es|] == es;
  }

  lemma StepRecordsGrow(fns: seq<Function>, es: seq<Execution>, e: Execution)
    requires |es| < |fns|
    ensures StepRecords(fns, es + [e]) == StepRecords(fns, es) + [StepRecord(fns[|es|], e)]
  {
  }

  /** The record of a step names its function, and says how the execution went. */
  lemma StepTells(fn: Function, e: Execution)
    ensures var step := StepRecord(fn, e);
            && step.name == fn.name && step.image == fn.image && step.execPath == fn.exec
            && (step.skipped <==> e.ConditionNotMet?)
            && (e.Refused? ==> step.exitCode == 1 && step.executionError == Shown(e.why))
            && (e.Broke? && e.execExitCode.None? ==> step.exitCode == 1 && step.executionError == Shown(e.why))
            && (e.Broke? && e.execExitCode.Some? ==>
                  step.executionError == "" &&
                  step.exitCode == if e.execExitCode.value == 0 then 1 else e.execExitCode.value)
            && (Passes(e) ==> step.exitCode == 0 && step.executionError == "")
  {
  }

  /** The step that failed has a non-zero exit code, also when the function exited with
      zero; the steps that passed have exit code zero. */
  lemma FailingStepHasExitCode(fn: Function, e: Execution)
    ensures StepRecord(fn, e).exitCode == 0 <==> Passes(e)
  {
  }

  /** One result entry for every execution that passed. */
  lemma {:induction false} OneEntryEach(es: seq<Execution>)
    requires forall i :: 0 <= i < |es| ==> Passes(es[i])
    ensures |RecordedAll(es)| == |es|
    ensures forall i :: 0 <= i < |es| ==> RecordedAll(es)[i] == ResultItem(0, es[i].ConditionNotMet?)
  {
    if es != [] {
      OneEntryEach(es[..|es| - 1]);
    }
  }

  // ---------------------------------------------------------------- running the mutators

  /** Runners for all functions, or the index of the first that cannot be created. */
  method FnChain(rt: Runtime, fns: seq<Function>) returns (failed: Option<(nat, string)>)
    ensures failed.None? <==> AllCreatable(rt, fns)
    ensures failed.Some? ==>
              && FirstUncreatable(rt, fns, failed.value.0)
              && CreationError(rt, fns[failed.value.0]) == Some(failed.value.1)
  {
    for i := 0 to |fns|
      invariant forall j :: 0 <= j < i ==> CreationError(rt, fns[j]).None?
    {
      if fns[i].exec != "" && !rt.allowExec {
        return Some((i, NOT_ALLOWED));
      }
      var created := rt.instantiate(fns[i]);
      if created.Err? {
        return Some((i, created.error));
      }
    }
    failed := None;
  }

  /** Why no runner can be made for a function; `None` if one can. */
  function CreationError(rt: Runtime, fn: Function): Option<string> {
    if fn.exec != "" && !rt.allowExec then Some(NOT_ALLOWED)
    else match rt.instantiate(fn)
      case Ok(_) => None
      case Err(why) => Some(why)
  }

  /** A runner can be made unless the function is an executable and those are not allowed, or
      it cannot be instantiated. */
  lemma CreatableExactly(rt: Runtime, fn: Function)
    ensures CreationError(rt, fn) ==
            if fn.exec != "" && !rt.allowExec then Some("must run with `--allow-exec` option to allow running function binaries")
            else if rt.instantiate(fn).Err? then Some(rt.instantiate(fn).error)
            else None
  {
  }

  predicate AllCreatable(rt: Runtime, fns: seq<Function>) {
    forall i :: 0 <= i < |fns| ==> CreationError(rt, fns[i]).None?
  }

  /** The first function no runner can be made for. */
  ghost predicate FirstUncreatable(rt: Runtime, fns: seq<Function>, i: nat) {
    i < |fns| && CreationError(rt, fns[i]).Some? && AllCreatable(rt, fns[..i])
  }

  /** Run the mutator on what was selected and record the step. */
  method ExecuteAndRecord(rt: Runtime, runner: FunctionRunner, ledger: Ledger, selected: seq<Resource>)
    returns (result: seq<Resource>, err: Option<RunError>)
    modifies runner`skipped, ledger`items, ledger`mutationSteps, ledger`executed
    ensures var e := Execute(rt, runner.pkg, runner.fn, runner.config, selected);
            && err == ErrorOf(e) && (err.None? ==> result == Output(e, selected))
            && ledger.items == old(ledger.items) + Recorded(e)
            && ledger.mutationSteps == old(ledger.mutationSteps) + [StepRecord(runner.fn, e)]
            && ledger.executed == old(ledger.executed) + if e.Returned? then 1 else 0
  {
    var countBefore := |ledger.items|;
    CaptureIsRecord(runner.fn, ledger.items, Execute(rt, runner.pkg, runner.fn, runner.config, selected));
    result, err := Filter(runner, rt, ledger, selected);
    var step := CaptureStepResult(runner.fn, ledger.items, countBefore, err, runner.skipped);
    ledger.mutationSteps := ledger.mutationSteps + [step];
    if err.None? && !runner.skipped {
      ledger.executed := ledger.executed + 1;
    }
  }

  /** Label, select, run, record, merge, strip. */
  method ExecuteMutator(rt: Runtime, runner: FunctionRunner, ledger: Ledger, filtered: seq<Resource>, config: Option<Resource>)
    returns (output: Option<seq<Resource>>, err: Option<RunError>)
    modifies runner`skipped, ledger`items, ledger`mutationSteps, ledger`executed
    ensures var turn := TurnOn(rt, runner.pkg, runner.fn, runner.config, filtered, config);
            && (turn.Advanced? || turn.Failed?)
            && (err.None? <==> turn.Advanced?) && err == ErrorOf(turn.e)
            && output == Some(if turn.Advanced? then turn.resources else turn.returned)
            && ledger.items == old(ledger.items) + Recorded(turn.e)
            && ledger.mutationSteps == old(ledger.mutationSteps) + [StepRecord(runner.fn, turn.e)]
            && ledger.executed == old(ledger.executed) + if turn.e.Returned? then 1 else 0
  {
    var fn := runner.fn;
    var labelled := filtered;
    if fn.selectors != [] || fn.exclusions != [] {
      labelled := Labelled(filtered);
    }
    var selected := SelectInput(labelled, fn.selectors, fn.exclusions);
    var result;
    result, err := ExecuteAndRecord(rt, runner, ledger, selected);
    if err.Some? {
      output := Some(ClearedAll(WithConfig(labelled, config)));
      return;
    }
    if fn.selectors != [] || fn.exclusions != [] {
      result := MergeWithInput(result, selected, labelled);
      result := Stripped(result);
    }
    output := Some(WithConfig(result, config));
  }

  /** One mutator, from taking its config out of the list to putting it back. */
  method RunMutator(rt: Runtime, pkg: string, fn: Function, ledger: Ledger, input: seq<Resource>)
    returns (output: Option<seq<Resource>>, err: Option<RunError>)
    modifies ledger`items, ledger`mutationSteps, ledger`executed
    ensures match TurnOf(rt, pkg, fn, input)
            case Advanced(resources, e) =>
              && err == None && output == Some(resources)
              && ledger.items == old(ledger.items) + Recorded(e)
              && ledger.mutationSteps == old(ledger.mutationSteps) + [StepRecord(fn, e)]
              && ledger.executed == old(ledger.executed) + if e.Returned? then 1 else 0
            case Unprepared(why) =>
              && err == Some(OtherError(why)) && output == None
              && ledger.items == old(ledger.items) && ledger.mutationSteps == old(ledger.mutationSteps)
              && ledger.executed == old(ledger.executed)
            case Failed(returned, e) =>
              && err == ErrorOf(e) && err.Some? && output == Some(returned)
              && ledger.items == old(ledger.items) + Recorded(e)
              && ledger.mutationSteps == old(ledger.mutationSteps) + [StepRecord(fn, e)]
              && ledger.executed == old(ledger.executed)
  {
    output, err := None, None;
    var runner := new FunctionRunner(fn, pkg);
    var filtered, config := ExcludeAndRefreshFnConfig(pkg, runner, input, fn.configPath);
    if fn.configRef.Some? {
      var resolved := rt.resolveRef(fn.configRef.value, filtered);
      if resolved.Err? {
        err := Some(OtherError(resolved.error));
        return;
      }
      runner.SetFnConfig(resolved.value);
    }
    output, err := ExecuteMutator(rt, runner, ledger, filtered, config);
  }

  /** What comes back from a chain of mutators, as a function of what goes in. */
  datatype Yield = Yield(output: Option<seq<Resource>>, err: Option<RunError>)

  function Chain(rt: Runtime, pkg: string, fns: seq<Function>, input: seq<Resource>): (y: Yield)
    ensures y.err.None? ==> y.output.Some?
  {
    if fns == [] then Yield(Some(input), None)
    else match TurnOf(rt, pkg, fns[0], input)
      case Advanced(resources, _) => Chain(rt, pkg, fns[1..], resources)
      case Unprepared(why) => Yield(None, Some(OtherError(why)))
      case Failed(returned, e) => Yield(Some(returned), ErrorOf(e))
  }

  /** The same for all mutators of a package. */
  function Mutated(rt: Runtime, pkg: string, fns: seq<Function>, input: seq<Resource>): (y: Yield)
    ensures y.err.None? ==> y.output.Some?
  {
    if AllCreatable(rt, fns) then Chain(rt, pkg, fns, input)
    else Yield(None, Some(OtherError(FirstCreationError(rt, fns))))
  }

  function FirstCreationError(rt: Runtime, fns: seq<Function>): string
    requires !AllCreatable(rt, fns)
  {
    if CreationError(rt, fns[0]).Some? then CreationError(rt, fns[0]).value
    else
      assert forall i :: 1 <= i < |fns| ==> fns[1..][i - 1] == fns[i];
      FirstCreationError(rt, fns[1..])
  }

  lemma {:induction false} FirstErrorAt(rt: Runtime, fns: seq<Function>, i: nat)
    requires FirstUncreatable(rt, fns, i)
    ensures !AllCreatable(rt, fns) && FirstCreationError(rt, fns) == CreationError(rt, fns[i]).value
  {
    if i > 0 {
      assert fns[..i][0] == fns[0] && fns[1..][i - 1] == fns[i];
      var before := fns[1..][..i - 1];
      forall j | 0 <= j < |before| ensures CreationError(rt, before[j]).None? {
        assert before[j] == fns[..i][j + 1];
      }
      FirstErrorAt(rt, fns[1..], i - 1);
    }
  }

  /** Mutators one after the other: the later ones get what the earlier ones leave. */
  lemma {:induction false} ChainAppend(rt: Runtime, pkg: string, a: seq<Function>, b: seq<Function>, input: seq<Resource>)
    ensures var y := Chain(rt, pkg, a, input);
            Chain(rt, pkg, a + b, input) == if y.err.None? then Chain(rt, pkg, b, y.output.value) else y
    decreases |a|
  {
    hide TurnOf;
    if a == [] {
      assert a + b == b;
    } else {
      assert (a + b)[1..] == a[1..] + b && (a + b)[0] == a[0];
      match TurnOf(rt, pkg, a[0], input)
      case Advanced(resources, _) => ChainAppend(rt, pkg, a[1..], b, resources);
      case Unprepared(_) =>
      case Failed(_, _) => FailedTurnReturnsInput(rt, pkg, a[0], input);
    }
  }

  lemma ChainOfOne(rt: Runtime, pkg: string, fn: Function, input: seq<Resource>)
    ensures Chain(rt, pkg, [fn], input) ==
            match TurnOf(rt, pkg, fn, input)
            case Advanced(resources, _) => Yield(Some(resources), None)
            case Unprepared(why) => Yield(None, Some(OtherError(why)))
            case Failed(returned, e) => Yield(Some(returned), ErrorOf(e))
  {
    assert [fn][1..] == [];
  }

  lemma ChainEnds(rt: Runtime, pkg: string, fns: seq<Function>, input: seq<Resource>)
    ensures Chain(rt, pkg, fns[|fns|..], input) == Yield(Some(input), None)
    ensures fns[0..] == fns
  {
  }

  lemma NothingYet(rt: Runtime, pkg: string, fns: seq<Function>, input: seq<Resource>)
    ensures Trace(Turns(rt, pkg), fns, [input], [])
    ensures RecordedAll([]) == [] && StepRecords(fns, []) == [] && ExecutedCount([]) == 0
  {
  }

  lemma ChainNext(rt: Runtime, pkg: string, fns: seq<Function>, k: nat, input: seq<Resource>)
    requires k < |fns|
    ensures match TurnOf(rt, pkg, fns[k], input)
            case Advanced(resources, _) => Chain(rt, pkg, fns[k..], input) == Chain(rt, pkg, fns[k + 1..], resources)
            case Unprepared(why) => Chain(rt, pkg, fns[k..], input) == Yield(None, Some(OtherError(why)))
            case Failed(returned, e) => Chain(rt, pkg, fns[k..], input) == Yield(Some(returned), ErrorOf(e))
  {
    assert fns[k..][1..] == fns[k + 1..];
  }

  /** A ledger that held these records has grown by exactly the records of `es`. */
  ghost predicate Accounted(ledger: Ledger, items: seq<ResultItem>, steps: seq<Step>, executed: nat,
                            fns: seq<Function>, es: seq<Execution>)
    reads ledger
  {
    && |es| <= |fns|
    && ledger.items == items + RecordedAll(es)
    && ledger.mutationSteps == steps + StepRecords(fns, es)
    && ledger.executed == executed + ExecutedCount(es)
  }

  lemma StillAccounted(items: seq<ResultItem>, steps: seq<Step>, fns: seq<Function>, es: seq<Execution>, e: Execution)
    requires |es| < |fns|
    ensures (items + RecordedAll(es)) + Recorded(e) == items + RecordedAll(es + [e])
    ensures (steps + StepRecords(fns, es)) + [StepRecord(fns[|es|], e)] == steps + StepRecords(fns, es + [e])
    ensures ExecutedCount(es + [e]) == ExecutedCount(es) + if e.Returned? then 1 else 0
  {
    RecordsGrow(es, e);
    Assoc(items, RecordedAll(es), Recorded(e));
    StepRecordsGrow(fns, es, e);
    Assoc(steps, StepRecords(fns, es), [StepRecord(fns[|es|], e)]);
  }

  /** How a chain ended after the trace `states`: all mutators passed, or executing the
      next one failed, or it could not be prepared. */
  ghost predicate Ends(turn: (Function, seq<Resource>) -> Turn, fns: seq<Function>, states: seq<seq<Resource>>, es: seq<Execution>,
                       all: seq<Execution>, output: Option<seq<Resource>>, failed: bool) {
    && Trace(turn, fns, states, es)
    && var i := |es|;
       if !failed then
         i == |fns| && output == Some(states[i]) && all == es
       else
         i < |fns| && match turn(fns[i], states[i])
           case Failed(returned, e) => output == Some(returned) && all == es + [e]
           case Unprepared(_) => output == None && all == es
           case Advanced(_, _) => false
  }

  /** The mutators in turn, up to the first failure.  A failed execution returns what the
      mutators before it left, up to order and the annotations added for the run. */
  method RunChain(rt: Runtime, pkg: string, fns: seq<Function>, ledger: Ledger, input: seq<Resource>)
    returns (output: Option<seq<Resource>>, err: Option<RunError>,
             ghost states: seq<seq<Resource>>, ghost es: seq<Execution>, ghost all: seq<Execution>)
    modifies ledger`items, ledger`mutationSteps, ledger`executed
    ensures Ends(Turns(rt, pkg), fns, states, es, all, output, err.Some?) && states[0] == input
    ensures Accounted(ledger, old(ledger.items), old(ledger.mutationSteps), old(ledger.executed), fns, all)
    ensures err.Some? && output.Some? ==> multiset(output.value) == multiset(ClearedAll(states[|es|]))
    ensures Yield(output, err) == Chain(rt, pkg, fns, input)
  {
    hide TurnOf, Chain, Trace, AdvancesAt, RecordedAll, StepRecords, StepRecord, ExecutedCount, Recorded, ClearedAll, ErrorOf;
    output, err := Some(input), None;
    states, es, all := [input], [], [];
    ChainEnds(rt, pkg, fns, input);
    NothingYet(rt, pkg, fns, input);
    for k := 0 to |fns|
      invariant err == None && |es| == k && all == es && |states| == k + 1
      invariant output == Some(states[k]) && states[0] == input
      invariant Chain(rt, pkg, fns[k..], output.value) == Chain(rt, pkg, fns, input)
      invariant Trace(Turns(rt, pkg), fns, states, es)
      invariant Accounted(ledger, old(ledger.items), old(ledger.mutationSteps), old(ledger.executed), fns, es)
    {
      ghost var turn := TurnOf(rt, pkg, fns[k], states[k]);
      ChainNext(rt, pkg, fns, k, states[k]);
      output, err := RunMutator(rt, pkg, fns[k], ledger, output.value);
      if !turn.Unprepared? {
        StillAccounted(old(ledger.items), old(ledger.mutationSteps), fns, es, turn.e);
        all := es + [turn.e];
      }
      if err.Some? {
        if turn.Failed? {
          FailedTurnReturnsInput(rt, pkg, fns[k], states[k]);
        }
        return;
      }
      TraceGrows(Turns(rt, pkg), fns, states, es, output.value, turn.e);
      states, es := states + [output.value], all;
    }
    ChainEnds(rt, pkg, fns, output.value);
  }

  /** How all mutators of a package went: the chain up to its end, or a single failed step
      for the first that could not be created. */
  ghost predicate MutatorsWent(rt: Runtime, pkg: string, fns: seq<Function>, ledger: Ledger,
                               items: seq<ResultItem>, steps: seq<Step>, executed: nat, input: seq<Resource>,
                               output: Option<seq<Resource>>, failed: bool,
                               states: seq<seq<Resource>>, es: seq<Execution>, all: seq<Execution>)
    reads ledger
  {
    if AllCreatable(rt, fns) then
      && Ends(Turns(rt, pkg), fns, states, es, all, output, failed) && states[0] == input
      && Accounted(ledger, items, steps, executed, fns, all)
      && (failed && output.Some? ==> multiset(output.value) == multiset(ClearedAll(states[|es|])))
    else
      && failed && output == None && ledger.items == items && ledger.executed == executed
      && exists i: nat :: FirstUncreatable(rt, fns, i) &&
           ledger.mutationSteps == steps + [PreExecFailureStep(fns[i], CreationError(rt, fns[i]).value)]
  }

  /** All mutators of a package.  If one cannot even be created, nothing runs. */
  method RunMutators(rt: Runtime, pkg: string, fns: seq<Function>, ledger: Ledger, input: seq<Resource>)
    returns (output: Option<seq<Resource>>, err: Option<RunError>,
             ghost states: seq<seq<Resource>>, ghost es: seq<Execution>, ghost all: seq<Execution>)
    modifies ledger`items, ledger`mutationSteps, ledger`executed
    ensures MutatorsWent(rt, pkg, fns, ledger, old(ledger.items), old(ledger.mutationSteps), old(ledger.executed), input,
                         output, err.Some?, states, es, all)
    ensures Yield(output, err) == Mutated(rt, pkg, fns, input)
  {
    output, err := Some(input), None;
    states, es, all := [input], [], [];
    if fns == [] {
      return;
    }
    var failed := FnChain(rt, fns);
    if failed.Some? {
      FirstErrorAt(rt, fns, failed.value.0);
      var step := PreExecFailureStep(fns[failed.value.0], failed.value.1);
      ledger.mutationSteps := ledger.mutationSteps + [step];
      output, err := None, Some(OtherError(failed.value.1));
      return;
    }
    output, err, states, es, all := RunChain(rt, pkg, fns, ledger, input);
  }
}
