/** What the path check on the output of functions comes to for a whole package pipeline:
    no resource that leaves it escapes from its package, if none that enters it does. */
module PathSafety {
  import opened FunctionExecution
  import opened MutatorChain
  import opened PackagePipeline
  import opened Resources
  import opened SelectiveMutation
  import opened Sequences
  import opened Wrappers

  ghost predicate AllStay(list: seq<Resource>) {
    AllHave(StaysInPackage, list)
  }

  // ---------------------------------------------------------------- labels and clean-up

  lemma AnnotationsApart(r: Resource, id: string)
    ensures PathOf(WithId(r, id)) == PathOf(StripId(r)) == PathOf(Cleared(r)) == PathOf(r)
  {
  }

  lemma LabelledStay(list: seq<Resource>)
    requires AllStay(list)
    ensures AllStay(Labelled(list)) && AllStay(Stripped(list)) && AllStay(ClearedAll(list))
  {
    forall i | 0 <= i < |list|
      ensures StaysInPackage(Labelled(list)[i]) && StaysInPackage(Stripped(list)[i]) && StaysInPackage(ClearedAll(list)[i])
    {
      assert list[i] in list;
      AnnotationsApart(list[i], Decimal(i));
    }
  }

  lemma SelectedStay(list: seq<Resource>, selectors: seq<Selector>, exclusions: seq<Selector>)
    requires AllStay(list)
    ensures AllStay(Select(list, selectors, exclusions))
  {
    forall r | r in Select(list, selectors, exclusions) ensures StaysInPackage(r) {
      SelectCounts(list, selectors, exclusions, r);
    }
  }

  lemma AppendedStay(a: seq<Resource>, b: seq<Resource>)
    ensures AllStay(a + b) <==> AllStay(a) && AllStay(b)
  {
    assert forall r :: r in a + b <==> r in a || r in b;
  }

  lemma {:induction false} MergedStay(output: seq<Resource>, selected: seq<Resource>, list: seq<Resource>)
    requires AllStay(output) && AllStay(list)
    ensures AllStay(MergedInput(output, selected, list))
  {
    if list != [] {
      var n := |list| - 1;
      assert list[n] in list;
      MergedStay(output, selected, list[..n]);
      AppendedStay(MergedInput(output, selected, list[..n]), MergedAt(list[n], output, selected));
    }
  }

  lemma {:induction false} UnlabelledStay(list: seq<Resource>)
    requires AllStay(list)
    ensures AllStay(Unlabelled(list))
  {
    if list != [] {
      var n := |list| - 1;
      assert list[n] in list;
      UnlabelledStay(list[..n]);
    }
  }

  // ---------------------------------------------------------------- one function

  /** What a function returns has passed the check. */
  lemma ReturnedStays(rt: Runtime, pkg: string, fn: Function, config: Option<Resource>, selected: seq<Resource>)
    requires Execute(rt, pkg, fn, config, selected).Returned?
    ensures AllStay(Execute(rt, pkg, fn, config, selected).output)
  {
    hide PathsAllowed, LocationOf, AllStay;
    AllowedStays(Execute(rt, pkg, fn, config, selected).output);
  }

  lemma AllowedStays(output: seq<Resource>)
    requires PathsAllowed(LocationOf, output)
    ensures AllStay(output)
  {
    forall r | r in output ensures StaysInPackage(r) {
      var i :| 0 <= i < |output| && output[i] == r;
      assert !("../" <= LocationOf(output[i]).file);
    }
  }

  lemma OutputStays(rt: Runtime, pkg: string, fn: Function, config: Option<Resource>, selected: seq<Resource>)
    requires AllStay(selected)
    ensures AllStay(Output(Execute(rt, pkg, fn, config, selected), selected))
  {
    if Execute(rt, pkg, fn, config, selected).Returned? {
      ReturnedStays(rt, pkg, fn, config, selected);
    }
  }

  lemma ExcludedStay(pkg: string, configPath: string, input: seq<Resource>)
    requires AllStay(input)
    ensures AllStay(Exclude(pkg, configPath, input).0)
    ensures AllStay(WithConfig([], Exclude(pkg, configPath, input).1))
  {
    var (filtered, config) := Exclude(pkg, configPath, input);
    var both := WithConfig(filtered, config);
    forall r | r in both ensures StaysInPackage(r) {
      assert r in multiset(both) && r in multiset(input);
    }
    if config.Some? {
      AppendedStay(filtered, [config.value]);
    }
  }

  lemma WithConfigStays(list: seq<Resource>, config: Option<Resource>)
    requires AllStay(list) && AllStay(WithConfig([], config))
    ensures AllStay(WithConfig(list, config))
  {
    if config.Some? {
      assert [] + [config.value] == [config.value];
      AppendedStay(list, [config.value]);
    }
  }

  /** Nothing escapes by one mutator, whether it passes or fails: what was not selected,
      and the function's config, come from what went in, the rest has been checked. */
  lemma TurnStays(rt: Runtime, pkg: string, fn: Function, input: seq<Resource>)
    requires AllStay(input)
    ensures match TurnOf(rt, pkg, fn, input)
            case Advanced(resources, _) => AllStay(resources)
            case Unprepared(_) => true
            case Failed(returned, _) => AllStay(returned)
  {
    hide Exclude, TurnOn, ConfigFor;
    ExcludedStay(pkg, fn.configPath, input);
    var (filtered, config) := Exclude(pkg, fn.configPath, input);
    match ConfigFor(rt, fn, filtered, config)
    case Err(_) =>
    case Ok(fnConfig) => TurnOnStays(rt, pkg, fn, fnConfig, filtered, config);
  }

  lemma TurnOnStays(rt: Runtime, pkg: string, fn: Function, fnConfig: Option<Resource>,
                    filtered: seq<Resource>, config: Option<Resource>)
    requires AllStay(filtered) && AllStay(WithConfig([], config))
    ensures match TurnOn(rt, pkg, fn, fnConfig, filtered, config)
            case Advanced(resources, _) => AllStay(resources)
            case Unprepared(_) => true
            case Failed(returned, _) => AllStay(returned)
  {
    hide AllStay, Execute, Select, Output, WithConfig, Unlabelled, MergedInput, Passes;
    var labelled := if fn.IsSelective() then Labelled(filtered) else filtered;
    LabelledStay(filtered);
    var selected := Select(labelled, fn.selectors, fn.exclusions);
    SelectedStay(labelled, fn.selectors, fn.exclusions);
    var output := Output(Execute(rt, pkg, fn, fnConfig, selected), selected);
    OutputStays(rt, pkg, fn, fnConfig, selected);
    WithConfigStays(labelled, config);
    LabelledStay(WithConfig(labelled, config));
    MergedStay(output, selected, labelled);
    UnlabelledStay(output);
    var merged := MergedInput(output, selected, labelled) + Unlabelled(output);
    AppendedStay(MergedInput(output, selected, labelled), Unlabelled(output));
    LabelledStay(merged);
    WithConfigStays(if fn.IsSelective() then Stripped(merged) else output, config);
  }

  // ---------------------------------------------------------------- a whole pipeline

  lemma {:induction false} ChainStays(rt: Runtime, pkg: string, fns: seq<Function>, input: seq<Resource>)
    requires AllStay(input)
    ensures Chain(rt, pkg, fns, input).output.Some? ==> AllStay(Chain(rt, pkg, fns, input).output.value)
    decreases |fns|
  {
    hide TurnOf;
    if fns != [] {
      TurnStays(rt, pkg, fns[0], input);
      match TurnOf(rt, pkg, fns[0], input)
      case Advanced(resources, _) => ChainStays(rt, pkg, fns[1..], resources);
      case _ =>
    }
  }

  /** However a package's pipeline ends, no resource it hands back escapes from its package,
      if none of its input does. */
  lemma PipelineStays(rt: Runtime, pkg: string, mutators: seq<Function>, validators: seq<Function>, input: seq<Resource>)
    requires AllStay(input)
    ensures var y := Pipeline(rt, pkg, mutators, validators, input);
            y.output.Some? ==> AllStay(y.output.value)
  {
    ChainStays(rt, pkg, mutators, input);
  }
}
