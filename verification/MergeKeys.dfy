/** Merging Kptfiles: functions without names get synthetic ones for the time of the merge. */
module MergeKeys {
  import opened Wrappers

  const PREFIX := "_kpt-merge_"

  /** `config` stands for the fields that play no part here. */
  datatype Function = Function(name: string, exec: string, image: string, config: string)

  datatype Pipeline = Pipeline(mutators: seq<Function>, validators: seq<Function>)

  /** What is merged: annotations, labels, info, inventory and status are one value. */
  datatype Contents = Contents(
    name: string, namespace: string, upstream: string, upstreamLock: string, metadata: string, pipeline: Option<Pipeline>)

  // ---------------------------------------------------------------- keys

  /** What precedes the first ':', everything if there is none. */
  function BeforeColon(s: string): (r: string)
    ensures r <= s && ':' !in r
    ensures |r| < |s| ==> s[|r|] == ':'
  {
    if s == "" || s[0] == ':' then ""
    else
      assert s == [s[0]] + s[1..];
      [s[0]] + BeforeColon(s[1..])
  }

  function Key(f: Function): string {
    if f.exec != "" then f.exec else BeforeColon(f.image)
  }

  /** What may follow the repository in an image: nothing, a tag, a digest, or both. */
  predicate IsSuffix(suffix: string) {
    suffix == "" || suffix[0] == ':' || suffix[0] == '@'
  }

  /** The key of an image is its repository exactly when the repository has no colon, as
      one on a registry with a port has, and no digest follows it immediately. */
  lemma ImageKeyIsRepositoryExactly(repository: string, suffix: string)
    requires IsSuffix(suffix)
    ensures BeforeColon(repository + suffix) == repository <==>
            ':' !in repository && (suffix == "" || suffix[0] == ':')
  {
    if ':' !in repository {
      KeyWithoutPort(repository, suffix);
      if suffix != "" && suffix[0] == '@' {
        assert BeforeColon(suffix) != "";
      }
    }
  }

  lemma KeyWithoutPort(repository: string, suffix: string)
    requires ':' !in repository
    ensures BeforeColon(repository + suffix) == repository + BeforeColon(suffix)
  {
    hide BeforeColon;
    var key, rest := repository + BeforeColon(suffix), suffix[|BeforeColon(suffix)|..];
    assert suffix == BeforeColon(suffix) + rest;
    assert repository + suffix == key + rest;
    OnlyOneKey(key, rest);
  }

  lemma OnlyOneKey(key: string, rest: string)
    requires ':' !in key && (rest == "" || rest[0] == ':')
    ensures BeforeColon(key + rest) == key
  {
    hide BeforeColon;
    var s, k := key + rest, BeforeColon(key + rest);
    assert forall i :: 0 <= i < |key| ==> s[i] == key[i] != ':';
    assert forall i :: 0 <= i < |k| ==> s[i] == k[i] != ':';
    assert |key| < |s| ==> s[|key|] == ':';
    assert |k| == |key|;
    assert s[..|key|] == key && s[..|k|] == k;
  }

  /** One function, referred to by digest in one Kptfile and by tag in another, has two
      keys: it does not meet itself in the merge. */
  lemma DigestHidesRepository(repository: string, digest: string, tag: string, pinned: Function, tagged: Function)
    requires ':' !in repository && pinned.exec == tagged.exec == "" && pinned.name == tagged.name == ""
    requires pinned.image == repository + "@sha256:" + digest && tagged.image == repository + ":" + tag
    ensures Key(pinned) == repository + "@sha256" && Key(tagged) == repository
    ensures AddName(pinned).name != AddName(tagged).name
  {
    hide BeforeColon, AddName;
    assert pinned.image == (repository + "@sha256") + (":" + digest);
    assert tagged.image == repository + (":" + tag);
    OnlyOneKey(repository + "@sha256", ":" + digest);
    OnlyOneKey(repository, ":" + tag);
    assert |repository + "@sha256"| > |repository|;
    SameNameExactlyWhenSameKey(pinned, tagged);
  }

  ghost predicate Nameless(fns: seq<Function>) {
    forall i :: 0 <= i < |fns| ==> fns[i].name == ""
  }

  ghost predicate DistinctKeys(fns: seq<Function>) {
    forall i, j :: 0 <= i < j < |fns| ==> Key(fns[i]) != Key(fns[j])
  }

  ghost predicate DistinctNames(fns: seq<Function>) {
    forall i, j :: 0 <= i < j < |fns| ==> fns[i].name != fns[j].name
  }

  /** True when no function is named and none is declared twice. */
  method ShouldAddFnKeyUtil(fns: seq<Function>) returns (add: bool)
    ensures add <==> Nameless(fns) && DistinctKeys(fns)
  {
    var keys: set<string> := {};
    for i := 0 to |fns|
      invariant forall j :: 0 <= j < i ==> fns[j].name == "" && Key(fns[j]) in keys
      invariant forall j, k :: 0 <= j < k < i ==> Key(fns[j]) != Key(fns[k])
      invariant forall k :: k in keys ==> exists j :: 0 <= j < i && Key(fns[j]) == k
    {
      if fns[i].name != "" {
        return false;
      }
      var key := if fns[i].exec != "" then fns[i].exec else BeforeColon(fns[i].image);
      if key in keys {
        return false;
      }
      keys := keys + {key};
    }
    add := true;
  }

  // ---------------------------------------------------------------- adding and removing names

  function AddName(f: Function): Function {
    if f.name != "" then f else f.(name := PREFIX + Key(f))
  }

  predicate Synthetic(name: string) {
    PREFIX <= name
  }

  function RemoveName(f: Function): Function {
    if Synthetic(f.name) then f.(name := "") else f
  }

  function Map(op: Function -> Function, fns: seq<Function>): (r: seq<Function>)
    ensures |r| == |fns| && forall i :: 0 <= i < |fns| ==> r[i] == op(fns[i])
  {
    seq(|fns|, i requires 0 <= i < |fns| => op(fns[i]))
  }

  function MapPipeline(op: Function -> Function, p: Option<Pipeline>): Option<Pipeline> {
    if p.None? then None else Some(Pipeline(Map(op, p.value.mutators), Map(op, p.value.validators)))
  }

  /** Every function of a list is rewritten in its place. */
  ghost predicate Rewritten(op: Function -> Function, before: seq<Function>, after: seq<Function>) {
    |after| == |before| && forall i :: 0 <= i < |before| ==> after[i] == op(before[i])
  }

  /** Each list is rewritten and stays what it was, mutators or validators. */
  lemma RewrittenExactly(op: Function -> Function, before: Option<Pipeline>, after: Option<Pipeline>)
    ensures after == MapPipeline(op, before) <==>
            && (after.None? <==> before.None?)
            && (before.Some? && after.Some? ==>
                  && Rewritten(op, before.value.mutators, after.value.mutators)
                  && Rewritten(op, before.value.validators, after.value.validators))
  {
    if before.Some? && after.Some? && Rewritten(op, before.value.mutators, after.value.mutators)
       && Rewritten(op, before.value.validators, after.value.validators) {
      assert after.value.mutators == Map(op, before.value.mutators);
      assert after.value.validators == Map(op, before.value.validators);
    }
  }

  /** A function keeps the name it has; without one it gets its executable, or else its image
      up to the first colon, marked as synthetic; removal takes exactly such names away. */
  lemma NamesExactly(f: Function)
    ensures f.name != "" ==> AddName(f) == f
    ensures f.name == "" && f.exec != "" ==> AddName(f) == f.(name := "_kpt-merge_" + f.exec)
    ensures f.name == "" && f.exec == "" ==> AddName(f) == f.(name := "_kpt-merge_" + BeforeColon(f.image))
    ensures "_kpt-merge_" <= f.name ==> RemoveName(f) == f.(name := "")
    ensures !("_kpt-merge_" <= f.name) ==> RemoveName(f) == f
  {
  }

  /** Two unnamed functions meet in the merge exactly when they have the same key. */
  lemma SameNameExactlyWhenSameKey(f: Function, g: Function)
    requires f.name == "" && g.name == ""
    ensures AddName(f).name == AddName(g).name <==> Key(f) == Key(g)
  {
    assert AddName(f).name[|PREFIX|..] == Key(f);
    assert AddName(g).name[|PREFIX|..] == Key(g);
  }

  lemma AddedNamesAreDistinct(fns: seq<Function>)
    requires Nameless(fns)
    ensures DistinctNames(Map(AddName, fns)) <==> DistinctKeys(fns)
  {
    var named := Map(AddName, fns);
    forall i, j | 0 <= i < j < |fns| ensures named[i].name == named[j].name <==> Key(fns[i]) == Key(fns[j]) {
      SameNameExactlyWhenSameKey(fns[i], fns[j]);
    }
  }

  /** Removing undoes adding exactly when no name given by the user starts like a synthetic one. */
  lemma RemoveUndoesAddExactly(f: Function)
    ensures RemoveName(AddName(f)) == f <==> !Synthetic(f.name)
  {
    if f.name == "" {
      assert PREFIX <= PREFIX + Key(f);
      assert RemoveName(AddName(f)) == f;
    }
  }

  lemma NamelessRestored(fns: seq<Function>)
    requires Nameless(fns)
    ensures Map(RemoveName, Map(AddName, fns)) == fns
  {
    forall i | 0 <= i < |fns| ensures RemoveName(AddName(fns[i])) == fns[i] {
      RemoveUndoesAddExactly(fns[i]);
    }
  }

  ghost predicate Keyed(p: Option<Pipeline>) {
    p.Some? ==> (
      && Nameless(p.value.mutators) && DistinctKeys(p.value.mutators)
      && Nameless(p.value.validators) && DistinctKeys(p.value.validators))
  }

  lemma PipelineRestored(p: Option<Pipeline>)
    requires Keyed(p)
    ensures MapPipeline(RemoveName, MapPipeline(AddName, p)) == p
  {
    if p.Some? {
      NamelessRestored(p.value.mutators);
      NamelessRestored(p.value.validators);
    }
  }

  // ---------------------------------------------------------------- Kptfiles

  method RewriteEach(op: Function -> Function, fns: seq<Function>) returns (r: seq<Function>)
    ensures r == Map(op, fns)
  {
    r := fns;
    for i := 0 to |fns|
      invariant |r| == |fns|
      invariant forall j :: 0 <= j < |fns| ==> r[j] == if j < i then op(fns[j]) else fns[j]
    {
      r := r[i := op(r[i])];
    }
  }

  class KptFile {
    var name: string
    var namespace: string
    var upstream: string
    var upstreamLock: string
    var metadata: string
    var pipeline: Option<Pipeline>

    constructor (c: Contents)
      ensures Value() == c
    {
      name, namespace, upstream, upstreamLock := c.name, c.namespace, c.upstream, c.upstreamLock;
      metadata, pipeline := c.metadata, c.pipeline;
    }

    function Value(): Contents
      reads this
    {
      Contents(name, namespace, upstream, upstreamLock, metadata, pipeline)
    }

    method ShouldAddFnKey() returns (add: bool)
      ensures add <==> Keyed(pipeline)
    {
      add := true;
      if pipeline.Some? {
        add := ShouldAddFnKeyUtil(pipeline.value.mutators);
        if add {
          add := ShouldAddFnKeyUtil(pipeline.value.validators);
        }
      }
    }

    /** Rewrites every function of both lists. */
    method Rewrite(op: Function -> Function)
      modifies this`pipeline
      ensures pipeline == MapPipeline(op, old(pipeline))
    {
      if pipeline.None? {
        return;
      }
      var mutators := RewriteEach(op, pipeline.value.mutators);
      var validators := RewriteEach(op, pipeline.value.validators);
      pipeline := Some(Pipeline(mutators, validators));
    }
  }

  /** The library's three-way merge: local, original, updated. */
  type Merge3 = (Contents, Contents, Contents) -> Result<Contents, string>

  function Named(c: Contents, add: bool): Contents {
    if add then c.(pipeline := MapPipeline(AddName, c.pipeline)) else c
  }

  /** Names are added only if no list of any of the three files speaks against it. */
  ghost predicate AllKeyed(local: Contents, updated: Contents, original: Contents) {
    Keyed(local.pipeline) && Keyed(updated.pipeline) && Keyed(original.pipeline)
  }

  /** Names are distinct while the library merges, and gone afterwards from all four files;
      but if the merge fails they are left behind in the three given. */
  method MergeKptfiles(local: KptFile, updated: KptFile, original: KptFile, merge3: Merge3) returns (r: Result<(), string>)
    requires local != updated && local != original && updated != original
    modifies local, updated`pipeline, original`pipeline
    ensures var add := AllKeyed(old(local.Value()), old(updated.Value()), old(original.Value()));
            var merged := merge3(
              Named(old(local.Value()), add), Named(old(original.Value()), add), Named(old(updated.Value()), add));
            && (r.Ok? <==> merged.Ok?)
            && (r.Ok? ==>
                  && updated.Value() == old(updated.Value()) && original.Value() == old(original.Value())
                  && local.Value() == old(local.Value()).(
                       metadata := merged.value.metadata,
                       pipeline := if add then MapPipeline(RemoveName, merged.value.pipeline) else merged.value.pipeline))
            && (r.Err? ==>
                  && local.Value() == Named(old(local.Value()), add)
                  && updated.Value() == Named(old(updated.Value()), add)
                  && original.Value() == Named(old(original.Value()), add))
  {
    var add := local.ShouldAddFnKey();
    if add {
      add := updated.ShouldAddFnKey();
    }
    if add {
      add := original.ShouldAddFnKey();
    }
    if add {
      PipelineRestored(updated.pipeline);
      PipelineRestored(original.pipeline);
      local.Rewrite(AddName);
      updated.Rewrite(AddName);
      original.Rewrite(AddName);
    }
    var merged := merge3(local.Value(), original.Value(), updated.Value());
    if merged.Err? {
      return Err(merged.error);
    }
    var mergedKf := new KptFile(merged.value);
    if add {
      local.Rewrite(RemoveName);
      updated.Rewrite(RemoveName);
      original.Rewrite(RemoveName);
      mergedKf.Rewrite(RemoveName);
    }
    local.metadata := mergedKf.metadata;
    local.pipeline := mergedKf.pipeline;
    r := Ok(());
  }

  /** No synthetic name survives the removal, whatever the library made of the names. */
  lemma NoSyntheticNameLeft(fns: seq<Function>)
    ensures forall i :: 0 <= i < |fns| ==> !Synthetic(Map(RemoveName, fns)[i].name)
  {
  }

  /** The three files the library sees have distinct names within every list. */
  lemma MergeSeesDistinctNames(c: Contents)
    requires Keyed(c.pipeline) && c.pipeline.Some?
    ensures var named := Named(c, true).pipeline.value;
            DistinctNames(named.mutators) && DistinctNames(named.validators)
  {
    AddedNamesAreDistinct(c.pipeline.value.mutators);
    AddedNamesAreDistinct(c.pipeline.value.validators);
  }

  /** A failed merge leaves a file as it was exactly when it has no functions. */
  lemma FailureLeavesNamesBehind(c: Contents)
    requires Keyed(c.pipeline)
    ensures Named(c, true) == c <==> c.pipeline.None? || c.pipeline.value == Pipeline([], [])
  {
    if c.pipeline.Some? {
      var p := c.pipeline.value;
      if p.mutators != [] {
        assert Map(AddName, p.mutators)[0].name != p.mutators[0].name;
      } else if p.validators != [] {
        assert Map(AddName, p.validators)[0].name != p.validators[0].name;
      }
    }
  }

  /** Two images of one registry with a port count as one function declared twice. */
  lemma PortsCollide(registry: string, a: Function, b: Function)
    requires a.exec == "" && b.exec == "" && registry + ":" <= a.image && registry + ":" <= b.image
    ensures !DistinctKeys([a, b])
  {
    KeyOfPort(registry, a);
    KeyOfPort(registry, b);
    var fns := [a, b];
    assert Key(fns[0]) == Key(fns[1]);
  }

  lemma KeyOfPort(registry: string, f: Function)
    requires f.exec == "" && registry + ":" <= f.image
    ensures Key(f) == BeforeColon(registry + ":")
  {
    var rest := f.image[|registry| + 1..];
    BeforeFirstColon(registry, rest);
    assert f.image == registry + (":" + rest);
  }

  lemma {:induction false} BeforeFirstColon(registry: string, rest: string)
    ensures BeforeColon(registry + (":" + rest)) == BeforeColon(registry + ":")
  {
    if registry == "" {
    } else {
      BeforeFirstColon(registry[1..], rest);
      assert (registry + (":" + rest))[1..] == registry[1..] + (":" + rest);
      assert (registry + ":")[1..] == registry[1..] + ":";
    }
  }
}
