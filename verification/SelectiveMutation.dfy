/** Running a function on selected resources only: label every resource, select, run,
    merge the output back by label, strip the labels. */
module SelectiveMutation {
  import opened Resources

  /** The annotation that identifies a resource across a function run. */
  const RESOURCE_ID_ANNOTATION := "internal.config.kubernetes.io/kpt-resource-id"

  datatype Selector = Selector(
    apiVersion: string, kind: string, name: string, namespace: string,
    labels: map<string, string>, annotations: map<string, string>)
  {
    predicate IsEmpty() {
      this == Selector("", "", "", "", map[], map[])
    }
  }

  function ResourceId(r: Resource): string {
    Annotation(r, RESOURCE_ID_ANNOTATION)
  }

  function WithId(r: Resource, id: string): Resource {
    r.(annotations := r.annotations[RESOURCE_ID_ANNOTATION := id])
  }

  function StripId(r: Resource): Resource {
    r.(annotations := r.annotations - {RESOURCE_ID_ANNOTATION})
  }

  // ---------------------------------------------------------------- decimal labels

  function Decimal(n: nat): (s: string)
    ensures s != ""
  {
    if n < 10 then [Digit(n)] else Decimal(n / 10) + [Digit(n % 10)]
  }

  function Digit(d: nat): char
    requires d < 10
  {
    "0123456789"[d]
  }

  lemma {:induction false} DecimalInjective(m: nat, n: nat)
    requires Decimal(m) == Decimal(n)
    ensures m == n
  {
    var s, t := Decimal(m), Decimal(n);
    assert s[|s| - 1] == Digit(m % 10) && t[|t| - 1] == Digit(n % 10);
    if m >= 10 && n >= 10 {
      assert s[..|s| - 1] == Decimal(m / 10) && t[..|t| - 1] == Decimal(n / 10);
      DecimalInjective(m / 10, n / 10);
    }
  }

  // ---------------------------------------------------------------- labelling

  /** Every resource labelled with its position. */
  function Labelled(input: seq<Resource>): (labelled: seq<Resource>)
    ensures |labelled| == |input|
    ensures forall i :: 0 <= i < |input| ==> labelled[i] == WithId(input[i], Decimal(i))
  {
    seq(|input|, i requires 0 <= i < |input| => WithId(input[i], Decimal(i)))
  }

  function Stripped(input: seq<Resource>): (stripped: seq<Resource>)
    ensures |stripped| == |input|
    ensures forall i :: 0 <= i < |input| ==> stripped[i] == StripId(input[i])
  {
    seq(|input|, i requires 0 <= i < |input| => StripId(input[i]))
  }

  method SetResourceIds(input: array<Resource>)
    modifies input
    ensures input[..] == Labelled(old(input[..]))
  {
    var id := 0;
    ghost var labelled := Labelled(input[..]);
    for i := 0 to input.Length
      invariant id == i
      invariant forall j :: 0 <= j < i ==> input[j] == labelled[j]
      invariant forall j :: i <= j < input.Length ==> input[j] == old(input[j])
    {
      input[i] := WithId(input[i], Decimal(id));
      id := id + 1;
    }
  }

  method DeleteResourceIds(input: array<Resource>)
    modifies input
    ensures input[..] == Stripped(old(input[..]))
  {
    for i := 0 to input.Length
      invariant forall j :: 0 <= j < i ==> input[j] == StripId(old(input[j]))
      invariant forall j :: i <= j < input.Length ==> input[j] == old(input[j])
    {
      input[i] := StripId(input[i]);
    }
  }

  lemma LabelsIdentify(input: seq<Resource>, i: nat, j: nat)
    requires i < |input| && j < |input|
    ensures ResourceId(Labelled(input)[i]) == Decimal(i) != ""
    ensures ResourceId(Labelled(input)[i]) == ResourceId(Labelled(input)[j]) <==> i == j
  {
    if ResourceId(Labelled(input)[i]) == ResourceId(Labelled(input)[j]) {
      DecimalInjective(i, j);
    }
  }

  // ---------------------------------------------------------------- selection

  /** Every required entry is there with the required value. */
  predicate Includes(have: map<string, string>, want: map<string, string>) {
    forall k :: k in want ==> k in have && have[k] == want[k]
  }

  predicate IsMatch(r: Resource, s: Selector) {
    && (s.name == "" || s.name == r.name)
    && (s.namespace == "" || s.namespace == r.namespace)
    && (s.kind == "" || s.kind == r.kind)
    && (s.apiVersion == "" || s.apiVersion == r.apiVersion)
    && Includes(r.labels, s.labels)
    && Includes(r.annotations, s.annotations)
  }

  predicate Excluded(r: Resource, exclusions: seq<Selector>) {
    exists e :: e in exclusions && !e.IsEmpty() && IsMatch(r, e)
  }

  /** The selectors that name one thing each. */
  function ByName(name: string): Selector { Selector("", "", name, "", map[], map[]) }
  function ByNamespace(namespace: string): Selector { Selector("", "", "", namespace, map[], map[]) }
  function ByKind(kind: string): Selector { Selector("", kind, "", "", map[], map[]) }
  function ByApiVersion(apiVersion: string): Selector { Selector(apiVersion, "", "", "", map[], map[]) }
  function ByLabel(key: string, value: string): Selector { Selector("", "", "", "", map[key := value], map[]) }
  function ByAnnotation(key: string, value: string): Selector { Selector("", "", "", "", map[], map[key := value]) }

  /** What a selector asks for in a single field must be there, and asking for nothing
      matches everything. */
  lemma SingleSelectorMatches(r: Resource, value: string, key: string)
    requires value != ""
    ensures IsMatch(r, ByName(value)) <==> r.name == value
    ensures IsMatch(r, ByNamespace(value)) <==> r.namespace == value
    ensures IsMatch(r, ByKind(value)) <==> r.kind == value
    ensures IsMatch(r, ByApiVersion(value)) <==> r.apiVersion == value
    ensures IsMatch(r, ByLabel(key, value)) <==> key in r.labels && r.labels[key] == value
    ensures IsMatch(r, ByAnnotation(key, value)) <==> key in r.annotations && r.annotations[key] == value
    ensures IsMatch(r, Selector("", "", "", "", map[], map[]))
  {
    assert key in ByLabel(key, value).labels && key in ByAnnotation(key, value).annotations;
  }

  /** A selector matches exactly what everything it asks for, taken by itself, matches. */
  lemma MatchesEachPart(r: Resource, s: Selector)
    ensures IsMatch(r, s) <==>
            && IsMatch(r, ByName(s.name)) && IsMatch(r, ByNamespace(s.namespace))
            && IsMatch(r, ByKind(s.kind)) && IsMatch(r, ByApiVersion(s.apiVersion))
            && (forall k :: k in s.labels ==> IsMatch(r, ByLabel(k, s.labels[k])))
            && (forall k :: k in s.annotations ==> IsMatch(r, ByAnnotation(k, s.annotations[k])))
  {
    hide Includes;
    IncludesNothing(r.labels);
    IncludesNothing(r.annotations);
    IncludesEach(r.labels, s.labels);
    IncludesEach(r.annotations, s.annotations);
  }

  lemma IncludesNothing(have: map<string, string>)
    ensures Includes(have, map[])
  {
  }

  lemma IncludesEach(have: map<string, string>, want: map<string, string>)
    ensures Includes(have, want) <==> forall k :: k in want ==> Includes(have, map[k := want[k]])
  {
    forall k | k in want ensures Includes(have, map[k := want[k]]) <==> k in have && have[k] == want[k] {
      assert k in map[k := want[k]];
    }
  }

  /** An exclusion that asks for nothing excludes nothing; any other excludes what it
      matches; several exclude what one of them does. */
  lemma ExcludedExactly(r: Resource, e: Selector, more: seq<Selector>)
    ensures !Excluded(r, []) && !Excluded(r, [Selector("", "", "", "", map[], map[])])
    ensures e != Selector("", "", "", "", map[], map[]) ==> (Excluded(r, [e]) <==> IsMatch(r, e))
    ensures Excluded(r, [e] + more) <==> Excluded(r, [e]) || Excluded(r, more)
  {
    assert e in [e] + more && e in [e];
    assert forall x :: x in [e] + more <==> x == e || x in more;
  }

  /** How often `r` is selected: once without selectors, else once for each it matches. */
  function Multiplicity(r: Resource, selectors: seq<Selector>, exclusions: seq<Selector>): nat {
    if Excluded(r, exclusions) then 0
    else if selectors == [] then 1
    else Matches(r, selectors)
  }

  function Matches(r: Resource, selectors: seq<Selector>): nat {
    if selectors == [] then 0
    else Matches(r, selectors[..|selectors| - 1]) + if IsMatch(r, selectors[|selectors| - 1]) then 1 else 0
  }

  /** Without selectors everything that is not excluded is selected once; a selector selects
      once what it matches, and selectors add up. */
  lemma MultiplicityExactly(r: Resource, s: Selector, a: seq<Selector>, b: seq<Selector>, exclusions: seq<Selector>)
    ensures Excluded(r, exclusions) ==> Multiplicity(r, a, exclusions) == 0
    ensures !Excluded(r, exclusions) ==>
              && Multiplicity(r, [], exclusions) == 1
              && Multiplicity(r, [s], exclusions) == (if IsMatch(r, s) then 1 else 0)
              && (a != [] && b != [] ==>
                    Multiplicity(r, a + b, exclusions) == Multiplicity(r, a, exclusions) + Multiplicity(r, b, exclusions))
  {
    assert Matches(r, [s]) == Matches(r, [s][..0]) + if IsMatch(r, s) then 1 else 0;
    assert [s][..0] == [];
    MatchesAppend(r, a, b);
  }

  lemma {:induction false} MatchesAppend(r: Resource, a: seq<Selector>, b: seq<Selector>)
    ensures Matches(r, a + b) == Matches(r, a) + Matches(r, b)
  {
    if b == [] {
      assert a + b == a;
    } else {
      assert (a + b)[..|a| + |b| - 1] == a + b[..|b| - 1];
      MatchesAppend(r, a, b[..|b| - 1]);
    }
  }

  predicate Selected(r: Resource, selectors: seq<Selector>, exclusions: seq<Selector>) {
    (selectors == [] || exists s :: s in selectors && IsMatch(r, s)) && !Excluded(r, exclusions)
  }

  lemma {:induction false} MatchesSome(r: Resource, selectors: seq<Selector>)
    ensures Matches(r, selectors) > 0 <==> exists s :: s in selectors && IsMatch(r, s)
  {
    if selectors != [] {
      var n := |selectors| - 1;
      MatchesSome(r, selectors[..n]);
      assert selectors == selectors[..n] + [selectors[n]];
    }
  }

  function Copies(r: Resource, n: nat): seq<Resource> {
    seq(n, _ => r)
  }

  /** The selection: in input order, every resource as often as it is selected. */
  function Select(input: seq<Resource>, selectors: seq<Selector>, exclusions: seq<Selector>): seq<Resource> {
    if input == [] then []
    else
      var n := |input| - 1;
      Select(input[..n], selectors, exclusions) + Copies(input[n], Multiplicity(input[n], selectors, exclusions))
  }

  /** What the first loop builds: exclusions not yet applied. */
  function Candidates(input: seq<Resource>, selectors: seq<Selector>): seq<Resource> {
    if input == [] then []
    else
      var n := |input| - 1;
      Candidates(input[..n], selectors) + Copies(input[n], Matches(input[n], selectors))
  }

  function NotExcluded(input: seq<Resource>, exclusions: seq<Selector>): seq<Resource> {
    if input == [] then []
    else
      var n := |input| - 1;
      NotExcluded(input[..n], exclusions) + if Excluded(input[n], exclusions) then [] else [input[n]]
  }

  lemma {:induction false} NotExcludedAppend(a: seq<Resource>, b: seq<Resource>, exclusions: seq<Selector>)
    ensures NotExcluded(a + b, exclusions) == NotExcluded(a, exclusions) + NotExcluded(b, exclusions)
  {
    if b == [] {
      assert a + b == a;
    } else {
      var n := |b| - 1;
      assert (a + b)[..|a| + n] == a + b[..n];
      NotExcludedAppend(a, b[..n], exclusions);
    }
  }

  lemma {:induction false} NotExcludedCopies(r: Resource, n: nat, exclusions: seq<Selector>)
    ensures NotExcluded(Copies(r, n), exclusions) == if Excluded(r, exclusions) then [] else Copies(r, n)
  {
    if n > 0 {
      assert Copies(r, n)[..n - 1] == Copies(r, n - 1);
      NotExcludedCopies(r, n - 1, exclusions);
    }
  }

  lemma {:induction false} SelectInTwoSteps(input: seq<Resource>, selectors: seq<Selector>, exclusions: seq<Selector>)
    ensures Select(input, selectors, exclusions) ==
            NotExcluded(if selectors == [] then input else Candidates(input, selectors), exclusions)
  {
    if input != [] {
      var n := |input| - 1;
      SelectInTwoSteps(input[..n], selectors, exclusions);
      if selectors != [] {
        var m := Matches(input[n], selectors);
        NotExcludedAppend(Candidates(input[..n], selectors), Copies(input[n], m), exclusions);
        NotExcludedCopies(input[n], m, exclusions);
      }
    }
  }

  lemma {:induction false} NothingExcluded(input: seq<Resource>)
    ensures NotExcluded(input, []) == input
  {
    if input != [] {
      NothingExcluded(input[..|input| - 1]);
    }
  }

  lemma {:induction false} SelectAll(input: seq<Resource>)
    ensures Select(input, [], []) == input
  {
    SelectInTwoSteps(input, [], []);
    NothingExcluded(input);
  }

  method SelectInput(input: seq<Resource>, selectors: seq<Selector>, exclusions: seq<Selector>)
    returns (selected: seq<Resource>)
    ensures selected == Select(input, selectors, exclusions)
  {
    SelectInTwoSteps(input, selectors, exclusions);
    selected := input;
    if selectors != [] {
      selected := CollectMatches(input, selectors);
    }
    if exclusions == [] {
      NothingExcluded(selected);
    } else {
      selected := RemoveExcluded(selected, exclusions);
    }
  }

  method RemoveExcluded(candidates: seq<Resource>, exclusions: seq<Selector>) returns (selected: seq<Resource>)
    ensures selected == NotExcluded(candidates, exclusions)
  {
    selected := [];
    for i := 0 to |candidates|
      invariant selected == NotExcluded(candidates[..i], exclusions)
    {
      assert candidates[..i + 1][..i] == candidates[..i];
      var excluded := MatchesExclusion(candidates[i], exclusions);
      if !excluded {
        selected := selected + [candidates[i]];
      }
    }
    assert candidates[..|candidates|] == candidates;
  }

  method CollectMatches(input: seq<Resource>, selectors: seq<Selector>) returns (candidates: seq<Resource>)
    ensures candidates == Candidates(input, selectors)
  {
    candidates := [];
    for i := 0 to |input|
      invariant candidates == Candidates(input[..i], selectors)
    {
      assert input[..i + 1][..i] == input[..i];
      ghost var before := candidates;
      for j := 0 to |selectors|
        invariant candidates == before + Copies(input[i], Matches(input[i], selectors[..j]))
      {
        assert selectors[..j + 1][..j] == selectors[..j];
        if IsMatch(input[i], selectors[j]) {
          candidates := candidates + [input[i]];
        }
      }
      assert selectors[..|selectors|] == selectors;
    }
    assert input[..|input|] == input;
  }

  method MatchesExclusion(r: Resource, exclusions: seq<Selector>) returns (excluded: bool)
    ensures excluded == Excluded(r, exclusions)
  {
    for j := 0 to |exclusions|
      invariant forall k :: 0 <= k < j ==> exclusions[k].IsEmpty() || !IsMatch(r, exclusions[k])
    {
      if !exclusions[j].IsEmpty() && IsMatch(r, exclusions[j]) {
        return true;
      }
    }
    excluded := false;
  }

  /** A resource is selected as often as it occurs in the input times how often it
      matches; so it is selected at all exactly when it is there and matches. */
  lemma SelectCounts(input: seq<Resource>, selectors: seq<Selector>, exclusions: seq<Selector>, r: Resource)
    ensures multiset(Select(input, selectors, exclusions))[r] ==
            multiset(input)[r] * Multiplicity(r, selectors, exclusions)
    ensures r in Select(input, selectors, exclusions) <==> r in input && Selected(r, selectors, exclusions)
  {
    SelectCountsEach(input, selectors, exclusions, r);
    MatchesSome(r, selectors);
    assert r in Select(input, selectors, exclusions) <==> multiset(Select(input, selectors, exclusions))[r] > 0;
    assert r in input <==> multiset(input)[r] > 0;
    assert Multiplicity(r, selectors, exclusions) > 0 <==> Selected(r, selectors, exclusions);
  }

  lemma {:induction false} SelectCountsEach(input: seq<Resource>, selectors: seq<Selector>, exclusions: seq<Selector>, r: Resource)
    ensures multiset(Select(input, selectors, exclusions))[r] ==
            multiset(input)[r] * Multiplicity(r, selectors, exclusions)
  {
    if input != [] {
      var n := |input| - 1;
      SelectCountsEach(input[..n], selectors, exclusions, r);
      CopiesCount(input[n], Multiplicity(input[n], selectors, exclusions), r);
      OneMoreOccurrence(input, r);
      if input[n] == r {
        OneMoreTimes(multiset(input[..n])[r], Multiplicity(r, selectors, exclusions));
      }
    }
  }

  lemma OneMoreOccurrence(input: seq<Resource>, r: Resource)
    requires input != []
    ensures multiset(input)[r] == multiset(input[..|input| - 1])[r] + if input[|input| - 1] == r then 1 else 0
  {
    assert input == input[..|input| - 1] + [input[|input| - 1]];
  }

  lemma OneMoreTimes(c: nat, m: nat)
    ensures (c + 1) * m == c * m + m
  {
  }

  lemma {:induction false} CopiesCount(r: Resource, n: nat, x: Resource)
    ensures multiset(Copies(r, n))[x] == if x == r then n else 0
    ensures x in Copies(r, n) <==> x == r && n > 0
  {
    if n > 0 {
      assert Copies(r, n) == Copies(r, n - 1) + [r];
      CopiesCount(r, n - 1, x);
    }
  }

  // ---------------------------------------------------------------- merging

  predicate PresentIn(r: Resource, list: seq<Resource>) {
    exists i :: 0 <= i < |list| && ResourceId(list[i]) == ResourceId(r)
  }

  /** The first resource with that id. */
  function NodeWithResourceId(id: string, list: seq<Resource>): (r: Resource)
    requires exists i :: 0 <= i < |list| && ResourceId(list[i]) == id
    ensures r in list && ResourceId(r) == id
  {
    if ResourceId(list[0]) == id then list[0] else NodeWithResourceId(id, list[1..])
  }

  function MergedAt(r: Resource, output: seq<Resource>, selected: seq<Resource>): seq<Resource> {
    if !PresentIn(r, selected) then [r]
    else if PresentIn(r, output) then [NodeWithResourceId(ResourceId(r), output)]
    else []
  }

  function MergedInput(output: seq<Resource>, selected: seq<Resource>, input: seq<Resource>): seq<Resource> {
    if input == [] then []
    else
      var n := |input| - 1;
      MergedInput(output, selected, input[..n]) + MergedAt(input[n], output, selected)
  }

  function Unlabelled(list: seq<Resource>): seq<Resource> {
    if list == [] then []
    else
      var n := |list| - 1;
      Unlabelled(list[..n]) + if ResourceId(list[n]) == "" then [list[n]] else []
  }

  /** What a function generated without a label is appended, every copy of it. */
  lemma {:induction false} UnlabelledExactly(list: seq<Resource>, r: Resource)
    ensures multiset(Unlabelled(list))[r] == if Annotation(r, RESOURCE_ID_ANNOTATION) == "" then multiset(list)[r] else 0
  {
    if list != [] {
      var n := |list| - 1;
      UnlabelledExactly(list[..n], r);
      OneMoreOccurrence(list, r);
    }
  }

  /** What comes out of a merge: the input that was not selected, of every selected label the
      first output, and the unlabelled output.  Output with a label of no input is lost. */
  lemma MergedExactly(output: seq<Resource>, selected: seq<Resource>, input: seq<Resource>, r: Resource)
    ensures r in MergedInput(output, selected, input) + Unlabelled(output) <==>
            || (r in input && !SameLabelIn(r, selected))
            || (exists x :: x in input && SameLabelIn(x, selected) && FirstWithLabel(output, ResourceId(x), r))
            || (r in output && ResourceId(r) == "")
  {
    MergedMember(output, selected, input, r);
    UnlabelledExactly(output, r);
    assert r in Unlabelled(output) <==> multiset(Unlabelled(output))[r] > 0;
    assert r in output <==> multiset(output)[r] > 0;
  }

  ghost predicate SameLabelIn(r: Resource, list: seq<Resource>) {
    exists x :: x in list && ResourceId(x) == ResourceId(r)
  }

  ghost predicate FirstWithLabel(list: seq<Resource>, id: string, r: Resource) {
    exists i :: 0 <= i < |list| && list[i] == r && ResourceId(r) == id && forall j :: 0 <= j < i ==> ResourceId(list[j]) != id
  }

  lemma {:induction false} MergedMember(output: seq<Resource>, selected: seq<Resource>, input: seq<Resource>, r: Resource)
    ensures r in MergedInput(output, selected, input) <==>
            || (r in input && !SameLabelIn(r, selected))
            || (exists x :: x in input && SameLabelIn(x, selected) && FirstWithLabel(output, ResourceId(x), r))
  {
    if input != [] {
      var n := |input| - 1;
      hide MergedAt, SameLabelIn, FirstWithLabel, ResourceId, PresentIn;
      MergedMember(output, selected, input[..n], r);
      MergedAtMember(output, selected, input[n], r);
      assert input == input[..n] + [input[n]];
    }
  }

  lemma MergedAtMember(output: seq<Resource>, selected: seq<Resource>, x: Resource, r: Resource)
    ensures r in MergedAt(x, output, selected) <==>
            if SameLabelIn(x, selected) then FirstWithLabel(output, ResourceId(x), r) else r == x
  {
    assert PresentIn(x, selected) <==> SameLabelIn(x, selected) by {
      if y :| y in selected && ResourceId(y) == ResourceId(x) {
        var i :| 0 <= i < |selected| && selected[i] == y;
      }
    }
    if PresentIn(x, output) {
      FirstIsNode(output, ResourceId(x), r);
    }
  }

  lemma {:induction false} FirstIsNode(list: seq<Resource>, id: string, r: Resource)
    requires exists i :: 0 <= i < |list| && ResourceId(list[i]) == id
    ensures FirstWithLabel(list, id, r) <==> r == NodeWithResourceId(id, list)
  {
    if ResourceId(list[0]) == id {
      assert FirstWithLabel(list, id, list[0]);
    } else {
      FirstIsNode(list[1..], id, r);
      FirstBehind(list, id, r);
    }
  }

  lemma FirstBehind(list: seq<Resource>, id: string, r: Resource)
    requires list != [] && ResourceId(list[0]) != id
    ensures FirstWithLabel(list, id, r) <==> FirstWithLabel(list[1..], id, r)
  {
    if FirstWithLabel(list, id, r) {
      var i :| 0 <= i < |list| && list[i] == r && ResourceId(r) == id && forall j :: 0 <= j < i ==> ResourceId(list[j]) != id;
      assert list[1..][i - 1] == r;
      assert forall j :: 0 <= j < i - 1 ==> list[1..][j] == list[j + 1];
    }
    if FirstWithLabel(list[1..], id, r) {
      var i :| 0 <= i < |list[1..]| && list[1..][i] == r && ResourceId(r) == id &&
        forall j :: 0 <= j < i ==> ResourceId(list[1..][j]) != id;
      assert list[i + 1] == r;
      forall j | 0 <= j < i + 1 ensures ResourceId(list[j]) != id {
        assert j > 0 ==> list[1..][j - 1] == list[j];
      }
    }
  }

  method MergeWithInput(output: seq<Resource>, selected: seq<Resource>, input: seq<Resource>)
    returns (result: seq<Resource>)
    ensures result == MergedInput(output, selected, input) + Unlabelled(output)
  {
    hide NodeWithResourceId, ResourceId;
    result := [];
    for i := 0 to |input|
      invariant result == MergedInput(output, selected, input[..i])
    {
      assert input[..i + 1][..i] == input[..i];
      if !PresentIn(input[i], selected) {
        result := result + [input[i]];
      } else if PresentIn(input[i], output) {
        result := result + [NodeWithResourceId(ResourceId(input[i]), output)];
      }
    }
    assert input[..|input|] == input;
    for i := 0 to |output|
      invariant result == MergedInput(output, selected, input) + Unlabelled(output[..i])
    {
      assert output[..i + 1][..i] == output[..i];
      if ResourceId(output[i]) == "" {
        result := result + [output[i]];
      }
    }
    assert output[..|output|] == output;
  }

  // ---------------------------------------------------------------- the refinement

  /** What a per-resource function makes of a resource. */
  datatype Fate = Deleted | Became(r: Resource)

  /** It does not change the id of any selected resource that it keeps. */
  ghost predicate KeepsIds(f: Resource -> Fate, selected: seq<Resource>) {
    forall r :: r in selected && f(r).Became? ==> ResourceId(f(r).r) == ResourceId(r)
  }

  /** `output` is what a function may return that treats every selected resource as `f`
      says, in any order and any number of copies, and generates unlabelled ones. */
  ghost predicate Treats(f: Resource -> Fate, selected: seq<Resource>, output: seq<Resource>) {
    && (forall r :: r in selected && f(r).Became? ==> f(r).r in output)
    && (forall o :: o in output ==> ResourceId(o) == "" || exists r :: r in selected && f(r) == Became(o))
  }

  /** What becomes of one labelled resource. */
  function Effect(f: Resource -> Fate, r: Resource, selectors: seq<Selector>, exclusions: seq<Selector>): seq<Resource> {
    if !Selected(r, selectors, exclusions) then [StripId(r)]
    else match f(r) case Deleted => [] case Became(o) => [StripId(o)]
  }

  /** The simple form: go through the input once, apply `f` to what is selected. */
  function Pointwise(f: Resource -> Fate, input: seq<Resource>, selectors: seq<Selector>, exclusions: seq<Selector>): seq<Resource> {
    if input == [] then []
    else
      var n := |input| - 1;
      Pointwise(f, input[..n], selectors, exclusions) + Effect(f, WithId(input[n], Decimal(n)), selectors, exclusions)
  }

  lemma StrippedAppend(a: seq<Resource>, b: seq<Resource>)
    ensures Stripped(a + b) == Stripped(a) + Stripped(b)
  {
  }

  /** Label, select, run, merge, strip: the same as applying the function to the selected
      resources alone, in place, and appending what it generates. */
  lemma SelectiveMutationRefinesPointwise(f: Resource -> Fate, input: seq<Resource>,
                                          selectors: seq<Selector>, exclusions: seq<Selector>, output: seq<Resource>)
    requires KeepsIds(f, Select(Labelled(input), selectors, exclusions))
    requires Treats(f, Select(Labelled(input), selectors, exclusions), output)
    ensures var selected := Select(Labelled(input), selectors, exclusions);
            Stripped(MergedInput(output, selected, Labelled(input)) + Unlabelled(output)) ==
            Pointwise(f, input, selectors, exclusions) + Stripped(Unlabelled(output))
  {
    var labelled, selected := Labelled(input), Select(Labelled(input), selectors, exclusions);
    StrippedAppend(MergedInput(output, selected, labelled), Unlabelled(output));
    forall i | 0 <= i < |input|
      ensures Stripped(MergedAt(labelled[i], output, selected)) == Effect(f, labelled[i], selectors, exclusions)
    {
      MergedOne(f, input, selectors, exclusions, output, i);
    }
    MergedEach(f, labelled, selectors, exclusions, output, selected);
    EffectsOfLabelled(f, input, selectors, exclusions);
  }

  /** The effects on a list of labelled resources, one after the other. */
  function Effects(f: Resource -> Fate, list: seq<Resource>, selectors: seq<Selector>, exclusions: seq<Selector>): seq<Resource> {
    if list == [] then []
    else
      var n := |list| - 1;
      Effects(f, list[..n], selectors, exclusions) + Effect(f, list[n], selectors, exclusions)
  }

  lemma {:induction false} EffectsOfLabelled(f: Resource -> Fate, input: seq<Resource>,
                                             selectors: seq<Selector>, exclusions: seq<Selector>)
    ensures Effects(f, Labelled(input), selectors, exclusions) == Pointwise(f, input, selectors, exclusions)
  {
    if input != [] {
      var n := |input| - 1;
      EffectsOfLabelled(f, input[..n], selectors, exclusions);
      assert Labelled(input)[..n] == Labelled(input[..n]);
    }
  }

  lemma {:induction false} MergedEach(f: Resource -> Fate, list: seq<Resource>, selectors: seq<Selector>, exclusions: seq<Selector>,
                                      output: seq<Resource>, selected: seq<Resource>)
    requires forall i :: 0 <= i < |list| ==>
               Stripped(MergedAt(list[i], output, selected)) == Effect(f, list[i], selectors, exclusions)
    ensures Stripped(MergedInput(output, selected, list)) == Effects(f, list, selectors, exclusions)
  {
    if list != [] {
      var n := |list| - 1;
      MergedEach(f, list[..n], selectors, exclusions, output, selected);
      StrippedAppend(MergedInput(output, selected, list[..n]), MergedAt(list[n], output, selected));
    }
  }

  lemma MergedOne(f: Resource -> Fate, input: seq<Resource>,
                  selectors: seq<Selector>, exclusions: seq<Selector>, output: seq<Resource>, i: nat)
    requires KeepsIds(f, Select(Labelled(input), selectors, exclusions))
    requires Treats(f, Select(Labelled(input), selectors, exclusions), output) && i < |input|
    ensures var r := Labelled(input)[i];
            Stripped(MergedAt(r, output, Select(Labelled(input), selectors, exclusions))) == Effect(f, r, selectors, exclusions)
  {
    var r, selected := Labelled(input)[i], Select(Labelled(input), selectors, exclusions);
    SelectCounts(Labelled(input), selectors, exclusions, r);
    LabelsIdentify(input, i, i);
    LabelIsUnique(input, selectors, exclusions, i);
    if r in selected {
      MergedKept(f, r, output, selected);
    } else {
      MergedUnselected(r, output, selected);
    }
  }

  lemma MergedUnselected(r: Resource, output: seq<Resource>, selected: seq<Resource>)
    requires r !in selected && forall x :: x in selected && ResourceId(x) == ResourceId(r) ==> x == r
    ensures MergedAt(r, output, selected) == [r] && Stripped(MergedAt(r, output, selected)) == [StripId(r)]
  {
  }

  /** Of the selected resources only the `i`-th itself carries its label. */
  lemma LabelIsUnique(input: seq<Resource>, selectors: seq<Selector>, exclusions: seq<Selector>, i: nat)
    requires i < |input|
    ensures var r, selected := Labelled(input)[i], Select(Labelled(input), selectors, exclusions);
            forall x :: x in selected && ResourceId(x) == ResourceId(r) ==> x == r
  {
    var labelled := Labelled(input);
    var r, selected := labelled[i], Select(labelled, selectors, exclusions);
    forall x | x in selected && ResourceId(x) == ResourceId(r) ensures x == r {
      SelectCounts(labelled, selectors, exclusions, x);
      var j :| 0 <= j < |labelled| && labelled[j] == x;
      LabelsIdentify(input, i, j);
    }
  }

  lemma MergedKept(f: Resource -> Fate, r: Resource, output: seq<Resource>, selected: seq<Resource>)
    requires KeepsIds(f, selected) && Treats(f, selected, output) && r in selected && ResourceId(r) != ""
    requires forall x :: x in selected && ResourceId(x) == ResourceId(r) ==> x == r
    ensures Stripped(MergedAt(r, output, selected)) == match f(r) case Deleted => [] case Became(o) => [StripId(o)]
  {
    var j :| 0 <= j < |selected| && selected[j] == r;
    assert PresentIn(r, selected);
    if f(r).Became? {
      var k :| 0 <= k < |output| && output[k] == f(r).r;
      assert PresentIn(r, output);
    }
  }

  function Keep(r: Resource): Fate {
    Became(r)
  }

  /** A skipped function, which returns its selection as it is, changes nothing, however
      often selectors overlap. */
  lemma SkippedChangesNothing(input: seq<Resource>, selectors: seq<Selector>, exclusions: seq<Selector>)
    requires forall i :: 0 <= i < |input| ==> RESOURCE_ID_ANNOTATION !in input[i].annotations
    ensures var selected := Select(Labelled(input), selectors, exclusions);
            Stripped(MergedInput(selected, selected, Labelled(input)) + Unlabelled(selected)) == input
  {
    var labelled := Labelled(input);
    var selected := Select(labelled, selectors, exclusions);
    SelectiveMutationRefinesPointwise(Keep, input, selectors, exclusions, selected);
    PointwiseIdentity(input, selectors, exclusions);
    SelectedAreLabelled(input, selectors, exclusions);
    NoneUnlabelled(selected);
  }

  lemma SelectedAreLabelled(input: seq<Resource>, selectors: seq<Selector>, exclusions: seq<Selector>)
    ensures forall r :: r in Select(Labelled(input), selectors, exclusions) ==> ResourceId(r) != ""
  {
    var labelled := Labelled(input);
    forall r | r in Select(labelled, selectors, exclusions) ensures ResourceId(r) != "" {
      SelectCounts(labelled, selectors, exclusions, r);
      var j :| 0 <= j < |labelled| && labelled[j] == r;
      LabelsIdentify(input, j, j);
    }
  }

  lemma {:induction false} NoneUnlabelled(list: seq<Resource>)
    requires forall r :: r in list ==> ResourceId(r) != ""
    ensures Unlabelled(list) == []
  {
    if list != [] {
      assert list[|list| - 1] in list;
      NoneUnlabelled(list[..|list| - 1]);
    }
  }

  lemma {:induction false} PointwiseIdentity(input: seq<Resource>, selectors: seq<Selector>, exclusions: seq<Selector>)
    requires forall i :: 0 <= i < |input| ==> RESOURCE_ID_ANNOTATION !in input[i].annotations
    ensures Pointwise(Keep, input, selectors, exclusions) == input
  {
    if input != [] {
      PointwiseIdentity(input[..|input| - 1], selectors, exclusions);
      KeepsLast(input, selectors, exclusions);
    }
  }

  lemma KeepsLast(input: seq<Resource>, selectors: seq<Selector>, exclusions: seq<Selector>)
    requires input != [] && RESOURCE_ID_ANNOTATION !in input[|input| - 1].annotations
    requires Pointwise(Keep, input[..|input| - 1], selectors, exclusions) == input[..|input| - 1]
    ensures Pointwise(Keep, input, selectors, exclusions) == input
  {
    hide *;
    var n := |input| - 1;
    PointwiseUnfolds(Keep, input, selectors, exclusions);
    EffectOfKeep(input[n], Decimal(n), selectors, exclusions);
    assert input == input[..n] + [input[n]];
  }

  lemma PointwiseUnfolds(f: Resource -> Fate, input: seq<Resource>, selectors: seq<Selector>, exclusions: seq<Selector>)
    requires input != []
    ensures var n := |input| - 1;
            Pointwise(f, input, selectors, exclusions) ==
            Pointwise(f, input[..n], selectors, exclusions) + Effect(f, WithId(input[n], Decimal(n)), selectors, exclusions)
  {
  }

  lemma EffectOfKeep(r: Resource, id: string, selectors: seq<Selector>, exclusions: seq<Selector>)
    requires RESOURCE_ID_ANNOTATION !in r.annotations
    ensures Effect(Keep, WithId(r, id), selectors, exclusions) == [r]
  {
    StripUndoesLabel(r, id);
  }

  lemma StripUndoesLabel(r: Resource, id: string)
    requires RESOURCE_ID_ANNOTATION !in r.annotations
    ensures StripId(WithId(r, id)) == r
  {
  }

  // ---------------------------------------------------------------- overlapping selectors

  /** Where a resource is kept: package, cleaned file path, index within the file. */
  datatype Location = Location(pkg: string, file: string, index: string)

  predicate PathsAllowed(locate: Resource -> Location, nodes: seq<Resource>) {
    && (forall i :: 0 <= i < |nodes| ==> !("../" <= locate(nodes[i]).file))
    && (forall i, j :: 0 <= i < j < |nodes| ==> locate(nodes[i]) != locate(nodes[j]))
  }

  /** No resource outside its package, no two in the same place. */
  method EnforcePathInvariants(locate: Resource -> Location, nodes: seq<Resource>) returns (ok: bool)
    ensures ok <==> PathsAllowed(locate, nodes)
  {
    var seen := {};
    for i := 0 to |nodes|
      invariant PathsAllowed(locate, nodes[..i])
      invariant forall l :: l in seen <==> exists j :: 0 <= j < i && locate(nodes[j]) == l
    {
      var l := locate(nodes[i]);
      if "../" <= l.file || l in seen {
        return false;
      }
      seen := seen + {l};
    }
    assert nodes[..|nodes|] == nodes;
    ok := true;
  }

  /** What a function returns that treats every selected resource, one by one, as `f` says. */
  function Mapped(f: Resource -> Fate, selected: seq<Resource>): seq<Resource> {
    if selected == [] then []
    else
      var n := |selected| - 1;
      Mapped(f, selected[..n]) + match f(selected[n]) case Deleted => [] case Became(o) => [o]
  }

  /** `f` keeps the `i`-th resource, which is selected. */
  predicate Kept(f: Resource -> Fate, list: seq<Resource>, selectors: seq<Selector>, exclusions: seq<Selector>, i: nat)
    requires i < |list|
  {
    f(list[i]).Became? && Multiplicity(list[i], selectors, exclusions) > 0
  }

  ghost predicate KeptInside(f: Resource -> Fate, locate: Resource -> Location, list: seq<Resource>,
                             selectors: seq<Selector>, exclusions: seq<Selector>) {
    forall i :: 0 <= i < |list| && Kept(f, list, selectors, exclusions, i) ==> !("../" <= locate(f(list[i]).r).file)
  }

  ghost predicate KeptApart(f: Resource -> Fate, locate: Resource -> Location, list: seq<Resource>,
                            selectors: seq<Selector>, exclusions: seq<Selector>) {
    forall i, j ::
      0 <= i < j < |list| && Kept(f, list, selectors, exclusions, i) && Kept(f, list, selectors, exclusions, j) ==>
      locate(f(list[i]).r) != locate(f(list[j]).r)
  }

  /** No resource that is kept is selected more than once. */
  ghost predicate KeptOnce(f: Resource -> Fate, list: seq<Resource>, selectors: seq<Selector>, exclusions: seq<Selector>) {
    forall i :: 0 <= i < |list| && f(list[i]).Became? ==> Multiplicity(list[i], selectors, exclusions) <= 1
  }

  lemma {:induction false} MappedAppend(f: Resource -> Fate, a: seq<Resource>, b: seq<Resource>)
    ensures Mapped(f, a + b) == Mapped(f, a) + Mapped(f, b)
  {
    if b == [] {
      assert a + b == a;
    } else {
      var n := |b| - 1;
      assert (a + b)[..|a| + n] == a + b[..n];
      MappedAppend(f, a, b[..n]);
    }
  }

  lemma {:induction false} MappedCopies(f: Resource -> Fate, r: Resource, n: nat)
    ensures Mapped(f, Copies(r, n)) == if f(r).Became? then Copies(f(r).r, n) else []
  {
    if n > 0 {
      assert Copies(r, n)[..n - 1] == Copies(r, n - 1);
      MappedCopies(f, r, n - 1);
    }
  }

  /** What comes out of the first `n` resources. */
  lemma MappedStep(f: Resource -> Fate, list: seq<Resource>, selectors: seq<Selector>, exclusions: seq<Selector>)
    requires list != []
    ensures var r := list[|list| - 1];
            Mapped(f, Select(list, selectors, exclusions)) ==
            Mapped(f, Select(list[..|list| - 1], selectors, exclusions))
              + if f(r).Became? then Copies(f(r).r, Multiplicity(r, selectors, exclusions)) else []
  {
    var r := list[|list| - 1];
    MappedAppend(f, Select(list[..|list| - 1], selectors, exclusions), Copies(r, Multiplicity(r, selectors, exclusions)));
    MappedCopies(f, r, Multiplicity(r, selectors, exclusions));
  }

  lemma {:induction false} MappedMember(f: Resource -> Fate, list: seq<Resource>,
                                        selectors: seq<Selector>, exclusions: seq<Selector>, x: Resource)
    ensures x in Mapped(f, Select(list, selectors, exclusions)) <==>
            exists i :: 0 <= i < |list| && Kept(f, list, selectors, exclusions, i) && f(list[i]).r == x
  {
    if list != [] {
      MappedMember(f, list[..|list| - 1], selectors, exclusions, x);
      MappedMemberStep(f, list, selectors, exclusions, x);
      KeptEarlierOrLast(f, list, selectors, exclusions, x);
    }
  }

  lemma MappedMemberStep(f: Resource -> Fate, list: seq<Resource>,
                         selectors: seq<Selector>, exclusions: seq<Selector>, x: Resource)
    requires list != []
    ensures x in Mapped(f, Select(list, selectors, exclusions)) <==>
            || x in Mapped(f, Select(list[..|list| - 1], selectors, exclusions))
            || (Kept(f, list, selectors, exclusions, |list| - 1) && f(list[|list| - 1]).r == x)
  {
    var r := list[|list| - 1];
    MappedStep(f, list, selectors, exclusions);
    if f(r).Became? {
      CopiesCount(f(r).r, Multiplicity(r, selectors, exclusions), x);
    }
  }

  lemma KeptEarlierOrLast(f: Resource -> Fate, list: seq<Resource>,
                          selectors: seq<Selector>, exclusions: seq<Selector>, x: Resource)
    requires list != []
    ensures var n := |list| - 1;
            (exists i :: 0 <= i < |list| && Kept(f, list, selectors, exclusions, i) && f(list[i]).r == x) <==>
            || (exists i :: 0 <= i < n && Kept(f, list[..n], selectors, exclusions, i) && f(list[..n][i]).r == x)
            || (Kept(f, list, selectors, exclusions, n) && f(list[n]).r == x)
  {
    var n := |list| - 1;
    assert forall i :: 0 <= i < n ==> Kept(f, list[..n], selectors, exclusions, i) == Kept(f, list, selectors, exclusions, i);
  }

  /** Adding `n` copies of `o` is allowed if it is no copy at all, or one in a place of its own. */
  lemma AllowedWithCopies(locate: Resource -> Location, s: seq<Resource>, o: Resource, n: nat)
    ensures PathsAllowed(locate, s + Copies(o, n)) <==>
            && PathsAllowed(locate, s) && n <= 1
            && (n == 1 ==> !("../" <= locate(o).file) && NoneAt(locate, s, o))
  {
    var t := s + Copies(o, n);
    if n == 0 {
      assert t == s;
    } else if n == 1 {
      assert t == s + [o];
      AllowedWithOne(locate, s, o);
    } else {
      assert t[|s|] == t[|s| + 1] == o;
    }
  }

  lemma AllowedWithOne(locate: Resource -> Location, s: seq<Resource>, o: Resource)
    ensures PathsAllowed(locate, s + [o]) <==>
            PathsAllowed(locate, s) && !("../" <= locate(o).file) && NoneAt(locate, s, o)
  {
    var t := s + [o];
    assert t[|s|] == o;
    assert forall i :: 0 <= i < |s| ==> t[i] == s[i];
    if PathsAllowed(locate, t) {
      forall x | x in s ensures locate(x) != locate(o) {
        var i :| 0 <= i < |s| && s[i] == x;
        assert locate(t[i]) != locate(t[|s|]);
      }
    }
  }

  /** What a function returns that treats the selected resources one by one is accepted
      exactly when everything it keeps lies inside its package, in a place of its own, and
      was selected once. */
  lemma {:induction false} AcceptedExactly(f: Resource -> Fate, locate: Resource -> Location, list: seq<Resource>,
                                           selectors: seq<Selector>, exclusions: seq<Selector>)
    ensures PathsAllowed(locate, Mapped(f, Select(list, selectors, exclusions))) <==>
            && KeptInside(f, locate, list, selectors, exclusions)
            && KeptApart(f, locate, list, selectors, exclusions)
            && KeptOnce(f, list, selectors, exclusions)
  {
    if list != [] {
      var n := |list| - 1;
      AcceptedExactly(f, locate, list[..n], selectors, exclusions);
      AcceptedStep(f, locate, list, selectors, exclusions);
      PrefixConditions(f, locate, list, selectors, exclusions);
    }
  }

  /** Nothing kept of the resources before the last is in the place of `o`. */
  ghost predicate FreePlace(f: Resource -> Fate, locate: Resource -> Location, list: seq<Resource>,
                            selectors: seq<Selector>, exclusions: seq<Selector>, o: Resource) {
    forall i :: 0 <= i < |list| - 1 && Kept(f, list, selectors, exclusions, i) ==> locate(f(list[i]).r) != locate(o)
  }

  ghost predicate NoneAt(locate: Resource -> Location, nodes: seq<Resource>, o: Resource) {
    forall x :: x in nodes ==> locate(x) != locate(o)
  }

  /** The last resource can be added to what the others leave. */
  ghost predicate LastFits(f: Resource -> Fate, locate: Resource -> Location, list: seq<Resource>,
                           selectors: seq<Selector>, exclusions: seq<Selector>)
    requires list != []
  {
    var r := list[|list| - 1];
    var m := Multiplicity(r, selectors, exclusions);
    f(r).Became? ==>
      m <= 1 && (m == 1 ==> !("../" <= locate(f(r).r).file) && FreePlace(f, locate, list, selectors, exclusions, f(r).r))
  }

  lemma AcceptedStep(f: Resource -> Fate, locate: Resource -> Location, list: seq<Resource>,
                     selectors: seq<Selector>, exclusions: seq<Selector>)
    requires list != []
    ensures PathsAllowed(locate, Mapped(f, Select(list, selectors, exclusions))) <==>
            && PathsAllowed(locate, Mapped(f, Select(list[..|list| - 1], selectors, exclusions)))
            && LastFits(f, locate, list, selectors, exclusions)
  {
    var n := |list| - 1;
    var before, r := Mapped(f, Select(list[..n], selectors, exclusions)), list[n];
    MappedStep(f, list, selectors, exclusions);
    if f(r).Became? {
      AllowedWithCopies(locate, before, f(r).r, Multiplicity(r, selectors, exclusions));
      ApartFromBefore(f, locate, list, selectors, exclusions, f(r).r);
    } else {
      assert before + [] == before;
    }
  }

  /** A place is free in the output so far exactly when nothing kept so far is there. */
  lemma ApartFromBefore(f: Resource -> Fate, locate: Resource -> Location, list: seq<Resource>,
                        selectors: seq<Selector>, exclusions: seq<Selector>, o: Resource)
    requires list != []
    ensures NoneAt(locate, Mapped(f, Select(list[..|list| - 1], selectors, exclusions)), o) <==>
            FreePlace(f, locate, list, selectors, exclusions, o)
  {
    var n := |list| - 1;
    var before := Mapped(f, Select(list[..n], selectors, exclusions));
    assert forall i :: 0 <= i < n ==> Kept(f, list[..n], selectors, exclusions, i) == Kept(f, list, selectors, exclusions, i);
    forall x | x in before
      ensures exists i :: 0 <= i < n && Kept(f, list, selectors, exclusions, i) && f(list[i]).r == x
    {
      MappedMember(f, list[..n], selectors, exclusions, x);
    }
    forall i | 0 <= i < n && Kept(f, list, selectors, exclusions, i) ensures f(list[i]).r in before {
      MappedMember(f, list[..n], selectors, exclusions, f(list[i]).r);
      assert Kept(f, list[..n], selectors, exclusions, i);
    }
  }

  lemma PrefixConditions(f: Resource -> Fate, locate: Resource -> Location, list: seq<Resource>,
                         selectors: seq<Selector>, exclusions: seq<Selector>)
    requires list != []
    ensures var front := list[..|list| - 1];
            && KeptInside(f, locate, list, selectors, exclusions)
            && KeptApart(f, locate, list, selectors, exclusions)
            && KeptOnce(f, list, selectors, exclusions) <==>
            && KeptInside(f, locate, front, selectors, exclusions)
            && KeptApart(f, locate, front, selectors, exclusions)
            && KeptOnce(f, front, selectors, exclusions)
            && LastFits(f, locate, list, selectors, exclusions)
  {
    var n := |list| - 1;
    assert forall i :: 0 <= i < n ==> list[..n][i] == list[i];
    assert forall i :: 0 <= i < n ==> Kept(f, list[..n], selectors, exclusions, i) == Kept(f, list, selectors, exclusions, i);
  }

  /** A resource that two selectors match is handed over twice, and a function that keeps
      it is then rejected: its output holds two resources in one place. */
  lemma OverlappingSelectorsAreRejected(f: Resource -> Fate, locate: Resource -> Location, input: seq<Resource>, i: nat,
                                        selectors: seq<Selector>, exclusions: seq<Selector>)
    requires i < |input| && Multiplicity(Labelled(input)[i], selectors, exclusions) > 1
    requires f(Labelled(input)[i]).Became?
    ensures !PathsAllowed(locate, Mapped(f, Select(Labelled(input), selectors, exclusions)))
  {
    AcceptedExactly(f, locate, Labelled(input), selectors, exclusions);
  }

  /** Where a function keeps what it keeps inside the packages and apart, overlapping
      selectors alone decide: its output is accepted exactly when no resource it keeps is
      matched by two of them. */
  lemma OverlapAloneDecides(f: Resource -> Fate, locate: Resource -> Location, input: seq<Resource>,
                            selectors: seq<Selector>, exclusions: seq<Selector>)
    requires KeptInside(f, locate, Labelled(input), selectors, exclusions)
    requires KeptApart(f, locate, Labelled(input), selectors, exclusions)
    ensures PathsAllowed(locate, Mapped(f, Select(Labelled(input), selectors, exclusions))) <==>
            forall i :: 0 <= i < |input| && f(Labelled(input)[i]).Became? ==>
              Multiplicity(Labelled(input)[i], selectors, exclusions) <= 1
  {
    AcceptedExactly(f, locate, Labelled(input), selectors, exclusions);
  }
}
