/** The structural difference of two JSON-like values, as shown in a plan. */
module StructuralDiff {
  import opened Sequences
  import opened Wrappers

  datatype Value =
    | Null
    | Bool(b: bool)
    | Number(n: int)
    | Text(s: string)
    | Arr(elems: seq<Value>)
    | Obj(fields: map<string, Value>)

  /** One step of a path.  (The rendering of a path with dots loses this structure.) */
  datatype Step = Key(k: string) | Index(i: nat)

  type Path = seq<Step>

  datatype Diff =
    | LeftAdd(path: Path, left: Value)
    | RightAdd(path: Path, right: Value)
    | Change(path: Path, left: Value, right: Value)

  predicate SameContainer(l: Value, r: Value) {
    (l.Obj? && r.Obj?) || (l.Arr? && r.Arr?)
  }

  /** The child of `v` at `s`. */
  function Child(v: Value, s: Step): Option<Value> {
    match s
    case Key(k) => if v.Obj? && k in v.fields then Some(v.fields[k]) else None
    case Index(i) => if v.Arr? && i < |v.elems| then Some(v.elems[i]) else None
  }

  // ---------------------------------------------------------------- what a difference is

  /** The part of `v` at `path`. */
  ghost function At(v: Value, path: Path): Option<Value> {
    if path == [] then Some(v) else
    match Child(v, path[0])
    case None => None
    case Some(child) => At(child, path[1..])
  }

  /** `l` and `r` hold containers of the same kind at `path`. */
  ghost predicate AgreeAt(l: Value, r: Value, path: Path) {
    At(l, path).Some? && At(r, path).Some? && SameContainer(At(l, path).value, At(r, path).value)
  }

  /** `d` is a topmost difference: above it both values have containers of the same kind,
      and at its path one has nothing, or they have different things of which at least
      one is no container or the kinds differ. */
  ghost predicate IsTopmostDifference(l: Value, r: Value, d: Diff) {
    && (forall n :: 0 <= n < |d.path| ==> AgreeAt(l, r, d.path[..n]))
    && match d
       case LeftAdd(p, left) => At(l, p) == Some(left) && At(r, p) == None
       case RightAdd(p, right) => At(l, p) == None && At(r, p) == Some(right)
       case Change(p, left, right) =>
         At(l, p) == Some(left) && At(r, p) == Some(right) && left != right && !SameContainer(left, right)
  }

  /** `d` with the first `n` steps of its path removed. */
  function Below(d: Diff, n: nat): Diff
    requires n <= |d.path|
  {
    d.(path := d.path[n..])
  }

  /** The same, step by step. */
  ghost predicate Differs(l: Value, r: Value, d: Diff)
    decreases |d.path|
  {
    if d.path == [] then
      d == Change([], l, r) && l != r && !SameContainer(l, r)
    else
      && SameContainer(l, r)
      && match (Child(l, d.path[0]), Child(r, d.path[0]))
         case (Some(a), Some(b)) => Differs(a, b, Below(d, 1))
         case (Some(a), None) => d == LeftAdd([d.path[0]], a)
         case (None, Some(b)) => d == RightAdd([d.path[0]], b)
         case (None, None) => false
  }

  lemma {:induction false} DiffersIsTopmost(l: Value, r: Value, d: Diff)
    ensures Differs(l, r, d) <==> IsTopmostDifference(l, r, d)
    decreases |d.path|
  {
    if d.path != [] {
      var s, rest := d.path[0], d.path[1..];
      if SameContainer(l, r) {
        match (Child(l, s), Child(r, s)) {
          case (Some(a), Some(b)) =>
            DiffersIsTopmost(a, b, Below(d, 1));
            AgreementBelow(l, r, d.path, a, b);
          case (_, _) =>
            OneSided(l, r, d);
        }
      } else {
        assert d.path[..0] == [];
        assert !AgreeAt(l, r, d.path[..0]);
      }
    }
  }

  lemma AgreementBelow(l: Value, r: Value, path: Path, a: Value, b: Value)
    requires path != [] && SameContainer(l, r) && Child(l, path[0]) == Some(a) && Child(r, path[0]) == Some(b)
    ensures (forall n :: 0 <= n < |path| ==> AgreeAt(l, r, path[..n])) <==>
            (forall n :: 0 <= n < |path[1..]| ==> AgreeAt(a, b, path[1..][..n]))
  {
    assert AgreeAt(l, r, path[..0]);
    forall n | 0 < n < |path| ensures AgreeAt(l, r, path[..n]) <==> AgreeAt(a, b, path[1..][..n - 1]) {
      assert path[..n][1..] == path[1..][..n - 1];
    }
    forall n | 0 <= n < |path[1..]| ensures AgreeAt(a, b, path[1..][..n]) <==> AgreeAt(l, r, path[..n + 1]) {
      assert path[..n + 1][1..] == path[1..][..n];
    }
  }

  lemma OneSided(l: Value, r: Value, d: Diff)
    requires d.path != [] && SameContainer(l, r)
    requires Child(l, d.path[0]).None? || Child(r, d.path[0]).None?
    ensures Differs(l, r, d) <==> IsTopmostDifference(l, r, d)
  {
    if |d.path| > 1 {
      assert d.path[..1] == [d.path[0]];
      assert !AgreeAt(l, r, d.path[..1]);
    } else {
      assert d.path == [d.path[0]] && d.path[1..] == [];
      AtOneStep(l, d.path);
      AtOneStep(r, d.path);
      assert AgreeAt(l, r, d.path[..0]);
      assert forall n :: 0 <= n < |d.path| ==> AgreeAt(l, r, d.path[..n]);
    }
  }

  lemma AtOneStep(v: Value, path: Path)
    requires |path| == 1
    ensures At(v, path) == Child(v, path[0])
  {
    if Child(v, path[0]).Some? {
      assert At(Child(v, path[0]).value, path[1..]) == Child(v, path[0]);
    }
  }

  // ---------------------------------------------------------------- properties

  function Swapped(d: Diff): Diff {
    match d
    case LeftAdd(p, v) => RightAdd(p, v)
    case RightAdd(p, v) => LeftAdd(p, v)
    case Change(p, a, b) => Change(p, b, a)
  }

  /** Swapping the values swaps the entries: the same paths, left and right exchanged. */
  lemma {:induction false} DiffIsSymmetric(l: Value, r: Value, d: Diff)
    ensures Differs(l, r, d) <==> Differs(r, l, Swapped(d))
    decreases |d.path|
  {
    if d.path != [] && Child(l, d.path[0]).Some? && Child(r, d.path[0]).Some? {
      DiffIsSymmetric(Child(l, d.path[0]).value, Child(r, d.path[0]).value, Below(d, 1));
    }
  }

  /** No entry's path is a prefix of another's. */
  lemma {:induction false} PathsIncomparable(l: Value, r: Value, d: Diff, e: Diff)
    requires Differs(l, r, d) && Differs(l, r, e) && d.path <= e.path
    ensures d == e
    decreases |d.path|
  {
    if d.path != [] {
      var s := d.path[0];
      assert e.path[0] == s;
      if Child(l, s).Some? && Child(r, s).Some? {
        assert Below(d, 1).path <= Below(e, 1).path;
        PathsIncomparable(Child(l, s).value, Child(r, s).value, Below(d, 1), Below(e, 1));
        assert d.path == [s] + d.path[1..] && e.path == [s] + e.path[1..];
      }
    }
  }

  function Under(s: Step, d: Diff): Diff {
    d.(path := [s] + d.path)
  }

  lemma UnderBelow(s: Step, d: Diff)
    ensures Below(Under(s, d), 1) == d && Under(s, d).path[0] == s
  {
  }

  lemma UnderTop(s: Step, d: Diff)
    requires d.path == []
    ensures Under(s, d) == d.(path := [s]) && Below(Under(s, d), 1) == d
  {
    UnderBelow(s, d);
  }

  /** A value differs from itself nowhere. */
  lemma {:induction false} NoSelfDifference(v: Value, d: Diff)
    ensures !Differs(v, v, d)
    decreases |d.path|
  {
    if d.path != [] && Child(v, d.path[0]).Some? {
      NoSelfDifference(Child(v, d.path[0]).value, Below(d, 1));
    }
  }

  /** Two different values differ somewhere. */
  lemma {:induction false} SomeDifference(l: Value, r: Value) returns (d: Diff)
    requires l != r
    ensures Differs(l, r, d)
    decreases l
  {
    if !SameContainer(l, r) {
      d := Change([], l, r);
    } else {
      var s := DifferentChild(l, r);
      match (Child(l, s), Child(r, s)) {
        case (Some(a), Some(b)) =>
          d := SomeDifference(a, b);
          UnderBelow(s, d);
          d := Under(s, d);
        case (Some(a), None) => d := LeftAdd([s], a);
        case (None, Some(b)) => d := RightAdd([s], b);
      }
    }
  }

  lemma DifferentChild(l: Value, r: Value) returns (s: Step)
    requires SameContainer(l, r) && l != r
    ensures Child(l, s) != Child(r, s)
    ensures Child(l, s).Some? ==> Child(l, s).value < l
  {
    if l.Obj? {
      if k :| k in r.fields && k !in l.fields {
        s := Key(k);
        assert Child(r, s).Some?;
      } else {
        var k :| k in l.fields && (k !in r.fields || l.fields[k] != r.fields[k]);
        s := Key(k);
        assert Child(l, s) == Some(l.fields[k]);
      }
    } else {
      if |l.elems| < |r.elems| {
        s := Index(|l.elems|);
        assert Child(r, s).Some?;
      } else if |l.elems| > |r.elems| {
        s := Index(|r.elems|);
        assert Child(l, s) == Some(l.elems[|r.elems|]);
      } else {
        var i :| 0 <= i < |l.elems| && l.elems[i] != r.elems[i];
        s := Index(i);
        assert Child(l, s) == Some(l.elems[i]);
      }
    }
  }

  ghost predicate NoDifference(l: Value, r: Value) {
    forall d :: !Differs(l, r, d)
  }

  /** The difference is empty exactly when the values are equal. */
  lemma EmptyExactlyWhenEqual(l: Value, r: Value)
    ensures NoDifference(l, r) <==> l == r
  {
    if l == r {
      forall d ensures !Differs(l, r, d) {
        NoSelfDifference(l, d);
      }
    } else {
      var d := SomeDifference(l, r);
    }
  }

  // ---------------------------------------------------------------- computing it

  /** The entries of a difference found at `prefix`, each once. */
  ghost predicate IsReport(prefix: Path, l: Value, r: Value, diffs: seq<Diff>) {
    Distinct(diffs) && forall d :: d in diffs <==> Reported(prefix, l, r, d)
  }

  ghost predicate Reported(prefix: Path, l: Value, r: Value, d: Diff) {
    prefix <= d.path && Differs(l, r, Below(d, |prefix|))
  }

  /** What is found under one step of two containers. */
  ghost predicate ReportedUnder(prefix: Path, l: Value, r: Value, s: Step, d: Diff) {
    Reported(prefix, l, r, d) && |d.path| > |prefix| && d.path[|prefix|] == s
  }

  lemma ReportedBelow(prefix: Path, l: Value, r: Value, s: Step, a: Value, b: Value, d: Diff)
    requires SameContainer(l, r) && Child(l, s) == Some(a) && Child(r, s) == Some(b)
    ensures ReportedUnder(prefix, l, r, s, d) <==> Reported(prefix + [s], a, b, d)
  {
    if |d.path| > |prefix| && d.path[|prefix|] == s {
      assert prefix <= d.path <==> prefix + [s] <= d.path;
      assert d.path[|prefix|..][1..] == d.path[|prefix| + 1..];
    }
  }

  lemma ReportedOneSided(prefix: Path, l: Value, r: Value, s: Step, d: Diff)
    requires SameContainer(l, r)
    ensures Child(l, s).Some? && Child(r, s).None? ==>
              (ReportedUnder(prefix, l, r, s, d) <==> d == LeftAdd(prefix + [s], Child(l, s).value))
    ensures Child(l, s).None? && Child(r, s).Some? ==>
              (ReportedUnder(prefix, l, r, s, d) <==> d == RightAdd(prefix + [s], Child(r, s).value))
    ensures Child(l, s).None? && Child(r, s).None? ==> !ReportedUnder(prefix, l, r, s, d)
  {
    if prefix <= d.path && |d.path| > |prefix| && d.path[|prefix|] == s {
      assert d.path == prefix + d.path[|prefix|..];
    }
    assert (prefix + [s])[|prefix|..] == [s];
  }

  /** `diffs` is what is found under the steps visited so far. */
  ghost predicate Covers(prefix: Path, l: Value, r: Value, visited: set<Step>, diffs: seq<Diff>) {
    && Distinct(diffs)
    && forall d :: d in diffs <==> |d.path| > |prefix| && d.path[|prefix|] in visited && Reported(prefix, l, r, d)
  }

  lemma VisitStep(prefix: Path, l: Value, r: Value, visited: set<Step>, diffs: seq<Diff>, s: Step, found: seq<Diff>)
    requires Covers(prefix, l, r, visited, diffs)
    requires s !in visited && Distinct(found)
    requires forall d :: d in found <==> ReportedUnder(prefix, l, r, s, d)
    ensures Covers(prefix, l, r, visited + {s}, diffs + found)
  {
    forall d ensures d in diffs + found <==>
                     |d.path| > |prefix| && d.path[|prefix|] in visited + {s} && Reported(prefix, l, r, d)
    {
      assert d in diffs + found <==> d in diffs || d in found;
    }
    var all := diffs + found;
    forall i, j | 0 <= i < j < |all| ensures all[i] != all[j] {
      if i < |diffs| <= j {
        assert all[i] in diffs && all[j] in found;
      }
    }
  }

  lemma VisitPresent(prefix: Path, l: Value, r: Value, visited: set<Step>, diffs: seq<Diff>, s: Step, found: seq<Diff>)
    requires s !in visited && SameContainer(l, r) && Child(l, s).Some? && Child(r, s).Some?
    requires Covers(prefix, l, r, visited, diffs)
    requires IsReport(prefix + [s], Child(l, s).value, Child(r, s).value, found)
    ensures Covers(prefix, l, r, visited + {s}, diffs + found)
  {
    forall d ensures d in found <==> ReportedUnder(prefix, l, r, s, d) {
      ReportedBelow(prefix, l, r, s, Child(l, s).value, Child(r, s).value, d);
    }
    VisitStep(prefix, l, r, visited, diffs, s, found);
  }

  lemma VisitOneSided(prefix: Path, l: Value, r: Value, visited: set<Step>, diffs: seq<Diff>, s: Step)
    requires s !in visited && SameContainer(l, r) && Covers(prefix, l, r, visited, diffs)
    ensures Child(l, s).Some? && Child(r, s).None? ==>
              Covers(prefix, l, r, visited + {s}, diffs + [LeftAdd(prefix + [s], Child(l, s).value)])
    ensures Child(l, s).None? && Child(r, s).Some? ==>
              Covers(prefix, l, r, visited + {s}, diffs + [RightAdd(prefix + [s], Child(r, s).value)])
  {
    forall d ensures
      && (Child(l, s).Some? && Child(r, s).None? ==>
            (d in [LeftAdd(prefix + [s], Child(l, s).value)] <==> ReportedUnder(prefix, l, r, s, d)))
      && (Child(l, s).None? && Child(r, s).Some? ==>
            (d in [RightAdd(prefix + [s], Child(r, s).value)] <==> ReportedUnder(prefix, l, r, s, d)))
    {
      ReportedOneSided(prefix, l, r, s, d);
    }
    if Child(l, s).Some? && Child(r, s).None? {
      VisitStep(prefix, l, r, visited, diffs, s, [LeftAdd(prefix + [s], Child(l, s).value)]);
    } else if Child(l, s).None? && Child(r, s).Some? {
      VisitStep(prefix, l, r, visited, diffs, s, [RightAdd(prefix + [s], Child(r, s).value)]);
    }
  }

  lemma AllVisited(prefix: Path, l: Value, r: Value, visited: set<Step>, diffs: seq<Diff>)
    requires SameContainer(l, r) && Covers(prefix, l, r, visited, diffs)
    requires forall s :: Child(l, s).Some? || Child(r, s).Some? ==> s in visited
    ensures IsReport(prefix, l, r, diffs)
  {
    forall d ensures d in diffs <==> Reported(prefix, l, r, d) {
      if Reported(prefix, l, r, d) {
        var s := d.path[|prefix|];
        assert Child(l, s).Some? || Child(r, s).Some?;
      }
    }
  }

  method DiffValue(path: Path, l: Value, r: Value) returns (diffs: seq<Diff>)
    ensures IsReport(path, l, r, diffs)
    decreases l, 1
  {
    if l.Obj? && r.Obj? {
      diffs := DiffMaps(path, l, r);
    } else if l.Arr? && r.Arr? {
      diffs := DiffSlices(path, l, r);
    } else if l != r {
      diffs := [Change(path, l, r)];
      forall d ensures d in diffs <==> Reported(path, l, r, d) {
        if path <= d.path && d.path[|path|..] == [] {
          assert d.path == path;
        }
      }
    } else {
      diffs := [];
      forall d ensures !Reported(path, l, r, d) {
        if path <= d.path {
          NoSelfDifference(l, Below(d, |path|));
        }
      }
    }
  }

  /** The keys are visited in no particular order. */
  method DiffMaps(prefix: Path, l: Value, r: Value) returns (diffs: seq<Diff>)
    requires l.Obj? && r.Obj?
    ensures IsReport(prefix, l, r, diffs)
    decreases l, 0
  {
    diffs := [];
    ghost var visited: set<Step> := {};
    var todo := l.fields.Keys;
    while todo != {}
      invariant todo <= l.fields.Keys && Covers(prefix, l, r, visited, diffs)
      invariant forall k :: Key(k) in visited ==> k in l.fields
      invariant forall k :: k in l.fields ==> (k !in todo <==> Key(k) in visited)
      decreases todo
    {
      var k :| k in todo;
      todo := todo - {k};
      var lv := l.fields[k];
      if k !in r.fields {
        VisitOneSided(prefix, l, r, visited, diffs, Key(k));
        diffs := diffs + [LeftAdd(prefix + [Key(k)], lv)];
      } else {
        var childDiffs := DiffValue(prefix + [Key(k)], lv, r.fields[k]);
        VisitPresent(prefix, l, r, visited, diffs, Key(k), childDiffs);
        diffs := diffs + childDiffs;
      }
      visited := visited + {Key(k)};
    }
    todo := r.fields.Keys;
    while todo != {}
      invariant todo <= r.fields.Keys && Covers(prefix, l, r, visited, diffs)
      invariant forall k :: k in l.fields ==> Key(k) in visited
      invariant forall k :: k in r.fields && k !in l.fields ==> (k !in todo <==> Key(k) in visited)
      decreases todo
    {
      var k :| k in todo;
      todo := todo - {k};
      if k !in l.fields {
        VisitOneSided(prefix, l, r, visited, diffs, Key(k));
        diffs := diffs + [RightAdd(prefix + [Key(k)], r.fields[k])];
        visited := visited + {Key(k)};
      }
    }
    AllVisited(prefix, l, r, visited, diffs);
  }

  method DiffSlices(prefix: Path, l: Value, r: Value) returns (diffs: seq<Diff>)
    requires l.Arr? && r.Arr?
    ensures IsReport(prefix, l, r, diffs)
    decreases l, 0
  {
    diffs := [];
    ghost var visited: set<Step> := {};
    for i := 0 to |l.elems|
      invariant Covers(prefix, l, r, visited, diffs)
      invariant forall j: nat :: Index(j) in visited <==> 0 <= j < i
    {
      if |r.elems| <= i {
        VisitOneSided(prefix, l, r, visited, diffs, Index(i));
        diffs := diffs + [LeftAdd(prefix + [Index(i)], l.elems[i])];
      } else {
        var childDiffs := DiffValue(prefix + [Index(i)], l.elems[i], r.elems[i]);
        VisitPresent(prefix, l, r, visited, diffs, Index(i), childDiffs);
        diffs := diffs + childDiffs;
      }
      visited := visited + {Index(i)};
    }
    for i := 0 to |r.elems|
      invariant Covers(prefix, l, r, visited, diffs)
      invariant forall j: nat :: Index(j) in visited <==> 0 <= j < i || 0 <= j < |l.elems|
    {
      if |l.elems| <= i {
        VisitOneSided(prefix, l, r, visited, diffs, Index(i));
        diffs := diffs + [RightAdd(prefix + [Index(i)], r.elems[i])];
        visited := visited + {Index(i)};
      }
    }
    AllVisited(prefix, l, r, visited, diffs);
  }

  // ---------------------------------------------------------------- applying it

  /** A value as a tree in which a container maps steps to parts, so that array positions
      can be removed and added in any order. */
  datatype Tree = Leaf(v: Value) | Node(isArray: bool, kids: map<Step, Tree>)

  function Sparse(v: Value): Tree
    decreases v, 1
  {
    match v
    case Obj(fields) => Node(false, map s: Step | s in (set k | k in fields :: Key(k)) :: Sparse(fields[s.k]))
    case Arr(elems) => Node(true, SparseElems(v, |elems|))
    case _ => Leaf(v)
  }

  function SparseElems(v: Value, n: nat): (kids: map<Step, Tree>)
    requires v.Arr? && n <= |v.elems|
    ensures forall s :: s in kids <==> s.Index? && s.i < n
    ensures forall s :: s in kids ==> kids[s] == Sparse(v.elems[s.i])
    decreases v, 0
  {
    map s: Step | s in (set i: nat | i < n :: Index(i)) :: Sparse(v.elems[s.i])
  }

  function KidOf(kids: map<Step, Tree>, s: Step): Option<Tree> {
    if s in kids then Some(kids[s]) else None
  }

  function SetKid(kids: map<Step, Tree>, s: Step, t: Option<Tree>): map<Step, Tree> {
    if t.Some? then kids[s := t.value] else kids - {s}
  }

  function SparseOption(v: Option<Value>): Option<Tree> {
    if v.Some? then Some(Sparse(v.value)) else None
  }

  lemma SparseKid(v: Value, s: Step)
    requires v.Obj? || v.Arr?
    ensures Sparse(v).Node? && Sparse(v).isArray == v.Arr?
    ensures KidOf(Sparse(v).kids, s) == SparseOption(Child(v, s))
  {
    match s
    case Key(k) =>
      if v.Obj? && k in v.fields {
        assert s in Sparse(v).kids;
      }
    case Index(i) =>
      if v.Arr? && i < |v.elems| {
        assert s in Sparse(v).kids;
      }
  }

  /** Put `t` at `path`; nothing happens where the path leads nowhere. */
  function PutAt(tree: Option<Tree>, path: Path, t: Option<Tree>): Option<Tree>
    decreases |path|
  {
    if path == [] then t
    else if tree.None? || tree.value.Leaf? then tree
    else
      var kids := tree.value.kids;
      Some(Node(tree.value.isArray, SetKid(kids, path[0], PutAt(KidOf(kids, path[0]), path[1..], t))))
  }

  /** Make the left value agree with the right one where `d` says they differ. */
  function Apply(tree: Option<Tree>, d: Diff): Option<Tree> {
    PutAt(tree, d.path, if d.LeftAdd? then None else Some(Sparse(d.right)))
  }

  function ApplyAll(tree: Option<Tree>, diffs: seq<Diff>): Option<Tree> {
    if diffs == [] then tree else Apply(ApplyAll(tree, diffs[..|diffs| - 1]), diffs[|diffs| - 1])
  }

  /** The entries under one step, seen from there. */
  function Under1(diffs: seq<Diff>, s: Step): seq<Diff> {
    if diffs == [] then []
    else
      var d := diffs[|diffs| - 1];
      Under1(diffs[..|diffs| - 1], s) + if d.path != [] && d.path[0] == s then [Below(d, 1)] else []
  }

  lemma {:induction false} Under1Member(diffs: seq<Diff>, s: Step, d: Diff)
    ensures d in Under1(diffs, s) <==> Under(s, d) in diffs
  {
    if diffs != [] {
      var n := |diffs| - 1;
      Under1Member(diffs[..n], s, d);
      assert diffs == diffs[..n] + [diffs[n]];
      UnderBelow(s, d);
      if diffs[n].path != [] && diffs[n].path[0] == s {
        assert diffs[n].path == [s] + diffs[n].path[1..];
        assert Under(s, Below(diffs[n], 1)) == diffs[n];
      }
    }
  }

  /** Entries below a container act on its parts separately: each part sees only the
      entries under its own step, in the order they come. */
  lemma {:induction false} PartsAreIndependent(isArray: bool, kids: map<Step, Tree>, diffs: seq<Diff>) returns (kids': map<Step, Tree>)
    requires forall i :: 0 <= i < |diffs| ==> diffs[i].path != []
    ensures ApplyAll(Some(Node(isArray, kids)), diffs) == Some(Node(isArray, kids'))
    ensures forall s :: KidOf(kids', s) == ApplyAll(KidOf(kids, s), Under1(diffs, s))
  {
    if diffs == [] {
      kids' := kids;
    } else {
      var n := |diffs| - 1;
      var before := PartsAreIndependent(isArray, kids, diffs[..n]);
      var d := diffs[n];
      kids' := OnePart(isArray, before, d);
      forall u ensures KidOf(kids', u) == ApplyAll(KidOf(kids, u), Under1(diffs, u)) {
        var rest := Under1(diffs[..n], u);
        if u == d.path[0] {
          assert Under1(diffs, u) == rest + [Below(d, 1)];
          assert (rest + [Below(d, 1)])[..|rest|] == rest;
        } else {
          assert Under1(diffs, u) == rest;
        }
      }
    }
  }

  lemma OnePart(isArray: bool, kids: map<Step, Tree>, d: Diff) returns (kids': map<Step, Tree>)
    requires d.path != []
    ensures Apply(Some(Node(isArray, kids)), d) == Some(Node(isArray, kids'))
    ensures KidOf(kids', d.path[0]) == Apply(KidOf(kids, d.path[0]), Below(d, 1))
    ensures forall u :: u != d.path[0] ==> KidOf(kids', u) == KidOf(kids, u)
  {
    var s, t := d.path[0], if d.LeftAdd? then None else Some(Sparse(d.right));
    kids' := SetKid(kids, s, PutAt(KidOf(kids, s), d.path[1..], t));
  }

  /** Entries that all put the same tree at the top leave that tree. */
  lemma {:induction false} AllAtTop(tree: Option<Tree>, diffs: seq<Diff>, t: Option<Tree>)
    requires forall i :: 0 <= i < |diffs| ==> Apply(None, diffs[i]) == t && diffs[i].path == []
    ensures ApplyAll(tree, diffs) == if diffs == [] then tree else t
  {
    if diffs != [] {
      AllAtTop(tree, diffs[..|diffs| - 1], t);
    }
  }

  /** The diff reconstructs the target: applied to the left value, its entries give the
      right value, in whatever order they come. */
  lemma {:induction false} DiffReconstructs(l: Value, r: Value, diffs: seq<Diff>)
    requires forall d :: d in diffs <==> Differs(l, r, d)
    ensures ApplyAll(Some(Sparse(l)), diffs) == Some(Sparse(r))
    decreases l
  {
    if !SameContainer(l, r) {
      forall i | 0 <= i < |diffs| ensures diffs[i] == Change([], l, r) && l != r {
        assert diffs[i] in diffs;
      }
      AllAtTop(Some(Sparse(l)), diffs, Some(Sparse(r)));
      if diffs == [] && l != r {
        assert Differs(l, r, Change([], l, r));
      }
    } else {
      forall i | 0 <= i < |diffs| ensures diffs[i].path != [] {
        assert diffs[i] in diffs;
      }
      SparseKid(l, Index(0));
      SparseKid(r, Index(0));
      var kids := PartsAreIndependent(Sparse(l).isArray, Sparse(l).kids, diffs);
      forall s ensures KidOf(kids, s) == KidOf(Sparse(r).kids, s) {
        PartReconstructs(l, r, diffs, s);
        SparseKid(l, s);
        SparseKid(r, s);
      }
      SameKids(kids, Sparse(r).kids);
    }
  }

  lemma SameKids(a: map<Step, Tree>, b: map<Step, Tree>)
    requires forall s :: KidOf(a, s) == KidOf(b, s)
    ensures a == b
  {
    forall s ensures (s in a <==> s in b) && (s in a ==> a[s] == b[s]) {
      assert KidOf(a, s) == KidOf(b, s);
    }
  }

  lemma {:induction false} PartReconstructs(l: Value, r: Value, diffs: seq<Diff>, s: Step)
    requires SameContainer(l, r) && forall d :: d in diffs <==> Differs(l, r, d)
    ensures ApplyAll(SparseOption(Child(l, s)), Under1(diffs, s)) == SparseOption(Child(r, s))
    decreases l, 0
  {
    var part := Under1(diffs, s);
    forall d ensures d in part <==> Differs(l, r, Under(s, d)) {
      Under1Member(diffs, s, d);
    }
    match (Child(l, s), Child(r, s)) {
      case (Some(a), Some(b)) =>
        forall d ensures d in part <==> Differs(a, b, d) {
          UnderBelow(s, d);
        }
        DiffReconstructs(a, b, part);
      case (Some(a), None) =>
        UnderTop(s, LeftAdd([], a));
        assert LeftAdd([], a) in part;
        OnlyTop(l, r, s, part, LeftAdd([], a));
        AllAtTop(Some(Sparse(a)), part, None);
      case (None, Some(b)) =>
        UnderTop(s, RightAdd([], b));
        assert RightAdd([], b) in part;
        OnlyTop(l, r, s, part, RightAdd([], b));
        AllAtTop(None, part, Some(Sparse(b)));
      case (None, None) =>
        forall i | 0 <= i < |diffs| ensures diffs[i].path == [] || diffs[i].path[0] != s {
          assert diffs[i] in diffs;
        }
        NothingUnder(diffs, s);
    }
  }

  lemma {:induction false} NothingUnder(diffs: seq<Diff>, s: Step)
    requires forall i :: 0 <= i < |diffs| ==> diffs[i].path == [] || diffs[i].path[0] != s
    ensures Under1(diffs, s) == []
  {
    if diffs != [] {
      NothingUnder(diffs[..|diffs| - 1], s);
    }
  }

  lemma OnlyTop(l: Value, r: Value, s: Step, part: seq<Diff>, only: Diff)
    requires forall d :: d in part ==> Differs(l, r, Under(s, d))
    requires only.path == [] && Child(l, s).Some? != Child(r, s).Some?
    requires only == if Child(l, s).Some? then LeftAdd([], Child(l, s).value) else RightAdd([], Child(r, s).value)
    ensures forall i :: 0 <= i < |part| ==> part[i] == only
  {
    forall i | 0 <= i < |part| ensures part[i] == only {
      assert part[i] in part;
      UnderBelow(s, part[i]);
    }
  }

  /** Different values have different trees, so the tree of the right value determines it. */
  lemma {:induction false} SparseInjective(a: Value, b: Value)
    requires Sparse(a) == Sparse(b)
    ensures a == b
    decreases a
  {
    if a != b {
      if a.Obj? || a.Arr? {
        SparseKid(a, Index(0));
      }
      if b.Obj? || b.Arr? {
        SparseKid(b, Index(0));
      }
      assert SameContainer(a, b);
      var s := DifferentChild(a, b);
      SparseKid(a, s);
      SparseKid(b, s);
      SparseInjective(Child(a, s).value, Child(b, s).value);
    }
  }
}
