/** Where rendered resources are written, and which files a successful render removes.

    File names are compared as they are, so pruning is right only if equal names and equal
    files come to the same: that is what cleaning the paths is for. */
module FilePruning {
  import opened FilePaths
  import opened Resources
  import opened Sequences
  import opened Wrappers

  // ---------------------------------------------------------------- names of files

  datatype Refusal = RootNotAbsolute | PackageNotAbsolute | NotADescendant

  /** An empty package path never gets to mean the root: it is not absolute. */
  function PathRelToRoot(root: Raw, pkg: Raw, path: Raw): Result<seq<Segment>, Refusal> {
    if !root.absolute then Err(RootNotAbsolute)
    else if !pkg.absolute then Err(PackageNotAbsolute)
    else
      var rel := Rel(CleanRaw(root), CleanRaw(pkg));
      if LeadsUp(rel) then Err(NotADescendant) else Ok(Join(rel, CleanRaw(path)))
  }

  /** The name by which the file of an input resource is tracked; nothing is asked of
      where the package is. */
  function InputName(root: Raw, pkg: Raw, path: Raw): Result<seq<Segment>, Refusal> {
    if !root.absolute then Err(RootNotAbsolute)
    else if !pkg.absolute then Err(PackageNotAbsolute)
    else Ok(Join(Rel(CleanRaw(root), CleanRaw(pkg)), CleanRaw(path)))
  }

  /** Where a path annotation of a package points to. */
  function FileOf(pkg: Raw, path: Raw): seq<Segment> {
    Walk(CleanRaw(pkg), CleanRaw(path))
  }

  lemma AcceptedExactlyWithinRoot(root: Raw, pkg: Raw, path: Raw)
    ensures PathRelToRoot(root, pkg, path).Ok? <==> root.absolute && pkg.absolute && CleanRaw(root) <= CleanRaw(pkg)
  {
    if root.absolute && pkg.absolute {
      AbsoluteIsPlain(root);
      AbsoluteIsPlain(pkg);
      RelLeadsUpExactlyOutside(CleanRaw(root), CleanRaw(pkg));
    }
  }

  /** Input and output files get the same names, except that an output resource outside
      the root package is refused. */
  lemma TrackedAlikeExactlyWithinRoot(root: Raw, pkg: Raw, path: Raw)
    requires root.absolute && pkg.absolute
    ensures InputName(root, pkg, path) == PathRelToRoot(root, pkg, path) <==> CleanRaw(root) <= CleanRaw(pkg)
  {
    AcceptedExactlyWithinRoot(root, pkg, path);
  }

  /** Seen from the root, the name leads to the file the resource has in its package, and
      it is clean. */
  lemma NameLeadsToFile(root: Raw, pkg: Raw, path: Raw)
    requires root.absolute && pkg.absolute
    ensures Walk(CleanRaw(root), InputName(root, pkg, path).value) == FileOf(pkg, path)
    ensures Normal(InputName(root, pkg, path).value)
  {
    var base, target := CleanRaw(root), CleanRaw(pkg);
    var rel := Rel(base, target);
    PlacesArePlain([], pkg.segments);
    CleanLeadsToSamePlace(base, rel + CleanRaw(path));
    CleanIsNormal(rel + CleanRaw(path));
    WalkOn(base, rel, CleanRaw(path));
    RelLeadsThere(base, target);
  }

  /** Within the root, files are the same exactly when their names are. */
  lemma SameFileExactlyWhenSameName(root: seq<Segment>, a: seq<Segment>, b: seq<Segment>)
    requires Inside(a) && Inside(b)
    ensures Walk(root, a) == Walk(root, b) <==> a == b
  {
    InsideIsPlain(a);
    InsideIsPlain(b);
    WalkPlain(root, a);
    WalkPlain(root, b);
    assert (root + a)[|root|..] == a && (root + b)[|root|..] == b;
  }

  /** Outside they need not be: one file, two clean names. */
  lemma EscapingNamesDiffer(root: Segment, file: Segment)
    requires Plain(root) && Plain(file)
    ensures Normal([file]) && Normal(["..", root, file]) && Walk([root], [file]) == Walk([root], ["..", root, file])
  {
    WalkPlain([root], [file]);
    WalkOn([root], [".."], [root, file]);
    assert [".."] + [root, file] == ["..", root, file];
    assert [".."][..0] == [];
    WalkPlain([], [root, file]);
    assert ["..", root, file][..0] == [];
  }

  // ---------------------------------------------------------------- below the root package

  /** A package within the root package, and a path in it that does not lead up, give a
      name that does not lead up either. */
  lemma NameIsInside(root: Raw, pkg: Raw, path: Raw)
    requires root.absolute && pkg.absolute && CleanRaw(root) <= CleanRaw(pkg) && !LeadsUp(CleanRaw(path))
    ensures InputName(root, pkg, path).Ok? && Inside(InputName(root, pkg, path).value)
    ensures InputName(root, pkg, path).value == CleanRaw(pkg)[|CleanRaw(root)|..] + CleanRaw(path)
  {
    var clean := CleanRaw(path);
    var rel := RelWithin(root, pkg);
    CleanRawIsNormal(path);
    InsideIsPlain(clean);
    PlainIsInside(rel + clean);
    CleanTwice(rel + clean);
  }

  lemma RelWithin(root: Raw, pkg: Raw) returns (rel: seq<Segment>)
    requires root.absolute && pkg.absolute && CleanRaw(root) <= CleanRaw(pkg)
    ensures rel == Rel(CleanRaw(root), CleanRaw(pkg)) == CleanRaw(pkg)[|CleanRaw(root)|..] && AllPlain(rel)
    ensures rel == [] <==> CleanRaw(pkg) == CleanRaw(root)
  {
    hide CleanRaw, Rel, AllPlain;
    AbsoluteIsPlain(root);
    AbsoluteIsPlain(pkg);
    RelBelow(CleanRaw(root), CleanRaw(pkg));
    rel := Rel(CleanRaw(root), CleanRaw(pkg));
  }

  lemma AbsoluteIsPlain(p: Raw)
    requires p.absolute
    ensures AllPlain(CleanRaw(p))
  {
    PlacesArePlain([], p.segments);
  }

  lemma RelBelow(base: seq<Segment>, target: seq<Segment>)
    requires AllPlain(base) && AllPlain(target) && base <= target
    ensures Rel(base, target) == target[|base|..] && AllPlain(Rel(base, target))
    ensures Rel(base, target) == [] <==> target == base
  {
    hide Rel, LeadsUp, Plain;
    RelLeadsUpExactlyOutside(base, target);
    assert target == base + target[|base|..];
  }

  lemma CleanRawIsNormal(path: Raw)
    ensures Normal(CleanRaw(path))
  {
    CleanIsNormal(path.segments);
    PlacesArePlain([], path.segments);
  }

  /** The one path that leads up and still passes the check: from a package below the root
      it leads inside all the same, from the root itself it leads out. */
  lemma NameOfUp(root: Raw, pkg: Raw, path: Raw)
    requires root.absolute && pkg.absolute && CleanRaw(root) <= CleanRaw(pkg) && CleanRaw(path) == [".."]
    ensures InputName(root, pkg, path).Ok?
    ensures CleanRaw(pkg) == CleanRaw(root) ==> InputName(root, pkg, path).value == [".."]
    ensures CleanRaw(pkg) != CleanRaw(root) ==> Inside(InputName(root, pkg, path).value)
  {
    hide Walk, Clean, Rel, CleanRaw, AllPlain, Inside;
    var rel := RelWithin(root, pkg);
    UpFrom(rel);
  }

  lemma UpFrom(rel: seq<Segment>)
    requires AllPlain(rel)
    ensures rel == [] ==> Join(rel, [".."]) == [".."]
    ensures rel != [] ==> Inside(Join(rel, [".."]))
  {
    assert (rel + [".."])[..|rel|] == rel;
    PlainIsInside(rel);
    CleanTwice(rel);
    if rel != [] {
      PlainIsInside(rel[..|rel| - 1]);
    }
  }

  /** The path check tells files apart by their cleaned strings.  Within one package that is
      right exactly among paths that are written alike, absolute or relative: both kinds
      are taken to be relative to the package. */
  lemma StringsTellFilesApartExactly(pkg: Raw, s: string, t: string)
    requires !LeadsUp(CleanRaw(Parse(s))) && !LeadsUp(CleanRaw(Parse(t)))
    ensures CleanString(s) == CleanString(t) <==>
            FileOf(pkg, Parse(s)) == FileOf(pkg, Parse(t)) && Parse(s).absolute == Parse(t).absolute
  {
    CleanRawIsNormal(Parse(s));
    CleanRawIsNormal(Parse(t));
    SameFileExactlyWhenSameName(CleanRaw(pkg), CleanRaw(Parse(s)), CleanRaw(Parse(t)));
    SameStringExactlyWhenSamePath(s, t);
  }

  // ---------------------------------------------------------------- pruning

  type Name = seq<Segment>

  /** A file by its absolute path. */
  type Place = seq<Segment>

  function PackagePath(r: Resource): Raw {
    Parse(PackageOf(r))
  }

  function FilePath(r: Resource): Raw {
    Parse(PathOf(r))
  }

  type Naming = Resource -> Result<Name, Refusal>

  function InputNaming(root: Raw): Naming {
    (r: Resource) => InputName(root, PackagePath(r), FilePath(r))
  }

  function OutputNaming(root: Raw): Naming {
    (r: Resource) => PathRelToRoot(root, PackagePath(r), FilePath(r))
  }

  function FileOfResource(r: Resource): Place {
    FileOf(PackagePath(r), FilePath(r))
  }

  /** A resource tagged with the absolute path of its package and a relative path lies
      where the two together say, and is tracked by what that is below the root package. */
  lemma LiesWhereWritten(root: seq<Segment>, below: seq<Segment>, path: seq<Segment>, r: Resource)
    requires AllPlain(root + below) && AllPlain(path) && NoSlashes(root + below) && NoSlashes(path) && path != []
    requires PackageOf(r) == "/" + Unsplit(root + below) && PathOf(r) == Unsplit(path)
    ensures FileOfResource(r) == root + below + path
    ensures InputNaming(Parse("/" + Unsplit(root)))(r) == Ok(below + path)
    ensures OutputNaming(Parse("/" + Unsplit(root)))(r) == Ok(below + path)
  {
    hide Split, Unsplit, Rel, Join, LeadsUp, Clean, Walk;
    var base, pkg := Parse("/" + Unsplit(root)), PackagePath(r);
    assert forall i :: 0 <= i < |root| ==> root[i] == (root + below)[i];
    PlainWrittenAbsolute(root);
    PlainWrittenAbsolute(root + below);
    PlainRead(path);
    NameIsInside(base, pkg, FilePath(r));
    TrackedAlikeExactlyWithinRoot(base, pkg, FilePath(r));
    WalkPlain(root + below, path);
  }

  lemma PlainRead(path: seq<Segment>)
    requires AllPlain(path) && NoSlashes(path) && path != []
    ensures !Parse(Unsplit(path)).absolute && CleanRaw(Parse(Unsplit(path))) == path && !LeadsUp(path)
  {
    hide Split, Unsplit;
    PlainIsInside(path);
    SplitUndoesUnsplit(path);
    BeginsWithoutSlash(path);
    CleanTwice(path);
  }

  /** As the package reader leaves a resource: tagged with a package within the root
      package, and with a file in that. */
  predicate ReadBelow(root: Raw, r: Resource) {
    && root.absolute && PackagePath(r).absolute && CleanRaw(root) <= CleanRaw(PackagePath(r))
    && CleanRaw(FilePath(r)) != [] && !LeadsUp(CleanRaw(FilePath(r)))
  }

  lemma ReadStaysInPackage(root: Raw, r: Resource)
    requires ReadBelow(root, r)
    ensures StaysInPackage(r)
  {
    EscapesExactly(PathOf(r));
  }

  /** The resources all have a name, and `names` is what they are called. */
  ghost predicate Names(naming: Naming, resources: seq<Resource>, names: set<Name>) {
    && (forall i :: 0 <= i < |resources| ==> naming(resources[i]).Ok? && naming(resources[i]).value in names)
    && (forall f :: f in names ==> exists i :: 0 <= i < |resources| && naming(resources[i]) == Ok(f))
  }

  /** Files of input and of output resources are tracked alike, each with its own naming. */
  method TrackFiles(naming: Naming, resources: seq<Resource>) returns (r: Result<set<Name>, Refusal>)
    ensures r.Ok? <==> forall i :: 0 <= i < |resources| ==> naming(resources[i]).Ok?
    ensures r.Ok? ==> Names(naming, resources, r.value)
  {
    var names: set<Name> := {};
    for i := 0 to |resources|
      invariant forall j :: 0 <= j < i ==> naming(resources[j]).Ok? && naming(resources[j]).value in names
      invariant forall f :: f in names ==> exists j :: 0 <= j < i && naming(resources[j]) == Ok(f)
    {
      var name := naming(resources[i]);
      if name.Err? {
        return Err(name.error);
      }
      names := names + {name.value};
    }
    r := Ok(names);
  }

  /** Is at or below one of the named files. */
  ghost predicate Under(root: Raw, names: set<Name>, file: Place) {
    exists f :: f in names && Walk(CleanRaw(root), f) <= file
  }

  /** `left` is what of `files` is neither at nor below an input name that is no output name. */
  ghost predicate Pruned(root: Raw, input: set<Name>, output: set<Name>, files: set<Place>, left: set<Place>) {
    forall x :: x in left <==> x in files && !Under(root, input - output, x)
  }

  class Disk {
    var files: set<Place>

    method RemoveAll(place: Place)
      modifies this
      ensures forall x :: x in files <==> x in old(files) && !(place <= x)
    {
      files := set x | x in files && !(place <= x);
    }

    /** Goes through the files to be deleted in any order. */
    method PruneResources(root: Raw, input: set<Name>, output: set<Name>)
      modifies this
      ensures Pruned(root, input, output, old(files), files)
    {
      var toBeDeleted := input - output;
      var todo := toBeDeleted;
      while todo != {}
        invariant todo <= toBeDeleted
        invariant forall x :: x in files <==> x in old(files) && !Under(root, toBeDeleted - todo, x)
        decreases |todo|
      {
        var f :| f in todo;
        ghost var gone := toBeDeleted - todo;
        todo := todo - {f};
        RemoveAll(Walk(CleanRaw(root), f));
        assert toBeDeleted - todo == gone + {f};
        UnderOneMore(root, gone, f);
      }
      assert toBeDeleted - {} == toBeDeleted;
    }
  }

  lemma UnderOneMore(root: Raw, names: set<Name>, f: Name)
    ensures forall x :: Under(root, names + {f}, x) <==> Under(root, names, x) || Walk(CleanRaw(root), f) <= x
  {
    forall x ensures Under(root, names + {f}, x) <==> Under(root, names, x) || Walk(CleanRaw(root), f) <= x {
      if Under(root, names, x) {
        var g :| g in names && Walk(CleanRaw(root), g) <= x;
        assert g in names + {f};
      }
      if Walk(CleanRaw(root), f) <= x {
        assert f in names + {f};
      }
    }
  }

  ghost predicate Rendered(root: Raw, input: seq<Resource>, output: seq<Resource>, before: set<Name>, after: set<Name>) {
    Names(InputNaming(root), input, before) && Names(OutputNaming(root), output, after)
  }

  /** The name the input has for a resource is also one of the output. */
  predicate KeepsName(root: Raw, after: set<Name>, r: Resource) {
    var name := InputNaming(root)(r);
    name.Ok? && name.value in after
  }

  /** The name of an input resource leads inside and is not the root package itself. */
  lemma InputNameIsInside(root: Raw, r: Resource)
    requires ReadBelow(root, r)
    ensures InputNaming(root)(r).Ok? && Inside(InputNaming(root)(r).value) && InputNaming(root)(r).value != []
    ensures Walk(CleanRaw(root), InputNaming(root)(r).value) == FileOfResource(r)
  {
    NameIsInside(root, PackagePath(r), FilePath(r));
    NameLeadsToFile(root, PackagePath(r), FilePath(r));
  }

  /** The name of an output resource leads inside too, but for one. */
  lemma OutputNameIsInside(root: Raw, r: Resource)
    requires OutputNaming(root)(r).Ok? && StaysInPackage(r)
    ensures Inside(OutputNaming(root)(r).value) || OutputNaming(root)(r).value == [".."]
    ensures Walk(CleanRaw(root), OutputNaming(root)(r).value) == FileOfResource(r)
  {
    var pkg, path := PackagePath(r), FilePath(r);
    AcceptedExactlyWithinRoot(root, pkg, path);
    TrackedAlikeExactlyWithinRoot(root, pkg, path);
    NameLeadsToFile(root, pkg, path);
    EscapesExactly(PathOf(r));
    if CleanRaw(path) == [".."] {
      NameOfUp(root, pkg, path);
    } else {
      NameIsInside(root, pkg, path);
    }
  }

  /** An input resource and an output resource that passed the path check have the same
      name exactly when they have the same file. */
  lemma SameFileExactlyWhenTrackedAlike(root: Raw, a: Resource, b: Resource)
    requires ReadBelow(root, a) && OutputNaming(root)(b).Ok? && StaysInPackage(b)
    ensures FileOfResource(b) == FileOfResource(a) <==> OutputNaming(root)(b) == InputNaming(root)(a)
  {
    InputNameIsInside(root, a);
    OutputNameIsInside(root, b);
    var base, f, g := CleanRaw(root), InputNaming(root)(a).value, OutputNaming(root)(b).value;
    if g == [".."] {
      OutIsNoFileBelow(base, f);
      assert f != g;
    } else {
      SameFileExactlyWhenSameName(base, f, g);
    }
  }

  /** The place above the root package neither is nor contains, as a file, anything below. */
  lemma OutIsNoFileBelow(base: seq<Segment>, f: Name)
    requires Inside(f) && f != []
    ensures !(Walk(base, f) <= Walk(base, [".."]))
  {
    InsideIsPlain(f);
    WalkPlain(base, f);
    assert [".."][..0] == [];
    assert |Walk(base, [".."])| <= |base| < |base + f|;
  }

  ghost predicate AllReadBelow(root: Raw, input: seq<Resource>) {
    forall r :: r in input ==> ReadBelow(root, r)
  }

  /** The name of an input resource is kept exactly when some output resource is written to
      its file. */
  lemma ListedExactly(root: Raw, input: seq<Resource>, output: seq<Resource>, before: set<Name>, after: set<Name>, i: nat)
    requires Rendered(root, input, output, before, after) && i < |input|
    requires AllReadBelow(root, input) && AllHave(StaysInPackage, output)
    ensures KeepsName(root, after, input[i]) <==>
            exists j :: 0 <= j < |output| && FileOfResource(output[j]) == FileOfResource(input[i])
  {
    InputNameIsInside(root, input[i]);
    var name := InputNaming(root)(input[i]).value;
    forall j | 0 <= j < |output|
      ensures FileOfResource(output[j]) == FileOfResource(input[i]) <==> OutputNaming(root)(output[j]) == Ok(name)
      ensures OutputNaming(root)(output[j]).Ok? && OutputNaming(root)(output[j]).value in after
    {
      assert output[j] in output;
      SameFileExactlyWhenTrackedAlike(root, input[i], output[j]);
    }
  }

  /** On a disk no file lies beneath a file. */
  ghost predicate Flat(files: set<Place>) {
    forall x, y :: x in files && y in files && x <= y ==> x == y
  }

  /** The disk that pruning finds holds the files of all input resources. */
  ghost predicate OnDisk(input: seq<Resource>, files: set<Place>) {
    Flat(files) && forall i :: 0 <= i < |input| ==> FileOfResource(input[i]) in files
  }

  /** On the disk, wherever paths lead: the file of an input resource is left exactly when
      every name the input has for it is also a name of the output. */
  lemma LeftExactly(root: Raw, input: seq<Resource>, before: set<Name>, after: set<Name>,
                    files: set<Place>, left: set<Place>, i: nat)
    requires Names(InputNaming(root), input, before) && i < |input|
    requires OnDisk(input, files) && Pruned(root, before, after, files, left)
    ensures FileOfResource(input[i]) in left <==>
            forall k :: 0 <= k < |input| && FileOfResource(input[k]) == FileOfResource(input[i]) ==>
              KeepsName(root, after, input[k])
  {
    var file := FileOfResource(input[i]);
    if file in left {
      forall k | 0 <= k < |input| && FileOfResource(input[k]) == file ensures KeepsName(root, after, input[k]) {
        if !KeepsName(root, after, input[k]) {
          DroppedNameTakesFile(root, input, before, after, k);
        }
      }
    } else {
      var k := LostByDroppedName(root, input, before, after, files, file);
    }
  }

  lemma DroppedNameTakesFile(root: Raw, input: seq<Resource>, before: set<Name>, after: set<Name>, k: nat)
    requires Names(InputNaming(root), input, before) && k < |input| && !KeepsName(root, after, input[k])
    ensures Under(root, before - after, FileOfResource(input[k]))
  {
    assert InputNaming(root)(input[k]).Ok?;
    var f := InputNaming(root)(input[k]).value;
    NameLeadsToFile(root, PackagePath(input[k]), FilePath(input[k]));
    assert f in before - after;
  }

  lemma LostByDroppedName(root: Raw, input: seq<Resource>, before: set<Name>, after: set<Name>,
                          files: set<Place>, file: Place) returns (k: nat)
    requires Names(InputNaming(root), input, before) && OnDisk(input, files)
    requires file in files && Under(root, before - after, file)
    ensures k < |input| && FileOfResource(input[k]) == file && !KeepsName(root, after, input[k])
  {
    var f :| f in before - after && Walk(CleanRaw(root), f) <= file;
    k := DroppedFile(root, input, before, f);
  }

  lemma DroppedFile(root: Raw, input: seq<Resource>, before: set<Name>, f: Name) returns (k: nat)
    requires Names(InputNaming(root), input, before) && f in before
    ensures k < |input| && InputNaming(root)(input[k]) == Ok(f)
    ensures Walk(CleanRaw(root), f) == FileOfResource(input[k])
  {
    k :| k < |input| && InputNaming(root)(input[k]) == Ok(f);
    NameLeadsToFile(root, PackagePath(input[k]), FilePath(input[k]));
  }

  /** On the disk: the file of a resource that was read is left exactly when some resource
      of the output is written to it. */
  lemma PrunedExactly(root: Raw, input: seq<Resource>, output: seq<Resource>, before: set<Name>, after: set<Name>,
                      files: set<Place>, left: set<Place>, i: nat)
    requires Rendered(root, input, output, before, after) && i < |input|
    requires AllReadBelow(root, input) && AllHave(StaysInPackage, output)
    requires OnDisk(input, files) && Pruned(root, before, after, files, left)
    ensures FileOfResource(input[i]) in left <==>
            exists j :: 0 <= j < |output| && FileOfResource(output[j]) == FileOfResource(input[i])
  {
    LeftExactly(root, input, before, after, files, left, i);
    forall k | 0 <= k < |input| && FileOfResource(input[k]) == FileOfResource(input[i])
      ensures KeepsName(root, after, input[k]) <==>
              exists j :: 0 <= j < |output| && FileOfResource(output[j]) == FileOfResource(input[i])
    {
      ListedExactly(root, input, output, before, after, k);
    }
  }

  /** On the disk: a resource that keeps its package and, up to cleaning, its path never
      loses its file. */
  lemma KeptResourceKeepsItsFile(root: Raw, input: seq<Resource>, output: seq<Resource>, before: set<Name>, after: set<Name>,
                                 files: set<Place>, left: set<Place>, i: nat, j: nat)
    requires Rendered(root, input, output, before, after) && i < |input| && j < |output|
    requires AllReadBelow(root, input) && AllHave(StaysInPackage, output)
    requires OnDisk(input, files) && Pruned(root, before, after, files, left)
    requires CleanRaw(PackagePath(output[j])) == CleanRaw(PackagePath(input[i]))
    requires CleanRaw(FilePath(output[j])) == CleanRaw(FilePath(input[i]))
    ensures FileOfResource(input[i]) in left
  {
    assert FileOfResource(output[j]) == FileOfResource(input[i]);
    PrunedExactly(root, input, output, before, after, files, left, i);
  }

  ghost predicate KeptIn(list: seq<Resource>, file: Place) {
    exists i :: 0 <= i < |list| && FileOfResource(list[i]) == file
  }

  /** The whole disk after pruning: of what pruning finds, exactly the files are gone that
      were read and that no resource of the output is kept in.  So nothing that has been
      written is lost, and nothing that was not read. */
  lemma LeftIsAllButDropped(root: Raw, input: seq<Resource>, output: seq<Resource>, before: set<Name>, after: set<Name>,
                            files: set<Place>, left: set<Place>, file: Place)
    requires Rendered(root, input, output, before, after)
    requires AllReadBelow(root, input) && AllHave(StaysInPackage, output)
    requires OnDisk(input, files) && Pruned(root, before, after, files, left)
    ensures file in left <==> file in files && (KeptIn(input, file) ==> KeptIn(output, file))
  {
    hide Rendered, Walk, CleanRaw, ReadBelow, StaysInPackage, FileOfResource, InputNaming, OutputNaming;
    if KeptIn(input, file) {
      var i :| 0 <= i < |input| && FileOfResource(input[i]) == file;
      PrunedExactly(root, input, output, before, after, files, left, i);
    } else if file in files && file !in left {
      NamesOfInput(root, input, output, before, after);
      var k := LostByDroppedName(root, input, before, after, files, file);
    }
  }

  lemma NamesOfInput(root: Raw, input: seq<Resource>, output: seq<Resource>, before: set<Name>, after: set<Name>)
    requires Rendered(root, input, output, before, after)
    ensures Names(InputNaming(root), input, before)
  {
  }
}
