/** Paths: cleaning them, walking along them, getting from one to another, and how they
    are written.  A path is the list of its segments. */
module FilePaths {

  type Segment = string

  /** As written in an annotation: empty, dot and dot-dot segments may occur. */
  datatype Raw = Raw(absolute: bool, segments: seq<Segment>)

  // ---------------------------------------------------------------- cleaning

  predicate Plain(s: Segment) {
    s != "" && s != "." && s != ".."
  }

  ghost predicate AllPlain(p: seq<Segment>) {
    forall i :: 0 <= i < |p| ==> Plain(p[i])
  }

  /** One segment further from a place in the file system; above the root is the root. */
  function Step(place: seq<Segment>, s: Segment): seq<Segment> {
    if s == "" || s == "." then place
    else if s != ".." then place + [s]
    else if place == [] then []
    else place[..|place| - 1]
  }

  /** The place one gets to from `place` along `segments`. */
  function Walk(place: seq<Segment>, segments: seq<Segment>): seq<Segment> {
    if segments == [] then place
    else
      var n := |segments| - 1;
      Step(Walk(place, segments[..n]), segments[n])
  }

  /** One segment further on a relative path, which may lead upwards. */
  function Push(name: seq<Segment>, s: Segment): seq<Segment> {
    if s == "" || s == "." then name
    else if s != ".." || name == [] || name[|name| - 1] == ".." then name + [s]
    else name[..|name| - 1]
  }

  function Clean(segments: seq<Segment>): seq<Segment> {
    if segments == [] then []
    else
      var n := |segments| - 1;
      Push(Clean(segments[..n]), segments[n])
  }

  function CleanRaw(p: Raw): seq<Segment> {
    if p.absolute then Walk([], p.segments) else Clean(p.segments)
  }

  function Join(a: seq<Segment>, b: seq<Segment>): seq<Segment> {
    Clean(a + b)
  }

  /** No empty or dot segments, and all dot-dots in front. */
  ghost predicate Normal(name: seq<Segment>) {
    forall i :: 0 <= i < |name| ==> Plain(name[i]) || (name[i] == ".." && AllUp(name[..i]))
  }

  ghost predicate AllUp(name: seq<Segment>) {
    forall i :: 0 <= i < |name| ==> name[i] == ".."
  }

  lemma {:induction false} CleanIsNormal(segments: seq<Segment>)
    ensures Normal(Clean(segments))
  {
    if segments != [] {
      var n := |segments| - 1;
      CleanIsNormal(segments[..n]);
      PushKeepsNormal(Clean(segments[..n]), segments[n]);
    }
  }

  lemma PushKeepsNormal(name: seq<Segment>, s: Segment)
    requires Normal(name)
    ensures Normal(Push(name, s))
  {
    var pushed := Push(name, s);
    forall i | 0 <= i < |pushed| ensures Plain(pushed[i]) || (pushed[i] == ".." && AllUp(pushed[..i])) {
      if i < |name| {
        assert pushed[..i] == name[..i];
      } else {
        assert pushed[..i] == name;
        if s == ".." && name != [] {
          assert name == name[..|name| - 1] + [".."];
        }
      }
    }
  }

  /** Cleaning a clean name does nothing. */
  lemma {:induction false} CleanTwice(name: seq<Segment>)
    requires Normal(name)
    ensures Clean(name) == name
  {
    if name != [] {
      var n := |name| - 1;
      NormalPrefix(name, n);
      CleanTwice(name[..n]);
      assert name == name[..n] + [name[n]];
    }
  }

  lemma NormalPrefix(name: seq<Segment>, n: nat)
    requires Normal(name) && n <= |name|
    ensures Normal(name[..n])
    ensures n < |name| ==> Push(name[..n], name[n]) == name[..n] + [name[n]]
  {
    forall i | 0 <= i < n ensures Plain(name[..n][i]) || (name[..n][i] == ".." && AllUp(name[..n][..i])) {
      assert name[..n][..i] == name[..i];
    }
  }

  lemma {:induction false} WalkOn(place: seq<Segment>, a: seq<Segment>, b: seq<Segment>)
    ensures Walk(place, a + b) == Walk(Walk(place, a), b)
  {
    if b == [] {
      assert a + b == a;
    } else {
      var n := |b| - 1;
      assert (a + b)[..|a| + n] == a + b[..n];
      WalkOn(place, a, b[..n]);
    }
  }

  /** A path and its cleaned form lead to the same place, from wherever one starts. */
  lemma {:induction false} CleanLeadsToSamePlace(place: seq<Segment>, segments: seq<Segment>)
    ensures Walk(place, Clean(segments)) == Walk(place, segments)
  {
    if segments != [] {
      var n := |segments| - 1;
      CleanLeadsToSamePlace(place, segments[..n]);
      CleanIsNormal(segments[..n]);
      PushIsStep(place, Clean(segments[..n]), segments[n]);
    }
  }

  lemma PushIsStep(place: seq<Segment>, name: seq<Segment>, s: Segment)
    requires Normal(name)
    ensures Walk(place, Push(name, s)) == Step(Walk(place, name), s)
  {
    if Push(name, s) == name + [s] {
      assert (name + [s])[..|name|] == name;
    } else if s == ".." {
      var last := name[|name| - 1];
      assert Plain(last);
      var before := Walk(place, name[..|name| - 1]);
      assert Walk(place, name) == before + [last];
      assert (before + [last])[..|before|] == before;
    }
  }

  lemma {:induction false} WalkPlain(place: seq<Segment>, name: seq<Segment>)
    requires AllPlain(name)
    ensures Walk(place, name) == place + name
  {
    if name != [] {
      var n := |name| - 1;
      WalkPlain(place, name[..n]);
      assert name == name[..n] + [name[n]];
      assert place + name == place + name[..n] + [name[n]];
    }
  }

  lemma {:induction false} PlacesArePlain(place: seq<Segment>, segments: seq<Segment>)
    requires AllPlain(place)
    ensures AllPlain(Walk(place, segments))
  {
    if segments != [] {
      PlacesArePlain(place, segments[..|segments| - 1]);
    }
  }

  // ---------------------------------------------------------------- relative paths

  function Common(a: seq<Segment>, b: seq<Segment>): (n: nat)
    ensures n <= |a| && n <= |b| && a[..n] == b[..n]
    ensures n < |a| && n < |b| ==> a[n] != b[n]
  {
    if a == [] || b == [] || a[0] != b[0] then 0
    else
      var n := Common(a[1..], b[1..]);
      assert a[..n + 1] == [a[0]] + a[1..][..n] && b[..n + 1] == [b[0]] + b[1..][..n];
      n + 1
  }

  function Ups(n: nat): (r: seq<Segment>)
    ensures |r| == n && AllUp(r)
  {
    seq(n, i requires 0 <= i < n => "..")
  }

  /** From one clean absolute path to another. */
  function Rel(base: seq<Segment>, target: seq<Segment>): seq<Segment> {
    var n := Common(base, target);
    Ups(|base| - n) + target[n..]
  }

  lemma {:induction false} WalkUps(place: seq<Segment>, n: nat)
    requires n <= |place|
    ensures Walk(place, Ups(n)) == place[..|place| - n]
  {
    if n > 0 {
      WalkUps(place, n - 1);
      assert Ups(n)[..n - 1] == Ups(n - 1);
    } else {
      assert place[..|place|] == place;
    }
  }

  lemma RelLeadsThere(base: seq<Segment>, target: seq<Segment>)
    requires AllPlain(target)
    ensures Walk(base, Rel(base, target)) == target
  {
    var n := Common(base, target);
    WalkOn(base, Ups(|base| - n), target[n..]);
    WalkUps(base, |base| - n);
    WalkPlain(base[..n], target[n..]);
    assert target == target[..n] + target[n..];
  }

  predicate LeadsUp(name: seq<Segment>) {
    name != [] && name[0] == ".."
  }

  lemma RelLeadsUpExactlyOutside(base: seq<Segment>, target: seq<Segment>)
    requires AllPlain(base) && AllPlain(target)
    ensures LeadsUp(Rel(base, target)) <==> !(base <= target)
    ensures base <= target ==> Rel(base, target) == target[|base|..]
  {
    var n := Common(base, target);
    if base <= target {
      assert n == |base|;
    }
  }

  ghost predicate Inside(name: seq<Segment>) {
    Normal(name) && !LeadsUp(name)
  }

  lemma InsideIsPlain(name: seq<Segment>)
    requires Inside(name)
    ensures AllPlain(name)
  {
    forall i | 0 <= i < |name| ensures Plain(name[i]) {
      assert i > 0 ==> name[..i][0] == name[0];
    }
  }

  lemma PlainIsInside(name: seq<Segment>)
    requires AllPlain(name)
    ensures Inside(name)
  {
  }

  // ---------------------------------------------------------------- as strings

  /** The parts between slashes. */
  function Split(s: string): (segments: seq<Segment>)
    ensures segments != []
  {
    if s == "" then [""]
    else
      var rest := Split(s[1..]);
      if s[0] == '/' then [""] + rest else [[s[0]] + rest[0]] + rest[1..]
  }

  function Parse(s: string): Raw {
    Raw(s != "" && s[0] == '/', Split(s))
  }

  function Unsplit(segments: seq<Segment>): string {
    if segments == [] then ""
    else if |segments| == 1 then segments[0]
    else segments[0] + "/" + Unsplit(segments[1..])
  }

  /** A clean path as it is written; the empty one is the current directory. */
  function Render(absolute: bool, clean: seq<Segment>): string {
    if absolute then "/" + Unsplit(clean)
    else if clean == [] then "."
    else Unsplit(clean)
  }

  function CleanString(s: string): string {
    Render(Parse(s).absolute, CleanRaw(Parse(s)))
  }

  ghost predicate NoSlashes(segments: seq<Segment>) {
    forall i :: 0 <= i < |segments| ==> '/' !in segments[i]
  }

  lemma {:induction false} SplitHasNoSlashes(s: string)
    ensures NoSlashes(Split(s))
  {
    if s != "" {
      SplitHasNoSlashes(s[1..]);
    }
  }

  lemma {:induction false} CleanHasNoSlashes(segments: seq<Segment>)
    requires NoSlashes(segments)
    ensures NoSlashes(Clean(segments))
  {
    if segments != [] {
      CleanHasNoSlashes(segments[..|segments| - 1]);
    }
  }

  /** Reading what was written gives the segments back. */
  lemma {:induction false} SplitUndoesUnsplit(segments: seq<Segment>)
    requires segments != [] && NoSlashes(segments)
    ensures Split(Unsplit(segments)) == segments
  {
    if |segments| == 1 {
      SplitWord(segments[0]);
      assert segments == [segments[0]];
    } else {
      SplitUndoesUnsplit(segments[1..]);
      SplitAtSlash(segments[0], Unsplit(segments[1..]));
      assert segments == [segments[0]] + segments[1..];
    }
  }

  lemma {:induction false} SplitWord(word: string)
    requires '/' !in word
    ensures Split(word) == [word]
  {
    if word != "" {
      SplitWord(word[1..]);
      assert word == [word[0]] + word[1..];
    }
  }

  lemma {:induction false} SplitAtSlash(word: string, rest: string)
    requires '/' !in word
    ensures Split(word + "/" + rest) == [word] + Split(rest)
  {
    var s := word + "/" + rest;
    if word == "" {
      assert s == "/" + rest && s[1..] == rest;
    } else {
      SplitAtSlash(word[1..], rest);
      assert s[1..] == word[1..] + "/" + rest;
      assert word == [word[0]] + word[1..];
    }
  }

  /** A written path begins with "../" exactly when its first segment leads up and is not
      the only one. */
  lemma UnsplitLeadsUp(segments: seq<Segment>)
    requires segments != [] && NoSlashes(segments)
    ensures "../" <= Unsplit(segments) <==> LeadsUp(segments) && |segments| > 1
  {
    if |segments| > 1 {
      WordLeadsUp(segments[0], Unsplit(segments[1..]));
    } else {
      WordIsNoPath(segments[0]);
    }
  }

  lemma WordLeadsUp(word: string, rest: string)
    requires '/' !in word
    ensures "../" <= word + "/" + rest <==> word == ".."
  {
    var s := word + "/" + rest;
    assert s[|word|] == '/';
    assert forall i :: 0 <= i < |word| ==> s[i] == word[i];
    assert |word| > 2 ==> word[2] != '/';
    if "../" <= s {
      assert "../"[0] == s[0] && "../"[1] == s[1] && "../"[2] == s[2];
      assert word == s[..2] == "..";
    }
  }

  lemma WordIsNoPath(word: string)
    requires '/' !in word
    ensures !("../" <= word)
  {
    if |word| > 2 {
      assert word[2] in word && "../"[2] == '/';
    }
  }

  /** Cleaned strings are the same exactly when the cleaned paths are. */
  lemma SameStringExactlyWhenSamePath(s: string, t: string)
    ensures CleanString(s) == CleanString(t) <==>
            Parse(s).absolute == Parse(t).absolute && CleanRaw(Parse(s)) == CleanRaw(Parse(t))
  {
    CleanIsReadBack(s);
    CleanIsReadBack(t);
  }

  lemma CleanIsReadBack(s: string)
    ensures Parse(CleanString(s)).absolute == Parse(s).absolute
    ensures CleanRaw(Parse(CleanString(s))) == CleanRaw(Parse(s))
  {
    var p := Parse(s);
    var clean := CleanRaw(p);
    SplitHasNoSlashes(s);
    if p.absolute {
      PlacesArePlain([], p.segments);
      WalkedHasNoSlashes([], p.segments);
      PlainWrittenAbsolute(clean);
    } else {
      CleanIsNormal(p.segments);
      CleanHasNoSlashes(p.segments);
      CleanTwice(clean);
      if clean == [] {
        SplitWord(".");
        assert ["."][..0] == [];
      } else {
        SplitUndoesUnsplit(clean);
        BeginsWithoutSlash(clean);
      }
    }
  }

  lemma {:induction false} WalkedHasNoSlashes(place: seq<Segment>, segments: seq<Segment>)
    requires NoSlashes(place) && NoSlashes(segments)
    ensures NoSlashes(Walk(place, segments))
  {
    if segments != [] {
      WalkedHasNoSlashes(place, segments[..|segments| - 1]);
    }
  }

  lemma PlainWrittenAbsolute(clean: seq<Segment>)
    requires AllPlain(clean) && NoSlashes(clean)
    ensures Parse("/" + Unsplit(clean)).absolute && CleanRaw(Parse("/" + Unsplit(clean))) == clean
  {
    var s := "/" + Unsplit(clean);
    assert s[1..] == Unsplit(clean);
    if clean == [] {
      assert Split(s) == ["", ""];
      assert ["", ""][..1] == [""] && [""][..0] == [];
    } else {
      SplitUndoesUnsplit(clean);
      assert Split(s) == [""] + clean;
      WalkOn([], [""], clean);
      assert [""][..0] == [];
      WalkPlain([], clean);
    }
  }

  lemma BeginsWithoutSlash(clean: seq<Segment>)
    requires clean != [] && Normal(clean) && NoSlashes(clean)
    ensures Unsplit(clean) != "" && Unsplit(clean)[0] != '/'
  {
    assert clean[0] != "" && clean[0][0] in clean[0];
  }

  /** A path annotation that cleans to one beginning with "../": its file is outside the
      package. */
  predicate Escapes(s: string) {
    "../" <= CleanString(s)
  }

  /** The check on the string lets exactly one cleaned path through that leads up: "..". */
  lemma EscapesExactly(s: string)
    ensures Escapes(s) <==> LeadsUp(CleanRaw(Parse(s))) && CleanRaw(Parse(s)) != [".."]
  {
    var p := Parse(s);
    var clean := CleanRaw(p);
    SplitHasNoSlashes(s);
    if p.absolute {
      PlacesArePlain([], p.segments);
      assert CleanString(s)[0] == '/';
    } else if clean != [] {
      CleanHasNoSlashes(p.segments);
      UnsplitLeadsUp(clean);
      if LeadsUp(clean) {
        OnlyUp(clean);
      }
    }
  }

  lemma OnlyUp(segments: seq<Segment>)
    requires LeadsUp(segments)
    ensures segments == [".."] <==> |segments| == 1
  {
  }
}
