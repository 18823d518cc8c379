/** Removing from a package what its upstream has dropped.

    Stale files go during a walk; stale directories go afterwards if they are empty by
    then, in an order that must put directories before the directories that contain
    them.  That order compares the number of entries of a path read as a search list,
    and then the strings. */
module StaleItems {
  import opened Sequences

  // ---------------------------------------------------------------- the order

  predicate LexLess(a: string, b: string) {
    if b == "" then false
    else if a == "" then true
    else a[0] < b[0] || (a[0] == b[0] && LexLess(a[1..], b[1..]))
  }

  /** The number of entries of a path list, which the separator ':' splits. */
  function ListCount(s: string): nat {
    if s == "" then 0 else 1 + Separators(s)
  }

  function Separators(s: string): nat {
    if s == "" then 0 else (if s[0] == ':' then 1 else 0) + Separators(s[1..])
  }

  predicate RootFirst(a: string, b: string) {
    if a == "." then true
    else if b == "." then false
    else if ListCount(a) != ListCount(b) then ListCount(a) < ListCount(b)
    else LexLess(a, b)
  }

  predicate SubFirst(a: string, b: string) {
    !RootFirst(a, b)
  }

  lemma {:induction false} LexTotal(a: string, b: string)
    requires a != b
    ensures LexLess(a, b) != LexLess(b, a)
  {
    if a != "" && b != "" && a[0] == b[0] {
      assert a == [a[0]] + a[1..] && b == [b[0]] + b[1..];
      LexTotal(a[1..], b[1..]);
    }
  }

  lemma {:induction false} LexTransitive(a: string, b: string, c: string)
    requires LexLess(a, b) && LexLess(b, c)
    ensures LexLess(a, c)
  {
    if a != "" && a[0] == b[0] == c[0] {
      LexTransitive(a[1..], b[1..], c[1..]);
    }
  }

  lemma {:induction false} PrefixIsLess(a: string, suffix: string)
    requires suffix != ""
    ensures LexLess(a, a + suffix)
    ensures Separators(a) <= Separators(a + suffix)
  {
    if a != "" {
      assert (a + suffix)[1..] == a[1..] + suffix;
      PrefixIsLess(a[1..], suffix);
    } else {
      assert a + suffix == suffix;
    }
  }

  /** On distinct paths the sorter is total and asymmetric. */
  lemma SorterTotal(a: string, b: string)
    requires a != b
    ensures SubFirst(a, b) != SubFirst(b, a)
  {
    LexTotal(a, b);
  }

  /** On distinct paths the sorter is transitive. */
  lemma SorterTransitive(a: string, b: string, c: string)
    requires a != b && b != c && a != c && SubFirst(a, b) && SubFirst(b, c)
    ensures SubFirst(a, c)
  {
    LexTotal(a, b);
    LexTotal(b, c);
    LexTotal(a, c);
    if LexLess(b, a) && LexLess(c, b) {
      LexTransitive(c, b, a);
    }
  }

  /** `p` lies in or below directory `d`. */
  predicate Beneath(d: string, p: string) {
    d + "/" <= p
  }

  /** Whatever lies beneath a directory comes before it, although the segments of the
      paths are never counted: a path is a proper prefix of those beneath it. */
  lemma DescendantsFirst(d: string, p: string)
    requires Beneath(d, p)
    ensures SubFirst(p, d) && !SubFirst(d, p)
  {
    var suffix := p[|d|..];
    assert p == d + suffix && suffix != "";
    PrefixIsLess(d, suffix);
    LexTotal(d, p);
    assert p != ".";
  }

  /** The order is not by depth: what is counted are the entries of a path list, so of two
      paths without ':' the first in the alphabet is "root first", here the deeper one. */
  lemma DeeperCountsAsRootFirst()
    ensures RootFirst("a/x", "b") && !RootFirst("b", "a/x") && SubFirst("b", "a/x")
  {
    AlphabetDecides("a/x", "b");
    AlphabetDecides("b", "a/x");
    assert LexLess("a/x", "b") && !LexLess("b", "a/x");
  }

  /** Paths without ':' all count as one segment, so the alphabet alone orders them. */
  lemma AlphabetDecides(a: string, b: string)
    requires ':' !in a && ':' !in b && a != "" && b != "" && a != "." && b != "."
    ensures RootFirst(a, b) <==> LexLess(a, b)
  {
    NoSeparators(a);
    NoSeparators(b);
  }

  lemma {:induction false} NoSeparators(s: string)
    requires ':' !in s
    ensures Separators(s) == 0
  {
    if s != "" {
      NoSeparators(s[1..]);
    }
  }

  lemma BeneathTransitive(a: string, b: string, c: string)
    requires Beneath(a, b) && Beneath(b, c)
    ensures Beneath(a, c)
  {
  }

  // ---------------------------------------------------------------- sorting

  /** The path of an item below a clean root: the current directory leaves no trace in it,
      and the top of the file system already ends in a slash. */
  function Join(root: string, rel: string): string {
    Lead(root) + rel
  }

  function Lead(root: string): string {
    if root == "." then ""
    else if root == "/" then root
    else root + "/"
  }

  /** There is one slash between a root and what is joined to it, but none after the current
      directory, nor a second one after the top. */
  lemma JoinsWithOneSlash(root: string, rel: string)
    ensures Join(".", rel) == rel && Join("/", rel) == "/" + rel
    ensures root != "." && root != "/" ==> Join(root, rel) == root + "/" + rel
  {
  }

  /** Sorted by the full paths. */
  ghost predicate Sorted(root: string, s: seq<string>) {
    forall i, j :: 0 <= i < j < |s| ==> SubFirst(Join(root, s[i]), Join(root, s[j]))
  }

  lemma JoinInjective(root: string, a: string, b: string)
    ensures Join(root, a) == Join(root, b) <==> a == b
  {
    assert a == Join(root, a)[|Lead(root)|..];
    assert b == Join(root, b)[|Lead(root)|..];
  }

  /** Stands in for the library sort: some order the comparison accepts. */
  method SortDirs(root: string, dirs: seq<string>) returns (order: seq<string>)
    requires Distinct(dirs)
    ensures Sorted(root, order) && Distinct(order)
    ensures forall d :: d in order <==> d in dirs
  {
    order := [];
    for i := 0 to |dirs|
      invariant Sorted(root, order) && Distinct(order)
      invariant forall d :: d in order <==> d in dirs[..i]
    {
      order := Insert(root, order, dirs[i]);
    }
  }

  method Insert(root: string, s: seq<string>, d: string) returns (t: seq<string>)
    requires Sorted(root, s) && Distinct(s) && d !in s
    ensures Sorted(root, t) && Distinct(t)
    ensures forall e :: e in t <==> e in s || e == d
  {
    var k := 0;
    while k < |s| && SubFirst(Join(root, s[k]), Join(root, d))
      invariant k <= |s|
      invariant forall i :: 0 <= i < k ==> SubFirst(Join(root, s[i]), Join(root, d))
    {
      k := k + 1;
    }
    forall i | k <= i < |s| ensures SubFirst(Join(root, d), Join(root, s[i])) {
      AfterInsertion(root, s, d, k, i);
    }
    InsertedSorted(root, s, d, k);
    InsertedDistinct(s, d, k);
    t := s[..k] + [d] + s[k..];
  }

  lemma InsertedSorted(root: string, s: seq<string>, d: string, k: nat)
    requires Sorted(root, s) && k <= |s|
    requires forall i :: 0 <= i < k ==> SubFirst(Join(root, s[i]), Join(root, d))
    requires forall i :: k <= i < |s| ==> SubFirst(Join(root, d), Join(root, s[i]))
    ensures Sorted(root, s[..k] + [d] + s[k..])
  {
  }

  lemma InsertedDistinct(s: seq<string>, d: string, k: nat)
    requires Distinct(s) && d !in s && k <= |s|
    ensures Distinct(s[..k] + [d] + s[k..])
    ensures forall e :: e in s[..k] + [d] + s[k..] <==> e in s || e == d
  {
    assert s == s[..k] + s[k..];
  }

  lemma AfterInsertion(root: string, s: seq<string>, d: string, k: nat, i: nat)
    requires Sorted(root, s) && Distinct(s) && d !in s && k <= i < |s|
    requires !SubFirst(Join(root, s[k]), Join(root, d))
    ensures SubFirst(Join(root, d), Join(root, s[i]))
  {
    JoinInjective(root, s[k], d);
    JoinInjective(root, s[i], d);
    SorterTotal(Join(root, s[k]), Join(root, d));
    if k < i {
      JoinInjective(root, s[k], s[i]);
      SorterTransitive(Join(root, d), Join(root, s[k]), Join(root, s[i]));
    }
  }

  // ---------------------------------------------------------------- the file tree

  datatype Kind = File | Dir

  /** The items of a package below its root, by relative path. */
  type Tree = map<string, Kind>

  const KPT_FILE_NAME := "Kptfile"

  /** Once upstream, no longer upstream, and not the root Kptfile. */
  predicate Stale(org: set<string>, src: set<string>, p: string) {
    p in org && p !in src && p != KPT_FILE_NAME
  }

  ghost predicate StaleThroughout(tree: Tree, org: set<string>, src: set<string>, d: string) {
    forall p :: p in tree && Beneath(d, p) ==> Stale(org, src, p)
  }

  /** The items that go: stale files, and stale directories with nothing but stale items
      beneath them. */
  ghost predicate Goes(tree: Tree, org: set<string>, src: set<string>, p: string) {
    p in tree && Stale(org, src, p) && (tree[p] == Dir ==> StaleThroughout(tree, org, src, p))
  }

  /** `after` is `tree` without the items that go. */
  ghost predicate IsCleaned(tree: Tree, org: set<string>, src: set<string>, after: Tree) {
    && (forall p :: p in after <==> p in tree && !Goes(tree, org, src, p))
    && (forall p :: p in after ==> after[p] == tree[p])
  }

  /** What holds while directories are removed: files are settled, and of the stale
      directories those before position `n`. */
  ghost predicate CleanedUpTo(tree: Tree, org: set<string>, src: set<string>, order: seq<string>, n: nat, after: Tree)
    requires n <= |order|
  {
    && (forall p :: p in after <==> p in tree && !(Goes(tree, org, src, p) && (tree[p] == File || p in order[..n])))
    && (forall p :: p in after ==> after[p] == tree[p])
  }

  /** When its turn comes a stale directory is empty exactly when everything beneath it
      was stale. */
  lemma EmptyInTurn(root: string, tree: Tree, org: set<string>, src: set<string>, order: seq<string>, n: nat, after: Tree)
    requires Sorted(root, order) && Distinct(order) && n < |order|
    requires forall p :: p in order <==> p in tree && tree[p] == Dir && Stale(org, src, p)
    requires CleanedUpTo(tree, org, src, order, n, after)
    ensures (forall p :: p in after ==> !Beneath(order[n], p)) <==> StaleThroughout(tree, org, src, order[n])
  {
    var d := order[n];
    if StaleThroughout(tree, org, src, d) {
      forall p | p in after ensures !Beneath(d, p) {
        if Beneath(d, p) {
          forall q | q in tree && Beneath(p, q) ensures Stale(org, src, q) {
            BeneathTransitive(d, p, q);
          }
          assert Goes(tree, org, src, p);
          if tree[p] == Dir {
            BeforeInOrder(root, order, n, p);
          }
        }
      }
    } else {
      var p :| p in tree && Beneath(d, p) && !Stale(org, src, p);
      assert p in after;
    }
  }

  lemma JoinKeepsBeneath(root: string, d: string, p: string)
    requires Beneath(d, p)
    ensures Beneath(Join(root, d), Join(root, p))
  {
    assert Join(root, d) + "/" == Lead(root) + (d + "/");
  }

  lemma BeforeInOrder(root: string, order: seq<string>, n: nat, p: string)
    requires Sorted(root, order) && n < |order| && p in order && Beneath(order[n], p)
    ensures p in order[..n]
  {
    var i :| 0 <= i < |order| && order[i] == p;
    JoinKeepsBeneath(root, order[n], p);
    DescendantsFirst(Join(root, order[n]), Join(root, p));
    assert i != n;
    assert order[..n][i] == p;
  }

  class Package {
    const root: string
    var items: Tree

    constructor (root: string, items: Tree)
      ensures this.root == root && this.items == items
    {
      this.root, this.items := root, items;
    }

    /** Remove the stale files; collect the stale directories. */
    method Walk(org: set<string>, src: set<string>) returns (dirs: seq<string>)
      modifies this`items
      ensures Distinct(dirs)
      ensures forall p :: p in dirs <==> p in old(items) && old(items)[p] == Dir && Stale(org, src, p)
      ensures forall p :: p in items <==> p in old(items) && !(Stale(org, src, p) && old(items)[p] == File)
      ensures forall p :: p in items ==> items[p] == old(items)[p]
    {
      dirs := [];
      var todo := items.Keys;
      while todo != {}
        invariant todo <= old(items).Keys && Distinct(dirs)
        invariant forall p :: p in dirs <==>
                    p in old(items) && p !in todo && old(items)[p] == Dir && Stale(org, src, p)
        invariant forall p :: p in items <==>
                    p in old(items) && !(p !in todo && Stale(org, src, p) && old(items)[p] == File)
        invariant forall p :: p in items ==> items[p] == old(items)[p]
        decreases todo
      {
        var p :| p in todo;
        todo := todo - {p};
        if p != KPT_FILE_NAME && p !in src && p in org {
          if items[p] == Dir {
            dirs := dirs + [p];
          } else {
            items := items - {p};
          }
        }
      }
    }

    /** Exactly the stale files go, and the stale directories with nothing but stale items
        beneath them; everything else, the root Kptfile included, stays. */
    method RemoveStaleItems(org: set<string>, src: set<string>)
      modifies this`items
      ensures IsCleaned(old(items), org, src, items)
    {
      ghost var tree := items;
      var dirs := Walk(org, src);
      var order := SortDirs(root, dirs);
      for n := 0 to |order|
        invariant CleanedUpTo(tree, org, src, order, n, items)
      {
        var d := order[n];
        EmptyInTurn(root, tree, org, src, order, n, items);
        assert order[..n + 1] == order[..n] + [d];
        if forall p :: p in items ==> !Beneath(d, p) {
          items := items - {d};
        }
      }
      assert order[..|order|] == order;
    }
  }

  /** What survives a clean-up: whatever upstream never had, and whatever it still has.  A
      file goes exactly if upstream had it and has it no longer, and it is not the root
      Kptfile; a directory, exactly if that is so of itself and upstream had and has no
      longer everything beneath it. */
  lemma SurvivesExactly(tree: Tree, org: set<string>, src: set<string>, after: Tree, p: string)
    requires IsCleaned(tree, org, src, after) && p in tree
    ensures p !in org || p in src ==> p in after && after[p] == tree[p]
    ensures tree[p] == File ==> (p !in after <==> p in org && p !in src && p != "Kptfile")
    ensures tree[p] == Dir ==>
              (p !in after <==>
                && p in org && p !in src && p != "Kptfile"
                && forall q :: q in tree && p + "/" <= q ==> q in org && q !in src)
  {
    forall q | q in tree && p + "/" <= q ensures Beneath(p, q) && q != "Kptfile" {
      assert q[|p|] == '/';
    }
  }

  /** A second run finds nothing to remove. */
  lemma NothingLeftToRemove(tree: Tree, org: set<string>, src: set<string>, after: Tree)
    requires IsCleaned(tree, org, src, after)
    ensures IsCleaned(after, org, src, after)
    ensures forall p :: p in tree && !Stale(org, src, p) ==> p in after
    ensures KPT_FILE_NAME in tree ==> KPT_FILE_NAME in after
  {
    forall p ensures !Goes(after, org, src, p) {
      if p in after && Stale(org, src, p) {
        var q :| q in tree && Beneath(p, q) && !Stale(org, src, q);
        assert q in after;
      }
    }
  }
}
