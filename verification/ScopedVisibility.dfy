/** What a pipeline sees and where its output goes in breadth-first hydration.

    Packages are the positions `0..n` of a breadth-first listing; `first[k]` up to
    `first[k + 1]` are the positions of the subpackages of `k`, and `names[k]` its path.
    `held[k]` is the resource list its node holds. */
module ScopedVisibility {
  import opened PackageGraph
  import opened DiscoverPackages
  import opened Sequences
  import opened SiblingGroups

  /** A tree given by sibling groups: every position but 0 lies in exactly one group, and
      groups come after their parents. */
  ghost predicate Tree(first: seq<nat>, n: nat) {
    0 < n && Groups(first, n, n) && first[n] == n
  }

  lemma ListingIsIndexTree(w: World, root: Path, order: seq<Path>, first: seq<nat>)
    requires Listing(w, root, order, first)
    ensures Tree(first, |order|)
  {
    QueuedInGroups(w, root, order, |order|, first);
  }

  // ---------------------------------------------------------------- scopes

  /** The package at `k` and everything below it, each package before its subpackages. */
  ghost function Scope(first: seq<nat>, n: nat, k: nat): (scope: seq<nat>)
    requires Tree(first, n) && k < n
    decreases n - k, 0
  {
    assert Group(first, n, k);
    [k] + ScopeOfRange(first, n, first[k], first[k + 1])
  }

  /** The scopes of the positions `lo` up to `hi`, one after the other. */
  ghost function ScopeOfRange(first: seq<nat>, n: nat, lo: nat, hi: nat): (scope: seq<nat>)
    requires Tree(first, n) && lo <= hi <= n
    decreases n - lo, 1, hi - lo
  {
    if lo == hi then [] else ScopeOfRange(first, n, lo, hi - 1) + Scope(first, n, hi - 1)
  }

  lemma {:induction false} ScopeBounds(first: seq<nat>, n: nat, k: nat, t: nat)
    requires Tree(first, n) && k < n && t in Scope(first, n, k)
    ensures k <= t < n
    decreases n - k, 0
  {
    assert Group(first, n, k);
    if t != k {
      RangeBounds(first, n, first[k], first[k + 1], t);
    }
  }

  lemma {:induction false} RangeBounds(first: seq<nat>, n: nat, lo: nat, hi: nat, t: nat)
    requires Tree(first, n) && lo <= hi <= n && t in ScopeOfRange(first, n, lo, hi)
    ensures lo <= t < n
    decreases n - lo, 1, hi - lo
  {
    if t in Scope(first, n, hi - 1) {
      ScopeBounds(first, n, hi - 1, t);
    } else {
      RangeBounds(first, n, lo, hi - 1, t);
    }
  }

  /** `t` is in the scope of one of the siblings. */
  lemma {:induction false} RangeMember(first: seq<nat>, n: nat, lo: nat, hi: nat, t: nat) returns (j: nat)
    requires Tree(first, n) && lo <= hi <= n && t in ScopeOfRange(first, n, lo, hi)
    ensures lo <= j < hi && t in Scope(first, n, j)
    decreases hi - lo
  {
    if t in Scope(first, n, hi - 1) {
      j := hi - 1;
    } else {
      j := RangeMember(first, n, lo, hi - 1, t);
    }
  }

  lemma {:induction false} MemberOfRange(first: seq<nat>, n: nat, lo: nat, hi: nat, j: nat, t: nat)
    requires Tree(first, n) && lo <= j < hi <= n && t in Scope(first, n, j)
    ensures t in ScopeOfRange(first, n, lo, hi)
    decreases hi - lo
  {
    if j < hi - 1 {
      MemberOfRange(first, n, lo, hi - 1, j, t);
    }
  }

  /** Below the top of a scope, every member's parent is a member too. */
  lemma {:induction false} ParentInScope(first: seq<nat>, n: nat, k: nat, t: nat) returns (u: nat)
    requires Tree(first, n) && k < n && t in Scope(first, n, k) && t != k
    ensures u < n && u < t && u in Scope(first, n, k) && first[u] <= t < first[u + 1]
    decreases n - k
  {
    assert Group(first, n, k);
    var j := RangeMember(first, n, first[k], first[k + 1], t);
    if t == j {
      u := k;
    } else {
      u := ParentInScope(first, n, j, t);
      MemberOfRange(first, n, first[k], first[k + 1], j, u);
    }
  }

  /** A scope contains the subpackages of its members. */
  lemma {:induction false} ScopeClosed(first: seq<nat>, n: nat, k: nat, u: nat, t: nat)
    requires Tree(first, n) && k < n && u < n && u in Scope(first, n, k) && first[u] <= t < first[u + 1]
    ensures t < n && t in Scope(first, n, k)
    decreases n - k
  {
    assert Group(first, n, k) && Group(first, n, u);
    if u == k {
      MemberOfRange(first, n, first[k], first[k + 1], t, t);
    } else {
      var j := RangeMember(first, n, first[k], first[k + 1], u);
      ScopeClosed(first, n, j, u, t);
      MemberOfRange(first, n, first[k], first[k + 1], j, t);
    }
  }

  /** Scopes that do not nest do not overlap. */
  lemma {:induction false} ScopesDisjoint(first: seq<nat>, n: nat, j: nat, l: nat, t: nat)
    requires Tree(first, n) && j < n && l < n
    requires j !in Scope(first, n, l) && l !in Scope(first, n, j)
    ensures !(t in Scope(first, n, j) && t in Scope(first, n, l))
    decreases t
  {
    if t in Scope(first, n, j) && t in Scope(first, n, l) {
      var u := ParentInScope(first, n, j, t);
      var v := ParentInScope(first, n, l, t);
      OneGroup(first, n, n, u, v, t);
      ScopesDisjoint(first, n, j, l, u);
    }
  }

  lemma SiblingsDisjoint(first: seq<nat>, n: nat, k: nat, j: nat, l: nat, t: nat)
    requires Tree(first, n) && k < n && first[k] <= j < l < first[k + 1] <= n
    ensures !(t in Scope(first, n, j) && t in Scope(first, n, l))
  {
    assert Group(first, n, k);
    if j in Scope(first, n, l) {
      ScopeBounds(first, n, l, j);
    } else if l in Scope(first, n, j) {
      var u := ParentInScope(first, n, j, l);
      OneGroup(first, n, n, u, k, l);
      ScopeBounds(first, n, j, u);
    } else {
      ScopesDisjoint(first, n, j, l, t);
    }
  }

  /** No package is in a scope twice. */
  lemma {:induction false} ScopeDistinct(first: seq<nat>, n: nat, k: nat)
    requires Tree(first, n) && k < n
    ensures Distinct(Scope(first, n, k))
    decreases n - k, 0
  {
    assert Group(first, n, k);
    RangeDistinct(first, n, k, first[k + 1]);
    forall t | t in ScopeOfRange(first, n, first[k], first[k + 1]) ensures t !in [k] {
      RangeBounds(first, n, first[k], first[k + 1], t);
    }
    DistinctAppend([k], ScopeOfRange(first, n, first[k], first[k + 1]));
  }

  lemma {:induction false} RangeDistinct(first: seq<nat>, n: nat, k: nat, hi: nat)
    requires Tree(first, n) && k < n && k < first[k] <= hi <= first[k + 1] <= n
    ensures Distinct(ScopeOfRange(first, n, first[k], hi))
    decreases n - k - 1, 1, hi
  {
    var lo := first[k];
    if lo < hi {
      RangeDistinct(first, n, k, hi - 1);
      ScopeDistinct(first, n, hi - 1);
      var earlier, last := ScopeOfRange(first, n, lo, hi - 1), Scope(first, n, hi - 1);
      forall t | t in last ensures t !in earlier {
        if t in earlier {
          var j := RangeMember(first, n, lo, hi - 1, t);
          SiblingsDisjoint(first, n, k, j, hi - 1, t);
        }
      }
      DistinctAppend(earlier, last);
    }
  }

  /** The root sees every package. */
  lemma {:induction false} RootSeesAll(first: seq<nat>, n: nat, t: nat)
    requires Tree(first, n) && t < n
    ensures t in Scope(first, n, 0)
    decreases t
  {
    if t > 0 {
      var u := GroupOf(first, n, n, t, n);
      RootSeesAll(first, n, u);
      ScopeClosed(first, n, 0, u, t);
    }
  }

  // ---------------------------------------------------------------- scopes and packages

  /** A scope is what its package reaches. */
  lemma ScopeIsReach(w: World, root: Path, order: seq<Path>, first: seq<nat>, k: nat, t: nat)
    requires Listing(w, root, order, first) && k < |order| && t < |order|
    ensures Tree(first, |order|)
    ensures t in Scope(first, |order|, k) <==> Reaches(w, order[k], order[t])
  {
    ListingIsIndexTree(w, root, order, first);
    if t in Scope(first, |order|, k) {
      ScopeReaches(w, root, order, first, k, t);
    }
    if Reaches(w, order[k], order[t]) {
      var walk :| WalkFromTo(w, walk, order[k], order[t]);
      WalkInScope(w, root, order, first, k, t, walk);
    }
  }

  lemma {:induction false} ScopeReaches(w: World, root: Path, order: seq<Path>, first: seq<nat>, k: nat, t: nat)
    requires Listing(w, root, order, first) && Tree(first, |order|) && k < |order|
    requires t < |order| && t in Scope(first, |order|, k)
    ensures Reaches(w, order[k], order[t])
    decreases t
  {
    if t == k {
      ReachesSelf(w, order[k]);
    } else {
      var u := ParentInScope(first, |order|, k, t);
      ScopeReaches(w, root, order, first, k, u);
      assert Siblings(w, order, first, u);
      assert order[t] == order[first[u]..first[u + 1]][t - first[u]];
      ReachesChild(w, order[k], order[u], order[t]);
    }
  }

  lemma {:induction false} WalkInScope(w: World, root: Path, order: seq<Path>, first: seq<nat>, k: nat, t: nat, walk: seq<Path>)
    requires Listing(w, root, order, first) && Tree(first, |order|) && k < |order| && t < |order|
    requires WalkFromTo(w, walk, order[k], order[t])
    ensures t in Scope(first, |order|, k)
    decreases |walk|
  {
    if |walk| > 1 {
      var j := NextOnWalk(w, root, order, first, k, walk);
      WalkInScope(w, root, order, first, j, t, walk[1..]);
      assert Group(first, |order|, k);
      MemberOfRange(first, |order|, first[k], first[k + 1], j, t);
    }
  }

  lemma NextOnWalk(w: World, root: Path, order: seq<Path>, first: seq<nat>, k: nat, walk: seq<Path>) returns (j: nat)
    requires Listing(w, root, order, first) && k < |order|
    requires IsWalk(w, walk) && |walk| > 1 && walk[0] == order[k]
    ensures j < |order| && k + 1 < |first| && first[k] <= j < first[k + 1] && order[j] == walk[1]
  {
    assert walk[1] in Children(w, walk[0]);
    var i :| 0 <= i < |Children(w, order[k])| && Children(w, order[k])[i] == walk[1];
    ChildAt(w, root, order, |order|, first, k, i);
    j := first[k] + i;
  }
}
