/** Sibling groups: a breadth-first listing puts the children of position `k` at the
    positions `first[k]` up to `first[k + 1]`, after `k` itself. */
module SiblingGroups {

  ghost predicate Group(first: seq<nat>, n: nat, k: nat)
    requires k + 1 < |first|
  {
    k < first[k] <= first[k + 1] <= n
  }

  /** Groups of the first `taken` of `n` positions; position 0 is in none. */
  ghost predicate Groups(first: seq<nat>, taken: nat, n: nat) {
    && |first| == taken + 1 && first[0] == 1
    && forall k :: 0 <= k < taken ==> Group(first, n, k)
  }

  lemma {:induction false} GroupsAscend(first: seq<nat>, taken: nat, n: nat, k: nat, l: nat)
    requires Groups(first, taken, n) && k <= l <= taken
    ensures first[k] <= first[l]
    decreases l
  {
    if k < l {
      assert Group(first, n, l - 1);
      GroupsAscend(first, taken, n, k, l - 1);
    }
  }

  /** Every position before a group is in an earlier group. */
  lemma {:induction false} GroupOf(first: seq<nat>, taken: nat, n: nat, t: nat, l: nat) returns (u: nat)
    requires Groups(first, taken, n) && l <= taken && 0 < t < first[l]
    ensures u < l && u < t && first[u] <= t < first[u + 1]
    decreases l
  {
    assert Group(first, n, l - 1);
    if t < first[l - 1] {
      u := GroupOf(first, taken, n, t, l - 1);
    } else {
      u := l - 1;
    }
  }

  /** No position is in two groups. */
  lemma OneGroup(first: seq<nat>, taken: nat, n: nat, k: nat, l: nat, t: nat)
    requires Groups(first, taken, n) && k < taken && l < taken
    requires first[k] <= t < first[k + 1] && first[l] <= t < first[l + 1]
    ensures k == l
  {
    if k < l {
      GroupsAscend(first, taken, n, k + 1, l);
    } else if l < k {
      GroupsAscend(first, taken, n, l + 1, k);
    }
  }
}
