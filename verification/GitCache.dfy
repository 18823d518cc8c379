/** The broker for a remote git repository: which commits it has fetched into the local
    clone, while branches and tags of the remote move between calls. */
module GitCache {
  import opened Sequences
  import opened Wrappers

  /** A full commit SHA. */
  type Commit = string

  const FULL_LENGTH := 40

  predicate IsFullSha(s: string) {
    |s| == FULL_LENGTH
  }

  /** What the remote has at one moment: its branches and tags, and the commits reachable
      from its branches. */
  datatype Remote = Remote(heads: map<string, Commit>, tags: map<string, Commit>, history: set<Commit>)

  /** Refs name full commits, branch names are not tag names, and the history contains at
      least the branch heads. */
  ghost predicate WellFormed(r: Remote) {
    && (forall n :: n in r.heads ==> IsFullSha(r.heads[n]) && r.heads[n] in r.history)
    && (forall n :: n in r.tags ==> IsFullSha(r.tags[n]) && n !in r.heads)
    && (forall c :: c in r.history ==> IsFullSha(c))
  }

  /** Which git commands reach the remote during one call, and what a full fetch brings.  In
      a clone that earlier fetches have left shallow that need not be the whole history. */
  datatype Network = Network(listing: bool, fetchOne: string -> bool, fetchAll: Option<set<Commit>>)

  /** A full fetch brings at least what the branches now point to, and nothing that is not
      in their history. */
  ghost predicate Brings(net: Network, r: Remote) {
    net.fetchAll.Some? ==>
      net.fetchAll.value <= r.history && forall n :: n in r.heads ==> r.heads[n] in net.fetchAll.value
  }

  ghost predicate HeadsIn(r: Remote, store: set<Commit>) {
    forall n :: n in r.heads ==> r.heads[n] in store
  }

  datatype Failure = ListingFailed | FetchFailed(r: string) | NotFound(r: string)

  function TrimPrefix(s: string, prefix: string): string {
    if prefix <= s then s[|prefix|..] else s
  }

  /** A branch if there is one of that name, else a tag. */
  function Resolve(heads: map<string, Commit>, tags: map<string, Commit>, r: string): Option<Commit> {
    var branch, tag := TrimPrefix(r, "refs/heads/"), TrimPrefix(r, "refs/tags/");
    if branch in heads then Some(heads[branch])
    else if tag in tags then Some(tags[tag])
    else None
  }

  /** A name stands for the branch of that name, or else for the tag; written in full, for
      just that; and what is neither stands for no commit. */
  lemma NamesResolve(heads: map<string, Commit>, tags: map<string, Commit>, n: string)
    ensures n in heads ==> Resolve(heads, tags, "refs/heads/" + n) == Some(heads[n])
    ensures n in tags && "refs/tags/" + n !in heads ==> Resolve(heads, tags, "refs/tags/" + n) == Some(tags[n])
    ensures !("refs/heads/" <= n) && !("refs/tags/" <= n) ==>
              && (n in heads ==> Resolve(heads, tags, n) == Some(heads[n]))
              && (n !in heads && n in tags ==> Resolve(heads, tags, n) == Some(tags[n]))
              && (n !in heads && n !in tags ==> Resolve(heads, tags, n) == None)
  {
    assert ("refs/heads/" + n)[|"refs/heads/"|..] == n;
    assert ("refs/tags/" + n)[|"refs/tags/"|..] == n;
    assert ("refs/tags/" + n)[5] == 't';
  }

  /** The commit the remote sends for a ref requested by name. */
  function Requested(remote: Remote, r: string): Option<Commit> {
    var named := Resolve(remote.heads, remote.tags, r);
    if named.Some? then named
    else if r in remote.history then Some(r)
    else None
  }

  /** Some commit in the clone has that (abbreviated) SHA. */
  ghost predicate Abbreviates(r: string, store: set<Commit>) {
    exists c :: c in store && r <= c
  }

  class Broker {
    var commitByHead: map<string, Commit>
    var commitByTag: map<string, Commit>
    var fetchedRefs: set<string>
    var store: set<Commit>           // the commits in the local clone
    ghost var fetches: seq<string>   // the keys under which commits were fetched by name

    /** Every key marked as fetched is the SHA, possibly abbreviated, of a commit in the
        clone; nothing was fetched by name twice. */
    ghost predicate Valid()
      reads this
    {
      && (forall c :: c in store ==> IsFullSha(c))
      && (forall k :: k in fetchedRefs ==> Abbreviates(k, store))
      && Distinct(fetches)
      && (forall i :: 0 <= i < |fetches| ==> fetches[i] in fetchedRefs)
    }

    constructor ()
      ensures Valid() && store == {} && fetchedRefs == {} && fetches == []
    {
      commitByHead, commitByTag, fetchedRefs, store, fetches := map[], map[], {}, {}, [];
    }

    /** A full SHA marked as fetched is in the clone. */
    lemma MarkedCommitsAreStored(c: Commit)
      requires Valid() && c in fetchedRefs && IsFullSha(c)
      ensures c in store
    {
      var d :| d in store && c <= d;
      assert c == d;
    }

    /** Refresh the view of the remote's refs. */
    method UpdateRefs(remote: Remote, net: Network) returns (ok: bool)
      modifies `commitByHead, `commitByTag
      ensures ok == net.listing
      ensures ok ==> commitByHead == remote.heads && commitByTag == remote.tags
      ensures !ok ==> commitByHead == old(commitByHead) && commitByTag == old(commitByTag)
    {
      if net.listing {
        commitByHead, commitByTag := remote.heads, remote.tags;
      }
      ok := net.listing;
    }

    function ResolveRef(r: string): string
      reads this
    {
      match Resolve(commitByHead, commitByTag, r)
      case Some(c) => c
      case None => r
    }

    /** Fetch one ref, the commit `c` of which the remote knows under that name. */
    method FetchOne(remote: Remote, net: Network, r: string, key: string) returns (failure: Option<Failure>)
      requires Valid() && WellFormed(remote) && key !in fetchedRefs
      requires Requested(remote, r).Some? ==> key == Requested(remote, r).value
      modifies `store, `fetchedRefs, `fetches
      ensures Valid() && old(store) <= store && old(fetchedRefs) <= fetchedRefs && old(fetches) <= fetches
      ensures failure == if Obtainable(remote, net, r) then None else Some(FetchFailed(r))
      ensures failure.None? ==> Requested(remote, r) == Some(key) && store == old(store) + {key}
      ensures failure.None? ==> fetchedRefs == old(fetchedRefs) + {key}
      ensures failure.Some? ==> store == old(store) && fetchedRefs == old(fetchedRefs)
    {
      var c := Requested(remote, r);
      if c.None? || !net.fetchOne(r) {
        return Some(FetchFailed(r));
      }
      store := store + {c.value};
      fetchedRefs := fetchedRefs + {key};
      fetches := fetches + [key];
      failure := None;
    }

    /** Fetch all branches, then look for the (abbreviated) commit. */
    method FetchAll(remote: Remote, net: Network, r: string) returns (failure: Option<Failure>)
      requires Valid() && WellFormed(remote) && Brings(net, remote)
      modifies `store, `fetchedRefs
      ensures Valid() && old(store) <= store && old(fetchedRefs) <= fetchedRefs
      ensures failure.None? <==> net.fetchAll.Some? && Abbreviates(r, old(store) + net.fetchAll.value)
      ensures failure.None? ==> HeadsIn(remote, store) && store == old(store) + net.fetchAll.value
      ensures failure.Some? ==> failure.value == if net.fetchAll.None? then FetchFailed(r) else NotFound(r)
    {
      if net.fetchAll.None? {
        return Some(FetchFailed(r));
      }
      store := store + net.fetchAll.value;
      if exists c :: c in store && r <= c {
        fetchedRefs := fetchedRefs + {r};
        return None;
      }
      failure := Some(NotFound(r));
    }

    /** If `r` names a branch, its current commit is there. */
    ghost predicate Serves(remote: Remote, r: string)
      reads this
    {
      TrimPrefix(r, "refs/heads/") in remote.heads ==> remote.heads[TrimPrefix(r, "refs/heads/")] in store
    }

    /** The commit that a requested branch, tag or full SHA stands for is there. */
    ghost predicate ServesExactly(remote: Remote, r: string)
      reads this
    {
      match Resolve(remote.heads, remote.tags, r)
      case Some(c) => c in store
      case None => r in store
    }

    /** `r` needs no full fetch. */
    ghost predicate Direct(remote: Remote, r: string) {
      Resolve(remote.heads, remote.tags, r).Some? || IsFullSha(r)
    }

    /** `r` makes the loop fetch everything: an abbreviated commit not yet marked. */
    ghost predicate NeedsAll(remote: Remote, r: string, marked: set<string>) {
      !Direct(remote, r) && r !in marked
    }

    /** The remote knows the ref, and fetching it works. */
    predicate Obtainable(remote: Remote, net: Network, r: string) {
      Requested(remote, r).Some? && net.fetchOne(r)
    }

    /** The commit a ref stands for, itself if it names none. */
    function KeyOf(remote: Remote, r: string): string {
      match Resolve(remote.heads, remote.tags, r)
      case Some(c) => c
      case None => r
    }

    /** What is no name has a commit of its own to ask for only if it is all forty digits of
        one that the remote has; anything shorter needs a full fetch. */
    lemma CommitsAskedForExactly(remote: Remote, net: Network, r: string, marked: set<string>)
      requires WellFormed(remote) && Resolve(remote.heads, remote.tags, r) == None
      ensures KeyOf(remote, r) == r
      ensures Obtainable(remote, net, r) <==> r in remote.history && net.fetchOne(r)
      ensures Obtainable(remote, net, r) ==> |r| == 40
      ensures NeedsAll(remote, r, marked) <==> |r| != 40 && r !in marked
    {
    }

    /** One of the first `i` refs has the key `k`. */
    ghost predicate KeyAmong(remote: Remote, refs: seq<string>, i: nat, k: string)
      requires i <= |refs|
    {
      exists j :: 0 <= j < i && KeyOf(remote, refs[j]) == k
    }

    /** The `j`-th ref is there or can be had: its key is marked, or an earlier ref has the
        same, or it can be fetched. */
    ghost predicate Obtained(remote: Remote, net: Network, refs: seq<string>, marked: set<string>, j: nat)
      requires j < |refs|
    {
      || KeyOf(remote, refs[j]) in marked || KeyAmong(remote, refs, j, KeyOf(remote, refs[j]))
      || Obtainable(remote, net, refs[j])
    }

    /** The full fetch for the `i`-th ref brings a commit it abbreviates, if none was there. */
    ghost predicate FullFetchFinds(remote: Remote, net: Network, refs: seq<string>, before: set<Commit>, i: nat)
      requires i < |refs|
    {
      net.fetchAll.Some? && exists c :: refs[i] <= c && (c in before || c in net.fetchAll.value || Asked(remote, refs, i, c))
    }

    /** All refs can be had up to the first that makes the loop fetch everything; and if there
        is one, that finds it. */
    ghost predicate AllServed(remote: Remote, net: Network, refs: seq<string>, marked: set<string>, before: set<Commit>) {
      && (forall j :: 0 <= j < |refs| && Reached(remote, refs, marked, j) && !NeedsAll(remote, refs[j], marked) ==>
            Obtained(remote, net, refs, marked, j))
      && (forall j :: 0 <= j < |refs| && Reached(remote, refs, marked, j) && NeedsAll(remote, refs[j], marked) ==>
            FullFetchFinds(remote, net, refs, before, j))
    }

    /** `failure` names the first ref that stands in the way. */
    ghost predicate Blames(remote: Remote, net: Network, refs: seq<string>, marked: set<string>, before: set<Commit>, failure: Failure) {
      exists j :: 0 <= j < |refs| && BlamesAt(remote, net, refs, marked, before, failure, j)
    }

    ghost predicate BlamesAt(remote: Remote, net: Network, refs: seq<string>, marked: set<string>, before: set<Commit>,
                             failure: Failure, j: nat)
      requires j < |refs|
    {
      && Reached(remote, refs, marked, j) && (forall l :: 0 <= l < j ==> Obtained(remote, net, refs, marked, l))
      && if NeedsAll(remote, refs[j], marked) then
           && !FullFetchFinds(remote, net, refs, before, j)
           && failure == if net.fetchAll.None? then FetchFailed(refs[j]) else NotFound(refs[j])
         else
           !Obtained(remote, net, refs, marked, j) && failure == FetchFailed(refs[j])
    }

    /** The loop gets to the `i`-th ref: none before it makes it fetch everything. */
    ghost predicate Reached(remote: Remote, refs: seq<string>, marked: set<string>, i: nat)
      requires i <= |refs|
    {
      forall j :: 0 <= j < i ==> !NeedsAll(remote, refs[j], marked)
    }

    /** One of the first `i` refs asks for commit `c`. */
    ghost predicate Asked(remote: Remote, refs: seq<string>, i: nat, c: Commit)
      requires i <= |refs|
    {
      exists j :: 0 <= j < i && Requested(remote, refs[j]) == Some(c)
    }

    lemma AskedNone(remote: Remote, refs: seq<string>)
      ensures forall c :: !Asked(remote, refs, 0, c)
      ensures forall k :: !KeyAmong(remote, refs, 0, k)
    {
    }

    /** Whether a full fetch finds the ref, seen from the store at that moment. */
    lemma FoundExactly(remote: Remote, net: Network, refs: seq<string>, before: set<Commit>, now: set<Commit>, i: nat)
      requires i < |refs| && forall c :: c in now <==> c in before || Asked(remote, refs, i, c)
      ensures FullFetchFinds(remote, net, refs, before, i) <==>
              net.fetchAll.Some? && Abbreviates(refs[i], now + net.fetchAll.value)
    {
      if net.fetchAll.Some? {
        forall c ensures c in now + net.fetchAll.value <==> c in before || c in net.fetchAll.value || Asked(remote, refs, i, c) {
        }
      }
    }

    lemma AskedOneMore(remote: Remote, refs: seq<string>, i: nat)
      requires i < |refs|
      ensures forall c :: Asked(remote, refs, i + 1, c) <==> Asked(remote, refs, i, c) || Requested(remote, refs[i]) == Some(c)
      ensures forall k :: KeyAmong(remote, refs, i + 1, k) <==> KeyAmong(remote, refs, i, k) || k == KeyOf(remote, refs[i])
    {
    }

    /** What the clone holds after a call whose `i`-th ref was the first to make the loop
        fetch everything. */
    ghost predicate HoldsAfterAll(remote: Remote, net: Network, refs: seq<string>, i: nat, before: set<Commit>)
      requires i <= |refs| && net.fetchAll.Some?
      reads this
    {
      forall c :: c in store <==> c in before || c in net.fetchAll.value || Asked(remote, refs, i, c)
    }

    /** What a call that succeeds leaves: every branch is served, tags and SHAs up to the first
        ref that makes the loop fetch everything; and what exactly the clone then holds. */
    ghost predicate Ready(remote: Remote, net: Network, refs: seq<string>, marked: set<string>, before: set<Commit>)
      reads this
    {
      && (forall i :: 0 <= i < |refs| ==> Serves(remote, refs[i]))
      && (forall i :: 0 <= i < |refs| && Reached(remote, refs, marked, i) && Direct(remote, refs[i]) ==>
            ServesExactly(remote, refs[i]))
      && (forall i :: 0 <= i < |refs| && Reached(remote, refs, marked, i) && NeedsAll(remote, refs[i], marked) ==>
            net.fetchAll.Some? && HoldsAfterAll(remote, net, refs, i, before))
      && (Reached(remote, refs, marked, |refs|) ==>
            forall c :: c in store <==> c in before || Asked(remote, refs, |refs|, c))
    }

    /** Before the `i`-th ref: those before it have been obtained, one by one. */
    ghost predicate Underway(remote: Remote, net: Network, refs: seq<string>, marked: set<string>, before: set<Commit>, i: nat)
      requires i <= |refs|
      reads this
    {
      && Reached(remote, refs, marked, i)
      && (forall j :: 0 <= j < i ==> Serves(remote, refs[j]))
      && (forall j :: 0 <= j < i && Direct(remote, refs[j]) ==> ServesExactly(remote, refs[j]))
      && (forall k :: k in fetchedRefs ==> k in marked || IsFullSha(k))
      && (forall k :: k in fetchedRefs <==> k in marked || KeyAmong(remote, refs, i, k))
      && (forall j :: 0 <= j < i ==> Obtained(remote, net, refs, marked, j))
      && (forall c :: c in store <==> c in before || Asked(remote, refs, i, c))
    }

    /** Make the requested refs available locally.  Keys are resolved commits, so a branch
        that has moved is fetched again; a ref that is neither branch, tag nor full SHA
        makes the loop fetch everything and stop, unless it is marked already. */
    method CacheRepo(remote: Remote, net: Network, refs: seq<string>) returns (failure: Option<Failure>)
      requires Valid() && WellFormed(remote) && Brings(net, remote)
      requires commitByHead == remote.heads && commitByTag == remote.tags
      modifies `store, `fetchedRefs, `fetches
      ensures Valid() && old(store) <= store && old(fetchedRefs) <= fetchedRefs && old(fetches) <= fetches
      ensures failure.None? <==> AllServed(remote, net, refs, old(fetchedRefs), old(store))
      ensures failure.None? ==> Ready(remote, net, refs, old(fetchedRefs), old(store))
      ensures failure.Some? ==> Blames(remote, net, refs, old(fetchedRefs), old(store), failure.value)
    {
      hide *;
      NothingAsked(remote, net, refs);
      for i := 0 to |refs|
        invariant Valid() && old(store) <= store && old(fetchedRefs) <= fetchedRefs && old(fetches) <= fetches
        invariant Underway(remote, net, refs, old(fetchedRefs), old(store), i)
      {
        var everything;
        failure, everything := CacheNext(remote, net, refs, i, old(fetchedRefs), old(store));
        if failure.Some? || everything {
          return;
        }
      }
      AllObtained(remote, net, refs, old(fetchedRefs), old(store));
      failure := None;
    }

    /** The `i`-th ref. */
    method CacheNext(remote: Remote, net: Network, refs: seq<string>, i: nat, ghost marked: set<string>, ghost before: set<Commit>)
      returns (failure: Option<Failure>, everything: bool)
      requires Valid() && WellFormed(remote) && Brings(net, remote) && i < |refs|
      requires commitByHead == remote.heads && commitByTag == remote.tags
      requires Underway(remote, net, refs, marked, before, i)
      modifies `store, `fetchedRefs, `fetches
      ensures Valid() && old(store) <= store && old(fetchedRefs) <= fetchedRefs && old(fetches) <= fetches
      ensures failure.None? && !everything ==> Underway(remote, net, refs, marked, before, i + 1)
      ensures failure.None? && everything ==>
                AllServed(remote, net, refs, marked, before) && Ready(remote, net, refs, marked, before)
      ensures failure.Some? ==>
                !AllServed(remote, net, refs, marked, before) && Blames(remote, net, refs, marked, before, failure.value)
    {
      hide Valid, WellFormed, Brings, Requested, Resolve, Asked, KeyOf, Obtainable, KeyAmong, AllServed, Ready, Blames, FullFetchFinds;
      AskedOneMore(remote, refs, i);
      FoundExactly(remote, net, refs, before, store, i);
      failure, everything := CacheRef(remote, net, refs[i]);
      if failure.Some? {
        Blamed(remote, net, refs, marked, before, failure.value, i);
      } else if everything {
        FullFetchEnds(remote, net, refs, marked, before, i);
      }
    }

    lemma NothingAsked(remote: Remote, net: Network, refs: seq<string>)
      ensures Underway(remote, net, refs, fetchedRefs, store, 0)
    {
      AskedNone(remote, refs);
    }

    lemma AllObtained(remote: Remote, net: Network, refs: seq<string>, marked: set<string>, before: set<Commit>)
      requires Underway(remote, net, refs, marked, before, |refs|)
      ensures AllServed(remote, net, refs, marked, before) && Ready(remote, net, refs, marked, before)
    {
    }

    lemma Blamed(remote: Remote, net: Network, refs: seq<string>, marked: set<string>, before: set<Commit>, failure: Failure, i: nat)
      requires i < |refs| && BlamesAt(remote, net, refs, marked, before, failure, i)
      ensures !AllServed(remote, net, refs, marked, before) && Blames(remote, net, refs, marked, before, failure)
    {
    }

    lemma FullFetchEnds(remote: Remote, net: Network, refs: seq<string>, marked: set<string>, before: set<Commit>, i: nat)
      requires i < |refs| && Reached(remote, refs, marked, i) && NeedsAll(remote, refs[i], marked)
      requires forall j :: 0 <= j < i ==> Obtained(remote, net, refs, marked, j)
      requires forall j :: 0 <= j < i && Direct(remote, refs[j]) ==> ServesExactly(remote, refs[j])
      requires HeadsIn(remote, store) && FullFetchFinds(remote, net, refs, before, i) && HoldsAfterAll(remote, net, refs, i, before)
      ensures AllServed(remote, net, refs, marked, before) && Ready(remote, net, refs, marked, before)
    {
      hide Obtained, HoldsAfterAll, ServesExactly;
      forall j | 0 <= j <= |refs| && Reached(remote, refs, marked, j) ensures j <= i {
        StopsThere(remote, refs, marked, i, j);
      }
    }

    lemma StopsThere(remote: Remote, refs: seq<string>, marked: set<string>, i: nat, j: nat)
      requires i < |refs| && j <= |refs| && NeedsAll(remote, refs[i], marked) && Reached(remote, refs, marked, j)
      ensures j <= i
    {
    }

    /** One requested ref; `everything` says that all branches have been fetched for it. */
    method CacheRef(remote: Remote, net: Network, r: string) returns (failure: Option<Failure>, everything: bool)
      requires Valid() && WellFormed(remote) && Brings(net, remote)
      requires commitByHead == remote.heads && commitByTag == remote.tags
      modifies `store, `fetchedRefs, `fetches
      ensures Valid() && old(store) <= store && old(fetchedRefs) <= fetchedRefs && old(fetches) <= fetches
      ensures everything <==> NeedsAll(remote, r, old(fetchedRefs))
      ensures everything && failure.None? ==> HeadsIn(remote, store)
      ensures everything ==>
                (failure.None? <==> net.fetchAll.Some? && Abbreviates(r, old(store) + net.fetchAll.value))
      ensures everything && failure.None? ==> store == old(store) + net.fetchAll.value
      ensures everything && failure.Some? ==> failure.value == if net.fetchAll.None? then FetchFailed(r) else NotFound(r)
      ensures !everything ==>
                failure == if KeyOf(remote, r) in old(fetchedRefs) || Obtainable(remote, net, r) then None else Some(FetchFailed(r))
      ensures failure.None? && !everything ==> fetchedRefs == old(fetchedRefs) + {KeyOf(remote, r)}
      ensures failure.None? && !everything ==>
                && (forall c :: c in store <==> c in old(store) || Requested(remote, r) == Some(c))
                && (forall k :: k in fetchedRefs ==> k in old(fetchedRefs) || IsFullSha(k))
      ensures failure.None? && !everything ==> Serves(remote, r)
      ensures failure.None? && !everything && Direct(remote, r) ==> ServesExactly(remote, r)
    {
      var resolvedCommit := ResolveRef(r);
      var resolved := resolvedCommit != r;
      var cacheKey := if resolved then resolvedCommit else r;
      everything, failure := false, None;
      if cacheKey in fetchedRefs {
        if IsFullSha(cacheKey) {
          MarkedCommitsAreStored(cacheKey);
        }
      } else if resolved || IsFullSha(r) {
        failure := FetchOne(remote, net, r, cacheKey);
      } else {
        everything := true;
        failure := FetchAll(remote, net, r);
      }
    }

    /** One call, seeing the remote as it is at that moment.  If it succeeds, the current
        commit of every requested branch is in the clone, whatever was fetched, marked or
        moved before; so are requested tags and SHAs up to the first abbreviated commit not
        yet marked. */
    method GetRepo(remote: Remote, net: Network, refs: seq<string>) returns (failure: Option<Failure>)
      requires Valid() && WellFormed(remote) && Brings(net, remote)
      modifies this
      ensures Valid() && old(store) <= store && old(fetchedRefs) <= fetchedRefs && old(fetches) <= fetches
      ensures failure.None? ==> Ready(remote, net, refs, old(fetchedRefs), old(store))
      ensures failure.None? <==> net.listing && AllServed(remote, net, refs, old(fetchedRefs), old(store))
      ensures failure.Some? ==>
                if net.listing then Blames(remote, net, refs, old(fetchedRefs), old(store), failure.value)
                else failure.value == ListingFailed
    {
      var ok := UpdateRefs(remote, net);
      if !ok {
        return Some(ListingFailed);
      }
      failure := CacheRepo(remote, net, refs);
    }
  }

  /** A call that succeeds without serving a tag: it was requested after an abbreviated
      commit, and the full fetch for that does not bring the tag's commit, which is on no
      branch. */
  method LaterTagIsMissed() returns (broker: Broker, remote: Remote, refs: seq<string>, failure: Option<Failure>)
    ensures failure.None? && |refs| == 2 && refs[1] in remote.tags
    ensures broker.Valid() && broker.Direct(remote, refs[1]) && !broker.ServesExactly(remote, refs[1])
  {
    var head, tagged := seq(FULL_LENGTH, _ => 'a'), seq(FULL_LENGTH, _ => 'b');
    remote, refs := Remote(map["main" := head], map["v1" := tagged], {head}), ["aaaaaaa", "v1"];
    var net := Network(true, _ => true, Some({head}));
    broker := new Broker();
    assert refs[0] <= head && head in {head};
    assert head[0] != tagged[0] && |refs[0]| == 7;
    assert broker.NeedsAll(remote, refs[0], {}) && broker.Reached(remote, refs, {}, 0);
    assert !broker.Reached(remote, refs, {}, 1);
    hide Requested, Resolve;
    failure := broker.GetRepo(remote, net, refs);
  }
}
