/** Three-way update of the files of a package that are not resources. */
module NonKrmMerge {
  import opened Wrappers

  type Path = string
  type Content = string

  /** A package on disk, and those of its files that the walk reports as plain: not a
      resource file by name, not below a nested package, not git's. */
  datatype Package = Package(files: map<Path, Content>, plain: set<Path>)

  predicate Walked(p: Package) {
    p.plain <= p.files.Keys
  }

  /** How a walk sorts files: by name into resource files and others, and by the resource
      files around them, Kptfiles among them, into those it shows and those of nested
      packages, which it hides. */
  datatype Walker = Walker(isKrm: Path -> bool, shows: (set<Path>, Path) -> bool)
  {
    function KrmFiles(files: map<Path, Content>): set<Path> {
      set f | f in files && isKrm(f)
    }

    function Walk(files: map<Path, Content>): (p: Package)
      ensures Walked(p) && p.files == files
      ensures forall f :: f in p.plain <==> f in files && !isKrm(f) && shows(KrmFiles(files), f)
    {
      Package(files, set f | f in files && !isKrm(f) && shows(KrmFiles(files), f))
    }
  }

  // ---------------------------------------------------------------- the rule for one file

  predicate LocallyModified(original: Package, local: Package, f: Path)
    requires Walked(original) && Walked(local)
  {
    f in local.plain && (f in original.plain ==> local.files[f] != original.files[f])
  }

  function Lookup(files: map<Path, Content>, f: Path): Option<Content> {
    if f in files then Some(files[f]) else None
  }

  /** What is to be at `f`: a file added or modified locally stays; otherwise the updated
      one comes in; an unmodified file that the update dropped goes; the rest is not touched. */
  function Settled(updated: Package, original: Package, local: Package, f: Path): Option<Content>
    requires Walked(updated) && Walked(original) && Walked(local)
  {
    if LocallyModified(original, local, f) then Some(local.files[f])
    else if f in updated.plain then Some(updated.files[f])
    else if f in local.plain then None
    else Lookup(local.files, f)
  }

  ghost predicate IsMerged(updated: Package, original: Package, local: Package, files: map<Path, Content>)
    requires Walked(updated) && Walked(original) && Walked(local)
  {
    forall f :: Lookup(files, f) == Settled(updated, original, local, f)
  }

  // ---------------------------------------------------------------- the algorithm

  class LocalDir {
    var files: map<Path, Content>

    ghost predicate Holds(f: Path, content: Option<Content>)
      reads this
    {
      Lookup(files, f) == content
    }

    /** The first loop: note what was modified locally, remove what the update dropped.
        The files are taken in any order. */
    method DropRemoved(updated: Package, original: Package, plain: set<Path>) returns (modified: set<Path>)
      requires Walked(updated) && Walked(original) && Walked(Package(files, plain))
      modifies this
      ensures var local := Package(old(files), plain);
              && (forall f :: f in modified <==> LocallyModified(original, local, f))
              && (forall f :: Holds(f, if f in plain && f !in modified && f !in updated.plain then None else Lookup(local.files, f)))
    {
      ghost var local := Package(files, plain);
      modified := {};
      var todo := plain;
      while todo != {}
        invariant todo <= plain
        invariant forall f :: f in modified <==> f in plain - todo && LocallyModified(original, local, f)
        invariant forall f :: Holds(f, if f in plain - todo && f !in modified && f !in updated.plain
                                       then None else Lookup(local.files, f))
        decreases |todo|
      {
        var f :| f in todo;
        assert Holds(f, Lookup(local.files, f));
        todo := todo - {f};
        if f !in original.plain || original.files[f] != files[f] {
          modified := modified + {f};
        } else if f !in updated.plain {
          files := files - {f};
        }
      }
    }

    method ReplaceNonKrmFiles(walker: Walker, updatedFiles: map<Path, Content>, originalFiles: map<Path, Content>)
      modifies this
      ensures IsMerged(walker.Walk(updatedFiles), walker.Walk(originalFiles), walker.Walk(old(files)), files)
    {
      var updated, original, local := walker.Walk(updatedFiles), walker.Walk(originalFiles), walker.Walk(files);
      var modified := DropRemoved(updated, original, local.plain);
      ghost var kept := files;
      assert forall f :: f in modified || f !in updated.plain ==> Lookup(kept, f) == Settled(updated, original, local, f) by {
        forall f | f in modified || f !in updated.plain ensures Lookup(kept, f) == Settled(updated, original, local, f) {
          assert Holds(f, if f in local.plain && f !in modified && f !in updated.plain then None else Lookup(local.files, f));
        }
      }
      var todo := updated.plain;
      while todo != {}
        invariant todo <= updated.plain
        invariant forall f :: f in updated.plain - todo || f in modified || f !in updated.plain ==>
                    Holds(f, Settled(updated, original, local, f))
        decreases |todo|
      {
        var f :| f in todo;
        todo := todo - {f};
        if f !in modified {
          files := files[f := updated.files[f]];
        }
      }
      forall f ensures Lookup(files, f) == Settled(updated, original, local, f) {
        assert Holds(f, Settled(updated, original, local, f));
      }
    }
  }

  // ---------------------------------------------------------------- what the rule gives

  /** A walk of the merged package sees at least what it saw before, and nothing that
      neither package showed. */
  predicate SameWalk(updated: Package, local: Package, merged: Package) {
    && Walked(merged)
    && local.plain * merged.files.Keys <= merged.plain
    && merged.plain <= local.plain + updated.plain
  }

  /** The update touches no resource file, so nested packages stay where they are. */
  lemma WalkIsStable(walker: Walker, updated: map<Path, Content>, original: Package, local: map<Path, Content>, merged: map<Path, Content>)
    requires Walked(original) && IsMerged(walker.Walk(updated), original, walker.Walk(local), merged)
    ensures walker.KrmFiles(merged) == walker.KrmFiles(local)
    ensures SameWalk(walker.Walk(updated), walker.Walk(local), walker.Walk(merged))
  {
    var u, l, m := walker.Walk(updated), walker.Walk(local), walker.Walk(merged);
    forall f ensures f in walker.KrmFiles(merged) <==> f in walker.KrmFiles(local) {
      assert Lookup(merged, f) == Settled(u, original, l, f);
    }
    assert walker.KrmFiles(merged) == walker.KrmFiles(local);
    forall f | f in m.plain ensures f in l.plain + u.plain {
      assert Lookup(merged, f) == Settled(u, original, l, f);
    }
  }

  lemma SettledOnce(updated: Package, original: Package, local: Package, merged: Package)
    requires Walked(updated) && Walked(original) && Walked(local) && SameWalk(updated, local, merged)
    requires IsMerged(updated, original, local, merged.files)
    ensures IsMerged(updated, original, merged, merged.files)
  {
    forall f ensures Lookup(merged.files, f) == Settled(updated, original, merged, f) {
      assert Lookup(merged.files, f) == Settled(updated, original, local, f);
    }
  }

  /** Updating again, with a fresh walk of what the first update left, changes nothing. */
  lemma UpdatingTwiceChangesNothing(walker: Walker, updated: map<Path, Content>, original: map<Path, Content>,
                                    local: map<Path, Content>, merged: map<Path, Content>, again: map<Path, Content>)
    requires IsMerged(walker.Walk(updated), walker.Walk(original), walker.Walk(local), merged)
    requires IsMerged(walker.Walk(updated), walker.Walk(original), walker.Walk(merged), again)
    ensures again == merged
  {
    var u, o, l, m := walker.Walk(updated), walker.Walk(original), walker.Walk(local), walker.Walk(merged);
    WalkIsStable(walker, updated, o, local, merged);
    SettledOnce(u, o, l, m);
    forall f ensures Lookup(again, f) == Lookup(merged, f) {
      assert Lookup(again, f) == Settled(u, o, m, f);
    }
    SameFiles(again, merged);
  }

  lemma SameFiles(a: map<Path, Content>, b: map<Path, Content>)
    requires forall f :: Lookup(a, f) == Lookup(b, f)
    ensures a == b
  {
    forall f ensures (f in a <==> f in b) && (f in a ==> a[f] == b[f]) {
      assert Lookup(a, f) == Lookup(b, f);
    }
  }

  /** Every case: a file that the local walk shows and the original does not, or differs from,
      stays; one that is as in the original follows the update, in content and in removal;
      what the local walk does not show is overwritten by the update, or left alone. */
  lemma MergedExactly(updated: Package, original: Package, local: Package, merged: map<Path, Content>, f: Path)
    requires Walked(updated) && Walked(original) && Walked(local) && IsMerged(updated, original, local, merged)
    ensures f in local.plain && f !in original.plain ==> f in merged && merged[f] == local.files[f]
    ensures f in local.plain && f in original.plain && local.files[f] != original.files[f] ==>
              f in merged && merged[f] == local.files[f]
    ensures f in local.plain && f in original.plain && local.files[f] == original.files[f] ==>
              && (f in merged <==> f in updated.plain)
              && (f in updated.plain ==> merged[f] == updated.files[f])
    ensures f !in local.plain && f in updated.plain ==> f in merged && merged[f] == updated.files[f]
    ensures f !in local.plain && f !in updated.plain ==>
              (f in merged <==> f in local.files) && (f in merged ==> merged[f] == local.files[f])
  {
    assert Lookup(merged, f) == Settled(updated, original, local, f);
  }

  /** Without local changes the update is taken over exactly. */
  lemma UntouchedPackageBecomesTheUpdate(updated: Package, original: Package, local: Package, merged: map<Path, Content>)
    requires Walked(updated) && Walked(original) && Walked(local) && IsMerged(updated, original, local, merged)
    requires forall f :: f in local.plain ==> f in original.plain && original.files[f] == local.files[f]
    ensures forall f :: f in updated.plain ==> Lookup(merged, f) == Some(updated.files[f])
    ensures forall f :: f in local.plain && f !in updated.plain ==> Lookup(merged, f) == None
    ensures forall f :: f !in local.plain + updated.plain ==> Lookup(merged, f) == Lookup(local.files, f)
  {
    forall f ensures Lookup(merged, f) == Settled(updated, original, local, f) && !LocallyModified(original, local, f) {
    }
  }

  /** A local file keeps its content exactly when it was modified locally, or the update
      agrees with it, or neither walk shows it.  A file that only the update shows, because
      a nested package hides it locally, is overwritten without having been compared. */
  lemma LocalFileKeptExactlyWhen(updated: Package, original: Package, local: Package, merged: map<Path, Content>, f: Path)
    requires Walked(updated) && Walked(original) && Walked(local) && IsMerged(updated, original, local, merged)
    requires f in local.files
    ensures Lookup(merged, f) == Some(local.files[f]) <==>
            || LocallyModified(original, local, f)
            || (f in updated.plain && updated.files[f] == local.files[f])
            || (f !in local.plain && f !in updated.plain)
  {
    assert Lookup(merged, f) == Settled(updated, original, local, f);
  }

  /** Deleting a file locally is not a local change: the update brings it back. */
  lemma LocallyDeletedFileReturns(updated: Package, original: Package, local: Package, merged: map<Path, Content>, f: Path)
    requires Walked(updated) && Walked(original) && Walked(local) && IsMerged(updated, original, local, merged)
    requires f in original.plain && f !in local.files && f in updated.plain
    ensures f in merged && merged[f] == updated.files[f]
  {
    assert Lookup(merged, f) == Settled(updated, original, local, f);
  }
}
