/** What a listing contains, said of the file system alone: an event is reported if and
    only if a trail of names leads to something that calls for it. */
module ListingLaw {

  import opened Collections
  import opened FileSystem
  import opened PathBuffer
  import opened ListingSpec

  // ------------------------------------------------------- what an entry calls for

  /** The kind of the entry is known: from readdir, or because lstat succeeds. */
  predicate Known(fs: FileSystem, o: Options, e: Dirent, p: string) {
    (e.typed && !(e.inode.LinkInode? && o.followLinks)) || fs.lstats(p)
  }

  /** The entry is a link that is followed: not broken, and not followed already. */
  predicate Follows(fs: FileSystem, o: Options, e: Dirent, p: string, seen: set<LinkId>) {
    e.inode.LinkInode? && o.followLinks && e.inode.id !in seen && fs.stats(p) && !e.inode.target.Broken?
  }

  predicate IsFile(fs: FileSystem, o: Options, e: Dirent, p: string, seen: set<LinkId>) {
    Known(fs, o, e, p) && (e.inode.FileInode? || (Follows(fs, o, e, p, seen) && e.inode.target.ToFile?))
  }

  predicate IsLink(fs: FileSystem, o: Options, e: Dirent, p: string, seen: set<LinkId>) {
    Known(fs, o, e, p) && e.inode.LinkInode? && !Follows(fs, o, e, p, seen)
  }

  predicate IsDirectory(fs: FileSystem, o: Options, e: Dirent, p: string, seen: set<LinkId>) {
    && Known(fs, o, e, p) && !IsDot(e.name)
    && (e.inode.DirectoryInode? || (Follows(fs, o, e, p, seen) && e.inode.target.ToDirectory?))
  }

  /** The links followed below a directory entry. */
  function SeenBelow(e: Dirent, seen: set<LinkId>): set<LinkId> {
    if e.inode.LinkInode? then seen + {e.inode.id} else seen
  }

  /** The report that an entry itself calls for. */
  predicate Reported(fs: FileSystem, o: Options, e: Dirent, p: string, seen: set<LinkId>, x: Event) {
    || (x == FileFound(p) && IsFile(fs, o, e, p, seen))
    || (x == LinkFound(p) && IsLink(fs, o, e, p, seen))
    || (x == DirectoryFound(p) && IsDirectory(fs, o, e, p, seen))
    || (x == Fault(p) && !Known(fs, o, e, p))
  }

  // -------------------------------------------------------------- one directory

  function PathAt(fs: FileSystem, d: nat, base: string, i: nat): string
    requires d < |fs.dirs| && i < |fs.dirs[d].entries|
  {
    base + fs.dirs[d].entries[i].name
  }

  /** The entries from `i` up to but not including `k` have paths that fit. */
  ghost predicate Fit(fs: FileSystem, d: nat, base: string, i: nat, k: nat)
    requires d < |fs.dirs| && k <= |fs.dirs[d].entries|
  {
    forall j :: i <= j < k ==> |PathAt(fs, d, base, j)| <= PATH_MAX
  }

  /** The fault that ends a directory: a path that does not fit, or a failing readdir. */
  ghost predicate Ends(fs: FileSystem, d: nat, base: string, i: nat, x: Event)
    requires d < |fs.dirs| && i <= |fs.dirs[d].entries|
  {
    || (fs.dirs[d].readFails && x == Fault(Shown(base)) && Fit(fs, d, base, i, |fs.dirs[d].entries|))
    || (exists k: nat :: k < |fs.dirs[d].entries| && EndsAt(fs, d, base, i, k, x))
  }

  ghost predicate EndsAt(fs: FileSystem, d: nat, base: string, i: nat, k: nat, x: Event)
    requires d < |fs.dirs| && k < |fs.dirs[d].entries|
  {
    i <= k && Fit(fs, d, base, i, k) && |PathAt(fs, d, base, k)| > PATH_MAX && x == Fault(Shown(PathAt(fs, d, base, k)))
  }

  /** An event of the k-th entry, which is reached if all up to it fit. */
  ghost predicate Yields(fs: FileSystem, o: Options, d: nat, base: string, seen: set<LinkId>, i: nat, k: nat, x: Event)
    requires fs.WellFormed() && d < |fs.dirs| && k < |fs.dirs[d].entries|
  {
    i <= k && Fit(fs, d, base, i, k + 1) && x in Entry(fs, o, d, base, seen, k)
  }

  ghost predicate SomeYields(fs: FileSystem, o: Options, d: nat, base: string, seen: set<LinkId>, i: nat, x: Event)
    requires fs.WellFormed() && d < |fs.dirs|
  {
    exists k: nat :: k < |fs.dirs[d].entries| && Yields(fs, o, d, base, seen, i, k, x)
  }

  lemma {:induction false} EntriesLaw(fs: FileSystem, o: Options, d: nat, base: string, seen: set<LinkId>, i: nat, x: Event)
    requires fs.WellFormed() && d < |fs.dirs| && i <= |fs.dirs[d].entries|
    ensures x in Entries(fs, o, d, base, seen, i) <==> Ends(fs, d, base, i, x) || SomeYields(fs, o, d, base, seen, i, x)
    decreases |fs.dirs[d].entries| - i
  {
    var n := |fs.dirs[d].entries|;
    if i < n {
      if |PathAt(fs, d, base, i)| > PATH_MAX {
        assert EndsAt(fs, d, base, i, i, Fault(Shown(PathAt(fs, d, base, i))));
      } else {
        EntriesLaw(fs, o, d, base, seen, i + 1, x);
        FitStep(fs, d, base, i);
        EndsStep(fs, d, base, i, x);
        YieldsStep(fs, o, d, base, seen, i, x);
      }
    }
  }

  lemma FitStep(fs: FileSystem, d: nat, base: string, i: nat)
    requires d < |fs.dirs| && i < |fs.dirs[d].entries| && |PathAt(fs, d, base, i)| <= PATH_MAX
    ensures forall k: nat :: i < k <= |fs.dirs[d].entries| ==> (Fit(fs, d, base, i, k) <==> Fit(fs, d, base, i + 1, k))
  {
    forall k: nat | i < k <= |fs.dirs[d].entries| ensures Fit(fs, d, base, i, k) <==> Fit(fs, d, base, i + 1, k) {
      if Fit(fs, d, base, i + 1, k) {
        forall j | i <= j < k ensures |PathAt(fs, d, base, j)| <= PATH_MAX {}
      }
    }
  }

  lemma EndsStep(fs: FileSystem, d: nat, base: string, i: nat, x: Event)
    requires d < |fs.dirs| && i < |fs.dirs[d].entries| && |PathAt(fs, d, base, i)| <= PATH_MAX
    ensures Ends(fs, d, base, i, x) <==> Ends(fs, d, base, i + 1, x)
  {
    FitStep(fs, d, base, i);
    var i' := i + 1;
    forall k: nat | k < |fs.dirs[d].entries| ensures EndsAt(fs, d, base, i, k, x) <==> EndsAt(fs, d, base, i', k, x) {}
  }

  lemma YieldsStep(fs: FileSystem, o: Options, d: nat, base: string, seen: set<LinkId>, i: nat, x: Event)
    requires fs.WellFormed() && d < |fs.dirs| && i < |fs.dirs[d].entries| && |PathAt(fs, d, base, i)| <= PATH_MAX
    ensures SomeYields(fs, o, d, base, seen, i, x) <==>
            x in Entry(fs, o, d, base, seen, i) || SomeYields(fs, o, d, base, seen, i + 1, x)
  {
    FitStep(fs, d, base, i);
    forall k: nat | i < k < |fs.dirs[d].entries|
      ensures Yields(fs, o, d, base, seen, i, k, x) <==> Yields(fs, o, d, base, seen, i + 1, k, x)
    {}
    if SomeYields(fs, o, d, base, seen, i, x) {
      var k: nat :| k < |fs.dirs[d].entries| && Yields(fs, o, d, base, seen, i, k, x);
      assert k > i ==> Yields(fs, o, d, base, seen, i + 1, k, x);
    }
    if SomeYields(fs, o, d, base, seen, i + 1, x) {
      var k: nat :| k < |fs.dirs[d].entries| && Yields(fs, o, d, base, seen, i + 1, k, x);
      assert Yields(fs, o, d, base, seen, i, k, x);
    } else if x in Entry(fs, o, d, base, seen, i) {
      assert Fit(fs, d, base, i, i + 1) && Yields(fs, o, d, base, seen, i, i, x);
    }
  }

  /** An entry yields its own report and, if it is a directory, what is below it. */
  lemma EntryLaw(fs: FileSystem, o: Options, d: nat, base: string, seen: set<LinkId>, i: nat, x: Event)
    requires fs.WellFormed() && d < |fs.dirs| && i < |fs.dirs[d].entries|
    ensures var e, path := fs.dirs[d].entries[i], PathAt(fs, d, base, i);
            && (IsDirectory(fs, o, e, Shown(path), seen) ==> e.LeadsTo().Some? && e.LeadsTo().value < |fs.dirs|)
            && (x in Entry(fs, o, d, base, seen, i) <==>
                  || Reported(fs, o, e, Shown(path), seen, x)
                  || (&& IsDirectory(fs, o, e, Shown(path), seen) && o.recursive
                      && x in Below(fs, o, e.LeadsTo().value, path, path + "/", SeenBelow(e, seen))))
  {
    assert fs.DirentOk(d, i);
    EnterDescends(fs, o, d, i, PathAt(fs, d, base, i), seen);
  }

  /** Going into a directory uses up a link, or goes down the tree. */
  lemma Descends(fs: FileSystem, o: Options, d: nat, i: nat, p: string, seen: set<LinkId>)
    requires fs.WellFormed() && d < |fs.dirs| && i < |fs.dirs[d].entries|
    requires IsDirectory(fs, o, fs.dirs[d].entries[i], p, seen)
    ensures var e := fs.dirs[d].entries[i];
            var seen' := SeenBelow(e, seen);
            && e.LeadsTo().Some? && e.LeadsTo().value < |fs.dirs|
            && ((seen' == seen && e.LeadsTo().value < d) || fs.Links() - seen' < fs.Links() - seen)
  {
    var e := fs.dirs[d].entries[i];
    assert fs.DirentOk(d, i);
    if e.inode.LinkInode? {
      assert e.inode.id in fs.Links();
    }
  }

  // --------------------------------------------------------------------- trails

  /** From directory `d`, opened as `path` and read under `base`, the names lead to
      something that calls for `x`. No names lead to the directory's own faults. */
  ghost predicate Calls(fs: FileSystem, o: Options, d: nat, path: string, base: string, seen: set<LinkId>, names: seq<string>, x: Event)
    requires fs.WellFormed() && d < |fs.dirs|
    decreases |names|
  {
    if !fs.opens(Shown(path)) || fs.resolve(Shown(path)).None? then names == [] && x == Fault(Shown(path))
    else if |base| > PATH_MAX then names == [] && x == Overrun(Shown(path))
    else if names == [] then Ends(fs, d, base, 0, x)
    else exists i: nat :: i < |fs.dirs[d].entries| && CallsAt(fs, o, d, base, seen, i, names, x)
  }

  ghost predicate CallsAt(fs: FileSystem, o: Options, d: nat, base: string, seen: set<LinkId>, i: nat, names: seq<string>, x: Event)
    requires fs.WellFormed() && d < |fs.dirs| && i < |fs.dirs[d].entries| && names != []
    decreases |names|, 0
  {
    var e, p := fs.dirs[d].entries[i], PathAt(fs, d, base, i);
    && e.name == names[0] && Fit(fs, d, base, 0, i + 1)
    && ((names == [e.name] && Reported(fs, o, e, Shown(p), seen, x))
        || (&& o.recursive && IsDirectory(fs, o, e, Shown(p), seen)
            && (Descends(fs, o, d, i, Shown(p), seen);
                Calls(fs, o, e.LeadsTo().value, p, p + "/", SeenBelow(e, seen), names[1..], x))))
  }

  lemma {:induction false} BelowLaw(fs: FileSystem, o: Options, d: nat, path: string, base: string, seen: set<LinkId>, x: Event)
    requires fs.WellFormed() && d < |fs.dirs|
    ensures x in Below(fs, o, d, path, base, seen) <==> exists names :: Calls(fs, o, d, path, base, seen, names, x)
    decreases fs.Links() - seen, d, 1
  {
    if !fs.opens(Shown(path)) || fs.resolve(Shown(path)).None? || |base| > PATH_MAX {
      assert x in Below(fs, o, d, path, base, seen) ==> Calls(fs, o, d, path, base, seen, [], x);
    } else {
      if x in Below(fs, o, d, path, base, seen) {
        var names := Found(fs, o, d, path, base, seen, x);
        assert Calls(fs, o, d, path, base, seen, names, x);
      } else if exists names :: Calls(fs, o, d, path, base, seen, names, x) {
        var names :| Calls(fs, o, d, path, base, seen, names, x);
        Shows(fs, o, d, path, base, seen, names, x);
      }
    }
  }

  /** Every event of a directory has its trail. */
  lemma {:induction false} Found(fs: FileSystem, o: Options, d: nat, path: string, base: string, seen: set<LinkId>, x: Event)
    returns (names: seq<string>)
    requires fs.WellFormed() && d < |fs.dirs| && x in Entries(fs, o, d, base, seen, 0)
    requires fs.opens(Shown(path)) && fs.resolve(Shown(path)).Some? && |base| <= PATH_MAX
    ensures Calls(fs, o, d, path, base, seen, names, x)
    decreases fs.Links() - seen, d, 0
  {
    EntriesLaw(fs, o, d, base, seen, 0, x);
    if Ends(fs, d, base, 0, x) {
      names := [];
    } else {
      var k: nat :| k < |fs.dirs[d].entries| && Yields(fs, o, d, base, seen, 0, k, x);
      var e, p := fs.dirs[d].entries[k], PathAt(fs, d, base, k);
      EntryLaw(fs, o, d, base, seen, k, x);
      if Reported(fs, o, e, Shown(p), seen, x) {
        names := [e.name];
      } else {
        Descends(fs, o, d, k, Shown(p), seen);
        BelowLaw(fs, o, e.LeadsTo().value, p, p + "/", SeenBelow(e, seen), x);
        var rest :| Calls(fs, o, e.LeadsTo().value, p, p + "/", SeenBelow(e, seen), rest, x);
        names := [e.name] + rest;
        assert names[1..] == rest;
      }
      assert CallsAt(fs, o, d, base, seen, k, names, x);
    }
  }

  /** What a trail calls for is reported. */
  lemma {:induction false} Shows(fs: FileSystem, o: Options, d: nat, path: string, base: string, seen: set<LinkId>, names: seq<string>, x: Event)
    requires fs.WellFormed() && d < |fs.dirs| && Calls(fs, o, d, path, base, seen, names, x)
    requires fs.opens(Shown(path)) && fs.resolve(Shown(path)).Some? && |base| <= PATH_MAX
    ensures x in Entries(fs, o, d, base, seen, 0)
    decreases fs.Links() - seen, d, 0
  {
    EntriesLaw(fs, o, d, base, seen, 0, x);
    if names != [] {
      var i: nat :| i < |fs.dirs[d].entries| && CallsAt(fs, o, d, base, seen, i, names, x);
      var e, p := fs.dirs[d].entries[i], PathAt(fs, d, base, i);
      EntryLaw(fs, o, d, base, seen, i, x);
      if !(names == [e.name] && Reported(fs, o, e, Shown(p), seen, x)) {
        Descends(fs, o, d, i, Shown(p), seen);
        assert Calls(fs, o, e.LeadsTo().value, p, p + "/", SeenBelow(e, seen), names[1..], x);
        BelowLaw(fs, o, e.LeadsTo().value, p, p + "/", SeenBelow(e, seen), x);
      }
      assert Yields(fs, o, d, base, seen, 0, i, x);
    }
  }

  /** The law of the whole listing, whatever calls fail and whatever fits. */
  lemma ListsWhatTrailsCallFor(fs: FileSystem, o: Options, root: nat, dirName: string, x: Event)
    requires fs.WellFormed() && root < |fs.dirs|
    ensures x in Listing(fs, o, root, dirName) <==>
            x == Done || exists names :: Calls(fs, o, root, dirName, dirName, {}, names, x)
  {
    BelowLaw(fs, o, root, dirName, dirName, {}, x);
  }
}
