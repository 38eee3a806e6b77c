/** Where no call fails and all paths fit, a listing holds exactly what the names in the
    file system lead to, each once. */
module PlainListing {

  import opened Collections
  import opened FileSystem
  import opened PathBuffer
  import opened ListingSpec
  import opened ListingLaw

  // ---------------------------------------------------------- where names lead to

  /** A directory to go into: not a dot, and a link only where links are followed and this
      one was not followed on the way. */
  predicate Enters(o: Options, e: Dirent, seen: set<LinkId>) {
    && !IsDot(e.name)
    && (e.inode.DirectoryInode? ||
        (e.inode.LinkInode? && e.inode.target.ToDirectory? && o.followLinks && e.inode.id !in seen))
  }

  /** From directory `d` the names lead through directories to the entry `e`; `seen` and
      `seen'` are the links followed to `d` and to the directory of `e`. */
  ghost predicate Leads(fs: FileSystem, o: Options, d: nat, seen: set<LinkId>, names: seq<string>, e: Dirent, seen': set<LinkId>)
    requires fs.WellFormed() && d < |fs.dirs|
    decreases |names|, 1
  {
    names != [] && exists i: nat :: i < |fs.dirs[d].entries| && LeadsBy(fs, o, d, seen, i, names, e, seen')
  }

  ghost predicate LeadsBy(fs: FileSystem, o: Options, d: nat, seen: set<LinkId>, i: nat, names: seq<string>, e: Dirent, seen': set<LinkId>)
    requires fs.WellFormed() && d < |fs.dirs| && i < |fs.dirs[d].entries| && names != []
    decreases |names|, 0
  {
    var first := fs.dirs[d].entries[i];
    && first.name == names[0]
    && if names[1..] == [] then e == first && seen' == seen
       else
         && o.recursive && Enters(o, first, seen)
         && (EntersInside(fs, o, d, i, seen);
             Leads(fs, o, first.LeadsTo().value, SeenBelow(first, seen), names[1..], e, seen'))
  }

  lemma EntersInside(fs: FileSystem, o: Options, d: nat, i: nat, seen: set<LinkId>)
    requires fs.WellFormed() && d < |fs.dirs| && i < |fs.dirs[d].entries| && Enters(o, fs.dirs[d].entries[i], seen)
    ensures var e := fs.dirs[d].entries[i];
            var seen' := SeenBelow(e, seen);
            && e.LeadsTo().Some? && e.LeadsTo().value < |fs.dirs|
            && ((seen' == seen && e.LeadsTo().value < d) || fs.Links() - seen' < fs.Links() - seen)
  {
    var e := fs.dirs[d].entries[i];
    assert fs.DirentOk(d, i);
    if e.inode.LinkInode? {
      assert e.inode.id in fs.Links();
    }
  }

  /** The path of a trail. */
  function Path(base: string, names: seq<string>): string
    requires names != []
    decreases |names|
  {
    if names[1..] == [] then base + names[0] else Path(base + names[0] + "/", names[1..])
  }

  /** What an entry calls for at path `p`. */
  predicate Wanted(o: Options, e: Dirent, seen: set<LinkId>, p: string, x: Event) {
    var followed := e.inode.LinkInode? && o.followLinks && e.inode.id !in seen && !e.inode.target.Broken?;
    || (x == FileFound(p) && (e.inode.FileInode? || (followed && e.inode.target.ToFile?)))
    || (x == LinkFound(p) && e.inode.LinkInode? && !followed)
    || (x == DirectoryFound(p) && Enters(o, e, seen))
  }

  ghost predicate NothingFails(fs: FileSystem) {
    && (forall p :: fs.opens(p)) && (forall p :: fs.lstats(p)) && (forall p :: fs.stats(p))
    && forall d :: 0 <= d < |fs.dirs| ==> !fs.dirs[d].readFails
  }

  /** Every path and a separator fit in the buffer. */
  ghost predicate AllFit(fs: FileSystem, o: Options, d: nat, base: string, seen: set<LinkId>)
    requires fs.WellFormed() && d < |fs.dirs|
  {
    && |base| < PATH_MAX
    && forall names, e, seen' :: Leads(fs, o, d, seen, names, e, seen') ==> |Path(base, names)| + 1 < PATH_MAX
  }

  lemma EntryFits(fs: FileSystem, o: Options, d: nat, base: string, seen: set<LinkId>, i: nat)
    requires fs.WellFormed() && d < |fs.dirs| && AllFit(fs, o, d, base, seen) && i < |fs.dirs[d].entries|
    ensures |PathAt(fs, d, base, i)| + 1 < PATH_MAX
  {
    var e := fs.dirs[d].entries[i];
    assert [e.name][1..] == [];
    assert LeadsBy(fs, o, d, seen, i, [e.name], e, seen);
    assert Leads(fs, o, d, seen, [e.name], e, seen);
    assert |Path(base, [e.name])| + 1 < PATH_MAX;
  }

  lemma BelowFits(fs: FileSystem, o: Options, d: nat, base: string, seen: set<LinkId>, i: nat)
    requires fs.WellFormed() && d < |fs.dirs| && AllFit(fs, o, d, base, seen) && i < |fs.dirs[d].entries|
    requires o.recursive && Enters(o, fs.dirs[d].entries[i], seen)
    ensures var e := fs.dirs[d].entries[i];
            && e.LeadsTo().Some? && e.LeadsTo().value < |fs.dirs|
            && AllFit(fs, o, e.LeadsTo().value, PathAt(fs, d, base, i) + "/", SeenBelow(e, seen))
  {
    var f := fs.dirs[d].entries[i];
    EntryFits(fs, o, d, base, seen, i);
    EntersInside(fs, o, d, i, seen);
    var c, base', below := f.LeadsTo().value, PathAt(fs, d, base, i) + "/", SeenBelow(f, seen);
    forall names, e, seen' | Leads(fs, o, c, below, names, e, seen') ensures |Path(base', names)| + 1 < PATH_MAX {
      var all := [f.name] + names;
      assert all[1..] == names;
      assert LeadsBy(fs, o, d, seen, i, all, e, seen');
      assert Leads(fs, o, d, seen, all, e, seen');
      assert Path(base, all) == Path(base', names);
    }
  }

  // ------------------------------------------------------------ the plain reading

  ghost predicate Holds(fs: FileSystem, o: Options, d: nat, base: string, seen: set<LinkId>, names: seq<string>, x: Event)
    requires fs.WellFormed() && d < |fs.dirs|
  {
    names != [] && exists e, seen' :: Leads(fs, o, d, seen, names, e, seen') && Wanted(o, e, seen', Path(base, names), x)
  }

  ghost predicate Ready(fs: FileSystem, o: Options, d: nat, path: string, base: string, seen: set<LinkId>) {
    && fs.WellFormed() && d < |fs.dirs| && fs.Compositional() && NothingFails(fs)
    && AllFit(fs, o, d, base, seen) && |path| < PATH_MAX && IsBase(base)
    && fs.resolve(path) == Some(d) && fs.resolve(base) == Some(d)
  }

  lemma ReadyBelow(fs: FileSystem, o: Options, d: nat, path: string, base: string, seen: set<LinkId>, i: nat)
    requires Ready(fs, o, d, path, base, seen) && i < |fs.dirs[d].entries|
    requires o.recursive && Enters(o, fs.dirs[d].entries[i], seen)
    ensures var e, p := fs.dirs[d].entries[i], PathAt(fs, d, base, i);
            e.LeadsTo().Some? && Ready(fs, o, e.LeadsTo().value, p, p + "/", SeenBelow(e, seen))
  {
    EntryFits(fs, o, d, base, seen, i);
    BelowFits(fs, o, d, base, seen, i);
    EntersInside(fs, o, d, i, seen);
    assert fs.Composes(base, d, i);
  }

  lemma PlainEntry(fs: FileSystem, o: Options, d: nat, path: string, base: string, seen: set<LinkId>, i: nat, x: Event)
    requires Ready(fs, o, d, path, base, seen) && i < |fs.dirs[d].entries|
    ensures var e, p := fs.dirs[d].entries[i], PathAt(fs, d, base, i);
            && Shown(p) == p && Fit(fs, d, base, 0, i + 1)
            && (IsDirectory(fs, o, e, p, seen) <==> Enters(o, e, seen))
            && (Reported(fs, o, e, p, seen, x) <==> Wanted(o, e, seen, p, x))
  {
    EntryFits(fs, o, d, base, seen, i);
    forall j: nat | 0 <= j < i + 1 ensures |PathAt(fs, d, base, j)| <= PATH_MAX {
      EntryFits(fs, o, d, base, seen, j);
    }
    assert fs.lstats(PathAt(fs, d, base, i)) && fs.stats(PathAt(fs, d, base, i));
  }

  lemma NoEnd(fs: FileSystem, o: Options, d: nat, path: string, base: string, seen: set<LinkId>, x: Event)
    requires Ready(fs, o, d, path, base, seen)
    ensures !Ends(fs, d, base, 0, x)
  {
    forall k: nat | k < |fs.dirs[d].entries| ensures !EndsAt(fs, d, base, 0, k, x) {
      EntryFits(fs, o, d, base, seen, k);
    }
  }

  /** A trail calls for an event exactly when it leads to an entry that does. */
  lemma {:induction false} PlainCalls(fs: FileSystem, o: Options, d: nat, path: string, base: string, seen: set<LinkId>, names: seq<string>, x: Event)
    requires Ready(fs, o, d, path, base, seen)
    ensures Calls(fs, o, d, path, base, seen, names, x) <==> Holds(fs, o, d, base, seen, names, x)
    decreases |names|, 1
  {
    assert fs.opens(Shown(path)) && Shown(path) == path;
    if names == [] {
      NoEnd(fs, o, d, path, base, seen, x);
    } else {
      forall i: nat | i < |fs.dirs[d].entries|
        ensures CallsAt(fs, o, d, base, seen, i, names, x) <==> HoldsAt(fs, o, d, base, seen, i, names, x)
      {
        PlainCallsAt(fs, o, d, path, base, seen, i, names, x);
      }
      HoldsSomewhere(fs, o, d, base, seen, names, x);
    }
  }

  ghost predicate HoldsAt(fs: FileSystem, o: Options, d: nat, base: string, seen: set<LinkId>, i: nat, names: seq<string>, x: Event)
    requires fs.WellFormed() && d < |fs.dirs| && i < |fs.dirs[d].entries| && names != []
  {
    exists e, seen' :: LeadsBy(fs, o, d, seen, i, names, e, seen') && Wanted(o, e, seen', Path(base, names), x)
  }

  lemma FirstStep(fs: FileSystem, o: Options, d: nat, seen: set<LinkId>, names: seq<string>, e: Dirent, seen': set<LinkId>)
    returns (i: nat)
    requires fs.WellFormed() && d < |fs.dirs| && Leads(fs, o, d, seen, names, e, seen')
    ensures i < |fs.dirs[d].entries| && LeadsBy(fs, o, d, seen, i, names, e, seen')
  {
    i :| i < |fs.dirs[d].entries| && LeadsBy(fs, o, d, seen, i, names, e, seen');
  }

  lemma HoldsSomewhere(fs: FileSystem, o: Options, d: nat, base: string, seen: set<LinkId>, names: seq<string>, x: Event)
    requires fs.WellFormed() && d < |fs.dirs| && names != []
    ensures Holds(fs, o, d, base, seen, names, x) <==>
            exists i: nat :: i < |fs.dirs[d].entries| && HoldsAt(fs, o, d, base, seen, i, names, x)
  {
    if Holds(fs, o, d, base, seen, names, x) {
      var e, seen' :| Leads(fs, o, d, seen, names, e, seen') && Wanted(o, e, seen', Path(base, names), x);
      var i := FirstStep(fs, o, d, seen, names, e, seen');
      assert HoldsAt(fs, o, d, base, seen, i, names, x);
    }
    if exists i: nat :: i < |fs.dirs[d].entries| && HoldsAt(fs, o, d, base, seen, i, names, x) {
      var i: nat :| i < |fs.dirs[d].entries| && HoldsAt(fs, o, d, base, seen, i, names, x);
      var e, seen' :| LeadsBy(fs, o, d, seen, i, names, e, seen') && Wanted(o, e, seen', Path(base, names), x);
      assert Leads(fs, o, d, seen, names, e, seen');
    }
  }

  lemma {:induction false} PlainCallsAt(fs: FileSystem, o: Options, d: nat, path: string, base: string, seen: set<LinkId>, i: nat, names: seq<string>, x: Event)
    requires Ready(fs, o, d, path, base, seen) && i < |fs.dirs[d].entries| && names != []
    ensures CallsAt(fs, o, d, base, seen, i, names, x) <==> HoldsAt(fs, o, d, base, seen, i, names, x)
    decreases |names|, 0
  {
    var e, p := fs.dirs[d].entries[i], PathAt(fs, d, base, i);
    PlainEntry(fs, o, d, path, base, seen, i, x);
    if e.name == names[0] {
      assert names == [names[0]] + names[1..];
      if o.recursive && Enters(o, e, seen) {
        ReadyBelow(fs, o, d, path, base, seen, i);
        PlainCalls(fs, o, e.LeadsTo().value, p, p + "/", SeenBelow(e, seen), names[1..], x);
        LeadsFurther(fs, o, d, base, seen, i, names, x);
      } else {
        assert names[1..] == [] ==> LeadsBy(fs, o, d, seen, i, names, e, seen);
      }
    }
  }

  lemma LeadsFurther(fs: FileSystem, o: Options, d: nat, base: string, seen: set<LinkId>, i: nat, names: seq<string>, x: Event)
    requires fs.WellFormed() && d < |fs.dirs| && i < |fs.dirs[d].entries| && names != []
    requires var e := fs.dirs[d].entries[i];
             e.name == names[0] && o.recursive && Enters(o, e, seen) && e.LeadsTo().Some? && e.LeadsTo().value < |fs.dirs|
    ensures var e, p := fs.dirs[d].entries[i], PathAt(fs, d, base, i);
            HoldsAt(fs, o, d, base, seen, i, names, x) <==>
              if names[1..] == [] then Wanted(o, e, seen, p, x)
              else Holds(fs, o, e.LeadsTo().value, p + "/", SeenBelow(e, seen), names[1..], x)
  {
    var f, p := fs.dirs[d].entries[i], PathAt(fs, d, base, i);
    if names[1..] == [] {
      assert LeadsBy(fs, o, d, seen, i, names, f, seen);
    } else {
      assert Path(base, names) == Path(p + "/", names[1..]);
      forall e, seen'
        ensures LeadsBy(fs, o, d, seen, i, names, e, seen') <==>
                Leads(fs, o, f.LeadsTo().value, SeenBelow(f, seen), names[1..], e, seen')
      {}
    }
  }

  /** The plain law: an event is in the listing if and only if it is what some entry, to
      which names lead from the root, calls for at the path of those names. */
  lemma ListsExactly(fs: FileSystem, o: Options, root: nat, dirName: string, x: Event)
    requires Ready(fs, o, root, dirName, dirName, {})
    ensures x in Listing(fs, o, root, dirName) <==>
            x == Done || exists names :: Holds(fs, o, root, dirName, {}, names, x)
  {
    ListsWhatTrailsCallFor(fs, o, root, dirName, x);
    if exists names :: Calls(fs, o, root, dirName, dirName, {}, names, x) {
      var names :| Calls(fs, o, root, dirName, dirName, {}, names, x);
      PlainCalls(fs, o, root, dirName, dirName, {}, names, x);
    }
    if exists names :: Holds(fs, o, root, dirName, {}, names, x) {
      var names :| Holds(fs, o, root, dirName, {}, names, x);
      PlainCalls(fs, o, root, dirName, dirName, {}, names, x);
    }
  }
  // ------------------------------------------------------------------ each once

  /** `p` is the path of entry `name` under `base`, or of something below it. */
  predicate Starts(p: string, base: string, name: string) {
    p == base + name || (|p| > |base + name| && p[..|base + name| + 1] == base + name + "/")
  }

  lemma StartsOnce(p: string, base: string, m: string, n: string)
    requires Starts(p, base, m) && Starts(p, base, n) && '/' !in m && '/' !in n
    ensures m == n
  {
    StartsNoLonger(p, base, m, n);
    StartsNoLonger(p, base, n, m);
    assert p[..|base + m|] == base + m && p[..|base + n|] == base + n;
    assert (base + m)[|base|..] == m && (base + n)[|base|..] == n;
  }

  lemma StartsNoLonger(p: string, base: string, m: string, n: string)
    requires Starts(p, base, m) && Starts(p, base, n) && '/' !in n
    ensures |n| <= |m|
  {
    var k := |base + m|;
    assert k < |p| && p != base + m ==> p[..k + 1][k] == p[k];
  }

  lemma StartsInside(p: string, base: string, name: string)
    requires Starts(p, base, name)
    ensures base <= p
  {
    assert p[..|base + name|] == base + name;
  }

  ghost predicate Under(p: string, fs: FileSystem, d: nat, base: string, i: nat)
    requires d < |fs.dirs| && i <= |fs.dirs[d].entries|
  {
    exists k: nat :: k < |fs.dirs[d].entries| && k >= i && Starts(p, base, fs.dirs[d].entries[k].name)
  }

  /** The events of an entry are about its path and what is below it. */
  lemma {:induction false} EntryPaths(fs: FileSystem, o: Options, d: nat, base: string, seen: set<LinkId>, i: nat, x: Event)
    requires fs.WellFormed() && d < |fs.dirs| && i < |fs.dirs[d].entries| && AllFit(fs, o, d, base, seen)
    requires x in Entry(fs, o, d, base, seen, i)
    ensures x != Done && Starts(x.path, base, fs.dirs[d].entries[i].name)
    decreases fs.Links() - seen, d, 0
  {
    var e, p := fs.dirs[d].entries[i], PathAt(fs, d, base, i);
    EntryFits(fs, o, d, base, seen, i);
    EntryLaw(fs, o, d, base, seen, i, x);
    if !Reported(fs, o, e, p, seen, x) {
      EntersInside(fs, o, d, i, seen);
      BelowFits(fs, o, d, base, seen, i);
      BelowPaths(fs, o, e.LeadsTo().value, p, p + "/", SeenBelow(e, seen), x);
    }
  }

  /** The events of a directory are about entries of it, or faults of its own. */
  lemma {:induction false} EntriesPaths(fs: FileSystem, o: Options, d: nat, base: string, seen: set<LinkId>, i: nat, x: Event)
    requires fs.WellFormed() && d < |fs.dirs| && i <= |fs.dirs[d].entries| && AllFit(fs, o, d, base, seen)
    requires x in Entries(fs, o, d, base, seen, i)
    ensures x == Fault(base) || (x != Done && Under(x.path, fs, d, base, i))
    decreases fs.Links() - seen, d, 1
  {
    EntriesLaw(fs, o, d, base, seen, i, x);
    if Ends(fs, d, base, i, x) {
      forall k: nat | k < |fs.dirs[d].entries| ensures !EndsAt(fs, d, base, i, k, x) {
        EntryFits(fs, o, d, base, seen, k);
      }
    } else {
      var k: nat :| k < |fs.dirs[d].entries| && Yields(fs, o, d, base, seen, i, k, x);
      EntryPaths(fs, o, d, base, seen, k, x);
    }
  }

  lemma {:induction false} BelowPaths(fs: FileSystem, o: Options, d: nat, path: string, base: string, seen: set<LinkId>, x: Event)
    requires fs.WellFormed() && d < |fs.dirs| && AllFit(fs, o, d, base, seen) && |path| < PATH_MAX
    requires x in Below(fs, o, d, path, base, seen)
    ensures x == Fault(path) || (x != Done && base <= x.path)
    decreases fs.Links() - seen, d, 2
  {
    if x in Entries(fs, o, d, base, seen, 0) {
      EntriesPaths(fs, o, d, base, seen, 0, x);
      if x != Fault(base) {
        var k: nat :| k < |fs.dirs[d].entries| && k >= 0 && Starts(x.path, base, fs.dirs[d].entries[k].name);
        StartsInside(x.path, base, fs.dirs[d].entries[k].name);
      }
    }
  }

  lemma Append<T>(a: seq<T>, b: seq<T>)
    requires NoDuplicates(a) && NoDuplicates(b) && forall x :: x in a ==> x !in b
    ensures NoDuplicates(a + b)
  {
    forall i, j | 0 <= i < j < |a + b| ensures (a + b)[i] != (a + b)[j] {
      if i < |a| <= j {
        assert a[i] in a && b[j - |a|] in b;
      }
    }
  }

  lemma {:induction false} EntryOnce(fs: FileSystem, o: Options, d: nat, base: string, seen: set<LinkId>, i: nat)
    requires fs.WellFormed() && d < |fs.dirs| && i < |fs.dirs[d].entries| && AllFit(fs, o, d, base, seen)
    ensures NoDuplicates(Entry(fs, o, d, base, seen, i))
    decreases fs.Links() - seen, d, 0, 0
  {
    var path := PathAt(fs, d, base, i);
    EnterDescends(fs, o, d, i, path, seen);
    EntryFits(fs, o, d, base, seen, i);
    var v := Classify(fs, o, fs.dirs[d].entries[i], path, seen);
    if v.Enter? && o.recursive {
      BelowFits(fs, o, d, base, seen, i);
      BelowOnce(fs, o, v.d, path, path + "/", v.seen);
      var below := Below(fs, o, v.d, path, path + "/", v.seen);
      forall x | x in [DirectoryFound(path)] ensures x !in below {
        if x in below {
          BelowPaths(fs, o, v.d, path, path + "/", v.seen, x);
          assert false;
        }
      }
      Append([DirectoryFound(path)], below);
    }
  }

  lemma {:induction false} EntriesOnce(fs: FileSystem, o: Options, d: nat, base: string, seen: set<LinkId>, i: nat)
    requires fs.WellFormed() && d < |fs.dirs| && i <= |fs.dirs[d].entries| && AllFit(fs, o, d, base, seen)
    ensures NoDuplicates(Entries(fs, o, d, base, seen, i))
    decreases fs.Links() - seen, d, 1, |fs.dirs[d].entries| - i
  {
    if i < |fs.dirs[d].entries| {
      EntryFits(fs, o, d, base, seen, i);
      EntryOnce(fs, o, d, base, seen, i);
      EntriesOnce(fs, o, d, base, seen, i + 1);
      var first, rest := Entry(fs, o, d, base, seen, i), Entries(fs, o, d, base, seen, i + 1);
      forall x | x in first ensures x !in rest {
        EntryPaths(fs, o, d, base, seen, i, x);
        if x in rest {
          EntriesPaths(fs, o, d, base, seen, i + 1, x);
          Elsewhere(fs, d, base, i, x);
        }
      }
      Append(first, rest);
    }
  }

  lemma Elsewhere(fs: FileSystem, d: nat, base: string, i: nat, x: Event)
    requires fs.WellFormed() && d < |fs.dirs| && i < |fs.dirs[d].entries| && x != Done
    requires Starts(x.path, base, fs.dirs[d].entries[i].name)
    ensures x.path != base && !Under(x.path, fs, d, base, i + 1)
  {
    assert fs.DirentOk(d, i);
    forall k: nat | i < k < |fs.dirs[d].entries| ensures !Starts(x.path, base, fs.dirs[d].entries[k].name) {
      assert fs.DirentOk(d, k);
      if Starts(x.path, base, fs.dirs[d].entries[k].name) {
        StartsOnce(x.path, base, fs.dirs[d].entries[i].name, fs.dirs[d].entries[k].name);
      }
    }
  }

  lemma {:induction false} BelowOnce(fs: FileSystem, o: Options, d: nat, path: string, base: string, seen: set<LinkId>)
    requires fs.WellFormed() && d < |fs.dirs| && AllFit(fs, o, d, base, seen)
    ensures NoDuplicates(Below(fs, o, d, path, base, seen))
    decreases fs.Links() - seen, d, 2, 0
  {
    EntriesOnce(fs, o, d, base, seen, 0);
  }

  /** Whatever calls fail, nothing is reported twice. */
  lemma ListsOnce(fs: FileSystem, o: Options, root: nat, dirName: string)
    requires fs.WellFormed() && root < |fs.dirs| && AllFit(fs, o, root, dirName, {})
    ensures NoDuplicates(Listing(fs, o, root, dirName))
  {
    var below := Below(fs, o, root, dirName, dirName, {});
    BelowOnce(fs, o, root, dirName, dirName, {});
    forall x | x in below ensures x !in [Done] {
      BelowPaths(fs, o, root, dirName, dirName, {}, x);
    }
    Append(below, [Done]);
  }
}
