/** What recursive deletion promises, on the file systems of `DeleteTree`: which changes
    are the deletion of a place, when deletion cannot fail, and when a path names what it
    leads to. */
module DeleteSpec {

  import opened Collections
  import opened FileSystem
  import opened CleanPath
  import opened DeleteTree
  import opened Subtree
  import opened PathBuffer

  /** Which of the system calls, counted from the start, fail, and in which of them
      `readdir` reports a type. */
  datatype Environment = Environment(fails: nat -> bool, types: nat -> bool)

  ghost predicate NeverFails(env: Environment) {
    forall i :: !env.fails(i)
  }

  /** Every path below directory `d`, whose own path has `len` characters, leaves room
      for a separator and a dot name. */
  ghost predicate Fits(s: Fs, d: nat, len: nat)
    decreases d
  {
    && d in s.dirs && len + 3 < PATH_MAX
    && forall n :: n in s.dirs[d].entries ==>
         && len + 1 + |n| < PATH_MAX
         && var e := s.dirs[d].entries[n]; (e.DirNode? ==> e.d < d && Fits(s, e.d, len + 1 + |n|))
  }

  lemma {:induction false} FitsShrinks(s: Fs, s': Fs, d: nat, len: nat)
    requires Shrinks(s, s') && Ok(s') && Fits(s, d, len) && d in s'.dirs
    ensures Fits(s', d, len)
    decreases d
  {
    assert Shrunk(s.dirs[d], s'.dirs[d]);
    forall n | n in s'.dirs[d].entries && s'.dirs[d].entries[n].DirNode?
      ensures Fits(s', s'.dirs[d].entries[n].d, len + 1 + |n|)
    {
      assert EntryOk(s', d, n);
      FitsShrinks(s, s', s'.dirs[d].entries[n].d, len + 1 + |n|);
    }
  }

  /** Deletion of directory `d` through the path `text` cannot run into an error: no
      call fails, all paths fit, and the path does not lead through what is deleted. */
  ghost predicate Easy(env: Environment, s: Fs, text: string, d: nat) {
    && NeverFails(env) && Fits(s, d, |text|)
    && text != "" && Walk(s, Start(s, text), Parts(text)) == Some(d) && Avoids(s, Start(s, text), Parts(text), d)
  }

  /** It stays so while things inside `d` are deleted. */
  lemma EasyKept(env: Environment, s: Fs, s': Fs, text: string, d: nat)
    requires Easy(env, s, text, d) && Kept(s, s', d) && Shrinks(s, s') && Ok(s') && d in s'.dirs
    ensures Easy(env, s', text, d)
  {
    FitsShrinks(s, s', d, |text|);
    AvoidsKept(s, s', Start(s, text), Parts(text), d, d);
    AvoidsKept'(s, s', Start(s, text), Parts(text), d, d);
  }

  /** And it holds of every directory in `d`. */
  lemma EasyChild(env: Environment, s: Fs, text: string, d: nat, n: string)
    requires Ok(s) && Easy(env, s, text, d) && n in s.dirs[d].entries && s.dirs[d].entries[n].DirNode?
    ensures Easy(env, s, text + "/" + n, s.dirs[d].entries[n].d)
  {
    assert EntryOk(s, d, n);
    PartsSnoc(text, n);
    var parts, c := Parts(text), s.dirs[d].entries[n].d;
    var t := text + "/" + n;
    assert t[0] == text[0];
    assert |t| == |text| + 1 + |n|;
    WalkSnoc(s, Start(s, text), parts, n);
    AvoidsChild(s, Start(s, text), parts, d, n);
    assert (parts + [n])[..|parts|] == parts;
    ChildUnder(s, d, n, d);
  }

  lemma EasyEntry(env: Environment, s: Fs, text: string, d: nat, n: string)
    requires Ok(s) && Easy(env, s, text, d) && n in s.dirs[d].entries
    ensures |text| + 1 + |n| < PATH_MAX && Shown(text + "/" + n) == text + "/" + n
    ensures IsName(n) && Locate(s, text + "/" + n) == Named(d, n)
  {
    assert EntryOk(s, d, n);
    Inside(s, text, n);
  }

  // ---------------------------------------------------------------- outcomes

  /** The entry at a place; the root is no entry. */
  function Home(s: Fs, place: Place): Place {
    if place.Itself? && place.d in s.dirs && place.d != s.root then Named(s.dirs[place.d].parent, s.dirs[place.d].name) else place
  }

  /** What deletion does to a place: nothing outside it changes, and success removes it
      with everything below it. */
  ghost predicate Outcome(s: Fs, s': Fs, place: Place, ok: bool) {
    match Home(s, place)
    case Missing => !ok && s' == s
    case Itself(_) => !ok
    case Named(p, n) => Within(s, s', p, n) && (ok ==> Removed(s, s', p, n))
  }

  /** The path names directory `d` itself, not a link to it. */
  ghost predicate Names(s: Fs, path: string, d: nat) {
    d in s.dirs && d != s.root && EntryAt(s, path) == Some((s.dirs[d].parent, s.dirs[d].name))
  }

  function Unlinked(s: Fs, p: nat, n: string): Fs
    requires p in s.dirs
  {
    s.(dirs := s.dirs[p := s.dirs[p].(entries := s.dirs[p].entries - {n})])
  }

  lemma UnlinkedOutcome(s: Fs, p: nat, n: string)
    requires Ok(s) && p in s.dirs && n in s.dirs[p].entries && !s.dirs[p].entries[n].DirNode?
    ensures var s' := Unlinked(s, p, n); Ok(s') && Shrinks(s, s') && Within(s, s', p, n) && Removed(s, s', p, n)
  {
    UnlinkedOk(s, p, n);
    RemovedExactly(s, Unlinked(s, p, n), p, n);
  }

  lemma UnlinkedOk(s: Fs, p: nat, n: string)
    requires Ok(s) && p in s.dirs && n in s.dirs[p].entries && !s.dirs[p].entries[n].DirNode?
    ensures var s' := Unlinked(s, p, n); Ok(s') && Shrinks(s, s')
  {
    var s' := Unlinked(s, p, n);
    assert forall d, m {:trigger EntryOk(s', d, m)} :: d in s'.dirs && m in s'.dirs[d].entries ==> EntryOk(s', d, m) by {
      forall d, m | d in s'.dirs && m in s'.dirs[d].entries ensures EntryOk(s', d, m) {
        assert EntryOk(s, d, m);
      }
    }
    assert forall c {:trigger Attached(s', c)} :: c in s'.dirs ==> Attached(s', c) by {
      forall c | c in s'.dirs ensures Attached(s', c) {
        assert Attached(s, c);
      }
    }
  }

  /** The file system without the empty directory `c`. */
  function WithoutDirectory(s: Fs, c: nat): Fs
    requires c in s.dirs && s.dirs[c].parent in s.dirs
  {
    var s1 := Unlinked(s, s.dirs[c].parent, s.dirs[c].name);
    s1.(dirs := s1.dirs - {c})
  }

  lemma WithoutDirectoryOk(s: Fs, c: nat)
    requires Ok(s) && c in s.dirs && c != s.root && s.dirs[c].entries == map[]
    ensures s.dirs[c].parent in s.dirs && var s' := WithoutDirectory(s, c); Ok(s') && Shrinks(s, s')
  {
    assert Attached(s, c);
    WithoutShrinks(s, c);
    var s' := WithoutDirectory(s, c);
    assert forall d, m {:trigger EntryOk(s', d, m)} :: d in s'.dirs && m in s'.dirs[d].entries ==> EntryOk(s', d, m) by {
      forall d, m | d in s'.dirs && m in s'.dirs[d].entries ensures EntryOk(s', d, m) {
        WithoutEntryOk(s, c, d, m);
      }
    }
    assert forall x {:trigger Attached(s', x)} :: x in s'.dirs ==> Attached(s', x) by {
      forall x | x in s'.dirs ensures Attached(s', x) {
        WithoutAttached(s, c, x);
      }
    }
  }

  lemma WithoutShrinks(s: Fs, c: nat)
    requires c in s.dirs && s.dirs[c].parent in s.dirs && c != s.root && s.root in s.dirs
    ensures var s' := WithoutDirectory(s, c);
            Shrinks(s, s') && s'.root in s'.dirs && s'.dirs[s.root].parent == s.dirs[s.root].parent
  {}

  lemma WithoutEntryOk(s: Fs, c: nat, d: nat, m: string)
    requires Ok(s) && c in s.dirs && s.dirs[c].parent in s.dirs
    requires var s' := WithoutDirectory(s, c); d in s'.dirs && m in s'.dirs[d].entries
    ensures EntryOk(WithoutDirectory(s, c), d, m)
  {
    assert EntryOk(s, d, m);
    var e := s.dirs[d].entries[m];
    if e.DirNode? {
      assert e.d != c;
    }
  }

  lemma WithoutAttached(s: Fs, c: nat, x: nat)
    requires Ok(s) && c in s.dirs && c != s.root && s.dirs[c].parent in s.dirs && s.dirs[c].entries == map[]
    requires x in s.dirs && x != c
    ensures Attached(WithoutDirectory(s, c), x)
  {
    assert Attached(s, x) && Attached(s, c);
    if x != s.root {
      var p, n := s.dirs[x].parent, s.dirs[x].name;
      assert p != c;
    }
  }

  /** Removing a directory whose contents were deleted first. */
  lemma RemovedOutcome(s: Fs, s1: Fs, d: nat)
    requires Ok(s) && Ok(s1) && Shrinks(s, s1) && Kept(s, s1, d) && d in s.dirs && d in s1.dirs && d != s.root
    requires s1.dirs[d].entries == map[]
    ensures s1.dirs[d].parent in s1.dirs
    ensures var s' := WithoutDirectory(s1, d); var p, n := s.dirs[d].parent, s.dirs[d].name;
            Ok(s') && Shrinks(s, s') && Within(s, s', p, n) && Removed(s, s', p, n) && Kept(s1, s', p)
  {
    WithoutDirectoryOk(s1, d);
    assert Attached(s, d) && Attached(s1, d) && Shrunk(s.dirs[d], s1.dirs[d]);
    var s' := WithoutDirectory(s1, d);
    ShrinksTransitive(s, s1, s');
    var p, n := s.dirs[d].parent, s.dirs[d].name;
    forall x | x in s.dirs && !InPart(s, x, p, n)
      ensures x in s'.dirs && if x == p then SameBut(s.dirs[p], s'.dirs[p], n) else s'.dirs[x] == s.dirs[x]
    {
      assert !Under(s, x, d);
    }
    ChildUnder(s, p, n, p);
    assert !InPart(s, p, p, n);
    RemovedExactly(s, s', p, n);
  }

  /** Removing an entry is not undone, so a path names later what it named before. */
  lemma EntryAtShrinks(s: Fs, s': Fs, path: string)
    requires Shrinks(s, s') && EntryAt(s', path).Some?
    ensures EntryAt(s, path) == EntryAt(s', path)
    ensures var (p, n) := EntryAt(s', path).value; s.dirs[p].entries[n] == s'.dirs[p].entries[n]
  {
    var t := Trimmed(Parts(path));
    WalkShrinks(s, s', Start(s, path), t[..|t| - 1]);
    var p := EntryAt(s', path).value.0;
    assert Shrunk(s.dirs[p], s'.dirs[p]);
  }

  /** An easy path still names the directory when its contents have gone. */
  lemma NamesKept(env: Environment, s: Fs, s': Fs, path: string, d: nat)
    requires Ok(s) && Easy(env, s, path, d) && Names(s, path, d) && Kept(s, s', d) && Shrinks(s, s') && d in s'.dirs
    ensures Names(s', path, d)
  {
    assert Shrunk(s.dirs[d], s'.dirs[d]);
    var start, t := Start(s, path), Trimmed(Parts(path));
    var p := s.dirs[d].parent;
    assert Attached(s, d);
    assert !Under(s, p, d) by { if Under(s, p, d) { UnderLess(s, p, d); } }
    AvoidsTrimmed(s, start, Parts(path), d);
    AvoidsKept(s, s', start, t[..|t| - 1], d, p);
  }

  lemma {:induction false} AvoidsTrimmed(s: Fs, d: nat, parts: seq<string>, c: nat)
    requires Avoids(s, d, parts, c)
    ensures Avoids(s, d, Trimmed(parts), c)
  {
    if parts != [] && parts[|parts| - 1] == "" {
      AvoidsTrimmed(s, d, parts[..|parts| - 1], c);
    }
  }

  // ------------------------------------------------------------- shown paths

  /** What the buffer shows of a directory's path with its separator leads to it. */
  lemma ShownDirectory(s: Fs, text: string)
    requires text != "" && |text| < PATH_MAX
    ensures DirAt(s, Shown(text + "/")) == DirAt(s, text) && EntryAt(s, Shown(text + "/")) == EntryAt(s, text)
  {
    Separator(s, text);
    if |text| + 1 == PATH_MAX {
      assert (text + "/")[..|text|] == text;
    }
  }

  /** What the buffer shows of an entry's path is cut inside the name. */
  lemma ShownEntry(text: string, name: string) returns (n: string)
    requires name != "" && '/' !in name && |text| + 1 + |name| <= PATH_MAX
    ensures Shown(text + "/" + name) == text + "/" + n && '/' !in n
    ensures |text| + 1 + |name| < PATH_MAX ==> n == name
  {
    var path := text + "/" + name;
    n := if |path| < PATH_MAX then name else name[..|name| - 1];
    if |path| == PATH_MAX {
      assert path[..PATH_MAX - 1] == text + "/" + n;
      forall c | c in n ensures c != '/' {
        assert c in name;
      }
    }
  }

  /** The listed entries that are still to be deleted. */
  function Rest(listed: map<string, Node>, todo: set<string>): map<string, Node> {
    map n | n in todo && n in listed :: listed[n]
  }

  lemma RestStep(listed: map<string, Node>, todo: set<string>, name: string)
    requires name in todo
    ensures Rest(listed, todo - {name}) == Rest(listed, todo) - {name}
    ensures name in listed ==> name in Rest(listed, todo) && Rest(listed, todo)[name] == listed[name]
  {}

  lemma DotIsDirectory(s: Fs, text: string, name: string)
    requires IsDot(name) && text != "" && DirAt(s, text).Some? && Ok(s)
    ensures DirectoryAt(s, Locate(s, text + "/" + name)).Some?
  {
    PartsSnoc(text, name);
    var parts, q := Parts(text), text + "/" + name;
    assert q[0] == text[0] && q != "" && Parts(q) == parts + [name];
    WalkSnoc(s, Start(s, text), parts, name);
    assert Attached(s, DirAt(s, text).value);
  }

  lemma NothingDone(s: Fs, place: Place)
    ensures Outcome(s, s, place, false)
  {}

  /** What deleting the directory at a place amounts to. */
  lemma HomeOutcome(s: Fs, s': Fs, place: Place, d: nat, ok: bool)
    requires Ok(s) && d in s.dirs && DirectoryAt(s, place) == Some(d)
    requires !ok ==> Kept(s, s', d)
    requires ok ==> d != s.root && Within(s, s', s.dirs[d].parent, s.dirs[d].name) && Removed(s, s', s.dirs[d].parent, s.dirs[d].name)
    ensures Outcome(s, s', place, ok)
  {
    if place.Named? {
      assert EntryOk(s, place.p, place.name);
    }
    if d != s.root {
      assert Attached(s, d);
      if !ok { KeptIsWithin(s, s', s.dirs[d].parent, s.dirs[d].name, d); }
    }
  }

  /** Deleting an entry of `d`, or what its cut path names, stays inside `d`. */
  lemma EntryDeleted(s: Fs, s': Fs, text: string, name: string, n: string, d: nat, ok: bool)
    requires Ok(s) && Ok(s') && Shrinks(s, s') && d in s.dirs && text != "" && (DirAt(s, text).Some? ==> DirAt(s, text) == Some(d))
    requires EntryName(name) && !IsDot(name) && '/' !in n && (n == name || |text| + 1 + |name| == PATH_MAX)
    requires Outcome(s, s', Locate(s, text + "/" + n), ok)
    requires |text| + 1 + |name| == PATH_MAX && DirectoryAt(s, Locate(s, text + "/" + n)).Some? ==> s' == s
    ensures Kept(s, s', d) && d in s'.dirs
    ensures ok && n == name && name in s.dirs[d].entries ==> s'.dirs[d].entries == s.dirs[d].entries - {name}
  {
    Inside(s, text, n);
    var place := Locate(s, text + "/" + n);
    if place.Named? {
      WithinIsKept(s, s', d, n);
    } else if place.Itself? {
      assert DirectoryAt(s, place).Some?;
    }
  }

  predicate EntryName(name: string) {
    name != "" && '\0' !in name && '/' !in name
  }

  /** The directory entry that a path names later is the directory it led to before. */
  lemma EntryIsDirectory(s: Fs, s': Fs, path: string, d: nat)
    requires Ok(s) && Ok(s') && Shrinks(s, s') && path != "" && DirAt(s, path) == Some(d)
    requires EntryAt(s', path).Some? && var (p, n) := EntryAt(s', path).value; s'.dirs[p].entries[n].DirNode?
    ensures var (p, n) := EntryAt(s', path).value;
            && s'.dirs[p].entries[n] == DirNode(d) && d in s'.dirs && d != s.root
            && p == s.dirs[d].parent == s'.dirs[d].parent && n == s.dirs[d].name == s'.dirs[d].name && Names(s, path, d)
  {
    var (p, n) := EntryAt(s', path).value;
    EntryLeads(s', path);
    DirAtShrinks(s, s', path);
    EntryAtShrinks(s, s', path);
    assert EntryOk(s', p, n);
    assert Shrunk(s.dirs[d], s'.dirs[d]);
  }

  // -------------------------------------------------------------- the theorem

  /** A trailing separator leads through a link to a directory. */
  predicate ThroughLink(s: Fs, path: string) {
    Locate(s, path).Itself? && EntryAt(s, path).Some? &&
    var (p, n) := EntryAt(s, path).value; s.dirs[p].entries[n].LinkNode?
  }

  lemma EntryOfItself(s: Fs, path: string)
    requires Ok(s) && Locate(s, path).Itself? && EntryAt(s, path).Some?
    ensures path != "" && var (p, n) := EntryAt(s, path).value;
            s.dirs[p].entries[n] == DirNode(Locate(s, path).d) || s.dirs[p].entries[n].LinkNode?
  {
    var start, t := Start(s, path), Trimmed(Parts(path));
    var (p, n) := EntryAt(s, path).value;
    EntryLeads(s, path);
    TrimWalk(s, start, Parts(path));
  }

  /** Unless a link is passed, only the entry that the path names is touched. */
  lemma NamedOutcome(s: Fs, s': Fs, path: string, ok: bool)
    requires Ok(s) && Outcome(s, s', Locate(s, path), ok) && EntryAt(s, path).Some? && !ThroughLink(s, path)
    ensures var (p, n) := EntryAt(s, path).value; Within(s, s', p, n) && (ok ==> Removed(s, s', p, n))
  {
    var (p, n) := EntryAt(s, path).value;
    assert EntryOk(s, p, n);
    match Locate(s, path)
    case Missing =>
    case Named(_, _) => LocateEntry(s, path);
    case Itself(d) => EntryOfItself(s, path);
  }

  lemma {:induction false} AloneInEmpty(s: Fs, x: nat, d: nat)
    requires Ok(s) && d in s.dirs && s.dirs[d].entries == map[] && x in s.dirs && Under(s, x, d)
    ensures x == d
    decreases if x <= d then d - x else 0
  {
    if x != d {
      assert Attached(s, x);
      AloneInEmpty(s, s.dirs[x].parent, d);
    }
  }

  /** Through a link, what is touched lies outside the entry as soon as there is anything
      in the directory that the link leads to. */
  lemma LinkOutcome(env: Environment, s: Fs, s': Fs, path: string, d: nat)
    requires Ok(s) && Shrinks(s, s') && ThroughLink(s, path) && Locate(s, path) == Itself(d) && Easy(env, s, path, d)
    requires Kept(s, s', d) && d in s'.dirs && s'.dirs[d].entries == map[]
    ensures var (p, n) := EntryAt(s, path).value; Within(s, s', p, n) <==> s.dirs[d].entries == map[]
  {
    var (p, n) := EntryAt(s, path).value;
    assert forall x :: !InPart(s, x, p, n);
    if s.dirs[d].entries == map[] {
      forall x | x in s.dirs ensures x in s'.dirs && s'.dirs[x] == s.dirs[x] {
        if Under(s, x, d) {
          AloneInEmpty(s, x, d);
          assert Shrunk(s.dirs[d], s'.dirs[d]);
        }
      }
    } else {
      ReadOutside(env, s, path, d);
      assert !InPart(s, d, p, n);
    }
  }

  lemma ReadOutside(env: Environment, s: Fs, path: string, d: nat)
    requires Easy(env, s, path, d) && EntryAt(s, path).Some?
    ensures EntryAt(s, path).value.0 != d
  {
    AvoidsTrimmed(s, Start(s, path), Parts(path), d);
  }

  /** What is promised of a path that names an entry: nothing outside the entry is
      touched, and success removes exactly the entry. Where a trailing separator leads
      through a link, the directory behind it is emptied instead, so that the promise
      holds if and only if there is nothing in it. */
  ghost predicate Honours(env: Environment, s: Fs, s': Fs, path: string, ok: bool) {
    EntryAt(s, path).Some? ==>
      var (p, n) := EntryAt(s, path).value;
      if !ThroughLink(s, path) then Within(s, s', p, n) && (ok ==> Removed(s, s', p, n))
      else
        var d := Locate(s, path).d;
        && !ok && Kept(s, s', d)
        && (Easy(env, s, path, d) ==> (Within(s, s', p, n) <==> s.dirs[d].entries == map[]))
  }

  lemma OutcomeHonours(env: Environment, s: Fs, s': Fs, path: string, ok: bool)
    requires Ok(s) && Shrinks(s, s') && Outcome(s, s', Locate(s, path), ok)
    requires DirectoryAt(s, Locate(s, path)).Some? ==>
               var d := DirectoryAt(s, Locate(s, path)).value;
               && (!ok ==> d in s'.dirs && Kept(s, s', d))
               && (ok ==> Names(s, path, d))
               && (Easy(env, s, path, d) ==> (!ok ==> s'.dirs[d].entries == map[]))
    ensures Honours(env, s, s', path, ok)
  {
    if EntryAt(s, path).Some? {
      if ThroughLink(s, path) {
        var d := Locate(s, path).d;
        assert Attached(s, d);
        if Easy(env, s, path, d) { LinkOutcome(env, s, s', path, d); }
      } else {
        NamedOutcome(s, s', path, ok);
      }
    }
  }
}
