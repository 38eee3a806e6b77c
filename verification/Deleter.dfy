/** The recursive deleter: `DeleteFile`, `DeleteDir` and `DeleteRecursively` of
    runtime/bin/directory_linux.cc. */
module Deleter {

  import opened Collections
  import opened FileSystem
  import opened CleanPath
  import opened DeleteTree
  import opened Subtree
  import opened PathBuffer
  import opened DeleteSpec

  class Deleter {
    var fs: Fs
    var clock: nat
    const env: Environment
    const path: PathBuffer

    constructor (fs: Fs, env: Environment)
      ensures this.fs == fs && this.env == env && fresh(path) && fresh(path.data)
      ensures path.Holds("") && path.length == 0
    {
      this.fs, this.env, clock := fs, env, 0;
      path := new PathBuffer();
    }

    /** One more system call; answers whether it may succeed. */
    method Call() returns (ok: bool)
      modifies this`clock
      ensures NeverFails(env) ==> ok
    {
      ok := !env.fails(clock);
      clock := clock + 1;
    }

    /** `fstatat` without following the last link: whether there is a directory. */
    method Lstat(s: string) returns (directory: Option<bool>)
      modifies this`clock
      ensures directory.Some? ==> !Locate(fs, s).Missing? && directory.value == DirectoryAt(fs, Locate(fs, s)).Some?
      ensures NeverFails(env) && !Locate(fs, s).Missing? ==> directory.Some?
    {
      var ok := Call();
      var place := Locate(fs, s);
      directory := if ok && !place.Missing? then Some(DirectoryAt(fs, place).Some?) else None;
    }

    /** `openat`, following every link. */
    method Open(s: string) returns (d: Option<nat>)
      modifies this`clock
      ensures d.Some? ==> d == DirAt(fs, s)
      ensures NeverFails(env) ==> d == DirAt(fs, s)
    {
      var ok := Call();
      d := if ok then DirAt(fs, s) else None;
    }

    /** `unlinkat` of something that is not a directory. */
    method Unlink(s: string) returns (ok: bool)
      requires Ok(fs)
      modifies this`fs, this`clock
      ensures Ok(fs) && Shrinks(old(fs), fs) && (!ok ==> fs == old(fs))
      ensures ok ==> var place := Locate(old(fs), s);
                     && place.Named? && DirectoryAt(old(fs), place).None?
                     && Within(old(fs), fs, place.p, place.name) && Removed(old(fs), fs, place.p, place.name)
      ensures NeverFails(env) && Locate(old(fs), s).Named? && DirectoryAt(old(fs), Locate(old(fs), s)).None? ==> ok
    {
      ok := Call();
      var place := Locate(fs, s);
      ok := ok && place.Named? && DirectoryAt(fs, place).None?;
      if ok {
        UnlinkedOutcome(fs, place.p, place.name);
        fs := Unlinked(fs, place.p, place.name);
      }
    }

    /** `unlinkat` of a directory, which must be empty and named by its own entry. */
    method RemoveDirectory(s: string, ghost before: Fs, ghost d: nat) returns (ok: bool)
      requires Ok(fs) && Ok(before) && Shrinks(before, fs) && Kept(before, fs, d) && d in fs.dirs && d in before.dirs
      requires s != "" && DirAt(before, s) == Some(d)
      modifies this`fs, this`clock
      ensures Ok(fs) && Shrinks(before, fs) && (!ok ==> fs == old(fs))
      ensures ok ==> Names(before, s, d) && Within(before, fs, before.dirs[d].parent, before.dirs[d].name)
      ensures ok ==> Removed(before, fs, before.dirs[d].parent, before.dirs[d].name)
      ensures NeverFails(env) && Names(old(fs), s, d) && old(fs).dirs[d].entries == map[] ==> ok
    {
      ok := Call();
      if Names(fs, s, d) { assert Attached(fs, d); }
      var entry := EntryAt(fs, s);
      if !ok || entry.None? || !fs.dirs[entry.value.0].entries[entry.value.1].DirNode? {
        return false;
      }
      EntryIsDirectory(before, fs, s, d);
      var c := fs.dirs[entry.value.0].entries[entry.value.1].d;
      ok := fs.dirs[c].entries == map[];
      if ok {
        RemovedOutcome(before, fs, d);
        fs := WithoutDirectory(fs, c);
      }
    }

    /** Appends a name to the directory in the buffer and unlinks it. */
    method DeleteFile(name: string, ghost text: string, ghost d: nat) returns (ok: bool)
      requires Ready(text, d) && EntryName(name)
      modifies this, path, path.data
      ensures Deleted(old(fs), d) && path.Holds(text + "/")
      ensures Easy(env, old(fs), text, d) && name in old(fs).dirs[d].entries && !old(fs).dirs[d].entries[name].DirNode? ==>
                ok && fs.dirs[d].entries == old(fs).dirs[d].entries - {name}
    {
      if Easy(env, fs, text, d) && name in fs.dirs[d].entries {
        EasyEntry(env, fs, text, d, name);
      }
      ok := path.Add(name, text + "/");
      if ok {
        ghost var n := ShownEntry(text, name);
        Inside(fs, text, n);
        ok := Unlink(path.AsString());
        if ok {
          assert Locate(old(fs), text + "/" + n) == Named(d, n);
          WithinIsKept(old(fs), fs, d, n);
        }
      }
    }

    /** Dot names are left alone; anything else is deleted with all that is below it. */
    method DeleteDir(name: string, ghost text: string, ghost d: nat) returns (ok: bool)
      requires Ready(text, d) && EntryName(name)
      modifies this, path, path.data
      ensures Deleted(old(fs), d) && path.Holds(text + "/")
      ensures IsDot(name) ==> ok && fs == old(fs)
      ensures Easy(env, old(fs), text, d) && name in old(fs).dirs[d].entries && old(fs).dirs[d].entries[name].DirNode? ==>
                ok && fs.dirs[d].entries == old(fs).dirs[d].entries - {name}
      decreases PATH_MAX - |text|, 0
    {
      if name in fs.dirs[d].entries {
        assert EntryOk(fs, d, name);
      }
      if IsDot(name) {
        return true;
      }
      if Easy(env, fs, text, d) && name in fs.dirs[d].entries {
        EasyEntry(env, fs, text, d, name);
        if fs.dirs[d].entries[name].DirNode? {
          EasyChild(env, fs, text, d, name);
          LocateEntry(fs, text + "/" + name);
        }
      }
      ok := path.Add(name, text + "/");
      if ok {
        ghost var t := text + "/" + name;
        ghost var n := ShownEntry(text, name);
        Inside(fs, text, n);
        ok := DeleteRecursively(t);
        path.HoldsPrefix(t, |text| + 1);
        assert t[..|text| + 1] == text + "/";
        EntryDeleted(old(fs), fs, text, name, n, d, ok);
      }
    }

    /** Deletes what is at the path in the buffer. Nothing outside is touched; on success
        nothing of it is left; and an easy directory is always emptied, and removed if
        the path names the directory itself. */
    method DeleteRecursively(ghost text: string) returns (ok: bool)
      requires Ok(fs) && path.Holds(text) && path.length == |text| && path.AsString() == Shown(text)
      modifies this, path, path.data
      ensures Ok(fs) && Shrinks(old(fs), fs) && path.Holds(text)
      ensures Outcome(old(fs), fs, Locate(old(fs), Shown(text)), ok)
      ensures var place := Locate(old(fs), Shown(text));
              && (NeverFails(env) && place.Named? && DirectoryAt(old(fs), place).None? ==> ok)
              && (DirectoryAt(old(fs), place).Some? ==>
                    var d := DirectoryAt(old(fs), place).value;
                    && (|text| == PATH_MAX ==> !ok && fs == old(fs))
                    && (!ok ==> d in fs.dirs && Kept(old(fs), fs, d))
                    && (ok ==> Names(old(fs), text, d))
                    && (Easy(env, old(fs), text, d) ==> (ok <==> Names(old(fs), text, d)) && (!ok ==> fs.dirs[d].entries == map[])))
      decreases PATH_MAX - |text|, 3
    {
      if DirectoryAt(fs, Locate(fs, Shown(text))).Some? {
        DirectoryIsOpened(fs, Shown(text));
      }
      var directory := Lstat(path.AsString());
      if directory.None? {
        NothingDone(fs, Locate(fs, Shown(text)));
        return false;
      }
      if !directory.value {
        ok := Unlink(path.AsString());
        return;
      }
      ghost var d := DirectoryAt(fs, Locate(fs, Shown(text))).value;
      ok := path.Add("/", text);
      if !ok {
        NothingDone(fs, Locate(fs, Shown(text)));
        return false;
      }
      ShownDirectory(fs, text);
      ok := DeleteContents(text, d);
      path.HoldsPrefix(text + "/", |text|);
      assert (text + "/")[..|text|] == text;
      if ok {
        ghost var between := fs;
        if Easy(env, old(fs), text, d) && Names(old(fs), text, d) {
          NamesKept(env, old(fs), fs, text, d);
        }
        ShownDirectory(fs, text);
        ok := RemoveDirectory(path.AsString(), old(fs), d);
      }
      HomeOutcome(old(fs), fs, Locate(old(fs), text), d, ok);
    }

    /** The loop over the entries of an open directory. */
    method DeleteContents(ghost text: string, ghost d: nat) returns (ok: bool)
      requires Ready(text, d) && path.AsString() == Shown(text + "/") && DirAt(fs, text) == Some(d)
      modifies this, path, path.data
      ensures Deleted(old(fs), d) && path.Holds(text + "/")
      ensures ok ==> path.AsString() == Shown(text + "/")
      ensures Easy(env, old(fs), text, d) ==> ok && fs.dirs[d].entries == map[]
      decreases PATH_MAX - |text|, 2
    {
      ShownDirectory(fs, text);
      var fd := Open(path.AsString());
      if fd.None? {
        return false;
      }
      var listed := fs.dirs[fd.value].entries;
      var todo := listed.Keys + {".", ".."};
      assert Rest(listed, todo) == listed;
      while todo != {}
        invariant Deleted(old(fs), d) && path.Holds(text + "/") && path.length == |text| + 1
        invariant path.AsString() == Shown(text + "/") && todo <= listed.Keys + {".", ".."}
        invariant Easy(env, old(fs), text, d) ==> fs.dirs[d].entries == Rest(listed, todo)
        decreases todo
      {
        ok := Call();
        if !ok {
          return false;
        }
        var name := Pick(todo);
        ok := DeleteListed(name, listed, text, d, old(fs), todo);
        if !ok {
          return false;
        }
        todo := todo - {name};
      }
      assert Rest(listed, {}) == map[];
      ok := Call();
    }

    /** One entry that `readdir` has listed, of those in `todo` that are left. */
    method DeleteListed(name: string, listed: map<string, Node>, ghost text: string, ghost d: nat, ghost before: Fs, ghost todo: set<string>)
      returns (ok: bool)
      requires Ok(before) && DirAt(before, text) == Some(d) && before.dirs[d].entries == listed
      requires Deleted(before, d) && path.Holds(text + "/") && path.length == |text| + 1 && text != "" && |text| < PATH_MAX
      requires name in todo && todo <= listed.Keys + {".", ".."}
      requires Easy(env, before, text, d) ==> fs.dirs[d].entries == Rest(listed, todo)
      modifies this, path, path.data
      ensures Deleted(before, d) && path.Holds(text + "/")
      ensures ok ==> path.length == |text| + 1 && path.AsString() == Shown(text + "/")
      ensures Easy(env, before, text, d) ==> ok && fs.dirs[d].entries == Rest(listed, todo - {name})
      decreases PATH_MAX - |text|, 1, 1
    {
      ghost var s := fs;
      if name in listed {
        assert EntryOk(before, d, name);
      }
      if DirAt(fs, text).Some? {
        DirAtShrinks(before, fs, text);
      }
      if Easy(env, before, text, d) {
        EasyKept(env, before, fs, text, d);
        RestStep(listed, todo, name);
      }
      var isDirectory := name !in listed || listed[name].DirNode?;
      ok := DeleteEntry(name, isDirectory, text, d);
      ShrinksTransitive(before, s, fs);
      KeptTransitive(before, s, fs, d);
    }

    /** One entry of directory `d`, whose path with separator is in the buffer; on success
        the buffer is cut back to that. */
    method DeleteEntry(name: string, isDirectory: bool, ghost text: string, ghost d: nat) returns (ok: bool)
      requires Ready(text, d) && EntryName(name) && (IsDot(name) ==> isDirectory)
      modifies this, path, path.data
      ensures Deleted(old(fs), d) && path.Holds(text + "/")
      ensures ok ==> path.length == |text| + 1 && path.AsString() == Shown(text + "/")
      ensures Easy(env, old(fs), text, d) && IsDot(name) ==> ok && fs == old(fs)
      ensures Easy(env, old(fs), text, d) && name in old(fs).dirs[d].entries && isDirectory == old(fs).dirs[d].entries[name].DirNode? ==>
                ok && fs.dirs[d].entries == old(fs).dirs[d].entries - {name}
      decreases PATH_MAX - |text|, 1, 0
    {
      ghost var base := text + "/";
      var pathLength := path.length;
      var known := env.types(clock);
      ok := true;
      var deleteDir := isDirectory;
      if !known {
        ok, deleteDir := ExamineEntry(name, text, d);
        if !ok {
          return false;
        }
        path.Reset(pathLength, base);
      }
      if deleteDir {
        ok := DeleteDir(name, text, d);
      } else {
        ok := DeleteFile(name, text, d);
      }
      if ok {
        path.Reset(pathLength, base);
      }
    }

    /** The type of an entry that `readdir` does not know. */
    method ExamineEntry(name: string, ghost text: string, ghost d: nat) returns (ok: bool, isDirectory: bool)
      requires Ready(text, d) && EntryName(name)
      modifies this`clock, path, path.data
      ensures path.Holds(text + "/")
      ensures Easy(env, fs, text, d) && IsDot(name) ==> ok && isDirectory
      ensures Easy(env, fs, text, d) && name in fs.dirs[d].entries ==> ok && isDirectory == fs.dirs[d].entries[name].DirNode?
    {
      isDirectory := false;
      if Easy(env, fs, text, d) && name in fs.dirs[d].entries {
        EasyEntry(env, fs, text, d, name);
      }
      if Easy(env, fs, text, d) && IsDot(name) {
        DotIsDirectory(fs, text, name);
      }
      ok := path.Add(name, text + "/");
      if ok {
        var directory := Lstat(path.AsString());
        ok := directory.Some?;
        isDirectory := ok && directory.value;
      }
    }

    /** The buffer is at directory `d`, whose path is `text`, if it is still there. */
    ghost predicate Ready(text: string, d: nat)
      reads this, path, path.data
    {
      && Ok(fs) && path.Holds(text + "/") && path.length == |text| + 1
      && text != "" && |text| < PATH_MAX && d in fs.dirs && (DirAt(fs, text).Some? ==> DirAt(fs, text) == Some(d))
    }

    /** Only things inside `d` have been deleted. */
    ghost predicate Deleted(before: Fs, d: nat)
      reads this
    {
      Ok(fs) && Shrinks(before, fs) && Kept(before, fs, d) && d in fs.dirs
    }
  }

  /** The recursive case of `Directory::Delete`, for every path. */
  method DeleteAll(deleter: Deleter, dirName: string) returns (ok: bool)
    requires Ok(deleter.fs) && deleter.path.Holds("") && deleter.path.length == 0 && '\0' !in dirName
    modifies deleter, deleter.path, deleter.path.data
    ensures Ok(deleter.fs) && Shrinks(old(deleter.fs), deleter.fs)
    ensures |dirName| > PATH_MAX ==> !ok && deleter.fs == old(deleter.fs)
    ensures |dirName| <= PATH_MAX ==> Outcome(old(deleter.fs), deleter.fs, Locate(old(deleter.fs), Shown(dirName)), ok)
    ensures |dirName| < PATH_MAX ==> Honours(deleter.env, old(deleter.fs), deleter.fs, dirName, ok)
    ensures var s, place := old(deleter.fs), Locate(old(deleter.fs), dirName);
            |dirName| < PATH_MAX ==>
              && (NeverFails(deleter.env) && place.Named? && DirectoryAt(s, place).None? ==> ok)
              && (DirectoryAt(s, place).Some? && Easy(deleter.env, s, dirName, DirectoryAt(s, place).value) ==>
                    (ok <==> Names(s, dirName, DirectoryAt(s, place).value)))
  {
    assert "" + dirName == dirName;
    ok := deleter.path.Add(dirName, "");
    if ok {
      ok := deleter.DeleteRecursively(dirName);
      if |dirName| < PATH_MAX {
        OutcomeHonours(deleter.env, old(deleter.fs), deleter.fs, dirName, ok);
      }
    }
  }

  /** `l` is a link to the directory `d`, which holds a file: deleting "l/" deletes the
      file and fails. */
  method DeleteThroughLink() returns (before: Fs, after: Fs, ok: bool)
    ensures Ok(before) && EntryAt(before, "l/") == Some((2, "l")) && before.dirs[2].entries["l"] == LinkNode(Some(1))
    ensures !ok && !Within(before, after, 2, "l")
  {
    before := EXAMPLE;
    var deleter := new Deleter(before, Environment(_ => false, _ => true));
    ExampleOk();
    ExampleLookup();
    ok := DeleteAll(deleter, "l/");
    after := deleter.fs;
  }

  const EXAMPLE := Fs(map[1 := Dir(2, "d", map["f" := FileNode]), 2 := Dir(2, "", map["d" := DirNode(1), "l" := LinkNode(Some(1))])], 2, 2)

  lemma ExampleOk()
    ensures Ok(EXAMPLE) && Fits(EXAMPLE, 1, 2)
  {
    assert forall d, n {:trigger EntryOk(EXAMPLE, d, n)} :: d in EXAMPLE.dirs && n in EXAMPLE.dirs[d].entries ==> EntryOk(EXAMPLE, d, n);
    assert forall c {:trigger Attached(EXAMPLE, c)} :: c in EXAMPLE.dirs ==> Attached(EXAMPLE, c);
  }

  lemma ExampleLookup()
    ensures ThroughLink(EXAMPLE, "l/") && Locate(EXAMPLE, "l/") == Itself(1) && EntryAt(EXAMPLE, "l/") == Some((2, "l"))
    ensures Walk(EXAMPLE, 2, Parts("l/")) == Some(1) && Avoids(EXAMPLE, 2, Parts("l/"), 1)
  {
    PartsPlain("l");
    PartsSnoc("l", "");
    assert "l" + "/" + "" == "l/";
    assert Parts("l/") == ["l", ""] && ["l", ""][..1] == ["l"] && ["l"][..0] == [];
    assert Trimmed(["l"]) == ["l"];
    assert Walk(EXAMPLE, 2, []) == Some(2) && Walk(EXAMPLE, 2, ["l"]) == Some(1);
    assert !Under(EXAMPLE, 2, 1);
    assert Avoids(EXAMPLE, 2, ["l"], 1);
  }
}
