/** A static file system: numbered directories that form a tree, symbolic links that
    may point anywhere, including back up, and system calls that may fail on any path. */
module FileSystem {

  import opened Collections

  /** Device and inode number of a symbolic link. */
  datatype LinkId = LinkId(dev: int, ino: int)

  datatype Target = Broken | ToFile | ToDirectory(d: nat)

  datatype Inode = FileInode | DirectoryInode(d: nat) | LinkInode(id: LinkId, target: Target)

  /** A directory entry; `typed` says whether `readdir` reports its type. */
  datatype Dirent = Dirent(name: string, typed: bool, inode: Inode) {
    /** The directory that opening this entry opens, if any. */
    function LeadsTo(): Option<nat> {
      match inode
      case DirectoryInode(c) => Some(c)
      case LinkInode(_, ToDirectory(c)) => Some(c)
      case _ => None
    }
  }

  /** The entries `readdir` yields, and whether it ends with an error. */
  datatype Directory = Directory(entries: seq<Dirent>, readFails: bool)

  /** `resolve` is path resolution, following links to directories; `opens`, `lstats`
      and `stats` say on which paths the calls succeed. */
  datatype FileSystem = FileSystem(
    dirs: seq<Directory>, resolve: string -> Option<nat>,
    opens: string -> bool, lstats: string -> bool, stats: string -> bool)
  {
    /** Names are distinct and proper, numbers are in range, and a directory inside
        another has a smaller number. */
    ghost predicate WellFormed() {
      forall d, i {:trigger DirentOk(d, i)} :: 0 <= d < |dirs| && 0 <= i < |dirs[d].entries| ==> DirentOk(d, i)
    }

    ghost predicate DirentOk(d: int, i: int)
      requires 0 <= d < |dirs| && 0 <= i < |dirs[d].entries|
    {
      var e := dirs[d].entries[i];
      && e.name != "" && '/' !in e.name && '\0' !in e.name
      && (e.inode.DirectoryInode? ==> e.inode.d < |dirs| && (!IsDot(e.name) ==> e.inode.d < d))
      && (e.inode.LinkInode? && e.inode.target.ToDirectory? ==> e.inode.target.d < |dirs|)
      && (forall j :: 0 <= j < i ==> dirs[d].entries[j].name != e.name)
    }

    /** The links of the whole file system. */
    ghost function Links(): set<LinkId> {
      set d, i | 0 <= d < |dirs| && 0 <= i < |dirs[d].entries| && dirs[d].entries[i].inode.LinkInode?
        :: dirs[d].entries[i].inode.id
    }

    /** Resolution is compositional: a name appended to the path of a directory leads
        where the directory's entry of that name leads, with or without a separator. */
    ghost predicate Compositional() {
      forall base, d, i {:trigger Composes(base, d, i)} :: 0 <= d < |dirs| && 0 <= i < |dirs[d].entries| ==> Composes(base, d, i)
    }

    ghost predicate Composes(base: string, d: int, i: int)
      requires 0 <= d < |dirs| && 0 <= i < |dirs[d].entries|
    {
      var e := dirs[d].entries[i];
      resolve(base) == Some(d) && IsBase(base) && e.LeadsTo().Some? ==>
        resolve(base + e.name) == e.LeadsTo() && resolve(base + e.name + "/") == e.LeadsTo()
    }

    /** The directory that `name` leads to in directory `d`. */
    function Child(d: nat, name: string): (c: Option<nat>)
      requires d < |dirs|
    {
      Find(dirs[d].entries, name)
    }

    /** Textbook path resolution, component by component from directory `d`. */
    function Walk(d: nat, path: string): (r: Option<nat>)
      decreases |path|
    {
      if d >= |dirs| then None
      else if path == "" then Some(d)
      else
        var n := FirstLength(path);
        match Child(d, path[..n])
        case None => None
        case Some(c) => Walk(c, if n < |path| then path[n + 1..] else "")
    }
  }

  predicate IsDot(name: string) {
    name == "." || name == ".."
  }

  function Find(entries: seq<Dirent>, name: string): (c: Option<nat>) {
    if entries == [] then None
    else if entries[0].name == name then entries[0].LeadsTo()
    else Find(entries[1..], name)
  }

  lemma {:induction false} FindAt(entries: seq<Dirent>, i: nat)
    requires i < |entries| && forall j :: 0 <= j < i ==> entries[j].name != entries[i].name
    ensures Find(entries, entries[i].name) == entries[i].LeadsTo()
  {
    if i > 0 {
      FindAt(entries[1..], i - 1);
    }
  }

  /** Length of the first component of a path. */
  function FirstLength(path: string): (n: nat)
    ensures n <= |path|
  {
    if path == "" || path[0] == '/' then 0 else FirstLength(path[1..]) + 1
  }

  /** The first component ends at the first separator. */
  lemma {:induction false} FirstLengthStops(path: string)
    ensures var n := FirstLength(path); '/' !in path[..n] && (n < |path| ==> path[n] == '/')
  {
    if path != "" && path[0] != '/' {
      FirstLengthStops(path[1..]);
      var n := FirstLength(path[1..]);
      assert path[..n + 1] == [path[0]] + path[1..][..n];
    }
  }

  lemma {:induction false} FirstLengthAppend(p: string, q: string)
    ensures FirstLength(p) < |p| ==> FirstLength(p + q) == FirstLength(p)
    ensures '/' !in p && (q == "" || q[0] == '/') ==> FirstLength(p + q) == |p|
  {
    if p == "" {
      assert p + q == q;
    } else {
      assert (p + q)[1..] == p[1..] + q;
      FirstLengthAppend(p[1..], q);
    }
  }

  predicate IsBase(base: string) {
    base == "" || base[|base| - 1] == '/'
  }

  /** Resolution is compositional at separators. */
  lemma {:induction false} WalkAppend(fs: FileSystem, d: nat, base: string, rest: string)
    requires IsBase(base)
    ensures fs.Walk(d, base + rest) ==
            match fs.Walk(d, base)
            case None => None
            case Some(c) => fs.Walk(c, rest)
    decreases |base|
  {
    if d < |fs.dirs| {
      if base == "" {
        assert base + rest == rest;
      } else {
        var n := FirstLength(base);
        FirstLengthStops(base);
        FirstLengthAppend(base, rest);
        assert base[|base| - 1] in base && base[..|base|] == base;
        assert (base + rest)[..n] == base[..n];
        assert (base + rest)[n + 1..] == base[n + 1..] + rest;
        match fs.Child(d, base[..n])
        case None =>
        case Some(c) => WalkAppend(fs, c, base[n + 1..], rest);
      }
    }
  }

  /** Textbook resolution from any starting directory is compositional. */
  lemma WalkIsCompositional(fs: FileSystem, root: nat)
    requires fs.WellFormed()
    ensures fs.(resolve := path => fs.Walk(root, path)).Compositional()
  {
    var fs' := fs.(resolve := path => fs.Walk(root, path));
    forall base, d, i | 0 <= d < |fs.dirs| && 0 <= i < |fs.dirs[d].entries| ensures fs'.Composes(base, d, i) {
      if fs.Walk(root, base) == Some(d) && IsBase(base) && fs.dirs[d].entries[i].LeadsTo().Some? {
        var name := fs.dirs[d].entries[i].name;
        WalkEntry(fs, d, i);
        WalkAppend(fs, root, base, name);
        WalkAppend(fs, root, base, name + "/");
        assert base + name + "/" == base + (name + "/");
      }
    }
  }

  lemma WalkEntry(fs: FileSystem, d: nat, i: nat)
    requires fs.WellFormed() && d < |fs.dirs| && i < |fs.dirs[d].entries| && fs.dirs[d].entries[i].LeadsTo().Some?
    ensures var e := fs.dirs[d].entries[i];
            fs.Walk(d, e.name) == e.LeadsTo() && fs.Walk(d, e.name + "/") == e.LeadsTo()
  {
    var e := fs.dirs[d].entries[i];
    assert fs.DirentOk(d, i);
    FindAt(fs.dirs[d].entries, i);
    FirstLengthAppend(e.name, "");
    FirstLengthAppend(e.name, "/");
    assert e.name + "" == e.name && e.name[..|e.name|] == e.name;
    assert (e.name + "/")[..|e.name|] == e.name && (e.name + "/")[|e.name| + 1..] == "";
  }
}
