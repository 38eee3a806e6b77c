/** What a recursive directory listing should report: a plain recursive traversal. It
    terminates on every finite file system, cyclic links included, because each link
    that is followed joins the set of links that will not be followed below it. */
module ListingSpec {

  import opened FileSystem
  import opened PathBuffer

  /** What a listing reports, with the path the buffer shows. `Overrun` stands for a
      directory whose path fills the buffer and yet can be opened: there is no room for
      its separator, and what follows is not defined. */
  datatype Event =
    | FileFound(path: string)
    | DirectoryFound(path: string)
    | LinkFound(path: string)
    | Fault(path: string)
    | Overrun(path: string)
    | Done

  datatype Options = Options(recursive: bool, followLinks: bool)

  /** How one directory entry is treated. */
  datatype Verdict = Skip | Report(event: Event) | Enter(d: nat, seen: set<LinkId>)

  function EnterUnlessDot(name: string, d: nat, seen: set<LinkId>): Verdict {
    if IsDot(name) then Skip else Enter(d, seen)
  }

  /** `seen` are the links followed on the way to this directory. */
  function Classify(fs: FileSystem, o: Options, e: Dirent, path: string, seen: set<LinkId>): (v: Verdict) {
    if e.typed && e.inode.DirectoryInode? then EnterUnlessDot(e.name, e.inode.d, seen)
    else if e.typed && e.inode.FileInode? then Report(FileFound(Shown(path)))
    else if e.typed && !o.followLinks then Report(LinkFound(Shown(path)))
    else if !fs.lstats(Shown(path)) then Report(Fault(Shown(path)))
    else
      match e.inode
      case FileInode => Report(FileFound(Shown(path)))
      case DirectoryInode(d) => EnterUnlessDot(e.name, d, seen)
      case LinkInode(id, target) =>
        if !o.followLinks || id in seen || !fs.stats(Shown(path)) || target.Broken? then Report(LinkFound(Shown(path)))
        else if target.ToFile? then Report(FileFound(Shown(path)))
        else EnterUnlessDot(e.name, target.d, seen + {id})
  }

  /** Entering a directory uses up a link, or goes down the tree. */
  lemma EnterDescends(fs: FileSystem, o: Options, d: nat, i: nat, path: string, seen: set<LinkId>)
    requires fs.WellFormed() && d < |fs.dirs| && i < |fs.dirs[d].entries|
    ensures var v := Classify(fs, o, fs.dirs[d].entries[i], path, seen);
            v.Enter? ==>
              && v.d < |fs.dirs|
              && ((v.seen == seen && v.d < d) || fs.Links() - v.seen < fs.Links() - seen)
  {
    var e := fs.dirs[d].entries[i];
    assert fs.DirentOk(d, i);
    if e.inode.LinkInode? {
      assert e.inode.id in fs.Links();
    }
  }

  /** The events of directory `d` from its i-th entry on; `base` is its path up to and
      including the separator. A path that does not fit ends the directory. */
  ghost function Entries(fs: FileSystem, o: Options, d: nat, base: string, seen: set<LinkId>, i: nat): (r: seq<Event>)
    requires fs.WellFormed() && d < |fs.dirs| && i <= |fs.dirs[d].entries|
    decreases fs.Links() - seen, d, 1, |fs.dirs[d].entries| - i
  {
    var dir := fs.dirs[d];
    if i == |dir.entries| then if dir.readFails then [Fault(Shown(base))] else []
    else
      var path := base + dir.entries[i].name;
      if |path| > PATH_MAX then [Fault(Shown(path))]
      else Entry(fs, o, d, base, seen, i) + Entries(fs, o, d, base, seen, i + 1)
  }

  /** The events of one entry: its own report and, if it is entered, what is below it. */
  ghost function Entry(fs: FileSystem, o: Options, d: nat, base: string, seen: set<LinkId>, i: nat): (r: seq<Event>)
    requires fs.WellFormed() && d < |fs.dirs| && i < |fs.dirs[d].entries|
    decreases fs.Links() - seen, d, 0, 0
  {
    var path := base + fs.dirs[d].entries[i].name;
    EnterDescends(fs, o, d, i, path, seen);
    match Classify(fs, o, fs.dirs[d].entries[i], path, seen)
    case Skip => []
    case Report(e) => [e]
    case Enter(c, seen') =>
      [DirectoryFound(Shown(path))] + if o.recursive then Below(fs, o, c, path, path + "/", seen') else []
  }

  /** The events of a directory that is opened as `path`. */
  ghost function Below(fs: FileSystem, o: Options, d: nat, path: string, base: string, seen: set<LinkId>): (r: seq<Event>)
    requires fs.WellFormed() && d < |fs.dirs|
    decreases fs.Links() - seen, d, 2, 0
  {
    if !fs.opens(Shown(path)) || fs.resolve(Shown(path)).None? then [Fault(Shown(path))]
    else if |base| > PATH_MAX then [Overrun(Shown(path))]
    else Entries(fs, o, d, base, seen, 0)
  }

  /** A whole listing of the directory `root`, named `dirName` with its separator. */
  ghost function Listing(fs: FileSystem, o: Options, root: nat, dirName: string): (r: seq<Event>)
    requires fs.WellFormed() && root < |fs.dirs|
  {
    Below(fs, o, root, dirName, dirName, {}) + [Done]
  }

  /** The listing never comes to a directory it can open but not read. */
  predicate Defined(events: seq<Event>) {
    forall i :: 0 <= i < |events| ==> !events[i].Overrun?
  }
}
