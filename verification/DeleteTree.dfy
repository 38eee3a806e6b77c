/** The file system as the recursive deleter changes it: directories are objects that
    hold named entries, and a path is looked up component by component, following links
    the way the kernel does. */
module DeleteTree {

  import opened Collections
  import opened CleanPath

  /** A link leads to a directory, or to something that is none. */
  datatype Node = FileNode | LinkNode(target: Option<nat>) | DirNode(d: nat)

  /** A directory knows the directory that holds it and its name there. */
  datatype Dir = Dir(parent: nat, name: string, entries: map<string, Node>)

  datatype Fs = Fs(dirs: map<nat, Dir>, root: nat, cwd: nat)

  /** Directories form a tree: each but the root is the entry of its parent under its
      own name and of no other, and has a smaller number. */
  ghost predicate Ok(s: Fs) {
    && s.root in s.dirs && s.dirs[s.root].parent == s.root
    && (forall d, n {:trigger EntryOk(s, d, n)} :: d in s.dirs && n in s.dirs[d].entries ==> EntryOk(s, d, n))
    && (forall c {:trigger Attached(s, c)} :: c in s.dirs ==> Attached(s, c))
  }

  ghost predicate EntryOk(s: Fs, d: nat, n: string)
    requires d in s.dirs && n in s.dirs[d].entries
  {
    && IsName(n) && '\0' !in n
    && var e := s.dirs[d].entries[n];
    e.DirNode? ==> e.d in s.dirs && e.d < d && s.dirs[e.d].parent == d && s.dirs[e.d].name == n
  }

  ghost predicate Attached(s: Fs, c: nat)
    requires c in s.dirs
  {
    c == s.root ||
    var p, n := s.dirs[c].parent, s.dirs[c].name;
    p in s.dirs && c < p && n in s.dirs[p].entries && s.dirs[p].entries[n] == DirNode(c)
  }

  // ------------------------------------------------------------------ lookup

  predicate IsTrivial(part: string) {
    part == "" || part == "."
  }

  /** The directory that a component leads to, through a link if need be. */
  function Step(s: Fs, d: nat, part: string): (r: Option<nat>)
    requires d in s.dirs
    ensures r.Some? ==> r.value in s.dirs
  {
    var next :=
      if IsTrivial(part) then Some(d)
      else if part == ".." then Some(s.dirs[d].parent)
      else if part !in s.dirs[d].entries then None
      else match s.dirs[d].entries[part]
        case FileNode => None
        case LinkNode(target) => target
        case DirNode(c) => Some(c);
    if next.Some? && next.value in s.dirs then next else None
  }

  function Walk(s: Fs, d: nat, parts: seq<string>): (r: Option<nat>)
    ensures r.Some? ==> r.value in s.dirs
  {
    if parts == [] then (if d in s.dirs then Some(d) else None)
    else
      var w := Walk(s, d, parts[..|parts| - 1]);
      if w.None? then None else Step(s, w.value, parts[|parts| - 1])
  }

  function Start(s: Fs, path: string): nat {
    if IsRooted(path) then s.root else s.cwd
  }

  /** The directory `open` finds, following every link. */
  function DirAt(s: Fs, path: string): (r: Option<nat>)
    ensures r.Some? ==> r.value in s.dirs
  {
    if path == "" then None else Walk(s, Start(s, path), Parts(path))
  }

  /** What a path names when the last component is not followed: an entry, or, after a
      trailing separator or dot, the directory itself. */
  datatype Place = Missing | Named(p: nat, name: string) | Itself(d: nat)

  predicate IsSelf(part: string) {
    IsTrivial(part) || part == ".."
  }

  function Locate(s: Fs, path: string): (r: Place)
    ensures r.Named? ==> r.p in s.dirs && r.name in s.dirs[r.p].entries
    ensures r.Itself? ==> r.d in s.dirs
  {
    var parts := Parts(path);
    var last := parts[|parts| - 1];
    if IsSelf(last) then
      var d := DirAt(s, path);
      if d.None? then Missing else Itself(d.value)
    else
      var p := Walk(s, Start(s, path), parts[..|parts| - 1]);
      if p.None? || last !in s.dirs[p.value].entries then Missing else Named(p.value, last)
  }

  /** The directory at a place, if there is one. */
  function DirectoryAt(s: Fs, place: Place): Option<nat> {
    match place
    case Missing => None
    case Itself(d) => Some(d)
    case Named(p, n) =>
      if p in s.dirs && n in s.dirs[p].entries && s.dirs[p].entries[n].DirNode? then Some(s.dirs[p].entries[n].d) else None
  }

  /** Trailing separators do not count when an entry is to be removed. */
  function Trimmed(parts: seq<string>): (r: seq<string>)
    ensures r == [] || r[|r| - 1] != ""
  {
    if parts != [] && parts[|parts| - 1] == "" then Trimmed(parts[..|parts| - 1]) else parts
  }

  /** The entry a path names, whatever separators follow. */
  function EntryAt(s: Fs, path: string): (r: Option<(nat, string)>)
    ensures r.Some? ==> r.value.0 in s.dirs && r.value.1 in s.dirs[r.value.0].entries
  {
    var t := Trimmed(Parts(path));
    if t == [] || IsSelf(t[|t| - 1]) then None
    else
      var p := Walk(s, Start(s, path), t[..|t| - 1]);
      if p.None? || t[|t| - 1] !in s.dirs[p.value].entries then None else Some((p.value, t[|t| - 1]))
  }

  lemma {:induction false} TrimWalk(s: Fs, d: nat, parts: seq<string>)
    ensures Walk(s, d, Trimmed(parts)) == Walk(s, d, parts)
  {
    if parts != [] && parts[|parts| - 1] == "" {
      TrimWalk(s, d, parts[..|parts| - 1]);
    }
  }

  lemma WalkSnoc(s: Fs, d: nat, parts: seq<string>, part: string)
    ensures Walk(s, d, parts + [part]) ==
            var w := Walk(s, d, parts); if w.None? then None else Step(s, w.value, part)
  {
    assert (parts + [part])[..|parts|] == parts;
  }

  /** A directory entry leads to the same directory when it is opened. */
  lemma EntryLeads(s: Fs, path: string)
    requires Ok(s) && EntryAt(s, path).Some? && path != ""
    ensures var (p, n) := EntryAt(s, path).value;
            s.dirs[p].entries[n].DirNode? ==> DirAt(s, path) == Some(s.dirs[p].entries[n].d)
  {
    TrimWalk(s, Start(s, path), Parts(path));
    var (p, n) := EntryAt(s, path).value;
    WalkEntry(s, Start(s, path), Trimmed(Parts(path)), p, n);
  }

  lemma WalkEntry(s: Fs, d: nat, parts: seq<string>, p: nat, n: string)
    requires Ok(s) && parts != [] && Walk(s, d, parts[..|parts| - 1]) == Some(p) && parts[|parts| - 1] == n
    requires n in s.dirs[p].entries
    ensures s.dirs[p].entries[n].DirNode? ==> Walk(s, d, parts) == Some(s.dirs[p].entries[n].d)
  {
    assert EntryOk(s, p, n);
  }

  /** A path without trailing separators names its entry. */
  lemma LocateEntry(s: Fs, path: string)
    requires Locate(s, path).Named?
    ensures path != "" && EntryAt(s, path) == Some((Locate(s, path).p, Locate(s, path).name))
  {
    if path == "" { PartsPlain(""); }
  }

  /** What lstat calls a directory is the directory that open finds. */
  lemma DirectoryIsOpened(s: Fs, path: string)
    requires Ok(s) && DirectoryAt(s, Locate(s, path)).Some?
    ensures DirAt(s, path) == DirectoryAt(s, Locate(s, path))
  {
    if Locate(s, path).Named? {
      LocateEntry(s, path);
      EntryLeads(s, path);
    }
  }

  /** A separator at the end changes neither the directory nor the entry. */
  lemma Separator(s: Fs, path: string)
    requires path != ""
    ensures DirAt(s, path + "/") == DirAt(s, path) && EntryAt(s, path + "/") == EntryAt(s, path)
  {
    PartsSnoc(path, "");
    assert path + "/" + "" == path + "/";
    var parts := Parts(path);
    assert (parts + [""])[..|parts|] == parts;
    WalkSnoc(s, Start(s, path), parts, "");
  }

  /** An entry of a directory is found below the directory. */
  lemma Inside(s: Fs, path: string, n: string)
    requires path != "" && '/' !in n
    ensures var d := DirAt(s, path);
            && (d.None? ==> Locate(s, path + "/" + n).Missing?)
            && (d.Some? && !IsSelf(n) ==>
                  Locate(s, path + "/" + n) == if n in s.dirs[d.value].entries then Named(d.value, n) else Missing)
            && (IsSelf(n) ==> !Locate(s, path + "/" + n).Named?)
  {
    var q := path + "/" + n;
    PartsSnoc(path, n);
    var parts := Parts(path);
    assert Parts(q) == parts + [n] && Parts(q)[..|parts|] == parts;
    assert q[0] == path[0];
    WalkSnoc(s, Start(s, path), parts, n);
  }
}
