/** The resumable directory lister: class `DirectoryListing` with its stack of
    `DirectoryListingEntry` (runtime/bin/directory.h, runtime/bin/directory_linux.cc).
    Each step takes one event off the recursive listing it stands for. */
module Lister {

  import opened Collections
  import opened FileSystem
  import opened PathBuffer
  import opened ListingSpec
  import opened LinkChain

  /** `lister` is the open directory stream, `position` its read position. */
  datatype StackEntry = StackEntry(
    lister: Option<nat>, position: nat, done: bool, pathLength: nat, link: Option<nat>)

  /** What a stack entry stands for: directory `d`, reached as `path` through `seen`. */
  datatype Frame = Frame(d: nat, path: string, seen: set<LinkId>)

  datatype ListType = ListFile | ListDirectory | ListLink | ListError | ListDone | ListAgain

  /** The path of a directory with the separator that the lister puts after it; the
      root already comes with one. */
  function Base(f: Frame, isRoot: bool): string {
    if isRoot then f.path else f.path + "/"
  }

  function LinksOf(stack: seq<StackEntry>): (r: seq<Option<nat>>)
    ensures |r| == |stack|
  {
    if stack == [] then [] else LinksOf(Init(stack)) + [Last(stack).link]
  }

  function SeenOf(frames: seq<Frame>): (r: seq<set<LinkId>>)
    ensures |r| == |frames|
  {
    if frames == [] then [] else SeenOf(Init(frames)) + [Last(frames).seen]
  }

  /** The events one entry will still produce. */
  ghost function EntryRest(fs: FileSystem, o: Options, e: StackEntry, f: Frame, isRoot: bool): seq<Event>
    requires fs.WellFormed() && f.d < |fs.dirs| && e.position <= |fs.dirs[f.d].entries|
  {
    if e.done then []
    else if e.lister.Some? then Entries(fs, o, f.d, Base(f, isRoot), f.seen, e.position)
    else Below(fs, o, f.d, f.path, Base(f, isRoot), f.seen)
  }

  /** One stack entry is consistent with its frame. */
  ghost predicate EntryOk(fs: FileSystem, e: StackEntry, f: Frame, isRoot: bool) {
    && f.d < |fs.dirs| && e.position <= |fs.dirs[f.d].entries|
    && (if e.lister.None? then e.position == 0
        else e.lister.value == f.d && e.pathLength == |Base(f, isRoot)| && |Base(f, isRoot)| <= PATH_MAX)
    && |f.path| <= PATH_MAX && fs.resolve(f.path) == Some(f.d) && (isRoot ==> fs.resolve(Shown(f.path)) == Some(f.d))
    && IsBase(Base(f, isRoot)) && fs.resolve(Base(f, isRoot)) == Some(f.d)
  }

  /** Every entry is consistent, all but the top are being read, and paths are nested. */
  ghost predicate Shape(fs: FileSystem, stack: seq<StackEntry>, frames: seq<Frame>)
    decreases |stack|
  {
    && |stack| == |frames|
    && (stack != [] ==>
          && EntryOk(fs, Last(stack), Last(frames), |stack| == 1)
          && Shape(fs, Init(stack), Init(frames))
          && (|stack| > 1 ==> Nested(Last(Init(stack)), Last(Init(frames)), Last(frames), |stack| == 2)))
  }

  /** The directory of `f'` was found while reading that of `f`. */
  predicate Nested(e: StackEntry, f: Frame, f': Frame, isRoot: bool) {
    e.lister.Some? && !e.done && IsPrefix(Base(f, isRoot), f'.path)
  }

  /** The events of the whole stack, innermost directory first. */
  ghost function StackRest(fs: FileSystem, o: Options, stack: seq<StackEntry>, frames: seq<Frame>): seq<Event>
    requires fs.WellFormed() && Shape(fs, stack, frames)
    decreases |stack|
  {
    if stack == [] then []
    else
      EntryRest(fs, o, Last(stack), Last(frames), |stack| == 1) + StackRest(fs, o, Init(stack), Init(frames))
  }

  /** The nodes of the link lists are owned as they should be. */
  ghost predicate LinksOk(stack: seq<StackEntry>, frames: seq<Frame>, heap: Heap, nextNode: nat) {
    Owned(LinksOf(stack), SeenOf(frames), heap) && forall r :: r in heap ==> r < nextNode
  }

  function SetTop(stack: seq<StackEntry>, e: StackEntry): seq<StackEntry>
    requires stack != []
  {
    Init(stack) + [e]
  }

  /** Changing the top entry leaves the rest of the stack alone. */
  lemma SetTopShape(fs: FileSystem, stack: seq<StackEntry>, frames: seq<Frame>, e: StackEntry)
    requires Shape(fs, stack, frames) && stack != [] && EntryOk(fs, e, Last(frames), |stack| == 1)
    ensures Shape(fs, SetTop(stack, e), frames)
    ensures Init(SetTop(stack, e)) == Init(stack) && Last(SetTop(stack, e)) == e
  {
    assert Init(SetTop(stack, e)) == Init(stack);
  }

  /** Whether an entry must free the first node of its list, as `ResetLink` decides it. */
  predicate Frees(stack: seq<StackEntry>)
    requires stack != []
  {
    Last(stack).link.Some? && ParentLink(stack) != Last(stack).link
  }

  function ParentLink(stack: seq<StackEntry>): Option<nat>
    requires stack != []
  {
    if Init(stack) == [] then None else Last(Init(stack)).link
  }

  lemma TopLinks(stack: seq<StackEntry>, e: StackEntry)
    requires stack != []
    ensures Init(LinksOf(stack)) == LinksOf(Init(stack)) && Last(LinksOf(stack)) == Last(stack).link
    ensures Top(Init(LinksOf(stack))) == ParentLink(stack)
    ensures LinksOf(SetTop(stack, e)) == Init(LinksOf(stack)) + [e.link]
  {
    assert Init(SetTop(stack, e)) == Init(stack);
  }

  lemma SeenTop(frames: seq<Frame>)
    requires frames != []
    ensures Init(SeenOf(frames)) == SeenOf(Init(frames)) && Last(SeenOf(frames)) == Last(frames).seen
  {}

  /** Dropping what the top entry owns and sharing the parent's list keeps ownership. */
  lemma ResetLinks(stack: seq<StackEntry>, frames: seq<Frame>, heap: Heap, nextNode: nat)
    requires LinksOk(stack, frames, heap, nextNode) && stack != []
    ensures Frees(stack) ==> Last(stack).link.value in heap
    ensures LinksOk(SetTop(stack, Last(stack).(link := ParentLink(stack))), frames,
                    if Frees(stack) then heap - {Last(stack).link.value} else heap, nextNode)
  {
    var links := LinksOf(stack);
    TopLinks(stack, Last(stack).(link := ParentLink(stack)));
    if Frees(stack) {
      FreeOwned(links, SeenOf(frames), heap);
    } else {
      ShareOwned(links, SeenOf(frames), heap);
    }
  }

  lemma AllocateLink(stack: seq<StackEntry>, frames: seq<Frame>, heap: Heap, nextNode: nat, id: LinkId)
    requires LinksOk(stack, frames, heap, nextNode) && stack != [] && Last(stack).link == ParentLink(stack)
    ensures var heap' := heap[nextNode := LinkCell(id, Last(stack).link)];
            && LinksOk(SetTop(stack, Last(stack).(link := Some(nextNode))), frames, heap', nextNode + 1)
            && Ids(heap', Some(nextNode)) == Last(frames).seen + {id}
  {
    var links := LinksOf(stack);
    TopLinks(stack, Last(stack).(link := Some(nextNode)));
    SeenTop(frames);
    AllocateOwned(links, SeenOf(frames), heap, nextNode, id);
  }

  lemma SingleEntry(fs: FileSystem, o: Options, e: StackEntry, f: Frame)
    requires fs.WellFormed() && EntryOk(fs, e, f, true)
    ensures Shape(fs, [e], [f]) && StackRest(fs, o, [e], [f]) == EntryRest(fs, o, e, f, true)
    ensures Owned(LinksOf([e.(link := None)]), SeenOf([f.(seen := {})]), map[])
  {
    PushOwned([], [], map[]);
    var stack, frames := [e.(link := None)], [f.(seen := {})];
    assert Init(stack) == [] && Init(frames) == [];
    assert LinksOf(stack) == [] + [None] && SeenOf(frames) == [] + [{}];
  }

  /** The answer of `Next` and the list of the entry say what the listing calls for. */
  ghost predicate Agrees(fs: FileSystem, t: ListType, v: Verdict, path: string, heap: Heap, link: Option<nat>) {
    match v
    case Skip => t == ListAgain
    case Report(e) => t in {ListFile, ListLink, ListError} && e == EventOf(t, Shown(path))
    case Enter(_, seen) => t == ListDirectory && HeapOk(heap) && IsLive(heap, link) && Ids(heap, link) == seen
  }

  function EventOf(t: ListType, path: string): Event {
    match t
    case ListFile => FileFound(path)
    case ListDirectory => DirectoryFound(path)
    case ListLink => LinkFound(path)
    case ListError => Fault(path)
    case _ => Done
  }

  /** What one step takes off the events of a directory; `f` is the directory that a
      report of one enters, and the buffer shows `shown`. */
  ghost predicate Step(fs: FileSystem, o: Options, t: ListType, f: Frame, before: seq<Event>, after: seq<Event>, shown: string)
    requires fs.WellFormed()
  {
    match t
    case ListAgain => before == after
    case ListDone => before == [] && after == []
    case ListDirectory =>
      && f.d < |fs.dirs|
      && before == [DirectoryFound(shown)] + (if o.recursive then Below(fs, o, f.d, f.path, f.path + "/", f.seen) else []) + after
    case _ => before == [EventOf(t, shown)] + after
  }

  /** The directory that a verdict on the entry at `path` enters. */
  function FrameOf(v: Verdict, path: string): Frame {
    if v.Enter? then Frame(v.d, path, v.seen) else Frame(0, "", {})
  }

  /** Treating the i-th entry as the listing calls for is one step of the listing. */
  lemma EntryStep(fs: FileSystem, o: Options, d: nat, base: string, seen: set<LinkId>, i: nat,
                  t: ListType, v: Verdict, path: string, heap: Heap, link: Option<nat>)
    requires fs.WellFormed() && fs.Compositional() && d < |fs.dirs| && i < |fs.dirs[d].entries|
    requires IsBase(base) && fs.resolve(base) == Some(d)
    requires path == base + fs.dirs[d].entries[i].name && |path| <= PATH_MAX
    requires v == Classify(fs, o, fs.dirs[d].entries[i], path, seen) && Agrees(fs, t, v, path, heap, link)
    ensures Step(fs, o, t, FrameOf(v, path), Entries(fs, o, d, base, seen, i), Entries(fs, o, d, base, seen, i + 1), Shown(path))
    ensures t.ListDirectory? ==> v.Enter? && v.d < |fs.dirs| && fs.resolve(path) == Some(v.d) && fs.resolve(path + "/") == Some(v.d)
  {
    EnterDescends(fs, o, d, i, path, seen);
    assert fs.Composes(base, d, i);
    assert Entries(fs, o, d, base, seen, i) == Entry(fs, o, d, base, seen, i) + Entries(fs, o, d, base, seen, i + 1);
  }

  /** What the list of an entry holds while it owns no node. */
  lemma OwnLinks(stack: seq<StackEntry>, frames: seq<Frame>, heap: Heap, nextNode: nat)
    requires LinksOk(stack, frames, heap, nextNode) && stack != [] && Last(stack).link == ParentLink(stack)
    ensures frames != [] && HeapOk(heap) && IsLive(heap, Last(stack).link)
    ensures Ids(heap, Last(stack).link) == Last(frames).seen
  {
    TopLinks(stack, Last(stack));
    assert |SeenOf(frames)| > 0;
    SeenTop(frames);
  }

  /** The events of the stack and the final one. */
  ghost function RestOf(fs: FileSystem, o: Options, stack: seq<StackEntry>, frames: seq<Frame>): seq<Event>
    requires fs.WellFormed() && Shape(fs, stack, frames)
  {
    StackRest(fs, o, stack, frames) + [Done]
  }

  lemma RestSplit(fs: FileSystem, o: Options, stack: seq<StackEntry>, frames: seq<Frame>)
    requires fs.WellFormed() && Shape(fs, stack, frames) && stack != []
    ensures RestOf(fs, o, stack, frames) ==
            EntryRest(fs, o, Last(stack), Last(frames), |stack| == 1) + RestOf(fs, o, Init(stack), Init(frames))
  {
    Regroup(EntryRest(fs, o, Last(stack), Last(frames), |stack| == 1), StackRest(fs, o, Init(stack), Init(frames)), [Done]);
  }

  /** A step of the top directory is a step of everything. */
  lemma StepRest(fs: FileSystem, o: Options, t: ListType, f: Frame,
                 before: seq<Event>, after: seq<Event>, shown: string, rest: seq<Event>)
    requires fs.WellFormed() && Step(fs, o, t, f, before, after, shown) && t != ListAgain
    ensures t.ListDone? ==> before + rest == rest
    ensures t.ListDirectory? && o.recursive ==>
              before + rest == [EventOf(t, shown)] + (Below(fs, o, f.d, f.path, f.path + "/", f.seen) + (after + rest))
    ensures !t.ListDone? && !(t.ListDirectory? && o.recursive) ==> before + rest == [EventOf(t, shown)] + (after + rest)
  {
    var e := [EventOf(t, shown)];
    if t.ListDirectory? && o.recursive {
      var below := Below(fs, o, f.d, f.path, f.path + "/", f.seen);
      assert before + rest == e + (below + (after + rest));
    } else if !t.ListDone? {
      assert before == e + after;
      Regroup(e, after, rest);
    }
  }

  /** Pushing an entry for a directory puts its events in front. */
  lemma PushFrame(fs: FileSystem, stack: seq<StackEntry>, frames: seq<Frame>, heap: Heap, nextNode: nat, f: Frame)
    requires Shape(fs, stack, frames) && LinksOk(stack, frames, heap, nextNode) && stack != []
    requires HeapOk(heap) && IsLive(heap, Last(stack).link) && f.seen == Ids(heap, Last(stack).link)
    requires EntryOk(fs, StackEntry(None, 0, false, 0, None), f, false)
    requires Nested(Last(stack), Last(frames), f, |stack| == 1)
    ensures var e := StackEntry(None, 0, false, 0, None);
            && Last(stack + [e]) == e && Last(frames + [f]) == f
            && Shape(fs, stack + [e], frames + [f]) && LinksOk(stack + [e], frames + [f], heap, nextNode)
  {
    var e := StackEntry(None, 0, false, 0, None);
    assert Init(stack + [e]) == stack && Init(frames + [f]) == frames;
    PushLinks(stack, frames, heap, nextNode, f);
  }

  lemma PushRest(fs: FileSystem, o: Options, stack: seq<StackEntry>, frames: seq<Frame>, f: Frame)
    requires fs.WellFormed() && Shape(fs, stack, frames) && stack != []
    requires Shape(fs, stack + [StackEntry(None, 0, false, 0, None)], frames + [f])
    ensures RestOf(fs, o, stack + [StackEntry(None, 0, false, 0, None)], frames + [f]) ==
            Below(fs, o, f.d, f.path, f.path + "/", f.seen) + RestOf(fs, o, stack, frames)
  {
    var e := StackEntry(None, 0, false, 0, None);
    assert Init(stack + [e]) == stack && Init(frames + [f]) == frames;
    RestSplit(fs, o, stack + [e], frames + [f]);
  }

  lemma PushLinks(stack: seq<StackEntry>, frames: seq<Frame>, heap: Heap, nextNode: nat, f: Frame)
    requires LinksOk(stack, frames, heap, nextNode) && stack != []
    requires HeapOk(heap) && IsLive(heap, Last(stack).link) && f.seen == Ids(heap, Last(stack).link)
    ensures LinksOk(stack + [StackEntry(None, 0, false, 0, None)], frames + [f], heap, nextNode)
  {
    var e := StackEntry(None, 0, false, 0, None);
    assert Init(stack + [e]) == stack && Init(frames + [f]) == frames;
    TopLinks(stack, Last(stack));
    PushOwned(LinksOf(stack), SeenOf(frames), heap);
  }

  /** An entry that owns nothing can be dropped. */
  lemma PopFrame(fs: FileSystem, stack: seq<StackEntry>, frames: seq<Frame>, heap: Heap, nextNode: nat)
    requires Shape(fs, stack, frames) && LinksOk(stack, frames, heap, nextNode)
    requires stack != [] && Last(stack).link == ParentLink(stack)
    ensures Shape(fs, Init(stack), Init(frames)) && LinksOk(Init(stack), Init(frames), heap, nextNode)
  {
    TopLinks(stack, Last(stack));
    SeenTop(frames);
  }

  lemma DefinedPrefix(a: seq<Event>, b: seq<Event>)
    ensures Defined(a + b) ==> Defined(a) && Defined(b)
  {
    if Defined(a + b) {
      forall i | 0 <= i < |a| ensures !a[i].Overrun? {
        assert (a + b)[i] == a[i];
      }
      forall i | 0 <= i < |b| ensures !b[i].Overrun? {
        assert (a + b)[|a| + i] == b[i];
      }
    }
  }

  lemma BelowHasRoom(fs: FileSystem, o: Options, d: nat, path: string, base: string, seen: set<LinkId>)
    requires fs.WellFormed() && d < |fs.dirs| && Defined(Below(fs, o, d, path, base, seen))
    requires fs.opens(Shown(path)) && fs.resolve(Shown(path)).Some?
    ensures |base| <= PATH_MAX
  {
    var r := Below(fs, o, d, path, base, seen);
    assert r == [] || !r[0].Overrun?;
  }

  /** Every node ever allocated is live or has been freed, not both, and once. */
  ghost predicate Accounted(heap: Heap, freed: seq<nat>, nextNode: nat) {
    && NoDuplicates(freed)
    && (forall r :: r in heap ==> r < nextNode && r !in freed)
    && (forall r :: r in freed ==> r < nextNode)
    && (forall r: nat :: r < nextNode && r !in heap ==> r in freed)
  }

  /** The loop check: looks for a link on a list. */
  method Follows(heap: Heap, link: Option<nat>, id: LinkId) returns (found: bool)
    requires HeapOk(heap) && IsLive(heap, link)
    ensures found <==> id in Ids(heap, link)
  {
    found := false;
    var previous := link;
    while previous.Some?
      invariant IsLive(heap, previous)
      invariant id in Ids(heap, link) <==> id in Ids(heap, previous)
      decreases previous.Some?, if previous.Some? then previous.value else 0
    {
      if heap[previous.value].id == id {
        return true;
      }
      previous := heap[previous.value].next;
    }
  }

  /** The type of an entry that `readdir` left open or that is a link to be followed;
      `follow` says that the link joins the list. */
  method Inspect(fs: FileSystem, o: Options, e: Dirent, shown: string, ghost path: string, heap: Heap, link: Option<nat>)
    returns (t: ListType, follow: bool)
    requires !e.typed || (e.inode.LinkInode? && o.followLinks)
    requires HeapOk(heap) && IsLive(heap, link) && shown == Shown(path)
    ensures follow ==> e.inode.LinkInode?
    ensures var seen := Ids(heap, link);
            match Classify(fs, o, e, path, seen)
            case Skip => t == ListAgain
            case Report(ev) => t in {ListFile, ListLink, ListError} && ev == EventOf(t, shown) && !follow
            case Enter(_, seen') => t == ListDirectory && seen' == if follow then seen + {e.inode.id} else seen
  {
    follow := false;
    if !fs.lstats(shown) {
      return ListError, follow;
    }
    match e.inode {
      case FileInode => t := ListFile;
      case DirectoryInode(_) => t := if IsDot(e.name) then ListAgain else ListDirectory;
      case LinkInode(id, target) =>
        if !o.followLinks {
          return ListLink, follow;
        }
        var loops := Follows(heap, link, id);
        if loops || !fs.stats(shown) || target.Broken? {
          t := ListLink;
        } else if target.ToDirectory? {
          follow := true;
          t := if IsDot(e.name) then ListAgain else ListDirectory;
        } else {
          t := ListFile;
        }
    }
  }

  class DirectoryListing {
    const fs: FileSystem
    const options: Options
    const buffer: PathBuffer
    var stack: seq<StackEntry>
    var heap: Heap
    var nextNode: nat
    var error: bool
    ghost var frames: seq<Frame>
    ghost var freed: seq<nat>  // the nodes freed so far

    constructor (fs: FileSystem, options: Options, root: nat, dirName: string)
      requires fs.WellFormed() && fs.Compositional() && root < |fs.dirs|
      requires fs.resolve(dirName) == Some(root) && fs.resolve(Shown(dirName)) == Some(root)
      requires IsBase(dirName) && '\0' !in dirName && Defined(Listing(fs, options, root, dirName))
      ensures this.fs == fs && this.options == options
      ensures fresh(buffer) && fresh(buffer.data)
      ensures error <==> |dirName| > PATH_MAX
      ensures !error ==> Valid() && stack != [] && Remaining() == Listing(fs, options, root, dirName)
    {
      this.fs, this.options := fs, options;
      buffer := new PathBuffer();
      stack, frames := [StackEntry(None, 0, false, 0, None)], [Frame(root, dirName, {})];
      heap, nextNode, freed := map[], 0, [];
      new;
      assert "" + dirName == dirName;
      var ok := buffer.Add(dirName, "");
      error := !ok;
      if ok {
        Started(root, dirName);
      }
    }

    lemma Started(root: nat, dirName: string)
      requires FsOk() && root < |fs.dirs| && IsBase(dirName) && |dirName| <= PATH_MAX
      requires fs.resolve(dirName) == Some(root) && fs.resolve(Shown(dirName)) == Some(root)
      requires Defined(Listing(fs, options, root, dirName))
      requires stack == [StackEntry(None, 0, false, 0, None)] && frames == [Frame(root, dirName, {})]
      requires heap == map[] && nextNode == 0 && freed == []
      requires buffer.Holds(dirName) && buffer.length == |dirName| && buffer.AsString() == Shown(dirName)
      ensures Valid() && Remaining() == Listing(fs, options, root, dirName)
    {
      SingleEntry(fs, options, stack[0], frames[0]);
    }

    /** The shared buffer holds what the top entry expects to find in it. */
    ghost predicate BufferOk()
      reads this, buffer, buffer.data
    {
      && buffer.Valid()
      && (stack != [] && |stack| == |frames| ==>
            if Last(stack).lister.Some? then buffer.Holds(Base(Last(frames), |stack| == 1))
            else
              && buffer.Holds(Last(frames).path)
              && (!Last(stack).done ==>
                    buffer.length == |Last(frames).path| && buffer.AsString() == Shown(Last(frames).path)))
    }

    /** The file system is a proper one; it never changes. */
    ghost predicate FsOk() {
      fs.WellFormed() && fs.Compositional()
    }

    ghost predicate StackOk()
      reads this
    {
      Shape(fs, stack, frames) && LinksOk(stack, frames, heap, nextNode) && Accounted(heap, freed, nextNode)
    }

    /** The events still to come. */
    ghost function Remaining(): seq<Event>
      reads this
      requires FsOk() && StackOk()
    {
      if stack == [] then [] else RestOf(fs, options, stack, frames)
    }

    ghost predicate Valid()
      reads this, buffer, buffer.data
    {
      FsOk() && StackOk() && BufferOk() && Defined(Remaining())
    }

    ghost function TopRest(): seq<Event>
      reads this
      requires FsOk() && StackOk() && stack != []
    {
      EntryRest(fs, options, Last(stack), Last(frames), |stack| == 1)
    }

    /** Frees a node, which must be live. */
    method Free(r: nat)
      requires r in heap && Accounted(heap, freed, nextNode)
      modifies this`heap, this`freed
      ensures heap == old(heap) - {r} && freed == old(freed) + [r] && Accounted(heap, freed, nextNode)
    {
      heap := heap - {r};
      freed := freed + [r];
    }

    /** Frees the node the top entry owns, if any, and shares the parent's list. */
    method ResetLink()
      requires StackOk() && stack != []
      modifies this`stack, this`heap, this`freed
      ensures StackOk()
      ensures Init(stack) == Init(old(stack)) && |stack| == |old(stack)|
      ensures Last(stack) == Last(old(stack)).(link := ParentLink(stack))
      ensures freed == old(freed) + if Frees(old(stack)) then [Last(old(stack)).link.value] else []
    {
      ResetLinks(stack, frames, heap, nextNode);
      SetTopShape(fs, stack, frames, Last(stack).(link := ParentLink(stack)));
      var link := FreeTop();
      stack := SetTop(stack, Last(stack).(link := link));
    }

    method FreeTop() returns (link: Option<nat>)
      requires stack != [] && Accounted(heap, freed, nextNode) && (Frees(stack) ==> Last(stack).link.value in heap)
      modifies this`heap, this`freed
      ensures link == ParentLink(stack) && Accounted(heap, freed, nextNode)
      ensures heap == if Frees(stack) then old(heap) - {Last(stack).link.value} else old(heap)
      ensures freed == old(freed) + if Frees(stack) then [Last(stack).link.value] else []
    {
      var k := |stack| - 1;
      link := stack[k].link;
      if link.Some? && (k == 0 || stack[k - 1].link != link) {
        Free(link.value);
        link := None;
      }
      if k > 0 {
        link := stack[k - 1].link;
      }
    }

    /** Puts a node for a followed link in front of the list of the top entry. */
    method PushLink(id: LinkId)
      requires StackOk() && stack != [] && Last(stack).link == ParentLink(stack)
      modifies this`stack, this`heap, this`nextNode
      ensures StackOk() && Init(stack) == Init(old(stack)) && |stack| == |old(stack)|
      ensures Last(stack) == Last(old(stack)).(link := Last(stack).link)
      ensures HeapOk(heap) && IsLive(heap, Last(stack).link) && Ids(heap, Last(stack).link) == Last(frames).seen + {id}
    {
      AllocateLink(stack, frames, heap, nextNode, id);
      SetTopShape(fs, stack, frames, Last(stack).(link := Some(nextNode)));
      var node := Allocate(LinkCell(id, Last(stack).link));
      stack := SetTop(stack, Last(stack).(link := Some(node)));
    }

    method Allocate(cell: LinkCell) returns (r: nat)
      requires Accounted(heap, freed, nextNode)
      modifies this`heap, this`nextNode
      ensures r == old(nextNode) && heap == old(heap)[r := cell] && nextNode == r + 1 && Accounted(heap, freed, nextNode)
    {
      r := nextNode;
      heap := heap[r := cell];
      nextNode := r + 1;
    }

    /** Examines an entry and, if it is a link to follow, puts it on the list. */
    method Examine(e: Dirent, ghost path: string) returns (t: ListType)
      requires StackOk() && stack != [] && Last(stack).link == ParentLink(stack)
      requires !e.typed || (e.inode.LinkInode? && options.followLinks)
      requires buffer.AsString() == Shown(path)
      modifies this`stack, this`heap, this`nextNode
      ensures StackOk() && Init(stack) == Init(old(stack)) && |stack| == |old(stack)|
      ensures Last(stack) == Last(old(stack)).(link := Last(stack).link)
      ensures Agrees(fs, t, Classify(fs, options, e, path, Last(frames).seen), path, heap, Last(stack).link)
    {
      OwnLinks(stack, frames, heap, nextNode);
      var follow;
      t, follow := Inspect(fs, options, e, buffer.AsString(), path, heap, Last(stack).link);
      if follow {
        PushLink(e.inode.id);
      }
    }

    /** Cuts the buffer back to the directory and drops the last followed link. */
    method Rewind()
      requires StackOk() && Reading()
      modifies this`stack, this`heap, this`freed, buffer, buffer.data
      ensures StackOk() && Rewound() && Init(stack) == Init(old(stack)) && |stack| == |old(stack)|
      ensures Last(stack) == Last(old(stack)).(link := ParentLink(stack))
      ensures buffer.AsString() == Shown(Base(Last(frames), |stack| == 1))
    {
      buffer.Reset(Last(stack).pathLength, Base(Last(frames), |stack| == 1));
      ResetLink();
    }

    /** The type of an entry whose path the buffer shows. */
    method TypeOf(e: Dirent, ghost path: string) returns (t: ListType)
      requires StackOk() && stack != [] && Last(stack).link == ParentLink(stack)
      requires buffer.AsString() == Shown(path)
      modifies this`stack, this`heap, this`nextNode
      ensures StackOk() && Init(stack) == Init(old(stack)) && |stack| == |old(stack)|
      ensures Last(stack) == Last(old(stack)).(link := Last(stack).link)
      ensures Agrees(fs, t, Classify(fs, options, e, path, Last(frames).seen), path, heap, Last(stack).link)
    {
      if !e.typed || (e.inode.LinkInode? && options.followLinks) {
        t := Examine(e, path);
        return;
      }
      OwnLinks(stack, frames, heap, nextNode);
      match e.inode {
        case DirectoryInode(_) => t := if IsDot(e.name) then ListAgain else ListDirectory;
        case FileInode => t := ListFile;
        case LinkInode(_, _) => t := ListLink;
      }
    }

    /** Moves past the next entry and appends its name; a name that does not fit ends
        the directory. */
    method NextName() returns (e: Dirent, ok: bool)
      requires StackOk() && Rewound() && Last(stack).position < |fs.dirs[Last(frames).d].entries|
      requires FsOk()
      modifies this`stack, buffer, buffer.data
      ensures StackOk() && e == fs.dirs[Last(frames).d].entries[Last(old(stack)).position]
      ensures Init(stack) == Init(old(stack)) && |stack| == |old(stack)|
      ensures Last(stack) == Last(old(stack)).(position := Last(old(stack)).position + 1, done := !ok)
      ensures var base := Base(Last(frames), |stack| == 1);
              && buffer.Holds(base) && buffer.AsString() == Shown(base + e.name)
              && (ok <==> |base| + |e.name| <= PATH_MAX)
              && (ok ==> buffer.Holds(base + e.name) && buffer.length == |base| + |e.name|)
    {
      var top := Last(stack);
      e := fs.dirs[top.lister.value].entries[top.position];
      assert fs.DirentOk(top.lister.value, top.position);
      ok := buffer.Add(e.name, Base(Last(frames), |stack| == 1));
      SetTopEntry(top.(position := top.position + 1, done := !ok));
    }

    /** Moves past the next entry, leaving its path in the buffer. */
    method TakeEntry() returns (t: ListType, ghost f: Frame)
      requires FsOk() && StackOk() && Rewound() && Defined(TopRest())
      requires Last(stack).position < |fs.dirs[Last(frames).d].entries|
      modifies this`stack, this`heap, this`freed, this`nextNode, buffer, buffer.data
      ensures StackOk() && Init(stack) == Init(old(stack)) && |stack| == |old(stack)|
      ensures Last(stack).lister.Some? && buffer.Holds(Base(Last(frames), |stack| == 1))
      ensures t.ListAgain? ==> !Last(stack).done && Last(stack).position > Last(old(stack)).position
      ensures Step(fs, options, t, f, old(TopRest()), TopRest(), buffer.AsString())
      ensures t.ListDirectory? ==> Entered(f)
    {
      ghost var before, base := TopRest(), Base(Last(frames), |stack| == 1);
      assert before == Entries(fs, options, Last(frames).d, base, Last(frames).seen, Last(stack).position);
      var e, ok := NextName();
      if !ok {
        TooLong(e);
        return ListError, FrameOf(Skip, "");
      }
      t, f := Judge(e, before);
    }

    /** An entry whose path does not fit ends the directory with an error. */
    lemma TooLong(e: Dirent)
      requires FsOk() && StackOk() && stack != [] && Last(stack).done
      requires 0 < Last(stack).position && e == fs.dirs[Last(frames).d].entries[Last(stack).position - 1]
      requires var path := Base(Last(frames), |stack| == 1) + e.name;
               |path| > PATH_MAX && buffer.AsString() == Shown(path)
      ensures var before := Entries(fs, options, Last(frames).d, Base(Last(frames), |stack| == 1), Last(frames).seen, Last(stack).position - 1);
              Step(fs, options, ListError, FrameOf(Skip, ""), before, TopRest(), buffer.AsString())
    {}

    /** Decides on the entry just read, whose path is in the buffer. */
    method Judge(e: Dirent, ghost before: seq<Event>) returns (t: ListType, ghost f: Frame)
      requires FsOk() && StackOk() && Reading() && Last(stack).link == ParentLink(stack)
      requires 0 < Last(stack).position && e == fs.dirs[Last(frames).d].entries[Last(stack).position - 1]
      requires before == Entries(fs, options, Last(frames).d, Base(Last(frames), |stack| == 1), Last(frames).seen, Last(stack).position - 1)
      requires var path := Base(Last(frames), |stack| == 1) + e.name;
               |path| <= PATH_MAX && buffer.Holds(path) && buffer.length == |path| && buffer.AsString() == Shown(path)
      modifies this`stack, this`heap, this`nextNode
      ensures StackOk() && Init(stack) == Init(old(stack)) && |stack| == |old(stack)|
      ensures Last(stack) == Last(old(stack)).(link := Last(stack).link)
      ensures Step(fs, options, t, f, before, TopRest(), buffer.AsString())
      ensures t.ListDirectory? ==> Entered(f)
    {
      ghost var path := Base(Last(frames), |stack| == 1) + e.name;
      ghost var v := Classify(fs, options, e, path, Last(frames).seen);
      t := TypeOf(e, path);
      f := FrameOf(v, path);
      Judged(e, path, t, v, f);
    }

    /** An entry that was given the right type has been listed as it should be. */
    lemma Judged(e: Dirent, path: string, t: ListType, v: Verdict, f: Frame)
      requires FsOk() && StackOk() && Reading()
      requires 0 < Last(stack).position && e == fs.dirs[Last(frames).d].entries[Last(stack).position - 1]
      requires path == Base(Last(frames), |stack| == 1) + e.name
      requires |path| <= PATH_MAX && buffer.Holds(path) && buffer.length == |path| && buffer.AsString() == Shown(path)
      requires v == Classify(fs, options, e, path, Last(frames).seen) && Agrees(fs, t, v, path, heap, Last(stack).link)
      requires f == FrameOf(v, path)
      ensures var before := Entries(fs, options, Last(frames).d, Base(Last(frames), |stack| == 1), Last(frames).seen, Last(stack).position - 1);
              Step(fs, options, t, f, before, TopRest(), buffer.AsString())
      ensures t.ListDirectory? ==> Entered(f)
    {
      var g, base, i := Last(frames), Base(Last(frames), |stack| == 1), Last(stack).position - 1;
      EntryStep(fs, options, g.d, base, g.seen, i, t, v, path, heap, Last(stack).link);
      if t.ListDirectory? {
        MayEnter(f);
      }
    }

    lemma MayEnter(f: Frame)
      requires StackOk() && Reading() && |f.path| <= PATH_MAX && IsPrefix(Base(Last(frames), |stack| == 1), f.path)
      requires buffer.Holds(f.path) && buffer.length == |f.path| && buffer.AsString() == Shown(f.path)
      requires f.d < |fs.dirs| && fs.resolve(f.path) == Some(f.d) && fs.resolve(f.path + "/") == Some(f.d)
      requires HeapOk(heap) && IsLive(heap, Last(stack).link) && Ids(heap, Last(stack).link) == f.seen
      ensures Entered(f)
    {}

    /** One `readdir`. */
    method ReadEntry() returns (t: ListType, ghost f: Frame)
      requires FsOk() && StackOk() && Reading() && Defined(TopRest())
      modifies this`stack, this`heap, this`freed, this`nextNode, buffer, buffer.data
      ensures StackOk() && Init(stack) == Init(old(stack)) && |stack| == |old(stack)|
      ensures Last(stack).lister.Some? && buffer.Holds(Base(Last(frames), |stack| == 1))
      ensures t.ListAgain? ==> !Last(stack).done && Last(stack).position > Last(old(stack)).position
      ensures Step(fs, options, t, f, old(TopRest()), TopRest(), buffer.AsString())
      ensures t.ListDirectory? ==> Entered(f)
    {
      ghost var before := TopRest();
      Rewind();
      assert TopRest() == before;
      var top := Last(stack);
      var dir := fs.dirs[top.lister.value];
      if top.position < |dir.entries| {
        t, f := TakeEntry();
      } else {
        assert before == if dir.readFails then [Fault(Shown(Base(Last(frames), |stack| == 1)))] else [];
        SetTopEntry(top.(done := true));
        t, f := if dir.readFails then ListError else ListDone, FrameOf(Skip, "");
      }
    }

    /** Replaces the top entry, keeping its list. */
    method SetTopEntry(e: StackEntry)
      requires StackOk() && stack != [] && e.link == Last(stack).link
      requires EntryOk(fs, e, Last(frames), |stack| == 1)
      modifies this`stack
      ensures StackOk()
      ensures Init(stack) == Init(old(stack)) && Last(stack) == e && |stack| == |old(stack)|
    {
      SetTopShape(fs, stack, frames, e);
      TopLinks(stack, e);
      assert LinksOf(SetTop(stack, e)) == LinksOf(stack);
      stack := SetTop(stack, e);
    }

    ghost predicate Reading()
      reads this, buffer, buffer.data
    {
      && stack != [] && |stack| == |frames| && Last(stack).lister.Some? && !Last(stack).done
      && buffer.Holds(Base(Last(frames), |stack| == 1))
    }

    /** Ready to read the next entry. */
    ghost predicate Rewound()
      reads this, buffer, buffer.data
    {
      && Reading() && Last(stack).link == ParentLink(stack)
      && buffer.length == |Base(Last(frames), |stack| == 1)|
    }

    /** The buffer shows the path of the directory to enter, ready for a new stack entry,
        and the list of the top entry holds the links followed on the way there. */
    ghost predicate Entered(f: Frame)
      reads this, buffer, buffer.data
    {
      && stack != [] && |stack| == |frames| && Last(stack).lister.Some? && !Last(stack).done
      && buffer.Holds(f.path) && buffer.length == |f.path| && buffer.AsString() == Shown(f.path) && |f.path| <= PATH_MAX
      && IsPrefix(Base(Last(frames), |stack| == 1), f.path)
      && f.d < |fs.dirs| && fs.resolve(f.path) == Some(f.d) && fs.resolve(f.path + "/") == Some(f.d)
      && HeapOk(heap) && IsLive(heap, Last(stack).link) && Ids(heap, Last(stack).link) == f.seen
    }

    /** Reads on until there is an entry to report or the directory ends. */
    method ReadNext() returns (t: ListType, ghost f: Frame)
      requires FsOk() && StackOk() && Reading() && Defined(TopRest())
      modifies this`stack, this`heap, this`freed, this`nextNode, buffer, buffer.data
      ensures StackOk() && Init(stack) == Init(old(stack)) && |stack| == |old(stack)| && t != ListAgain
      ensures Last(stack).lister.Some? && buffer.Holds(Base(Last(frames), |stack| == 1))
      ensures Step(fs, options, t, f, old(TopRest()), TopRest(), buffer.AsString())
      ensures t.ListDirectory? ==> Entered(f)
      decreases |fs.dirs[Last(frames).d].entries| - Last(stack).position
    {
      t, f := ReadEntry();
      if t.ListAgain? {
        t, f := ReadNext();
      }
    }

    /** Opens the directory of a new stack entry by the path in the buffer. */
    method OpenTop() returns (ok: bool)
      requires FsOk() && StackOk() && BufferOk() && stack != [] && Last(stack).lister.None? && !Last(stack).done
      requires Defined(TopRest())
      modifies this`stack, buffer, buffer.data
      ensures StackOk() && Init(stack) == Init(old(stack)) && |stack| == |old(stack)|
      ensures ok ==> Reading() && TopRest() == old(TopRest())
      ensures !ok ==> BufferOk() && Last(stack).done && old(TopRest()) == [Fault(buffer.AsString())]
    {
      var path := buffer.AsString();
      assert path == Shown(Last(frames).path);
      if fs.opens(path) && fs.resolve(path).Some? {
        HasRoom();
        SetLister(path);
        return true;
      } else {
        FaultRest();
        GiveUp();
        return false;
      }
    }

    /** Where the shown path cannot be opened, one fault is all there is to report. */
    lemma FaultRest()
      requires FsOk() && StackOk() && stack != [] && Last(stack).lister.None? && !Last(stack).done
      requires !(fs.opens(Shown(Last(frames).path)) && fs.resolve(Shown(Last(frames).path)).Some?)
      ensures TopRest() == [Fault(Shown(Last(frames).path))]
    {}

    method GiveUp()
      requires StackOk() && BufferOk() && stack != []
      modifies this`stack
      ensures StackOk() && BufferOk() && Init(stack) == Init(old(stack)) && |stack| == |old(stack)| && Last(stack).done
    {
      SetTopEntry(Last(stack).(done := true));
    }

    /** In a defined listing there is room for the separator of an open directory. */
    lemma HasRoom()
      requires FsOk() && StackOk() && stack != [] && Last(stack).lister.None? && !Last(stack).done
      requires Defined(TopRest()) && fs.opens(Shown(Last(frames).path)) && fs.resolve(Shown(Last(frames).path)).Some?
      ensures |Base(Last(frames), |stack| == 1)| <= PATH_MAX && fs.resolve(Shown(Last(frames).path)) == Some(Last(frames).d)
    {
      BelowHasRoom(fs, options, Last(frames).d, Last(frames).path, Base(Last(frames), |stack| == 1), Last(frames).seen);
    }

    method SetLister(path: string)
      requires StackOk() && BufferOk() && stack != [] && Last(stack).lister.None? && !Last(stack).done
      requires path == buffer.AsString() && fs.resolve(path) == Some(Last(frames).d) && |Base(Last(frames), |stack| == 1)| <= PATH_MAX
      modifies this`stack, buffer, buffer.data
      ensures StackOk() && Reading() && Init(stack) == Init(old(stack)) && |stack| == |old(stack)|
      ensures Last(stack).position == Last(old(stack)).position
    {
      AddSeparator();
      SetTopEntry(Last(stack).(lister := fs.resolve(path), pathLength := buffer.length));
    }

    /** Below the root the directory gets a separator. */
    method AddSeparator()
      requires StackOk() && BufferOk() && stack != [] && Last(stack).lister.None? && !Last(stack).done
      requires |Base(Last(frames), |stack| == 1)| <= PATH_MAX
      modifies buffer, buffer.data
      ensures buffer.Holds(Base(Last(frames), |stack| == 1)) && buffer.length == |Base(Last(frames), |stack| == 1)|
    {
      if |stack| > 1 {
        var added := buffer.Add("/", Last(frames).path);
        assert added;
      }
    }

    /** `DirectoryListingEntry::Next` on the top entry. */
    method Next() returns (t: ListType, ghost f: Frame)
      requires FsOk() && StackOk() && BufferOk() && stack != [] && Defined(TopRest())
      modifies this`stack, this`heap, this`freed, this`nextNode, buffer, buffer.data
      ensures StackOk() && BufferOk() && Init(stack) == Init(old(stack)) && |stack| == |old(stack)| && t != ListAgain
      ensures Step(fs, options, t, f, old(TopRest()), TopRest(), buffer.AsString())
      ensures t.ListDirectory? ==> Entered(f)
    {
      f := FrameOf(Skip, "");
      if Last(stack).done {
        return ListDone, f;
      }
      var ok := true;
      if Last(stack).lister.None? {
        ok := OpenTop();
      }
      t, f := ReadIf(ok, old(TopRest()));
    }

    method ReadIf(ok: bool, ghost before: seq<Event>) returns (t: ListType, ghost f: Frame)
      requires FsOk() && StackOk() && stack != []
      requires ok ==> Reading() && Defined(TopRest()) && before == TopRest()
      requires !ok ==> BufferOk() && Last(stack).done && before == [Fault(buffer.AsString())]
      modifies this`stack, this`heap, this`freed, this`nextNode, buffer, buffer.data
      ensures StackOk() && BufferOk() && Init(stack) == Init(old(stack)) && |stack| == |old(stack)| && t != ListAgain
      ensures Step(fs, options, t, f, before, TopRest(), buffer.AsString())
      ensures t.ListDirectory? ==> Entered(f)
    {
      if ok {
        t, f := ReadNext();
      } else {
        t, f := ListError, FrameOf(Skip, "");
      }
    }

    /** Enters the directory just reported. */
    method Push(ghost f: Frame)
      requires StackOk() && Entered(f)
      modifies this`stack, this`frames
      ensures StackOk() && BufferOk()
      ensures stack == old(stack) + [StackEntry(None, 0, false, 0, None)] && frames == old(frames) + [f]
    {
      PushFrame(fs, stack, frames, heap, nextNode, f);
      stack, frames := stack + [StackEntry(None, 0, false, 0, None)], frames + [f];
    }

    /** Leaves the directory on top, freeing what its entry owns. */
    method Pop()
      requires StackOk() && BufferOk() && stack != []
      modifies this`stack, this`heap, this`freed, this`frames
      ensures StackOk() && BufferOk() && stack == Init(old(stack)) && frames == Init(old(frames))
    {
      if |stack| > 1 {
        HoldsBelow();
      }
      ResetLink();
      PopFrame(fs, stack, frames, heap, nextNode);
      stack, frames := Init(stack), Init(frames);
    }

    lemma HoldsBelow()
      requires Shape(fs, stack, frames) && BufferOk() && |stack| > 1
      ensures buffer.Holds(Base(Last(Init(frames)), |stack| == 2))
      ensures Last(Init(stack)).lister.Some?
    {
      var below := Base(Last(Init(frames)), |stack| == 2);
      var text := if Last(stack).lister.Some? then Base(Last(frames), false) else Last(frames).path;
      assert text[..|below|] == below;
      buffer.HoldsPrefix(text, |below|);
    }

    /** Leaves everything, from whatever point of whatever run: every node that was ever
        allocated has then been freed exactly once. */
    method PopAll()
      requires StackOk() && BufferOk()
      modifies this`stack, this`heap, this`freed, this`frames
      ensures stack == [] && heap == map[]
      ensures NoDuplicates(freed) && forall r: nat :: r in freed <==> r < nextNode
    {
      while stack != []
        invariant StackOk() && BufferOk()
        decreases |stack|
      {
        Pop();
      }
    }

    /** One turn of `ListNext` up to the call of a handler: takes one event off the
        listing, or leaves a finished directory. */
    method Advance() returns (t: ListType)
      requires Valid() && stack != []
      modifies this`stack, this`heap, this`freed, this`nextNode, this`frames, buffer, buffer.data
      ensures Valid() && t != ListAgain
      ensures !t.ListDone? ==> stack != [] && old(Remaining()) == [EventOf(t, buffer.AsString())] + Remaining()
      ensures t.ListDone? ==> |stack| == |old(stack)| - 1
      ensures t.ListDone? && stack != [] ==> Remaining() == old(Remaining())
      ensures t.ListDone? && stack == [] ==> old(Remaining()) == [Done]
    {
      ghost var rest := RestOf(fs, options, Init(stack), Init(frames));
      ghost var before := TopRest();
      RestSplit(fs, options, stack, frames);
      DefinedPrefix(before, rest);
      ghost var f;
      t, f := Next();
      Settle(t, f, before, rest);
    }

    /** Enters the directory that was reported or leaves the one that has ended. */
    method Settle(t: ListType, ghost f: Frame, ghost before: seq<Event>, ghost rest: seq<Event>)
      requires FsOk() && StackOk() && BufferOk() && stack != [] && t != ListAgain
      requires Step(fs, options, t, f, before, TopRest(), buffer.AsString()) && (t.ListDirectory? ==> Entered(f))
      requires rest == RestOf(fs, options, Init(stack), Init(frames)) && Defined(before + rest)
      modifies this`stack, this`heap, this`freed, this`frames
      ensures Valid()
      ensures !t.ListDone? ==> stack != [] && before + rest == [EventOf(t, buffer.AsString())] + Remaining()
      ensures t.ListDone? ==> |stack| == |old(stack)| - 1
      ensures t.ListDone? && stack != [] ==> Remaining() == before + rest
      ensures t.ListDone? && stack == [] ==> before + rest == [Done]
    {
      ghost var after, shown := TopRest(), buffer.AsString();
      RestSplit(fs, options, stack, frames);
      StepRest(fs, options, t, f, before, after, shown, rest);
      if t.ListDirectory? && options.recursive {
        ghost var s, g := stack, frames;
        Push(f);
        PushRest(fs, options, s, g, f);
      } else if t.ListDone? {
        Pop();
      }
      DefinedPrefix([EventOf(t, shown)], Remaining());
    }
  }

  /** Any number of turns and then the destructor: no node is leaked or freed twice. */
  method ListAndStop(fs: FileSystem, options: Options, root: nat, dirName: string, turns: nat) returns (listing: DirectoryListing)
    requires fs.WellFormed() && fs.Compositional() && root < |fs.dirs|
    requires fs.resolve(dirName) == Some(root) && fs.resolve(Shown(dirName)) == Some(root)
    requires IsBase(dirName) && '\0' !in dirName && |dirName| <= PATH_MAX && Defined(Listing(fs, options, root, dirName))
    ensures listing.heap == map[] && NoDuplicates(listing.freed)
    ensures forall r: nat :: r in listing.freed <==> r < listing.nextNode
  {
    listing := new DirectoryListing(fs, options, root, dirName);
    var k := 0;
    while k < turns && listing.stack != []
      invariant fresh(listing) && fresh(listing.buffer) && fresh(listing.buffer.data) && listing.Valid()
    {
      var _ := listing.Advance();
      k := k + 1;
    }
    listing.PopAll();
  }
}
