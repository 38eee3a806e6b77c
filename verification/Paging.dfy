/** The paged listing sent to Dart: class `AsyncDirectoryListing` and the functions
    `ListNext`, `Directory::List` and `Directory::ListNextRequest` of
    runtime/bin/directory.cc. */
module Paging {

  import opened Collections
  import opened FileSystem
  import opened PathBuffer
  import opened ListingSpec
  import opened Lister

  const PAGE_SIZE := 128

  /** One slot of a response array. */
  datatype Slot = Code(code: int) | Bytes(path: string) | Null | ErrorRecord(path: string)

  /** Every event takes two slots: its code and its argument. */
  function Encode(e: Event): (r: seq<Slot>)
    ensures |r| == 2
  {
    match e
    case FileFound(p) => [Code(0), Bytes(p)]
    case DirectoryFound(p) => [Code(1), Bytes(p)]
    case LinkFound(p) => [Code(2), Bytes(p)]
    case Fault(p) => [Code(3), ErrorRecord(p)]
    case Overrun(p) => [Code(3), ErrorRecord(p)]
    case Done => [Code(4), Null]
  }

  function EncodeAll(events: seq<Event>): (r: seq<Slot>)
    ensures |r| == 2 * |events|
  {
    if events == [] then [] else EncodeAll(events[..|events| - 1]) + Encode(events[|events| - 1])
  }

  lemma EncodeSnoc(events: seq<Event>, e: Event)
    ensures EncodeAll(events + [e]) == EncodeAll(events) + Encode(e)
  {
    assert (events + [e])[..|events|] == events;
  }

  lemma {:induction false} EncodeAppend(a: seq<Event>, b: seq<Event>)
    ensures EncodeAll(a + b) == EncodeAll(a) + EncodeAll(b)
  {
    if b == [] {
      assert a + b == a;
    } else {
      var init, last := b[..|b| - 1], b[|b| - 1];
      EncodeAppend(a, init);
      EncodeSnoc(a + init, last);
      Regroup(EncodeAll(a), EncodeAll(init), Encode(last));
      Regroup(a, init, [last]);
      assert b == init + [last];
    }
  }

  lemma {:induction false} EncodeAt(events: seq<Event>, i: nat)
    requires i < |events|
    ensures EncodeAll(events)[2 * i] == Encode(events[i])[0] && EncodeAll(events)[2 * i + 1] == Encode(events[i])[1]
  {
    if i < |events| - 1 {
      EncodeAt(events[..|events| - 1], i);
    }
  }

  /** The reader on the Dart side (sdk/lib/io/directory_impl.dart): what pair `i` of the
      response means. */
  function ReadAt(slots: seq<Slot>, i: nat): Option<Event>
    requires 2 * i + 1 < |slots|
  {
    ReadPair(slots[2 * i], slots[2 * i + 1])
  }

  function ReadPair(code: Slot, argument: Slot): Option<Event> {
    match (code, argument)
    case (Code(0), Bytes(p)) => Some(FileFound(p))
    case (Code(1), Bytes(p)) => Some(DirectoryFound(p))
    case (Code(2), Bytes(p)) => Some(LinkFound(p))
    case (Code(3), ErrorRecord(p)) => Some(Fault(p))
    case (Code(4), Null) => Some(Done)
    case _ => None
  }

  /** The reader understands every event as it was meant. */
  lemma ReadsBack(events: seq<Event>, i: nat)
    requires Defined(events) && i < |events|
    ensures ReadAt(EncodeAll(events), i) == Some(events[i])
  {
    EncodeAt(events, i);
    PairReadsBack(events[i]);
  }

  lemma PairReadsBack(e: Event)
    requires !e.Overrun?
    ensures ReadPair(Encode(e)[0], Encode(e)[1]) == Some(e)
  {}

  /** Pages can be read back: different events never look alike. */
  lemma EncodeInjective(a: seq<Event>, b: seq<Event>)
    requires Defined(a) && Defined(b) && EncodeAll(a) == EncodeAll(b)
    ensures a == b
  {
    forall i | 0 <= i < |a| ensures a[i] == b[i] {
      EncodeAt(a, i);
      EncodeAt(b, i);
    }
  }

  method Put2(a: array<Slot>, k: nat, slots: seq<Slot>)
    requires k + 2 <= a.Length && |slots| == 2
    modifies a
    ensures a[..k + 2] == old(a[..k]) + slots
  {
    a[k] := slots[0];
    a[k + 1] := slots[1];
  }

  class AsyncDirectoryListing {
    const listing: DirectoryListing
    var response: array<Slot>
    var index: nat
    var length: nat
    ghost var sent: seq<Event>  // the events on the current page

    ghost predicate PageOk()
      reads this, response
    {
      && response.Length == length && length % 2 == 0
      && index == 2 * |sent| <= length && response[..index] == EncodeAll(sent)
    }

    constructor (listing: DirectoryListing)
      ensures this.listing == listing && fresh(response) && PageOk() && sent == []
    {
      this.listing := listing;
      response := new Slot[0];
      index, length, sent := 0, 0, [];
    }

    method SetArray(a: array<Slot>)
      requires a.Length % 2 == 0
      modifies this
      ensures PageOk() && sent == [] && response == a && length == a.Length
    {
      response, index, length, sent := a, 0, a.Length, [];
    }

    /** Puts an event on the page; answers whether there is room for another. */
    method Handle(e: Event) returns (more: bool)
      requires PageOk() && index < length
      modifies this`index, this`sent, response
      ensures PageOk() && sent == old(sent) + [e]
      ensures more <==> index < length
    {
      EncodeSnoc(sent, e);
      var slots := Encode(e);
      Put2(response, index, slots);
      index := index + 2;
      sent := sent + [e];
      more := index < length;
    }

    /** One turn of the listing loop; answers whether to go on with this page. */
    method ListNext() returns (more: bool)
      requires listing.Valid() && listing.stack != [] && PageOk() && index < length
      modifies this`index, this`sent, response, listing, listing.buffer, listing.buffer.data
      ensures listing.Valid() && PageOk() && |sent| >= |old(sent)|
      ensures sent + listing.Remaining() == old(sent + listing.Remaining())
      ensures more <==> listing.stack != [] && index < length
      ensures more ==> index > old(index) || |listing.stack| < |old(listing.stack)|
      ensures !more ==> |sent| > 0
    {
      var t := listing.Advance();
      if t.ListDone? {
        if listing.stack != [] {
          return true;
        }
        var _ := Report(Done, []);
        return false;
      }
      more := Report(EventOf(t, listing.buffer.AsString()), listing.Remaining());
    }

    /** Handles an event that comes before the events `rest`. */
    method Report(e: Event, ghost rest: seq<Event>) returns (more: bool)
      requires listing.Valid() && PageOk() && index < length
      modifies this`index, this`sent, response
      ensures listing.Valid() && PageOk() && sent == old(sent) + [e]
      ensures sent + rest == old(sent) + ([e] + rest)
      ensures listing.Remaining() == old(listing.Remaining())
      ensures more <==> index < length
    {
      Shift(sent, e, rest);
      more := Handle(e);
    }

    /** `Directory::List`: goes on until the page is full or the listing has ended. */
    method List()
      requires listing.Valid() && listing.stack != [] && PageOk() && index < length
      modifies this`index, this`sent, response, listing, listing.buffer, listing.buffer.data
      ensures listing.Valid() && PageOk() && sent != []
      ensures sent + listing.Remaining() == old(sent + listing.Remaining())
      ensures listing.stack == [] || index == length
    {
      var more := true;
      while more
        invariant listing.Valid() && PageOk()
        invariant sent + listing.Remaining() == old(sent + listing.Remaining())
        invariant more ==> listing.stack != [] && index < length
        invariant !more ==> sent != [] && (listing.stack == [] || index == length)
        decreases more, length - index, |listing.stack|
      {
        more := ListNext();
      }
    }

    /** `Directory::ListNextRequest`: the next page, empty once the listing has ended. */
    method ListNextRequest() returns (page: seq<Slot>, ghost events: seq<Event>)
      requires listing.Valid()
      modifies this, listing, listing.buffer, listing.buffer.data
      ensures listing.Valid() && page == EncodeAll(events) && |page| <= PAGE_SIZE
      ensures events + listing.Remaining() == old(listing.Remaining())
      ensures listing.stack != [] ==> |page| == PAGE_SIZE
      ensures page == [] <==> old(listing.Remaining()) == []
    {
      if listing.stack == [] {
        return [], [];
      }
      var a := new Slot[PAGE_SIZE];
      SetArray(a);
      List();
      return response[..index], sent;
    }

    /** Asks for page after page. */
    method AllPages() returns (pages: seq<seq<Slot>>)
      requires listing.Valid()
      modifies this, listing, listing.buffer, listing.buffer.data
      ensures PagesOf(pages, old(listing.Remaining()), true)
    {
      pages := [];
      ghost var goal, seen := listing.Remaining(), [];
      assert seen + goal == goal;
      while true
        invariant listing.Valid() && seen + listing.Remaining() == goal
        invariant PagesOf(pages, seen, listing.stack == [])
        decreases |listing.Remaining()|
      {
        var page, events := ListNextRequest();
        if page == [] {
          assert seen == goal;
          return;
        }
        NextPage(pages, seen, page, events, listing.stack == []);
        Regroup(seen, events, listing.Remaining());
        seen, pages := seen + events, pages + [page];
      }
    }
  }

  function Concat<T>(pages: seq<seq<T>>): seq<T> {
    if pages == [] then [] else Concat(pages[..|pages| - 1]) + pages[|pages| - 1]
  }

  /** The pages carry exactly these events; only the last may be short, and only when
      the listing has ended. */
  ghost predicate PagesOf(pages: seq<seq<Slot>>, events: seq<Event>, ended: bool) {
    && Concat(pages) == EncodeAll(events)
    && (forall i :: 0 <= i < |pages| ==> 0 < |pages[i]| <= 128)
    && (forall i :: 0 <= i < |pages| - (if ended then 1 else 0) ==> |pages[i]| == 128)
  }

  lemma NextPage(pages: seq<seq<Slot>>, events: seq<Event>, page: seq<Slot>, more: seq<Event>, ended: bool)
    requires PagesOf(pages, events, false) && page == EncodeAll(more)
    requires 0 < |page| <= PAGE_SIZE && (!ended ==> |page| == PAGE_SIZE)
    ensures PagesOf(pages + [page], events + more, ended)
  {
    assert (pages + [page])[..|pages|] == pages;
    EncodeAppend(events, more);
  }

  /** A client that asks for page after page gets the whole listing: the events of the
      recursive traversal, in order and with their full paths, and one final record. */
  method ListAll(fs: FileSystem, options: Options, root: nat, dirName: string) returns (pages: seq<seq<Slot>>)
    requires fs.WellFormed() && fs.Compositional() && root < |fs.dirs|
    requires fs.resolve(dirName) == Some(root) && fs.resolve(Shown(dirName)) == Some(root)
    requires IsBase(dirName) && '\0' !in dirName && |dirName| <= PATH_MAX && Defined(Listing(fs, options, root, dirName))
    ensures PagesOf(pages, Listing(fs, options, root, dirName), true)
  {
    var listing := new DirectoryListing(fs, options, root, dirName);
    var async := new AsyncDirectoryListing(listing);
    pages := async.AllPages();
  }
}
