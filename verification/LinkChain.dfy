/** The linked list of followed symbolic links (struct `LinkList` of
    runtime/bin/directory_linux.cc) and who owns its nodes. Each stack entry of the
    lister either shares its parent's list or has put one node of its own in front of
    it. Memory is explicit: a node is live while it is a key of the heap. */
module LinkChain {

  import opened Collections
  import opened FileSystem

  datatype LinkCell = LinkCell(id: LinkId, next: Option<nat>)

  type Heap = map<nat, LinkCell>

  /** Pointers lead to live, older nodes. */
  ghost predicate HeapOk(h: Heap) {
    forall r {:trigger h[r].next} :: r in h && h[r].next.Some? ==> h[r].next.value in h && h[r].next.value < r
  }

  ghost predicate IsLive(h: Heap, l: Option<nat>) {
    l.Some? ==> l.value in h
  }

  /** The links on the list `l`. */
  ghost function Ids(h: Heap, l: Option<nat>): (ids: set<LinkId>)
    requires HeapOk(h) && IsLive(h, l)
    decreases l.Some?, if l.Some? then l.value else 0
  {
    if l.None? then {} else {h[l.value].id} + Ids(h, h[l.value].next)
  }

  function Last<T>(s: seq<T>): T
    requires s != []
  {
    s[|s| - 1]
  }

  function Init<T>(s: seq<T>): seq<T>
    requires s != []
  {
    s[..|s| - 1]
  }

  /** The list of the entry on top of a stack of lists. */
  function Top(stack: seq<Option<nat>>): Option<nat> {
    if stack == [] then None else Last(stack)
  }

  /** Whether the top entry owns the node its list starts with. */
  predicate OwnsTop(stack: seq<Option<nat>>) {
    stack != [] && Last(stack).Some? && Last(stack) != Top(Init(stack))
  }

  /** The heap is exactly the nodes owned by the entries of the stack, one owner each,
      every owned node in front of the parent's list; `seen[k]` are the links on the
      list below entry k. */
  ghost predicate Owned(stack: seq<Option<nat>>, seen: seq<set<LinkId>>, h: Heap) {
    && |stack| == |seen|
    && HeapOk(h) && IsLive(h, Top(stack))
    && if stack == [] then h == map[]
       else
         var below := Top(Init(stack));
         && IsLive(h, below) && Last(seen) == Ids(h, below)
         && if OwnsTop(stack) then
              var r := Last(stack).value;
              && h[r].next == below && (forall q :: q in h ==> q <= r)
              && Owned(Init(stack), Init(seen), h - {r})
            else Owned(Init(stack), Init(seen), h)
  }

  /** A newer node does not change what an older list holds. */
  lemma {:induction false} IdsExtend(h: Heap, r: nat, cell: LinkCell, l: Option<nat>)
    requires HeapOk(h) && IsLive(h, l) && r !in h && (forall q :: q in h ==> q < r)
    requires HeapOk(h[r := cell])
    ensures Ids(h[r := cell], l) == Ids(h, l)
    decreases l.Some?, if l.Some? then l.value else 0
  {
    if l.Some? {
      IdsExtend(h, r, cell, h[l.value].next);
    }
  }

  lemma OwnsNode(below: seq<Option<nat>>, seen: seq<set<LinkId>>, h: Heap, r: nat, id: LinkId)
    requires Owned(below, seen, h) && forall q :: q in h ==> q < r
    ensures var h' := h[r := LinkCell(id, Top(below))];
            && Owned(below + [Some(r)], seen + [Ids(h, Top(below))], h')
            && Ids(h', Some(r)) == Ids(h, Top(below)) + {id}
  {
    var cell := LinkCell(id, Top(below));
    var h', top := h[r := cell], Ids(h, Top(below));
    assert h' - {r} == h;
    IdsExtend(h, r, cell, Top(below));
    var stack, seen' := below + [Some(r)], seen + [top];
    assert Init(stack) == below && Init(seen') == seen && Last(stack) == Some(r) && Last(seen') == top;
  }

  /** Putting a new node in front of a shared list makes its entry the owner. */
  lemma AllocateOwned(stack: seq<Option<nat>>, seen: seq<set<LinkId>>, h: Heap, r: nat, id: LinkId)
    requires Owned(stack, seen, h) && stack != [] && Last(stack) == Top(Init(stack))
    requires forall q :: q in h ==> q < r
    ensures var h' := h[r := LinkCell(id, Last(stack))];
            && Owned(Init(stack) + [Some(r)], seen, h')
            && Ids(h', Some(r)) == Last(seen) + {id}
  {
    assert seen == Init(seen) + [Last(seen)];
    OwnsNode(Init(stack), Init(seen), h, r, id);
  }

  /** Freeing the node the top entry owns and sharing the parent's list again. */
  lemma FreeOwned(stack: seq<Option<nat>>, seen: seq<set<LinkId>>, h: Heap)
    requires Owned(stack, seen, h) && OwnsTop(stack)
    ensures var r := Last(stack).value;
            r in h && Owned(Init(stack) + [Top(Init(stack))], seen, h - {r})
  {
    var r := Last(stack).value;
    var below := Top(Init(stack));
    var h' := h - {r};
    assert h == h'[r := h[r]];
    IdsExtend(h', r, h[r], below);
    assert Init(Init(stack) + [below]) == Init(stack);
  }

  /** An entry that owns nothing can drop its pointer or take its parent's. */
  lemma ShareOwned(stack: seq<Option<nat>>, seen: seq<set<LinkId>>, h: Heap)
    requires Owned(stack, seen, h) && stack != [] && !OwnsTop(stack)
    ensures Owned(Init(stack) + [Top(Init(stack))], seen, h)
  {
    assert Init(Init(stack) + [Top(Init(stack))]) == Init(stack);
  }

  /** A new entry starts without a list; it will see what is on the list of the top. */
  lemma PushOwned(stack: seq<Option<nat>>, seen: seq<set<LinkId>>, h: Heap)
    requires Owned(stack, seen, h)
    ensures Owned(stack + [None], seen + [Ids(h, Top(stack))], h)
  {
    assert Init(stack + [None]) == stack && Init(seen + [Ids(h, Top(stack))]) == seen;
  }
}
