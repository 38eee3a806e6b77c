/** What the event handler knows about one file descriptor, as a value: the classes
    `DescriptorInfoSingleMixin` and `DescriptorInfoMultipleMixin` of
    runtime/bin/eventhandler.h. */
module Descriptor {

  import opened Collections
  import opened CircularList

  datatype Event = In | Out | Error | Close | Destroyed

  const SINGLE_TOKENS := 16
  const MULTIPLE_TOKENS := 4

  datatype PortState = PortState(isReading: bool, tokens: int) {
    predicate IsReady() {
      tokens > 0 && isReading
    }

    function Spend(disabled: bool): PortState {
      if disabled then this else this.(tokens := tokens - 1)
    }
  }

  /** `ring` holds the ports of the ready entries in notification order. */
  datatype Descriptor =
    | Single(fd: int, disableTokens: bool, port: int, tokens: int, mask: set<Event>)
    | Multiple(fd: int, disableTokens: bool, ring: seq<int>, entries: map<int, PortState>)
  {
    predicate IsListeningSocket() {
      Multiple?
    }

    function TokenCount(): int {
      if Single? then SINGLE_TOKENS else MULTIPLE_TOKENS
    }

    function Mask(): set<Event> {
      if Single? then (if tokens <= 0 then {} else mask)
      else if ring != [] then {In} else {}
    }

    /** The ports that hear about this descriptor. */
    function Ports(): set<int> {
      if Multiple? then entries.Keys else if port != 0 then {port} else {}
    }

    function Tokens(p: int): int
      requires p in Ports()
    {
      if Single? then tokens else entries[p].tokens
    }

    function SetPortAndMask(p: int, m: set<Event>): (d: Descriptor)
      requires p != 0
    {
      if Single? then this.(port := p, mask := m)
      else
        var was := if p in entries then entries[p] else PortState(false, MULTIPLE_TOKENS);
        var now := was.(isReading := m == {In});
        this.(entries := entries[p := now], ring := Requeue(p, was, now))
    }

    /** The ring after the entry of `p` went from `was` to `now`. */
    function Requeue(p: int, was: PortState, now: PortState): seq<int>
      requires Multiple?
    {
      if was.IsReady() && !now.IsReady() then RemoveFirst(ring, p)
      else if !was.IsReady() && now.IsReady() then ring + [p]
      else ring
    }

    function RemovePort(p: int): (d: Descriptor) {
      if Single? then this.(port := 0, mask := {})
      else if p !in entries then this
      else this.(entries := entries - {p},
                 ring := if entries[p].IsReady() then RemoveFirst(ring, p) else ring)
    }

    function RemoveAllPorts(): (d: Descriptor) {
      if Single? then this.(port := 0, mask := {}) else this.(entries := map[], ring := [])
    }

    function NextNotifyDartPort(): (r: (Descriptor, int))
      requires Multiple? ==> forall p :: p in ring ==> p in entries
    {
      if Single? then (if disableTokens then this else this.(tokens := tokens - 1), port)
      else if ring == [] then (this, 0)
      else
        var p := ring[0];
        var now := entries[p].Spend(disableTokens);
        (this.(entries := entries[p := now],
               ring := if now.tokens <= 0 then ring[1..] else Rotated(ring)), p)
    }

    /** The state after every port in `Ports()` has been told once. */
    function NotifyAllDartPorts(): (d: Descriptor)
      requires Multiple? ==> forall p :: p in ring ==> p in entries
    {
      if Single? then if disableTokens then this else this.(tokens := tokens - 1)
      else
        var now := map p | p in entries :: entries[p].Spend(disableTokens);
        this.(entries := now, ring := Holding(ring, now))
    }

    /** One iteration of the broadcast: port `p` has been told. */
    function NotifyPort(p: int): (d: Descriptor)
      requires Multiple? && p in entries
    {
      var now := entries[p].Spend(disableTokens);
      this.(entries := entries[p := now], ring := Requeue(p, entries[p], now))
    }

    function ReturnTokens(p: int, count: nat): (d: Descriptor)
      requires p in Ports()
    {
      if Single? then if disableTokens then this else this.(tokens := tokens + count)
      else
        var was := entries[p];
        var now := if disableTokens then was else was.(tokens := was.tokens + count);
        this.(entries := entries[p := now], ring := Requeue(p, was, now))
    }

    /** The ready ring holds exactly the ready entries, once each; a single
        descriptor asks for events only on behalf of a port. */
    ghost predicate Valid() {
      if Single? then mask != {} ==> port != 0
      else
        && 0 !in entries && NoDuplicates(ring)
        && (forall p :: p in ring ==> p in entries && entries[p].IsReady())
        && (forall p :: p in entries && entries[p].IsReady() ==> p in ring)
    }
  }

  /** The members of `ring` that still have tokens, in order. */
  function Holding(ring: seq<int>, entries: map<int, PortState>): (r: seq<int>)
    requires forall p :: p in ring ==> p in entries
    ensures forall p :: p in r <==> p in ring && entries[p].tokens > 0
  {
    if ring == [] then []
    else
      var p, rest := ring[0], ring[1..];
      assert p in ring;
      if entries[p].tokens > 0 then [p] + Holding(rest, entries) else Holding(rest, entries)
  }

  lemma {:induction false} HoldingAll(ring: seq<int>, entries: map<int, PortState>)
    requires forall p :: p in ring ==> p in entries && entries[p].tokens > 0
    ensures Holding(ring, entries) == ring
  {
    if ring != [] {
      assert ring[0] in ring;
      HoldingAll(ring[1..], entries);
    }
  }

  lemma {:induction false} HoldingDistinct(ring: seq<int>, entries: map<int, PortState>)
    requires NoDuplicates(ring) && forall p :: p in ring ==> p in entries
    ensures NoDuplicates(Holding(ring, entries))
  {
    if ring != [] {
      HoldingDistinct(ring[1..], entries);
    }
  }

  // Every operation keeps the ready ring in step with the token map.

  lemma SetPortAndMaskValid(d: Descriptor, p: int, m: set<Event>)
    requires d.Valid() && p != 0
    ensures d.SetPortAndMask(p, m).Valid()
  {
    if d.Multiple? { RemoveFirstKeepsDistinct(d.ring, p); }
  }

  lemma RemovePortValid(d: Descriptor, p: int)
    requires d.Valid()
    ensures d.RemovePort(p).Valid()
    ensures p !in d.RemovePort(p).Ports() || d.Single?
  {
    if d.Multiple? { RemoveFirstKeepsDistinct(d.ring, p); }
  }

  lemma ReturnTokensValid(d: Descriptor, p: int, count: nat)
    requires d.Valid() && p in d.Ports()
    ensures d.ReturnTokens(p, count).Valid()
  {
    if d.Multiple? { RemoveFirstKeepsDistinct(d.ring, p); }
  }

  lemma NextNotifyValid(d: Descriptor)
    requires d.Valid()
    ensures d.NextNotifyDartPort().0.Valid()
    ensures d.Mask() != {} ==>
              var port := d.NextNotifyDartPort().1; port != 0 && port in d.Ports() && d.Tokens(port) > 0
  {
    if d.Multiple? && d.ring != [] {
      assert d.ring[0] in d.ring;
      assert d.ring == [d.ring[0]] + d.ring[1..];
      assert forall p :: p in d.ring[1..] ==> p != d.ring[0];
      assert NoDuplicates(Rotated(d.ring));
    }
  }

  lemma NotifyAllValid(d: Descriptor)
    requires d.Valid()
    ensures d.NotifyAllDartPorts().Valid()
  {
    if d.Multiple? {
      var now := d.NotifyAllDartPorts().entries;
      HoldingDistinct(d.ring, now);
      assert forall p :: p in now ==> now[p].isReading == d.entries[p].isReading;
    }
  }

  lemma NotifyPortValid(d: Descriptor, p: int)
    requires d.Valid() && d.Multiple? && p in d.entries
    ensures d.NotifyPort(p).Valid()
  {
    RemoveFirstKeepsDistinct(d.ring, p);
  }

  /** Operations on port `p` leave every other port alone: its state, and its place in
      the ring relative to the others. */
  ghost predicate OthersKept(d: Descriptor, d': Descriptor, p: int) {
    && d'.fd == d.fd && d'.Multiple? == d.Multiple?
    && (d.Multiple? ==> d'.entries - {p} == d.entries - {p} && RemoveFirst(d'.ring, p) == RemoveFirst(d.ring, p))
  }

  /** Every port asks for what it asked for. */
  ghost predicate SameWishes(d: Descriptor, d': Descriptor) {
    && d'.Ports() == d.Ports() && d'.Multiple? == d.Multiple?
    && (d.Single? ==> d'.port == d.port && d'.mask == d.mask)
    && (d.Multiple? ==> forall p :: p in d.entries ==> d'.entries[p].isReading == d.entries[p].isReading)
  }

  lemma RemoveFirstTwice(ring: seq<int>, p: int)
    requires NoDuplicates(ring)
    ensures RemoveFirst(RemoveFirst(ring, p), p) == RemoveFirst(ring, p)
    ensures p !in ring ==> RemoveFirst(ring + [p], p) == ring
  {
    RemoveFirstKeepsDistinct(ring, p);
    if p !in ring { RemoveFirstAt(ring + [p], p, |ring|); }
  }

  /** The port asks for the mask it set as long as it has tokens, which it keeps; a new
      port of a listening socket starts with the full count. */
  lemma SetPortAndMaskEffect(d: Descriptor, p: int, m: set<Event>)
    requires d.Valid() && p != 0
    ensures var d' := d.SetPortAndMask(p, m);
            && OthersKept(d, d', p) && p in d'.Ports()
            && (d.Single? ==> d'.Tokens(p) == d.tokens && d'.Mask() == if d.tokens > 0 then m else {})
            && (d.Multiple? ==>
                  && d'.Tokens(p) == (if p in d.Ports() then d.Tokens(p) else MULTIPLE_TOKENS)
                  && (p in d'.ring <==> m == {In} && d'.Tokens(p) > 0))
  {
    if d.Multiple? {
      RemoveFirstTwice(d.ring, p);
      SetPortAndMaskValid(d, p, m);
    }
  }

  /** A removed port is not heard of again, and does not make the socket ready. */
  lemma RemovePortEffect(d: Descriptor, p: int)
    requires d.Valid()
    ensures var d' := d.RemovePort(p);
            && OthersKept(d, d', p)
            && (d.Single? ==> d'.Ports() == {} && d'.Mask() == {})
            && (d.Multiple? ==> d'.Ports() == d.Ports() - {p} && p !in d'.ring)
  {
    if d.Multiple? {
      RemoveFirstTwice(d.ring, p);
      RemovePortValid(d, p);
    }
  }

  /** Returned tokens are added, and make a port that reads ready again. */
  lemma ReturnTokensEffect(d: Descriptor, p: int, count: nat)
    requires d.Valid() && p in d.Ports()
    ensures var d' := d.ReturnTokens(p, count);
            && OthersKept(d, d', p) && d'.Ports() == d.Ports()
            && d'.Tokens(p) == d.Tokens(p) + (if d.disableTokens then 0 else count)
            && SameWishes(d, d')
            && (d.Single? ==> d'.Mask() == if d'.Tokens(p) > 0 then d.mask else {})
            && (d.Multiple? ==> (p in d'.ring <==> d.entries[p].isReading && d'.Tokens(p) > 0))
  {
    if d.Multiple? {
      RemoveFirstTwice(d.ring, p);
      ReturnTokensValid(d, p, count);
    }
  }

  /** The port that is served is the first of the ring. It pays one token, and waits
      behind all others for its next turn, or leaves the ring if it has none left. */
  lemma NextNotifyEffect(d: Descriptor)
    requires d.Valid() && d.Mask() != {}
    ensures var (d', p) := d.NextNotifyDartPort();
            && OthersKept(d, d', p) && p in d.Ports() && d'.Ports() == d.Ports()
            && d'.Tokens(p) == d.Tokens(p) - (if d.disableTokens then 0 else 1)
            && SameWishes(d, d')
            && (d.Multiple? ==> p == d.ring[0] && d'.ring == d.ring[1..] + if d'.Tokens(p) > 0 then [p] else [])
  {
    NextNotifyWishes(d);
    if d.Multiple? {
      var p := d.ring[0];
      assert p in d.ring && p !in d.ring[1..];
      RemoveFirstTwice(d.ring[1..], p);
    }
  }

  lemma NextNotifyWishes(d: Descriptor)
    requires d.Valid()
    ensures SameWishes(d, d.NextNotifyDartPort().0)
  {
    if d.Multiple? && d.ring != [] {
      assert d.ring[0] in d.ring;
    }
  }

  /** `r` lists some members of `ring`, in the same order. */
  ghost predicate InOrder(r: seq<int>, ring: seq<int>) {
    forall i, j :: 0 <= i < j < |r| ==> Before(ring, r[i], r[j])
  }

  ghost predicate Before(ring: seq<int>, p: int, q: int) {
    exists a, b :: 0 <= a < b < |ring| && ring[a] == p && ring[b] == q
  }

  lemma {:induction false} HoldingInOrder(ring: seq<int>, entries: map<int, PortState>)
    requires forall p :: p in ring ==> p in entries
    ensures InOrder(Holding(ring, entries), ring)
  {
    if ring != [] {
      var rest, r := Holding(ring[1..], entries), Holding(ring, entries);
      HoldingInOrder(ring[1..], entries);
      assert ring[0] in ring;
      forall i, j | 0 <= i < j < |r| ensures Before(ring, r[i], r[j]) {
        if r == rest {
          BeforeCons(ring, r[i], r[j]);
        } else if i > 0 {
          assert r[i] == rest[i - 1] && r[j] == rest[j - 1];
          BeforeCons(ring, r[i], r[j]);
        } else {
          assert r[j] == rest[j - 1] && rest[j - 1] in rest;
          var b :| 0 <= b < |ring[1..]| && ring[1..][b] == r[j];
          assert ring[0] == r[0] && ring[b + 1] == r[j];
        }
      }
    }
  }

  lemma BeforeCons(ring: seq<int>, p: int, q: int)
    requires ring != [] && Before(ring[1..], p, q)
    ensures Before(ring, p, q)
  {
    var a, b :| 0 <= a < b < |ring[1..]| && ring[1..][a] == p && ring[1..][b] == q;
    assert ring[a + 1] == p && ring[b + 1] == q;
  }

  /** Every port pays one token; those with tokens left keep their order in the ring. */
  lemma NotifyAllEffect(d: Descriptor)
    requires d.Valid()
    ensures var d' := d.NotifyAllDartPorts();
            && d'.fd == d.fd && d'.Ports() == d.Ports()
            && (forall p :: p in d.Ports() ==> d'.Tokens(p) == d.Tokens(p) - if d.disableTokens then 0 else 1)
            && SameWishes(d, d')
            && (d.Multiple? ==>
                  && InOrder(d'.ring, d.ring)
                  && forall p :: p in d.Ports() ==> (p in d'.ring <==> p in d.ring && d'.Tokens(p) > 0))
  {
    if d.Multiple? {
      HoldingInOrder(d.ring, d.NotifyAllDartPorts().entries);
    }
  }

  /** Spending one port's token removes just that port from the holders. */
  lemma {:induction false} HoldingStep(ring: seq<int>, es: map<int, PortState>, p: int, now: PortState)
    requires NoDuplicates(ring) && (forall q :: q in ring ==> q in es) && p in es
    requires now.tokens > 0 ==> es[p].tokens > 0
    ensures Holding(ring, es[p := now]) ==
            if now.tokens <= 0 then RemoveFirst(Holding(ring, es), p) else Holding(ring, es)
  {
    if ring != [] {
      var q, rest := ring[0], ring[1..];
      assert q in ring && ring == [q] + rest;
      HoldingStep(rest, es, p, now);
      if q == p {
        assert p !in rest;
      }
    }
  }

  /** `d` is `was` with every port outside `todo` told. */
  ghost predicate PartlyNotified(was: Descriptor, todo: set<int>, d: Descriptor)
    requires was.Multiple? && was.Valid()
  {
    && d.Multiple? && d.fd == was.fd && d.disableTokens == was.disableTokens
    && d.entries.Keys == was.entries.Keys
    && (forall p :: p in was.entries ==>
          d.entries[p] == if p in todo then was.entries[p] else was.entries[p].Spend(was.disableTokens))
    && d.ring == Holding(was.ring, d.entries)
  }

  lemma NotifyNext(was: Descriptor, todo: set<int>, d: Descriptor, p: int)
    requires was.Multiple? && was.Valid() && PartlyNotified(was, todo, d) && p in todo && p in was.entries
    ensures PartlyNotified(was, todo - {p}, d.NotifyPort(p))
  {
    HoldingStep(was.ring, d.entries, p, d.entries[p].Spend(d.disableTokens));
  }

  lemma NotifyDone(was: Descriptor, d: Descriptor)
    requires was.Multiple? && was.Valid()
    ensures PartlyNotified(was, was.entries.Keys, was)
    ensures PartlyNotified(was, {}, d) ==> d == was.NotifyAllDartPorts()
  {
    HoldingAll(was.ring, was.entries);
    if PartlyNotified(was, {}, d) {
      var n := was.NotifyAllDartPorts();
      assert forall p :: p in was.entries ==> n.entries[p] == d.entries[p];
      assert n.entries == d.entries;
    }
  }
}
