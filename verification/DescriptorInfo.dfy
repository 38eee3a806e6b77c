/** `DescriptorInfoMultipleMixin` of runtime/bin/eventhandler.h with its heap: port
    entries are shared between the hash map and the ready ring. Every method is
    proved to do to `Model()` what the value-level operation does. */
module DescriptorInfo {

  import opened Collections
  import opened CircularList
  import opened Descriptor

  class PortEntry {
    const dartPort: int
    var isReading: bool
    var tokenCount: int

    constructor (dartPort: int, isReading: bool, tokenCount: int)
      ensures this.dartPort == dartPort && this.isReading == isReading && this.tokenCount == tokenCount
    {
      this.dartPort, this.isReading, this.tokenCount := dartPort, isReading, tokenCount;
    }

    ghost function State(): PortState
      reads this
    {
      PortState(isReading, tokenCount)
    }

    predicate IsReady()
      reads this
    {
      tokenCount > 0 && isReading
    }
  }

  /** The ports of a list of entries. */
  function PortsOf(es: seq<PortEntry>): (ps: seq<int>)
    ensures |ps| == |es| && forall i :: 0 <= i < |es| ==> ps[i] == es[i].dartPort
  {
    seq(|es|, i requires 0 <= i < |es| => es[i].dartPort)
  }

  lemma {:induction false} PortsOfRemove(es: seq<PortEntry>, e: PortEntry)
    requires forall i :: 0 <= i < |es| ==> (es[i].dartPort == e.dartPort <==> es[i] == e)
    ensures PortsOf(RemoveFirst(es, e)) == RemoveFirst(PortsOf(es), e.dartPort)
  {
    if es != [] {
      assert PortsOf(es)[1..] == PortsOf(es[1..]);
      PortsOfRemove(es[1..], e);
      if es[0] != e {
        assert PortsOf([es[0]] + RemoveFirst(es[1..], e)) == [es[0].dartPort] + PortsOf(RemoveFirst(es[1..], e));
      }
    }
  }

  lemma PortsOfRotated(es: seq<PortEntry>)
    requires es != []
    ensures PortsOf(es)[1..] == PortsOf(es[1..]) && Rotated(PortsOf(es)) == PortsOf(Rotated(es))
  {}

  lemma PortsOfMember(es: seq<PortEntry>, e: PortEntry)
    requires e in es
    ensures e.dartPort in PortsOf(es)
  {
    var i :| 0 <= i < |es| && es[i] == e;
    assert PortsOf(es)[i] == e.dartPort;
  }

  lemma KeyOf<K, V>(m: map<K, V>, v: V) returns (k: K)
    requires v in m.Values
    ensures k in m && m[k] == v
  {
    k :| k in m && m[k] == v;
  }

  lemma ValuesUpdate<K, V>(m: map<K, V>, k: K, v: V)
    ensures m[k := v].Values <= m.Values + {v}
  {}

  lemma NoMembers<T>(s: seq<T>)
    ensures s == [] || exists x :: x in s
  {
    assert s != [] ==> s[0] in s;
  }

  class DescriptorInfoMultiple {
    const activeReaders: CircularLinkedList<PortEntry>
    var tokensMap: map<int, PortEntry>
    const disableTokens: bool
    ghost var Model: Descriptor

    /** Ring and map are made of the same entries, filed under their own ports. */
    ghost predicate Shape()
      reads this, activeReaders, activeReaders.Repr
    {
      && activeReaders.Valid()
      && (forall p :: p in tokensMap ==> tokensMap[p].dartPort == p)
      && (forall e :: e in activeReaders.Contents() ==> e.dartPort in tokensMap && tokensMap[e.dartPort] == e)
    }

    /** The heap represents `Model`, whose ring is exactly its ready entries. */
    ghost predicate Valid()
      reads this, activeReaders, activeReaders.Repr, tokensMap.Values
    {
      && Shape()
      && Entries(Model) && Model.Valid()
      && Model.ring == PortsOf(activeReaders.Contents())
    }

    constructor (fd: int, disableTokens: bool)
      ensures Valid() && Model == Multiple(fd, disableTokens, [], map[])
      ensures fresh(activeReaders) && activeReaders.Repr == {}
    {
      this.disableTokens := disableTokens;
      activeReaders := new CircularLinkedList();
      tokensMap := map[];
      Model := Multiple(fd, disableTokens, [], map[]);
    }

    /** Entry by entry, the map holds what `m` says. */
    ghost predicate Entries(m: Descriptor)
      reads this, tokensMap.Values
    {
      && m.Multiple? && m.disableTokens == disableTokens && m.entries.Keys == tokensMap.Keys
      && forall p :: p in tokensMap ==> tokensMap[p].State() == m.entries[p]
    }

    method SetPortAndMask(port: int, mask: set<Event>)
      requires Valid() && port != 0
      modifies this, activeReaders, activeReaders.Repr, tokensMap.Values
      ensures Valid() && Model == old(Model).SetPortAndMask(port, mask)
      ensures fresh(activeReaders.Repr - old(activeReaders.Repr)) && fresh(tokensMap.Values - old(tokensMap.Values))
    {
      SetPortAndMaskValid(Model, port, mask);
      if port !in tokensMap {
        AddPort(port, mask);
      } else {
        ChangePort(port, mask);
      }
    }

    method AddPort(port: int, mask: set<Event>)
      requires Valid() && port != 0 && port !in tokensMap && Model.SetPortAndMask(port, mask).Valid()
      modifies this, activeReaders, activeReaders.Repr
      ensures Valid() && Model == old(Model).SetPortAndMask(port, mask)
      ensures fresh(activeReaders.Repr - old(activeReaders.Repr)) && fresh(tokensMap.Values - old(tokensMap.Values))
    {
      ghost var m := Model.SetPortAndMask(port, mask);
      var pentry := Register(port, mask == {In}, m);
      Requeue(pentry, false, m);
    }

    /** Files a new entry with the full count. */
    method Register(port: int, isReading: bool, ghost m: Descriptor) returns (pentry: PortEntry)
      requires Valid() && port !in tokensMap && m.Multiple? && m.disableTokens == disableTokens
      requires m.entries == Model.entries[port := PortState(isReading, MULTIPLE_TOKENS)]
      modifies this`tokensMap
      ensures Shape() && Entries(m) && port in tokensMap && tokensMap[port] == pentry
      ensures fresh(pentry) && pentry.State() == PortState(isReading, MULTIPLE_TOKENS) && pentry.dartPort == port
      ensures fresh(tokensMap.Values - old(tokensMap.Values))
    {
      pentry := new PortEntry(port, isReading, MULTIPLE_TOKENS);
      ValuesUpdate(tokensMap, port, pentry);
      tokensMap := tokensMap[port := pentry];
    }

    method ChangePort(port: int, mask: set<Event>)
      requires Valid() && port != 0 && port in tokensMap && Model.SetPortAndMask(port, mask).Valid()
      modifies this`Model, activeReaders, activeReaders.Repr, tokensMap.Values
      ensures Valid() && Model == old(Model).SetPortAndMask(port, mask)
      ensures fresh(activeReaders.Repr - old(activeReaders.Repr))
    {
      ghost var m := Model.SetPortAndMask(port, mask);
      var pentry := tokensMap[port];
      var wasReady := pentry.IsReady();
      pentry.isReading := mask == {In};
      Requeue(pentry, wasReady, m);
    }

    /** Moves an entry into or out of the ring after its readiness changed. */
    method Requeue(pentry: PortEntry, wasReady: bool, ghost m: Descriptor)
      requires Shape() && pentry.dartPort in tokensMap && tokensMap[pentry.dartPort] == pentry
      requires Entries(m) && m.Valid()
      requires m.ring == var ring := PortsOf(activeReaders.Contents());
                         if wasReady && !pentry.IsReady() then RemoveFirst(ring, pentry.dartPort)
                         else if !wasReady && pentry.IsReady() then ring + [pentry.dartPort]
                         else ring
      modifies this`Model, activeReaders, activeReaders.Repr
      ensures Valid() && Model == m && fresh(activeReaders.Repr - old(activeReaders.Repr))
      ensures wasReady || !pentry.IsReady() ==> activeReaders.Repr == old(activeReaders.Repr)
    {
      if wasReady && !pentry.IsReady() {
        Leave(pentry, m);
      } else if !wasReady && pentry.IsReady() {
        Join(pentry, m);
      } else {
        Model := m;
      }
    }

    method Leave(pentry: PortEntry, ghost m: Descriptor)
      requires Shape() && pentry.dartPort in tokensMap && tokensMap[pentry.dartPort] == pentry
      requires Entries(m) && m.Valid()
      requires m.ring == RemoveFirst(PortsOf(activeReaders.Contents()), pentry.dartPort)
      modifies this`Model, activeReaders, activeReaders.Repr
      ensures Valid() && Model == m && activeReaders.Repr == old(activeReaders.Repr)
    {
      PortsOfRemove(activeReaders.Contents(), pentry);
      activeReaders.Remove(pentry);
      Model := m;
    }

    method Join(pentry: PortEntry, ghost m: Descriptor)
      requires Shape() && pentry.dartPort in tokensMap && tokensMap[pentry.dartPort] == pentry
      requires Entries(m) && m.Valid()
      requires m.ring == PortsOf(activeReaders.Contents()) + [pentry.dartPort]
      modifies this`Model, activeReaders, activeReaders.Repr
      ensures Valid() && Model == m && fresh(activeReaders.Repr - old(activeReaders.Repr))
    {
      var _ := activeReaders.Add(pentry);
      Model := m;
    }

    method RemovePort(port: int)
      requires Valid()
      modifies this, activeReaders, activeReaders.Repr
      ensures Valid() && Model == old(Model).RemovePort(port)
      ensures activeReaders.Repr == old(activeReaders.Repr) && tokensMap.Values <= old(tokensMap.Values)
    {
      ghost var m := Model.RemovePort(port);
      RemovePortValid(Model, port);
      if port in tokensMap {
        var pentry := tokensMap[port];
        if pentry.IsReady() {
          PortsOfRemove(activeReaders.Contents(), pentry);
          activeReaders.Remove(pentry);
        }
        Forget(port, m);
      }
    }

    method Forget(port: int, ghost m: Descriptor)
      requires Shape() && Entries(Model) && port in tokensMap
      requires m.Multiple? && m.disableTokens == disableTokens && m.Valid()
      requires m.entries == Model.entries - {port}
      requires m.ring == PortsOf(activeReaders.Contents())
      modifies this
      ensures Valid() && Model == m && tokensMap.Values <= old(tokensMap.Values)
    {
      forall e | e in activeReaders.Contents() ensures e.dartPort != port {
        PortsOfMember(activeReaders.Contents(), e);
      }
      tokensMap := tokensMap - {port};
      Model := m;
    }

    method ReturnTokens(port: int, count: nat)
      requires Valid() && port in Model.Ports()
      modifies this`Model, activeReaders, activeReaders.Repr, tokensMap.Values
      ensures Valid() && Model == old(Model).ReturnTokens(port, count) && fresh(activeReaders.Repr - old(activeReaders.Repr))
    {
      ghost var m := Model.ReturnTokens(port, count);
      ReturnTokensValid(Model, port, count);
      var pentry := tokensMap[port];
      var wasReady := pentry.IsReady();
      if !disableTokens {
        pentry.tokenCount := pentry.tokenCount + count;
      }
      Requeue(pentry, wasReady, m);
    }

    method NextNotifyDartPort() returns (port: int)
      requires Valid()
      modifies this`Model, activeReaders, activeReaders.Repr, tokensMap.Values
      ensures Valid() && (Model, port) == old(Model).NextNotifyDartPort() && activeReaders.Repr == old(activeReaders.Repr)
    {
      NextNotifyValid(Model);
      if activeReaders.HasHead() {
        port := Serve();
      } else {
        port := 0;
      }
    }

    method Serve() returns (port: int)
      requires Valid() && activeReaders.Contents() != [] && Model.NextNotifyDartPort().0.Valid()
      modifies this`Model, activeReaders, activeReaders.Repr, tokensMap.Values
      ensures Valid() && (Model, port) == old(Model).NextNotifyDartPort() && activeReaders.Repr == old(activeReaders.Repr)
    {
      ghost var m := Model.NextNotifyDartPort().0;
      var pentry := activeReaders.Head();
      port := pentry.dartPort;
      Spend(pentry, m);
      Advance(pentry, m);
    }

    /** Takes a token from an entry, unless tokens are disabled. */
    method Spend(pentry: PortEntry, ghost m: Descriptor)
      requires Shape() && pentry.dartPort in tokensMap && tokensMap[pentry.dartPort] == pentry
      requires m.Multiple? && m.disableTokens == disableTokens && m.entries.Keys == tokensMap.Keys
      requires forall p :: p in tokensMap ==>
                             var state := tokensMap[p].State();
                             m.entries[p] == if p == pentry.dartPort then state.Spend(disableTokens) else state
      modifies pentry
      ensures Shape() && Entries(m)
    {
      if !disableTokens {
        pentry.tokenCount := pentry.tokenCount - 1;
      }
    }

    /** Takes the ring past the entry that was just served. */
    method Advance(pentry: PortEntry, ghost m: Descriptor)
      requires Shape() && Entries(m) && m.Valid()
      requires activeReaders.Contents() != [] && activeReaders.Contents()[0] == pentry
      requires m.ring == var ring := PortsOf(activeReaders.Contents());
                         if pentry.tokenCount <= 0 then ring[1..] else Rotated(ring)
      modifies this`Model, activeReaders, activeReaders.Repr
      ensures Valid() && Model == m && activeReaders.Repr == old(activeReaders.Repr)
    {
      PortsOfRotated(activeReaders.Contents());
      if pentry.tokenCount <= 0 {
        Retire(m);
      } else {
        Pass(m);
      }
    }

    method Pass(ghost m: Descriptor)
      requires Shape() && Entries(m) && m.Valid() && activeReaders.Contents() != []
      requires m.ring == PortsOf(Rotated(activeReaders.Contents()))
      modifies this`Model, activeReaders, activeReaders.Repr
      ensures Valid() && Model == m && activeReaders.Repr == old(activeReaders.Repr)
    {
      activeReaders.Rotate();
      Model := m;
    }

    method Retire(ghost m: Descriptor)
      requires Shape() && Entries(m) && m.Valid() && activeReaders.Contents() != []
      requires m.ring == PortsOf(activeReaders.Contents()[1..])
      modifies this`Model, activeReaders, activeReaders.Repr
      ensures Valid() && Model == m && activeReaders.Repr == old(activeReaders.Repr)
    {
      var _ := activeReaders.RemoveHead();
      Model := m;
    }

    method Mask() returns (mask: set<Event>)
      requires Valid()
      ensures mask == Model.Mask()
      ensures mask == {In} <==> exists p :: p in Model.entries && Model.entries[p].IsReady()
    {
      if activeReaders.HasHead() {
        assert Model.ring[0] in Model.ring;
        return {In};
      }
      return {};
    }

    /** Tells every port, in whatever order the hash map yields them. */
    method NotifyAllDartPorts() returns (posted: seq<int>)
      requires Valid()
      modifies this`Model, activeReaders, activeReaders.Repr, tokensMap.Values
      ensures Valid() && Model == old(Model).NotifyAllDartPorts() && activeReaders.Repr == old(activeReaders.Repr)
      ensures Enumerates(posted, old(Model).Ports())
    {
      posted := [];
      var all, todo := tokensMap.Keys, tokensMap.Keys;
      NotifyDone(Model, Model);
      while todo != {}
        invariant Valid() && todo <= all == tokensMap.Keys && activeReaders.Repr == old(activeReaders.Repr)
        invariant PartlyNotified(old(Model), todo, Model)
        invariant Enumerates(posted, all - todo)
        decreases todo
      {
        posted, todo := NotifySome(posted, all, todo, old(Model));
      }
      NotifyDone(old(Model), Model);
    }

    method NotifySome(posted: seq<int>, ghost all: set<int>, todo: set<int>, ghost was: Descriptor)
      returns (posted': seq<int>, todo': set<int>)
      requires Valid() && {} < todo <= all == tokensMap.Keys && Enumerates(posted, all - todo)
      requires was.Multiple? && was.Valid() && PartlyNotified(was, todo, Model)
      modifies this`Model, activeReaders, activeReaders.Repr, tokensMap.Values
      ensures Valid() && activeReaders.Repr == old(activeReaders.Repr)
      ensures todo' < todo && Enumerates(posted', all - todo') && PartlyNotified(was, todo', Model)
    {
      var p := Pick(todo);
      EnumeratesStep(posted, all, todo, p);
      posted', todo' := posted + [p], todo - {p};
      NotifyPort(p, was, todo);
    }

    method NotifyPort(p: int, ghost was: Descriptor, ghost todo: set<int>)
      requires Valid() && p in tokensMap && p in todo
      requires was.Multiple? && was.Valid() && PartlyNotified(was, todo, Model)
      modifies this`Model, activeReaders, activeReaders.Repr, tokensMap.Values
      ensures Valid() && activeReaders.Repr == old(activeReaders.Repr)
      ensures PartlyNotified(was, todo - {p}, Model)
    {
      NotifyNext(was, todo, Model, p);
      NotifyPortValid(Model, p);
      Tell(p);
    }

    method Tell(p: int)
      requires Valid() && p in tokensMap && Model.NotifyPort(p).Valid()
      modifies this`Model, activeReaders, activeReaders.Repr, tokensMap.Values
      ensures Valid() && Model == old(Model).NotifyPort(p) && activeReaders.Repr == old(activeReaders.Repr)
    {
      ghost var m := Model.NotifyPort(p);
      var pentry := tokensMap[p];
      var wasReady := pentry.IsReady();
      if !disableTokens {
        pentry.tokenCount := pentry.tokenCount - 1;
      }
      Requeue(pentry, wasReady, m);
    }

    /** Forgets every port; `freed` lists the entries in the order they are deleted. */
    method RemoveAllPorts() returns (freed: seq<PortEntry>)
      requires Valid()
      modifies this, activeReaders, activeReaders.Repr
      ensures Valid() && Model == old(Model).RemoveAllPorts()
      ensures Enumerates(freed, old(tokensMap).Values)
      ensures activeReaders.Repr == old(activeReaders.Repr) && tokensMap == map[]
    {
      freed := FreeEntries();
      tokensMap := map[];
      var rest := activeReaders.RemoveAll();
      freed := freed + rest;
      Model := Model.RemoveAllPorts();
    }

    /** The loop over the map, which also takes every entry out of the ring. */
    method FreeEntries() returns (freed: seq<PortEntry>)
      requires Shape() && NoDuplicates(activeReaders.Contents())
      modifies activeReaders, activeReaders.Repr
      ensures activeReaders.Valid() && activeReaders.Repr == old(activeReaders.Repr) && activeReaders.Contents() == []
      ensures Enumerates(freed, tokensMap.Values)
    {
      freed := [];
      var todo := tokensMap.Keys;
      ghost var left := tokensMap.Values;
      FiledOnce();
      while todo != {}
        invariant Shape() && activeReaders.Repr == old(activeReaders.Repr) && todo <= tokensMap.Keys
        invariant NoDuplicates(activeReaders.Contents())
        invariant forall e :: e in activeReaders.Contents() ==> e.dartPort in todo
        invariant forall e: PortEntry :: e in left <==> e.dartPort in todo && tokensMap[e.dartPort] == e
        invariant Enumerates(freed, tokensMap.Values - left)
        decreases todo
      {
        var p := Pick(todo);
        var pentry := tokensMap[p];
        EnumeratesStep(freed, tokensMap.Values, left, pentry);
        TakeOut(pentry);
        freed := freed + [pentry];
        todo, left := todo - {p}, left - {pentry};
      }
      NoMembers(activeReaders.Contents());
    }

    lemma FiledOnce()
      requires Shape()
      ensures forall e: PortEntry :: e in tokensMap.Values <==> e.dartPort in tokensMap.Keys && tokensMap[e.dartPort] == e
    {
      forall e | e in tokensMap.Values ensures e.dartPort in tokensMap && tokensMap[e.dartPort] == e {
        var _ := KeyOf(tokensMap, e);
      }
    }

    method TakeOut(pentry: PortEntry)
      requires Shape() && NoDuplicates(activeReaders.Contents())
      modifies activeReaders, activeReaders.Repr
      ensures Shape() && activeReaders.Repr == old(activeReaders.Repr)
      ensures NoDuplicates(activeReaders.Contents())
      ensures forall e :: e in activeReaders.Contents() ==> e in old(activeReaders.Contents()) && e != pentry
    {
      RemoveFirstKeepsDistinct(activeReaders.Contents(), pentry);
      activeReaders.Remove(pentry);
    }

    /** The debug check: once round the ring, which comes back to where it was, then
        once over the map. Both counts agree. */
    method CheckReaders() returns (readyCount: int)
      requires Valid()
      modifies activeReaders
      ensures Valid() && activeReaders.Contents() == old(activeReaders.Contents())
      ensures readyCount == 0
    {
      forall p | p in tokensMap ensures tokensMap[p].IsReady() <==> tokensMap[p] in activeReaders.Contents() {
        ReadyIsQueued(p);
      }
      DistinctCardinality(activeReaders.Contents());
      var inMap := CountReady(tokensMap, set e | e in activeReaders.Contents());
      readyCount := 0;
      if activeReaders.HasHead() {
        var visited := activeReaders.RoundTrip();
        readyCount := |visited|;
      }
      readyCount := readyCount - inMap;
    }

    lemma ReadyIsQueued(p: int)
      requires Valid() && p in tokensMap
      ensures tokensMap[p].IsReady() <==> tokensMap[p] in activeReaders.Contents()
    {
      var es, e := activeReaders.Contents(), tokensMap[p];
      if e in es {
        PortsOfMember(es, e);
      }
      if e.IsReady() {
        var i := IndexOf(PortsOf(es), p);
        assert es[i] in es;
      }
    }
  }

  /** Counts the ready entries of a hash map; `all` is the set of them. */
  method CountReady(tokensMap: map<int, PortEntry>, ghost all: set<PortEntry>) returns (count: nat)
    requires forall p :: p in tokensMap ==> tokensMap[p].dartPort == p
    requires forall p :: p in tokensMap ==> (tokensMap[p].IsReady() <==> tokensMap[p] in all)
    requires forall e :: e in all ==> e.dartPort in tokensMap && tokensMap[e.dartPort] == e
    ensures count == |all|
  {
    count := 0;
    var todo := tokensMap.Keys;
    ghost var left := all;
    while todo != {}
      invariant todo <= tokensMap.Keys && left <= all && count + |left| == |all|
      invariant forall e :: e in left ==> e.dartPort in todo
      invariant forall e :: e in all && e.dartPort in todo ==> e in left
      decreases todo
    {
      var p := Pick(todo);
      var pentry := tokensMap[p];
      if pentry.IsReady() {
        count, left := count + 1, left - {pentry};
      }
      todo := todo - {p};
    }
    NoMember(left);
  }

  lemma IndexOf<T>(s: seq<T>, x: T) returns (i: nat)
    requires x in s
    ensures i < |s| && s[i] == x
  {
    i :| 0 <= i < |s| && s[i] == x;
  }

  lemma NoMember<T>(s: set<T>)
    ensures s == {} || exists x :: x in s
  {}
}
