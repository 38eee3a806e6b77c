/** The descriptor objects of the event handler and the table that owns them. The state
    of every object is its own: an operation on one leaves every other as it was. */
module DescriptorTable {

  import opened Collections
  import opened Descriptor
  import opened DescriptorInfo
  import opened EventLoop

  /** What the source asserts of the events handed to a descriptor. */
  predicate IsEvent(events: set<Event>, e: Event) {
    events == {e}
  }

  predicate IsIoEvent(events: set<Event>) {
    events != {} && events <= {In, Out, Close}
  }

  predicate IsBroadcast(events: set<Event>) {
    IsEvent(events, Close) || IsEvent(events, Error) || IsEvent(events, Destroyed)
  }

  /** A `DescriptorInfo`: a connected socket with one port, or, with `multiple`, a
      listening socket with many. */
  class DescriptorObject {
    const fd: int
    const multiple: DescriptorInfoMultiple?
    var port: int
    var tokens: int
    var mask: set<Event>
    ghost var Model: Descriptor
    ghost var Repr: set<object>

    ghost predicate Valid()
      reads this, Repr
    {
      && this in Repr && Model.Valid() && Model.fd == fd && !Model.disableTokens
      && if multiple == null then Model == Single(fd, false, port, tokens, mask)
         else
           && multiple in Repr && multiple.activeReaders in Repr
           && multiple.activeReaders.Repr <= Repr && multiple.tokensMap.Values <= Repr
           && multiple.Valid() && Model == multiple.Model
    }

    constructor (fd: int, isListening: bool)
      ensures Valid() && fresh(Repr) && Model == NewDescriptor(fd, isListening) && (multiple != null <==> isListening)
    {
      this.fd, port, tokens, mask := fd, 0, SINGLE_TOKENS, {};
      if isListening {
        var m := new DescriptorInfoMultiple(fd, false);
        multiple := m;
        Repr := {this, m, m.activeReaders};
      } else {
        multiple := null;
        Repr := {this};
      }
      Model := NewDescriptor(fd, isListening);
    }

    method Mask() returns (r: set<Event>)
      requires Valid()
      ensures r == Model.Mask()
    {
      if multiple == null {
        r := if tokens <= 0 then {} else mask;
      } else {
        r := multiple.Mask();
      }
    }

    /** Takes over what happened to the listening socket's own structures. */
    ghost method Adopt()
      requires multiple != null && this in Repr && multiple in Repr && multiple.activeReaders in Repr
      requires multiple.Valid() && multiple.Model.fd == fd && !multiple.Model.disableTokens
      modifies this`Repr, this`Model
      ensures Valid() && Model == multiple.Model
      ensures Repr == old(Repr) + multiple.activeReaders.Repr + multiple.tokensMap.Values
    {
      Repr := Repr + multiple.activeReaders.Repr + multiple.tokensMap.Values;
      Model := multiple.Model;
    }

    method SetPortAndMask(p: int, m: set<Event>)
      requires Valid() && p != 0 && (Model.Single? ==> Model.port == 0 || Model.port == p)
      modifies Repr
      ensures Valid() && fresh(Repr - old(Repr)) && Model == old(Model).SetPortAndMask(p, m)
    {
      SetPortAndMaskValid(Model, p, m);
      if multiple == null {
        assert port == 0 || p == port;
        port, mask := p, m;
        Model := Model.SetPortAndMask(p, m);
      } else {
        multiple.SetPortAndMask(p, m);
        Adopt();
      }
    }

    method RemovePort(p: int)
      requires Valid()
      modifies Repr
      ensures Valid() && fresh(Repr - old(Repr)) && Model == old(Model).RemovePort(p)
    {
      RemovePortValid(Model, p);
      if multiple == null {
        port, mask := 0, {};
        Model := Model.RemovePort(p);
      } else {
        multiple.RemovePort(p);
        Adopt();
      }
    }

    method ReturnTokens(p: int, count: nat)
      requires Valid() && p in Model.Ports() && Model.Tokens(p) + count <= Model.TokenCount()
      modifies Repr
      ensures Valid() && fresh(Repr - old(Repr)) && Model == old(Model).ReturnTokens(p, count)
    {
      ReturnTokensValid(Model, p, count);
      if multiple == null {
        assert port == p;
        tokens := tokens + count;
        assert tokens <= SINGLE_TOKENS;
        Model := Model.ReturnTokens(p, count);
      } else {
        multiple.ReturnTokens(p, count);
        Adopt();
        assert Model.Tokens(p) <= MULTIPLE_TOKENS;
      }
    }

    method NextNotifyDartPort(eventsReady: set<Event>) returns (p: int)
      requires Valid() && IsIoEvent(eventsReady)
      modifies Repr
      ensures Valid() && fresh(Repr - old(Repr)) && (Model, p) == old(Model).NextNotifyDartPort()
    {
      NextNotifyValid(Model);
      if multiple == null {
        assert IsIoEvent(eventsReady) || IsEvent(eventsReady, Destroyed);
        tokens := tokens - 1;
        p := port;
        Model := Model.NextNotifyDartPort().0;
      } else {
        p := multiple.NextNotifyDartPort();
        Adopt();
      }
    }

    method NotifyAllDartPorts(events: set<Event>) returns (posted: seq<int>)
      requires Valid() && IsBroadcast(events)
      modifies Repr
      ensures Valid() && fresh(Repr - old(Repr)) && Model == old(Model).NotifyAllDartPorts()
    {
      assert IsEvent(events, Close) || IsEvent(events, Error) || IsEvent(events, Destroyed);
      NotifyAllValid(Model);
      if multiple == null {
        posted := if port != 0 then [port] else [];
        tokens := tokens - 1;
        Model := Model.NotifyAllDartPorts();
      } else {
        posted := multiple.NotifyAllDartPorts();
        Adopt();
      }
    }
  }

  /** The live descriptors, by the number the model gives them. */
  class Table {
    var live: map<nat, DescriptorObject>
    ghost var Models: map<nat, Descriptor>
    ghost var Repr: set<object>

    /** Every object represents its model, and no two share anything. */
    ghost predicate Valid()
      reads this, Repr
    {
      && this !in Repr && Models.Keys == live.Keys
      && (forall r {:trigger Holds(r)} :: r in live ==> Holds(r))
      && (forall r, r' {:trigger Apart(r, r')} :: r in live && r' in live && r != r' ==> Apart(r, r'))
    }

    ghost predicate Holds(r: nat)
      requires r in live && r in Models
      reads this, Repr
    {
      live[r] in Repr && live[r].Repr <= Repr && live[r].Valid() && live[r].Model == Models[r]
    }

    ghost predicate Apart(r: nat, r': nat)
      requires r in live && r' in live
      reads this, Repr
    {
      live[r] in Repr && live[r'] in Repr && live[r].Repr !! live[r'].Repr
    }

    constructor ()
      ensures Valid() && Repr == {} && Models == map[]
    {
      live, Models, Repr := map[], map[], {};
    }

    method Create(r: nat, fd: int, isListening: bool)
      requires Valid() && r !in Models
      modifies this
      ensures Valid() && fresh(Repr - old(Repr)) && Models == old(Models)[r := NewDescriptor(fd, isListening)]
    {
      var d := new DescriptorObject(fd, isListening);
      live, Models, Repr := live[r := d], Models[r := d.Model], Repr + d.Repr;
      forall r' | r' in live ensures Holds(r') {
        assert r' != r ==> old(Holds(r'));
      }
      forall r1, r2 | r1 in live && r2 in live && r1 != r2 ensures Apart(r1, r2) {
        assert r1 != r ==> old(Holds(r1));
        assert r2 != r ==> old(Holds(r2));
        assert r1 != r && r2 != r ==> old(Apart(r1, r2));
      }
    }

    method Delete(r: nat)
      requires Valid() && r in Models
      modifies this
      ensures Valid() && Repr == old(Repr) && Models == old(Models) - {r}
    {
      live, Models := live - {r}, Models - {r};
      forall r' | r' in live ensures Holds(r') {
        assert old(Holds(r'));
      }
      forall r1, r2 | r1 in live && r2 in live && r1 != r2 ensures Apart(r1, r2) {
        assert old(Apart(r1, r2));
      }
    }

    method Fd(r: nat) returns (fd: int)
      requires Valid() && r in Models
      ensures fd == Models[r].fd
    {
      assert Holds(r);
      fd := live[r].fd;
    }

    method IsListeningSocket(r: nat) returns (isListening: bool)
      requires Valid() && r in Models
      ensures isListening == Models[r].IsListeningSocket()
    {
      assert Holds(r);
      isListening := live[r].multiple != null;
    }

    method Mask(r: nat) returns (mask: set<Event>)
      requires Valid() && r in Models
      ensures mask == Models[r].Mask()
    {
      assert Holds(r);
      mask := live[r].Mask();
    }

    method SetPortAndMask(r: nat, p: int, m: set<Event>)
      requires Valid() && r in Models && p != 0 && (Models[r].Single? ==> Models[r].port == 0 || Models[r].port == p)
      modifies this, Repr
      ensures Valid() && fresh(Repr - old(Repr)) && Models == old(Models)[r := old(Models)[r].SetPortAndMask(p, m)]
    {
      assert Holds(r);
      live[r].SetPortAndMask(p, m);
      Others(r);
      Adopt(r);
    }

    method RemovePort(r: nat, p: int)
      requires Valid() && r in Models
      modifies this, Repr
      ensures Valid() && fresh(Repr - old(Repr)) && Models == old(Models)[r := old(Models)[r].RemovePort(p)]
    {
      assert Holds(r);
      live[r].RemovePort(p);
      Others(r);
      Adopt(r);
    }

    method ReturnTokens(r: nat, p: int, count: nat)
      requires Valid() && r in Models && p in Models[r].Ports() && Models[r].Tokens(p) + count <= Models[r].TokenCount()
      modifies this, Repr
      ensures Valid() && fresh(Repr - old(Repr)) && Models == old(Models)[r := old(Models)[r].ReturnTokens(p, count)]
    {
      assert Holds(r);
      live[r].ReturnTokens(p, count);
      Others(r);
      Adopt(r);
    }

    method NextNotifyDartPort(r: nat, eventsReady: set<Event>) returns (p: int)
      requires Valid() && r in Models && Models[r].Valid() && IsIoEvent(eventsReady)
      modifies this, Repr
      ensures Valid() && fresh(Repr - old(Repr)) && (Models, p) == (old(Models)[r := old(Models)[r].NextNotifyDartPort().0], old(Models)[r].NextNotifyDartPort().1)
    {
      assert Holds(r);
      p := live[r].NextNotifyDartPort(eventsReady);
      Others(r);
      Adopt(r);
    }

    method NotifyAllDartPorts(r: nat, events: set<Event>)
      requires Valid() && r in Models && Models[r].Valid() && IsBroadcast(events)
      modifies this, Repr
      ensures Valid() && fresh(Repr - old(Repr)) && Models == old(Models)[r := old(Models)[r].NotifyAllDartPorts()]
    {
      assert Holds(r);
      var _ := live[r].NotifyAllDartPorts(events);
      Others(r);
      Adopt(r);
    }

    /** The other objects are as they were and share nothing with the changed one. */
    twostate lemma Others(r: nat)
      requires old(Valid()) && live == old(live) && Models == old(Models) && Repr == old(Repr) && r in live
      requires old(Holds(r)) && forall o {:trigger o in old(Repr)} :: o in old(Repr) && o !in old(live[r].Repr) ==> unchanged(o)
      requires fresh(live[r].Repr - old(live[r].Repr))
      ensures forall r' {:trigger Holds(r')} :: r' in live && r' != r ==> Holds(r')
      ensures forall r1, r2 {:trigger Apart(r1, r2)} :: r1 in live && r2 in live && r1 != r2 ==> Apart(r1, r2)
    {
      forall r' | r' in live && r' != r ensures Holds(r') {
        assert old(Holds(r')) && old(Apart(r, r'));
      }
      forall r1, r2 | r1 in live && r2 in live && r1 != r2 ensures Apart(r1, r2) {
        assert old(Apart(r1, r2)) && old(Holds(r1)) && old(Holds(r2));
        assert r1 != r ==> old(Apart(r, r1));
        assert r2 != r ==> old(Apart(r, r2));
      }
    }

    /** Takes over what happened to object `r`, which shares nothing with the others. */
    ghost method Adopt(r: nat)
      requires r in live && Models.Keys == live.Keys && this !in Repr && this !in live[r].Repr
      requires live[r] in Repr && live[r].Valid()
      requires forall r' {:trigger Holds(r')} :: r' in live && r' != r ==> Holds(r')
      requires forall r1, r2 {:trigger Apart(r1, r2)} :: r1 in live && r2 in live && r1 != r2 ==> Apart(r1, r2)
      modifies this`Models, this`Repr
      ensures Valid() && Repr == old(Repr) + live[r].Repr && Models == old(Models)[r := live[r].Model]
    {
      Models, Repr := Models[r := live[r].Model], Repr + live[r].Repr;
      forall r' | r' in live ensures Holds(r') {
        assert r' != r ==> old(Holds(r'));
      }
      forall r1, r2 | r1 in live && r2 in live && r1 != r2 ensures Apart(r1, r2) {
        assert old(Apart(r1, r2));
      }
    }
  }
}
