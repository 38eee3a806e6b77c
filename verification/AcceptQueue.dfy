/** The queue of accepted connections of a listening socket on Windows (class
    `ListenSocket` of runtime/bin/eventhandler_win.cc): a linked list filled by
    completions and emptied by `Accept`. Every method runs under the socket's monitor. */
module AcceptQueue {

  const MAX_PENDING := 5

  class ClientSocket {
    const handle: int
    var next: ClientSocket?

    constructor (handle: int)
      ensures this.handle == handle && next == null
    {
      this.handle, next := handle, null;
    }
  }

  class ListenSocket {
    var acceptedHead: ClientSocket?
    var acceptedTail: ClientSocket?
    var acceptedCount: int
    var pendingAcceptCount: int
    var closing: bool
    var error: bool
    ghost var nodes: seq<ClientSocket>   // the list
    ghost var Repr: set<ClientSocket>
    ghost var issued: nat                // accepts started
    ghost var completed: nat             // accepts that have completed
    ghost var queued: seq<ClientSocket>  // connections ever put on the list
    ghost var taken: seq<ClientSocket>   // connections ever taken off it
    ghost var dropped: nat               // connections closed instead of being queued

    /** The list is well linked, with the right tail and count. */
    ghost predicate Linked()
      reads this, Repr
    {
      && (forall i :: 0 <= i < |nodes| ==> nodes[i] in Repr)
      && (forall i, j :: 0 <= i < j < |nodes| ==> nodes[i] != nodes[j])
      && acceptedHead == (if nodes == [] then null else nodes[0])
      && acceptedTail == (if nodes == [] then null else nodes[|nodes| - 1])
      && (forall i {:trigger nodes[i].next} :: 0 <= i < |nodes| ==>
            nodes[i].next == if i + 1 < |nodes| then nodes[i + 1] else null)
      && acceptedCount == |nodes|
    }

    /** Nothing is lost or reordered: pending accepts are the issued ones that have not
        completed, every completion was queued or dropped, and connections leave the
        list in the order they came. */
    ghost predicate Balanced()
      reads this
    {
      && pendingAcceptCount == issued - completed && completed <= issued
      && completed == |queued| + dropped
      && queued == taken + nodes
    }

    ghost predicate Valid()
      reads this, Repr
    {
      Linked() && Balanced() && (closing ==> nodes == [])
    }

    constructor ()
      ensures Valid() && !closing && nodes == [] && issued == 0 && taken == [] && Repr == {}
    {
      acceptedHead, acceptedTail, acceptedCount, pendingAcceptCount := null, null, 0, 0;
      closing, error := false, false;
      nodes, Repr, issued, completed, queued, taken, dropped := [], {}, 0, 0, [], [], 0;
    }

    /** `ok` is the system's answer. */
    method IssueAccept(ok: bool) returns (r: bool)
      requires Linked() && Balanced()
      modifies this`pendingAcceptCount, this`issued
      ensures Linked() && Balanced() && r == ok
      ensures issued == old(issued) + if ok then 1 else 0
    {
      if ok {
        pendingAcceptCount := pendingAcceptCount + 1;
        issued := issued + 1;
      }
      return ok;
    }

    /** An accept completes with connection `handle`; `usable` says whether the new
        socket could be set up. */
    method AcceptComplete(handle: int, usable: bool)
      requires Valid() && completed < issued
      modifies this, Repr
      ensures Valid() && closing == old(closing) && fresh(Repr - old(Repr))
      ensures completed == old(completed) + 1 && issued == old(issued) && taken == old(taken)
      ensures queued == taken + nodes
      ensures if closing || !usable then nodes == old(nodes)
              else |nodes| == |old(nodes)| + 1 && nodes[..|old(nodes)|] == old(nodes) && nodes[|old(nodes)|].handle == handle
    {
      if !closing && usable {
        var client := new ClientSocket(handle);
        Append(client);
      } else {
        dropped := dropped + 1;
      }
      pendingAcceptCount := pendingAcceptCount - 1;
      completed := completed + 1;
    }

    method Append(client: ClientSocket)
      requires Linked() && queued == taken + nodes && client !in Repr && client.next == null
      modifies this, Repr
      ensures Linked() && queued == old(queued) + [client] && nodes == old(nodes) + [client] && Repr == old(Repr) + {client}
      ensures taken == old(taken) && queued == taken + nodes
      ensures unchanged(this`pendingAcceptCount) && unchanged(this`closing) && unchanged(this`error)
      ensures unchanged(this`issued) && unchanged(this`completed) && unchanged(this`dropped)
    {
      if acceptedHead == null {
        acceptedHead := client;
        acceptedTail := client;
      } else {
        acceptedTail.next := client;
        acceptedTail := client;
      }
      acceptedCount := acceptedCount + 1;
      nodes, Repr, queued := nodes + [client], Repr + {client}, queued + [client];
    }

    predicate CanAccept()
      reads this
    {
      acceptedHead != null
    }

    /** Takes the oldest connection off the list, if any. */
    method RemoveFirst() returns (result: ClientSocket?)
      requires Linked() && Balanced()
      modifies this, Repr
      ensures Linked() && Balanced() && Repr == old(Repr)
      ensures if old(nodes) == [] then result == null && nodes == [] && taken == old(taken)
              else result == old(nodes)[0] && result.next == null && nodes == old(nodes)[1..] && taken == old(taken) + [old(nodes)[0]]
      ensures unchanged(this`closing) && unchanged(this`issued) && unchanged(this`completed)
      ensures unchanged(this`queued) && unchanged(this`dropped) && unchanged(this`error)
    {
      result := null;
      if acceptedHead != null {
        result := acceptedHead;
        acceptedHead := acceptedHead.next;
        if acceptedHead == null {
          acceptedTail := null;
        }
        result.next := null;
        acceptedCount := acceptedCount - 1;
        nodes, taken := nodes[1..], taken + [nodes[0]];
      }
    }

    /** Hands out connections in the order their accepts completed, and keeps accepts
        pending unless the socket is closing. */
    method Accept(issueOk: bool) returns (result: ClientSocket?)
      requires Linked() && Balanced()
      modifies this, Repr
      ensures Linked() && Balanced() && Repr == old(Repr) && closing == old(closing)
      ensures if old(nodes) == [] then result == null && nodes == [] && taken == old(taken)
              else result == old(nodes)[0] && nodes == old(nodes)[1..] && taken == old(taken) + [old(nodes)[0]]
      ensures unchanged(this`completed) && unchanged(this`queued) && unchanged(this`dropped)
      ensures issued == old(issued) + if !closing && issueOk && old(pendingAcceptCount) < 5 then 1 else 0
      ensures error == (old(error) || (!closing && !issueOk && old(pendingAcceptCount) < 5))
    {
      result := RemoveFirst();
      if pendingAcceptCount < MAX_PENDING {
        if !closing {
          var issuedOk := IssueAccept(issueOk);
          if !issuedOk {
            error := true;
          }
        }
      }
    }

    /** `Handle::Close` with `ListenSocket::DoClose`: drains the list. */
    method Close()
      requires Valid()
      modifies this, Repr
      ensures Valid() && closing && Repr == old(Repr) && taken == old(taken) + old(nodes)
      ensures issued == old(issued) && completed == old(completed) && queued == old(queued)
    {
      if closing {
        return;
      }
      closing := true;
      ghost var was, k := nodes, 0;
      while CanAccept()
        invariant Linked() && Balanced() && Repr == old(Repr) && closing
        invariant 0 <= k <= |was| && nodes == was[k..] && taken == old(taken) + was[..k]
        invariant issued == old(issued) && completed == old(completed) && queued == old(queued)
        decreases |nodes|
      {
        var client := Accept(true);
        k := k + 1;
        assert was[..k] == was[..k - 1] + [was[k - 1]];
      }
      assert was[..k] == was;
    }

    /** What the destructor requires holds once the socket is closed. */
    method IsClosed() returns (r: bool)
      requires Valid()
      ensures r <==> closing && issued == completed
      ensures r ==> pendingAcceptCount == 0 && acceptedHead == null && acceptedTail == null && queued == taken
    {
      r := closing && pendingAcceptCount <= 0;
    }
  }

  /** The sockets of a sequence of connections. */
  ghost function Handles(clients: seq<ClientSocket>): (r: seq<int>)
    ensures |r| == |clients|
    ensures forall i :: 0 <= i < |r| ==> r[i] == clients[i].handle
  {
    if clients == [] then [] else Handles(clients[..|clients| - 1]) + [clients[|clients| - 1].handle]
  }

  datatype Action = Complete(handle: int, usable: bool) | Take(issueOk: bool) | Issue(ok: bool) | Close

  /** One step of an interleaving; a completion can only come for a pending accept. */
  method Act(s: ListenSocket, action: Action) returns (arrived: seq<int>, handed: seq<int>)
    requires s.Valid()
    modifies s, s.Repr
    ensures s.Valid() && fresh(s.Repr - old(s.Repr)) && (old(s.closing) ==> s.closing)
    ensures Handles(s.queued) == old(Handles(s.queued)) + arrived
    ensures if s.closing then handed == [] else Handles(s.taken) == old(Handles(s.taken)) + handed
  {
    arrived, handed := [], [];
    match action
    case Complete(handle, usable) =>
      if s.pendingAcceptCount > 0 {
        arrived := if !s.closing && usable then [handle] else [];
        s.AcceptComplete(handle, usable);
      }
    case Take(issueOk) =>
      var client := s.Accept(issueOk);
      handed := if client != null then [client.handle] else [];
    case Issue(ok) =>
      var r := s.IssueAccept(ok);
    case Close =>
      s.Close();
  }

  /** Any interleaving of completions, accepts and a close: connections are handed out
      once each, in the order they arrived, and while the socket is open none is lost. */
  method Run(actions: seq<Action>) returns (s: ListenSocket, arrived: seq<int>, handed: seq<int>)
    ensures s.Valid() && Handles(s.queued) == arrived && handed <= arrived
    ensures !s.closing ==> arrived == handed + Handles(s.nodes)
  {
    s := new ListenSocket();
    arrived, handed := [], [];
    for k := 0 to |actions|
      invariant s.Valid() && fresh(s) && fresh(s.Repr)
      invariant Handles(s.queued) == arrived && handed <= arrived
      invariant !s.closing ==> handed == Handles(s.taken)
    {
      var a, h := Act(s, actions[k]);
      arrived, handed := arrived + a, handed + h;
    }
  }
}
