/** The proxy server object: each method is one critical section of one of its threads. */
module TcpProxyServer {
  import opened Basics
  import opened ProxyServer
  import Relay
  import Socks5
  import Socks5TcpProxySocket

  type ProxySocket = Socks5TcpProxySocket.NegotiatingSocket

  /** The sockets that are not ready for removal, in order. */
  ghost function Remaining(sockets: seq<ProxySocket>): seq<ProxySocket>
    reads set x | x in sockets :: x.relay
    reads set x | x in sockets :: x.relay.fromLocalToRemote
    reads set x | x in sockets :: x.relay.fromRemoteToLocal
  {
    if sockets == [] then []
    else
      Remaining(DropLast(sockets))
      + if Relay.ReadyForRemoval(Last(sockets).relay.State()) then [] else [Last(sockets)]
  }

  /** Both sockets closed, and none of the four relay operations counted as outstanding. */
  ghost predicate IsFinished(socket: ProxySocket)
    reads socket.relay, socket.relay.fromLocalToRemote, socket.relay.fromRemoteToLocal
  {
    var c := socket.relay.State();
    && c.localSocket == -1 && c.remoteSocket == -1
    && c.up.recv.len == 0 && c.up.send.len == 0 && c.down.recv.len == 0 && c.down.send.len == 0
  }

  /** A finished socket never remains, any other remains as often as it was there. */
  lemma {:induction false} RemainingIff(sockets: seq<ProxySocket>, x: ProxySocket)
    ensures multiset(Remaining(sockets))[x] == if IsFinished(x) then 0 else multiset(sockets)[x]
  {
    if sockets != [] {
      RemainingIff(DropLast(sockets), x);
      assert sockets == DropLast(sockets) + [Last(sockets)];
    }
  }

  /** What remains of a front and of a back of the list remains in that order. */
  lemma {:induction false} RemainingInOrder(front: seq<ProxySocket>, back: seq<ProxySocket>)
    ensures Remaining(front + back) == Remaining(front) + Remaining(back)
  {
    if back == [] {
      assert front + back == front;
    } else {
      RemainingInOrder(front, DropLast(back));
      assert DropLast(front + back) == front + DropLast(back);
    }
  }

  /** The socket has the two sockets and the context of the entry, and has sent its greeting. */
  ghost predicate HasBegun(socket: ProxySocket, e: Entry, sendAccepted: bool, readAccepted: bool)
    requires e.context.Some?
    reads socket, socket.relay, socket.relay.fromLocalToRemote, socket.relay.fromRemoteToLocal
    reads socket.identReply, socket.connectReply
  {
    exists s: Socks5.Session ::
      && Socks5.IsNew(s) && s.context == e.context.value
      && s.conn.localSocket == e.local && s.conn.remoteSocket == e.remote
      && socket.State() == Socks5.RemoteNegotiate(s, sendAccepted, readAccepted)
  }

  method Wrap(e: Entry, attached: bool, sendAccepted: bool, readAccepted: bool) returns (socket: ProxySocket)
    requires IsConnection(e)
    ensures fresh(socket) && HasBegun(socket, e, sendAccepted, readAccepted)
  {
    socket := new Socks5TcpProxySocket.NegotiatingSocket(e.local, e.remote, e.context.value);
    var ok := socket.relay.AssociateToCompletionPort(attached);
    ghost var s := socket.State();
    assert Socks5.IsNew(s) && s.conn.localSocket == e.local && s.conn.remoteSocket == e.remote;
    var complete := socket.RemoteNegotiate(sendAccepted, readAccepted);
  }

  class Server {
    var endServer: bool
    /** sock_array_events_ */
    var entries: seq<Entry>
    var proxySockets: seq<ProxySocket>
    // The threads and events, and what has become of the connections so far.
    ghost var acceptor: Acceptor
    ghost var connector: Connector
    ghost var signalled: set<Handle>
    ghost var appended: seq<Entry>
    ghost var numbers: seq<nat>
    ghost var wrapped: seq<nat>
    ghost var dropped: seq<nat>
    ghost var closed: set<nat>
    ghost var cleaned: nat

    ghost function State(): ProxyServer.Server
      reads this
    {
      ProxyServer.Server(endServer, acceptor, entries, connector, signalled,
                         appended, numbers, wrapped, dropped, closed, cleaned)
    }

    constructor ()
      ensures State() == Initial() && proxySockets == []
    {
      endServer, entries, proxySockets := true, [], [];
      acceptor, connector, signalled := Departed, Exited, {};
      appended, numbers, wrapped, dropped, closed, cleaned := [], [], [], [], {}, 0;
    }

    /** `event` and `socket` are newly created; `attached` is the completion port's answer. */
    method Start(event: Handle, socket: int, attached: bool) returns (ok: bool)
      requires Enabled(State(), Started(event, socket, attached))
      modifies this
      ensures State() == Step(old(State()), Started(event, socket, attached))
      ensures proxySockets == old(proxySockets)
      ensures ok <==> !endServer
    {
      if !endServer {
        return true;
      }
      endServer := false;
      entries := entries + [Entry(event, socket, NO_SOCKET, None)];
      if entries[0].local != NO_SOCKET {
        if !attached {
          entries := [];
          endServer := true;
          return false;
        }
      }
      acceptor, connector, signalled := Listening, Looking, signalled - {event};
      ok := true;
    }

    /** Up to the end of the critical section; what the query and Winsock answer are parameters. */
    method BeginConnect(local: int, peer: Peer, remote: int, bound: bool, event: Handle) returns (ok: bool)
      requires Enabled(State(), Accepted(local, peer, remote, bound, event))
      modifies this`entries, this`signalled, this`appended, this`numbers, this`acceptor
      ensures (ok, State()) == ProxyServer.BeginConnect(old(State()), local, peer, remote, bound, event)
    {
      if peer.port == 0 {
        return false;
      }
      if remote == NO_SOCKET {
        return false;
      }
      if !bound {
        return false;
      }
      acceptor := Connecting(|appended|);
      entries := entries + [Entry(event, local, remote, peer.context)];
      appended, numbers := appended + [Last(entries)], numbers + [|appended|];
      signalled := signalled - {event} + {entries[0].event};
      ok := true;
    }

    /** The connect that follows; `connected` is false if it fails otherwise than by having to wait. */
    method FinishConnect(connected: bool) returns (ok: bool)
      requires Enabled(State(), ConnectReturned(connected))
      modifies this`acceptor, this`closed
      ensures ok == connected && State() == ProxyServer.FinishConnect(old(State()), connected)
    {
      if !connected {
        closed := closed + {acceptor.number};
      }
      acceptor := Listening;
      ok := connected;
    }

    /** Copies the events of all entries under the shared lock. */
    method TakeSnapshot() returns (events: seq<Handle>)
      requires Enabled(State(), SnapshotTaken)
      modifies this`connector
      ensures State() == Step(old(State()), SnapshotTaken)
      ensures events == connector.events
    {
      events := [];
      for i := 0 to |entries|
        invariant events == Handles(entries)[..i]
      {
        events := events + [entries[i].event];
      }
      assert Handles(entries)[..|entries|] == Handles(entries);
      connector := Waiting(events, entries);
    }

    /** `events` is the snapshot and `index` what the wait returned; the rest are answers to a new proxy socket. */
    method HandleEvent(events: seq<Handle>, index: nat, attached: bool, sendAccepted: bool, readAccepted: bool)
      requires Enabled(State(), EventHandled) && connector.events == events && connector.index == index
      requires index != 0 ==> IsConnection(entries[index])
      modifies this`entries, this`numbers, this`proxySockets, this`connector, this`signalled, this`wrapped
      ensures State() == Step(old(State()), EventHandled)
      ensures index == 0 ==> proxySockets == old(proxySockets)
      ensures index != 0 ==>
                && proxySockets != [] && DropLast(proxySockets) == old(proxySockets) && fresh(Last(proxySockets))
                && HasBegun(Last(proxySockets), old(entries[index]), sendAccepted, readAccepted)
    {
      if index != 0 {
        WrapEntry(index, attached, sendAccepted, readAccepted);
      } else {
        signalled := signalled - {events[0]};
        connector := Looking;
      }
    }

    method WrapEntry(index: nat, attached: bool, sendAccepted: bool, readAccepted: bool)
      requires Enabled(State(), EventHandled) && connector.index == index > 0 && IsConnection(entries[index])
      modifies this`entries, this`numbers, this`proxySockets, this`connector, this`wrapped
      ensures State() == Step(old(State()), EventHandled)
      ensures proxySockets != [] && DropLast(proxySockets) == old(proxySockets) && fresh(Last(proxySockets))
      ensures HasBegun(Last(proxySockets), old(entries[index]), sendAccepted, readAccepted)
    {
      var e := entries[index];
      RemoveEntry(index);
      AddProxySocket(e, attached, sendAccepted, readAccepted);
    }

    method AddProxySocket(e: Entry, attached: bool, sendAccepted: bool, readAccepted: bool)
      requires IsConnection(e)
      modifies this`proxySockets
      ensures proxySockets != [] && DropLast(proxySockets) == old(proxySockets) && fresh(Last(proxySockets))
      ensures HasBegun(Last(proxySockets), e, sendAccepted, readAccepted)
    {
      var socket := Wrap(e, attached, sendAccepted, readAccepted);
      proxySockets := proxySockets + [socket];
    }

    method RemoveEntry(index: nat)
      requires Enabled(State(), EventHandled) && connector.index == index > 0
      modifies this`entries, this`numbers, this`connector, this`wrapped
      ensures State() == Step(old(State()), EventHandled)
    {
      wrapped := wrapped + [numbers[index - 1]];
      entries := entries[..index] + entries[index + 1..];
      numbers := RemoveAt(numbers, index - 1);
      connector := Looking;
    }

    /** One pass of the thread that removes finished sockets. */
    method ClearFinished()
      modifies this`proxySockets
      ensures proxySockets == Remaining(old(proxySockets))
    {
      var sockets, kept: seq<ProxySocket> := proxySockets, [];
      for i := 0 to |sockets|
        modifies {}
        invariant kept == Remaining(sockets[..i])
      {
        var ready := sockets[i].relay.IsReadyForRemoval();
        assert DropLast(sockets[..i + 1]) == sockets[..i];
        if !ready {
          kept := kept + [sockets[i]];
        }
      }
      assert sockets[..|sockets|] == sockets;
      proxySockets := kept;
    }

    method BeginStop()
      requires Enabled(State(), StopBegun)
      modifies this`endServer, this`signalled
      ensures State() == Step(old(State()), StopBegun)
    {
      if endServer {
        return;
      }
      endServer := true;
      signalled := signalled + {entries[0].event};
    }

    /** The connecting thread leaves: every socket in the list is closed, but no entry is removed. */
    method CleanUp()
      requires Enabled(State(), ConnectorLeft)
      modifies this`entries, this`connector, this`closed, this`cleaned
      ensures State() == Step(old(State()), ConnectorLeft)
    {
      ghost var was := entries;
      for i := 0 to |entries|
        modifies this`entries
        invariant |entries| == |was|
        invariant forall k :: 0 <= k < |was| ==> entries[k] == if k < i then CleanedUp(was[k]) else was[k]
      {
        if entries[i].local != NO_SOCKET {
          entries := entries[i := entries[i].(local := NO_SOCKET)];
        }
        if entries[i].remote != NO_SOCKET {
          entries := entries[i := entries[i].(remote := NO_SOCKET)];
        }
      }
      connector, cleaned, closed := Exited, |appended|, closed + (set n | n in numbers);
    }

    /** After the joins. */
    method FinishStop()
      requires Enabled(State(), StopFinished)
      modifies this`entries, this`numbers, this`proxySockets, this`dropped
      ensures State() == Step(old(State()), StopFinished) && proxySockets == []
    {
      dropped, numbers := dropped + numbers, [];
      entries, proxySockets := [], [];
    }
  }
}
