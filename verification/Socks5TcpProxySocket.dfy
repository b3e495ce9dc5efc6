/** The negotiating socket: its request and reply structures are fields that the handlers fill and read in place. */
module Socks5TcpProxySocket {
  import opened Basics
  import opened Socks5
  import Relay
  import TcpProxySocket

  class NegotiatingSocket {
    const relay: TcpProxySocket.Socket
    const context: Context
    var currentState: Phase
    /** ident_resp_ and connect_response_, where negotiate reads deliver. */
    const identReply: array<byte>
    const connectReply: array<byte>
    // What the peer saw and what it did, and which reads Winsock holds.
    ghost var pending: seq<Reply>
    ghost var sent: seq<Bytes>
    ghost var delivered: seq<Bytes>
    ghost var verdicts: seq<byte>
    ghost var relaysStarted: nat

    ghost predicate Valid()
      reads this, relay
    {
      && identReply.Length == 2 && connectReply.Length == 10
      && identReply != connectReply
      && relay.fromLocalToRemote !in {identReply, connectReply}
      && relay.fromRemoteToLocal !in {identReply, connectReply}
    }

    ghost function State(): Session
      reads this, relay, relay.fromLocalToRemote, relay.fromRemoteToLocal, identReply, connectReply
    {
      Session(context, relay.State(), currentState, identReply[..], connectReply[..],
              pending, sent, delivered, verdicts, relaysStarted)
    }

    constructor (local: int, remote: int, context: Context)
      requires local != Relay.INVALID_SOCKET && remote != Relay.INVALID_SOCKET
      ensures Valid() && fresh(relay) && fresh(identReply) && fresh(connectReply)
      ensures this.context == context && relay.status == Relay.Connected
      ensures relay.localSocket == local && relay.remoteSocket == remote
      ensures IsNew(State().(conn := relay.State().(status := Relay.Established)))
    {
      relay := new TcpProxySocket.Socket(local, remote);
      this.context := context;
      currentState := PreLogin;
      identReply := new byte[2][5, 0];
      connectReply := new byte[10](i => if i == 0 then 5 else 0);
      pending, sent, delivered, verdicts, relaysStarted := [], [], [], [], 0;
      new;
      assert connectReply[..] == [5, 0, 0, 0, 0, 0, 0, 0, 0, 0];
    }

    /** WSASend of a whole request structure to the SOCKS server. */
    method SendRequest(message: Bytes, accepted: bool)
      modifies this`sent, relay
      ensures State() == Send(old(State()), message, accepted)
    {
      if accepted && relay.remoteSocket != Relay.INVALID_SOCKET {
        sent := sent + [message];
      } else {
        relay.CloseClient(false, false);
      }
    }

    /** WSARecv into one of the reply structures. */
    method ReadReply(reply: Reply, accepted: bool)
      modifies this`pending, relay
      ensures State() == PostRead(old(State()), reply, accepted)
    {
      if accepted && relay.remoteSocket != Relay.INVALID_SOCKET {
        pending := pending + [reply];
      } else {
        relay.CloseClient(true, false);
      }
    }

    method SendAndAdvance(message: Bytes, next: Phase, reply: Reply, sendAccepted: bool, readAccepted: bool)
      modifies this`sent, this`pending, this`currentState, relay
      ensures State() == SendAndRead(old(State()), message, next, reply, sendAccepted, readAccepted)
    {
      SendRequest(message, sendAccepted);
      currentState := next;
      ReadReply(reply, readAccepted);
    }

    /** remote_negotiate with a negotiate context; the relay is never started from here. */
    method RemoteNegotiate(sendAccepted: bool, readAccepted: bool) returns (complete: bool)
      modifies this`sent, this`pending, this`currentState, relay
      ensures !complete && State() == Socks5.RemoteNegotiate(old(State()), sendAccepted, readAccepted)
    {
      if currentState == PreLogin {
        var methods: Bytes := [0, USERNAME_PASSWORD];
        var count := 2;
        if context.username.None? {
          count := 1;
        }
        var request: Bytes := [5, count] + methods[..count];
        assert request == Greeting(context);
        SendAndAdvance(request, LoginSent, IdentReply, sendAccepted, readAccepted);
      }
      complete := false;
    }

    /** Winsock completes the oldest negotiate read: `data` lands at the front of the structure it was posted for. */
    method CompleteRead(reply: Reply, data: Bytes)
      requires Valid() && pending != [] && reply == pending[0] && |data| <= ReplySize(reply)
      modifies this`pending, this`delivered, identReply, connectReply
      ensures State() == Deliver(old(State()), data)
    {
      var target := if reply == IdentReply then identReply else connectReply;
      for i := 0 to |data|
        modifies target
        invariant target[..i] == data[..i]
        invariant forall k :: i <= k < target.Length ==> target[k] == old(target[k])
      {
        target[i] := data[i];
      }
      assert target[..] == Splice(old(target[..]), 0, data);
      pending, delivered := pending[1..], delivered + [data];
    }

    /** Username and password are both there, and neither is empty or too long. */
    method CheckCredentials() returns (ok: bool)
      ensures ok <==> HasCredentials(context)
    {
      ok := context.username.Some? && context.password.Some?;
      if ok {
        var username, password := |context.username.value|, |context.password.value|;
        ok := username <= MAX_CREDENTIAL_LENGTH && username >= 1 && password <= MAX_CREDENTIAL_LENGTH && password >= 1;
      }
    }

    /** `accepted1` and `accepted2` are Winsock's answers to the two operations the handler may post. */
    method ProcessReceiveNegotiateComplete(accepted1: bool, accepted2: bool)
      requires Valid()
      modifies this`sent, this`pending, this`currentState, this`verdicts, this`relaysStarted, relay
      ensures Valid() && State() == HandleReply(old(State()), accepted1, accepted2)
    {
      match currentState
      case LoginSent => LoginAnswered(accepted1, accepted2);
      case PasswordSent =>
        currentState := PasswordResponded;
        verdicts := verdicts + [identReply[1]];
        if identReply[1] != 0 {
          relay.CloseClient(true, false);
        } else {
          SendAndAdvance(Connect(context), ConnectSent, ConnectReply, accepted1, accepted2);
        }
      case ConnectSent =>
        verdicts := verdicts + [connectReply[1]];
        if connectReply[1] != 0 {
          relay.CloseClient(true, false);
        } else {
          var started := relay.StartDataRelay(accepted1, accepted2);
          relaysStarted := relaysStarted + if started then 1 else 0;
        }
      case _ =>
    }

    method LoginAnswered(accepted1: bool, accepted2: bool)
      requires Valid() && currentState == LoginSent
      modifies this`sent, this`pending, this`currentState, this`verdicts, relay
      ensures State() == HandleReply(old(State()), accepted1, accepted2)
    {
      currentState := LoginResponded;
      verdicts := verdicts + [identReply[1]];
      if identReply[0] != 5 || identReply[1] == NO_ACCEPTABLE_METHOD {
        relay.CloseClient(true, false);
      } else if identReply[1] == USERNAME_PASSWORD {
        var ok := CheckCredentials();
        if !ok {
          relay.CloseClient(true, false);
        } else {
          SendAndAdvance(Authentication(context), PasswordSent, IdentReply, accepted1, accepted2);
        }
      } else {
        SendAndAdvance(Connect(context), ConnectSent, ConnectReply, accepted1, accepted2);
      }
    }
  }
}
