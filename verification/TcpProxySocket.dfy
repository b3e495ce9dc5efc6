/** The connection object itself: completion handlers that update cursors and buffers in place. */
module TcpProxySocket {
  import opened Basics
  import opened Relay

  class Socket {
    var localSocket: int
    var remoteSocket: int
    var status: Status
    const fromLocalToRemote: array<byte>
    const fromRemoteToLocal: array<byte>
    var localRecv: WsaBuf
    var localSend: WsaBuf
    var remoteRecv: WsaBuf
    var remoteSend: WsaBuf
    // The windows Winsock holds for the four I/O contexts.
    ghost var recvFromLocal: Option<WsaBuf>
    ghost var recvFromRemote: Option<WsaBuf>
    ghost var sendToLocal: Option<WsaBuf>
    ghost var sendToRemote: Option<WsaBuf>

    ghost function State(): Connection
      reads this, fromLocalToRemote, fromRemoteToLocal
    {
      Connection(localSocket, remoteSocket, status,
                 Ring(fromLocalToRemote[..], localRecv, remoteSend, recvFromLocal, sendToRemote),
                 Ring(fromRemoteToLocal[..], remoteRecv, localSend, recvFromRemote, sendToLocal))
    }

    constructor (local: int, remote: int)
      requires local != INVALID_SOCKET && remote != INVALID_SOCKET
      ensures status == Connected
      ensures Fresh(State().(status := Established))
      ensures localSocket == local && remoteSocket == remote
      ensures fresh(fromLocalToRemote) && fresh(fromRemoteToLocal) && fromLocalToRemote != fromRemoteToLocal
    {
      localSocket, remoteSocket, status := local, remote, Connected;
      fromLocalToRemote := new byte[BUFFER_SIZE](_ => 0);
      fromRemoteToLocal := new byte[BUFFER_SIZE](_ => 0);
      localRecv, remoteRecv := WsaBuf(0, BUFFER_SIZE), WsaBuf(0, BUFFER_SIZE);
      localSend, remoteSend := WsaBuf(NO_BUFFER, 0), WsaBuf(NO_BUFFER, 0);
      recvFromLocal, recvFromRemote, sendToLocal, sendToRemote := None, None, None, None;
    }

    /** Attaching to the completion port; `attached` is its answer for the two sockets. */
    method AssociateToCompletionPort(attached: bool) returns (ok: bool)
      modifies this
      ensures State() == old(State()).(status := Established)
      ensures ok <==> attached && localSocket != INVALID_SOCKET && remoteSocket != INVALID_SOCKET
    {
      status := Established;
      ok := localSocket != INVALID_SOCKET && remoteSocket != INVALID_SOCKET && attached;
    }

    method CloseClient(isReceive: bool, isLocal: bool)
      modifies this
      ensures State() == Relay.CloseClient(old(State()), isReceive, isLocal)
    {
      if isLocal {
        if localSocket != INVALID_SOCKET {
          localSocket := INVALID_SOCKET;
          status := Completed;
        }
        if isReceive {
          localRecv := localRecv.(len := 0);
        } else {
          localSend := localSend.(len := 0);
        }
        if remoteSocket != INVALID_SOCKET {
          remoteSocket := INVALID_SOCKET;
        }
      } else {
        if remoteSocket != INVALID_SOCKET {
          remoteSocket := INVALID_SOCKET;
          status := Completed;
        }
        if isReceive {
          remoteRecv := remoteRecv.(len := 0);
        } else {
          remoteSend := remoteSend.(len := 0);
        }
        if localSocket != INVALID_SOCKET {
          localSocket := INVALID_SOCKET;
        }
      }
    }

    method IsReadyForRemoval() returns (ready: bool)
      ensures ready <==> ReadyForRemoval(State())
    {
      ready := false;
      if remoteSocket == INVALID_SOCKET && localSocket == INVALID_SOCKET {
        if remoteSend.len == 0 && localSend.len == 0 && remoteRecv.len == 0 && localRecv.len == 0 {
          return true;
        }
      }
    }

    /** `accepted` parameters are Winsock's answers to the posts; an invalid socket always refuses. */
    method StartDataRelay(localAccepted: bool, remoteAccepted: bool) returns (started: bool)
      modifies this
      ensures State() == Relay.StartDataRelay(old(State()), localAccepted, remoteAccepted)
      ensures started <==> old(localSocket != INVALID_SOCKET && remoteSocket != INVALID_SOCKET)
                           && localAccepted && remoteAccepted
    {
      if !(localAccepted && localSocket != INVALID_SOCKET) {
        CloseClient(true, true);
        remoteRecv := remoteRecv.(len := 0);
        return false;
      }
      recvFromLocal := Some(localRecv);
      if !(remoteAccepted && remoteSocket != INVALID_SOCKET) {
        CloseClient(true, false);
        return false;
      }
      recvFromRemote := Some(remoteRecv);
      return true;
    }

    method ReceiveFromLocal(accepted: bool)
      modifies this
      ensures State() == PostReceive(old(State()), true, accepted)
    {
      if accepted && localSocket != INVALID_SOCKET {
        recvFromLocal := Some(localRecv);
      } else {
        CloseClient(true, true);
      }
    }

    method ReceiveFromRemote(accepted: bool)
      modifies this
      ensures State() == PostReceive(old(State()), false, accepted)
    {
      if accepted && remoteSocket != INVALID_SOCKET {
        recvFromRemote := Some(remoteRecv);
      } else {
        CloseClient(true, false);
      }
    }

    method SendToRemote(accepted: bool)
      modifies this
      ensures State() == PostSend(old(State()), true, accepted)
    {
      if accepted && remoteSocket != INVALID_SOCKET {
        sendToRemote := Some(remoteSend);
      } else {
        CloseClient(false, false);
      }
    }

    method SendToLocal(accepted: bool)
      modifies this
      ensures State() == PostSend(old(State()), false, accepted)
    {
      if accepted && localSocket != INVALID_SOCKET {
        sendToLocal := Some(localSend);
      } else {
        CloseClient(false, true);
      }
    }

    method ForwardToRemote(ioSize: nat, accepted: bool)
      modifies this
      ensures State() == Forward(old(State()), true, ioSize, accepted)
    {
      if remoteSend.len == 0 {
        remoteSend := WsaBuf(localRecv.buf, ioSize);
        SendToRemote(accepted);
      }
    }

    method AdvanceLocalReceive(ioSize: nat, accepted: bool)
      modifies this
      ensures State() == AdvanceReceive(old(State()), true, ioSize, accepted)
    {
      localRecv := localRecv.(buf := localRecv.buf + ioSize);
      if localRecv.buf > remoteSend.buf {
        if localRecv.buf < BUFFER_SIZE {
          localRecv := localRecv.(len := Ulong(BUFFER_SIZE - localRecv.buf));
        } else {
          localRecv := WsaBuf(0, Ulong(remoteSend.buf));
        }
      } else {
        localRecv := localRecv.(len := Ulong(remoteSend.buf - localRecv.buf));
      }
      if localRecv.len != 0 {
        ReceiveFromLocal(accepted);
      }
    }

    method ForwardToLocal(ioSize: nat, accepted: bool)
      modifies this
      ensures State() == Forward(old(State()), false, ioSize, accepted)
    {
      if localSend.len == 0 {
        localSend := WsaBuf(remoteRecv.buf, ioSize);
        SendToLocal(accepted);
      }
    }

    method AdvanceRemoteReceive(ioSize: nat, accepted: bool)
      modifies this
      ensures State() == AdvanceReceive(old(State()), false, ioSize, accepted)
    {
      remoteRecv := remoteRecv.(buf := remoteRecv.buf + ioSize);
      if remoteRecv.buf > localSend.buf {
        if remoteRecv.buf < BUFFER_SIZE {
          remoteRecv := remoteRecv.(len := Ulong(BUFFER_SIZE - remoteRecv.buf));
        } else {
          remoteRecv := WsaBuf(0, Ulong(localSend.buf));
        }
      } else {
        remoteRecv := remoteRecv.(len := Ulong(localSend.buf - remoteRecv.buf));
      }
      if remoteRecv.len != 0 {
        ReceiveFromRemote(accepted);
      }
    }

    method ProcessReceiveBufferComplete(ioSize: nat, isLocal: bool, sendAccepted: bool, recvAccepted: bool)
      modifies this
      ensures State() == ReceiveComplete(old(State()), isLocal, ioSize, sendAccepted, recvAccepted)
    {
      if isLocal { recvFromLocal := None; } else { recvFromRemote := None; }
      match status
      case Completed =>
        if isLocal {
          localRecv := localRecv.(len := 0);
        } else {
          remoteRecv := remoteRecv.(len := 0);
        }
      case Established =>
        if isLocal {
          ForwardToRemote(ioSize, sendAccepted);
          AdvanceLocalReceive(ioSize, recvAccepted);
        } else {
          ForwardToLocal(ioSize, sendAccepted);
          AdvanceRemoteReceive(ioSize, recvAccepted);
        }
      case _ =>
    }

    method ReopenRemoteReceive(ioSize: nat, accepted: bool)
      modifies this
      ensures State() == Refill(old(State()), false, ioSize, accepted)
    {
      if status != Completed && remoteRecv.len == 0 {
        remoteRecv := WsaBuf(localSend.buf, ioSize);
        if remoteRecv.len > 0 {
          ReceiveFromRemote(accepted);
        }
      }
    }

    method AdvanceLocalSend(ioSize: nat, accepted: bool)
      modifies this
      ensures State() == AdvanceSend(old(State()), false, ioSize, accepted)
    {
      localSend := localSend.(buf := localSend.buf + ioSize);
      if localSend.buf == BUFFER_SIZE {
        localSend := localSend.(buf := 0);
      }
      if localSend.buf == remoteRecv.buf {
        if status == Completed {
          CloseClient(false, false);
        }
        localSend := localSend.(len := 0);
      } else {
        if localSend.buf < remoteRecv.buf {
          localSend := localSend.(len := Ulong(remoteRecv.buf - localSend.buf));
        } else {
          localSend := localSend.(len := Ulong(BUFFER_SIZE - localSend.buf));
        }
        if localSend.len != 0 {
          SendToLocal(accepted);
        }
      }
    }

    method ReopenLocalReceive(ioSize: nat, accepted: bool)
      modifies this
      ensures State() == Refill(old(State()), true, ioSize, accepted)
    {
      if status != Completed && localRecv.len == 0 {
        localRecv := WsaBuf(remoteSend.buf, ioSize);
        if localRecv.len > 0 {
          ReceiveFromLocal(accepted);
        }
      }
    }

    method AdvanceRemoteSend(ioSize: nat, accepted: bool)
      modifies this
      ensures State() == AdvanceSend(old(State()), true, ioSize, accepted)
    {
      remoteSend := remoteSend.(buf := remoteSend.buf + ioSize);
      if remoteSend.buf == BUFFER_SIZE {
        remoteSend := remoteSend.(buf := 0);
      }
      if remoteSend.buf == localRecv.buf {
        if status == Completed {
          CloseClient(false, false);
        }
        remoteSend := remoteSend.(len := 0);
      } else {
        if remoteSend.buf < localRecv.buf {
          remoteSend := remoteSend.(len := Ulong(localRecv.buf - remoteSend.buf));
        } else {
          remoteSend := remoteSend.(len := Ulong(BUFFER_SIZE - remoteSend.buf));
        }
        if remoteSend.len != 0 {
          SendToRemote(accepted);
        }
      }
    }

    method ProcessSendBufferComplete(ioSize: nat, isLocal: bool, recvAccepted: bool, sendAccepted: bool)
      modifies this
      ensures State() == SendComplete(old(State()), !isLocal, ioSize, recvAccepted, sendAccepted)
    {
      if isLocal {
        sendToLocal := None;
        ReopenRemoteReceive(ioSize, recvAccepted);
        AdvanceLocalSend(ioSize, sendAccepted);
      } else {
        sendToRemote := None;
        ReopenLocalReceive(ioSize, recvAccepted);
        AdvanceRemoteSend(ioSize, sendAccepted);
      }
    }
  }
}
