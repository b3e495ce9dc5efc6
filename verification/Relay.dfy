/**
  The data relay of one proxied TCP connection.

  Two cyclic buffers carry bytes between a locally accepted socket and the socket
  connected to the SOCKS server: `up` from local to remote, `down` from remote to local.
  Each has one receive window and one send window, posted to Winsock and reported back by
  completions that arrive in any order. The operations here say what a completion handler
  does to the whole connection; class TcpProxySocket implements them in place.
 */
module Relay {
  import opened Basics

  const BUFFER_SIZE := 65536
  const INVALID_SOCKET := -1
  const NO_BUFFER := -1

  /** A WSABUF whose pointer is an offset into the cyclic buffer it points to. */
  datatype WsaBuf = WsaBuf(buf: int, len: nat)

  datatype Status = NoChange | Connected | Established | Completed

  /** One direction: its memory, the two cursors, and the operations Winsock holds. */
  datatype Ring = Ring(
    mem: seq<byte>,
    recv: WsaBuf,
    send: WsaBuf,
    recvPosted: Option<WsaBuf>,
    sendPosted: Option<WsaBuf>)

  datatype Connection = Connection(
    localSocket: int,
    remoteSocket: int,
    status: Status,
    up: Ring,
    down: Ring)

  function RingOf(c: Connection, up: bool): Ring {
    if up then c.up else c.down
  }

  function WithRing(c: Connection, up: bool, g: Ring): Connection {
    if up then c.(up := g) else c.(down := g)
  }

  function SocketOf(c: Connection, isLocal: bool): int {
    if isLocal then c.localSocket else c.remoteSocket
  }

  /** static_cast<ULONG> of a pointer difference. */
  function Ulong(n: int): nat {
    n % 0x1_0000_0000
  }

  /** A connection as constructed around an accepted and a connected socket. */
  ghost predicate Fresh(c: Connection) {
    && c.localSocket != INVALID_SOCKET && c.remoteSocket != INVALID_SOCKET
    && c.status == Established
    && FreshRing(c.up) && FreshRing(c.down)
  }

  ghost predicate FreshRing(g: Ring) {
    && |g.mem| == BUFFER_SIZE
    && g.recv == WsaBuf(0, BUFFER_SIZE) && g.send == WsaBuf(NO_BUFFER, 0)
    && g.recvPosted == None && g.sendPosted == None
  }

  // ---------------------------------------------------------------------------------
  // The operations
  // ---------------------------------------------------------------------------------

  function CloseClient(c: Connection, isReceive: bool, isLocal: bool): Connection {
    var status := if SocketOf(c, isLocal) != INVALID_SOCKET then Completed else c.status;
    var closed := c.(localSocket := INVALID_SOCKET, remoteSocket := INVALID_SOCKET, status := status);
    if isReceive then
      var g := RingOf(c, isLocal);
      WithRing(closed, isLocal, g.(recv := g.recv.(len := 0)))
    else
      var g := RingOf(c, !isLocal);
      WithRing(closed, !isLocal, g.(send := g.send.(len := 0)))
  }

  /** WSARecv on the source of a direction. An invalid socket never accepts it. */
  function PostReceive(c: Connection, up: bool, accepted: bool): Connection {
    if accepted && SocketOf(c, up) != INVALID_SOCKET then
      var g := RingOf(c, up);
      WithRing(c, up, g.(recvPosted := Some(g.recv)))
    else
      CloseClient(c, true, up)
  }

  /** WSASend on the destination of a direction. */
  function PostSend(c: Connection, up: bool, accepted: bool): Connection {
    if accepted && SocketOf(c, !up) != INVALID_SOCKET then
      var g := RingOf(c, up);
      WithRing(c, up, g.(sendPosted := Some(g.send)))
    else
      CloseClient(c, false, !up)
  }

  /** The receive window after the receive cursor has moved to r, with the send cursor at s. */
  function NextReceive(r: int, s: int): WsaBuf {
    if r > s then
      if r < BUFFER_SIZE then WsaBuf(r, Ulong(BUFFER_SIZE - r)) else WsaBuf(0, Ulong(s))
    else
      WsaBuf(r, Ulong(s - r))
  }

  /** Bytes just received become the send window, if there is none. */
  function Forward(c: Connection, up: bool, size: nat, accepted: bool): Connection {
    var g := RingOf(c, up);
    if g.send.len == 0 then PostSend(WithRing(c, up, g.(send := WsaBuf(g.recv.buf, size))), up, accepted) else c
  }

  function AdvanceReceive(c: Connection, up: bool, size: nat, accepted: bool): Connection {
    var g := RingOf(c, up);
    var next := NextReceive(g.recv.buf + size, g.send.buf);
    var moved := WithRing(c, up, g.(recv := next));
    if next.len > 0 then PostReceive(moved, up, accepted) else moved
  }

  /** A relay read of `size` bytes completed for the source of a direction. */
  function ReceiveComplete(c: Connection, up: bool, size: nat, sendAccepted: bool, recvAccepted: bool): Connection {
    var g := RingOf(c, up).(recvPosted := None);
    var c := WithRing(c, up, g);
    match c.status
    case Completed => WithRing(c, up, g.(recv := g.recv.(len := 0)))
    case Established => AdvanceReceive(Forward(c, up, size, sendAccepted), up, size, recvAccepted)
    case _ => c
  }

  function WrapCursor(s: int): int {
    if s == BUFFER_SIZE then 0 else s
  }

  /** A full ring gets the `size` bytes just sent as its new receive window. */
  function Refill(c: Connection, up: bool, size: nat, accepted: bool): Connection {
    var g := RingOf(c, up);
    if c.status != Completed && g.recv.len == 0 then
      var reopened := WithRing(c, up, g.(recv := WsaBuf(g.send.buf, size)));
      if size > 0 then PostReceive(reopened, up, accepted) else reopened
    else c
  }

  /** The send window after the send cursor has moved to s, with the receive cursor at r. */
  function NextSend(s: int, r: int): WsaBuf {
    WsaBuf(s, if s == r then 0 else if s < r then Ulong(r - s) else Ulong(BUFFER_SIZE - s))
  }

  function AdvanceSend(c: Connection, up: bool, size: nat, accepted: bool): Connection {
    var g := RingOf(c, up);
    var next := NextSend(WrapCursor(g.send.buf + size), g.recv.buf);
    if next.buf == g.recv.buf then
      // In both directions the source closes the remote side's send here.
      var closed := if c.status == Completed then CloseClient(c, false, false) else c;
      WithRing(closed, up, RingOf(closed, up).(send := next))
    else
      var moved := WithRing(c, up, g.(send := next));
      if next.len > 0 then PostSend(moved, up, accepted) else moved
  }

  /** A relay write of `size` bytes completed for the destination of a direction. */
  function SendComplete(c: Connection, up: bool, size: nat, recvAccepted: bool, sendAccepted: bool): Connection {
    var c := WithRing(c, up, RingOf(c, up).(sendPosted := None));
    AdvanceSend(Refill(c, up, size, recvAccepted), up, size, sendAccepted)
  }

  /** Both first reads; the second failure closes the local socket directly as well. */
  function StartDataRelay(c: Connection, localAccepted: bool, remoteAccepted: bool): Connection {
    if !(localAccepted && c.localSocket != INVALID_SOCKET) then
      var closed := CloseClient(c, true, true);
      closed.(down := closed.down.(recv := closed.down.recv.(len := 0)))
    else
      var posted := c.(up := c.up.(recvPosted := Some(c.up.recv)));
      if !(remoteAccepted && c.remoteSocket != INVALID_SOCKET) then
        CloseClient(posted, true, false)
      else
        posted.(down := posted.down.(recvPosted := Some(posted.down.recv)))
  }

  /** The non-timeout part of is_ready_for_removal. */
  predicate ReadyForRemoval(c: Connection) {
    && c.remoteSocket == INVALID_SOCKET && c.localSocket == INVALID_SOCKET
    && c.up.send.len == 0 && c.down.send.len == 0 && c.down.recv.len == 0 && c.up.recv.len == 0
  }

  // ---------------------------------------------------------------------------------
  // What the cursors mean
  // ---------------------------------------------------------------------------------

  /** The bytes received and not yet sent, read cyclically from the send cursor. */
  function Unsent(g: Ring): seq<byte>
    requires LiveRing(g)
  {
    if g.send.len == 0 then []
    else if g.send.buf < g.recv.buf then g.mem[g.send.buf..g.recv.buf]
    else g.mem[g.send.buf..] + g.mem[..g.recv.buf]
  }

  /** The bytes of a posted window. */
  function WindowBytes(mem: seq<byte>, w: WsaBuf): seq<byte>
    requires 0 <= w.buf && w.buf + w.len <= |mem|
  {
    mem[w.buf..w.buf + w.len]
  }

  /** The cells of the cyclic buffer that hold unsent bytes. */
  predicate HoldsUnsent(g: Ring, i: int) {
    && g.send.len > 0
    && if g.send.buf < g.recv.buf then g.send.buf <= i < g.recv.buf
       else g.send.buf <= i < BUFFER_SIZE || 0 <= i < g.recv.buf
  }

  predicate InBounds(w: WsaBuf) {
    0 <= w.buf && 0 < w.len && w.buf + w.len <= BUFFER_SIZE
  }

  predicate Disjoint(v: WsaBuf, w: WsaBuf) {
    v.buf + v.len <= w.buf || w.buf + w.len <= v.buf
  }

  /** The shapes one direction of an established connection can have. */
  predicate LiveRing(g: Ring) {
    && |g.mem| == BUFFER_SIZE
    && 0 <= g.recv.buf < BUFFER_SIZE
    && g.recvPosted == (if g.recv.len > 0 then Some(g.recv) else None)
    && g.sendPosted == (if g.send.len > 0 then Some(g.send) else None)
    && g.recv.buf + g.recv.len <= BUFFER_SIZE
    && (g.send.len == 0 ==> g.recv.len > 0)
    && (g.send.len > 0 ==>
          && 0 <= g.send.buf < BUFFER_SIZE
          && g.send.buf + g.send.len <= (if g.send.buf < g.recv.buf then g.recv.buf else BUFFER_SIZE)
          && (g.recv.buf < g.send.buf ==> g.recv.buf + g.recv.len <= g.send.buf)
          && (g.recv.len == 0 <==> g.recv.buf == g.send.buf))
  }

  /** A direction of an established connection with nothing outstanding: neither handler will run again. */
  predicate StalledRing(g: Ring) {
    |g.mem| == BUFFER_SIZE && g.recv.len == 0 && g.send.len == 0 && g.recvPosted == None && g.sendPosted == None
  }

  predicate OpenRing(g: Ring) {
    LiveRing(g) || StalledRing(g)
  }

  /** The shapes one direction of a closed connection can have while it drains. */
  predicate DrainingRing(g: Ring) {
    && |g.mem| == BUFFER_SIZE
    && (g.recv.len > 0 <==> g.recvPosted.Some?)
    && (g.send.len > 0 ==> g.sendPosted.Some?)
    && (g.recvPosted.Some? ==> InBounds(g.recvPosted.value))
    && (g.sendPosted.Some? ==> InBounds(g.sendPosted.value))
    && (g.recvPosted.Some? && g.sendPosted.Some? ==> Disjoint(g.recvPosted.value, g.sendPosted.value))
  }
}
