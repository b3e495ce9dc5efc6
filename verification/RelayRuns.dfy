/** Runs of a relayed connection: every interleaving of completions, failures and memory writes. */
module RelayRuns {
  import opened Basics
  import opened Relay

  /** What the environment can do to a connection whose relay has started. */
  datatype Event =
    | Received(fromLocal: bool, data: seq<byte>, sendAccepted: bool, recvAccepted: bool)
    | Sent(toLocal: bool, count: nat, recvAccepted: bool, sendAccepted: bool)
    | ReadFailed(fromLocal: bool)
    | WriteFailed(toLocal: bool)
    | NegotiateWriteFailed
    | MemoryWrite(up: bool, at: nat, value: byte)

  /** The bytes one direction took from its source and handed to its destination. */
  datatype Log = Log(received: seq<byte>, sent: seq<byte>)

  datatype World = World(conn: Connection, upLog: Log, downLog: Log)

  function LogOf(w: World, up: bool): Log {
    if up then w.upLog else w.downLog
  }

  function WithLog(w: World, up: bool, log: Log): World {
    if up then w.(upLog := log) else w.(downLog := log)
  }

  /**
    Winsock completes only what was posted, a read with at least one byte, and stores only inside the read window. A
    write of the negotiation may fail after the relay has started.
   */
  predicate Enabled(c: Connection, e: Event) {
    match e
    case Received(up, data, _, _) =>
      var g := RingOf(c, up);
      g.recvPosted.Some? && 1 <= |data| <= g.recvPosted.value.len
    case Sent(toLocal, count, _, _) =>
      var g := RingOf(c, !toLocal);
      g.sendPosted.Some? && count <= g.sendPosted.value.len
    case ReadFailed(up) => RingOf(c, up).recvPosted.Some?
    case WriteFailed(toLocal) => RingOf(c, !toLocal).sendPosted.Some?
    case NegotiateWriteFailed => true
    case MemoryWrite(up, at, _) =>
      var g := RingOf(c, up);
      g.recvPosted.Some? && g.recvPosted.value.buf <= at < g.recvPosted.value.buf + g.recvPosted.value.len
  }

  /** Every posted window lies inside its buffer; needed to say what memory an event touches. */
  predicate WindowsInMemory(c: Connection) {
    forall up: bool ::
      var g := RingOf(c, up);
      && |g.mem| == BUFFER_SIZE
      && (g.recvPosted.Some? ==> InBounds(g.recvPosted.value))
      && (g.sendPosted.Some? ==> InBounds(g.sendPosted.value))
  }

  /** The completion dispatcher and the handler it selects. */
  function Step(w: World, e: Event): World
    requires Enabled(w.conn, e) && WindowsInMemory(w.conn)
  {
    var c := w.conn;
    match e
    case Received(up, data, sendAccepted, recvAccepted) =>
      var g := RingOf(c, up);
      var log := LogOf(w, up);
      var arrived := WithRing(c, up, g.(mem := Splice(g.mem, g.recvPosted.value.buf, data)));
      WithLog(w, up, log.(received := log.received + data))
        .(conn := ReceiveComplete(arrived, up, |data|, sendAccepted, recvAccepted))
    case Sent(toLocal, count, recvAccepted, sendAccepted) =>
      var up := !toLocal;
      var g := RingOf(c, up);
      var log := LogOf(w, up);
      WithLog(w, up, log.(sent := log.sent + WindowBytes(g.mem, g.sendPosted.value)[..count]))
        .(conn := SendComplete(c, up, count, recvAccepted, sendAccepted))
    case ReadFailed(up) =>
      w.(conn := CloseClient(WithRing(c, up, RingOf(c, up).(recvPosted := None)), true, up))
    case WriteFailed(toLocal) =>
      w.(conn := CloseClient(WithRing(c, !toLocal, RingOf(c, !toLocal).(sendPosted := None)), false, toLocal))
    case NegotiateWriteFailed => w.(conn := CloseClient(c, false, false))
    case MemoryWrite(up, at, value) =>
      var g := RingOf(c, up);
      w.(conn := WithRing(c, up, g.(mem := g.mem[at := value])))
  }

  // ---------------------------------------------------------------------------------
  // The invariant
  // ---------------------------------------------------------------------------------

  ghost predicate DirectionInv(status: Status, g: Ring, log: Log) {
    if status == Established then
      if StalledRing(g) then log.sent <= log.received
      else LiveRing(g) && log.received == log.sent + Unsent(g)
    else
      && DrainingRing(g)
      && log.sent + (if g.sendPosted.Some? then WindowBytes(g.mem, g.sendPosted.value) else []) <= log.received
  }

  ghost predicate Inv(w: World) {
    && (if w.conn.status == Established then
          w.conn.localSocket != INVALID_SOCKET && w.conn.remoteSocket != INVALID_SOCKET
        else
          w.conn.status == Completed && w.conn.localSocket == INVALID_SOCKET == w.conn.remoteSocket)
    && DirectionInv(w.conn.status, w.conn.up, w.upLog)
    && DirectionInv(w.conn.status, w.conn.down, w.downLog)
    && LocalWriteTracked(w.conn)
  }

  /** Only the length of the write to the remote socket can be cleared while that write is outstanding. */
  predicate LocalWriteTracked(c: Connection) {
    c.down.send.len > 0 <==> c.down.sendPosted.Some?
  }

  /**
    Closing for an operation on one of the sockets: both become invalid, and the connection completed only if that one
    was open. Of the two directions, one keeps its ring; the other loses the length of the operation that failed.
   */
  lemma CloseOutcome(c: Connection, isReceive: bool, isLocal: bool)
    ensures var c' := CloseClient(c, isReceive, isLocal);
            && c'.localSocket == c'.remoteSocket == -1
            && c'.status == (if (if isLocal then c.localSocket else c.remoteSocket) == -1 then c.status else Completed)
            && (isReceive && isLocal ==> c'.down == c.down && c'.up == c.up.(recv := WsaBuf(c.up.recv.buf, 0)))
            && (isReceive && !isLocal ==> c'.up == c.up && c'.down == c.down.(recv := WsaBuf(c.down.recv.buf, 0)))
            && (!isReceive && isLocal ==> c'.up == c.up && c'.down == c.down.(send := WsaBuf(c.down.send.buf, 0)))
            && (!isReceive && !isLocal ==> c'.down == c.down && c'.up == c.up.(send := WsaBuf(c.up.send.buf, 0)))
  {
  }

  /** A read that completes before the relay is established is only taken note of. */
  lemma EarlyReceiveIsIgnored(c: Connection, up: bool, size: nat, a1: bool, a2: bool)
    requires c.status != Established && c.status != Completed
    ensures var c' := ReceiveComplete(c, up, size, a1, a2);
            if up then c' == c.(up := c.up.(recvPosted := None)) else c' == c.(down := c.down.(recvPosted := None))
  {
  }

  /** The ring after a read of `size` bytes already in memory, when every post is accepted. */
  function RingAfterReceive(g: Ring, size: nat): Ring {
    var send := if g.send.len == 0 then WsaBuf(g.recv.buf, size) else g.send;
    var recv := NextReceive(g.recv.buf + size, send.buf);
    Ring(g.mem, recv, send, if recv.len > 0 then Some(recv) else None, Some(send))
  }

  function Arrived(g: Ring, data: seq<byte>): Ring
    requires 0 <= g.recv.buf && g.recv.buf + |data| <= |g.mem|
  {
    g.(mem := Splice(g.mem, g.recv.buf, data))
  }

  lemma ReceiveStaysLive(g: Ring, mem: seq<byte>, size: nat)
    requires LiveRing(g) && 1 <= size <= g.recv.len && |mem| == |g.mem|
    ensures LiveRing(RingAfterReceive(g.(mem := mem), size))
  {
  }

  /** A read enqueues its bytes, whatever the shape of the ring. */
  lemma ReceiveEnqueues(g: Ring, data: seq<byte>)
    requires LiveRing(g) && 1 <= |data| <= g.recv.len
    ensures var h := RingAfterReceive(Arrived(g, data), |data|);
            LiveRing(h) && Unsent(h) == Unsent(g) + data
  {
    var r := g.recv.buf;
    if g.send.len > 0 && g.send.buf > r {
      ReceivedBeforeTail(g, Arrived(g, data).mem, |data|);
      var s := g.send.buf;
      SpliceSlices(g.mem, r, data, s);
      Assoc(g.mem[s..], g.mem[..r], data);
    } else {
      ReceivedAfterHead(g, Arrived(g, data).mem, |data|);
      SpliceSlices(g.mem, r, data, if g.send.len == 0 then r else g.send.buf);
    }
  }

  /** Where the queue lies after a read while its front is further up than the read window. */
  lemma ReceivedBeforeTail(g: Ring, mem: seq<byte>, size: nat)
    requires LiveRing(g) && 1 <= size <= g.recv.len && |mem| == |g.mem|
    requires g.send.len > 0 && g.send.buf > g.recv.buf
    ensures var h := RingAfterReceive(g.(mem := mem), size);
            LiveRing(h) && Unsent(h) == mem[g.send.buf..] + mem[..g.recv.buf + size]
    ensures Unsent(g) == g.mem[g.send.buf..] + g.mem[..g.recv.buf]
    ensures g.recv.buf + size <= g.send.buf
  {
    ReceiveStaysLive(g, mem, size);
  }

  /** Where it lies after a read behind its end, or into an empty ring. */
  lemma ReceivedAfterHead(g: Ring, mem: seq<byte>, size: nat)
    requires LiveRing(g) && 1 <= size <= g.recv.len && |mem| == |g.mem|
    requires g.send.len == 0 || g.send.buf <= g.recv.buf
    ensures var s := if g.send.len == 0 then g.recv.buf else g.send.buf;
            var h := RingAfterReceive(g.(mem := mem), size);
            && 0 <= s <= g.recv.buf
            && LiveRing(h) && Unsent(h) == mem[s..g.recv.buf + size] && Unsent(g) == g.mem[s..g.recv.buf]
  {
    ReceiveStaysLive(g, mem, size);
    var s := if g.send.len == 0 then g.recv.buf else g.send.buf;
    WholeTail(mem, s);
  }

  lemma WholeTail(m: seq<byte>, s: nat)
    requires s <= |m|
    ensures m[s..] + m[..0] == m[s..] == m[s..|m|]
  {
  }

  lemma SpliceSlices(mem: seq<byte>, r: nat, data: seq<byte>, s: nat)
    requires r + |data| <= |mem| && s <= |mem|
    ensures var m := Splice(mem, r, data);
            && (s <= r ==> m[s..r + |data|] == mem[s..r] + data)
            && (r + |data| <= s ==> m[s..] == mem[s..] && m[..r + |data|] == mem[..r] + data)
  {
    SpliceElements(mem, r, data);
  }

  /** The ring after a write of `count` bytes, when every post is accepted. */
  function RingAfterSend(g: Ring, count: nat): Ring {
    var recv := if g.recv.len == 0 then WsaBuf(g.send.buf, count) else g.recv;
    var send := NextSend(WrapCursor(g.send.buf + count), recv.buf);
    Ring(g.mem, recv, send, if recv.len > 0 then Some(recv) else None, if send.len > 0 then Some(send) else None)
  }

  /** A write of this many bytes leaves the direction something to do. */
  predicate Proceeds(g: Ring, count: nat) {
    count > 0 || g.recv.len > 0
  }

  lemma SendStaysLive(g: Ring, count: nat)
    requires LiveRing(g) && g.send.len > 0 && count <= g.send.len && Proceeds(g, count)
    ensures LiveRing(RingAfterSend(g, count))
  {
  }

  /** A write of no bytes on a full ring leaves it nothing to do. */
  lemma SendStalls(g: Ring)
    requires LiveRing(g) && g.send.len > 0 && !Proceeds(g, 0)
    ensures StalledRing(RingAfterSend(g, 0))
  {
  }

  lemma WindowPrefix(m: seq<byte>, w: WsaBuf, count: nat)
    requires 0 <= w.buf && w.buf + w.len <= |m| && count <= w.len
    ensures WindowBytes(m, w)[..count] == m[w.buf..w.buf + count]
  {
  }

  lemma SplitTail(m: seq<byte>, s: nat, k: nat, r: nat)
    requires s <= k <= |m| && r <= |m|
    ensures m[s..] + m[..r] == m[s..k] + (m[k..] + m[..r])
  {
  }

  /** A write dequeues exactly the bytes Winsock took from the front of the send window. */
  lemma SendDequeues(g: Ring, count: nat)
    requires LiveRing(g) && g.send.len > 0 && count <= g.send.len && Proceeds(g, count)
    ensures LiveRing(RingAfterSend(g, count))
    ensures Unsent(g) == WindowBytes(g.mem, g.send)[..count] + Unsent(RingAfterSend(g, count))
  {
    WindowPrefix(g.mem, g.send, count);
    if g.send.buf < g.recv.buf {
      SentFromMiddle(g, count);
      SplitSlice(g.mem, g.send.buf, g.send.buf + count, g.recv.buf);
    } else {
      SentFromTail(g, count);
      SplitTail(g.mem, g.send.buf, g.send.buf + count, g.recv.buf);
    }
  }

  lemma SentFromMiddle(g: Ring, count: nat)
    requires LiveRing(g) && g.send.len > 0 && count <= g.send.len && Proceeds(g, count) && g.send.buf < g.recv.buf
    ensures var h := RingAfterSend(g, count);
            LiveRing(h) && Unsent(h) == g.mem[g.send.buf + count..g.recv.buf]
  {
    SendStaysLive(g, count);
  }

  lemma SentFromTail(g: Ring, count: nat)
    requires LiveRing(g) && g.send.len > 0 && count <= g.send.len && Proceeds(g, count) && g.recv.buf <= g.send.buf
    ensures var h := RingAfterSend(g, count);
            LiveRing(h) && Unsent(h) == g.mem[g.send.buf + count..] + g.mem[..g.recv.buf]
  {
    SendStaysLive(g, count);
    WholeTail(g.mem, g.send.buf + count);
  }

  lemma SplitSlice(m: seq<byte>, s: nat, k: nat, r: nat)
    requires s <= k <= r <= |m|
    ensures m[s..r] == m[s..k] + m[k..r]
  {
  }

  /** The send window holds the front of the queue, and no write into the read window can touch it. */
  lemma WindowIsFront(g: Ring)
    requires LiveRing(g) && g.send.len > 0
    ensures WindowBytes(g.mem, g.send) <= Unsent(g)
    ensures g.recv.len > 0 ==> Disjoint(g.recv, g.send)
  {
  }

  /** A direction whose connection is closed is a draining one. */
  lemma OpenRingDrains(g: Ring, log: Log)
    requires DirectionInv(Established, g, log)
    ensures DirectionInv(Completed, g, log)
  {
    if g.send.len > 0 { WindowIsFront(g); }
  }

  lemma InvBoundsWindows(w: World)
    requires Inv(w)
    ensures WindowsInMemory(w.conn)
  {
    forall up: bool
      ensures var g := RingOf(w.conn, up);
              && |g.mem| == BUFFER_SIZE
              && (g.recvPosted.Some? ==> InBounds(g.recvPosted.value))
              && (g.sendPosted.Some? ==> InBounds(g.sendPosted.value))
    {
    }
  }

  // ---------------------------------------------------------------------------------
  // What a handler can leave behind
  // ---------------------------------------------------------------------------------

  predicate IsOpen(c: Connection) {
    c.status == Established && c.localSocket != INVALID_SOCKET && c.remoteSocket != INVALID_SOCKET
  }

  predicate IsClosed(c: Connection) {
    c.status == Completed && c.localSocket == INVALID_SOCKET && c.remoteSocket == INVALID_SOCKET
  }

  /** g's cursors and windows with nothing new posted; lengths may have been cleared. */
  predicate Retired(g: Ring, h: Ring) {
    && g.mem == h.mem
    && (g.recvPosted == None || g.recvPosted == h.recvPosted)
    && (g.sendPosted == None || g.sendPosted == h.sendPosted)
    && (g.recv.len > 0 <==> g.recvPosted.Some?)
    && (g.send.len > 0 ==> g.sendPosted.Some?)
  }

  /** A handler either leaves an open connection with every post made, or a closed one with none added. */
  lemma ReceiveOutcome(c: Connection, up: bool, size: nat, sendAccepted: bool, recvAccepted: bool)
    requires IsOpen(c) && LiveRing(RingOf(c, up)) && 1 <= size <= RingOf(c, up).recv.len
    ensures var c' := ReceiveComplete(c, up, size, sendAccepted, recvAccepted);
            && RingOf(c', !up) == RingOf(c, !up)
            && (if IsOpen(c') then RingOf(c', up) == RingAfterReceive(RingOf(c, up), size)
                else IsClosed(c') && Retired(RingOf(c', up), RingAfterReceive(RingOf(c, up), size)))
            && (LocalWriteTracked(c) ==> LocalWriteTracked(c'))
            && (RingOf(c, up).sendPosted.Some? ==> RingOf(c', up).sendPosted == RingOf(c, up).sendPosted)
  {
    if up { } else { }
  }

  /** Like g, but possibly full: its write has been dequeued and not yet acted on. */
  predicate AfterWrite(g: Ring) {
    LiveRing(g.(sendPosted := if g.send.len > 0 then Some(g.send) else None)) && g.sendPosted == None && g.send.len > 0
  }

  lemma RefillOutcome(c: Connection, up: bool, size: nat, accepted: bool)
    requires IsOpen(c) && AfterWrite(RingOf(c, up)) && size <= RingOf(c, up).send.len
    ensures var g, c' := RingOf(c, up), Refill(c, up, size, accepted);
            var recv := if g.recv.len == 0 then WsaBuf(g.send.buf, size) else g.recv;
            && RingOf(c', !up) == RingOf(c, !up)
            && (if IsOpen(c') then
                  RingOf(c', up) == g.(recv := recv, recvPosted := if recv.len > 0 then Some(recv) else None)
                else IsClosed(c') && RingOf(c', up) == g.(recv := recv.(len := 0), recvPosted := None))
  {
  }

  lemma AdvanceOutcome(c: Connection, up: bool, size: nat, accepted: bool)
    requires IsOpen(c) || IsClosed(c)
    requires RingOf(c, up).sendPosted == None
    requires RingOf(c, up).recv.len > 0 ==> RingOf(c, up).recvPosted.Some?
    ensures var g, c' := RingOf(c, up), AdvanceSend(c, up, size, accepted);
            var send := NextSend(WrapCursor(g.send.buf + size), g.recv.buf);
            var h := g.(send := send, sendPosted := if send.len > 0 then Some(send) else None);
            && (IsOpen(c') ==> IsOpen(c) && RingOf(c', !up) == RingOf(c, !up) && RingOf(c', up) == h)
            && (!IsOpen(c') ==>
                  && IsClosed(c')
                  && RingOf(c', !up).mem == RingOf(c, !up).mem
                  && RingOf(c', !up).recv == RingOf(c, !up).recv
                  && RingOf(c', !up).recvPosted == RingOf(c, !up).recvPosted
                  && RingOf(c', !up).sendPosted == RingOf(c, !up).sendPosted
                  && (RingOf(c', !up).send.len > 0 ==> RingOf(c', !up) == RingOf(c, !up))
                  && RingOf(c', up) == g.(send := send.(len := 0)))
  {
    if up { } else { }
  }

  lemma SendOpenOutcome(c: Connection, up: bool, size: nat, recvAccepted: bool, sendAccepted: bool)
    requires IsOpen(c) && LiveRing(RingOf(c, up)) && RingOf(c, up).send.len > 0 && size <= RingOf(c, up).send.len
    requires IsOpen(SendComplete(c, up, size, recvAccepted, sendAccepted))
    ensures var c' := SendComplete(c, up, size, recvAccepted, sendAccepted);
            RingOf(c', !up) == RingOf(c, !up) && RingOf(c', up) == RingAfterSend(RingOf(c, up), size)
  {
    var taken := WithRing(c, up, RingOf(c, up).(sendPosted := None));
    RefillOutcome(taken, up, size, recvAccepted);
    AdvanceOutcome(Refill(taken, up, size, recvAccepted), up, size, sendAccepted);
  }

  lemma SendClosedOutcome(c: Connection, up: bool, size: nat, recvAccepted: bool, sendAccepted: bool)
    requires IsOpen(c) && LiveRing(RingOf(c, up)) && OpenRing(RingOf(c, !up))
    requires RingOf(c, up).send.len > 0 && size <= RingOf(c, up).send.len
    requires !IsOpen(SendComplete(c, up, size, recvAccepted, sendAccepted))
    ensures var c' := SendComplete(c, up, size, recvAccepted, sendAccepted);
            && IsClosed(c')
            && Retired(RingOf(c', !up), RingOf(c, !up))
            && Retired(RingOf(c', up), RingAfterSend(RingOf(c, up), size))
            && LocalWriteTracked(c')
            && RingOf(c', !up).sendPosted == RingOf(c, !up).sendPosted
  {
    var taken := WithRing(c, up, RingOf(c, up).(sendPosted := None));
    RefillOutcome(taken, up, size, recvAccepted);
    AdvanceOutcome(Refill(taken, up, size, recvAccepted), up, size, sendAccepted);
  }

  lemma SendOutcome(c: Connection, up: bool, size: nat, recvAccepted: bool, sendAccepted: bool)
    requires IsOpen(c) && LiveRing(RingOf(c, up)) && OpenRing(RingOf(c, !up))
    requires RingOf(c, up).send.len > 0 && size <= RingOf(c, up).send.len
    ensures var c' := SendComplete(c, up, size, recvAccepted, sendAccepted);
            if IsOpen(c') then
              RingOf(c', !up) == RingOf(c, !up) && RingOf(c', up) == RingAfterSend(RingOf(c, up), size)
            else
              IsClosed(c')
              && Retired(RingOf(c', !up), RingOf(c, !up))
              && Retired(RingOf(c', up), RingAfterSend(RingOf(c, up), size))
              && LocalWriteTracked(c')
              && RingOf(c', !up).sendPosted == RingOf(c, !up).sendPosted
  {
    if IsOpen(SendComplete(c, up, size, recvAccepted, sendAccepted)) {
      SendOpenOutcome(c, up, size, recvAccepted, sendAccepted);
    } else {
      SendClosedOutcome(c, up, size, recvAccepted, sendAccepted);
    }
  }

  /**
    A completed read leaves the connection open if and only if the posts it needs are accepted: a write if nothing was
    waiting to be sent, and a read if there is room left.
   */
  lemma ReceiveStaysOpenIff(c: Connection, up: bool, size: nat, sendAccepted: bool, recvAccepted: bool)
    requires IsOpen(c) && LiveRing(RingOf(c, up)) && 1 <= size <= RingOf(c, up).recv.len
    ensures var waiting := |Unsent(RingOf(c, up))|;
            IsOpen(ReceiveComplete(c, up, size, sendAccepted, recvAccepted))
            <==> (waiting == 0 ==> sendAccepted) && (waiting + size < BUFFER_SIZE ==> recvAccepted)
  {
    if up { } else { }
  }

  /**
    A completed write leaves it open if and only if the posts it needs are accepted: a read if the ring was full, and a
    write if something is left to be sent. A write of no bytes on a full ring needs neither.
   */
  lemma SendStaysOpenIff(c: Connection, up: bool, size: nat, recvAccepted: bool, sendAccepted: bool)
    requires IsOpen(c) && LiveRing(RingOf(c, up))
    requires RingOf(c, up).send.len > 0 && size <= RingOf(c, up).send.len
    ensures var waiting := |Unsent(RingOf(c, up))|;
            IsOpen(SendComplete(c, up, size, recvAccepted, sendAccepted))
            <==> (size == 0 && waiting == BUFFER_SIZE)
                 || ((waiting == BUFFER_SIZE ==> recvAccepted) && (size < waiting ==> sendAccepted))
  {
    if up { } else { }
  }

  /** The window covers unsent cells only, or free ones only, up to the end of the buffer or to the other kind. */
  predicate IsWholeRun(w: WsaBuf, g: Ring, unsent: bool) {
    && (forall i :: w.buf <= i < w.buf + w.len ==> HoldsUnsent(g, i) == unsent)
    && (w.buf + w.len == BUFFER_SIZE || HoldsUnsent(g, w.buf + w.len) != unsent)
  }

  /**
    The windows after a read. The read window moves on by the bytes received, cyclically, and is all the free space up
    to the end of the buffer or the first unsent byte. The write window is kept, or is exactly the bytes received.
   */
  lemma WindowsAfterReceive(g: Ring, size: nat)
    requires LiveRing(g) && 1 <= size <= g.recv.len
    ensures var h := RingAfterReceive(g, size);
            && h.recv.buf == (g.recv.buf + size) % BUFFER_SIZE
            && (h.recv.len > 0 ==> IsWholeRun(h.recv, h, false))
            && h.send == if g.send.len > 0 then g.send else WsaBuf(g.recv.buf, size)
  {
    ReceiveStaysLive(g, g.mem, size);
  }

  /**
    The windows after a write. The write window moves on by the bytes sent, cyclically, and is all the unsent bytes up
    to the end of the buffer or the first free one. The read window is kept, or on a full ring is the bytes sent.
   */
  lemma WindowsAfterSend(g: Ring, count: nat)
    requires LiveRing(g) && 1 <= count <= g.send.len
    ensures var h := RingAfterSend(g, count);
            && h.send.buf == (g.send.buf + count) % BUFFER_SIZE
            && (h.send.len > 0 ==> IsWholeRun(h.send, h, true))
            && h.recv == if g.recv.len > 0 then g.recv else WsaBuf(g.send.buf, count)
  {
    SendStaysLive(g, count);
  }

  /** On a closed connection a completion retires its own operation and posts nothing. */
  lemma ClosedReceiveOutcome(c: Connection, up: bool, size: nat, accepted1: bool, accepted2: bool)
    requires IsClosed(c) && DrainingRing(RingOf(c, up)) && DrainingRing(RingOf(c, !up)) && LocalWriteTracked(c)
    ensures var c' := ReceiveComplete(c, up, size, accepted1, accepted2);
            && IsClosed(c') && RingOf(c', !up) == RingOf(c, !up)
            && Retired(RingOf(c', up), RingOf(c, up))
            && RingOf(c', up).recvPosted == None && RingOf(c', up).sendPosted == RingOf(c, up).sendPosted
            && LocalWriteTracked(c')
  {
  }

  lemma ClosedSendOutcome(c: Connection, up: bool, size: nat, accepted1: bool, accepted2: bool)
    requires IsClosed(c) && DrainingRing(RingOf(c, up)) && DrainingRing(RingOf(c, !up)) && LocalWriteTracked(c)
    ensures var c' := SendComplete(c, up, size, accepted1, accepted2);
            && IsClosed(c') && Retired(RingOf(c', !up), RingOf(c, !up))
            && Retired(RingOf(c', up), RingOf(c, up))
            && RingOf(c', up).sendPosted == None && RingOf(c', up).recvPosted == RingOf(c, up).recvPosted
            && RingOf(c', !up).recvPosted == RingOf(c, !up).recvPosted
            && RingOf(c', !up).sendPosted == RingOf(c, !up).sendPosted
            && LocalWriteTracked(c')
  {
    if up { } else { }
  }

  lemma RetiredKeepsDirection(g: Ring, h: Ring, log: Log)
    requires DirectionInv(Completed, h, log) && Retired(g, h)
    ensures DirectionInv(Completed, g, log)
  {
    if h.sendPosted.Some? {
      assert log.sent <= log.sent + WindowBytes(h.mem, h.sendPosted.value);
    }
  }

  lemma OpenReceive(g: Ring, log: Log, data: seq<byte>)
    requires DirectionInv(Established, g, log) && 1 <= |data| <= g.recv.len
    ensures DirectionInv(Established, RingAfterReceive(Arrived(g, data), |data|), Log(log.received + data, log.sent))
  {
    ReceiveEnqueues(g, data);
  }

  lemma ClosedReceive(g: Ring, log: Log, data: seq<byte>)
    requires DirectionInv(Completed, g, log) && g.recvPosted.Some? && |data| <= g.recvPosted.value.len
    ensures DirectionInv(Completed, g.(mem := Splice(g.mem, g.recvPosted.value.buf, data)),
                         Log(log.received + data, log.sent))
  {
    var mem := Splice(g.mem, g.recvPosted.value.buf, data);
    if g.sendPosted.Some? {
      assert WindowBytes(mem, g.sendPosted.value) == WindowBytes(g.mem, g.sendPosted.value);
    }
  }

  lemma ReceivedKeepsInv(w: World, e: Event)
    requires Inv(w) && e.Received? && Enabled(w.conn, e)
    ensures WindowsInMemory(w.conn) && Inv(Step(w, e))
  {
    InvBoundsWindows(w);
    var up, n := e.fromLocal, |e.data|;
    var g, log := RingOf(w.conn, up), LogOf(w, up);
    var log' := Log(log.received + e.data, log.sent);
    var mem := Splice(g.mem, g.recvPosted.value.buf, e.data);
    var arrived := WithRing(w.conn, up, g.(mem := mem));
    var w' := Step(w, e);
    assert LogOf(w', up) == log' && LogOf(w', !up) == LogOf(w, !up);
    if w.conn.status == Established {
      var h := RingAfterReceive(g.(mem := mem), n);
      OpenReceive(g, log, e.data);
      ReceiveOutcome(arrived, up, n, e.sendAccepted, e.recvAccepted);
      if IsClosed(w'.conn) {
        OpenRingDrains(RingOf(w.conn, !up), LogOf(w, !up));
        OpenRingDrains(h, log');
        RetiredKeepsDirection(RingOf(w'.conn, up), h, log');
      }
    } else {
      ClosedReceive(g, log, e.data);
      ClosedReceiveOutcome(arrived, up, n, e.sendAccepted, e.recvAccepted);
      RetiredKeepsDirection(RingOf(w'.conn, up), g.(mem := mem), log');
    }
  }

  lemma OpenSend(g: Ring, log: Log, count: nat)
    requires DirectionInv(Established, g, log) && g.send.len > 0 && count <= g.send.len
    ensures DirectionInv(Established, RingAfterSend(g, count),
                         Log(log.received, log.sent + WindowBytes(g.mem, g.send)[..count]))
  {
    if Proceeds(g, count) {
      SendDequeues(g, count);
      Assoc(log.sent, WindowBytes(g.mem, g.send)[..count], Unsent(RingAfterSend(g, count)));
    } else {
      SendStalls(g);
      assert WindowBytes(g.mem, g.send)[..0] == [];
    }
  }

  lemma ClosedSend(g: Ring, log: Log, count: nat)
    requires DirectionInv(Completed, g, log) && g.sendPosted.Some? && count <= g.sendPosted.value.len
    ensures log.sent + WindowBytes(g.mem, g.sendPosted.value)[..count] <= log.received
  {
  }

  lemma OpenSentKeepsInv(w: World, e: Event)
    requires Inv(w) && e.Sent? && Enabled(w.conn, e) && w.conn.status == Established
    ensures WindowsInMemory(w.conn) && Inv(Step(w, e))
  {
    InvBoundsWindows(w);
    var up := !e.toLocal;
    var g, log := RingOf(w.conn, up), LogOf(w, up);
    var log' := Log(log.received, log.sent + WindowBytes(g.mem, g.sendPosted.value)[..e.count]);
    var w', h := Step(w, e), RingAfterSend(g, e.count);
    assert LogOf(w', up) == log' && LogOf(w', !up) == LogOf(w, !up);
    OpenSend(g, log, e.count);
    SendOutcome(w.conn, up, e.count, e.recvAccepted, e.sendAccepted);
    if IsClosed(w'.conn) {
      OpenRingDrains(RingOf(w.conn, !up), LogOf(w, !up));
      OpenRingDrains(h, log');
      RetiredKeepsDirection(RingOf(w'.conn, up), h, log');
      RetiredKeepsDirection(RingOf(w'.conn, !up), RingOf(w.conn, !up), LogOf(w, !up));
    }
  }

  lemma ClosedSentKeepsInv(w: World, e: Event)
    requires Inv(w) && e.Sent? && Enabled(w.conn, e) && w.conn.status == Completed
    ensures WindowsInMemory(w.conn) && Inv(Step(w, e))
  {
    InvBoundsWindows(w);
    var up := !e.toLocal;
    var g, log := RingOf(w.conn, up), LogOf(w, up);
    var log' := Log(log.received, log.sent + WindowBytes(g.mem, g.sendPosted.value)[..e.count]);
    var w' := Step(w, e);
    assert LogOf(w', up) == log' && LogOf(w', !up) == LogOf(w, !up);
    ClosedSend(g, log, e.count);
    ClosedSendOutcome(w.conn, up, e.count, e.recvAccepted, e.sendAccepted);
    RetiredKeepsDirection(RingOf(w'.conn, !up), RingOf(w.conn, !up), LogOf(w, !up));
  }

  lemma FailureKeepsInv(w: World, e: Event)
    requires Inv(w) && (e.ReadFailed? || e.WriteFailed? || e.NegotiateWriteFailed?) && Enabled(w.conn, e)
    ensures WindowsInMemory(w.conn) && Inv(Step(w, e))
  {
    InvBoundsWindows(w);
    if w.conn.status == Established {
      OpenRingDrains(w.conn.up, w.upLog);
      OpenRingDrains(w.conn.down, w.downLog);
    }
    var w' := Step(w, e);
    RetiredKeepsDirection(w'.conn.up, w.conn.up, w.upLog);
    RetiredKeepsDirection(w'.conn.down, w.conn.down, w.downLog);
  }

  /** Winsock may write anywhere in a read window without disturbing a byte that still has to be sent. */
  lemma MemoryWriteKeepsInv(w: World, e: Event)
    requires Inv(w) && e.MemoryWrite? && Enabled(w.conn, e)
    ensures WindowsInMemory(w.conn) && Inv(Step(w, e))
    ensures w.conn.status == Established ==>
              && LiveRing(RingOf(w.conn, e.up)) && LiveRing(RingOf(Step(w, e).conn, e.up))
              && Unsent(RingOf(Step(w, e).conn, e.up)) == Unsent(RingOf(w.conn, e.up))
  {
    InvBoundsWindows(w);
    var g := RingOf(w.conn, e.up);
    var h := g.(mem := g.mem[e.at := e.value]);
    if w.conn.status == Established {
      assert Unsent(h) == Unsent(g);
    } else if g.sendPosted.Some? {
      assert WindowBytes(h.mem, g.sendPosted.value) == WindowBytes(g.mem, g.sendPosted.value);
    }
  }

  lemma StepKeepsInv(w: World, e: Event)
    requires Inv(w) && Enabled(w.conn, e)
    ensures WindowsInMemory(w.conn) && Inv(Step(w, e))
  {
    match e
    case Received(_, _, _, _) => ReceivedKeepsInv(w, e);
    case Sent(_, _, _, _) =>
      if w.conn.status == Established { OpenSentKeepsInv(w, e); } else { ClosedSentKeepsInv(w, e); }
    case MemoryWrite(_, _, _) => MemoryWriteKeepsInv(w, e);
    case _ => FailureKeepsInv(w, e);
  }

  // ---------------------------------------------------------------------------------
  // Whole runs
  // ---------------------------------------------------------------------------------

  function Started(c: Connection, localAccepted: bool, remoteAccepted: bool): World {
    Untouched(StartDataRelay(c, localAccepted, remoteAccepted))
  }

  /** A connection that has not relayed a byte. */
  function Untouched(c: Connection): World {
    World(c, Log([], []), Log([], []))
  }

  lemma StartEstablishesInv(c: Connection, localAccepted: bool, remoteAccepted: bool)
    requires Fresh(c)
    ensures Inv(Started(c, localAccepted, remoteAccepted))
  {
  }

  ghost predicate Follows(w: World, e: Event, w': World) {
    Enabled(w.conn, e) && WindowsInMemory(w.conn) && w' == Step(w, e)
  }

  /** Some run over the events es leads from w to w'. */
  ghost predicate Reaches(w: World, es: seq<Event>, w': World) {
    if es == [] then w' == w
    else exists v :: Reaches(w, DropLast(es), v) && Follows(v, Last(es), w')
  }

  lemma {:induction false} RunKeepsInv(w: World, es: seq<Event>, w': World)
    requires Reaches(w, es, w') && Inv(w)
    ensures Inv(w')
  {
    if es != [] {
      var v :| Reaches(w, DropLast(es), v) && Follows(v, Last(es), w');
      RunKeepsInv(w, DropLast(es), v);
      StepKeepsInv(v, Last(es));
    }
  }

  function InputOf(e: Event, up: bool): seq<byte> {
    if e.Received? && e.fromLocal == up then e.data else []
  }

  function OutputOf(e: Event, up: bool): nat {
    if e.Sent? && e.toLocal == !up then e.count else 0
  }

  /** Everything the source of a direction delivered over a run, in order. */
  function Input(es: seq<Event>, up: bool): seq<byte> {
    if es == [] then [] else Input(DropLast(es), up) + InputOf(Last(es), up)
  }

  /** How many bytes the destination of a direction accepted over a run. */
  function OutputCount(es: seq<Event>, up: bool): nat {
    if es == [] then 0 else OutputCount(DropLast(es), up) + OutputOf(Last(es), up)
  }

  lemma StepLogs(w: World, e: Event, w': World, up: bool)
    requires Follows(w, e, w')
    ensures LogOf(w', up).received == LogOf(w, up).received + InputOf(e, up)
    ensures |LogOf(w', up).sent| == |LogOf(w, up).sent| + OutputOf(e, up)
  {
  }

  lemma {:induction false} LogsFollowEvents(w: World, es: seq<Event>, w': World, up: bool)
    requires Reaches(w, es, w') && LogOf(w, up) == Log([], [])
    ensures LogOf(w', up).received == Input(es, up)
    ensures |LogOf(w', up).sent| == OutputCount(es, up)
  {
    if es != [] {
      var v :| Reaches(w, DropLast(es), v) && Follows(v, Last(es), w');
      LogsFollowEvents(w, DropLast(es), v, up);
      StepLogs(v, Last(es), w', up);
    }
  }

  lemma DirectionIsFifo(status: Status, g: Ring, log: Log)
    requires DirectionInv(status, g, log)
    ensures |log.sent| <= |log.received| && log.sent == log.received[..|log.sent|]
    ensures status == Established && !StalledRing(g) ==> LiveRing(g) && Unsent(g) == log.received[|log.sent|..]
  {
    if status != Established || StalledRing(g) {
      assert log.sent <= log.received;
    }
  }

  /** The k-th event of a run has this property in the state it finds. */
  ghost predicate HappensAt(start: World, es: seq<Event>, k: nat, p: (Connection, Event) -> bool) {
    k < |es| && exists v :: Reaches(start, es[..k], v) && p(v.conn, es[k])
  }

  ghost predicate Happens(start: World, es: seq<Event>, p: (Connection, Event) -> bool) {
    exists k: nat :: HappensAt(start, es, k, p)
  }

  lemma {:induction false} ReachesOne(w: World, es: seq<Event>, v: World, v': World)
    requires Reaches(w, es, v) && Reaches(w, es, v')
    ensures v == v'
  {
    if es != [] {
      var u :| Reaches(w, DropLast(es), u) && Follows(u, Last(es), v);
      var u' :| Reaches(w, DropLast(es), u') && Follows(u', Last(es), v');
      ReachesOne(w, DropLast(es), u, u');
    }
  }

  lemma PrefixesOfDropLast(es: seq<Event>)
    requires es != []
    ensures es[..|es| - 1] == DropLast(es)
    ensures forall k :: 0 <= k < |es| - 1 ==> DropLast(es)[..k] == es[..k] && DropLast(es)[k] == es[k]
  {
  }

  lemma HappensEarlier(start: World, es: seq<Event>, k: nat, p: (Connection, Event) -> bool)
    requires es != [] && k < |es| - 1
    ensures HappensAt(start, es, k, p) <==> HappensAt(start, DropLast(es), k, p)
  {
    PrefixesOfDropLast(es);
  }

  lemma HappensLast(start: World, es: seq<Event>, v: World, p: (Connection, Event) -> bool)
    requires es != [] && Reaches(start, DropLast(es), v)
    ensures HappensAt(start, es, |es| - 1, p) <==> p(v.conn, Last(es))
  {
    PrefixesOfDropLast(es);
    if HappensAt(start, es, |es| - 1, p) {
      var u :| Reaches(start, es[..|es| - 1], u) && p(u.conn, Last(es));
      ReachesOne(start, DropLast(es), u, v);
    }
  }

  /** A write of a direction completes with no bytes while its ring is full. */
  predicate Stalls(c: Connection, e: Event, up: bool) {
    e.Sent? && e.toLocal == !up && e.count == 0 && c.status == Established && RingOf(c, up).recv.len == 0
  }

  function StallsDirection(up: bool): (Connection, Event) -> bool {
    (c, e) => Stalls(c, e, up)
  }

  /** Some event of the run stalled this direction. */
  ghost predicate WasStalled(start: World, es: seq<Event>, up: bool) {
    Happens(start, es, StallsDirection(up))
  }

  /** One event stalls a direction of a connection that stays established exactly when it is such a write. */
  lemma StepStallsIff(w: World, e: Event, up: bool)
    requires Inv(w) && Enabled(w.conn, e) && WindowsInMemory(w.conn) && Step(w, e).conn.status == Established
    ensures w.conn.status == Established
    ensures StalledRing(RingOf(Step(w, e).conn, up)) <==> StalledRing(RingOf(w.conn, up)) || Stalls(w.conn, e, up)
  {
    match e
    case Received(from, data, a1, a2) => ReceivedStallsNothing(w, e, up);
    case Sent(toLocal, count, a1, a2) => SentStallsIff(w, e, up);
    case _ =>
  }

  lemma ReceivedStallsNothing(w: World, e: Event, up: bool)
    requires Inv(w) && e.Received? && Enabled(w.conn, e) && WindowsInMemory(w.conn)
    requires Step(w, e).conn.status == Established
    ensures w.conn.status == Established
    ensures StalledRing(RingOf(Step(w, e).conn, up)) <==> StalledRing(RingOf(w.conn, up))
  {
    var from, n := e.fromLocal, |e.data|;
    var g := RingOf(w.conn, from);
    var arrived := WithRing(w.conn, from, g.(mem := Splice(g.mem, g.recvPosted.value.buf, e.data)));
    if w.conn.status == Completed {
      ClosedReceiveOutcome(arrived, from, n, e.sendAccepted, e.recvAccepted);
    } else {
      ReceiveOutcome(arrived, from, n, e.sendAccepted, e.recvAccepted);
      ReceiveStaysLive(g, RingOf(arrived, from).mem, n);
    }
  }

  lemma SentStallsIff(w: World, e: Event, up: bool)
    requires Inv(w) && e.Sent? && Enabled(w.conn, e) && WindowsInMemory(w.conn)
    requires Step(w, e).conn.status == Established
    ensures w.conn.status == Established
    ensures StalledRing(RingOf(Step(w, e).conn, up)) <==> StalledRing(RingOf(w.conn, up)) || Stalls(w.conn, e, up)
  {
    var direction := !e.toLocal;
    var g := RingOf(w.conn, direction);
    if w.conn.status == Completed {
      ClosedSendOutcome(w.conn, direction, e.count, e.recvAccepted, e.sendAccepted);
    } else {
      SendOutcome(w.conn, direction, e.count, e.recvAccepted, e.sendAccepted);
      if Proceeds(g, e.count) { SendStaysLive(g, e.count); } else { SendStalls(g); }
    }
  }

  lemma {:induction false} StalledIff(start: World, es: seq<Event>, w: World, up: bool)
    requires Inv(start) && !StalledRing(RingOf(start.conn, up)) && Reaches(start, es, w)
    requires w.conn.status == Established
    ensures StalledRing(RingOf(w.conn, up)) <==> WasStalled(start, es, up)
  {
    if es != [] {
      var v :| Reaches(start, DropLast(es), v) && Follows(v, Last(es), w);
      RunKeepsInv(start, DropLast(es), v);
      StepStallsIff(v, Last(es), up);
      StalledIff(start, DropLast(es), v, up);
      StalledWithOneMore(start, es, v, up);
    }
  }

  lemma StalledWithOneMore(start: World, es: seq<Event>, v: World, up: bool)
    requires es != [] && Reaches(start, DropLast(es), v)
    ensures WasStalled(start, es, up) <==> WasStalled(start, DropLast(es), up) || Stalls(v.conn, Last(es), up)
  {
    var p := StallsDirection(up);
    HappensLast(start, es, v, p);
    if k: nat :| HappensAt(start, es, k, p) && k < |es| - 1 { HappensEarlier(start, es, k, p); }
    if k: nat :| HappensAt(start, DropLast(es), k, p) { HappensEarlier(start, es, k, p); }
  }

  /**
    The relay refines an unbounded queue in each direction. The bytes Winsock actually took out of the ring are always
    the first OutputCount bytes the other peer delivered. While the connection is established the rest of them are
    exactly the unsent bytes of the ring, if and only if no write of the direction completed with no bytes on a full
    ring.
   */
  lemma RelayIsFifo(c: Connection, localAccepted: bool, remoteAccepted: bool, es: seq<Event>, w: World, up: bool)
    requires Fresh(c) && Reaches(Started(c, localAccepted, remoteAccepted), es, w)
    ensures OutputCount(es, up) <= |Input(es, up)|
    ensures LogOf(w, up).sent == Input(es, up)[..OutputCount(es, up)]
    ensures w.conn.status == Established ==>
              (LiveRing(RingOf(w.conn, up)) && Unsent(RingOf(w.conn, up)) == Input(es, up)[OutputCount(es, up)..]
               <==> !WasStalled(Started(c, localAccepted, remoteAccepted), es, up))
  {
    var start := Started(c, localAccepted, remoteAccepted);
    StartEstablishesInv(c, localAccepted, remoteAccepted);
    RunKeepsInv(start, es, w);
    LogsFollowEvents(start, es, w, up);
    DirectionIsFifo(w.conn.status, RingOf(w.conn, up), LogOf(w, up));
    if w.conn.status == Established {
      StartIsEstablished(c, localAccepted, remoteAccepted, es, w);
      StalledIff(start, es, w, up);
    }
  }

  /** A connection that is still established was so from the start, with both reads posted. */
  lemma {:induction false} StartIsEstablished(
      c: Connection, localAccepted: bool, remoteAccepted: bool, es: seq<Event>, w: World)
    requires Fresh(c) && Reaches(Started(c, localAccepted, remoteAccepted), es, w) && w.conn.status == Established
    ensures LiveRing(Started(c, localAccepted, remoteAccepted).conn.up)
    ensures LiveRing(Started(c, localAccepted, remoteAccepted).conn.down)
  {
    var start := Started(c, localAccepted, remoteAccepted);
    StartEstablishesInv(c, localAccepted, remoteAccepted);
    if es != [] {
      var v :| Reaches(start, DropLast(es), v) && Follows(v, Last(es), w);
      RunKeepsInv(start, DropLast(es), v);
      StepStallsIff(v, Last(es), true);
      StartIsEstablished(c, localAccepted, remoteAccepted, DropLast(es), v);
    }
  }

  /** Full, empty and stalled are told apart by the two lengths alone, and the windows are safe. */
  lemma WindowsAreSafe(g: Ring)
    requires LiveRing(g)
    ensures g.recv.len == 0 <==> |Unsent(g)| == BUFFER_SIZE
    ensures g.send.len == 0 <==> Unsent(g) == []
    ensures g.recvPosted.Some? || g.sendPosted.Some?
    ensures g.recvPosted.Some? ==> InBounds(g.recvPosted.value)
    ensures g.sendPosted.Some? ==> InBounds(g.sendPosted.value)
    ensures forall i :: g.recv.buf <= i < g.recv.buf + g.recv.len ==> !HoldsUnsent(g, i)
    ensures forall i :: g.send.buf <= i < g.send.buf + g.send.len ==> HoldsUnsent(g, i)
  {
  }

  /**
    In every reachable established state the two windows of a direction are apart, and the direction has an operation
    posted if and only if no write of it completed with no bytes on a full ring.
   */
  lemma EstablishedStallsIff(
      c: Connection, localAccepted: bool, remoteAccepted: bool, es: seq<Event>, w: World, up: bool)
    requires Fresh(c) && Reaches(Started(c, localAccepted, remoteAccepted), es, w) && w.conn.status == Established
    ensures var g := RingOf(w.conn, up);
            && (g.recvPosted.Some? || g.sendPosted.Some?
                <==> !WasStalled(Started(c, localAccepted, remoteAccepted), es, up))
            && (g.recvPosted.Some? && g.sendPosted.Some? ==> Disjoint(g.recvPosted.value, g.sendPosted.value))
  {
    var start := Started(c, localAccepted, remoteAccepted);
    StartEstablishesInv(c, localAccepted, remoteAccepted);
    RunKeepsInv(start, es, w);
    StartIsEstablished(c, localAccepted, remoteAccepted, es, w);
    StalledIff(start, es, w, up);
    WindowsDisjoint(w, up);
    if LiveRing(RingOf(w.conn, up)) { WindowsAreSafe(RingOf(w.conn, up)); }
  }

  /** How many bytes of a direction are waiting to be sent, as far as a run's events tell. */
  function Waiting(es: seq<Event>, up: bool): int {
    |Input(es, up)| - OutputCount(es, up)
  }

  /** An event that fails, or is refused a post that it needs with so many bytes waiting. */
  predicate Breaks(e: Event, waiting: int) {
    match e
    case Received(_, data, sendAccepted, recvAccepted) =>
      (waiting == 0 && !sendAccepted) || (waiting + |data| < BUFFER_SIZE && !recvAccepted)
    case Sent(_, count, recvAccepted, sendAccepted) =>
      !(count == 0 && waiting == BUFFER_SIZE)
      && ((waiting == BUFFER_SIZE && !recvAccepted) || (count < waiting && !sendAccepted))
    case MemoryWrite(_, _, _) => false
    case _ => true
  }

  predicate IsUp(e: Event) {
    match e
    case Received(fromLocal, _, _, _) => fromLocal
    case Sent(toLocal, _, _, _) => !toLocal
    case _ => true
  }

  lemma DirectionOf(w: World, e: Event)
    requires Inv(w) && Enabled(w.conn, e) && w.conn.status == Established && (e.Received? || e.Sent?)
    ensures var g, log := RingOf(w.conn, IsUp(e)), LogOf(w, IsUp(e));
            LiveRing(g) && |Unsent(g)| == |log.received| - |log.sent|
  {
  }

  lemma ReceivedBreaksIff(w: World, e: Event)
    requires Inv(w) && Enabled(w.conn, e) && WindowsInMemory(w.conn) && w.conn.status == Established && e.Received?
    ensures var log := LogOf(w, e.fromLocal);
            Step(w, e).conn.status == Established <==> !Breaks(e, |log.received| - |log.sent|)
  {
    DirectionOf(w, e);
    var up := e.fromLocal;
    var g := RingOf(w.conn, up);
    var arrived := WithRing(w.conn, up, g.(mem := Splice(g.mem, g.recvPosted.value.buf, e.data)));
    ReceiveStaysOpenIff(arrived, up, |e.data|, e.sendAccepted, e.recvAccepted);
    ReceiveOutcome(arrived, up, |e.data|, e.sendAccepted, e.recvAccepted);
  }

  lemma SentBreaksIff(w: World, e: Event)
    requires Inv(w) && Enabled(w.conn, e) && WindowsInMemory(w.conn) && w.conn.status == Established && e.Sent?
    ensures var log := LogOf(w, !e.toLocal);
            Step(w, e).conn.status == Established <==> !Breaks(e, |log.received| - |log.sent|)
  {
    DirectionOf(w, e);
    SendStaysOpenIff(w.conn, !e.toLocal, e.count, e.recvAccepted, e.sendAccepted);
    SendOutcome(w.conn, !e.toLocal, e.count, e.recvAccepted, e.sendAccepted);
  }

  lemma StepBreaksIff(w: World, e: Event)
    requires Inv(w) && Enabled(w.conn, e) && WindowsInMemory(w.conn) && w.conn.status == Established
    ensures var log := LogOf(w, IsUp(e));
            Step(w, e).conn.status == Established <==> !Breaks(e, |log.received| - |log.sent|)
  {
    match e
    case Received(_, _, _, _) => ReceivedBreaksIff(w, e);
    case Sent(_, _, _, _) => SentBreaksIff(w, e);
    case _ =>
  }

  ghost predicate NothingBroke(es: seq<Event>) {
    forall k :: 0 <= k < |es| ==> !BreaksAt(es, k)
  }

  predicate BreaksAt(es: seq<Event>, k: nat)
    requires k < |es|
  {
    Breaks(es[k], Waiting(es[..k], IsUp(es[k])))
  }

  lemma NothingBrokeWithOneMore(es: seq<Event>)
    requires es != []
    ensures NothingBroke(es) <==>
              NothingBroke(DropLast(es)) && !Breaks(Last(es), Waiting(DropLast(es), IsUp(Last(es))))
  {
    PrefixesOfDropLast(es);
    assert forall k :: 0 <= k < |es| - 1 ==> (BreaksAt(es, k) <==> BreaksAt(DropLast(es), k));
    assert BreaksAt(es, |es| - 1) <==> Breaks(Last(es), Waiting(DropLast(es), IsUp(Last(es))));
  }

  /**
    When a relay stays up, told from its events alone: a connection is established after a run if and only if both first
    reads were accepted, no event of the run was a failure, and none was refused a post that it needed.
   */
  lemma {:induction false} EstablishedIff(
      c: Connection, localAccepted: bool, remoteAccepted: bool, es: seq<Event>, w: World)
    requires Fresh(c) && Reaches(Started(c, localAccepted, remoteAccepted), es, w)
    ensures w.conn.status == Established <==> localAccepted && remoteAccepted && NothingBroke(es)
  {
    var start := Started(c, localAccepted, remoteAccepted);
    if es != [] {
      var v :| Reaches(start, DropLast(es), v) && Follows(v, Last(es), w);
      EstablishedIff(c, localAccepted, remoteAccepted, DropLast(es), v);
      NothingBrokeWithOneMore(es);
      StartEstablishesInv(c, localAccepted, remoteAccepted);
      RunKeepsInv(start, DropLast(es), v);
      LogsFollowEvents(start, DropLast(es), v, IsUp(Last(es)));
      if v.conn.status == Established { StepBreaksIff(v, Last(es)); } else { CompletedDrains(v, Last(es)); }
    }
  }

  lemma SpliceSpares(mem: seq<byte>, v: WsaBuf, data: seq<byte>, w: WsaBuf)
    requires 0 <= v.buf && v.buf + v.len <= |mem| && 0 <= w.buf && w.buf + w.len <= |mem|
    requires Disjoint(v, w) && |data| <= v.len
    ensures WindowBytes(Splice(mem, v.buf, data), w) == WindowBytes(mem, w)
  {
    SpliceElements(mem, v.buf, data);
    var written := Splice(mem, v.buf, data);
    assert forall i :: w.buf <= i < w.buf + w.len ==> written[i] == mem[i];
    assert written[w.buf..w.buf + w.len] == mem[w.buf..w.buf + w.len];
  }

  lemma WindowsDisjoint(w: World, up: bool)
    requires Inv(w)
    ensures var g := RingOf(w.conn, up);
            g.recvPosted.Some? && g.sendPosted.Some? ==> Disjoint(g.recvPosted.value, g.sendPosted.value)
  {
    var g := RingOf(w.conn, up);
    if w.conn.status == Established && g.send.len > 0 { WindowIsFront(g); }
  }

  /** The write window of a direction and its bytes are the same in both connections. */
  predicate SameWrite(c: Connection, c': Connection, up: bool)
    requires WindowsInMemory(c)
  {
    var g, h := RingOf(c, up), RingOf(c', up);
    && h.sendPosted == g.sendPosted && |h.mem| == |g.mem|
    && (g.sendPosted.Some? ==> WindowBytes(h.mem, g.sendPosted.value) == WindowBytes(g.mem, g.sendPosted.value))
  }

  lemma ReceivedSparesWrite(w: World, e: Event, up: bool)
    requires Inv(w) && WindowsInMemory(w.conn)
    requires e.Received? && Enabled(w.conn, e) && RingOf(w.conn, up).sendPosted.Some?
    ensures SameWrite(w.conn, Step(w, e).conn, up)
  {
    var from, n := e.fromLocal, |e.data|;
    var g := RingOf(w.conn, from);
    WindowsDisjoint(w, from);
    var mem := Splice(g.mem, g.recvPosted.value.buf, e.data);
    if g.sendPosted.Some? { SpliceSpares(g.mem, g.recvPosted.value, e.data, g.sendPosted.value); }
    var arrived := WithRing(w.conn, from, g.(mem := mem));
    assert SameWrite(w.conn, arrived, up);
    if w.conn.status == Established {
      ReceiveOutcome(arrived, from, n, e.sendAccepted, e.recvAccepted);
    } else {
      ClosedReceiveOutcome(arrived, from, n, e.sendAccepted, e.recvAccepted);
    }
  }

  lemma SentSparesWrite(w: World, e: Event)
    requires Inv(w) && WindowsInMemory(w.conn)
    requires e.Sent? && Enabled(w.conn, e)
    ensures SameWrite(w.conn, Step(w, e).conn, e.toLocal)
  {
    if w.conn.status == Established {
      SendOutcome(w.conn, !e.toLocal, e.count, e.recvAccepted, e.sendAccepted);
    } else {
      ClosedSendOutcome(w.conn, !e.toLocal, e.count, e.recvAccepted, e.sendAccepted);
    }
  }

  /** A write in progress reads stable memory: no other event moves its window or changes its bytes. */
  lemma PostedWriteIsStable(w: World, e: Event, up: bool)
    requires Inv(w) && Enabled(w.conn, e) && RingOf(w.conn, up).sendPosted.Some?
    requires !(e.Sent? && e.toLocal == !up) && !(e.WriteFailed? && e.toLocal == !up)
    ensures WindowsInMemory(w.conn) && SameWrite(w.conn, Step(w, e).conn, up)
  {
    InvBoundsWindows(w);
    match e
    case Received(_, _, _, _) => ReceivedSparesWrite(w, e, up);
    case Sent(_, _, _, _) => SentSparesWrite(w, e);
    case MemoryWrite(_, _, _) => WindowsDisjoint(w, up);
    case _ =>
  }

  /** A write of no bytes keeps the queue exactly when the ring is not full; a full direction stalls for good. */
  lemma EmptyWriteNeedsSpace(c: Connection, up: bool)
    requires IsOpen(c) && LiveRing(RingOf(c, up)) && RingOf(c, up).send.len > 0
    ensures var g, h := RingOf(c, up), RingOf(SendComplete(c, up, 0, true, true), up);
            && (LiveRing(h) && Unsent(h) == Unsent(g) <==> g.recv.len > 0)
            && (g.recv.len == 0 ==> h.recvPosted == None && h.sendPosted == None)
  {
  }

  // ---------------------------------------------------------------------------------
  // Teardown
  // ---------------------------------------------------------------------------------

  /** How many of the four relay operations Winsock holds; a write of the negotiation is not among them. */
  function Outstanding(c: Connection): nat {
    (if c.up.recvPosted.Some? then 1 else 0) + (if c.up.sendPosted.Some? then 1 else 0)
    + (if c.down.recvPosted.Some? then 1 else 0) + (if c.down.sendPosted.Some? then 1 else 0)
  }

  /** Completed is absorbing, and from then on every completion retires one operation and posts none. */
  lemma CompletedDrains(w: World, e: Event)
    requires Inv(w) && w.conn.status == Completed && Enabled(w.conn, e)
    ensures WindowsInMemory(w.conn)
    ensures Step(w, e).conn.status == Completed
    ensures Outstanding(Step(w, e).conn)
            == Outstanding(w.conn) - (if e.MemoryWrite? || e.NegotiateWriteFailed? then 0 else 1)
  {
    InvBoundsWindows(w);
    match e
    case Received(up, data, a1, a2) =>
      var g := RingOf(w.conn, up);
      var arrived := WithRing(w.conn, up, g.(mem := Splice(g.mem, g.recvPosted.value.buf, data)));
      ClosedReceiveOutcome(arrived, up, |data|, a1, a2);
    case Sent(toLocal, count, a1, a2) => ClosedSendOutcome(w.conn, !toLocal, count, a1, a2);
    case _ =>
  }

  lemma {:induction false} CompletedForGood(w: World, es: seq<Event>, w': World)
    requires Inv(w) && w.conn.status == Completed && Reaches(w, es, w')
    ensures Inv(w') && w'.conn.status == Completed
  {
    if es != [] {
      var v :| Reaches(w, DropLast(es), v) && Follows(v, Last(es), w');
      CompletedForGood(w, DropLast(es), v);
      StepKeepsInv(v, Last(es));
      CompletedDrains(v, Last(es));
    }
  }

  /** Once all completions are delivered the socket is removable; only a write to the remote can outlive that. */
  lemma DrainedIsRemovable(w: World)
    requires Inv(w)
    ensures w.conn.status == Completed && Outstanding(w.conn) == 0 ==> ReadyForRemoval(w.conn)
    ensures ReadyForRemoval(w.conn) ==> w.conn.status == Completed && w.conn.up.recvPosted == None
                                        && w.conn.down.recvPosted == None && w.conn.down.sendPosted == None
  {
  }

  /** The length of the write to the remote socket says whether one is outstanding. */
  predicate RemoteWriteTracked(c: Connection) {
    c.up.send.len > 0 <==> c.up.sendPosted.Some?
  }

  /** Ready for removal with nothing outstanding is ready for removal with that length intact. */
  lemma RemovableIsDrainedIff(w: World)
    requires Inv(w) && ReadyForRemoval(w.conn)
    ensures Outstanding(w.conn) == 0 <==> RemoteWriteTracked(w.conn)
  {
  }

  /**
    The three ways to lose the length while that write is outstanding: the connection is completed and a write to the
    local socket catches up with the receive cursor; a write of the whole full ring to the local socket cannot be
    followed by a read from the remote one; or a write of the negotiation fails late.
   */
  predicate LosesRemoteWrite(c: Connection, e: Event) {
    && c.up.sendPosted.Some?
    && match e
       case Sent(toLocal, count, recvAccepted, _) =>
         && toLocal
         && (match c.status
             case Completed => WrapCursor(c.down.send.buf + count) == c.down.recv.buf
             case Established => c.down.recv.len == 0 && !recvAccepted && count == BUFFER_SIZE
             case _ => false)
       case NegotiateWriteFailed => true
       case _ => false
  }

  predicate CompletesRemoteWrite(e: Event) {
    (e.Sent? || e.WriteFailed?) && !e.toLocal
  }

  lemma LocalSentTracksRemoteWrite(w: World, e: Event)
    requires Inv(w) && Enabled(w.conn, e) && e.Sent? && e.toLocal && RemoteWriteTracked(w.conn)
    ensures WindowsInMemory(w.conn)
    ensures RemoteWriteTracked(Step(w, e).conn) <==> !LosesRemoteWrite(w.conn, e)
  {
    InvBoundsWindows(w);
  }

  lemma RemoteSentTracksRemoteWrite(w: World, e: Event)
    requires Inv(w) && Enabled(w.conn, e) && e.Sent? && !e.toLocal
    ensures WindowsInMemory(w.conn) && RemoteWriteTracked(Step(w, e).conn)
  {
    InvBoundsWindows(w);
  }

  lemma ReceivedTracksRemoteWrite(w: World, e: Event)
    requires Inv(w) && Enabled(w.conn, e) && e.Received?
    ensures WindowsInMemory(w.conn)
    ensures RemoteWriteTracked(Step(w, e).conn) <==> RemoteWriteTracked(w.conn)
  {
    InvBoundsWindows(w);
  }

  lemma StepTracksRemoteWrite(w: World, e: Event)
    requires Inv(w) && Enabled(w.conn, e) && RemoteWriteTracked(w.conn)
    ensures WindowsInMemory(w.conn)
    ensures RemoteWriteTracked(Step(w, e).conn) <==> !LosesRemoteWrite(w.conn, e)
  {
    InvBoundsWindows(w);
    match e
    case Received(_, _, _, _) => ReceivedTracksRemoteWrite(w, e);
    case Sent(toLocal, _, _, _) =>
      if toLocal { LocalSentTracksRemoteWrite(w, e); } else { RemoteSentTracksRemoteWrite(w, e); }
    case _ =>
  }

  /** Once lost, the length agrees again exactly when that write completes. */
  lemma LostUntilCompleted(w: World, e: Event)
    requires Inv(w) && Enabled(w.conn, e) && !RemoteWriteTracked(w.conn)
    ensures WindowsInMemory(w.conn)
    ensures RemoteWriteTracked(Step(w, e).conn) <==> CompletesRemoteWrite(e)
  {
    InvBoundsWindows(w);
    assert w.conn.status == Completed;
    match e
    case Received(_, _, _, _) => ReceivedTracksRemoteWrite(w, e);
    case Sent(toLocal, _, _, _) => if !toLocal { RemoteSentTracksRemoteWrite(w, e); }
    case _ =>
  }

  /** The k-th event of a run loses the length, and the write does not complete afterwards. */
  ghost predicate IsLostAt(start: World, es: seq<Event>, k: nat) {
    && HappensAt(start, es, k, LosesRemoteWrite)
    && forall j :: k < j < |es| ==> !CompletesRemoteWrite(es[j])
  }

  ghost predicate IsLost(start: World, es: seq<Event>) {
    exists k: nat :: IsLostAt(start, es, k)
  }

  lemma LostEarlier(start: World, es: seq<Event>, k: nat)
    requires es != [] && k < |es| - 1
    ensures IsLostAt(start, es, k) <==> IsLostAt(start, DropLast(es), k) && !CompletesRemoteWrite(Last(es))
  {
    PrefixesOfDropLast(es);
    HappensEarlier(start, es, k, LosesRemoteWrite);
  }

  lemma LostLast(start: World, es: seq<Event>, v: World)
    requires es != [] && Reaches(start, DropLast(es), v)
    ensures IsLostAt(start, es, |es| - 1) <==> LosesRemoteWrite(v.conn, Last(es))
  {
    HappensLast(start, es, v, LosesRemoteWrite);
  }

  /** One more event: what was lost before is still lost unless the write completes, or this event loses it. */
  lemma LostWithOneMore(start: World, es: seq<Event>, v: World)
    requires es != [] && Reaches(start, DropLast(es), v)
    ensures IsLost(start, es) <==>
              (IsLost(start, DropLast(es)) && !CompletesRemoteWrite(Last(es))) || LosesRemoteWrite(v.conn, Last(es))
  {
    LostLast(start, es, v);
    if IsLost(start, es) {
      var k: nat :| IsLostAt(start, es, k);
      if k < |es| - 1 { LostEarlier(start, es, k); }
    }
    if IsLost(start, DropLast(es)) {
      var k: nat :| IsLostAt(start, DropLast(es), k);
      LostEarlier(start, es, k);
    }
  }

  lemma {:induction false} TrackedUnlessLost(start: World, es: seq<Event>, w: World)
    requires Inv(start) && RemoteWriteTracked(start.conn) && Reaches(start, es, w)
    ensures RemoteWriteTracked(w.conn) <==> !IsLost(start, es)
  {
    if es != [] {
      var v :| Reaches(start, DropLast(es), v) && Follows(v, Last(es), w);
      TrackedUnlessLost(start, DropLast(es), v);
      RunKeepsInv(start, DropLast(es), v);
      LostWithOneMore(start, es, v);
      if RemoteWriteTracked(v.conn) { StepTracksRemoteWrite(v, Last(es)); } else { LostUntilCompleted(v, Last(es)); }
    }
  }

  /**
    When removal is safe: a socket that is ready for removal after a run has nothing outstanding if and only if no event
    of the run lost the length of a write to the remote socket that has not completed since.
   */
  lemma RemovalIsSafeIff(c: Connection, localAccepted: bool, remoteAccepted: bool, es: seq<Event>, w: World)
    requires Fresh(c) && Reaches(Started(c, localAccepted, remoteAccepted), es, w) && ReadyForRemoval(w.conn)
    ensures Outstanding(w.conn) == 0 <==> !IsLost(Started(c, localAccepted, remoteAccepted), es)
  {
    var start := Started(c, localAccepted, remoteAccepted);
    StartEstablishesInv(c, localAccepted, remoteAccepted);
    RunKeepsInv(start, es, w);
    TrackedUnlessLost(start, es, w);
    RemovableIsDrainedIff(w);
  }

  lemma Extend(w: World, es: seq<Event>, v: World, e: Event, w': World)
    requires Reaches(w, es, v) && Follows(v, e, w')
    ensures Reaches(w, es + [e], w')
  {
    assert DropLast(es + [e]) == es && Last(es + [e]) == e;
  }

  lemma TakeStep(w: World, es: seq<Event>, v: World, e: Event) returns (w': World)
    requires Reaches(w, es, v) && Inv(v) && Enabled(v.conn, e)
    ensures WindowsInMemory(v.conn) && w' == Step(v, e) && Inv(w')
    ensures Reaches(w, es + [e], w')
  {
    InvBoundsWindows(v);
    w' := Step(v, e);
    StepKeepsInv(v, e);
    Extend(w, es, v, e, w');
  }

  lemma FilledRing(g: Ring, data: seq<byte>)
    requires FreshRing(g) && |data| == BUFFER_SIZE
    ensures var h := RingAfterReceive(Arrived(g, data), BUFFER_SIZE); h.recv.len == 0 && h.send.len == BUFFER_SIZE
  {
  }

  /** One read can fill a ring. */
  lemma ReachFullRing(c: Connection, up: bool, data: seq<byte>) returns (es: seq<Event>, w: World)
    requires Fresh(c) && |data| == BUFFER_SIZE
    ensures Reaches(Started(c, true, true), es, w) && Inv(w) && IsOpen(w.conn)
    ensures RingOf(w.conn, up).recv.len == 0 && RingOf(w.conn, up).send.len == BUFFER_SIZE
    ensures Input(es, up) == data && OutputCount(es, up) == 0
  {
    var w0 := Started(c, true, true);
    StartEstablishesInv(c, true, true);
    var g := RingOf(w0.conn, up);
    FilledRing(RingOf(c, up), data);
    ReceiveOutcome(WithRing(w0.conn, up, Arrived(g, data)), up, BUFFER_SIZE, true, true);
    w := TakeStep(w0, [], w0, Received(up, data, true, true));
    es := [] + [Received(up, data, true, true)];
  }

  /** The stall occurs: after that read, a write of no bytes leaves 65536 bytes unsent with nothing outstanding. */
  lemma EmptyWriteStallsFullRing(c: Connection, up: bool, data: seq<byte>) returns (es: seq<Event>, w: World)
    requires Fresh(c) && |data| == BUFFER_SIZE
    ensures Reaches(Started(c, true, true), es, w) && IsOpen(w.conn) && StalledRing(RingOf(w.conn, up))
    ensures Input(es, up) == data && OutputCount(es, up) == 0
  {
    var before, v := ReachFullRing(c, up, data);
    SendOpenOutcome(v.conn, up, 0, true, true);
    SendStalls(RingOf(v.conn, up));
    w := TakeStep(Started(c, true, true), before, v, Sent(!up, 0, true, true));
    es := before + [Sent(!up, 0, true, true)];
    assert DropLast(es) == before;
  }

  /** One byte each way, neither acknowledged yet. */
  predicate OneByteEachWay(c: Connection) {
    && IsOpen(c)
    && c.up.recvPosted.Some? && c.down.recvPosted.Some?
    && c.up.sendPosted.Some?
    && c.down.sendPosted == Some(WsaBuf(0, 1)) && c.down.send == WsaBuf(0, 1) && c.down.recv.buf == 1
  }

  lemma ReachOneByteUp(c: Connection) returns (es: seq<Event>, w: World)
    requires Fresh(c)
    ensures Reaches(Started(c, true, true), es, w) && Inv(w)
    ensures IsOpen(w.conn) && w.conn.up.recvPosted.Some? && w.conn.up.sendPosted.Some?
    ensures w.conn.down == Started(c, true, true).conn.down
  {
    var w0 := Started(c, true, true);
    StartEstablishesInv(c, true, true);
    ReceiveOutcome(WithRing(w0.conn, true, Arrived(w0.conn.up, [7])), true, 1, true, true);
    w := TakeStep(w0, [], w0, Received(true, [7], true, true));
    es := [] + [Received(true, [7], true, true)];
  }

  /** The length can also be lost on an established connection, by a write of a whole full ring. */
  lemma FullRingLosesWrite(c: Connection, data: seq<byte>) returns (es: seq<Event>, w: World, e: Event)
    requires Fresh(c) && |data| == BUFFER_SIZE
    ensures Reaches(Started(c, true, true), es, w) && w.conn.status == Established
    ensures Enabled(w.conn, e) && LosesRemoteWrite(w.conn, e)
  {
    var w0 := Started(c, true, true);
    var before, w1 := ReachOneByteUp(c);
    FilledRing(c.down, data);
    ReceiveOutcome(WithRing(w1.conn, false, Arrived(w1.conn.down, data)), false, BUFFER_SIZE, true, true);
    w := TakeStep(w0, before, w1, Received(false, data, true, true));
    es := before + [Received(false, data, true, true)];
    e := Sent(true, BUFFER_SIZE, false, true);
  }

  lemma ReachOneByteEachWay(c: Connection) returns (es: seq<Event>, w: World)
    requires Fresh(c)
    ensures Reaches(Started(c, true, true), es, w) && Inv(w) && OneByteEachWay(w.conn)
  {
    var w0 := Started(c, true, true);
    var before, w1 := ReachOneByteUp(c);
    ReceiveOutcome(WithRing(w1.conn, false, Arrived(w1.conn.down, [7])), false, 1, true, true);
    w := TakeStep(w0, before, w1, Received(false, [7], true, true));
    es := before + [Received(false, [7], true, true)];
  }

  /** The same connection once both its reads have failed. */
  lemma ReachBothWritesLeft(c: Connection) returns (es: seq<Event>, w: World)
    requires Fresh(c)
    ensures Reaches(Started(c, true, true), es, w) && Inv(w) && IsClosed(w.conn)
    ensures w.conn.up.recv.len == 0 && w.conn.down.recv.len == 0 && w.conn.up.sendPosted.Some?
    ensures w.conn.down.sendPosted == Some(WsaBuf(0, 1)) && w.conn.down.send.buf == 0 && w.conn.down.recv.buf == 1
  {
    var w0 := Started(c, true, true);
    var before, w2 := ReachOneByteEachWay(c);
    var w3 := TakeStep(w0, before, w2, ReadFailed(true));
    es := before + [ReadFailed(true)];
    w := TakeStep(w0, es, w3, ReadFailed(false));
    es := es + [ReadFailed(false)];
  }

  /**
    It does occur, in the first of the two ways: the last write to the local socket clears the length of the write
    still outstanding on the remote socket, so the connection looks removable too early.
   */
  lemma RemovableTooEarly(c: Connection) returns (es: seq<Event>, w: World)
    requires Fresh(c)
    ensures Reaches(Started(c, true, true), es, w)
    ensures ReadyForRemoval(w.conn) && w.conn.up.sendPosted.Some?
  {
    var before, w4 := ReachBothWritesLeft(c);
    w := TakeStep(Started(c, true, true), before, w4, Sent(true, 1, true, true));
    es := before + [Sent(true, 1, true, true)];
  }

  lemma ReachLateFailure(c: Connection) returns (es: seq<Event>, w: World)
    requires Fresh(c)
    ensures Reaches(Started(c, true, true), es, w) && Inv(w) && IsClosed(w.conn)
    ensures w.conn.up.recvPosted.Some? && w.conn.down.recvPosted.Some?
    ensures w.conn.up.send.len == 0 && w.conn.up.sendPosted.Some? && w.conn.down.send.len == 0
  {
    var before, v := ReachOneByteUp(c);
    w := TakeStep(Started(c, true, true), before, v, NegotiateWriteFailed);
    es := before + [NegotiateWriteFailed];
  }

  /** It occurs in the third way too: a late failure of a negotiation write clears the length. */
  lemma RemovableAfterLateFailure(c: Connection) returns (es: seq<Event>, w: World)
    requires Fresh(c)
    ensures Reaches(Started(c, true, true), es, w)
    ensures ReadyForRemoval(w.conn) && w.conn.up.sendPosted.Some?
  {
    var start := Started(c, true, true);
    var before, v := ReachLateFailure(c);
    var u := TakeStep(start, before, v, ReadFailed(true));
    es := before + [ReadFailed(true)];
    w := TakeStep(start, es, u, ReadFailed(false));
    es := es + [ReadFailed(false)];
  }
}
