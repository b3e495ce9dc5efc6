/**
  The four-thread packet pipeline: what each critical section of the read, process and two write
  threads does to the four queues and to the block the thread holds.
 */
module PacketPipeline {
  import opened Basics

  const MAXIMUM_PACKET_BLOCK := 510
  const MAXIMUM_BLOCK_NUM := 10
  const PACKET_FLAG_ON_SEND := 1
  const PACKET_FLAG_ON_RECEIVE := 2

  datatype Action = Pass | Drop | Revert

  /** A packet as read from the driver: which one it is, and its m_dwDeviceFlags. */
  datatype Packet = Packet(id: nat, flags: nat)

  /**
    A packet_block: its buffers, dwPacketsSuccess of the read request, and the two write requests as
    the buffer indices they point to (dwPacketsNumber is the length).
   */
  datatype Block = Block(id: nat, buffer: seq<Packet>, success: nat, toAdapter: seq<nat>, toMstcp: seq<nat>)

  /** The two callbacks; a null one passes every packet of its direction. */
  datatype Callbacks = Callbacks(incoming: bool, outgoing: bool)

  datatype FilterState = Stopped | Starting | Running | Stopping

  /** A thread between critical sections: at the head of its loop, with a block to work on, or with one to push. */
  datatype Thread = NotStarted | Idle | Taken(block: Block) | Worked(block: Block) | Exited

  /** The filter, and what the driver has handed out and been given since the last start. */
  datatype Filter = Filter(
    state: FilterState,
    readQueue: seq<Block>,
    processQueue: seq<Block>,
    mstcpQueue: seq<Block>,
    adapterQueue: seq<Block>,
    reader: Thread,
    processor: Thread,
    mstcpWriter: Thread,
    adapterWriter: Thread,
    read: seq<Packet>,
    routed: seq<(Packet, Action)>,
    sentToMstcp: seq<Packet>,
    sentToAdapter: seq<Packet>)

  // ---------------------------------------------------------------------------------
  // Routing
  // ---------------------------------------------------------------------------------

  /** The action taken on a packet when the callback of its direction, if any, gives `answer`. */
  function Decide(p: Packet, answer: Action, callbacks: Callbacks): Action {
    if p.flags == PACKET_FLAG_ON_SEND then
      if callbacks.outgoing then answer else Pass
    else
      if callbacks.incoming then answer else Pass
  }

  datatype Side = Adapter | Mstcp

  predicate GoesTo(p: Packet, action: Action, side: Side) {
    match action
    case Pass => (side == Adapter) == (p.flags == PACKET_FLAG_ON_SEND)
    case Revert => (side == Adapter) == (p.flags == PACKET_FLAG_ON_RECEIVE)
    case Drop => false
  }

  /** The packets of a decision log that go to one side, in order. */
  function Routed(log: seq<(Packet, Action)>, side: Side): seq<Packet> {
    if log == [] then []
    else Routed(DropLast(log), side) + (if GoesTo(Last(log).0, Last(log).1, side) then [Last(log).0] else [])
  }

  function Packets(log: seq<(Packet, Action)>): seq<Packet> {
    seq(|log|, i requires 0 <= i < |log| => log[i].0)
  }

  /** The decisions on the first n packets of a buffer. */
  function Decisions(buffer: seq<Packet>, answers: seq<Action>, callbacks: Callbacks, n: nat): seq<(Packet, Action)>
    requires n <= |buffer| && n <= |answers|
  {
    seq(n, i requires 0 <= i < n => (buffer[i], Decide(buffer[i], answers[i], callbacks)))
  }

  /** The buffer indices below n that go to one side, in order. */
  function Targets(buffer: seq<Packet>, answers: seq<Action>, callbacks: Callbacks, n: nat, side: Side)
    : (indices: seq<nat>)
    requires n <= |buffer| && n <= |answers|
    ensures |indices| <= n && forall i :: 0 <= i < |indices| ==> indices[i] < n
  {
    if n == 0 then []
    else
      Targets(buffer, answers, callbacks, n - 1, side)
      + (if GoesTo(buffer[n - 1], Decide(buffer[n - 1], answers[n - 1], callbacks), side) then [n - 1] else [])
  }

  /** The process thread's work on one block. */
  function Route(b: Block, answers: seq<Action>, callbacks: Callbacks): Block
    requires b.success <= |b.buffer| && b.success <= |answers|
  {
    b.(success := 0,
       toAdapter := b.toAdapter + Targets(b.buffer, answers, callbacks, b.success, Adapter),
       toMstcp := b.toMstcp + Targets(b.buffer, answers, callbacks, b.success, Mstcp))
  }

  // ---------------------------------------------------------------------------------
  // Steps
  // ---------------------------------------------------------------------------------

  datatype Event =
    | Start
    | FailStart(created: nat, eventRefused: bool)
    | BeginStop
    | FinishStop
    | ReadTake | ReadDone(packets: seq<Packet>) | ReadGivenUp | ReadPush | ReadExit
    | ProcessTake | ProcessRoute(answers: seq<Action>) | ProcessPush | ProcessExit
    | MstcpTake | MstcpSend | MstcpPush | MstcpExit
    | AdapterTake | AdapterSend | AdapterPush | AdapterExit

  function NewBlock(id: nat): Block {
    Block(id, [], 0, [], [])
  }

  function NewBlocks(n: nat): seq<Block> {
    seq(n, i requires 0 <= i < n => NewBlock(i))
  }

  /** The packets of a write request. */
  function Submitted(b: Block, indices: seq<nat>): seq<Packet>
    requires forall i :: 0 <= i < |indices| ==> indices[i] < |b.buffer|
  {
    seq(|indices|, i requires 0 <= i < |indices| => b.buffer[indices[i]])
  }

  predicate Requests(b: Block) {
    && (forall i :: 0 <= i < |b.toAdapter| ==> b.toAdapter[i] < |b.buffer|)
    && (forall i :: 0 <= i < |b.toMstcp| ==> b.toMstcp[i] < |b.buffer|)
  }

  /** Threads exist only while the filter runs or is being stopped. */
  predicate Live(f: Filter) {
    f.state == Running || f.state == Stopping
  }

  predicate Enabled(f: Filter, e: Event) {
    match e
    case Start => f.state == Stopped
    case FailStart(n, _) => f.state == Stopped && n <= MAXIMUM_BLOCK_NUM
    case BeginStop => f.state == Running
    case FinishStop =>
      && f.state == Stopping
      && f.reader == Exited && f.processor == Exited && f.mstcpWriter == Exited && f.adapterWriter == Exited
    case ReadTake => Live(f) && f.reader == Idle && f.readQueue != []
    case ReadDone(packets) => Live(f) && f.reader.Taken? && |packets| <= MAXIMUM_PACKET_BLOCK
    case ReadGivenUp => f.state == Stopping && f.reader.Taken?
    case ReadPush => Live(f) && f.reader.Worked?
    case ReadExit => f.state == Stopping && f.reader == Idle
    case ProcessTake => Live(f) && f.processor == Idle && f.processQueue != []
    case ProcessRoute(answers) =>
      Live(f) && f.processor.Taken? && |answers| == f.processor.block.success <= |f.processor.block.buffer|
    case ProcessPush => Live(f) && f.processor.Worked?
    case ProcessExit => f.state == Stopping && f.processor == Idle
    case MstcpTake => Live(f) && f.mstcpWriter == Idle && f.mstcpQueue != []
    case MstcpSend => Live(f) && f.mstcpWriter.Taken? && Requests(f.mstcpWriter.block)
    case MstcpPush => Live(f) && f.mstcpWriter.Worked?
    case MstcpExit => f.state == Stopping && f.mstcpWriter == Idle
    case AdapterTake => Live(f) && f.adapterWriter == Idle && f.adapterQueue != []
    case AdapterSend => Live(f) && f.adapterWriter.Taken? && Requests(f.adapterWriter.block)
    case AdapterPush => Live(f) && f.adapterWriter.Worked?
    case AdapterExit => f.state == Stopping && f.adapterWriter == Idle
  }

  function Step(f: Filter, e: Event, callbacks: Callbacks): Filter
    requires Enabled(f, e)
  {
    match e
    case Start =>
      Filter(Running, f.readQueue + NewBlocks(MAXIMUM_BLOCK_NUM), f.processQueue, f.mstcpQueue, f.adapterQueue,
             Idle, Idle, Idle, Idle, [], [], [], [])
    case FailStart(n, eventRefused) =>
      f.(state := Starting, readQueue := if eventRefused then [] else f.readQueue + NewBlocks(n))
    case BeginStop => f.(state := Stopping)
    case FinishStop =>
      f.(state := Stopped, readQueue := [], processQueue := [], mstcpQueue := [], adapterQueue := [],
         reader := NotStarted, processor := NotStarted, mstcpWriter := NotStarted, adapterWriter := NotStarted)
    case ReadTake => f.(reader := Taken(f.readQueue[0]), readQueue := f.readQueue[1..])
    case ReadDone(packets) =>
      f.(reader := Worked(f.reader.block.(buffer := packets, success := |packets|)), read := f.read + packets)
    case ReadGivenUp => f.(reader := Worked(f.reader.block))
    case ReadPush => f.(reader := Idle, processQueue := f.processQueue + [f.reader.block])
    case ReadExit => f.(reader := Exited)
    case ProcessTake => f.(processor := Taken(f.processQueue[0]), processQueue := f.processQueue[1..])
    case ProcessRoute(answers) =>
      var b := f.processor.block;
      f.(processor := Worked(Route(b, answers, callbacks)),
         routed := f.routed + Decisions(b.buffer, answers, callbacks, b.success))
    case ProcessPush => f.(processor := Idle, mstcpQueue := f.mstcpQueue + [f.processor.block])
    case ProcessExit => f.(processor := Exited)
    case MstcpTake => f.(mstcpWriter := Taken(f.mstcpQueue[0]), mstcpQueue := f.mstcpQueue[1..])
    case MstcpSend =>
      var b := f.mstcpWriter.block;
      f.(mstcpWriter := Worked(b.(toMstcp := [])), sentToMstcp := f.sentToMstcp + Submitted(b, b.toMstcp))
    case MstcpPush => f.(mstcpWriter := Idle, adapterQueue := f.adapterQueue + [f.mstcpWriter.block])
    case MstcpExit => f.(mstcpWriter := Exited)
    case AdapterTake => f.(adapterWriter := Taken(f.adapterQueue[0]), adapterQueue := f.adapterQueue[1..])
    case AdapterSend =>
      var b := f.adapterWriter.block;
      f.(adapterWriter := Worked(b.(toAdapter := [])), sentToAdapter := f.sentToAdapter + Submitted(b, b.toAdapter))
    case AdapterPush => f.(adapterWriter := Idle, readQueue := f.readQueue + [f.adapterWriter.block])
    case AdapterExit => f.(adapterWriter := Exited)
  }
}
