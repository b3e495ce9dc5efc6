/** The filter object: the critical sections of its four threads, and its start and stop. */
module QueuedPacketFilter {
  import opened Basics
  import opened PacketPipeline

  class PacketFilter {
    const callbacks: Callbacks
    var state: FilterState
    var readQueue: seq<Block>
    var processQueue: seq<Block>
    var mstcpQueue: seq<Block>
    var adapterQueue: seq<Block>
    // The blocks that the threads own between their critical sections.
    var reader: Thread
    var processor: Thread
    var mstcpWriter: Thread
    var adapterWriter: Thread
    // What the driver has handed out and been given since the last start.
    ghost var read: seq<Packet>
    ghost var routed: seq<(Packet, Action)>
    ghost var sentToMstcp: seq<Packet>
    ghost var sentToAdapter: seq<Packet>

    ghost function State(): Filter
      reads this
    {
      Filter(state, readQueue, processQueue, mstcpQueue, adapterQueue,
             reader, processor, mstcpWriter, adapterWriter, read, routed, sentToMstcp, sentToAdapter)
    }

    constructor (callbacks: Callbacks)
      ensures this.callbacks == callbacks
      ensures State() == Filter(Stopped, [], [], [], [], NotStarted, NotStarted, NotStarted, NotStarted, [], [], [], [])
    {
      this.callbacks := callbacks;
      state := Stopped;
      readQueue, processQueue, mstcpQueue, adapterQueue := [], [], [], [];
      reader, processor, mstcpWriter, adapterWriter := NotStarted, NotStarted, NotStarted, NotStarted;
      read, routed, sentToMstcp, sentToAdapter := [], [], [], [];
    }

    /** `created` blocks can be allocated; `eventSet` is the driver's answer to set_packet_event. */
    method InitFilter(created: nat, eventSet: bool) returns (ok: bool)
      requires created <= MAXIMUM_BLOCK_NUM
      modifies this`readQueue
      ensures ok <==> created == MAXIMUM_BLOCK_NUM && eventSet
      ensures readQueue ==
              if created == MAXIMUM_BLOCK_NUM && !eventSet then [] else old(readQueue) + NewBlocks(created)
    {
      for i := 0 to MAXIMUM_BLOCK_NUM
        invariant i <= created
        invariant readQueue == old(readQueue) + NewBlocks(i)
      {
        if i == created {
          return false;
        }
        assert NewBlocks(i + 1) == NewBlocks(i) + [NewBlock(i)];
        readQueue := readQueue + [NewBlock(i)];
      }
      if !eventSet {
        while readQueue != []
          decreases |readQueue|
        {
          readQueue := readQueue[1..];
        }
        return false;
      }
      ok := true;
    }

    method StartFilter(created: nat, eventSet: bool) returns (ok: bool)
      requires created <= MAXIMUM_BLOCK_NUM
      modifies this
      ensures ok <==> old(state) == Stopped && created == MAXIMUM_BLOCK_NUM && eventSet
      ensures State() ==
              if old(state) != Stopped then old(State())
              else if ok then Step(old(State()), Start, callbacks)
              else Step(old(State()), FailStart(created, created == MAXIMUM_BLOCK_NUM), callbacks)
    {
      if state != Stopped {
        return false;
      }
      state := Starting;
      ok := InitFilter(created, eventSet);
      if ok {
        state := Running;
        StartThreads();
      }
    }

    /** stop_filter up to the point where it waits for the threads. */
    method BeginStopFilter() returns (ok: bool)
      modifies this`state
      ensures ok <==> old(state) == Running
      ensures State() == if ok then Step(old(State()), BeginStop, callbacks) else old(State())
    {
      if state != Running {
        return false;
      }
      state := Stopping;
      ok := true;
    }

    /** release_filter once the four threads have been joined, and the end of stop_filter. */
    method FinishStopFilter()
      requires Enabled(State(), FinishStop)
      modifies this
      ensures State() == Step(old(State()), FinishStop, callbacks)
    {
      JoinThreads();
      readQueue := Drain(readQueue);
      processQueue := Drain(processQueue);
      mstcpQueue := Drain(mstcpQueue);
      adapterQueue := Drain(adapterQueue);
      state := Stopped;
    }

    method JoinThreads()
      modifies this`reader, this`processor, this`mstcpWriter, this`adapterWriter
      ensures reader == processor == mstcpWriter == adapterWriter == NotStarted
    {
      reader, processor, mstcpWriter, adapterWriter := NotStarted, NotStarted, NotStarted, NotStarted;
    }

    /** The four thread objects are created, and a new session of the driver begins. */
    method StartThreads()
      modifies this`reader, this`processor, this`mstcpWriter, this`adapterWriter
      modifies this`read, this`routed, this`sentToMstcp, this`sentToAdapter
      ensures reader == processor == mstcpWriter == adapterWriter == Idle
      ensures read == [] && routed == [] && sentToMstcp == [] && sentToAdapter == []
    {
      reader, processor, mstcpWriter, adapterWriter := Idle, Idle, Idle, Idle;
      read, routed, sentToMstcp, sentToAdapter := [], [], [], [];
    }

    static method Drain(queue: seq<Block>) returns (rest: seq<Block>)
      ensures rest == []
    {
      rest := queue;
      while rest != []
        decreases |rest|
      {
        rest := rest[1..];
      }
    }

    // -- packet_read_thread --

    method TakeForReading()
      requires Enabled(State(), ReadTake)
      modifies this`reader, this`readQueue
      ensures State() == Step(old(State()), ReadTake, callbacks)
    {
      reader := Taken(readQueue[0]);
      readQueue := readQueue[1..];
    }

    /** ReadPackets succeeded with `packets`. */
    method PacketsRead(packets: seq<Packet>)
      requires Enabled(State(), ReadDone(packets))
      modifies this`reader, this`read
      ensures State() == Step(old(State()), ReadDone(packets), callbacks)
    {
      reader := Worked(reader.block.(buffer := packets, success := |packets|));
      read := read + packets;
    }

    method PushRead()
      requires Enabled(State(), ReadPush)
      modifies this`reader, this`processQueue
      ensures State() == Step(old(State()), ReadPush, callbacks)
    {
      processQueue := processQueue + [reader.block];
      reader := Idle;
    }

    // -- packet_process_thread --

    method TakeForProcessing()
      requires Enabled(State(), ProcessTake)
      modifies this`processor, this`processQueue
      ensures State() == Step(old(State()), ProcessTake, callbacks)
    {
      processor := Taken(processQueue[0]);
      processQueue := processQueue[1..];
    }

    /** The routing of the i-th packet of a block. */
    method RoutePacket(b: Block, i: nat, answer: Action) returns (b': Block)
      requires i < |b.buffer|
      ensures var action := Decide(b.buffer[i], answer, callbacks);
              b' == b.(toAdapter := b.toAdapter + (if GoesTo(b.buffer[i], action, Adapter) then [i] else []),
                       toMstcp := b.toMstcp + (if GoesTo(b.buffer[i], action, Mstcp) then [i] else []))
    {
      b' := b;
      var action := Pass;
      if b.buffer[i].flags == PACKET_FLAG_ON_SEND {
        if callbacks.outgoing {
          action := answer;
        }
      } else {
        if callbacks.incoming {
          action := answer;
        }
      }
      if action == Pass {
        if b.buffer[i].flags == PACKET_FLAG_ON_SEND {
          b' := b.(toAdapter := b.toAdapter + [i]);
        } else {
          b' := b.(toMstcp := b.toMstcp + [i]);
        }
      } else if action == Revert {
        if b.buffer[i].flags == PACKET_FLAG_ON_RECEIVE {
          b' := b.(toAdapter := b.toAdapter + [i]);
        } else {
          b' := b.(toMstcp := b.toMstcp + [i]);
        }
      }
    }

    /** The routing loop; `answers` are what the callbacks would return for the packets of the block. */
    method ProcessBlock(answers: seq<Action>)
      requires Enabled(State(), ProcessRoute(answers))
      modifies this`processor, this`routed
      ensures State() == Step(old(State()), ProcessRoute(answers), callbacks)
    {
      var b := processor.block;
      ghost var b0 := b;
      var i := 0;
      while i < b.success
        modifies {}
        invariant 0 <= i <= b0.success
        invariant b == b0.(toAdapter := b0.toAdapter + Targets(b0.buffer, answers, callbacks, i, Adapter),
                           toMstcp := b0.toMstcp + Targets(b0.buffer, answers, callbacks, i, Mstcp))
      {
        b := RoutePacket(b, i, answers[i]);
        i := i + 1;
      }
      routed := routed + Decisions(b.buffer, answers, callbacks, b.success);
      b := b.(success := 0);
      processor := Worked(b);
    }

    method PushProcessed()
      requires Enabled(State(), ProcessPush)
      modifies this`processor, this`mstcpQueue
      ensures State() == Step(old(State()), ProcessPush, callbacks)
    {
      mstcpQueue := mstcpQueue + [processor.block];
      processor := Idle;
    }

    // -- packet_write_mstcp_thread --

    method TakeForMstcp()
      requires Enabled(State(), MstcpTake)
      modifies this`mstcpWriter, this`mstcpQueue
      ensures State() == Step(old(State()), MstcpTake, callbacks)
    {
      mstcpWriter := Taken(mstcpQueue[0]);
      mstcpQueue := mstcpQueue[1..];
    }

    method SendPacketsToMstcp()
      requires Enabled(State(), MstcpSend)
      modifies this`mstcpWriter, this`sentToMstcp
      ensures State() == Step(old(State()), MstcpSend, callbacks)
    {
      var b := mstcpWriter.block;
      if |b.toMstcp| != 0 {
        sentToMstcp := sentToMstcp + Submitted(b, b.toMstcp);
        b := b.(toMstcp := []);
      }
      mstcpWriter := Worked(b);
    }

    method PushToAdapterQueue()
      requires Enabled(State(), MstcpPush)
      modifies this`mstcpWriter, this`adapterQueue
      ensures State() == Step(old(State()), MstcpPush, callbacks)
    {
      adapterQueue := adapterQueue + [mstcpWriter.block];
      mstcpWriter := Idle;
    }

    // -- packet_write_adapter_thread --

    method TakeForAdapter()
      requires Enabled(State(), AdapterTake)
      modifies this`adapterWriter, this`adapterQueue
      ensures State() == Step(old(State()), AdapterTake, callbacks)
    {
      adapterWriter := Taken(adapterQueue[0]);
      adapterQueue := adapterQueue[1..];
    }

    method SendPacketsToAdapter()
      requires Enabled(State(), AdapterSend)
      modifies this`adapterWriter, this`sentToAdapter
      ensures State() == Step(old(State()), AdapterSend, callbacks)
    {
      var b := adapterWriter.block;
      if |b.toAdapter| != 0 {
        sentToAdapter := sentToAdapter + Submitted(b, b.toAdapter);
        b := b.(toAdapter := []);
      }
      adapterWriter := Worked(b);
    }

    method Recycle()
      requires Enabled(State(), AdapterPush)
      modifies this`adapterWriter, this`readQueue
      ensures State() == Step(old(State()), AdapterPush, callbacks)
    {
      readQueue := readQueue + [adapterWriter.block];
      adapterWriter := Idle;
    }

    // -- one undisturbed round of each thread --

    method ReadRound(packets: seq<Packet>)
      requires Enabled(State(), ReadTake) && |packets| <= MAXIMUM_PACKET_BLOCK
      modifies this`reader, this`readQueue, this`read, this`processQueue
      ensures reader == Idle && readQueue == old(readQueue)[1..] && read == old(read) + packets
      ensures processQueue == old(processQueue) + [old(readQueue[0]).(buffer := packets, success := |packets|)]
    {
      TakeForReading();
      PacketsRead(packets);
      PushRead();
    }

    method ProcessRound(answers: seq<Action>)
      requires Enabled(State(), ProcessTake)
      requires |answers| == processQueue[0].success <= |processQueue[0].buffer|
      modifies this`processor, this`processQueue, this`routed, this`mstcpQueue
      ensures var b := old(processQueue[0]);
              && processor == Idle && processQueue == old(processQueue)[1..]
              && mstcpQueue == old(mstcpQueue) + [Route(b, answers, callbacks)]
              && routed == old(routed) + Decisions(b.buffer, answers, callbacks, b.success)
    {
      TakeForProcessing();
      ProcessBlock(answers);
      PushProcessed();
    }

    method MstcpRound()
      requires Enabled(State(), MstcpTake) && Requests(mstcpQueue[0])
      modifies this`mstcpWriter, this`mstcpQueue, this`sentToMstcp, this`adapterQueue
      ensures var b := old(mstcpQueue[0]);
              && mstcpWriter == Idle && mstcpQueue == old(mstcpQueue)[1..]
              && adapterQueue == old(adapterQueue) + [b.(toMstcp := [])]
              && sentToMstcp == old(sentToMstcp) + Submitted(b, b.toMstcp)
    {
      TakeForMstcp();
      SendPacketsToMstcp();
      PushToAdapterQueue();
    }

    method AdapterRound()
      requires Enabled(State(), AdapterTake) && Requests(adapterQueue[0])
      modifies this`adapterWriter, this`adapterQueue, this`sentToAdapter, this`readQueue
      ensures var b := old(adapterQueue[0]);
              && adapterWriter == Idle && adapterQueue == old(adapterQueue)[1..]
              && readQueue == old(readQueue) + [b.(toAdapter := [])]
              && sentToAdapter == old(sentToAdapter) + Submitted(b, b.toAdapter)
    {
      TakeForAdapter();
      SendPacketsToAdapter();
      Recycle();
    }
  }
}
