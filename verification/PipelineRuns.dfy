/** Runs of the pipeline: blocks are conserved and packets are routed once and in order. */
module PipelineRuns {
  import opened Basics
  import opened PacketPipeline

  // ---------------------------------------------------------------------------------
  // The line of blocks
  // ---------------------------------------------------------------------------------

  function TakenBy(t: Thread): seq<Block> {
    if t.Taken? then [t.block] else []
  }

  function WorkedBy(t: Thread): seq<Block> {
    if t.Worked? then [t.block] else []
  }

  /** The blocks by what has been done to them, each group the one furthest through first. */
  datatype Stages = Stages(
    empty: seq<Block>,
    inbound: seq<Block>,
    outbound: seq<Block>,
    halfSent: seq<Block>,
    sent: seq<Block>)

  function StagesOf(f: Filter): Stages {
    Stages(
      TakenBy(f.reader) + f.readQueue,
      TakenBy(f.processor) + f.processQueue + WorkedBy(f.reader),
      TakenBy(f.mstcpWriter) + f.mstcpQueue + WorkedBy(f.processor),
      TakenBy(f.adapterWriter) + f.adapterQueue + WorkedBy(f.mstcpWriter),
      WorkedBy(f.adapterWriter))
  }

  /** All blocks in the four queues and in the hands of the threads. */
  function Line(s: Stages): seq<Block> {
    s.sent + s.halfSent + s.outbound + s.inbound + s.empty
  }

  /** What a block carries towards the process thread or towards one side. */
  datatype Lane = Inbound | Towards(side: Side)

  function Content(b: Block, lane: Lane): seq<Packet>
    requires Requests(b) && b.success <= |b.buffer|
  {
    match lane
    case Inbound => b.buffer[..b.success]
    case Towards(Adapter) => Submitted(b, b.toAdapter)
    case Towards(Mstcp) => Submitted(b, b.toMstcp)
  }

  predicate WellFormed(b: Block) {
    && |b.buffer| <= MAXIMUM_PACKET_BLOCK
    && b.success <= |b.buffer|
    && Requests(b)
    && |b.toAdapter| <= |b.buffer| && |b.toMstcp| <= |b.buffer|
  }

  predicate AllWellFormed(blocks: seq<Block>) {
    forall i :: 0 <= i < |blocks| ==> WellFormed(blocks[i])
  }

  function Flat(blocks: seq<Block>, lane: Lane): seq<Packet>
    requires AllWellFormed(blocks)
  {
    if blocks == [] then [] else Content(blocks[0], lane) + Flat(blocks[1..], lane)
  }

  lemma FlatConcat(a: seq<Block>, b: seq<Block>, lane: Lane)
    requires AllWellFormed(a) && AllWellFormed(b)
    ensures AllWellFormed(a + b)
    ensures Flat(a + b, lane) == Flat(a, lane) + Flat(b, lane)
  {
    FlatOf(a + b, a, b, lane);
  }

  lemma {:induction false} FlatOf(whole: seq<Block>, a: seq<Block>, b: seq<Block>, lane: Lane)
    requires AllWellFormed(a) && AllWellFormed(b) && whole == a + b
    ensures AllWellFormed(whole) && Flat(whole, lane) == Flat(a, lane) + Flat(b, lane)
  {
    if a == [] {
      assert whole == b;
    } else {
      assert whole[0] == a[0] && whole[1..] == a[1..] + b;
      FlatOf(whole[1..], a[1..], b, lane);
      Assoc(Content(a[0], lane), Flat(a[1..], lane), Flat(b, lane));
    }
  }

  predicate Carries(b: Block, lane: Lane) {
    match lane
    case Inbound => b.success > 0
    case Towards(Adapter) => b.toAdapter != []
    case Towards(Mstcp) => b.toMstcp != []
  }

  /** No block carries anything in a lane. */
  predicate Clear(blocks: seq<Block>, lane: Lane) {
    forall i :: 0 <= i < |blocks| ==> !Carries(blocks[i], lane)
  }

  // ---------------------------------------------------------------------------------
  // The invariant
  // ---------------------------------------------------------------------------------

  /** The blocks keep the cyclic order in which they were created; in particular all ten are distinct. */
  predicate Cyclic(line: seq<Block>) {
    && |line| == MAXIMUM_BLOCK_NUM
    && line[0].id < MAXIMUM_BLOCK_NUM
    && forall i :: 0 <= i < |line| ==> line[i].id == (line[0].id + i) % MAXIMUM_BLOCK_NUM
  }

  predicate ClearWhereDone(s: Stages) {
    && Clear(s.empty, Inbound) && Clear(s.empty, Towards(Adapter)) && Clear(s.empty, Towards(Mstcp))
    && Clear(s.inbound, Towards(Adapter)) && Clear(s.inbound, Towards(Mstcp))
    && Clear(s.outbound, Inbound)
    && Clear(s.halfSent, Inbound) && Clear(s.halfSent, Towards(Mstcp))
    && Clear(s.sent, Inbound) && Clear(s.sent, Towards(Adapter)) && Clear(s.sent, Towards(Mstcp))
  }

  predicate StagesWellFormed(s: Stages) {
    && AllWellFormed(s.empty) && AllWellFormed(s.inbound) && AllWellFormed(s.outbound)
    && AllWellFormed(s.halfSent) && AllWellFormed(s.sent)
  }

  /** Every packet read is accounted for: decided or inbound, and once decided for a side, sent there or on its way. */
  predicate Accounted(f: Filter, s: Stages)
    requires StagesWellFormed(s)
  {
    && f.read == Packets(f.routed) + Flat(s.inbound, Inbound)
    && Routed(f.routed, Mstcp) == f.sentToMstcp + Flat(s.outbound, Towards(Mstcp))
    && Routed(f.routed, Adapter)
       == f.sentToAdapter + Flat(s.halfSent, Towards(Adapter)) + Flat(s.outbound, Towards(Adapter))
  }

  predicate StageInv(s: Stages, f: Filter) {
    Cyclic(Line(s)) && StagesWellFormed(s) && ClearWhereDone(s) && Accounted(f, s)
  }

  predicate Inv(f: Filter) {
    if Live(f) then
      StageInv(StagesOf(f), f)
    else
      && f.reader == f.processor == f.mstcpWriter == f.adapterWriter == NotStarted
      && f.processQueue == f.mstcpQueue == f.adapterQueue == []
      && (f.state == Stopped ==> f.readQueue == [])
  }

  // ---------------------------------------------------------------------------------
  // Steps seen as moves between stages
  // ---------------------------------------------------------------------------------

  lemma FirstAndRest(q: seq<Block>)
    requires q != []
    ensures [q[0]] + q[1..] == [] + q
  {
  }

  lemma TakeKeepsStages(f: Filter, e: Event, callbacks: Callbacks)
    requires Enabled(f, e) && (e.ReadTake? || e.ProcessTake? || e.MstcpTake? || e.AdapterTake?)
    ensures StagesOf(Step(f, e, callbacks)) == StagesOf(f)
  {
    if e.ReadTake? { FirstAndRest(f.readQueue); }
    else if e.ProcessTake? { FirstAndRest(f.processQueue); }
    else if e.MstcpTake? { FirstAndRest(f.mstcpQueue); }
    else { FirstAndRest(f.adapterQueue); }
  }

  lemma PushKeepsStages(f: Filter, e: Event, callbacks: Callbacks)
    requires Enabled(f, e) && (e.ReadPush? || e.ProcessPush? || e.MstcpPush?)
    ensures StagesOf(Step(f, e, callbacks)) == StagesOf(f)
  {
    var f' := Step(f, e, callbacks);
    var s, s' := StagesOf(f), StagesOf(f');
    if e.ReadPush? {
      assert s'.inbound == s.inbound && s'.empty == s.empty;
    } else if e.ProcessPush? {
      assert s'.outbound == s.outbound && s'.inbound == s.inbound;
    } else {
      assert s'.halfSent == s.halfSent && s'.outbound == s.outbound;
    }
  }

  /** Taking a block from a queue and pushing it to the next one moves nothing between stages. */
  lemma HandOverKeepsStages(f: Filter, e: Event, callbacks: Callbacks)
    requires Enabled(f, e)
    requires e.ReadTake? || e.ReadPush? || e.ProcessTake? || e.ProcessPush?
             || e.MstcpTake? || e.MstcpPush? || e.AdapterTake?
    ensures StagesOf(Step(f, e, callbacks)) == StagesOf(f)
  {
    if e.ReadPush? || e.ProcessPush? || e.MstcpPush? { PushKeepsStages(f, e, callbacks); }
    else { TakeKeepsStages(f, e, callbacks); }
  }

  lemma RoutedConcat(a: seq<(Packet, Action)>, b: seq<(Packet, Action)>, side: Side)
    ensures Routed(a + b, side) == Routed(a, side) + Routed(b, side)
  {
    if b == [] {
      assert a + b == a;
    } else {
      RoutedConcat(a, DropLast(b), side);
      assert DropLast(a + b) == a + DropLast(b);
    }
  }

  /** The write request built for a side points at exactly the packets decided for it. */
  lemma {:induction false} TargetsAreRouted(b: Block, answers: seq<Action>, callbacks: Callbacks, n: nat, side: Side)
    requires n <= |b.buffer| && n <= |answers|
    ensures Submitted(b, Targets(b.buffer, answers, callbacks, n, side))
         == Routed(Decisions(b.buffer, answers, callbacks, n), side)
  {
    if n > 0 {
      TargetsAreRouted(b, answers, callbacks, n - 1, side);
      assert DropLast(Decisions(b.buffer, answers, callbacks, n)) == Decisions(b.buffer, answers, callbacks, n - 1);
    }
  }

  /** The first block of one stage joins the end of the next, keeping its identity. */
  lemma LineMove(a: seq<Block>, to: seq<Block>, from: seq<Block>, c: seq<Block>, b: Block)
    requires from != [] && b.id == from[0].id && Cyclic(a + to + from + c)
    ensures Cyclic(a + (to + [b]) + from[1..] + c)
  {
    var line := a + to + from + c;
    assert a + (to + [b]) + from[1..] + c == line[|a| + |to| := b];
    CyclicUpdate(line, |a| + |to|, b);
  }

  lemma CyclicUpdate(line: seq<Block>, k: nat, b: Block)
    requires Cyclic(line) && k < |line| && b.id == line[k].id
    ensures Cyclic(line[k := b])
  {
  }

  lemma CyclicRotate(line: seq<Block>)
    requires Cyclic(line)
    ensures Cyclic(line[1..] + line[..1])
  {
    var rotated, first := line[1..] + line[..1], line[0].id;
    assert rotated[0].id == if first == MAXIMUM_BLOCK_NUM - 1 then 0 else first + 1;
    forall i | 0 <= i < |rotated| ensures rotated[i].id == (rotated[0].id + i) % MAXIMUM_BLOCK_NUM {
      assert rotated[i] == if i == |line| - 1 then line[0] else line[i + 1];
    }
  }

  lemma FlatSnoc(blocks: seq<Block>, b: Block, lane: Lane)
    requires AllWellFormed(blocks) && WellFormed(b)
    ensures AllWellFormed(blocks + [b]) && Flat(blocks + [b], lane) == Flat(blocks, lane) + Content(b, lane)
  {
    assert [b][1..] == [];
    assert Flat([b], lane) == Content(b, lane) + [];
    FlatConcat(blocks, [b], lane);
  }

  lemma FlatHead(blocks: seq<Block>, lane: Lane)
    requires AllWellFormed(blocks) && blocks != []
    ensures WellFormed(blocks[0]) && AllWellFormed(blocks[1..])
    ensures Flat(blocks, lane) == Content(blocks[0], lane) + Flat(blocks[1..], lane)
  {
  }

  lemma ClearTail(blocks: seq<Block>, lane: Lane)
    requires blocks != [] && Clear(blocks, lane)
    ensures Clear(blocks[1..], lane) && !Carries(blocks[0], lane)
  {
  }

  lemma ClearSnoc(blocks: seq<Block>, b: Block, lane: Lane)
    requires Clear(blocks, lane) && !Carries(b, lane)
    ensures Clear(blocks + [b], lane)
  {
  }

  lemma ReadMoves(s: Stages, f: Filter, packets: seq<Packet>, b: Block)
    requires StageInv(s, f) && s.empty != []
    requires |packets| <= MAXIMUM_PACKET_BLOCK
    requires b == s.empty[0].(buffer := packets, success := |packets|) || (b == s.empty[0] && packets == [])
    ensures StageInv(s.(empty := s.empty[1..], inbound := s.inbound + [b]), f.(read := f.read + packets))
  {
    var s' := s.(empty := s.empty[1..], inbound := s.inbound + [b]);
    ClearTail(s.empty, Inbound);
    ClearTail(s.empty, Towards(Adapter));
    ClearTail(s.empty, Towards(Mstcp));
    ClearSnoc(s.inbound, b, Towards(Adapter));
    ClearSnoc(s.inbound, b, Towards(Mstcp));
    FlatSnoc(s.inbound, b, Inbound);
    assert Content(b, Inbound) == packets;
    assert Line(s) == s.sent + s.halfSent + s.outbound + s.inbound + s.empty + [];
    LineMove(s.sent + s.halfSent + s.outbound, s.inbound, s.empty, [], b);
    assert Line(s') == s.sent + s.halfSent + s.outbound + (s.inbound + [b]) + s.empty[1..] + [];
  }

  lemma ReadStages(f: Filter, e: Event, callbacks: Callbacks)
    requires Enabled(f, e) && (e.ReadDone? || e.ReadGivenUp?)
    ensures var s, f' := StagesOf(f), Step(f, e, callbacks);
            && s.empty != [] && s.empty[0] == f.reader.block && f'.reader.Worked?
            && StagesOf(f') == s.(empty := s.empty[1..], inbound := s.inbound + [f'.reader.block])
  {
    var f' := Step(f, e, callbacks);
    var s, s' := StagesOf(f), StagesOf(f');
    assert s'.empty == s.empty[1..] && s'.inbound == s.inbound + [f'.reader.block];
  }

  lemma ReadKeepsInv(f: Filter, e: Event, callbacks: Callbacks)
    requires Inv(f) && Enabled(f, e) && (e.ReadDone? || e.ReadGivenUp?)
    ensures Inv(Step(f, e, callbacks))
  {
    ReadStages(f, e, callbacks);
    var f' := Step(f, e, callbacks);
    var packets := if e.ReadDone? then e.packets else [];
    assert f'.read == f.read + packets;
    ReadMoves(StagesOf(f), f, packets, f'.reader.block);
  }

  lemma RouteLogs(b: Block, log: seq<(Packet, Action)>, answers: seq<Action>, callbacks: Callbacks)
    requires WellFormed(b) && b.toAdapter == [] && b.toMstcp == [] && |answers| == b.success
    requires log == Decisions(b.buffer, answers, callbacks, b.success)
    ensures var b' := Route(b, answers, callbacks);
            && WellFormed(b') && !Carries(b', Inbound)
            && Content(b', Towards(Adapter)) == Routed(log, Adapter)
            && Content(b', Towards(Mstcp)) == Routed(log, Mstcp)
    ensures Packets(log) == Content(b, Inbound)
  {
    TargetsAreRouted(b, answers, callbacks, b.success, Adapter);
    TargetsAreRouted(b, answers, callbacks, b.success, Mstcp);
  }

  lemma RouteKeepsRead(
      read: seq<Packet>, routed: seq<(Packet, Action)>, log: seq<(Packet, Action)>, inbound: seq<Block>)
    requires AllWellFormed(inbound) && inbound != [] && read == Packets(routed) + Flat(inbound, Inbound)
    requires Packets(log) == Content(inbound[0], Inbound)
    ensures AllWellFormed(inbound[1..]) && read == Packets(routed + log) + Flat(inbound[1..], Inbound)
  {
    FlatHead(inbound, Inbound);
    Assoc(Packets(routed), Packets(log), Flat(inbound[1..], Inbound));
    assert Packets(routed + log) == Packets(routed) + Packets(log);
  }

  lemma RouteKeepsSide(
      done: seq<Packet>, routed: seq<(Packet, Action)>, log: seq<(Packet, Action)>,
      outbound: seq<Block>, b: Block, side: Side)
    requires AllWellFormed(outbound) && WellFormed(b)
    requires Routed(routed, side) == done + Flat(outbound, Towards(side))
    requires Content(b, Towards(side)) == Routed(log, side)
    ensures AllWellFormed(outbound + [b])
    ensures Routed(routed + log, side) == done + Flat(outbound + [b], Towards(side))
  {
    FlatSnoc(outbound, b, Towards(side));
    Assoc(done, Flat(outbound, Towards(side)), Routed(log, side));
    RoutedConcat(routed, log, side);
  }

  lemma RouteAccounts(s: Stages, f: Filter, b': Block, log: seq<(Packet, Action)>, s': Stages)
    requires StagesWellFormed(s) && Accounted(f, s) && s.inbound != [] && WellFormed(b')
    requires Packets(log) == Content(s.inbound[0], Inbound)
    requires Content(b', Towards(Adapter)) == Routed(log, Adapter)
    requires Content(b', Towards(Mstcp)) == Routed(log, Mstcp)
    requires s' == s.(inbound := s.inbound[1..], outbound := s.outbound + [b'])
    ensures StagesWellFormed(s') && Accounted(f.(routed := f.routed + log), s')
  {
    RouteKeepsRead(f.read, f.routed, log, s.inbound);
    RouteKeepsSide(f.sentToMstcp, f.routed, log, s.outbound, b', Mstcp);
    RouteKeepsSide(f.sentToAdapter + Flat(s.halfSent, Towards(Adapter)), f.routed, log, s.outbound, b', Adapter);
  }

  lemma RouteMoves(s: Stages, f: Filter, answers: seq<Action>, callbacks: Callbacks)
    requires StageInv(s, f) && s.inbound != [] && |answers| == s.inbound[0].success
    requires WellFormed(s.inbound[0])
    ensures var b := s.inbound[0];
            StageInv(s.(inbound := s.inbound[1..], outbound := s.outbound + [Route(b, answers, callbacks)]),
                     f.(routed := f.routed + Decisions(b.buffer, answers, callbacks, b.success)))
  {
    var b, b' := s.inbound[0], Route(s.inbound[0], answers, callbacks);
    var s' := s.(inbound := s.inbound[1..], outbound := s.outbound + [b']);
    var log := Decisions(b.buffer, answers, callbacks, b.success);
    ClearTail(s.inbound, Towards(Adapter));
    ClearTail(s.inbound, Towards(Mstcp));
    RouteLogs(b, log, answers, callbacks);
    RouteAccounts(s, f, b', log, s');
    assert ClearWhereDone(s') by { ClearSnoc(s.outbound, b', Inbound); }
    assert Cyclic(Line(s')) by {
      LineMove(s.sent + s.halfSent, s.outbound, s.inbound, s.empty, b');
      assert Line(s') == s.sent + s.halfSent + (s.outbound + [b']) + s.inbound[1..] + s.empty;
    }
  }

  lemma RouteStages(f: Filter, e: Event, callbacks: Callbacks)
    requires Enabled(f, e) && e.ProcessRoute?
    ensures var s, b := StagesOf(f), f.processor.block;
            && s.inbound != [] && s.inbound[0] == b
            && StagesOf(Step(f, e, callbacks))
               == s.(inbound := s.inbound[1..], outbound := s.outbound + [Route(b, e.answers, callbacks)])
  {
    var s, s' := StagesOf(f), StagesOf(Step(f, e, callbacks));
    assert s'.inbound == s.inbound[1..] && s'.outbound == s.outbound + [Route(f.processor.block, e.answers, callbacks)];
  }

  lemma RouteKeepsInv(f: Filter, e: Event, callbacks: Callbacks)
    requires Inv(f) && Enabled(f, e) && e.ProcessRoute?
    ensures Inv(Step(f, e, callbacks))
  {
    RouteStages(f, e, callbacks);
    RouteMoves(StagesOf(f), f, e.answers, callbacks);
  }

  lemma MstcpAccounts(s: Stages, f: Filter, b: Block, b': Block, s': Stages, f': Filter)
    requires StagesWellFormed(s) && Accounted(f, s) && s.outbound != [] && b == s.outbound[0] && WellFormed(b)
    requires b' == b.(toMstcp := []) && f' == f.(sentToMstcp := f.sentToMstcp + Submitted(b, b.toMstcp))
    requires s' == s.(outbound := s.outbound[1..], halfSent := s.halfSent + [b'])
    ensures StagesWellFormed(s') && Accounted(f', s')
  {
    FlatHead(s.outbound, Towards(Mstcp));
    FlatHead(s.outbound, Towards(Adapter));
    FlatSnoc(s.halfSent, b', Towards(Adapter));
    Assoc(f.sentToMstcp, Submitted(b, b.toMstcp), Flat(s'.outbound, Towards(Mstcp)));
    var half, content := Flat(s.halfSent, Towards(Adapter)), Content(b, Towards(Adapter));
    assert Content(b', Towards(Adapter)) == content;
    Assoc(f.sentToAdapter, half, content);
    Assoc(f.sentToAdapter + half, content, Flat(s'.outbound, Towards(Adapter)));
  }

  lemma HalfSentLine(s: Stages, b: Block)
    requires Cyclic(Line(s)) && s.outbound != [] && b.id == s.outbound[0].id
    ensures Cyclic(Line(s.(outbound := s.outbound[1..], halfSent := s.halfSent + [b])))
  {
    var s' := s.(outbound := s.outbound[1..], halfSent := s.halfSent + [b]);
    assert Line(s) == s.sent + s.halfSent + s.outbound + (s.inbound + s.empty);
    LineMove(s.sent, s.halfSent, s.outbound, s.inbound + s.empty, b);
    assert Line(s') == s.sent + (s.halfSent + [b]) + s.outbound[1..] + (s.inbound + s.empty);
  }

  lemma SentLine(s: Stages, b: Block)
    requires Cyclic(Line(s)) && s.sent == [] && s.halfSent != [] && b.id == s.halfSent[0].id
    ensures Cyclic(Line(s.(halfSent := s.halfSent[1..], sent := [b])))
  {
    var s' := s.(halfSent := s.halfSent[1..], sent := [b]);
    assert Line(s) == [] + [] + s.halfSent + (s.outbound + s.inbound + s.empty);
    LineMove([], [], s.halfSent, s.outbound + s.inbound + s.empty, b);
    assert Line(s') == [] + ([] + [b]) + s.halfSent[1..] + (s.outbound + s.inbound + s.empty);
  }

  lemma MstcpMoves(s: Stages, f: Filter)
    requires StageInv(s, f) && s.outbound != [] && WellFormed(s.outbound[0])
    ensures var b := s.outbound[0];
            StageInv(s.(outbound := s.outbound[1..], halfSent := s.halfSent + [b.(toMstcp := [])]),
                     f.(sentToMstcp := f.sentToMstcp + Submitted(b, b.toMstcp)))
  {
    var b, b' := s.outbound[0], s.outbound[0].(toMstcp := []);
    var s' := s.(outbound := s.outbound[1..], halfSent := s.halfSent + [b']);
    MstcpAccounts(s, f, b, b', s', f.(sentToMstcp := f.sentToMstcp + Submitted(b, b.toMstcp)));
    assert ClearWhereDone(s') by {
      ClearTail(s.outbound, Inbound);
      ClearSnoc(s.halfSent, b', Inbound);
      ClearSnoc(s.halfSent, b', Towards(Mstcp));
    }
    HalfSentLine(s, b');
  }

  lemma MstcpStages(f: Filter, e: Event, callbacks: Callbacks)
    requires Enabled(f, e) && e.MstcpSend?
    ensures var s, b := StagesOf(f), f.mstcpWriter.block;
            && s.outbound != [] && s.outbound[0] == b
            && StagesOf(Step(f, e, callbacks))
               == s.(outbound := s.outbound[1..], halfSent := s.halfSent + [b.(toMstcp := [])])
  {
    var s, s' := StagesOf(f), StagesOf(Step(f, e, callbacks));
    assert s'.outbound == s.outbound[1..] && s'.halfSent == s.halfSent + [f.mstcpWriter.block.(toMstcp := [])];
  }

  lemma MstcpSendKeepsInv(f: Filter, e: Event, callbacks: Callbacks)
    requires Inv(f) && Enabled(f, e) && e.MstcpSend?
    ensures Inv(Step(f, e, callbacks))
  {
    MstcpStages(f, e, callbacks);
    MstcpMoves(StagesOf(f), f);
  }

  lemma AdapterAccounts(s: Stages, f: Filter, b: Block, s': Stages, f': Filter)
    requires StagesWellFormed(s) && Accounted(f, s) && s.halfSent != [] && b == s.halfSent[0] && WellFormed(b)
    requires f' == f.(sentToAdapter := f.sentToAdapter + Submitted(b, b.toAdapter))
    requires s' == s.(halfSent := s.halfSent[1..], sent := [b.(toAdapter := [])])
    ensures StagesWellFormed(s') && Accounted(f', s')
  {
    FlatHead(s.halfSent, Towards(Adapter));
    Assoc(f.sentToAdapter, Submitted(b, b.toAdapter), Flat(s'.halfSent, Towards(Adapter)));
  }

  lemma AdapterMoves(s: Stages, f: Filter)
    requires StageInv(s, f) && s.halfSent != [] && s.sent == [] && WellFormed(s.halfSent[0])
    ensures var b := s.halfSent[0];
            StageInv(s.(halfSent := s.halfSent[1..], sent := [b.(toAdapter := [])]),
                     f.(sentToAdapter := f.sentToAdapter + Submitted(b, b.toAdapter)))
  {
    var b, b' := s.halfSent[0], s.halfSent[0].(toAdapter := []);
    var s' := s.(halfSent := s.halfSent[1..], sent := [b']);
    AdapterAccounts(s, f, b, s', f.(sentToAdapter := f.sentToAdapter + Submitted(b, b.toAdapter)));
    assert ClearWhereDone(s') by {
      ClearTail(s.halfSent, Inbound);
      ClearTail(s.halfSent, Towards(Mstcp));
    }
    SentLine(s, b');
  }

  lemma AdapterStages(f: Filter, e: Event, callbacks: Callbacks)
    requires Enabled(f, e) && e.AdapterSend?
    ensures var s, b := StagesOf(f), f.adapterWriter.block;
            && s.sent == [] && s.halfSent != [] && s.halfSent[0] == b
            && StagesOf(Step(f, e, callbacks)) == s.(halfSent := s.halfSent[1..], sent := [b.(toAdapter := [])])
  {
    var s, s' := StagesOf(f), StagesOf(Step(f, e, callbacks));
    assert s'.halfSent == s.halfSent[1..];
  }

  lemma AdapterSendKeepsInv(f: Filter, e: Event, callbacks: Callbacks)
    requires Inv(f) && Enabled(f, e) && e.AdapterSend?
    ensures Inv(Step(f, e, callbacks))
  {
    AdapterStages(f, e, callbacks);
    AdapterMoves(StagesOf(f), f);
  }

  lemma RecycledLine(s: Stages, b: Block)
    requires s.sent == [b] && Cyclic(Line(s))
    ensures Cyclic(Line(s.(sent := [], empty := s.empty + [b])))
  {
    CyclicRotate(Line(s));
    assert Line(s.(sent := [], empty := s.empty + [b])) == Line(s)[1..] + Line(s)[..1];
  }

  lemma RecycleMoves(s: Stages, f: Filter, b: Block)
    requires StageInv(s, f) && s.sent == [b]
    ensures StageInv(s.(sent := [], empty := s.empty + [b]), f)
  {
    var s' := s.(sent := [], empty := s.empty + [b]);
    RecycledLine(s, b);
    assert ClearWhereDone(s') by {
      assert s.sent[0] == b;
      ClearSnoc(s.empty, b, Inbound);
      ClearSnoc(s.empty, b, Towards(Adapter));
      ClearSnoc(s.empty, b, Towards(Mstcp));
    }
    assert StagesWellFormed(s') by { assert s.sent[0] == b; }
  }

  lemma AdapterPushKeepsInv(f: Filter, e: Event, callbacks: Callbacks)
    requires Inv(f) && Enabled(f, e) && e.AdapterPush?
    ensures Inv(Step(f, e, callbacks))
  {
    var f' := Step(f, e, callbacks);
    var s, s' := StagesOf(f), StagesOf(f');
    assert s'.sent == [] && s'.empty == s.empty + [f.adapterWriter.block];
    RecycleMoves(s, f, f.adapterWriter.block);
  }

  lemma StartKeepsInv(f: Filter, e: Event, callbacks: Callbacks)
    requires Inv(f) && Enabled(f, e) && e.Start?
    ensures Inv(Step(f, e, callbacks))
  {
    var s' := StagesOf(Step(f, e, callbacks));
    var blocks := NewBlocks(MAXIMUM_BLOCK_NUM);
    assert s' == Stages(blocks, [], [], [], []);
    assert Line(s') == blocks;
    assert Clear(blocks, Inbound) && Clear(blocks, Towards(Adapter)) && Clear(blocks, Towards(Mstcp));
  }

  /** Losing a thread, and the changes of filter state, leave the stages alone. */
  lemma ControlKeepsInv(f: Filter, e: Event, callbacks: Callbacks)
    requires Inv(f) && Enabled(f, e)
    requires e.FailStart? || e.BeginStop? || e.FinishStop?
             || e.ReadExit? || e.ProcessExit? || e.MstcpExit? || e.AdapterExit?
    ensures Inv(Step(f, e, callbacks))
  {
    var f' := Step(f, e, callbacks);
    if Live(f') { assert StagesOf(f') == StagesOf(f); }
  }

  lemma HandOverKeepsInv(f: Filter, e: Event, callbacks: Callbacks)
    requires Inv(f) && Enabled(f, e)
    requires e.ReadTake? || e.ReadPush? || e.ProcessTake? || e.ProcessPush?
             || e.MstcpTake? || e.MstcpPush? || e.AdapterTake?
    ensures Inv(Step(f, e, callbacks))
  {
    HandOverKeepsStages(f, e, callbacks);
    HandOverKeepsLogs(f, e, callbacks);
    SameStagesKeepInv(f, Step(f, e, callbacks));
  }

  predicate SameLogs(f: Filter, f': Filter) {
    && f'.state == f.state && f'.read == f.read && f'.routed == f.routed
    && f'.sentToMstcp == f.sentToMstcp && f'.sentToAdapter == f.sentToAdapter
  }

  lemma HandOverKeepsLogs(f: Filter, e: Event, callbacks: Callbacks)
    requires Enabled(f, e)
    requires e.ReadTake? || e.ReadPush? || e.ProcessTake? || e.ProcessPush?
             || e.MstcpTake? || e.MstcpPush? || e.AdapterTake?
    ensures Live(f) && SameLogs(f, Step(f, e, callbacks))
  {
  }

  lemma SameStagesKeepInv(f: Filter, f': Filter)
    requires Inv(f) && Live(f) && SameLogs(f, f') && StagesOf(f') == StagesOf(f)
    ensures Inv(f')
  {
  }

  /** The events of the read and process threads. */
  lemma IncomingKeepsInv(f: Filter, e: Event, callbacks: Callbacks)
    requires Inv(f) && Enabled(f, e)
    requires e.ReadTake? || e.ReadDone? || e.ReadGivenUp? || e.ReadPush? || e.ReadExit?
             || e.ProcessTake? || e.ProcessRoute? || e.ProcessPush? || e.ProcessExit?
    ensures Inv(Step(f, e, callbacks))
  {
    if e.ReadDone? || e.ReadGivenUp? { ReadKeepsInv(f, e, callbacks); }
    else if e.ProcessRoute? { RouteKeepsInv(f, e, callbacks); }
    else if e.ReadExit? || e.ProcessExit? { ControlKeepsInv(f, e, callbacks); }
    else { HandOverKeepsInv(f, e, callbacks); }
  }

  /** The events of the two write threads. */
  lemma OutgoingKeepsInv(f: Filter, e: Event, callbacks: Callbacks)
    requires Inv(f) && Enabled(f, e)
    requires e.MstcpTake? || e.MstcpSend? || e.MstcpPush? || e.MstcpExit?
             || e.AdapterTake? || e.AdapterSend? || e.AdapterPush? || e.AdapterExit?
    ensures Inv(Step(f, e, callbacks))
  {
    if e.MstcpSend? { MstcpSendKeepsInv(f, e, callbacks); }
    else if e.AdapterSend? { AdapterSendKeepsInv(f, e, callbacks); }
    else if e.AdapterPush? { AdapterPushKeepsInv(f, e, callbacks); }
    else if e.MstcpExit? || e.AdapterExit? { ControlKeepsInv(f, e, callbacks); }
    else { HandOverKeepsInv(f, e, callbacks); }
  }

  lemma StepKeepsInv(f: Filter, e: Event, callbacks: Callbacks)
    requires Inv(f) && Enabled(f, e)
    ensures Inv(Step(f, e, callbacks))
  {
    if e.Start? { StartKeepsInv(f, e, callbacks); }
    else if e.FailStart? || e.BeginStop? || e.FinishStop? { ControlKeepsInv(f, e, callbacks); }
    else if e.MstcpTake? || e.MstcpSend? || e.MstcpPush? || e.MstcpExit?
            || e.AdapterTake? || e.AdapterSend? || e.AdapterPush? || e.AdapterExit? {
      OutgoingKeepsInv(f, e, callbacks);
    } else { IncomingKeepsInv(f, e, callbacks); }
  }

  // ---------------------------------------------------------------------------------
  // Whole lifecycles
  // ---------------------------------------------------------------------------------

  const CREATED := Filter(Stopped, [], [], [], [], NotStarted, NotStarted, NotStarted, NotStarted, [], [], [], [])

  /** Some interleaving of the four threads, over any number of starts and stops, leads from f to f'. */
  ghost predicate Reaches(f: Filter, es: seq<Event>, f': Filter, callbacks: Callbacks) {
    if es == [] then f' == f
    else exists g ::
      Reaches(f, DropLast(es), g, callbacks) && Enabled(g, Last(es)) && f' == Step(g, Last(es), callbacks)
  }

  lemma {:induction false} RunKeepsInv(f: Filter, es: seq<Event>, f': Filter, callbacks: Callbacks)
    requires Reaches(f, es, f', callbacks) && Inv(f)
    ensures Inv(f')
  {
    if es != [] {
      var g :| Reaches(f, DropLast(es), g, callbacks) && Enabled(g, Last(es)) && f' == Step(g, Last(es), callbacks);
      RunKeepsInv(f, DropLast(es), g, callbacks);
      StepKeepsInv(g, Last(es), callbacks);
    }
  }

  /**
    Since the last start, the decisions made are about a prefix of the packets read, and each side has been
    given a prefix of the packets decided for it, in the order they were read.
   */
  lemma RoutingIsInOrder(es: seq<Event>, f: Filter, callbacks: Callbacks)
    requires Reaches(CREATED, es, f, callbacks) && Live(f)
    ensures Packets(f.routed) <= f.read
    ensures f.sentToAdapter <= Routed(f.routed, Adapter)
    ensures f.sentToMstcp <= Routed(f.routed, Mstcp)
  {
    RunKeepsInv(CREATED, es, f, callbacks);
  }

  // ---------------------------------------------------------------------------------
  // Where packets go, told from a run's events
  // ---------------------------------------------------------------------------------

  /** The packets read since the last start. */
  function PacketsRead(es: seq<Event>): seq<Packet> {
    if es == [] then []
    else
      match Last(es)
      case Start => []
      case ReadDone(packets) => PacketsRead(DropLast(es)) + packets
      case _ => PacketsRead(DropLast(es))
  }

  /** What the callbacks have answered since the last start. */
  function AnswersGiven(es: seq<Event>): seq<Action> {
    if es == [] then []
    else
      match Last(es)
      case Start => []
      case ProcessRoute(answers) => AnswersGiven(DropLast(es)) + answers
      case _ => AnswersGiven(DropLast(es))
  }

  /**
    The side a packet is due to. Flag 1 is for packets on their way out, which ask the outgoing callback; all others ask
    the incoming one. Without a callback a packet passes. Passing takes an outgoing packet to the adapter and others to
    the stack; reverting takes an incoming packet, with flag 2, to the adapter and others to the stack.
   */
  predicate IsDue(p: Packet, answer: Action, callbacks: Callbacks, side: Side) {
    var asked := if p.flags == 1 then callbacks.outgoing else callbacks.incoming;
    if !asked || answer == Pass then side == if p.flags == 1 then Adapter else Mstcp
    else answer == Revert && side == if p.flags == 2 then Adapter else Mstcp
  }

  /** The packets due to one side, in order. */
  function Due(packets: seq<Packet>, answers: seq<Action>, callbacks: Callbacks, side: Side): seq<Packet>
    requires |packets| == |answers|
  {
    if packets == [] then []
    else
      Due(DropLast(packets), DropLast(answers), callbacks, side)
      + if IsDue(Last(packets), Last(answers), callbacks, side) then [Last(packets)] else []
  }

  lemma GoesWhereDue(p: Packet, answer: Action, callbacks: Callbacks, side: Side)
    ensures GoesTo(p, Decide(p, answer, callbacks), side) <==> IsDue(p, answer, callbacks, side)
  {
  }

  /** The log records one decision for each answer, on the packets in the order they were read. */
  predicate FollowsAnswers(log: seq<(Packet, Action)>, answers: seq<Action>, callbacks: Callbacks) {
    |log| == |answers| && forall i :: 0 <= i < |log| ==> log[i].1 == Decide(log[i].0, answers[i], callbacks)
  }

  lemma {:induction false} RoutedIsDue(
      log: seq<(Packet, Action)>, answers: seq<Action>, callbacks: Callbacks, side: Side)
    requires FollowsAnswers(log, answers, callbacks)
    ensures Routed(log, side) == Due(Packets(log), answers, callbacks, side)
  {
    if log != [] {
      RoutedIsDue(DropLast(log), DropLast(answers), callbacks, side);
      assert DropLast(Packets(log)) == Packets(DropLast(log));
      GoesWhereDue(Last(log).0, Last(answers), callbacks, side);
    }
  }

  predicate RecordsEvents(f: Filter, es: seq<Event>, callbacks: Callbacks) {
    Live(f) ==> f.read == PacketsRead(es) && FollowsAnswers(f.routed, AnswersGiven(es), callbacks)
  }

  lemma StepRecordsEvents(g: Filter, es: seq<Event>, callbacks: Callbacks)
    requires es != [] && Enabled(g, Last(es)) && RecordsEvents(g, DropLast(es), callbacks)
    ensures RecordsEvents(Step(g, Last(es), callbacks), es, callbacks)
  {
    match Last(es)
    case ReadDone(_) =>
    case ProcessRoute(_) =>
    case _ =>
  }

  lemma {:induction false} RunRecordsEvents(es: seq<Event>, f: Filter, callbacks: Callbacks)
    requires Reaches(CREATED, es, f, callbacks)
    ensures RecordsEvents(f, es, callbacks)
  {
    if es != [] {
      var g :|
        Reaches(CREATED, DropLast(es), g, callbacks) && Enabled(g, Last(es)) && f == Step(g, Last(es), callbacks);
      RunRecordsEvents(DropLast(es), g, callbacks);
      StepRecordsEvents(g, es, callbacks);
    }
  }

  /**
    Told from the events alone: the callbacks have answered for a prefix of the packets read, and each side has been
    given a prefix of the packets that these answers make due to it, in the order they were read; once all blocks are
    back in the read queue, all of them.
   */
  lemma RoutingFollowsCallbacks(es: seq<Event>, f: Filter, callbacks: Callbacks)
    requires Reaches(CREATED, es, f, callbacks) && Live(f)
    ensures var read, answers := PacketsRead(es), AnswersGiven(es);
            && |answers| <= |read|
            && f.sentToAdapter <= Due(read[..|answers|], answers, callbacks, Adapter)
            && f.sentToMstcp <= Due(read[..|answers|], answers, callbacks, Mstcp)
            && (|f.readQueue| == MAXIMUM_BLOCK_NUM ==>
                  && |answers| == |read|
                  && f.sentToAdapter == Due(read, answers, callbacks, Adapter)
                  && f.sentToMstcp == Due(read, answers, callbacks, Mstcp))
  {
    RoutingIsInOrder(es, f, callbacks);
    if |f.readQueue| == MAXIMUM_BLOCK_NUM { IdlePipelineHasSentAll(es, f, callbacks); }
    RunRecordsEvents(es, f, callbacks);
    RoutedIsDue(f.routed, AnswersGiven(es), callbacks, Adapter);
    RoutedIsDue(f.routed, AnswersGiven(es), callbacks, Mstcp);
    assert Packets(f.routed) == f.read[..|f.routed|];
  }

  /** When every block is back in the read queue nothing is left undecided or unsent. */
  lemma IdlePipelineHasSentAll(es: seq<Event>, f: Filter, callbacks: Callbacks)
    requires Reaches(CREATED, es, f, callbacks) && Live(f) && |f.readQueue| == MAXIMUM_BLOCK_NUM
    ensures Packets(f.routed) == f.read
    ensures f.sentToAdapter == Routed(f.routed, Adapter)
    ensures f.sentToMstcp == Routed(f.routed, Mstcp)
  {
    RunKeepsInv(CREATED, es, f, callbacks);
    var s := StagesOf(f);
    assert |Line(s)| == |s.sent| + |s.halfSent| + |s.outbound| + |s.inbound| + |s.empty|;
    assert |s.empty| >= |f.readQueue|;
    assert s.inbound == [] && s.outbound == [] && s.halfSent == [];
  }

  /** Every packet a side was given had one decision, and that decision sends it to that side and no other. */
  lemma {:induction false} RoutedOnlyWhereDecided(log: seq<(Packet, Action)>, side: Side, p: Packet)
    ensures p in Routed(log, side) <==> exists i :: 0 <= i < |log| && log[i].0 == p && GoesTo(p, log[i].1, side)
  {
    if log != [] {
      RoutedOnlyWhereDecided(DropLast(log), side, p);
      if p in Routed(DropLast(log), side) {
        var i :| 0 <= i < |log| - 1 && DropLast(log)[i].0 == p && GoesTo(p, DropLast(log)[i].1, side);
        assert log[i].0 == p;
      }
      if i :| 0 <= i < |log| && log[i].0 == p && GoesTo(p, log[i].1, side) {
        assert i < |log| - 1 ==> DropLast(log)[i] == log[i];
      }
    }
  }

  /** With distinct packets, none reaches both sides and none that was dropped reaches either. */
  lemma NoPacketOnBothSides(es: seq<Event>, f: Filter, callbacks: Callbacks, p: Packet)
    requires Reaches(CREATED, es, f, callbacks) && Live(f)
    requires forall i, j :: 0 <= i < j < |f.read| ==> f.read[i] != f.read[j]
    ensures !(p in f.sentToAdapter && p in f.sentToMstcp)
    ensures (p, Drop) in f.routed ==> p !in f.sentToAdapter && p !in f.sentToMstcp
  {
    RoutingIsInOrder(es, f, callbacks);
    RoutedOnlyWhereDecided(f.routed, Adapter, p);
    RoutedOnlyWhereDecided(f.routed, Mstcp, p);
    forall i, j | 0 <= i < |f.routed| && 0 <= j < |f.routed| && f.routed[i].0 == f.routed[j].0 ensures i == j {
      assert Packets(f.routed)[i] == f.read[i] && Packets(f.routed)[j] == f.read[j];
    }
  }

  lemma CyclicIsDistinct(line: seq<Block>)
    requires Cyclic(line)
    ensures forall i, j :: 0 <= i < j < |line| ==> line[i].id != line[j].id
    ensures forall i :: 0 <= i < |line| ==> line[i].id < MAXIMUM_BLOCK_NUM
  {
  }

  lemma LineWellFormed(s: Stages)
    requires StagesWellFormed(s)
    ensures AllWellFormed(Line(s))
  {
    FlatConcat(s.sent, s.halfSent, Inbound);
    FlatConcat(s.sent + s.halfSent, s.outbound, Inbound);
    FlatConcat(s.sent + s.halfSent + s.outbound, s.inbound, Inbound);
    FlatConcat(s.sent + s.halfSent + s.outbound + s.inbound, s.empty, Inbound);
  }

  /**
    Conservation: while the filter is live the queues and the threads hold exactly the ten blocks created, each
    once, and no write request ever exceeds its block.
   */
  lemma BlocksAreConserved(es: seq<Event>, f: Filter, callbacks: Callbacks)
    requires Reaches(CREATED, es, f, callbacks) && Live(f)
    ensures var line := Line(StagesOf(f));
            && |line| == MAXIMUM_BLOCK_NUM
            && (forall i, j :: 0 <= i < j < |line| ==> line[i].id != line[j].id)
            && (forall i :: 0 <= i < |line| ==> line[i].id < MAXIMUM_BLOCK_NUM)
            && AllWellFormed(line)
  {
    RunKeepsInv(CREATED, es, f, callbacks);
    CyclicIsDistinct(Line(StagesOf(f)));
    LineWellFormed(StagesOf(f));
  }

  /** A block is taken for reading empty, and for processing with both write requests empty. */
  lemma TakenBlocksAreClean(es: seq<Event>, f: Filter, callbacks: Callbacks)
    requires Reaches(CREATED, es, f, callbacks) && Live(f)
    ensures f.processor.Taken? ==> f.processor.block.toAdapter == [] && f.processor.block.toMstcp == []
    ensures f.reader.Taken? ==> f.reader.block.success == 0
  {
    RunKeepsInv(CREATED, es, f, callbacks);
    var s := StagesOf(f);
    if f.processor.Taken? {
      assert s.inbound[0] == f.processor.block;
      ClearTail(s.inbound, Towards(Adapter));
      ClearTail(s.inbound, Towards(Mstcp));
    }
    if f.reader.Taken? {
      assert s.empty[0] == f.reader.block;
      ClearTail(s.empty, Inbound);
    }
  }

  /** A stopped filter owns nothing, and a start that failed is never left again. */
  lemma StoppedIsEmpty(es: seq<Event>, f: Filter, callbacks: Callbacks)
    requires Reaches(CREATED, es, f, callbacks)
    ensures f.state == Stopped ==>
              Line(StagesOf(f)) == [] && f.reader == f.processor == f.mstcpWriter == f.adapterWriter == NotStarted
    ensures f.state == Starting ==> forall e :: !Enabled(f, e)
  {
    RunKeepsInv(CREATED, es, f, callbacks);
  }

  /** A started filter has ten empty blocks, all to be read into, and four idle threads. */
  lemma StartOutcome(es: seq<Event>, f: Filter, callbacks: Callbacks)
    requires Reaches(CREATED, es, f, callbacks) && f.state == Stopped
    ensures var g := Step(f, Start, callbacks);
            && g.state == Running && |g.readQueue| == 10 && g.processQueue == g.mstcpQueue == g.adapterQueue == []
            && (forall i :: 0 <= i < 10 ==>
                  && g.readQueue[i].id == i && g.readQueue[i].success == 0
                  && g.readQueue[i].toAdapter == g.readQueue[i].toMstcp == [])
            && g.reader == g.processor == g.mstcpWriter == g.adapterWriter == Idle
            && g.read == g.sentToMstcp == g.sentToAdapter == [] && g.routed == []
  {
    RunKeepsInv(CREATED, es, f, callbacks);
  }

  /** One that ran out of memory keeps the blocks it made; one whose event was refused keeps none. */
  lemma FailedStartOutcome(es: seq<Event>, f: Filter, created: nat, eventRefused: bool, callbacks: Callbacks)
    requires Reaches(CREATED, es, f, callbacks) && f.state == Stopped && created <= 10
    ensures var g := Step(f, FailStart(created, eventRefused), callbacks);
            && g.state == Starting && |g.readQueue| == (if eventRefused then 0 else created)
            && g.processQueue == g.mstcpQueue == g.adapterQueue == []
            && g.reader == g.processor == g.mstcpWriter == g.adapterWriter == NotStarted
  {
    RunKeepsInv(CREATED, es, f, callbacks);
  }
}
