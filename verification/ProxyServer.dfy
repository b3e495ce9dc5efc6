/**
  The local proxy server's list of connections that are still being established.

  The accepting thread appends entries, the connecting thread waits on a snapshot of their events and removes the
  entry whose event fired. Slot 0 only wakes the connecting thread up. Each step below is one critical section.
 */
module ProxyServer {
  import opened Basics
  import Frames
  import Relay
  import Socks5

  type Handle = nat

  const NO_SOCKET := Relay.INVALID_SOCKET

  /** An entry of sock_array_events_. */
  datatype Entry = Entry(event: Handle, local: int, remote: int, context: Option<Socks5.Context>)

  /** What the query for a remote peer answers; port 0 when there is no mapping. */
  datatype Peer = Peer(address: Frames.Address, port: uint16, context: Option<Socks5.Context>)

  /** The accepting thread: about to accept, with a connect to make for the connection it appended last, or gone. */
  datatype Acceptor = Listening | Connecting(number: nat) | Departed

  /** The connecting thread. `seen` are the entries whose events it took into its snapshot. */
  datatype Connector =
    | Looking
    | Waiting(events: seq<Handle>, seen: seq<Entry>)
    | Woken(events: seq<Handle>, index: nat, seen: seq<Entry>)
    | Exited

  /**
    The server. Connections are numbered in the order of their entries: `appended` has all entries ever made, `numbers`
    those in the list behind slot 0, `wrapped` those turned into proxy sockets, `dropped` those left over by a stop,
    `closed` those whose sockets were closed while in the list, and `cleaned` how many there were when the connecting
    thread last left.
   */
  datatype Server = Server(
    ended: bool,
    acceptor: Acceptor,
    entries: seq<Entry>,
    connector: Connector,
    signalled: set<Handle>,
    appended: seq<Entry>,
    numbers: seq<nat>,
    wrapped: seq<nat>,
    dropped: seq<nat>,
    closed: set<nat>,
    cleaned: nat)

  function Handles(entries: seq<Entry>): (events: seq<Handle>)
    ensures |events| == |entries|
    ensures forall i :: 0 <= i < |entries| ==> events[i] == entries[i].event
  {
    seq(|entries|, i requires 0 <= i < |entries| => entries[i].event)
  }

  // ---------------------------------------------------------------------------------
  // Critical sections
  // ---------------------------------------------------------------------------------

  /** Pushes the wake-up slot and starts the threads, unless its socket cannot be attached to the completion port. */
  function Start(s: Server, event: Handle, socket: int, attached: bool): Server {
    if !s.ended then s
    else if socket != NO_SOCKET && !attached then s.(entries := [])
    else
      s.(ended := false, acceptor := Listening, connector := Looking, signalled := s.signalled - {event},
         entries := s.entries + [Entry(event, socket, NO_SOCKET, None)])
  }

  /** The part of connect_to_remote_host under the lock. */
  function Append(s: Server, e: Entry): Server
    requires s.entries != []
  {
    s.(entries := s.entries + [e], appended := s.appended + [e], numbers := s.numbers + [|s.appended|],
       signalled := s.signalled - {e.event} + {s.entries[0].event})
  }

  /**
    connect_to_remote_host up to the end of its critical section: `remote` is the new socket, `bound` says whether bind
    went well. The result says whether there is a connect to make.
   */
  function BeginConnect(s: Server, local: int, peer: Peer, remote: int, bound: bool, event: Handle): (bool, Server)
    requires s.entries != []
  {
    if peer.port == 0 || remote == NO_SOCKET || !bound then (false, s)
    else (true, Append(s, Entry(event, local, remote, peer.context)).(acceptor := Connecting(|s.appended|)))
  }

  /**
    The connect after it, outside the lock. When it fails at once both sockets are closed, wherever the entry is by now;
    no entry is removed.
   */
  function FinishConnect(s: Server, connected: bool): Server
    requires s.acceptor.Connecting?
  {
    s.(acceptor := Listening, closed := if connected then s.closed else s.closed + {s.acceptor.number})
  }

  function TakeSnapshot(s: Server): Server {
    s.(connector := Waiting(Handles(s.entries), s.entries))
  }

  /** The wait returns the index of a signalled event of the snapshot. */
  function Wake(s: Server, index: nat): Server
    requires s.connector.Waiting?
  {
    s.(connector := Woken(s.connector.events, index, s.connector.seen))
  }

  /** Slot 0 is reset; any other entry becomes a proxy socket and leaves the list. */
  function HandleEvent(s: Server): Server
    requires s.connector.Woken? && s.connector.index < |s.connector.events|
    requires s.connector.index < |s.entries| == |s.numbers| + 1
  {
    var index := s.connector.index;
    var looking := s.(connector := Looking);
    if index == 0 then looking.(signalled := s.signalled - {s.connector.events[0]})
    else
      looking.(entries := RemoveAt(s.entries, index), numbers := RemoveAt(s.numbers, index - 1),
               wrapped := s.wrapped + [s.numbers[index - 1]])
  }

  function CleanedUp(e: Entry): Entry {
    e.(local := NO_SOCKET, remote := NO_SOCKET)
  }

  /** The connecting thread's clean-up on exit: all sockets in the list are closed, and the list stays as long. */
  function CleanUp(s: Server): Server {
    s.(connector := Exited, cleaned := |s.appended|, closed := s.closed + (set n | n in s.numbers),
       entries := seq(|s.entries|, i requires 0 <= i < |s.entries| => CleanedUp(s.entries[i])))
  }

  /** stop up to its joins: the flag, and the event of slot 0. */
  function BeginStop(s: Server): Server
    requires s.ended || s.entries != []
  {
    if s.ended then s else s.(ended := true, signalled := s.signalled + {s.entries[0].event})
  }

  /** stop once its threads have been joined. */
  function FinishStop(s: Server): Server
    requires s.entries != []
  {
    s.(entries := [], numbers := [], dropped := s.dropped + s.numbers)
  }

  // ---------------------------------------------------------------------------------
  // Runs
  // ---------------------------------------------------------------------------------

  datatype Event =
    | Started(event: Handle, socket: int, attached: bool)
    | Accepted(local: int, peer: Peer, remote: int, bound: bool, event: Handle)
    | ConnectReturned(connected: bool)
    | Fired(event: Handle)
    | SnapshotTaken
    | WaitReturned(index: nat)
    | EventHandled
    | StopBegun
    | AcceptorLeft
    | ConnectorLeft
    | StopFinished

  predicate HasStopped(s: Server) {
    s.ended && s.acceptor.Departed? && s.connector.Exited?
  }

  predicate Enabled(s: Server, e: Event) {
    match e
    case Started(_, _, _) => !s.ended || (HasStopped(s) && s.entries == [])
    case Accepted(local, peer, _, _, event) =>
      && s.acceptor.Listening? && s.entries != [] && event !in Handles(s.entries)
      && local != NO_SOCKET && (peer.port != 0 ==> peer.context.Some?)
    case ConnectReturned(_) => s.acceptor.Connecting?
    case Fired(_) => true
    case SnapshotTaken => s.connector.Looking?
    case WaitReturned(index) =>
      && s.connector.Waiting?
      && index < |s.connector.events| && s.connector.events[index] in s.signalled
    case EventHandled =>
      && s.connector.Woken? && s.connector.index < |s.connector.events|
      && s.connector.index < |s.entries| == |s.numbers| + 1
    case StopBegun => s.ended || s.entries != []
    case AcceptorLeft => s.ended && s.acceptor.Listening?
    case ConnectorLeft => s.ended && (s.connector.Looking? || s.connector.Woken?)
    case StopFinished => HasStopped(s) && s.entries != []
  }

  function Step(s: Server, e: Event): Server
    requires Enabled(s, e)
  {
    match e
    case Started(event, socket, attached) => Start(s, event, socket, attached)
    case Accepted(local, peer, remote, bound, event) => BeginConnect(s, local, peer, remote, bound, event).1
    case ConnectReturned(connected) => FinishConnect(s, connected)
    case Fired(event) => s.(signalled := s.signalled + {event})
    case SnapshotTaken => TakeSnapshot(s)
    case WaitReturned(index) => Wake(s, index)
    case EventHandled => HandleEvent(s)
    case StopBegun => BeginStop(s)
    case AcceptorLeft => s.(acceptor := Departed)
    case ConnectorLeft => CleanUp(s)
    case StopFinished => FinishStop(s)
  }

  predicate IsSentinel(e: Entry) {
    e.remote == NO_SOCKET && e.context == None
  }

  /** A connection on its way: two sockets, and what to tell the SOCKS server. */
  predicate IsConnection(e: Entry) {
    e.local != NO_SOCKET && e.remote != NO_SOCKET && e.context.Some?
  }

  predicate AreConnections(entries: seq<Entry>) {
    forall i :: 0 <= i < |entries| ==> IsConnection(entries[i])
  }

  /** Slot 0 is the sentinel and all others are connections until the clean-up, each with an event of its own. */
  predicate EntriesOk(s: Server) {
    && (s.entries == [] ==> HasStopped(s))
    && (s.entries != [] ==> IsSentinel(s.entries[0]))
    && (forall i, j :: 0 <= i < j < |s.entries| ==> s.entries[i].event != s.entries[j].event)
  }

  function Live(s: Server): seq<Entry> {
    if s.entries == [] then [] else s.entries[1..]
  }

  /** The entry was in the list when the connecting thread left. */
  predicate IsCleaned(s: Server, n: nat) {
    s.connector.Exited? && n < s.cleaned
  }

  /** The n-th connection as the list has it. */
  function InList(s: Server, n: nat): Entry
    requires n < |s.appended|
  {
    if IsCleaned(s, n) then CleanedUp(s.appended[n]) else s.appended[n]
  }

  predicate Increasing(numbers: seq<nat>, bound: nat) {
    && (forall i :: 0 <= i < |numbers| ==> numbers[i] < bound)
    && (forall i, j :: 0 <= i < j < |numbers| ==> numbers[i] < numbers[j])
  }

  /** Position by position, the list holds the connections of these numbers, in the order they were appended. */
  predicate NumbersOk(s: Server) {
    && |s.numbers| == |Live(s)| && s.cleaned <= |s.appended|
    && Increasing(s.numbers, |s.appended|)
    && (forall i :: 0 <= i < |s.numbers| ==> Live(s)[i] == InList(s, s.numbers[i]))
    && AreConnections(s.appended)
  }

  /** The snapshot is, position by position, a prefix of the live list. */
  predicate SnapshotOk(s: Server) {
    match s.connector
    case Waiting(events, seen) => seen != [] && seen <= s.entries && events == Handles(seen)
    case Woken(events, index, seen) =>
      && seen != [] && seen <= s.entries && events == Handles(seen)
      && index < |events| && events[index] in s.signalled
    case _ => true
  }

  /** An entry the waiting thread does not wait for has signalled slot 0. */
  predicate WakeUpOk(s: Server) {
    s.connector.Waiting? && 0 < |s.connector.events| < |s.entries| ==> s.connector.events[0] in s.signalled
  }

  /** How often the connection of a number is in the list, wrapped, or dropped. */
  function Times(s: Server, n: nat): nat {
    multiset(s.numbers)[n] + multiset(s.wrapped)[n] + multiset(s.dropped)[n]
  }

  ghost predicate ConservedOk(s: Server) {
    forall n: nat :: Times(s, n) == if n < |s.appended| then 1 else 0
  }

  ghost predicate Inv(s: Server) {
    EntriesOk(s) && NumbersOk(s) && SnapshotOk(s) && WakeUpOk(s) && ConservedOk(s)
  }

  function Initial(): Server {
    Server(true, Departed, [], Exited, {}, [], [], [], [], {}, 0)
  }

  lemma RemovedElements<T>(s: seq<T>, index: nat)
    requires index < |s|
    ensures |RemoveAt(s, index)| == |s| - 1
    ensures forall i :: 0 <= i < |s| - 1 ==> RemoveAt(s, index)[i] == s[if i < index then i else i + 1]
    ensures multiset(s) == multiset(RemoveAt(s, index)) + multiset{s[index]}
  {
    assert s == s[..index] + [s[index]] + s[index + 1..];
  }

  lemma AppendConserves(s: Server, e: Entry)
    requires ConservedOk(s) && s.entries != []
    ensures ConservedOk(Append(s, e))
  {
    var s', n: nat := Append(s, e), |s.appended|;
    assert multiset(s'.numbers) == multiset(s.numbers) + multiset{n};
    forall k: nat ensures Times(s', k) == if k < |s'.appended| then 1 else 0 { assert Times(s, k) >= 0; }
  }

  lemma AppendKeepsNumbers(s: Server, e: Entry)
    requires NumbersOk(s) && s.entries != [] && IsConnection(e)
    ensures NumbersOk(Append(s, e))
  {
    var s' := Append(s, e);
    assert Live(s') == Live(s) + [e];
    forall i | 0 <= i < |s'.numbers| ensures Live(s')[i] == InList(s', s'.numbers[i]) {
      if i < |s.numbers| { assert Live(s)[i] == InList(s, s.numbers[i]); }
    }
  }

  lemma AppendKeepsInv(s: Server, e: Entry)
    requires Inv(s) && s.entries != [] && IsConnection(e) && e.event !in Handles(s.entries)
    ensures Inv(Append(s, e))
  {
    AppendConserves(s, e);
    AppendKeepsNumbers(s, e);
  }

  lemma RemovalKeepsIncreasing(numbers: seq<nat>, bound: nat, i: nat)
    requires Increasing(numbers, bound) && i < |numbers|
    ensures Increasing(RemoveAt(numbers, i), bound)
  {
    RemovedElements(numbers, i);
  }

  lemma RemovalKeepsEntries(s: Server, index: nat, s': Server)
    requires EntriesOk(s) && 1 <= index < |s.entries| && s'.entries == RemoveAt(s.entries, index)
    ensures EntriesOk(s') && s'.entries != [] && s'.entries[0] == s.entries[0]
  {
    RemovedElements(s.entries, index);
  }

  lemma RemovalKeepsNumbers(s: Server, index: nat, s': Server)
    requires NumbersOk(s) && 1 <= index < |s.entries| && s.connector.Woken? && s'.connector.Looking?
    requires s'.entries == RemoveAt(s.entries, index) && s'.numbers == RemoveAt(s.numbers, index - 1)
    requires s'.appended == s.appended && s'.cleaned == s.cleaned
    ensures NumbersOk(s')
  {
    RemovalKeepsIncreasing(s.numbers, |s.appended|, index - 1);
    assert Live(s') == RemoveAt(Live(s), index - 1);
    forall i | 0 <= i < |s'.numbers| ensures Live(s')[i] == InList(s', s'.numbers[i]) {
      var k := if i < index - 1 then i else i + 1;
      assert Live(s)[k] == InList(s, s.numbers[k]);
    }
  }

  lemma WrappingConserves(s: Server, i: nat, s': Server)
    requires ConservedOk(s) && i < |s.numbers| && s'.appended == s.appended && s'.dropped == s.dropped
    requires s'.numbers == RemoveAt(s.numbers, i) && s'.wrapped == s.wrapped + [s.numbers[i]]
    ensures ConservedOk(s')
  {
    RemovedElements(s.numbers, i);
    assert multiset(s'.wrapped) == multiset(s.wrapped) + multiset{s.numbers[i]};
    forall k: nat ensures Times(s', k) == if k < |s'.appended| then 1 else 0 { assert Times(s, k) >= 0; }
  }

  /** Only the numbers and the entries ever made matter for conservation. */
  lemma SameTimes(s: Server, s': Server)
    requires ConservedOk(s) && |s'.appended| == |s.appended|
    requires s'.numbers == s.numbers && s'.wrapped == s.wrapped && s'.dropped == s.dropped
    ensures ConservedOk(s')
  {
    forall k: nat ensures Times(s', k) == if k < |s'.appended| then 1 else 0 { assert Times(s, k) >= 0; }
  }

  lemma HandledKeepsInv(s: Server, e: Event)
    requires Inv(s) && e.EventHandled? && Enabled(s, e)
    ensures Inv(Step(s, e))
  {
    var index := s.connector.index;
    if index == 0 {
      SameTimes(s, Step(s, e));
    } else {
      RemovalKeepsEntries(s, index, Step(s, e));
      RemovalKeepsNumbers(s, index, Step(s, e));
      WrappingConserves(s, index - 1, Step(s, e));
    }
  }

  lemma CleanUpKeepsInv(s: Server, e: Event)
    requires Inv(s) && e.ConnectorLeft? && Enabled(s, e)
    ensures Inv(Step(s, e))
  {
    CleanUpKeepsNumbers(s);
    SameTimes(s, CleanUp(s));
  }

  lemma CleanUpKeepsNumbers(s: Server)
    requires NumbersOk(s) && EntriesOk(s) && !s.connector.Exited?
    ensures NumbersOk(CleanUp(s)) && EntriesOk(CleanUp(s))
  {
    var s' := CleanUp(s);
    forall i | 0 <= i < |s'.numbers| ensures Live(s')[i] == InList(s', s'.numbers[i]) {
      assert Live(s)[i] == InList(s, s.numbers[i]) && Live(s')[i] == CleanedUp(Live(s)[i]);
    }
  }

  lemma StopKeepsInv(s: Server, e: Event)
    requires Inv(s) && e.StopFinished? && Enabled(s, e)
    ensures Inv(Step(s, e))
  {
    var s' := Step(s, e);
    assert multiset(s'.dropped) == multiset(s.dropped) + multiset(s.numbers);
    forall n: nat ensures Times(s', n) == if n < |s'.appended| then 1 else 0 { assert Times(s, n) >= 0; }
  }

  lemma StartKeepsInv(s: Server, e: Event)
    requires Inv(s) && e.Started? && Enabled(s, e)
    ensures Inv(Step(s, e))
  {
    SameTimes(s, Step(s, e));
  }

  /** The connecting thread looks and wakes up. */
  lemma WaitKeepsInv(s: Server, e: Event)
    requires Inv(s) && Enabled(s, e) && (e.SnapshotTaken? || e.WaitReturned?)
    ensures Inv(Step(s, e))
  {
    SameTimes(s, Step(s, e));
  }

  /** The other events leave the connections alone. */
  lemma ControlKeepsInv(s: Server, e: Event)
    requires Inv(s) && Enabled(s, e) && (e.Fired? || e.StopBegun? || e.AcceptorLeft? || e.ConnectReturned?)
    ensures Inv(Step(s, e))
  {
    SameTimes(s, Step(s, e));
  }

  lemma AcceptedKeepsInv(s: Server, e: Event)
    requires Inv(s) && e.Accepted? && Enabled(s, e)
    ensures Inv(Step(s, e))
  {
    if Appends(e) {
      var s' := Append(s, EntryOf(e));
      AppendKeepsInv(s, EntryOf(e));
      SameTimes(s', Step(s, e));
    }
  }

  lemma StepKeepsInv(s: Server, e: Event)
    requires Inv(s) && Enabled(s, e)
    ensures Inv(Step(s, e))
  {
    match e
    case Accepted(_, _, _, _, _) => AcceptedKeepsInv(s, e);
    case EventHandled => HandledKeepsInv(s, e);
    case ConnectorLeft => CleanUpKeepsInv(s, e);
    case StopFinished => StopKeepsInv(s, e);
    case Started(_, _, _) => StartKeepsInv(s, e);
    case SnapshotTaken => WaitKeepsInv(s, e);
    case WaitReturned(_) => WaitKeepsInv(s, e);
    case _ => ControlKeepsInv(s, e);
  }

  /** An accepted connection that gets as far as the list. */
  predicate Appends(e: Event) {
    e.Accepted? && e.peer.port != 0 && e.remote != NO_SOCKET && e.bound
  }

  type Arrival = e: Event | Appends(e) witness Accepted(0, Peer([0, 0, 0, 0], 1, None), 0, true, 0)

  function EntryOf(e: Arrival): Entry {
    Entry(e.event, e.local, e.remote, e.peer.context)
  }

  /** The events of a run that made an entry, in order. */
  function Arrivals(es: seq<Event>): seq<Arrival> {
    if es == [] then []
    else if Appends(Last(es)) then Arrivals(DropLast(es)) + [Last(es)]
    else Arrivals(DropLast(es))
  }

  /** The numbers of the connections whose connect failed at once: each the latest arrival when connect returned. */
  function Failures(es: seq<Event>): set<int> {
    if es == [] then {}
    else
      Failures(DropLast(es)) + if Last(es) == ConnectReturned(false) then {|Arrivals(DropLast(es))| - 1} else {}
  }

  ghost predicate Follows(s: Server, e: Event, s': Server) {
    Enabled(s, e) && s' == Step(s, e)
  }

  /** Some run over the events es leads from s to s'. */
  ghost predicate Reaches(s: Server, es: seq<Event>, s': Server) {
    if es == [] then s' == s
    else exists v :: Reaches(s, DropLast(es), v) && Follows(v, Last(es), s')
  }

  /** Entries are made by arrivals; the sockets of one in the list are closed by a failed connect or the clean-up. */
  predicate Recorded(s: Server, made: seq<Arrival>, failed: set<int>) {
    && |made| == |s.appended| && (forall n :: 0 <= n < |made| ==> s.appended[n] == EntryOf(made[n]))
    && (s.acceptor.Connecting? ==> s.acceptor.number == |made| - 1)
    && (forall i :: 0 <= i < |s.numbers| ==> s.numbers[i] < |made| && ClosedOk(s, s.numbers[i], failed))
    && (forall n :: n in failed ==> n in s.closed)
    && (forall n :: n in s.closed ==> n < |made|)
  }

  predicate ClosedOk(s: Server, n: nat, failed: set<int>) {
    n in s.closed <==> n in failed || IsCleaned(s, n)
  }

  lemma ArrivalKeepsRecorded(s: Server, e: Arrival, made: seq<Arrival>, failed: set<int>)
    requires Enabled(s, e) && Recorded(s, made, failed)
    requires s.cleaned <= |s.appended| && (forall i :: 0 <= i < |s.numbers| ==> s.numbers[i] < |s.appended|)
    ensures Recorded(Step(s, e), made + [e], failed)
  {
    var s', made' := Step(s, e), made + [e];
    assert s'.numbers == s.numbers + [|made|] && s'.connector == s.connector && s'.cleaned == s.cleaned;
    forall i | 0 <= i < |s'.numbers| ensures s'.numbers[i] < |made'| && ClosedOk(s', s'.numbers[i], failed) {
      if i < |s.numbers| { assert ClosedOk(s, s.numbers[i], failed); }
    }
  }

  lemma ConnectKeepsRecorded(s: Server, e: Event, made: seq<Arrival>, failed: set<int>)
    requires Enabled(s, e) && e.ConnectReturned? && Recorded(s, made, failed)
    ensures Recorded(Step(s, e), made, failed + if e.connected then {} else {|made| - 1})
  {
    var s', failed' := Step(s, e), failed + if e.connected then {} else {|made| - 1};
    forall i | 0 <= i < |s'.numbers| ensures s'.numbers[i] < |made| && ClosedOk(s', s'.numbers[i], failed') {
      assert ClosedOk(s, s.numbers[i], failed);
    }
  }

  /** Nothing is closed or cleaned while the list only loses connections. */
  lemma FewerKeepRecorded(s: Server, s': Server, made: seq<Arrival>, failed: set<int>)
    requires Recorded(s, made, failed) && s'.appended == s.appended && s'.closed == s.closed
    requires s'.cleaned == s.cleaned && s'.connector.Exited? == s.connector.Exited?
    requires s'.acceptor == s.acceptor || !s'.acceptor.Connecting?
    requires forall i :: 0 <= i < |s'.numbers| ==> s'.numbers[i] in s.numbers
    ensures Recorded(s', made, failed)
  {
    forall i | 0 <= i < |s'.numbers| ensures s'.numbers[i] < |made| && ClosedOk(s', s'.numbers[i], failed) {
      assert s'.numbers[i] in s.numbers;
      var k :| 0 <= k < |s.numbers| && s.numbers[k] == s'.numbers[i];
      assert ClosedOk(s, s.numbers[k], failed);
    }
  }

  lemma CleanUpKeepsRecorded(s: Server, made: seq<Arrival>, failed: set<int>)
    requires Recorded(s, made, failed) && !s.connector.Exited?
    ensures Recorded(CleanUp(s), made, failed)
  {
  }

  lemma HandledKeepsRecorded(s: Server, e: Event, made: seq<Arrival>, failed: set<int>)
    requires Enabled(s, e) && e.EventHandled? && Recorded(s, made, failed)
    ensures Recorded(Step(s, e), made, failed)
  {
    if s.connector.index != 0 { RemovedElements(s.numbers, s.connector.index - 1); }
    FewerKeepRecorded(s, Step(s, e), made, failed);
  }

  lemma StartKeepsRecorded(s: Server, e: Event, made: seq<Arrival>, failed: set<int>)
    requires NumbersOk(s) && Enabled(s, e) && e.Started? && Recorded(s, made, failed)
    ensures Recorded(Step(s, e), made, failed)
  {
  }

  /** Events that leave the connections alone, and a stop, which takes all of them out of the list. */
  lemma ControlKeepsRecorded(s: Server, e: Event, made: seq<Arrival>, failed: set<int>)
    requires Enabled(s, e) && Recorded(s, made, failed)
    requires e.Fired? || e.SnapshotTaken? || e.WaitReturned? || e.StopBegun? || e.AcceptorLeft? || e.StopFinished?
    ensures Recorded(Step(s, e), made, failed)
  {
    FewerKeepRecorded(s, Step(s, e), made, failed);
  }

  lemma StepKeepsRecorded(s: Server, e: Event, made: seq<Arrival>, failed: set<int>)
    requires NumbersOk(s) && Enabled(s, e) && !Appends(e) && !e.ConnectReturned? && Recorded(s, made, failed)
    ensures Recorded(Step(s, e), made, failed)
  {
    match e
    case Accepted(_, _, _, _, _) => assert Step(s, e) == s;
    case ConnectorLeft => CleanUpKeepsRecorded(s, made, failed);
    case Started(_, _, _) => StartKeepsRecorded(s, e, made, failed);
    case EventHandled => HandledKeepsRecorded(s, e, made, failed);
    case _ => ControlKeepsRecorded(s, e, made, failed);
  }

  lemma {:induction false} RunKeepsInv(es: seq<Event>, s: Server)
    requires Reaches(Initial(), es, s)
    ensures Inv(s)
  {
    if es != [] {
      var v :| Reaches(Initial(), DropLast(es), v) && Follows(v, Last(es), s);
      RunKeepsInv(DropLast(es), v);
      StepKeepsInv(v, Last(es));
    }
  }

  lemma OneMoreRecorded(es: seq<Event>, v: Server, s: Server)
    requires es != [] && Follows(v, Last(es), s) && NumbersOk(v)
    requires Recorded(v, Arrivals(DropLast(es)), Failures(DropLast(es)))
    ensures Recorded(s, Arrivals(es), Failures(es))
  {
    var made, failed := Arrivals(DropLast(es)), Failures(DropLast(es));
    if Appends(Last(es)) { ArrivalKeepsRecorded(v, Last(es), made, failed); }
    else if Last(es).ConnectReturned? { ConnectKeepsRecorded(v, Last(es), made, failed); }
    else { StepKeepsRecorded(v, Last(es), made, failed); }
  }

  lemma {:induction false} RunIsRecorded(es: seq<Event>, s: Server)
    requires Reaches(Initial(), es, s)
    ensures Recorded(s, Arrivals(es), Failures(es))
  {
    if es != [] {
      var v :| Reaches(Initial(), DropLast(es), v) && Follows(v, Last(es), s);
      RunKeepsInv(DropLast(es), v);
      RunIsRecorded(DropLast(es), v);
      OneMoreRecorded(es, v, s);
    }
  }

  // ---------------------------------------------------------------------------------
  // What single events do
  // ---------------------------------------------------------------------------------

  /** A start makes the list of the sentinel alone and both threads, or leaves a stopped server without entries. */
  lemma StartOutcome(s: Server, e: Event)
    requires e.Started? && Enabled(s, e)
    ensures var s' := Step(s, e);
            if !s.ended then s' == s
            else if e.socket == -1 || e.attached then
              && !s'.ended && s'.acceptor == Listening && s'.connector == Looking
              && s'.entries == [Entry(e.event, e.socket, -1, None)] && s'.signalled == s.signalled - {e.event}
            else s' == s
  {
  }

  /** The accepting thread is told to go on with a connection, or else to close its socket, as the list has it. */
  lemma BeginConnectAnswers(s: Server, local: int, peer: Peer, remote: int, bound: bool, event: Handle)
    requires s.entries != []
    ensures var (ok, s') := BeginConnect(s, local, peer, remote, bound, event);
            && (ok <==> peer.port != 0 && remote != -1 && bound)
            && |s'.entries| == |s.entries| + if ok then 1 else 0
  {
  }

  /** A new connection goes to the end of the list; its event is unsignalled and that of slot 0 signalled. */
  lemma AppendOutcome(s: Server, e: Event)
    requires Appends(e) && Enabled(s, e)
    ensures var s' := Step(s, e);
            && s'.entries == s.entries + [Entry(e.event, e.local, e.remote, e.peer.context)]
            && e.event !in s'.signalled && s'.entries[0].event in s'.signalled
            && (forall h :: h != e.event && h != s.entries[0].event ==> (h in s'.signalled <==> h in s.signalled))
            && s'.acceptor == Connecting(|s.appended|) && s'.connector == s.connector
  {
    assert Handles(s.entries)[0] == s.entries[0].event;
  }

  /** The snapshot has the event of every entry, at its position. */
  lemma SnapshotIsComplete(s: Server)
    requires Enabled(s, SnapshotTaken)
    ensures var c := Step(s, SnapshotTaken).connector;
            && c.Waiting? && |c.events| == |s.entries|
            && (forall i :: 0 <= i < |s.entries| ==> c.events[i] == s.entries[i].event)
  {
  }

  /** A wake-up through slot 0 is reset and changes nothing else. */
  lemma WakeUpIsReset(es: seq<Event>, s: Server)
    requires Reaches(Initial(), es, s) && Enabled(s, EventHandled) && s.connector.index == 0
    ensures var s' := Step(s, EventHandled);
            && s' == s.(connector := Looking, signalled := s'.signalled) && s.entries != []
            && (forall h :: h in s'.signalled <==> h in s.signalled && h != s.entries[0].event)
  {
    RunKeepsInv(es, s);
  }

  /** Any other takes its entry out of the list and leaves the signals as they are. */
  lemma EntryIsTaken(s: Server)
    requires Enabled(s, EventHandled) && s.connector.index != 0
    ensures var s', index := Step(s, EventHandled), s.connector.index;
            && s'.signalled == s.signalled && s'.connector == Looking
            && s'.entries[..index] == s.entries[..index] && s'.entries[index..] == s.entries[index + 1..]
  {
  }

  /** A stop ends the server and wakes a waiting connecting thread. */
  lemma StopWakesConnector(es: seq<Event>, s: Server)
    requires Reaches(Initial(), es, s) && Enabled(s, StopBegun)
    ensures Step(s, StopBegun).ended
    ensures !s.ended && s.connector.Waiting? ==> Enabled(Step(s, StopBegun), WaitReturned(0))
  {
    RunKeepsInv(es, s);
  }

  /** The clean-up closes the sockets of all entries and keeps their number, events and contexts. */
  lemma CleanUpOutcome(s: Server)
    requires Enabled(s, ConnectorLeft)
    ensures var s' := Step(s, ConnectorLeft);
            && s'.connector == Exited && |s'.entries| == |s.entries|
            && (forall i :: 0 <= i < |s.entries| ==>
                  s'.entries[i] == Entry(s.entries[i].event, -1, -1, s.entries[i].context))
  {
  }

  // ---------------------------------------------------------------------------------
  // Main results
  // ---------------------------------------------------------------------------------

  /**
    However many entries are appended between the snapshot and the wake-up, the connection that becomes a proxy socket
    is the one that stood at that position of the snapshot. Its event has fired, and no other entry has that event.
    The sentinel keeps slot 0.
   */
  lemma WrapsTheFiredEntry(es: seq<Event>, s: Server)
    requires Reaches(Initial(), es, s) && Enabled(s, EventHandled) && s.connector.index != 0
    ensures var index := s.connector.index;
            var s' := Step(s, EventHandled);
            && index < |s.connector.seen| <= |s.entries|
            && s'.wrapped == s.wrapped + [s.numbers[index - 1]] && s.numbers[index - 1] < |s.appended|
            && s.appended[s.numbers[index - 1]] == s.connector.seen[index]
            && s.connector.seen[index].event == s.connector.events[index]
            && s.connector.events[index] in s.signalled
            && (forall i :: 0 <= i < |s.entries| && s.entries[i].event == s.connector.events[index] ==> i == index)
            && IsConnection(s.entries[index])
            && s'.entries != [] && s'.entries[0] == s.entries[0] && IsSentinel(s.entries[0])
  {
    RunKeepsInv(es, s);
    RemovedElements(s.entries, s.connector.index);
    assert Live(s)[s.connector.index - 1] == s.entries[s.connector.index];
  }

  /** While the connecting thread works with a snapshot, the live list only grows at its end. */
  lemma SnapshotStaysPrefix(es: seq<Event>, s: Server)
    requires Reaches(Initial(), es, s) && (s.connector.Waiting? || s.connector.Woken?)
    ensures s.connector.seen <= s.entries && s.connector.events <= Handles(s.entries)
  {
    RunKeepsInv(es, s);
  }

  /**
    The n-th connection that got as far as the list is, once and in one place only, still in the list, wrapped, or
    dropped by a stop. The list keeps the order in which connections came.
   */
  lemma ConnectionsAreConserved(es: seq<Event>, s: Server, n: nat)
    requires Reaches(Initial(), es, s)
    ensures Times(s, n) == if n < |Arrivals(es)| then 1 else 0
    ensures n < |Arrivals(es)| ==> n < |s.appended| && s.appended[n] == EntryOf(Arrivals(es)[n])
    ensures forall i, j :: 0 <= i < j < |s.numbers| ==> s.numbers[i] < s.numbers[j]
  {
    RunKeepsInv(es, s);
    RunIsRecorded(es, s);
  }

  /** If an entry was appended after the snapshot, the wait on the snapshot can return. */
  lemma AppendWakesConnector(es: seq<Event>, s: Server)
    requires Reaches(Initial(), es, s) && s.connector.Waiting? && s.connector.seen != s.entries
    ensures Enabled(s, WaitReturned(0))
  {
    RunKeepsInv(es, s);
  }

  /**
    Which connections have lost their sockets. Until the connecting thread leaves, those in the list are exactly the
    ones whose connect failed at once: they stay in the list, and may still be wrapped, or were wrapped before.
    What is left over when a stop finishes keeps its sockets open exactly if its connect did not fail and it came after
    the connecting thread's clean-up.
   */
  lemma ClosedSocketsInList(es: seq<Event>, s: Server, n: nat)
    requires Reaches(Initial(), es, s)
    ensures n in Failures(es) ==> n in s.closed && n < |Arrivals(es)|
    ensures n in s.numbers && !s.connector.Exited? ==> (n in s.closed <==> n in Failures(es))
    ensures n in s.numbers && s.connector.Exited? ==> (n !in s.closed <==> n !in Failures(es) && s.cleaned <= n)
  {
    RunIsRecorded(es, s);
  }

  /** A client without a mapping is refused, and so is one whose connection cannot even be started; nothing changes. */
  lemma RefusedConnections(s: Server, e: Event)
    requires e.Accepted? && Enabled(s, e)
    ensures Step(s, e) == s <==> !Appends(e)
    ensures e.peer.port == 0 ==> Step(s, e) == s
  {
    assert Appends(e) ==> |Step(s, e).entries| == |s.entries| + 1;
  }
}
