/** The TCP redirect: its connection table, and what a translation does to addresses and ports. */
module TcpRedirect {
  import opened Basics
  import opened Frames

  const TH_FIN := 0x01
  const TH_SYN := 0x02
  const TH_RST := 0x04
  const TH_ACK := 0x10
  const FIVE_MINUTES := 300

  datatype Endpoint = Endpoint(ip: Address, port: uint16)

  /** redirected_connections_: destination address and client port to original destination port and time of last use. */
  datatype Entry = Entry(port: uint16, timestamp: nat)
  type Table = map<Endpoint, Entry>

  /** The fields of a TCP frame that the redirect looks at or changes. */
  datatype View = View(
    ethDest: seq<byte>,
    ethSource: seq<byte>,
    src: Address,
    dst: Address,
    sport: uint16,
    dport: uint16,
    flags: byte)

  function ViewOf(f: seq<byte>): View
    requires |f| >= MIN_FRAME_CAPACITY
  {
    View(EthDest(f), EthSource(f), IpSource(f), IpDest(f), SourcePort(f), DestPort(f), f[Transport(f) + 13])
  }

  predicate IsTcp(f: seq<byte>)
    requires |f| >= MIN_FRAME_CAPACITY
  {
    EtherType(f) == ETH_P_IP && Protocol(f) == IPPROTO_TCP
  }

  /** (flags & (TH_SYN | TH_ACK)) == TH_SYN */
  predicate OpensConnection(v: View) {
    HasBit(v.flags, TH_SYN) && !HasBit(v.flags, TH_ACK)
  }

  predicate ClosesConnection(v: View) {
    HasBit(v.flags, TH_RST) || HasBit(v.flags, TH_FIN)
  }

  function ClientKey(v: View): Endpoint {
    Endpoint(v.dst, v.sport)
  }

  function ReplyKey(v: View): Endpoint {
    Endpoint(v.dst, v.dport)
  }

  // ---------------------------------------------------------------------------------
  // The table
  // ---------------------------------------------------------------------------------

  /** Whether a client packet is translated, and the table afterwards. */
  function ClientPacket(t: Table, v: View, now: nat): (bool, Table) {
    var key := ClientKey(v);
    if OpensConnection(v) then
      if key in t then (false, t) else (true, t[key := Entry(v.dport, now)])
    else if key !in t then (false, t)
    else if ClosesConnection(v) then (true, t - {key})
    else (true, t[key := t[key].(timestamp := now)])
  }

  /** Whether a proxy packet is translated, and the table afterwards. */
  function ProxyPacket(t: Table, v: View, now: nat): (bool, Table) {
    var key := ReplyKey(v);
    if key !in t then (false, t)
    else if ClosesConnection(v) then (true, t - {key})
    else (true, t[key := t[key].(timestamp := now)])
  }

  function CleanUp(t: Table, now: nat): Table {
    map key | key in t && now - t[key].timestamp <= FIVE_MINUTES :: t[key]
  }

  /** The client packet as the proxy receives it. */
  function ToProxy(v: View, port: uint16): View {
    View(v.ethSource, v.ethDest, v.dst, v.src, v.sport, port, v.flags)
  }

  /** The proxy packet as the client receives it. */
  function ToClient(v: View, port: uint16): View {
    View(v.ethSource, v.ethDest, v.dst, v.src, port, v.dport, v.flags)
  }

  // ---------------------------------------------------------------------------------
  // Runs
  // ---------------------------------------------------------------------------------

  datatype Event = Client(v: View, now: nat) | Proxy(v: View, now: nat) | Expire(now: nat)

  function Step(t: Table, e: Event): Table {
    match e
    case Client(v, now) => ClientPacket(t, v, now).1
    case Proxy(v, now) => ProxyPacket(t, v, now).1
    case Expire(now) => CleanUp(t, now)
  }

  /** The table after a sequence of packets and clean-ups, from the start. */
  function Run(es: seq<Event>): Table {
    if es == [] then map[] else Step(Run(DropLast(es)), Last(es))
  }

  /** The i-th event is the SYN that created the entry for key, with this destination port. */
  predicate Creates(es: seq<Event>, i: nat, key: Endpoint, port: uint16)
    requires i < |es|
  {
    && es[i].Client? && OpensConnection(es[i].v) && ClientKey(es[i].v) == key && es[i].v.dport == port
    && key !in Run(es[..i])
  }

  /** From the event numbered `from` on, the entry has been in the table with this port. */
  predicate HeldSince(es: seq<Event>, from: nat, key: Endpoint, port: uint16)
    requires from <= |es|
  {
    forall j :: from <= j <= |es| ==> Holds(es, j, key, port)
  }

  predicate Holds(es: seq<Event>, j: nat, key: Endpoint, port: uint16)
    requires j <= |es|
  {
    key in Run(es[..j]) && Run(es[..j])[key].port == port
  }

  /** A live entry has exactly the port of the SYN that created it, and has kept it ever since. */
  lemma {:induction false} LiveEntryHasOpener(es: seq<Event>, key: Endpoint) returns (i: nat)
    requires key in Run(es)
    ensures i < |es| && Creates(es, i, key, Run(es)[key].port)
    ensures HeldSince(es, i + 1, key, Run(es)[key].port)
  {
    var before, e := DropLast(es), Last(es);
    var port := Run(es)[key].port;
    assert es[..|es|] == es;
    assert es[..|es| - 1] == before;
    if key in Run(before) {
      i := LiveEntryHasOpener(before, key);
      assert es[..i] == before[..i];
      forall j | i + 1 <= j <= |es| ensures Holds(es, j, key, port) {
        if j < |es| {
          assert Holds(before, j, key, port);
          assert es[..j] == before[..j];
        }
      }
    } else {
      i := |es| - 1;
    }
  }

  /** An entry leaves the table exactly on a translated FIN or RST of its connection, or by expiry. */
  lemma EntryIsRemovedBy(t: Table, e: Event, key: Endpoint)
    requires key in t
    ensures key !in Step(t, e) <==>
              match e
              case Client(v, _) => ClientKey(v) == key && !OpensConnection(v) && ClosesConnection(v)
              case Proxy(v, _) => ReplyKey(v) == key && ClosesConnection(v)
              case Expire(now) => now - t[key].timestamp > FIVE_MINUTES
    ensures key in Step(t, e) ==> Step(t, e)[key].port == t[key].port
  {
  }

  // ---------------------------------------------------------------------------------
  // In flags, events and times
  // ---------------------------------------------------------------------------------

  /** A TCP packet, and what of it decides, in the bytes of the frame. */
  lemma ViewPlaces(f: seq<byte>)
    requires |f| >= MIN_FRAME_CAPACITY
    ensures IsTcp(f) <==> f[12] == 8 && f[13] == 0 && f[23] == 6
    ensures ClientKey(ViewOf(f)).ip == f[30..34] == ReplyKey(ViewOf(f)).ip
    ensures var t := 14 + 4 * (f[14] % 16);
            && ClientKey(ViewOf(f)).port == f[t] as int * 256 + f[t + 1]
            && ReplyKey(ViewOf(f)).port == f[t + 2] as int * 256 + f[t + 3]
            && ViewOf(f).dport == f[t + 2] as int * 256 + f[t + 3]
            && ViewOf(f).flags == f[t + 13]
  {
    FieldPlaces(f);
  }

  /** SYN without ACK, in the bits of the flags byte. */
  predicate Opening(flags: byte) {
    flags / 2 % 2 == 1 && flags / 16 % 2 == 0
  }

  /** FIN or RST. */
  predicate Closing(flags: byte) {
    flags % 2 == 1 || flags / 4 % 2 == 1
  }

  /** The masks of the source test these bits. */
  lemma FlagBits(v: View)
    ensures OpensConnection(v) <==> Opening(v.flags)
    ensures ClosesConnection(v) <==> Closing(v.flags)
  {
  }

  /**
    An opening SYN is translated exactly if its endpoint is not in the table, any other client packet, FIN and RST
    included, exactly if it is; a proxy packet exactly if the endpoint it answers is.
   */
  lemma TranslatedIff(t: Table, v: View, now: nat)
    ensures ClientPacket(t, v, now).0 <==>
              if Opening(v.flags) then Endpoint(v.dst, v.sport) !in t else Endpoint(v.dst, v.sport) in t
    ensures ProxyPacket(t, v, now).0 <==> Endpoint(v.dst, v.dport) in t
  {
  }

  /** The event is a packet of the client to, or of the proxy from, this endpoint. */
  predicate Concerns(e: Event, key: Endpoint) {
    match e
    case Client(v, _) => v.dst == key.ip && v.sport == key.port
    case Proxy(v, _) => v.dst == key.ip && v.dport == key.port
    case Expire(_) => false
  }

  /** With this table, the event opens the endpoint, or is a packet of it that is translated. */
  predicate Uses(t: Table, e: Event, key: Endpoint) {
    Concerns(e, key) && (if e.Client? && Opening(e.v.flags) then key !in t else key in t)
  }

  predicate ClosesEntry(e: Event, key: Endpoint) {
    Concerns(e, key) && Closing(e.v.flags) && !(e.Client? && Opening(e.v.flags))
  }

  /** The table after an event, endpoint by endpoint. */
  lemma EntryAfter(t: Table, e: Event, key: Endpoint)
    ensures Uses(t, e, key) ==>
              && (key in Step(t, e) <==> !ClosesEntry(e, key))
              && (key in Step(t, e) ==> Step(t, e)[key].timestamp == e.now)
              && (key in Step(t, e) ==> Step(t, e)[key].port == if key in t then t[key].port else e.v.dport)
    ensures !Uses(t, e, key) ==>
              && (key in Step(t, e) <==> key in t && !(e.Expire? && e.now > t[key].timestamp + 300))
              && (key in Step(t, e) ==> Step(t, e)[key] == t[key])
  {
    if !e.Expire? {
      var used := Endpoint(e.v.dst, if e.Client? then e.v.sport else e.v.dport);
      assert Concerns(e, key) <==> used == key;
    }
  }

  /** The i-th event of a run is the last that used this endpoint. */
  predicate LastUse(es: seq<Event>, i: nat, key: Endpoint) {
    i < |es| && Uses(Run(es[..i]), es[i], key) && Unused(es, i + 1, key)
  }

  predicate Unused(es: seq<Event>, from: nat, key: Endpoint) {
    forall j {:trigger es[j]} :: from <= j < |es| ==> !Uses(Run(es[..j]), es[j], key)
  }

  lemma LastUseNow(es: seq<Event>, key: Endpoint)
    requires es != [] && Uses(Run(DropLast(es)), Last(es), key)
    ensures LastUse(es, |es| - 1, key)
  {
    assert es[..|es| - 1] == DropLast(es);
  }

  lemma LastUseKept(es: seq<Event>, i: nat, key: Endpoint)
    requires es != [] && LastUse(DropLast(es), i, key) && !Uses(Run(DropLast(es)), Last(es), key)
    ensures LastUse(es, i, key)
  {
    assert es[..i] == DropLast(es)[..i];
    forall j {:trigger es[j]} | i + 1 <= j < |es| ensures !Uses(Run(es[..j]), es[j], key) {
      assert es[..j] == DropLast(es)[..j];
      if j < |es| - 1 { assert DropLast(es)[j] == es[j]; }
    }
  }

  /** The time of a live entry is that of the last packet that used it. */
  lemma {:induction false} EntryTime(es: seq<Event>, key: Endpoint) returns (i: nat)
    requires key in Run(es)
    ensures LastUse(es, i, key) && Run(es)[key].timestamp == es[i].now
  {
    var before, e := DropLast(es), Last(es);
    EntryAfter(Run(before), e, key);
    if Uses(Run(before), e, key) {
      i := |es| - 1;
      LastUseNow(es, key);
    } else {
      i := EntryTime(before, key);
      LastUseKept(es, i, key);
    }
  }

  /**
    A live entry goes exactly with a FIN or RST of its connection, or when a clean-up comes more than 300 seconds after
    the last packet that used it.
   */
  lemma EntryGoesIff(es: seq<Event>, e: Event, key: Endpoint) returns (last: nat)
    requires key in Run(es)
    ensures LastUse(es, last, key)
    ensures key !in Run(es + [e]) <==> ClosesEntry(e, key) || (e.Expire? && e.now > es[last].now + 300)
  {
    last := EntryTime(es, key);
    assert DropLast(es + [e]) == es;
    EntryAfter(Run(es), e, key);
  }

  /** Once an endpoint is closed, only a new SYN makes it live again: until then no reply of the proxy is translated. */
  lemma ClosedUntilReopened(es: seq<Event>, i: nat, reply: View, now: nat) returns (opener: nat)
    requires i < |es| && ClosesEntry(es[i], ReplyKey(reply)) && ProxyPacket(Run(es), reply, now).0
    ensures i < opener < |es| && es[opener].Client? && Opening(es[opener].v.flags)
    ensures Concerns(es[opener], ReplyKey(reply)) && es[opener].v.dport == Run(es)[ReplyKey(reply)].port
  {
    var key := ReplyKey(reply);
    opener := LiveEntryHasOpener(es, key);
    if opener < i {
      assert Holds(es, i, key, Run(es)[key].port) && Holds(es, i + 1, key, Run(es)[key].port);
      assert DropLast(es[..i + 1]) == es[..i];
      EntryAfter(Run(es[..i]), es[i], key);
    }
  }

  /** What a packet sent straight back to its sender looks like. */
  predicate IsReplyTo(r: View, v: View) {
    && r.ethDest == v.ethSource && r.ethSource == v.ethDest
    && r.src == v.dst && r.dst == v.src
    && r.sport == v.dport && r.dport == v.sport
  }

  /**
    Transparency over runs. A client packet was translated to the proxy, its entry stayed in the table ever
    since, and the proxy replies to what it received. The reply is translated, and the client gets a packet that
    replies directly to the one it sent exactly when that one went to the port of the SYN that opened the connection.
   */
  lemma NatIsTransparent(es: seq<Event>, sent: nat, port: uint16, reply: View, later: nat) returns (opener: nat)
    requires sent < |es| && es[sent].Client?
    requires ClientPacket(Run(es[..sent]), es[sent].v, es[sent].now).0
    requires forall j :: sent < j <= |es| ==> ClientKey(es[sent].v) in Run(es[..j])
    requires IsReplyTo(reply, ToProxy(es[sent].v, port))
    ensures opener <= sent && es[opener].Client?
    ensures Creates(es, opener, ClientKey(es[sent].v), es[opener].v.dport)
    ensures ProxyPacket(Run(es), reply, later).0 && ReplyKey(reply) in Run(es)
    ensures IsReplyTo(ToClient(reply, Run(es)[ReplyKey(reply)].port), es[sent].v)
            <==> es[sent].v.dport == es[opener].v.dport
  {
    var key := ClientKey(es[sent].v);
    assert es[..|es|] == es;
    opener := LiveEntryHasOpener(es, key);
    assert key !in Run(es[..opener]);
  }

  /** Two connections from one client port to two ports of one host: the reply to the second names the first's port. */
  lemma SharedEntryMistranslates() returns (es: seq<Event>, sent: View, reply: View)
    ensures |es| == 2 && es[1] == Client(sent, 1) && ClientPacket(Run(es[..1]), sent, 1).0
    ensures IsReplyTo(reply, ToProxy(sent, 1080)) && ProxyPacket(Run(es), reply, 2).0
    ensures ReplyKey(reply) in Run(es) && !IsReplyTo(ToClient(reply, Run(es)[ReplyKey(reply)].port), sent)
  {
    var mac, client, server := [0, 0, 0, 0, 0, 0], [10, 0, 0, 2], [10, 0, 0, 1];
    var first := View(mac, mac, client, server, 50000, 80, TH_SYN);
    sent := View(mac, mac, client, server, 50000, 443, TH_ACK);
    var received := ToProxy(sent, 1080);
    reply := View(mac, mac, received.dst, received.src, received.dport, received.sport, TH_ACK);
    es := [Client(first, 0), Client(sent, 1)];
    assert DropLast(es) == [es[0]] && DropLast([es[0]]) == [] && es[..1] == [es[0]];
    assert OpensConnection(first) && !OpensConnection(sent) && !ClosesConnection(sent) && !ClosesConnection(reply);
    assert Run([es[0]]) == map[Endpoint(server, 50000) := Entry(80, 0)];
    assert Run(es) == map[Endpoint(server, 50000) := Entry(80, 1)];
  }

  // ---------------------------------------------------------------------------------
  // Frames
  // ---------------------------------------------------------------------------------

  /** g is f turned around, with these ports; only addresses, ports and the two checksums differ. */
  ghost predicate TurnedAround(f: seq<byte>, g: seq<byte>, sport: uint16, dport: uint16) {
    && |f| == |g| >= MIN_FRAME_CAPACITY
    && EthDest(g) == EthSource(f) && EthSource(g) == EthDest(f)
    && IpSource(g) == IpDest(f) && IpDest(g) == IpSource(f)
    && Transport(g) == Transport(f) && SourcePort(g) == sport && DestPort(g) == dport
    && forall i {:trigger g[i]} :: 12 <= i < |f| && !IsRewritten(i, Transport(f)) ==> g[i] == f[i]
  }

  predicate IsRewritten(i: int, transport: nat) {
    24 <= i < 34 || transport <= i < transport + 4 || transport + 16 <= i < transport + 18
  }

  /** In fields, that is the view the proxy or the client gets. */
  lemma TurnedAroundView(f: seq<byte>, g: seq<byte>, port: uint16)
    requires |f| >= MIN_FRAME_CAPACITY && HeaderWords(f) >= MIN_HEADER_WORDS
    ensures TurnedAround(f, g, SourcePort(f), port) ==> ViewOf(g) == ToProxy(ViewOf(f), port) && IsTcp(f) == IsTcp(g)
    ensures TurnedAround(f, g, port, DestPort(f)) ==> ViewOf(g) == ToClient(ViewOf(f), port) && IsTcp(f) == IsTcp(g)
  {
    if TurnedAround(f, g, SourcePort(f), port) || TurnedAround(f, g, port, DestPort(f)) {
      var at := Transport(f) + 13;
      assert !IsRewritten(at, Transport(f)) && !IsRewritten(12, Transport(f)) && !IsRewritten(13, Transport(f));
      assert !IsRewritten(23, Transport(f));
    }
  }

  function WithSums(f: seq<byte>, transport: nat, tcpSum: uint16, ipSum: uint16): seq<byte>
    requires |f| >= MIN_FRAME_CAPACITY && transport <= 74
  {
    Splice(Splice(f, transport + 16, Be16Bytes(tcpSum)), 24, Be16Bytes(ipSum))
  }

  lemma SumBytes(f: seq<byte>, transport: nat, tcpSum: uint16, ipSum: uint16)
    requires |f| >= MIN_FRAME_CAPACITY && transport <= 74
    ensures var g := WithSums(f, transport, tcpSum, ipSum);
            && |g| == |f|
            && (forall i {:trigger g[i]} ::
                  0 <= i < |f| && !(24 <= i < 26) && !(transport + 16 <= i < transport + 18) ==> g[i] == f[i])
  {
    SpliceElements(f, transport + 16, Be16Bytes(tcpSum));
    SpliceElements(Splice(f, transport + 16, Be16Bytes(tcpSum)), 24, Be16Bytes(ipSum));
  }

  /** g is f but for one of its ports. */
  lemma PortStored(f: seq<byte>, at: nat, port: uint16)
    requires |f| >= MIN_FRAME_CAPACITY && 34 <= at <= 76
    ensures var g := Splice(f, at, Be16Bytes(port));
            && |g| == |f| && Word(g, at) == port
            && EthDest(g) == EthDest(f) && EthSource(g) == EthSource(f)
            && IpSource(g) == IpSource(f) && IpDest(g) == IpDest(f)
            && (forall i {:trigger g[i]} :: 12 <= i < |f| && !(at <= i < at + 2) ==> g[i] == f[i])
  {
    SpliceElements(f, at, Be16Bytes(port));
  }

  /** The edits in the order the source makes them, for any length of the IP header. */
  function Redirected(f: seq<byte>, port: uint16, tcpSum: uint16, ipSum: uint16): seq<byte>
    requires |f| >= MIN_FRAME_CAPACITY
  {
    var t := Transport(f);
    WithSums(Splice(WithAddressesSwapped(f), t + 2, Be16Bytes(port)), t, tcpSum, ipSum)
  }

  function Returned(f: seq<byte>, port: uint16, tcpSum: uint16, ipSum: uint16): seq<byte>
    requires |f| >= MIN_FRAME_CAPACITY
  {
    var t := Transport(f);
    WithSums(WithAddressesSwapped(Splice(f, t, Be16Bytes(port))), t, tcpSum, ipSum)
  }

  /** They turn a frame with a whole IP header around. */
  lemma EditsToProxy(f: seq<byte>, port: uint16, tcpSum: uint16, ipSum: uint16)
    requires |f| >= MIN_FRAME_CAPACITY && HeaderWords(f) >= MIN_HEADER_WORDS
    ensures TurnedAround(f, Redirected(f, port, tcpSum, ipSum), SourcePort(f), port)
  {
    var t := Transport(f);
    var swapped := WithAddressesSwapped(f);
    SwappedBytes(f);
    PortStored(swapped, t + 2, port);
    SumBytes(Splice(swapped, t + 2, Be16Bytes(port)), t, tcpSum, ipSum);
  }

  lemma EditsToClient(f: seq<byte>, port: uint16, tcpSum: uint16, ipSum: uint16)
    requires |f| >= MIN_FRAME_CAPACITY && HeaderWords(f) >= MIN_HEADER_WORDS
    ensures TurnedAround(f, Returned(f, port, tcpSum, ipSum), port, DestPort(f))
  {
    var t := Transport(f);
    var addressed := Splice(f, t, Be16Bytes(port));
    PortStored(f, t, port);
    SwappedBytes(addressed);
    SumBytes(WithAddressesSwapped(addressed), t, tcpSum, ipSum);
  }

  /** A redirected frame, byte by byte. */
  lemma RedirectedBytes(f: seq<byte>, port: uint16, tcpSum: uint16, ipSum: uint16, i: nat)
    requires i < |f| && |f| >= MIN_FRAME_CAPACITY && f[14] % 16 >= 5
    ensures |Redirected(f, port, tcpSum, ipSum)| == |f|
    ensures Redirected(f, port, tcpSum, ipSum)[i] ==
              var t := 14 + 4 * (f[14] % 16);
              if i < 6 then f[i + 6] else if i < 12 then f[i - 6]
              else if 24 <= i < 26 then Be16Bytes(ipSum)[i - 24]
              else if 26 <= i < 30 then f[i + 4] else if 30 <= i < 34 then f[i - 4]
              else if t + 2 <= i < t + 4 then Be16Bytes(port)[i - t - 2]
              else if t + 16 <= i < t + 18 then Be16Bytes(tcpSum)[i - t - 16] else f[i]
  {
    SwappedByte(f, i);
  }

  lemma ReturnedBytes(f: seq<byte>, port: uint16, tcpSum: uint16, ipSum: uint16, i: nat)
    requires i < |f| && |f| >= MIN_FRAME_CAPACITY && f[14] % 16 >= 5
    ensures |Returned(f, port, tcpSum, ipSum)| == |f|
    ensures Returned(f, port, tcpSum, ipSum)[i] ==
              var t := 14 + 4 * (f[14] % 16);
              if i < 6 then f[i + 6] else if i < 12 then f[i - 6]
              else if 24 <= i < 26 then Be16Bytes(ipSum)[i - 24]
              else if 26 <= i < 30 then f[i + 4] else if 30 <= i < 34 then f[i - 4]
              else if t <= i < t + 2 then Be16Bytes(port)[i - t]
              else if t + 16 <= i < t + 18 then Be16Bytes(tcpSum)[i - t - 16] else f[i]
  {
    var addressed := Splice(f, Transport(f), Be16Bytes(port));
    SwappedByte(addressed, i);
  }

  /** A TCP packet of the client to a live endpoint, one that closes it included, reaches the proxy. */
  lemma LiveClientPacketReachesProxy(
      es: seq<Event>, f: seq<byte>, now: nat, port: uint16, tcpSum: uint16, ipSum: uint16)
    requires |f| >= MIN_FRAME_CAPACITY && HeaderWords(f) >= MIN_HEADER_WORDS
    requires ClientKey(ViewOf(f)) in Run(es) && !Opening(ViewOf(f).flags)
    ensures ClientPacket(Run(es), ViewOf(f), now).0
    ensures ViewOf(Redirected(f, port, tcpSum, ipSum)) == ToProxy(ViewOf(f), port)
  {
    EditsToProxy(f, port, tcpSum, ipSum);
    TurnedAroundView(f, Redirected(f, port, tcpSum, ipSum), port);
  }

  /** One of the proxy for a live endpoint, closing or not, reaches the client from the port of the opening SYN. */
  lemma LiveProxyPacketReachesClient(es: seq<Event>, f: seq<byte>, now: nat, tcpSum: uint16, ipSum: uint16)
    returns (opener: nat)
    requires |f| >= MIN_FRAME_CAPACITY && HeaderWords(f) >= MIN_HEADER_WORDS
    requires ReplyKey(ViewOf(f)) in Run(es)
    ensures opener < |es| && Creates(es, opener, ReplyKey(ViewOf(f)), Run(es)[ReplyKey(ViewOf(f))].port)
    ensures ProxyPacket(Run(es), ViewOf(f), now).0
    ensures ViewOf(Returned(f, Run(es)[ReplyKey(ViewOf(f))].port, tcpSum, ipSum)) ==
              ToClient(ViewOf(f), es[opener].v.dport)
  {
    opener := LiveEntryHasOpener(es, ReplyKey(ViewOf(f)));
    var port := Run(es)[ReplyKey(ViewOf(f))].port;
    EditsToClient(f, port, tcpSum, ipSum);
    TurnedAroundView(f, Returned(f, port, tcpSum, ipSum), port);
  }

  class TcpLocalRedirect {
    var proxyPort: uint16
    var connections: Table

    constructor (proxyPort: uint16)
      ensures this.proxyPort == proxyPort && connections == map[]
    {
      this.proxyPort := proxyPort;
      connections := map[];
    }

    /** The port argument, or the configured one for 0. */
    function PortOr(port: uint16): uint16
      reads this
    {
      if port == 0 then proxyPort else port
    }

    /** tcpSum and ipSum are what the driver library writes into the checksum fields. */
    method RecalculateChecksums(buffer: array<byte>, transport: nat, tcpSum: uint16, ipSum: uint16)
      requires buffer.Length >= MIN_FRAME_CAPACITY && transport <= 74
      modifies buffer
      ensures buffer[..] == WithSums(old(buffer[..]), transport, tcpSum, ipSum)
    {
      StoreWord(buffer, transport + 16, tcpSum);
      StoreWord(buffer, 24, ipSum);
    }

    method ReadView(buffer: array<byte>) returns (v: View)
      requires buffer.Length >= MIN_FRAME_CAPACITY
      ensures v == ViewOf(buffer[..])
    {
      var t := ETHER_HEADER_LENGTH + 4 * (buffer[14] % 0x10) as nat;
      v := View([buffer[0], buffer[1], buffer[2], buffer[3], buffer[4], buffer[5]],
                [buffer[6], buffer[7], buffer[8], buffer[9], buffer[10], buffer[11]],
                [buffer[26], buffer[27], buffer[28], buffer[29]], [buffer[30], buffer[31], buffer[32], buffer[33]],
                Be16(buffer[t], buffer[t + 1]), Be16(buffer[t + 2], buffer[t + 3]), buffer[t + 13]);
    }

    method TrackClientPacket(v: View, now: nat) returns (translated: bool)
      modifies this`connections
      ensures (translated, connections) == ClientPacket(old(connections), v, now)
    {
      var key := Endpoint(v.dst, v.sport);
      if HasBit(v.flags, TH_SYN) && !HasBit(v.flags, TH_ACK) {
        if key in connections {
          return false;
        }
        connections := connections[key := Entry(v.dport, now)];
      } else {
        if key !in connections {
          return false;
        }
        if HasBit(v.flags, TH_RST) || HasBit(v.flags, TH_FIN) {
          connections := connections - {key};
        } else {
          connections := connections[key := connections[key].(timestamp := now)];
        }
      }
      translated := true;
    }

    method TrackProxyPacket(v: View, now: nat) returns (port: Option<uint16>)
      modifies this`connections
      ensures (port.Some?, connections) == ProxyPacket(old(connections), v, now)
      ensures port.Some? ==> ReplyKey(v) in old(connections) && port.value == old(connections)[ReplyKey(v)].port
    {
      var key := Endpoint(v.dst, v.dport);
      if key !in connections {
        return None;
      }
      port := Some(connections[key].port);
      if HasBit(v.flags, TH_RST) || HasBit(v.flags, TH_FIN) {
        connections := connections - {key};
      } else {
        connections := connections[key := connections[key].(timestamp := now)];
      }
    }

    /** A client packet: redirected to the proxy, or left alone. */
    method ProcessClientToServerPacket(buffer: array<byte>, port: uint16, now: nat, tcpSum: uint16, ipSum: uint16)
      returns (translated: bool)
      requires buffer.Length >= MIN_FRAME_CAPACITY
      modifies buffer, this`connections
      ensures var f := old(buffer[..]);
              && (IsTcp(f) ==> (translated, connections) == ClientPacket(old(connections), ViewOf(f), now))
              && (!IsTcp(f) ==> !translated && connections == old(connections))
              && buffer[..] == (if translated then Redirected(f, PortOr(port), tcpSum, ipSum) else f)
              && (translated && HeaderWords(f) >= MIN_HEADER_WORDS ==>
                    TurnedAround(f, buffer[..], SourcePort(f), PortOr(port)))
      ensures translated && HeaderWords(old(buffer[..])) >= MIN_HEADER_WORDS ==>
                DestPort(buffer[..]) == if port == 0 then proxyPort else port
    {
      ghost var f := buffer[..];
      if Be16(buffer[12], buffer[13]) != ETH_P_IP || buffer[23] != IPPROTO_TCP {
        return false;
      }
      var v := ReadView(buffer);
      translated := TrackClientPacket(v, now);
      if !translated {
        return;
      }
      if HeaderWords(f) >= MIN_HEADER_WORDS { EditsToProxy(f, PortOr(port), tcpSum, ipSum); }
      Redirect(buffer, if port == 0 then proxyPort else port, tcpSum, ipSum);
    }

    /** Turns a client frame around, towards the proxy port. */
    method Redirect(buffer: array<byte>, port: uint16, tcpSum: uint16, ipSum: uint16)
      requires buffer.Length >= MIN_FRAME_CAPACITY
      modifies buffer
      ensures buffer[..] == Redirected(old(buffer[..]), port, tcpSum, ipSum)
    {
      var t := ETHER_HEADER_LENGTH + 4 * (buffer[14] % 0x10) as nat;
      SwapAddresses(buffer);
      StoreWord(buffer, t + 2, port);
      RecalculateChecksums(buffer, t, tcpSum, ipSum);
    }

    /** A proxy packet: returned to the client from the port it asked for, or left alone. */
    method ProcessServerToClientPacket(buffer: array<byte>, now: nat, tcpSum: uint16, ipSum: uint16)
      returns (translated: bool)
      requires buffer.Length >= MIN_FRAME_CAPACITY
      modifies buffer, this`connections
      ensures var f := old(buffer[..]);
              && (IsTcp(f) ==> (translated, connections) == ProxyPacket(old(connections), ViewOf(f), now))
              && (!IsTcp(f) ==> !translated && connections == old(connections))
              && (!translated ==> buffer[..] == f)
              && (translated ==>
                    && ReplyKey(ViewOf(f)) in old(connections)
                    && buffer[..] == Returned(f, old(connections)[ReplyKey(ViewOf(f))].port, tcpSum, ipSum))
              && (translated && HeaderWords(f) >= MIN_HEADER_WORDS ==>
                    TurnedAround(f, buffer[..], old(connections)[ReplyKey(ViewOf(f))].port, DestPort(f)))
    {
      ghost var f := buffer[..];
      if Be16(buffer[12], buffer[13]) != ETH_P_IP || buffer[23] != IPPROTO_TCP {
        return false;
      }
      var v := ReadView(buffer);
      var port := TrackProxyPacket(v, now);
      if port.None? {
        return false;
      }
      if HeaderWords(f) >= MIN_HEADER_WORDS { EditsToClient(f, port.value, tcpSum, ipSum); }
      Return(buffer, port.value, tcpSum, ipSum);
      translated := true;
    }

    /** Turns a proxy frame around, with the port the client knows. */
    method Return(buffer: array<byte>, port: uint16, tcpSum: uint16, ipSum: uint16)
      requires buffer.Length >= MIN_FRAME_CAPACITY
      modifies buffer
      ensures buffer[..] == Returned(old(buffer[..]), port, tcpSum, ipSum)
    {
      var t := ETHER_HEADER_LENGTH + 4 * (buffer[14] % 0x10) as nat;
      StoreWord(buffer, t, port);
      SwapAddresses(buffer);
      RecalculateChecksums(buffer, t, tcpSum, ipSum);
    }

    /** One pass of the clean-up thread. */
    method CleanUpExpired(now: nat)
      modifies this`connections
      ensures connections == CleanUp(old(connections), now)
    {
      var keys := connections.Keys;
      var t := connections;
      while keys != {}
        invariant keys <= connections.Keys
        invariant t == map key | key in connections && (key in keys || now - connections[key].timestamp <= FIVE_MINUTES)
                         :: connections[key]
        decreases |keys|
      {
        var key :| key in keys;
        if now - connections[key].timestamp > FIVE_MINUTES {
          t := t - {key};
        }
        keys := keys - {key};
      }
      connections := t;
    }
  }
}
