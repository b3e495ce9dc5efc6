/** The router: which connections it redirects, and the destination its local proxy is told to connect to. */
module Router {
  import opened Basics
  import opened Frames
  import opened TcpRedirect

  /** The original destination of a client connection. */
  datatype Target = Target(ip: Address, port: uint16)

  /** tcp_mapper_, by client port, and the table of the TCP redirect. */
  datatype Routing = Routing(mapper: map<uint16, Target>, connections: Table)

  datatype Verdict = Passed | ToTheProxy | ToTheClient

  function TargetOf(v: View): Target {
    Target(v.dst, v.dport)
  }

  /**
    An outgoing TCP packet. `proxy` is the local proxy port chosen for its process, if a filter matches;
    `fromProxy` says that its source port is one of the local proxies.
   */
  function OutgoingPacket(s: Routing, v: View, proxy: Option<uint16>, fromProxy: bool, now: nat): (Verdict, Routing) {
    if proxy.Some? then
      var mapper := if OpensConnection(v) then s.mapper[v.sport := TargetOf(v)] else s.mapper;
      var (translated, connections) := ClientPacket(s.connections, v, now);
      (if translated then ToTheProxy else Passed, Routing(mapper, connections))
    else if fromProxy then
      var (translated, connections) := ProxyPacket(s.connections, v, now);
      (if translated then ToTheClient else Passed, s.(connections := connections))
    else (Passed, s)
  }

  /** The local proxy accepted a connection from this port and asks where it should go. */
  function Query(s: Routing, port: uint16): (Option<Target>, Routing) {
    if port in s.mapper then (Some(s.mapper[port]), s.(mapper := s.mapper - {port})) else (None, s)
  }

  // ---------------------------------------------------------------------------------
  // Runs
  // ---------------------------------------------------------------------------------

  datatype Event =
    | Outgoing(v: View, proxy: Option<uint16>, fromProxy: bool, now: nat)
    | Accepted(port: uint16)
    | Expire(now: nat)

  function Step(s: Routing, e: Event): Routing {
    match e
    case Outgoing(v, proxy, fromProxy, now) => OutgoingPacket(s, v, proxy, fromProxy, now).1
    case Accepted(port) => Query(s, port).1
    case Expire(now) => s.(connections := CleanUp(s.connections, now))
  }

  function Run(es: seq<Event>): Routing {
    if es == [] then Routing(map[], map[]) else Step(Run(DropLast(es)), Last(es))
  }

  /** What becomes of a packet, in terms of its process, its flags and the redirect's table. */
  lemma VerdictIff(s: Routing, v: View, proxy: Option<uint16>, fromProxy: bool, now: nat)
    ensures OutgoingPacket(s, v, proxy, fromProxy, now).0 == ToTheProxy <==>
              && proxy.Some?
              && if Opening(v.flags) then Endpoint(v.dst, v.sport) !in s.connections
                 else Endpoint(v.dst, v.sport) in s.connections
    ensures OutgoingPacket(s, v, proxy, fromProxy, now).0 == ToTheClient <==>
              proxy.None? && fromProxy && Endpoint(v.dst, v.dport) in s.connections
  {
    TranslatedIff(s.connections, v, now);
  }

  /** The mapper changes on a redirected SYN and on an accepted connection only, and only for their port. */
  lemma MapperAfter(s: Routing, e: Event, port: uint16)
    ensures var opens := e.Outgoing? && e.proxy.Some? && Opening(e.v.flags) && e.v.sport == port;
            && (port in Step(s, e).mapper <==> opens || (port in s.mapper && e != Accepted(port)))
            && (port in Step(s, e).mapper ==>
                  Step(s, e).mapper[port] == if opens then Target(e.v.dst, e.v.dport) else s.mapper[port])
  {
  }

  /** What the TCP redirect gets to see of an event. */
  function Seen(e: Event): Option<TcpRedirect.Event> {
    match e
    case Outgoing(v, proxy, fromProxy, now) =>
      if proxy.Some? then Some(Client(v, now)) else if fromProxy then Some(Proxy(v, now)) else None
    case Accepted(_) => None
    case Expire(now) => Some(TcpRedirect.Expire(now))
  }

  lemma SeenSteps(s: Routing, e: Event)
    ensures Step(s, e).connections ==
              if Seen(e).Some? then TcpRedirect.Step(s.connections, Seen(e).value) else s.connections
  {
  }

  /** Client packets of matched processes, packets of local proxies, and clean-ups. */
  function RedirectEvents(es: seq<Event>): seq<TcpRedirect.Event> {
    if es == [] then []
    else if Seen(Last(es)).Some? then RedirectEvents(DropLast(es)) + [Seen(Last(es)).value]
    else RedirectEvents(DropLast(es))
  }

  /** So whatever holds of every run of the redirect holds of the redirect in the router. */
  lemma {:induction false} RouterRunsRedirect(es: seq<Event>)
    ensures Run(es).connections == TcpRedirect.Run(RedirectEvents(es))
  {
    if es != [] {
      var seen := RedirectEvents(DropLast(es));
      RouterRunsRedirect(DropLast(es));
      SeenSteps(Run(DropLast(es)), Last(es));
      assert forall e :: DropLast(seen + [e]) == seen;
    }
  }

  /** A SYN from this client port of a process that a filter matches. */
  predicate IsRedirectedSyn(e: Event, port: uint16) {
    e.Outgoing? && e.proxy.Some? && OpensConnection(e.v) && e.v.sport == port
  }

  /** The i-th event is the last redirected SYN from port, and no connection from it was accepted since. */
  predicate IsPendingSyn(es: seq<Event>, i: nat, port: uint16) {
    && i < |es| && IsRedirectedSyn(es[i], port)
    && forall j :: i < j < |es| ==> !IsRedirectedSyn(es[j], port) && es[j] != Accepted(port)
  }

  /** The mapper holds exactly the pending SYNs, with their destinations. */
  lemma {:induction false} MapperHoldsPendingSyns(es: seq<Event>, port: uint16)
    ensures port in Run(es).mapper <==> exists i: nat :: IsPendingSyn(es, i, port)
    ensures forall i: nat :: IsPendingSyn(es, i, port) ==>
              port in Run(es).mapper && Run(es).mapper[port] == TargetOf(es[i].v)
  {
    if es != [] {
      var before, e := DropLast(es), Last(es);
      MapperHoldsPendingSyns(before, port);
      if IsRedirectedSyn(e, port) {
        assert IsPendingSyn(es, |es| - 1, port);
      } else if e != Accepted(port) {
        assert forall i: nat :: IsPendingSyn(es, i, port) <==> IsPendingSyn(before, i, port);
      } else {
        assert forall i: nat :: !IsPendingSyn(es, i, port);
      }
    }
  }

  /** A local proxy that asks for a port is answered with the destination of its pending SYN, or not at all. */
  lemma QueryAnswersPendingSyn(es: seq<Event>, port: uint16)
    ensures Query(Run(es), port).0 == None <==> forall i: nat :: !IsPendingSyn(es, i, port)
    ensures forall i: nat :: IsPendingSyn(es, i, port) ==>
              Query(Run(es), port).0 == Some(Target(es[i].v.dst, es[i].v.dport))
  {
    MapperHoldsPendingSyns(es, port);
  }

  /**
    End to end. The i-th event is a client's redirected SYN, and no connection from its port was accepted since.
    When the proxy accepts that connection it is sent to the destination of that SYN exactly when the port was not
    meanwhile reused for another destination. The mapping is gone afterwards.
   */
  lemma AcceptedGoesToTarget(es: seq<Event>, i: nat, port: uint16, last: nat)
    requires i < |es| && IsRedirectedSyn(es[i], port)
    requires forall j :: i < j < |es| ==> es[j] != Accepted(port)
    requires i <= last < |es| && IsRedirectedSyn(es[last], port)
    requires forall j :: last < j < |es| ==> !IsRedirectedSyn(es[j], port)
    ensures Query(Run(es), port).0 == Some(TargetOf(es[i].v)) <==> TargetOf(es[last].v) == TargetOf(es[i].v)
    ensures Query(Run(es + [Accepted(port)]), port).0 == None
  {
    MapperHoldsPendingSyns(es, port);
    assert IsPendingSyn(es, last, port);
    assert DropLast(es + [Accepted(port)]) == es;
  }

  /** How often a predicate of one client port holds along a run. */
  function SynCount(es: seq<Event>, port: uint16): nat {
    if es == [] then 0 else SynCount(DropLast(es), port) + (if IsRedirectedSyn(Last(es), port) then 1 else 0)
  }

  function ServedCount(es: seq<Event>, port: uint16): nat {
    if es == [] then 0
    else
      ServedCount(DropLast(es), port)
      + (if Last(es) == Accepted(port) && Query(Run(DropLast(es)), port).0.Some? then 1 else 0)
  }

  /** Each mapping is consumed at most once: a port is served no more often than it sent redirected SYNs. */
  lemma {:induction false} MappingsAreConsumedOnce(es: seq<Event>, port: uint16)
    ensures ServedCount(es, port) + (if port in Run(es).mapper then 1 else 0) <= SynCount(es, port)
  {
    if es != [] {
      MappingsAreConsumedOnce(DropLast(es), port);
    }
  }

  /** Every pending target agrees with the live redirect entry of its connection. */
  predicate Agree(s: Routing) {
    forall port :: port in s.mapper && Endpoint(s.mapper[port].ip, port) in s.connections ==>
      s.connections[Endpoint(s.mapper[port].ip, port)].port == s.mapper[port].port
  }

  /** A redirected SYN finds a live entry for its host and port, made for another destination port. */
  predicate Misses(s: Routing, e: Event) {
    && e.Outgoing? && e.proxy.Some? && OpensConnection(e.v)
    && ClientKey(e.v) in s.connections && s.connections[ClientKey(e.v)].port != e.v.dport
  }

  /** Only such a SYN can break the agreement, and every such SYN does. */
  lemma StepAgreesIff(s: Routing, e: Event)
    requires Agree(s)
    ensures Agree(Step(s, e)) <==> !Misses(s, e)
  {
    var s' := Step(s, e);
    if Misses(s, e) {
      assert e.v.sport in s'.mapper && s'.mapper[e.v.sport] == TargetOf(e.v);
      assert s'.connections[ClientKey(e.v)].port != e.v.dport;
    }
  }

  predicate AlwaysAgrees(es: seq<Event>) {
    forall k :: 0 <= k <= |es| ==> Agree(Run(es[..k]))
  }

  predicate NeverMisses(es: seq<Event>) {
    forall k :: 0 <= k < |es| ==> !Misses(Run(es[..k]), es[k])
  }

  lemma OneMoreAgrees(es: seq<Event>)
    requires es != []
    ensures AlwaysAgrees(es) <==> AlwaysAgrees(DropLast(es)) && Agree(Run(es))
  {
    var before := DropLast(es);
    assert es[..|es|] == es;
    assert forall k :: 0 <= k < |es| ==> before[..k] == es[..k];
  }

  lemma OneMoreMisses(es: seq<Event>)
    requires es != []
    ensures NeverMisses(es) <==> NeverMisses(DropLast(es)) && !Misses(Run(DropLast(es)), Last(es))
  {
    var before := DropLast(es);
    assert es[..|es| - 1] == before;
    assert forall k :: 0 <= k < |before| ==> before[..k] == es[..k] && before[k] == es[k];
  }

  /**
    Where the proxy connects and where replies appear to come from agree all along a run if and only if no redirected
    SYN of the run finds a live entry made for another destination port.
   */
  lemma {:induction false} TargetsAgreeIff(es: seq<Event>)
    ensures AlwaysAgrees(es) <==> NeverMisses(es)
  {
    if es == [] {
      assert es[..0] == [];
    } else {
      TargetsAgreeIff(DropLast(es));
      OneMoreAgrees(es);
      OneMoreMisses(es);
      assert DropLast(es)[..|es| - 1] == DropLast(es);
      if AlwaysAgrees(DropLast(es)) { StepAgreesIff(Run(DropLast(es)), Last(es)); }
    }
  }

  /** A redirected SYN finds nothing live on its port, or only what an earlier copy of it left. */
  predicate ReusesNothing(s: Routing, e: Event) {
    e.Outgoing? && e.proxy.Some? && OpensConnection(e.v) ==>
      && (e.v.sport in s.mapper ==> s.mapper[e.v.sport] == TargetOf(e.v))
      && (forall key :: key in s.connections && key.port == e.v.sport ==>
            key.ip == e.v.dst && s.connections[key].port == e.v.dport)
  }

  predicate NoPortReused(es: seq<Event>) {
    forall k :: 0 <= k < |es| ==> ReusesNothing(Run(es[..k]), es[k])
  }

  /** In particular they agree as long as no port is reused while something of it is live. */
  lemma TargetsAgreeWithRedirects(es: seq<Event>)
    requires NoPortReused(es)
    ensures Agree(Run(es))
  {
    assert NeverMisses(es) by {
      forall k | 0 <= k < |es| ensures !Misses(Run(es[..k]), es[k]) { assert ReusesNothing(Run(es[..k]), es[k]); }
    }
    TargetsAgreeIff(es);
    assert es[..|es|] == es;
  }

  /** With a reused port they need not: the second SYN moves the target and leaves the redirect behind. */
  lemma ReusedPortDisagrees() returns (es: seq<Event>, port: uint16)
    ensures !Agree(Run(es))
  {
    port := 50000;
    var mac, server := [0, 0, 0, 0, 0, 0], [10, 0, 0, 1];
    var first := View(mac, mac, [10, 0, 0, 2], server, port, 80, TH_SYN);
    var second := View(mac, mac, [10, 0, 0, 2], server, port, 443, TH_SYN);
    es := [Outgoing(first, Some(1080), false, 0), Outgoing(second, Some(1080), false, 1)];
    assert DropLast(es) == [es[0]] && DropLast([es[0]]) == [];
    var s := Run(es);
    assert OpensConnection(first) && OpensConnection(second);
    assert Run([es[0]]) == Routing(map[port := Target(server, 80)], map[Endpoint(server, port) := Entry(80, 0)]);
    assert s.mapper[port] == Target(server, 443) && s.connections[Endpoint(server, port)].port == 80;
  }

  // ---------------------------------------------------------------------------------
  // The router object
  // ---------------------------------------------------------------------------------

  /** Some filter of the list matches the process of the packet. */
  predicate Matches(filters: seq<nat>, matching: set<nat>) {
    exists i :: 0 <= i < |filters| && filters[i] in matching
  }

  /** The k-th proxy in iteration order is the first with a matching filter. */
  predicate IsFirstMatch(filters: map<nat, seq<nat>>, order: seq<nat>, matching: set<nat>, k: nat) {
    && k < |order| && order[k] in filters && Matches(filters[order[k]], matching)
    && forall j :: 0 <= j < k && order[j] in filters ==> !Matches(filters[order[j]], matching)
  }

  /** The port of the first matching proxy, which may have been stopped; none if no filter matches. */
  ghost predicate IsProxyPort(
      filters: map<nat, seq<nat>>, servers: seq<Option<uint16>>, order: seq<nat>, matching: set<nat>,
      port: Option<uint16>) {
    if exists k: nat :: IsFirstMatch(filters, order, matching, k) then
      exists k: nat :: IsFirstMatch(filters, order, matching, k) && order[k] < |servers| && servers[order[k]] == port
    else port == None
  }

  class SocksLocalRouter {
    /** The TCP port of each local proxy; None once it is stopped. */
    var servers: seq<Option<uint16>>
    /** proxy_to_filters: filter identities by proxy. */
    var filters: map<nat, seq<nat>>
    var mapper: map<uint16, Target>
    const redirect: TcpLocalRedirect

    ghost predicate Valid()
      reads this
    {
      forall id :: id in filters ==> id < |servers|
    }

    ghost function State(): Routing
      reads this, redirect
    {
      Routing(mapper, redirect.connections)
    }

    constructor ()
      ensures Valid() && servers == [] && filters == map[] && State() == Routing(map[], map[])
      ensures fresh(redirect)
    {
      servers, filters, mapper := [], map[], map[];
      redirect := new TcpLocalRedirect(0);
    }

    method AddSocks5Proxy(port: Option<uint16>) returns (id: nat)
      requires Valid()
      modifies this`servers
      ensures Valid() && id == |old(servers)| && servers == old(servers) + [port]
    {
      servers := servers + [port];
      id := |servers| - 1;
    }

    method StopSocks5Proxy(id: nat) returns (ok: bool)
      requires Valid()
      modifies this`servers
      ensures Valid() && (ok <==> id < |old(servers)|)
      ensures servers == if ok then old(servers)[id := None] else old(servers)
    {
      if id >= |servers| {
        return false;
      }
      servers := servers[id := None];
      ok := true;
    }

    method AddFilterToProxy(id: nat, filter: nat) returns (ok: bool)
      requires Valid()
      modifies this`filters
      ensures Valid() && (ok <==> id < |servers|)
      ensures filters ==
              if !ok then old(filters)
              else old(filters)[id := (if id in old(filters) then old(filters)[id] else []) + [filter]]
    {
      if id >= |servers| {
        return false;
      }
      filters := filters[id := (if id in filters then filters[id] else []) + [filter]];
      ok := true;
    }

    /** `matching` are the filters that match the process; `order` is the iteration order of the map. */
    method GetProxyPortTcp(matching: set<nat>, order: seq<nat>) returns (port: Option<uint16>)
      requires Valid() && (forall id :: id in order <==> id in filters)
      ensures IsProxyPort(filters, servers, order, matching, port)
      ensures (exists id :: id in filters && Matches(filters[id], matching))
              <==> exists k: nat :: IsFirstMatch(filters, order, matching, k)
    {
      for i := 0 to |order|
        invariant forall k :: 0 <= k < i ==> order[k] in filters && !Matches(filters[order[k]], matching)
      {
        var id := order[i];
        for j := 0 to |filters[id]|
          invariant forall k :: 0 <= k < j ==> filters[id][k] !in matching
        {
          if filters[id][j] in matching {
            assert Matches(filters[id], matching);
            assert IsFirstMatch(filters, order, matching, i);
            return servers[id];
          }
        }
      }
      assert forall id :: id in filters ==> id in order;
      port := None;
    }

    method IsTcpProxyPort(port: uint16) returns (found: bool)
      ensures found <==> Some(port) in servers
    {
      for i := 0 to |servers|
        invariant forall k :: 0 <= k < i ==> servers[k] != Some(port)
      {
        if servers[i] == Some(port) {
          return true;
        }
      }
      found := false;
    }

    /** A TCP frame of a process whose proxy has this port. */
    method RedirectClient(
        buffer: array<byte>, port: uint16, now: nat, tcpSum: uint16, ipSum: uint16, ghost fromProxy: bool)
      returns (verdict: Verdict)
      requires buffer.Length >= MIN_FRAME_CAPACITY && IsTcp(buffer[..])
      modifies this`mapper, redirect`connections, buffer
      ensures (verdict, State()) == OutgoingPacket(old(State()), ViewOf(old(buffer[..])), Some(port), fromProxy, now)
      ensures verdict == Passed ==> buffer[..] == old(buffer[..])
      ensures verdict == ToTheProxy && HeaderWords(old(buffer[..])) >= MIN_HEADER_WORDS ==>
                TurnedAround(old(buffer[..]), buffer[..], SourcePort(old(buffer[..])), redirect.PortOr(port))
    {
      var v := redirect.ReadView(buffer);
      if HasBit(v.flags, TH_SYN) && !HasBit(v.flags, TH_ACK) {
        mapper := mapper[v.sport := Target(v.dst, v.dport)];
      }
      var translated := redirect.ProcessClientToServerPacket(buffer, port, now, tcpSum, ipSum);
      verdict := if translated then ToTheProxy else Passed;
    }

    /** A TCP frame that a local proxy sends. */
    method ReturnReply(buffer: array<byte>, now: nat, tcpSum: uint16, ipSum: uint16) returns (verdict: Verdict)
      requires buffer.Length >= MIN_FRAME_CAPACITY && IsTcp(buffer[..])
      modifies redirect`connections, buffer
      ensures (verdict, State()) == OutgoingPacket(old(State()), ViewOf(old(buffer[..])), None, true, now)
      ensures verdict == Passed ==> buffer[..] == old(buffer[..])
      ensures var f := old(buffer[..]);
              verdict == ToTheClient && HeaderWords(f) >= MIN_HEADER_WORDS ==>
                && ReplyKey(ViewOf(f)) in old(redirect.connections)
                && TurnedAround(f, buffer[..], old(redirect.connections)[ReplyKey(ViewOf(f))].port, DestPort(f))
    {
      var translated := redirect.ProcessServerToClientPacket(buffer, now, tcpSum, ipSum);
      verdict := if translated then ToTheClient else Passed;
    }

    /** The packet callback on a TCP frame whose process is matched by `matching`. */
    method ProcessOutgoingTcp(
        buffer: array<byte>, matching: set<nat>, order: seq<nat>, now: nat, tcpSum: uint16, ipSum: uint16)
      returns (verdict: Verdict, ghost proxy: Option<uint16>, ghost fromProxy: bool)
      requires Valid() && (forall id :: id in order <==> id in filters)
      requires buffer.Length >= MIN_FRAME_CAPACITY && IsTcp(buffer[..])
      modifies this`mapper, redirect`connections, buffer
      ensures Valid() && IsProxyPort(filters, servers, order, matching, proxy)
      ensures fromProxy <==> Some(SourcePort(old(buffer[..]))) in servers
      ensures (verdict, State()) == OutgoingPacket(old(State()), ViewOf(old(buffer[..])), proxy, fromProxy, now)
      ensures verdict == Passed ==> buffer[..] == old(buffer[..])
      ensures var f := old(buffer[..]);
              && (verdict == ToTheProxy && HeaderWords(f) >= MIN_HEADER_WORDS ==>
                    proxy.Some? && TurnedAround(f, buffer[..], SourcePort(f), redirect.PortOr(proxy.value)))
              && (verdict == ToTheClient && HeaderWords(f) >= MIN_HEADER_WORDS ==>
                    && ReplyKey(ViewOf(f)) in old(redirect.connections)
                    && TurnedAround(f, buffer[..], old(redirect.connections)[ReplyKey(ViewOf(f))].port, DestPort(f)))
    {
      var v := redirect.ReadView(buffer);
      var port := GetProxyPortTcp(matching, order);
      var own := IsTcpProxyPort(v.sport);
      proxy, fromProxy := port, own;
      if port.Some? {
        verdict := RedirectClient(buffer, port.value, now, tcpSum, ipSum, own);
      } else if own {
        verdict := ReturnReply(buffer, now, tcpSum, ipSum);
      } else {
        verdict := Passed;
      }
    }

    /** The lambda a local proxy asks when it has accepted a connection; the peer's address is not looked at. */
    method QueryRemotePeer(address: Address, port: uint16) returns (target: Option<Target>)
      modifies this`mapper
      ensures (target, State()) == Query(old(State()), port)
    {
      if port in mapper {
        target := Some(mapper[port]);
        mapper := mapper - {port};
      } else {
        target := None;
      }
    }
  }
}
