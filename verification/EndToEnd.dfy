/** From a client's SYN to the CONNECT request: the router, the proxy server and the negotiation together. */
module EndToEnd {
  import opened Basics
  import opened Frames
  import TcpRedirect
  import Router
  import ProxyServer
  import Socks5
  import Socks5Runs

  /** A SOCKS server as configured: its endpoint, and the credentials if there are any. */
  datatype Upstream = Upstream(
    endpoint: TcpRedirect.Endpoint,
    username: Option<Socks5.Bytes>,
    password: Option<Socks5.Bytes>)

  /** The answer of the router's query to the proxy server; without a mapping it has port 0. */
  function PeerOf(target: Option<Router.Target>, upstream: Upstream): ProxyServer.Peer {
    match target
    case Some(t) =>
      ProxyServer.Peer(upstream.endpoint.ip, upstream.endpoint.port,
                       Some(Socks5.Context(t.ip, t.port, upstream.username, upstream.password)))
    case None => ProxyServer.Peer([0, 0, 0, 0], 0, None)
  }

  /** Where an entry comes from: the accepted socket, its client port, and how much the router had seen before. */
  datatype Origin = Origin(local: int, port: uint16, at: nat)

  /**
    The router and one of its proxy servers, with what the router has seen so far, and for each entry the proxy server
    ever made where it comes from. The router also answers its other proxy servers.
   */
  datatype Gateway = Gateway(
    routing: Router.Routing,
    server: ProxyServer.Server,
    log: seq<Router.Event>,
    origins: seq<Origin>)

  datatype Event =
    | Routed(seen: Router.Event)
    | Served(done: ProxyServer.Event)
    | ClientAccepted(local: int, port: uint16, remote: int, bound: bool, event: ProxyServer.Handle)

  function Accept(g: Gateway, upstream: Upstream, e: Event): ProxyServer.Event
    requires e.ClientAccepted?
  {
    var target := Router.Query(g.routing, e.port).0;
    ProxyServer.Accepted(e.local, PeerOf(target, upstream), e.remote, e.bound, e.event)
  }

  predicate Enabled(g: Gateway, upstream: Upstream, e: Event) {
    match e
    case Routed(_) => true
    case Served(s) => !s.Accepted? && ProxyServer.Enabled(g.server, s)
    case ClientAccepted(_, _, _, _, _) => ProxyServer.Enabled(g.server, Accept(g, upstream, e))
  }

  function Step(g: Gateway, upstream: Upstream, e: Event): Gateway
    requires Enabled(g, upstream, e)
  {
    match e
    case Routed(r) => g.(routing := Router.Step(g.routing, r), log := g.log + [r])
    case Served(s) => g.(server := ProxyServer.Step(g.server, s))
    case ClientAccepted(local, port, _, _, _) =>
      var r := Router.Accepted(port);
      var server := ProxyServer.Step(g.server, Accept(g, upstream, e));
      var origin := if |server.appended| > |g.server.appended| then [Origin(local, port, |g.log|)] else [];
      Gateway(Router.Step(g.routing, r), server, g.log + [r], g.origins + origin)
  }

  ghost predicate Follows(g: Gateway, upstream: Upstream, e: Event, g': Gateway) {
    Enabled(g, upstream, e) && g' == Step(g, upstream, e)
  }

  /** Some run over the events es leads from the start to g. */
  ghost predicate Reaches(upstream: Upstream, es: seq<Event>, g: Gateway) {
    if es == [] then g == Gateway(Router.Run([]), ProxyServer.Initial(), [], [])
    else exists v :: Reaches(upstream, DropLast(es), v) && Follows(v, upstream, Last(es), g)
  }

  /** What the router sees of a run. */
  function RouterLog(es: seq<Event>): seq<Router.Event> {
    if es == [] then []
    else
      RouterLog(DropLast(es))
      + match Last(es)
        case Routed(r) => [r]
        case Served(_) => []
        case ClientAccepted(_, port, _, _, _) => [Router.Accepted(port)]
  }

  /** The m-th event of the run accepted this very connection. */
  predicate IsAcceptOf(es: seq<Event>, m: nat, o: Origin) {
    && m < |es| && es[m].ClientAccepted? && es[m].local == o.local && es[m].port == o.port
    && |RouterLog(es[..m])| == o.at
  }

  /** The entry has the accepted socket, and the destination of the SYN then pending on the client port. */
  ghost predicate IsOwn(log: seq<Router.Event>, o: Origin, e: ProxyServer.Entry) {
    && e.local == o.local && e.context.Some?
    && o.at < |log| && log[o.at] == Router.Accepted(o.port)
    && exists i: nat :: IsTarget(log, o, i, e.context.value)
  }

  predicate IsTarget(log: seq<Router.Event>, o: Origin, i: nat, context: Socks5.Context) {
    && o.at <= |log| && Router.IsPendingSyn(log[..o.at], i, o.port)
    && context.address == log[i].v.dst && context.port == log[i].v.dport
  }

  ghost predicate OriginsOk(g: Gateway) {
    && |g.origins| == |g.server.appended|
    && (forall j :: 0 <= j < |g.origins| ==> IsOwn(g.log, g.origins[j], g.server.appended[j]))
    && (forall j, k :: 0 <= j < k < |g.origins| ==> g.origins[j].at < g.origins[k].at)
  }

  ghost predicate WasAccepted(es: seq<Event>, o: Origin) {
    exists m: nat :: IsAcceptOf(es, m, o)
  }

  ghost predicate AcceptsOk(es: seq<Event>, origins: seq<Origin>) {
    forall j :: 0 <= j < |origins| ==> WasAccepted(es, origins[j])
  }

  ghost predicate Inv(g: Gateway) {
    g.routing == Router.Run(g.log) && ProxyServer.Inv(g.server) && OriginsOk(g)
  }

  lemma OwnSurvives(log: seq<Router.Event>, r: Router.Event, o: Origin, e: ProxyServer.Entry)
    requires IsOwn(log, o, e)
    ensures IsOwn(log + [r], o, e)
  {
    var i: nat :| IsTarget(log, o, i, e.context.value);
    assert (log + [r])[..o.at] == log[..o.at];
    assert IsTarget(log + [r], o, i, e.context.value);
  }

  lemma LogKeepsOrigins(g: Gateway, r: Router.Event)
    requires OriginsOk(g)
    ensures OriginsOk(g.(log := g.log + [r]))
  {
    forall j | 0 <= j < |g.origins| ensures IsOwn(g.log + [r], g.origins[j], g.server.appended[j]) {
      OwnSurvives(g.log, r, g.origins[j], g.server.appended[j]);
    }
  }

  /** What the query hands out is the destination of the SYN pending on that port. */
  lemma AcceptedIsOwn(g: Gateway, upstream: Upstream, e: Event)
    requires g.routing == Router.Run(g.log) && e.ClientAccepted?
    requires ProxyServer.Appends(Accept(g, upstream, e))
    ensures IsOwn(g.log + [Router.Accepted(e.port)], Origin(e.local, e.port, |g.log|),
                  ProxyServer.EntryOf(Accept(g, upstream, e)))
  {
    var log, o := g.log + [Router.Accepted(e.port)], Origin(e.local, e.port, |g.log|);
    assert Router.Query(g.routing, e.port).0.Some?;
    Router.MapperHoldsPendingSyns(g.log, e.port);
    var i: nat :| Router.IsPendingSyn(g.log, i, e.port);
    assert log[..|g.log|] == g.log;
    assert IsTarget(log, o, i, Accept(g, upstream, e).peer.context.value);
  }

  lemma StepKeepsAppended(s: ProxyServer.Server, e: ProxyServer.Event)
    requires ProxyServer.Enabled(s, e)
    ensures ProxyServer.Step(s, e).appended
            == s.appended + if ProxyServer.Appends(e) then [ProxyServer.EntryOf(e)] else []
  {
  }

  lemma OriginAppended(g: Gateway, r: Router.Event, o: Origin, e: ProxyServer.Entry, g': Gateway)
    requires OriginsOk(g) && o.at == |g.log| && IsOwn(g.log + [r], o, e)
    requires g'.log == g.log + [r] && g'.origins == g.origins + [o] && g'.server.appended == g.server.appended + [e]
    ensures OriginsOk(g')
  {
    LogKeepsOrigins(g, r);
    forall j | 0 <= j < |g'.origins| ensures IsOwn(g'.log, g'.origins[j], g'.server.appended[j]) {
      if j < |g.origins| { assert IsOwn(g.log + [r], g.origins[j], g.server.appended[j]); }
    }
    forall j | 0 <= j < |g.origins| ensures g.origins[j].at < |g.log| {
      assert IsOwn(g.log, g.origins[j], g.server.appended[j]);
    }
  }

  lemma AcceptKeepsInv(g: Gateway, upstream: Upstream, e: Event)
    requires Inv(g) && Enabled(g, upstream, e) && e.ClientAccepted?
    ensures Inv(Step(g, upstream, e))
  {
    var r, a, g' := Router.Accepted(e.port), Accept(g, upstream, e), Step(g, upstream, e);
    assert DropLast(g.log + [r]) == g.log;
    ProxyServer.StepKeepsInv(g.server, a);
    StepKeepsAppended(g.server, a);
    if ProxyServer.Appends(a) {
      AcceptedIsOwn(g, upstream, e);
      OriginAppended(g, r, Origin(e.local, e.port, |g.log|), ProxyServer.EntryOf(a), g');
    } else {
      LogKeepsOrigins(g, r);
    }
  }

  lemma StepKeepsInv(g: Gateway, upstream: Upstream, e: Event)
    requires Inv(g) && Enabled(g, upstream, e)
    ensures Inv(Step(g, upstream, e))
  {
    match e
    case Served(s) =>
      ProxyServer.StepKeepsInv(g.server, s);
      StepKeepsAppended(g.server, s);
    case Routed(r) =>
      assert DropLast(g.log + [r]) == g.log;
      LogKeepsOrigins(g, r);
    case ClientAccepted(_, _, _, _, _) => AcceptKeepsInv(g, upstream, e);
  }

  lemma AcceptSurvives(es: seq<Event>, e: Event, m: nat, o: Origin)
    requires IsAcceptOf(es, m, o)
    ensures IsAcceptOf(es + [e], m, o)
  {
    assert (es + [e])[..m] == es[..m];
  }

  lemma AcceptsSurvive(es: seq<Event>, e: Event, origins: seq<Origin>)
    requires AcceptsOk(es, origins)
    ensures AcceptsOk(es + [e], origins)
  {
    forall j | 0 <= j < |origins| ensures WasAccepted(es + [e], origins[j]) {
      assert WasAccepted(es, origins[j]);
      var m: nat :| IsAcceptOf(es, m, origins[j]);
      AcceptSurvives(es, e, m, origins[j]);
    }
  }

  lemma StepKeepsAccepts(es: seq<Event>, g: Gateway, upstream: Upstream, e: Event)
    requires Enabled(g, upstream, e) && g.log == RouterLog(es) && AcceptsOk(es, g.origins)
    ensures Step(g, upstream, e).log == RouterLog(es + [e]) && AcceptsOk(es + [e], Step(g, upstream, e).origins)
  {
    assert DropLast(es + [e]) == es && (es + [e])[..|es|] == es && (es + [e])[|es|] == e;
    AcceptsSurvive(es, e, g.origins);
    if e.ClientAccepted? {
      var o := Origin(e.local, e.port, |g.log|);
      assert IsAcceptOf(es + [e], |es|, o);
      assert AcceptsOk(es + [e], g.origins + [o]);
    }
  }

  lemma {:induction false} RunKeepsInv(upstream: Upstream, es: seq<Event>, g: Gateway)
    requires Reaches(upstream, es, g)
    ensures Inv(g)
  {
    if es != [] {
      var v :| Reaches(upstream, DropLast(es), v) && Follows(v, upstream, Last(es), g);
      RunKeepsInv(upstream, DropLast(es), v);
      StepKeepsInv(v, upstream, Last(es));
    }
  }

  lemma {:induction false} RunKeepsAccepts(upstream: Upstream, es: seq<Event>, g: Gateway)
    requires Reaches(upstream, es, g)
    ensures g.log == RouterLog(es) && AcceptsOk(es, g.origins)
  {
    if es != [] {
      var v :| Reaches(upstream, DropLast(es), v) && Follows(v, upstream, Last(es), g);
      RunKeepsAccepts(upstream, DropLast(es), v);
      StepKeepsAccepts(DropLast(es), v, upstream, Last(es));
      assert DropLast(es) + [Last(es)] == es;
    }
  }

  /**
    The n-th connection the proxy server took on was accepted by the m-th event of the run, from client port `port` on
    the very socket its entry holds. Of the events the router saw before that, the i-th was the last redirected SYN
    from that port, and no connection from it had been accepted since; the entry has the destination of this SYN.
   */
  lemma ConnectionHasOwnOrigin(upstream: Upstream, es: seq<Event>, g: Gateway, n: nat)
    returns (m: nat, seen: nat, i: nat)
    requires Reaches(upstream, es, g) && n < |g.server.appended|
    ensures m < |es| && es[m].ClientAccepted? && es[m].local == g.server.appended[n].local
    ensures seen == |RouterLog(es[..m])| <= |RouterLog(es)| && n < |g.origins| && seen == g.origins[n].at
    ensures Router.IsPendingSyn(RouterLog(es)[..seen], i, es[m].port)
    ensures g.server.appended[n].context.Some?
    ensures var (context, syn) := (g.server.appended[n].context.value, RouterLog(es)[i]);
            context.address == syn.v.dst && context.port == syn.v.dport
  {
    RunKeepsInv(upstream, es, g);
    RunKeepsAccepts(upstream, es, g);
    assert WasAccepted(es, g.origins[n]);
    m :| IsAcceptOf(es, m, g.origins[n]);
    assert IsOwn(g.log, g.origins[n], g.server.appended[n]);
    i :| IsTarget(g.log, g.origins[n], i, g.server.appended[n].context.value);
    seen := g.origins[n].at;
  }

  /** Different connections stem from different SYNs: each mapping serves one client. */
  lemma OriginsAreDistinct(upstream: Upstream, es: seq<Event>, g: Gateway, n: nat, k: nat, i: nat, j: nat)
    requires Reaches(upstream, es, g) && n < k < |g.server.appended| == |g.origins|
    requires g.origins[n].at <= |g.log| && g.origins[k].at <= |g.log|
    requires Router.IsPendingSyn(g.log[..g.origins[n].at], i, g.origins[n].port)
    requires Router.IsPendingSyn(g.log[..g.origins[k].at], j, g.origins[k].port)
    ensures i != j && g.origins[n].at < g.origins[k].at
  {
    RunKeepsInv(upstream, es, g);
    var o, p := g.origins[n], g.origins[k];
    assert IsOwn(g.log, o, g.server.appended[n]);
    assert g.log[..p.at][o.at] == Router.Accepted(o.port);
    assert g.log[..o.at][i] == g.log[i] && g.log[..p.at][j] == g.log[j];
  }

  /** What becomes a proxy socket is one of these connections, and each of them does so at most once. */
  lemma WrappedAreConnections(upstream: Upstream, es: seq<Event>, g: Gateway, n: nat)
    requires Reaches(upstream, es, g)
    ensures n in g.server.wrapped ==> n < |g.server.appended|
    ensures multiset(g.server.wrapped)[n] <= 1
  {
    RunKeepsInv(upstream, es, g);
    assert ProxyServer.Times(g.server, n) <= 1;
  }

  /** The proxy server is told to connect to the SOCKS server, with the credentials configured for it. */
  lemma PeerIsUpstream(upstream: Upstream, es: seq<Event>, g: Gateway, e: Event, i: nat)
    requires Reaches(upstream, es, g) && e.ClientAccepted? && Router.IsPendingSyn(g.log, i, e.port)
    ensures var peer, syn := Accept(g, upstream, e).peer, g.log[i].v;
            && peer.address == upstream.endpoint.ip && peer.port == upstream.endpoint.port
            && peer.context == Some(Socks5.Context(syn.dst, syn.dport, upstream.username, upstream.password))
  {
    RunKeepsInv(upstream, es, g);
    Router.QueryAnswersPendingSyn(g.log, e.port);
  }

  /**
    An accepted client is taken on exactly if a SYN is pending on its port, the SOCKS server has a port, and the remote
    socket can be made and bound.
   */
  lemma TakenOnIff(upstream: Upstream, es: seq<Event>, g: Gateway, e: Event)
    requires Reaches(upstream, es, g) && e.ClientAccepted? && Enabled(g, upstream, e)
    ensures |Step(g, upstream, e).server.appended| == |g.server.appended| + 1 <==>
              && (exists i: nat :: Router.IsPendingSyn(g.log, i, e.port))
              && upstream.endpoint.port != 0 && e.remote != -1 && e.bound
  {
    RunKeepsInv(upstream, es, g);
    Router.QueryAnswersPendingSyn(g.log, e.port);
    StepKeepsAppended(g.server, Accept(g, upstream, e));
  }

  /** A client whose port has no mapping is refused and leaves nothing behind. */
  lemma UnmappedIsRefused(g: Gateway, upstream: Upstream, e: Event)
    requires e.ClientAccepted? && Enabled(g, upstream, e) && g.routing == Router.Run(g.log)
    requires forall i: nat :: !Router.IsPendingSyn(g.log, i, e.port)
    ensures Step(g, upstream, e).server == g.server && Step(g, upstream, e).routing == g.routing
    ensures Step(g, upstream, e).origins == g.origins
  {
    Router.MapperHoldsPendingSyns(g.log, e.port);
  }

  /** A CONNECT request for the address and port bytes of the frame's destination. */
  predicate ConnectNames(request: Socks5.Bytes, frame: seq<byte>)
    requires |frame| >= MIN_FRAME_CAPACITY
  {
    && |request| == 10 && request[..4] == [5, 1, 0, 1]
    && request[4..8] == IpDest(frame)
    && request[8..10] == frame[Transport(frame) + 2..Transport(frame) + 4]
  }

  predicate IsConnectRequest(message: Socks5.Bytes) {
    |message| == 10 && message[0] == 5
  }

  lemma StoredWord(hi: byte, lo: byte)
    ensures Be16Bytes(Be16(hi, lo)) == [hi, lo]
  {
  }

  lemma ConnectLayout(context: Socks5.Context)
    ensures var request := Socks5.Connect(context);
            && |request| == 10 && request[..4] == [5, 1, 0, 1]
            && request[4..8] == context.address && request[8..10] == Be16Bytes(context.port)
  {
  }

  lemma ConnectBytes(context: Socks5.Context, frame: seq<byte>)
    requires |frame| >= MIN_FRAME_CAPACITY
    requires context.address == IpDest(frame) && context.port == DestPort(frame)
    ensures ConnectNames(Socks5.Connect(context), frame)
  {
    var t := Transport(frame);
    assert frame[t + 2..t + 4] == [frame[t + 2], frame[t + 3]];
    StoredWord(frame[t + 2], frame[t + 3]);
    ConnectLayout(context);
  }

  /** Every CONNECT request in a session's conversation names the destination of this frame. */
  lemma SessionNames(s: Socks5.Session, steps: seq<Socks5.Event>, s': Socks5.Session, frame: seq<byte>)
    requires |frame| >= MIN_FRAME_CAPACITY
    requires s.context.address == IpDest(frame) && s.context.port == DestPort(frame)
    requires Socks5.IsNew(s) && Socks5Runs.Reaches(s, steps, s')
    ensures forall m :: m in s'.sent && IsConnectRequest(m) ==> ConnectNames(m, frame)
    ensures s'.relaysStarted > 0 ==> s'.sent != [] && ConnectNames(Last(s'.sent), frame)
  {
    ConnectBytes(s.context, frame);
    Socks5Runs.SendsOnlyConversations(s, steps, s');
    if s'.relaysStarted > 0 { Socks5Runs.RelayFollowsConversation(s, steps, s'); }
  }

  /**
    End to end. Take the session of the n-th connection, which was accepted by the m-th event of the run. The i-th event
    the router saw is the SYN pending on that client's port when it was accepted, and whatever frame carried that SYN,
    the only CONNECT request the session ever sends names, byte for byte, the destination in it. If the relay starts,
    that request was sent last.
   */
  lemma ConnectNamesOriginalDestination(
      upstream: Upstream, es: seq<Event>, g: Gateway, n: nat,
      s: Socks5.Session, steps: seq<Socks5.Event>, s': Socks5.Session)
    returns (m: nat, seen: nat, i: nat)
    requires Reaches(upstream, es, g) && n in g.server.wrapped && n < |g.server.appended|
    requires Socks5.IsNew(s) && Socks5Runs.Reaches(s, steps, s')
    requires Some(s.context) == g.server.appended[n].context && s.conn.localSocket == g.server.appended[n].local
    ensures m < |es| && es[m].ClientAccepted? && es[m].local == s.conn.localSocket
    ensures seen == |RouterLog(es[..m])| <= |RouterLog(es)|
    ensures Router.IsPendingSyn(RouterLog(es)[..seen], i, es[m].port)
    ensures forall frame: seq<byte> ::
              |frame| >= MIN_FRAME_CAPACITY && RouterLog(es)[i].v == TcpRedirect.ViewOf(frame) ==>
                && (forall r :: r in s'.sent && IsConnectRequest(r) ==> ConnectNames(r, frame))
                && (s'.relaysStarted > 0 ==> s'.sent != [] && ConnectNames(Last(s'.sent), frame))
  {
    m, seen, i := ConnectionHasOwnOrigin(upstream, es, g, n);
    forall frame: seq<byte> | |frame| >= MIN_FRAME_CAPACITY && RouterLog(es)[i].v == TcpRedirect.ViewOf(frame)
      ensures forall r :: r in s'.sent && IsConnectRequest(r) ==> ConnectNames(r, frame)
      ensures s'.relaysStarted > 0 ==> s'.sent != [] && ConnectNames(Last(s'.sent), frame)
    {
      SessionNames(s, steps, s', frame);
    }
  }
}
