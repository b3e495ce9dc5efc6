/** What every negotiation run guarantees, whatever the SOCKS server sends and however Winsock cuts it up. */
module Socks5Runs {
  import opened Basics
  import opened Socks5
  import Relay
  import RelayRuns

  ghost predicate Follows(s: Session, e: Event, s': Session) {
    Enabled(s, e) && s' == Step(s, e)
  }

  /** Some run over the events es leads from s to s'. */
  ghost predicate Reaches(s: Session, es: seq<Event>, s': Session) {
    if es == [] then s' == s
    else exists v :: Reaches(s, DropLast(es), v) && Follows(v, Last(es), s')
  }

  /** The relay's buffers are untouched while the negotiation lasts. */
  ghost predicate RelayUntouched(s: Session) {
    IsOpen(s) && s.relaysStarted == 0 ==> Relay.Fresh(s.conn)
  }

  /** The phases in which a reply means something. */
  predicate IsAnswered(phase: Phase) {
    phase == LoginSent || phase == PasswordSent || phase == ConnectSent
  }

  predicate HasOneMoreVerdict(s: Session, s': Session) {
    && s'.context == s.context && s'.delivered == s.delivered
    && |s'.verdicts| == |s.verdicts| + 1 && s.verdicts <= s'.verdicts
  }

  /** What the answer to the greeting leads to. */
  lemma LoginOutcome(s: Session, a1: bool, a2: bool)
    requires |s.identReply| == 2 && |s.connectReply| == 10 && (IsOpen(s) || IsClosed(s)) && s.phase == LoginSent
    ensures var s' := HandleReply(s, a1, a2);
            && HasOneMoreVerdict(s, s') && s'.relaysStarted == s.relaysStarted
            && (s'.conn == s.conn || IsClosed(s'))
            && (IsClosed(s) ==> IsClosed(s') && s'.sent == s.sent && s'.pending == s.pending)
  {
    var v := WithVerdict(s, s.identReply[1]).(phase := LoginResponded);
    SendAndReadOutcome(v, Connect(s.context), ConnectSent, ConnectReply, a1, a2);
    if HasCredentials(s.context) {
      SendAndReadOutcome(v, Authentication(s.context), PasswordSent, IdentReply, a1, a2);
    }
  }

  lemma StatusOutcome(s: Session, a1: bool, a2: bool)
    requires |s.identReply| == 2 && |s.connectReply| == 10 && (IsOpen(s) || IsClosed(s)) && s.phase == PasswordSent
    ensures var s' := HandleReply(s, a1, a2);
            && HasOneMoreVerdict(s, s') && s'.relaysStarted == s.relaysStarted
            && (s'.conn == s.conn || IsClosed(s'))
            && (IsClosed(s) ==> IsClosed(s') && s'.sent == s.sent && s'.pending == s.pending)
  {
    var v := WithVerdict(s, s.identReply[1]).(phase := PasswordResponded);
    SendAndReadOutcome(v, Connect(s.context), ConnectSent, ConnectReply, a1, a2);
  }

  lemma ConnectOutcome(s: Session, a1: bool, a2: bool)
    requires |s.identReply| == 2 && |s.connectReply| == 10 && (IsOpen(s) || IsClosed(s)) && s.phase == ConnectSent
    ensures var s' := HandleReply(s, a1, a2);
            && HasOneMoreVerdict(s, s') && s'.sent == s.sent && s'.pending == s.pending
            && (IsClosed(s') || s'.relaysStarted > s.relaysStarted)
            && (IsClosed(s) ==> IsClosed(s') && s'.relaysStarted == s.relaysStarted)
  {
  }

  /** A reply leaves the connection as it is, closes it, or starts the relay. */
  lemma ReplyOutcome(s: Session, a1: bool, a2: bool)
    requires |s.identReply| == 2 && |s.connectReply| == 10 && (IsOpen(s) || IsClosed(s))
    ensures var s' := HandleReply(s, a1, a2);
            && s'.context == s.context && (IsAnswered(s.phase) ==> HasOneMoreVerdict(s, s'))
            && (s'.conn == s.conn || IsClosed(s') || s'.relaysStarted > s.relaysStarted)
            && (IsClosed(s) ==>
                  && IsClosed(s') && s'.sent == s.sent && s'.pending == s.pending
                  && s'.relaysStarted == s.relaysStarted)
  {
    match s.phase
    case LoginSent => LoginOutcome(s, a1, a2);
    case PasswordSent => StatusOutcome(s, a1, a2);
    case ConnectSent => ConnectOutcome(s, a1, a2);
    case _ =>
  }

  lemma StepKeepsContext(s: Session, e: Event)
    requires Inv(s) && Enabled(s, e)
    ensures Step(s, e).context == s.context
  {
    if e.ReadCompleted? { ReplyOutcome(Deliver(s, e.data), e.accepted1, e.accepted2); }
  }

  lemma StepKeepsRelayUntouched(s: Session, e: Event)
    requires Inv(s) && RelayUntouched(s) && Enabled(s, e)
    ensures RelayUntouched(Step(s, e))
  {
    if e.ReadCompleted? { ReplyOutcome(Deliver(s, e.data), e.accepted1, e.accepted2); }
  }

  lemma {:induction false} RunKeepsInv(s: Session, es: seq<Event>, s': Session)
    requires IsNew(s) && Reaches(s, es, s')
    ensures Inv(s') && RelayUntouched(s') && s'.context == s.context
  {
    if es == [] {
      NewSessionInv(s);
    } else {
      var v :| Reaches(s, DropLast(es), v) && Follows(v, Last(es), s');
      RunKeepsInv(s, DropLast(es), v);
      StepKeepsInv(v, Last(es));
      StepKeepsContext(v, Last(es));
      StepKeepsRelayUntouched(v, Last(es));
    }
  }

  function WithoutPassword(context: Context): seq<Bytes> {
    [Greeting(context), Connect(context)]
  }

  function WithPassword(context: Context): seq<Bytes>
    requires HasCredentials(context)
  {
    [Greeting(context), Authentication(context), Connect(context)]
  }

  lemma WithoutPasswordSendsNone(s: Session)
    requires HasCredentials(s.context) && s.sent <= WithoutPassword(s.context)
    ensures Authentication(s.context) !in s.sent
  {
    PrefixOfTwo(s.sent, Greeting(s.context), Connect(s.context));
    assert Greeting(s.context)[0] == 5 && Connect(s.context)[0] == 5 && Authentication(s.context)[0] == 1;
  }

  lemma InvSendsOnlyConversations(s: Session)
    requires Inv(s)
    ensures s.sent <= WithoutPassword(s.context)
            || (ChosePassword(s) && s.sent <= WithPassword(s.context))
  {
    if !(s.sent <= [Greeting(s.context)]) {
      assert ChosePassword(s) ==> Conversation(s) == WithPassword(s.context);
      assert !ChosePassword(s) ==> Conversation(s) == WithoutPassword(s.context);
    } else {
      assert [Greeting(s.context)] <= WithoutPassword(s.context);
    }
  }

  /** At any time at most one read is outstanding, and what was sent is the front of one of the two conversations. */
  lemma SendsOnlyConversations(s: Session, es: seq<Event>, s': Session)
    requires IsNew(s) && Reaches(s, es, s')
    ensures |s'.pending| <= 1 && |s'.delivered| <= 3
    ensures s'.sent <= WithoutPassword(s.context) || (HasCredentials(s.context) && s'.sent <= WithPassword(s.context))
    ensures HasCredentials(s.context) && Authentication(s.context) in s'.sent ==>
              s'.verdicts != [] && s'.verdicts[0] == USERNAME_PASSWORD
  {
    RunKeepsInv(s, es, s');
    InvSendsOnlyConversations(s');
    if s'.sent <= WithoutPassword(s.context) && HasCredentials(s.context) { WithoutPasswordSendsNone(s'); }
  }

  predicate LoggedInWithoutPassword(verdicts: seq<byte>) {
    |verdicts| == 2 && verdicts[0] != USERNAME_PASSWORD && verdicts[0] != NO_ACCEPTABLE_METHOD && verdicts[1] == 0
  }

  /**
    A started relay was started once, by a reply read as 0 to a CONNECT that ended a complete conversation; the one
    with a password only after method 2 was read as chosen and status 0 as answered.
   */
  lemma RelayFollowsConversation(s: Session, es: seq<Event>, s': Session)
    requires IsNew(s) && Reaches(s, es, s') && s'.relaysStarted > 0
    ensures s'.relaysStarted == 1
    ensures (LoggedInWithoutPassword(s'.verdicts) && s'.sent == WithoutPassword(s.context))
            || (s'.verdicts == [USERNAME_PASSWORD, 0, 0]
                && HasCredentials(s.context) && s'.sent == WithPassword(s.context))
  {
    RunKeepsInv(s, es, s');
  }

  /** Only an accepted reply to CONNECT starts the relay, when Winsock accepts both reads. */
  lemma StartsRelayOnce(s: Session, e: Event)
    requires Enabled(s, e) && Step(s, e).relaysStarted > s.relaysStarted
    ensures e.ReadCompleted? && s.phase == ConnectSent
    ensures s.conn.localSocket != Relay.INVALID_SOCKET && RemoteOpen(s)
    ensures Step(s, e).conn == Relay.StartDataRelay(s.conn, true, true)
    ensures Step(s, e).relaysStarted == s.relaysStarted + 1
  {
    if e.ReadCompleted? && s.phase != ConnectSent {
      NoRelayBeforeConnect(Deliver(s, e.data), e.accepted1, e.accepted2);
    }
  }

  lemma NoRelayBeforeConnect(s: Session, a1: bool, a2: bool)
    requires |s.identReply| == 2 && |s.connectReply| == 10 && s.phase != ConnectSent
    ensures HandleReply(s, a1, a2).relaysStarted == s.relaysStarted
  {
  }

  /** The read that starts the relay hands it over with untouched buffers, so that it then refines a queue. */
  lemma RelayStartsClean(s: Session, es: seq<Event>, v: Session, e: Event)
    requires IsNew(s) && Reaches(s, es, v) && Enabled(v, e) && Step(v, e).relaysStarted > v.relaysStarted
    ensures Relay.Fresh(v.conn) && Step(v, e).conn == RelayRuns.Started(v.conn, true, true).conn
    ensures RelayRuns.Inv(RelayRuns.Started(v.conn, true, true))
  {
    RunKeepsInv(s, es, v);
    StepKeepsInv(v, e);
    StartsRelayOnce(v, e);
    assert v.relaysStarted == 0;
    RelayRuns.StartEstablishesInv(v.conn, true, true);
  }

  /** A closed session sends nothing more, posts nothing more and starts no relay. */
  lemma ClosedStaysSilent(s: Session, e: Event)
    requires Inv(s) && IsClosed(s) && Enabled(s, e)
    ensures var s' := Step(s, e);
            IsClosed(s') && s'.sent == s.sent && |s'.pending| <= |s.pending| && s'.relaysStarted == s.relaysStarted
  {
    if e.ReadCompleted? { ReplyOutcome(Deliver(s, e.data), e.accepted1, e.accepted2); }
  }

  /** An answer read as a refusal closes both sockets. */
  predicate Refuses(phase: Phase, verdict: byte, context: Context) {
    match phase
    case LoginSent => verdict == NO_ACCEPTABLE_METHOD || (verdict == USERNAME_PASSWORD && !HasCredentials(context))
    case PasswordSent | ConnectSent => verdict != 0
    case _ => false
  }

  lemma RefusalCloses(s: Session, e: Event)
    requires Inv(s) && Enabled(s, e) && e.ReadCompleted?
    requires |e.data| > 1 && Refuses(s.phase, e.data[1], s.context)
    ensures IsClosed(Step(s, e)) && Step(s, e).sent == s.sent
  {
    SpliceElements(s.identReply, 0, if s.pending[0] == IdentReply then e.data else []);
    SpliceElements(s.connectReply, 0, if s.pending[0] == ConnectReply then e.data else []);
  }

  // ---------------------------------------------------------------------------------
  // Removal
  // ---------------------------------------------------------------------------------

  /** The reply to CONNECT was read as 0, so that starting the relay was tried. */
  predicate IsGranted(s: Session) {
    s.phase == ConnectSent && |s.verdicts| == Preliminaries(s) + 1 && Last(s.verdicts) == 0
  }

  /** The relay holds nothing and its first receive window is as constructed. */
  predicate NeverPosted(c: Relay.Connection) {
    && |c.up.mem| == Relay.BUFFER_SIZE && |c.down.mem| == Relay.BUFFER_SIZE
    && c.up.send.len == 0 && c.down.send.len == 0 && c.up.recv == Relay.WsaBuf(0, Relay.BUFFER_SIZE)
    && RelayRuns.Outstanding(c) == 0
  }

  /** The relay was tried in vain: at most its first read is outstanding. */
  ghost predicate TriedOnce(c: Relay.Connection) {
    && RelayRuns.Inv(RelayRuns.Untouched(c)) && c.status == Relay.Completed
    && c.up.sendPosted == None && c.down.sendPosted == None && c.down.recvPosted == None && c.up.send.len == 0
  }

  ghost predicate RemovalOk(s: Session) {
    s.relaysStarted == 0 ==> if IsGranted(s) then IsClosed(s) && TriedOnce(s.conn) else NeverPosted(s.conn)
  }

  lemma SendAndReadPostsNothing(s: Session, message: Bytes, phase: Phase, reply: Reply, a1: bool, a2: bool)
    requires NeverPosted(s.conn)
    ensures NeverPosted(SendAndRead(s, message, phase, reply, a1, a2).conn)
  {
  }

  lemma ReplyPostsNothing(s: Session, a1: bool, a2: bool)
    requires |s.identReply| == 2 && |s.connectReply| == 10 && NeverPosted(s.conn)
    requires s.phase == LoginSent || s.phase == PasswordSent
    ensures NeverPosted(HandleReply(s, a1, a2).conn)
  {
    var v := WithVerdict(s, s.identReply[1]);
    var responded := if s.phase == LoginSent then LoginResponded else PasswordResponded;
    SendAndReadPostsNothing(v.(phase := responded), Connect(s.context), ConnectSent, ConnectReply, a1, a2);
    if HasCredentials(s.context) {
      SendAndReadPostsNothing(v.(phase := responded), Authentication(s.context), PasswordSent, IdentReply, a1, a2);
    }
  }

  lemma ConnectTriesOnce(s: Session, a1: bool, a2: bool)
    requires |s.identReply| == 2 && |s.connectReply| == 10 && (IsOpen(s) || IsClosed(s)) && NeverPosted(s.conn)
    requires s.phase == ConnectSent
    ensures var s' := HandleReply(s, a1, a2);
            s'.relaysStarted == s.relaysStarted ==>
              IsClosed(s') && if s.connectReply[1] == 0 then TriedOnce(s'.conn) else NeverPosted(s'.conn)
  {
  }

  /** A login or status reply is never the one to CONNECT. */
  lemma EarlyReplyGrantsNothing(s: Session, s': Session)
    requires Inv(s) && (s.phase == LoginSent || s.phase == PasswordSent)
    requires s'.context == s.context && |s'.verdicts| == |s.verdicts| + 1 && s.verdicts <= s'.verdicts
    ensures !IsGranted(s')
  {
    if s.phase == PasswordSent { assert s'.verdicts[0] == s.verdicts[0]; }
  }

  lemma EarlyReplyKeepsRemovalOk(s: Session, e: Event)
    requires Inv(s) && RemovalOk(s) && Enabled(s, e) && e.ReadCompleted? && s.phase != ConnectSent
    ensures RemovalOk(Step(s, e))
  {
    assert s.phase == LoginSent || s.phase == PasswordSent;
    ReplyOutcome(Deliver(s, e.data), e.accepted1, e.accepted2);
    NoRelayBeforeConnect(Deliver(s, e.data), e.accepted1, e.accepted2);
    EarlyReplyGrantsNothing(s, Step(s, e));
    if s.relaysStarted == 0 { ReplyPostsNothing(Deliver(s, e.data), e.accepted1, e.accepted2); }
  }

  lemma ConnectReplyKeepsRemovalOk(s: Session, e: Event)
    requires Inv(s) && RemovalOk(s) && Enabled(s, e) && e.ReadCompleted? && s.phase == ConnectSent
    ensures RemovalOk(Step(s, e))
  {
    assert !IsGranted(s);
    var d := Deliver(s, e.data);
    SpliceElements(s.connectReply, 0, e.data);
    if s.relaysStarted == 0 { ConnectTriesOnce(d, e.accepted1, e.accepted2); }
  }

  lemma OtherKeepsRemovalOk(s: Session, e: Event)
    requires Inv(s) && RemovalOk(s) && Enabled(s, e) && !e.ReadCompleted?
    ensures RemovalOk(Step(s, e))
  {
    if e.Begin? {
      SendAndReadPostsNothing(s, Greeting(s.context), LoginSent, IdentReply, e.sendAccepted, e.readAccepted);
    }
  }

  lemma {:induction false} RunKeepsRemovalOk(s: Session, es: seq<Event>, s': Session)
    requires IsNew(s) && Reaches(s, es, s')
    ensures RemovalOk(s')
  {
    if es != [] {
      var v :| Reaches(s, DropLast(es), v) && Follows(v, Last(es), s');
      RunKeepsRemovalOk(s, DropLast(es), v);
      RunKeepsInv(s, DropLast(es), v);
      if !Last(es).ReadCompleted? { OtherKeepsRemovalOk(v, Last(es)); }
      else if v.phase == ConnectSent { ConnectReplyKeepsRemovalOk(v, Last(es)); }
      else { EarlyReplyKeepsRemovalOk(v, Last(es)); }
    }
  }

  /** As it stands, such a session is ready for removal if and only if it was granted and no read is outstanding. */
  lemma UnrelayedIsRemovableAtOnceIff(s: Session, es: seq<Event>, s': Session)
    requires IsNew(s) && Reaches(s, es, s') && IsClosed(s') && s'.relaysStarted == 0
    ensures Relay.ReadyForRemoval(s'.conn) <==> IsGranted(s') && s'.conn.up.recvPosted == None
  {
    RunKeepsRemovalOk(s, es, s');
  }

  /** Without an operation of the relay only a late failure of a negotiation write can still come. */
  lemma {:induction false} NeverPostedForGood(c: Relay.Connection, relayed: seq<RelayRuns.Event>, w: RelayRuns.World)
    requires NeverPosted(c) && RelayRuns.Reaches(RelayRuns.Untouched(c), relayed, w)
    ensures NeverPosted(w.conn)
  {
    if relayed != [] {
      var v :| RelayRuns.Reaches(RelayRuns.Untouched(c), DropLast(relayed), v)
               && RelayRuns.Follows(v, Last(relayed), w);
      NeverPostedForGood(c, DropLast(relayed), v);
    }
  }

  /**
    A session that closes without having relayed is ready for removal, once all relay operations it may have left behind
    are completed, if and only if its CONNECT was granted. All others, in particular all that the server refused, keep
    a receive window open and are left to the time-out.
   */
  lemma UnrelayedIsRemovableIff(
      s: Session, es: seq<Event>, s': Session, relayed: seq<RelayRuns.Event>, w: RelayRuns.World)
    requires IsNew(s) && Reaches(s, es, s') && IsClosed(s') && s'.relaysStarted == 0
    requires RelayRuns.Reaches(RelayRuns.Untouched(s'.conn), relayed, w) && RelayRuns.Outstanding(w.conn) == 0
    ensures Relay.ReadyForRemoval(w.conn) <==> IsGranted(s')
  {
    RunKeepsRemovalOk(s, es, s');
    if IsGranted(s') {
      RelayRuns.CompletedForGood(RelayRuns.Untouched(s'.conn), relayed, w);
      RelayRuns.DrainedIsRemovable(w);
    } else {
      NeverPostedForGood(s'.conn, relayed, w);
    }
  }

  /** What a granted session leaves behind is at most one read, and its completion makes the session removable. */
  lemma GrantedBecomesRemovable(s: Session, es: seq<Event>, s': Session)
    requires IsNew(s) && Reaches(s, es, s') && s'.relaysStarted == 0 && IsGranted(s')
    ensures RelayRuns.WindowsInMemory(s'.conn)
    ensures var e := RelayRuns.ReadFailed(true);
            RelayRuns.Outstanding(s'.conn) > 0 ==>
              && RelayRuns.Enabled(s'.conn, e)
              && Relay.ReadyForRemoval(RelayRuns.Step(RelayRuns.Untouched(s'.conn), e).conn)
  {
    RunKeepsRemovalOk(s, es, s');
    RelayRuns.InvBoundsWindows(RelayRuns.Untouched(s'.conn));
  }

  // ---------------------------------------------------------------------------------
  // The stream from the SOCKS server
  // ---------------------------------------------------------------------------------

  /** How long the k-th reply is, when it comes whole. */
  function DueAt(s: Session, k: nat): nat {
    if k < Preliminaries(s) then 2 else 10
  }

  predicate SizesOk(s: Session) {
    && |s.delivered| == |s.verdicts|
    && forall k :: 0 <= k < |s.delivered| ==> 1 <= |s.delivered[k]| <= DueAt(s, k)
  }

  /** No read delivers more than the reply it was posted for. */
  lemma DeliveredFits(s: Session, e: Event, s': Session)
    requires Inv(s) && Enabled(s, e) && e.ReadCompleted?
    requires s.verdicts <= s'.verdicts && s'.verdicts != [] && s'.context == s.context
    ensures 1 <= |e.data| <= DueAt(s', |s.delivered|)
    ensures forall k :: 0 <= k < |s.delivered| ==> DueAt(s', k) == DueAt(s, k)
  {
    if s.verdicts != [] { assert s'.verdicts[0] == s.verdicts[0]; }
  }

  lemma ReadKeepsSizesOk(s: Session, e: Event)
    requires Inv(s) && SizesOk(s) && Enabled(s, e) && e.ReadCompleted?
    ensures SizesOk(Step(s, e))
  {
    var s' := Step(s, e);
    assert IsAnswered(s.phase);
    ReplyOutcome(Deliver(s, e.data), e.accepted1, e.accepted2);
    assert s'.delivered == s.delivered + [e.data];
    DeliveredFits(s, e, s');
  }

  lemma OtherKeepsSizesOk(s: Session, e: Event)
    requires SizesOk(s) && Enabled(s, e) && !e.ReadCompleted?
    ensures SizesOk(Step(s, e))
  {
    var s' := Step(s, e);
    assert s'.delivered == s.delivered && s'.verdicts == s.verdicts && s'.context == s.context;
  }

  lemma {:induction false} RunKeepsSizesOk(s: Session, es: seq<Event>, s': Session)
    requires IsNew(s) && Reaches(s, es, s')
    ensures SizesOk(s')
  {
    if es != [] {
      var v :| Reaches(s, DropLast(es), v) && Follows(v, Last(es), s');
      RunKeepsSizesOk(s, DropLast(es), v);
      RunKeepsInv(s, DropLast(es), v);
      if Last(es).ReadCompleted? { ReadKeepsSizesOk(v, Last(es)); } else { OtherKeepsSizesOk(v, Last(es)); }
    }
  }

  /** What the server has sent in the negotiation, in order. */
  function Stream(delivered: seq<Bytes>): Bytes {
    if delivered == [] then [] else Stream(DropLast(delivered)) + Last(delivered)
  }

  /** The length of all replies of a conversation that ends with one to CONNECT. */
  function Due(s: Session): nat {
    2 * Preliminaries(s) + 10
  }

  predicate AllWhole(s: Session) {
    forall k :: 0 <= k < |s.delivered| ==> |s.delivered[k]| == DueAt(s, k)
  }

  lemma StreamLength(s: Session)
    requires SizesOk(s) && |s.delivered| == Preliminaries(s) + 1
    ensures |Stream(s.delivered)| <= Due(s)
    ensures |Stream(s.delivered)| == Due(s) <==> AllWhole(s)
  {
    var d := s.delivered;
    assert d[..0] == [];
    assert DropLast(d[..1]) == [] && Stream(d[..1]) == d[0];
    assert DropLast(d[..2]) == d[..1] && |Stream(d[..2])| == |d[0]| + |d[1]|;
    if |d| == 2 {
      assert d[..2] == d;
    } else {
      assert DropLast(d) == d[..2];
    }
  }

  /**
    Negotiation and relay together. What the client is sent is the front of what the server sent after the bytes the
    negotiation consumed. This is what the server sent after its replies if and only if every negotiate read delivered
    its reply whole; otherwise the client gets the rest of a reply first.
   */
  lemma ClientReceivesTheRest(
      s: Session, es: seq<Event>, v: Session, e: Event, relayed: seq<RelayRuns.Event>, w: RelayRuns.World)
    requires IsNew(s) && Reaches(s, es, v) && Enabled(v, e) && Step(v, e).relaysStarted > v.relaysStarted
    requires RelayRuns.Reaches(RelayRuns.Started(v.conn, true, true), relayed, w)
    ensures Relay.Fresh(v.conn) && Step(v, e).conn == RelayRuns.Started(v.conn, true, true).conn
    ensures var s' := Step(v, e);
            var fromServer := Stream(s'.delivered) + RelayRuns.Input(relayed, false);
            && w.downLog.sent <= fromServer[|Stream(s'.delivered)|..]
            && (Due(s') <= |fromServer| ==>
                  (RelayRuns.Input(relayed, false) == fromServer[Due(s')..] <==> AllWhole(s')))
            && (|fromServer| < Due(s') ==> !AllWhole(s'))
  {
    RelayStartsClean(s, es, v, e);
    var s' := Step(v, e);
    Extend(s, es, v, e, s');
    RunKeepsInv(s, es + [e], s');
    RunKeepsSizesOk(s, es + [e], s');
    StreamLength(s');
    RelayRuns.RelayIsFifo(v.conn, true, true, relayed, w, false);
    var consumed, input := Stream(s'.delivered), RelayRuns.Input(relayed, false);
    assert (consumed + input)[|consumed|..] == input;
  }

  // ---------------------------------------------------------------------------------
  // Short reads
  // ---------------------------------------------------------------------------------

  /** The server really sent the byte that was read as its k-th answer. */
  predicate IsGrounded(s: Session, k: nat) {
    k < |s.verdicts| && k < |s.delivered| && |s.delivered[k]| > 1 && s.delivered[k][1] == s.verdicts[k]
  }

  lemma InvGroundsIff(s: Session, k: nat)
    requires VerdictsOk(s) && k < |s.delivered|
    ensures |s.verdicts| == |s.delivered|
    ensures IsGrounded(s, k) <==> |s.delivered[k]| > 1
    ensures |s.delivered[k]| <= 1 ==> s.verdicts[k] == (if k == 1 && ChosePassword(s) then USERNAME_PASSWORD else 0)
  {
    assert k == 0 || k == 1 || k == 2;
  }

  /**
    The answers the code acts on are the ones the server sent exactly where a read delivered more than one byte. A
    shorter one is not repeated: the code goes on with what its structure held before, so a one-byte reply to CONNECT
    starts the relay.
   */
  lemma AnswersAreGroundedIff(s: Session, es: seq<Event>, s': Session, k: nat)
    requires IsNew(s) && Reaches(s, es, s') && k < |s'.delivered|
    ensures IsGrounded(s', k) <==> |s'.delivered[k]| > 1
    ensures |s'.verdicts| == |s'.delivered|
    ensures |s'.delivered[k]| <= 1 ==> s'.verdicts[k] == (if k == 1 && ChosePassword(s') then USERNAME_PASSWORD else 0)
  {
    RunKeepsInv(s, es, s');
    InvGroundsIff(s', k);
  }

  lemma Extend(s: Session, es: seq<Event>, v: Session, e: Event, s': Session)
    requires Reaches(s, es, v) && Follows(v, e, s')
    ensures Reaches(s, es + [e], s')
  {
    assert DropLast(es + [e]) == es && Last(es + [e]) == e;
  }

  lemma TakeStep(s: Session, es: seq<Event>, v: Session, e: Event) returns (s': Session)
    requires Reaches(s, es, v) && Enabled(v, e)
    ensures s' == Step(v, e) && Reaches(s, es + [e], s')
  {
    s' := Step(v, e);
    Extend(s, es, v, e, s');
  }

  lemma AcceptedSend(s: Session, message: Bytes, phase: Phase, reply: Reply)
    requires IsOpen(s)
    ensures SendAndRead(s, message, phase, reply, true, true)
            == s.(sent := s.sent + [message], phase := phase, pending := s.pending + [reply])
  {
  }

  /** Where an open session stands before its next reply, as far as what follows depends on it. */
  predicate Awaits(s: Session, phase: Phase, reply: Reply, verdicts: seq<byte>, delivered: seq<Bytes>) {
    && IsOpen(s) && s.relaysStarted == 0 && |s.identReply| == 2 && |s.connectReply| == 10
    && s.phase == phase && s.pending == [reply] && s.verdicts == verdicts && s.delivered == delivered
  }

  lemma BeginOutcome(s: Session)
    requires IsNew(s)
    ensures Enabled(s, Begin(true, true))
    ensures var s' := Step(s, Begin(true, true));
            && Awaits(s', LoginSent, IdentReply, [], []) && s'.context == s.context
            && s'.identReply[1] == 0 && s'.connectReply[1] == 0
  {
    AcceptedSend(s, Greeting(s.context), LoginSent, IdentReply);
  }

  lemma TakeBegin(s: Session) returns (es: seq<Event>, s': Session)
    requires IsNew(s)
    ensures Reaches(s, es, s') && Awaits(s', LoginSent, IdentReply, [], [])
    ensures s'.identReply[1] == 0 && s'.connectReply[1] == 0 && s'.context == s.context
  {
    BeginOutcome(s);
    s' := TakeStep(s, [], s, Begin(true, true));
    es := [] + [Begin(true, true)];
  }

  /** The answer to the greeting, whose second byte ends up as `choice`. */
  lemma TakeLogin(s: Session, es: seq<Event>, v: Session, data: Bytes, choice: byte)
    returns (es': seq<Event>, s': Session)
    requires Reaches(s, es, v) && Awaits(v, LoginSent, IdentReply, [], [])
    requires 1 <= |data| <= 2 && data[0] == 5 && choice == VerdictOf(data, v.identReply[1])
    requires choice == 0 || (choice == USERNAME_PASSWORD && HasCredentials(v.context))
    ensures Reaches(s, es', s') && s'.context == v.context && s'.connectReply == v.connectReply
    ensures if choice == 0 then Awaits(s', ConnectSent, ConnectReply, [choice], [data])
            else Awaits(s', PasswordSent, IdentReply, [choice], [data])
  {
    var e := ReadCompleted(data, true, true);
    s' := TakeStep(s, es, v, e);
    es' := es + [e];
    SpliceElements(v.identReply, 0, data);
    var d := Deliver(v, data);
    var w := WithVerdict(d, choice).(phase := LoginResponded);
    assert d.identReply[0] == 5 && d.identReply[1] == choice;
    AcceptedSend(w, Connect(w.context), ConnectSent, ConnectReply);
    if choice != 0 { AcceptedSend(w, Authentication(w.context), PasswordSent, IdentReply); }
  }

  lemma TakeStatus(s: Session, es: seq<Event>, v: Session, data: Bytes)
    returns (es': seq<Event>, s': Session)
    requires Reaches(s, es, v) && |v.verdicts| == 1 && |v.delivered| == 1
    requires Awaits(v, PasswordSent, IdentReply, v.verdicts, v.delivered)
    requires |data| == 2 && data[1] == 0
    ensures Reaches(s, es', s') && s'.context == v.context && s'.connectReply == v.connectReply
    ensures Awaits(s', ConnectSent, ConnectReply, v.verdicts + [0], v.delivered + [data])
  {
    var e := ReadCompleted(data, true, true);
    s' := TakeStep(s, es, v, e);
    es' := es + [e];
    SpliceElements(v.identReply, 0, data);
    var d := Deliver(v, data);
    var w := WithVerdict(d, 0).(phase := PasswordResponded);
    assert d.identReply[1] == 0;
    AcceptedSend(w, Connect(w.context), ConnectSent, ConnectReply);
  }

  lemma TakeConnected(s: Session, es: seq<Event>, v: Session, data: Bytes)
    returns (es': seq<Event>, s': Session)
    requires Reaches(s, es, v) && Awaits(v, ConnectSent, ConnectReply, v.verdicts, v.delivered)
    requires 1 <= |data| <= 10 && VerdictOf(data, v.connectReply[1]) == 0
    ensures Reaches(s, es', s') && s'.relaysStarted == 1
    ensures s'.delivered == v.delivered + [data] && |s'.verdicts| == |v.verdicts| + 1
  {
    var e := ReadCompleted(data, true, true);
    s' := TakeStep(s, es, v, e);
    es' := es + [e];
    SpliceElements(v.connectReply, 0, data);
  }

  lemma ShortLogin(s: Session) returns (es: seq<Event>, s': Session)
    requires IsNew(s)
    ensures Reaches(s, es, s') && |s'.connectReply| == 10 && s'.connectReply[1] == 0
    ensures Awaits(s', ConnectSent, ConnectReply, [0], [[5]])
  {
    var start, a := TakeBegin(s);
    es, s' := TakeLogin(s, start, a, [5], 0);
  }

  /** From every new session, two one-byte reads are enough to start the relay: no reply code was ever received. */
  lemma ShortRepliesStartRelay(s: Session) returns (es: seq<Event>, s': Session)
    requires IsNew(s)
    ensures Reaches(s, es, s') && s'.relaysStarted == 1
    ensures s'.delivered == [[5], [5]]
  {
    var logged, b := ShortLogin(s);
    es, s' := TakeConnected(s, logged, b, [5]);
  }

  lemma PoliteLogin(s: Session) returns (es: seq<Event>, s': Session)
    requires IsNew(s) && HasCredentials(s.context)
    ensures Reaches(s, es, s') && s'.context == s.context && |s'.connectReply| == 10 && s'.connectReply[1] == 0
    ensures Awaits(s', PasswordSent, IdentReply, [USERNAME_PASSWORD], [[5, 2]])
  {
    var start, a := TakeBegin(s);
    es, s' := TakeLogin(s, start, a, [5, 2], USERNAME_PASSWORD);
  }

  lemma PoliteStatus(s: Session) returns (es: seq<Event>, s': Session)
    requires IsNew(s) && HasCredentials(s.context)
    ensures Reaches(s, es, s') && |s'.connectReply| == 10 && s'.connectReply[1] == 0
    ensures Awaits(s', ConnectSent, ConnectReply, [USERNAME_PASSWORD, 0], [[5, 2], [1, 0]])
  {
    var logged, b := PoliteLogin(s);
    es, s' := TakeStatus(s, logged, b, [1, 0]);
  }

  /** A server that follows RFC 1928 and RFC 1929 gets every client with credentials through. */
  lemma PoliteServerStartsRelay(s: Session, answer: Bytes) returns (es: seq<Event>, s': Session)
    requires IsNew(s) && HasCredentials(s.context)
    requires 2 <= |answer| <= 10 && answer[1] == 0
    ensures Reaches(s, es, s') && s'.relaysStarted == 1 && s'.sent == WithPassword(s.context)
    ensures s'.delivered == [[5, 2], [1, 0]] + [answer]
  {
    var admitted, c := PoliteStatus(s);
    es, s' := TakeConnected(s, admitted, c, answer);
    RelayFollowsConversation(s, es, s');
  }
}
