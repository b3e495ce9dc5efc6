/**
  SOCKS5 negotiation on the remote socket of a proxied connection, before its relay starts.

  A negotiate read may deliver fewer bytes than asked for; what it delivers overwrites the front of the reply
  structure and the code then looks at the whole structure.
 */
module Socks5 {
  import opened Basics
  import opened Frames
  import Relay

  const USERNAME_PASSWORD := 2
  const NO_ACCEPTABLE_METHOD := 0xFF
  const MAX_CREDENTIAL_LENGTH := 255

  type Bytes = seq<byte>

  /** socks5_negotiate_context: the original destination and the credentials of the SOCKS server. */
  datatype Context = Context(address: Address, port: uint16, username: Option<Bytes>, password: Option<Bytes>)

  datatype Phase = PreLogin | LoginSent | LoginResponded | PasswordSent | PasswordResponded | ConnectSent

  /** The structure a negotiate read fills: ident_resp_ (2 bytes) or connect_response_ (10 bytes). */
  datatype Reply = IdentReply | ConnectReply

  /** The socket, and what its peer has been sent, has sent, and how its answers were read. */
  datatype Session = Session(
    context: Context,
    conn: Relay.Connection,
    phase: Phase,
    identReply: Bytes,
    connectReply: Bytes,
    pending: seq<Reply>,
    sent: seq<Bytes>,
    delivered: seq<Bytes>,
    verdicts: seq<byte>,
    relaysStarted: nat)

  // ---------------------------------------------------------------------------------
  // Messages
  // ---------------------------------------------------------------------------------

  /** Section 3 of RFC 1928; username/password is only offered with a username. */
  function Greeting(context: Context): Bytes {
    if context.username.None? then [5, 1, 0] else [5, 2, 0, USERNAME_PASSWORD]
  }

  predicate IsCredential(text: Option<Bytes>) {
    text.Some? && 1 <= |text.value| <= MAX_CREDENTIAL_LENGTH
  }

  predicate HasCredentials(context: Context) {
    IsCredential(context.username) && IsCredential(context.password)
  }

  /** Section 2 of RFC 1929. */
  function Authentication(context: Context): Bytes
    requires HasCredentials(context)
  {
    [1, |context.username.value|] + context.username.value + [|context.password.value|] + context.password.value
  }

  /** Section 4 of RFC 1928: CONNECT to an IPv4 address. */
  function Connect(context: Context): Bytes {
    [5, 1, 0, 1] + context.address + Be16Bytes(context.port)
  }

  // ---------------------------------------------------------------------------------
  // Steps
  // ---------------------------------------------------------------------------------

  function Close(s: Session, isReceive: bool): Session {
    s.(conn := Relay.CloseClient(s.conn, isReceive, false))
  }

  predicate RemoteOpen(s: Session) {
    s.conn.remoteSocket != Relay.INVALID_SOCKET
  }

  function Send(s: Session, message: Bytes, accepted: bool): Session {
    if accepted && RemoteOpen(s) then s.(sent := s.sent + [message]) else Close(s, false)
  }

  function PostRead(s: Session, reply: Reply, accepted: bool): Session {
    if accepted && RemoteOpen(s) then s.(pending := s.pending + [reply]) else Close(s, true)
  }

  function SendAndRead(s: Session, message: Bytes, phase: Phase, reply: Reply, sendAccepted: bool, readAccepted: bool)
    : Session
  {
    PostRead(Send(s, message, sendAccepted).(phase := phase), reply, readAccepted)
  }

  /** remote_negotiate with a context present; it never completes the negotiation at once. */
  function RemoteNegotiate(s: Session, sendAccepted: bool, readAccepted: bool): Session {
    if s.phase == PreLogin then
      SendAndRead(s, Greeting(s.context), LoginSent, IdentReply, sendAccepted, readAccepted)
    else s
  }

  function WithVerdict(s: Session, verdict: byte): Session {
    s.(verdicts := s.verdicts + [verdict])
  }

  function StartRelay(s: Session, accepted1: bool, accepted2: bool): Session {
    var started := accepted1 && accepted2 && s.conn.localSocket != Relay.INVALID_SOCKET && RemoteOpen(s);
    s.(conn := Relay.StartDataRelay(s.conn, accepted1, accepted2),
       relaysStarted := s.relaysStarted + if started then 1 else 0)
  }

  /** process_receive_negotiate_complete, once the reply is in memory. */
  function HandleReply(s: Session, accepted1: bool, accepted2: bool): Session
    requires |s.identReply| == 2 && |s.connectReply| == 10
  {
    match s.phase
    case LoginSent =>
      var s := WithVerdict(s, s.identReply[1]).(phase := LoginResponded);
      if s.identReply[0] != 5 || s.identReply[1] == NO_ACCEPTABLE_METHOD then Close(s, true)
      else if s.identReply[1] == USERNAME_PASSWORD then
        if !HasCredentials(s.context) then Close(s, true)
        else SendAndRead(s, Authentication(s.context), PasswordSent, IdentReply, accepted1, accepted2)
      else SendAndRead(s, Connect(s.context), ConnectSent, ConnectReply, accepted1, accepted2)
    case PasswordSent =>
      var s := WithVerdict(s, s.identReply[1]).(phase := PasswordResponded);
      if s.identReply[1] != 0 then Close(s, true)
      else SendAndRead(s, Connect(s.context), ConnectSent, ConnectReply, accepted1, accepted2)
    case ConnectSent =>
      var s := WithVerdict(s, s.connectReply[1]);
      if s.connectReply[1] != 0 then Close(s, true) else StartRelay(s, accepted1, accepted2)
    case _ => s
  }

  datatype Event =
    | Begin(sendAccepted: bool, readAccepted: bool)
    | ReadCompleted(data: Bytes, accepted1: bool, accepted2: bool)
    | ReadFailed
    | WriteFailed

  function ReplySize(reply: Reply): nat {
    if reply == IdentReply then 2 else 10
  }

  predicate Enabled(s: Session, e: Event) {
    && |s.identReply| == 2 && |s.connectReply| == 10
    && match e
       case Begin(_, _) => s.phase == PreLogin && s.conn.status == Relay.Established
       case ReadCompleted(data, _, _) => s.pending != [] && 1 <= |data| <= ReplySize(s.pending[0])
       case ReadFailed => s.pending != []
       case WriteFailed => s.sent != []
  }

  /** The front of the reply structure is overwritten by what was delivered. */
  function Deliver(s: Session, data: Bytes): Session
    requires s.pending != [] && |s.identReply| == 2 && |s.connectReply| == 10
    requires |data| <= ReplySize(s.pending[0])
  {
    var s' := s.(pending := s.pending[1..], delivered := s.delivered + [data]);
    if s.pending[0] == IdentReply then s'.(identReply := Splice(s.identReply, 0, data))
    else s'.(connectReply := Splice(s.connectReply, 0, data))
  }

  function Step(s: Session, e: Event): Session
    requires Enabled(s, e)
  {
    match e
    case Begin(a1, a2) => RemoteNegotiate(s, a1, a2)
    case ReadCompleted(data, a1, a2) =>
      var s' := Deliver(s, data);
      HandleReply(s', a1, a2)
    case ReadFailed => Close(s.(pending := s.pending[1..]), true)
    case WriteFailed => Close(s, false)
  }

  // ---------------------------------------------------------------------------------
  // The invariant
  // ---------------------------------------------------------------------------------

  predicate ChoseNoAuthentication(s: Session) {
    s.verdicts != [] && s.verdicts[0] != USERNAME_PASSWORD && s.verdicts[0] != NO_ACCEPTABLE_METHOD
  }

  predicate ChosePassword(s: Session) {
    s.verdicts != [] && s.verdicts[0] == USERNAME_PASSWORD && HasCredentials(s.context)
  }

  /** The proxy has accepted the client: at once, or with status 0 for its credentials. */
  predicate IsAdmitted(s: Session) {
    ChoseNoAuthentication(s) || (ChosePassword(s) && |s.verdicts| > 1 && s.verdicts[1] == 0)
  }

  /** The complete conversation of an admitted client. */
  function Conversation(s: Session): seq<Bytes>
    requires ChoseNoAuthentication(s) || ChosePassword(s)
  {
    if ChosePassword(s) then [Greeting(s.context), Authentication(s.context), Connect(s.context)]
    else [Greeting(s.context), Connect(s.context)]
  }

  /** How many replies come before the one to CONNECT. */
  function Preliminaries(s: Session): nat {
    if ChosePassword(s) then 2 else 1
  }

  predicate IsOpen(s: Session) {
    && s.conn.status == Relay.Established
    && s.conn.localSocket != Relay.INVALID_SOCKET && s.conn.remoteSocket != Relay.INVALID_SOCKET
  }

  predicate IsClosed(s: Session) {
    && s.conn.status == Relay.Completed
    && s.conn.localSocket == Relay.INVALID_SOCKET && s.conn.remoteSocket == Relay.INVALID_SOCKET
  }

  predicate AtMost(pending: seq<Reply>, reply: Reply) {
    pending == [] || pending == [reply]
  }

  /** Where the session is in the conversation, whether or not its sockets are still open. */
  predicate PhaseOk(s: Session) {
    var n := |s.delivered|;
    match s.phase
    case PreLogin => n == 0 && s.pending == [] && s.sent == []
    case LoginSent => n == 0 && AtMost(s.pending, IdentReply)
    case LoginResponded => n == 1 && s.pending == []
    case PasswordSent => n == 1 && AtMost(s.pending, IdentReply) && ChosePassword(s)
    case PasswordResponded => n == 2 && s.pending == []
    case ConnectSent =>
      && IsAdmitted(s)
      && (if n == Preliminaries(s) then AtMost(s.pending, ConnectReply)
          else n == Preliminaries(s) + 1 && s.pending == [])
  }

  /** What an open session has sent; a closed one sends nothing more. */
  predicate SentOk(s: Session) {
    && (IsOpen(s) ==>
          match s.phase
          case PreLogin => true
          case LoginSent => s.sent == [Greeting(s.context)]
          case PasswordSent => ChosePassword(s) && s.sent == [Greeting(s.context), Authentication(s.context)]
          case ConnectSent => IsAdmitted(s) && s.sent == Conversation(s)
          case _ => false)
    && (s.sent <= [Greeting(s.context)]
        || ((ChoseNoAuthentication(s) || ChosePassword(s)) && s.sent <= Conversation(s)))
  }

  /** The relay has started at most once, after the last reply, on a verdict of 0 and a complete conversation. */
  predicate RelayOk(s: Session) {
    && s.relaysStarted <= 1
    && (s.relaysStarted == 0 ==> s.conn.down.recvPosted == None)
    && (s.relaysStarted == 1 ==>
          && s.phase == ConnectSent && IsAdmitted(s) && s.sent == Conversation(s)
          && |s.verdicts| == Preliminaries(s) + 1 && Last(s.verdicts) == 0)
  }

  /** What the untouched parts of the reply structures hold. */
  predicate MemoryOk(s: Session) {
    && |s.identReply| == 2 && |s.connectReply| == 10
    && (s.delivered == [] ==> s.identReply == [5, 0])
    && (s.phase == PasswordSent ==> s.identReply[1] == USERNAME_PASSWORD)
    && (s.phase != ConnectSent || |s.delivered| == Preliminaries(s) ==> s.connectReply[1] == 0)
  }

  /** A verdict is the second byte delivered, or what the structure held if there was no second byte. */
  function VerdictOf(data: Bytes, stale: byte): byte {
    if |data| > 1 then data[1] else stale
  }

  predicate VerdictsOk(s: Session) {
    && |s.verdicts| == |s.delivered| <= 3
    && (|s.verdicts| > 0 ==> s.verdicts[0] == VerdictOf(s.delivered[0], 0))
    && (|s.verdicts| > 1 ==>
          s.verdicts[1] == VerdictOf(s.delivered[1], if ChosePassword(s) then USERNAME_PASSWORD else 0))
    && (|s.verdicts| > 2 ==> s.verdicts[2] == VerdictOf(s.delivered[2], 0))
  }

  predicate Inv(s: Session) {
    (IsOpen(s) || IsClosed(s)) && PhaseOk(s) && SentOk(s) && RelayOk(s) && MemoryOk(s) && VerdictsOk(s)
  }

  /** A session around two connected sockets, with its reply structures as constructed. */
  ghost predicate IsNew(s: Session) {
    && Relay.Fresh(s.conn)
    && s.phase == PreLogin
    && s.identReply == [5, 0] && s.connectReply == [5, 0, 0, 0, 0, 0, 0, 0, 0, 0]
    && s.pending == [] && s.sent == [] && s.delivered == [] && s.verdicts == [] && s.relaysStarted == 0
  }

  lemma NewSessionInv(s: Session)
    requires IsNew(s)
    ensures Inv(s)
  {
  }

  lemma BeginKeepsInv(s: Session, e: Event)
    requires Inv(s) && e.Begin? && Enabled(s, e)
    ensures Inv(Step(s, e))
  {
  }

  lemma FailureKeepsInv(s: Session, e: Event)
    requires Inv(s) && (e.ReadFailed? || e.WriteFailed?) && Enabled(s, e)
    ensures Inv(Step(s, e))
  {
  }

  /** A message is sent and its reply awaited on an open session, or the session ends up closed. */
  lemma SendAndReadOutcome(s: Session, message: Bytes, phase: Phase, reply: Reply, a1: bool, a2: bool)
    requires IsOpen(s) || IsClosed(s)
    ensures var s' := SendAndRead(s, message, phase, reply, a1, a2);
            && s' == s.(conn := s'.conn, phase := phase, pending := s'.pending, sent := s'.sent)
            && s'.conn.down.recvPosted == s.conn.down.recvPosted
            && (if IsOpen(s') then
                  s'.conn == s.conn && s'.sent == s.sent + [message] && s'.pending == s.pending + [reply]
                else
                  && IsClosed(s') && s'.pending == s.pending
                  && (s'.sent == s.sent || (IsOpen(s) && s'.sent == s.sent + [message])))
  {
  }

  /** The session once a login reply is in memory and its method has been read. */
  predicate LoginAnswered(s: Session) {
    && (IsOpen(s) || IsClosed(s))
    && s.phase == LoginResponded && s.pending == [] && |s.delivered| == 1
    && |s.identReply| == 2 && |s.connectReply| == 10 && s.connectReply[1] == 0
    && s.relaysStarted == 0 && s.conn.down.recvPosted == None
    && s.verdicts == [VerdictOf(s.delivered[0], 0)] == [s.identReply[1]]
    && s.sent <= [Greeting(s.context)] && (IsOpen(s) ==> s.sent == [Greeting(s.context)])
  }

  lemma LoginAnsweredAfterRead(s: Session, e: Event)
    requires Inv(s) && e.ReadCompleted? && Enabled(s, e) && s.phase == LoginSent
    ensures var d := Deliver(s, e.data);
            LoginAnswered(WithVerdict(d, d.identReply[1]).(phase := LoginResponded))
  {
    SpliceElements(s.identReply, 0, e.data);
    assert s.delivered == [] && s.verdicts == [];
  }

  lemma RefusedLoginKeepsInv(s: Session)
    requires LoginAnswered(s)
    ensures Inv(Close(s, true))
  {
  }

  lemma ConnectAfterLoginKeepsInv(s: Session, a1: bool, a2: bool)
    requires LoginAnswered(s) && ChoseNoAuthentication(s)
    ensures Inv(SendAndRead(s, Connect(s.context), ConnectSent, ConnectReply, a1, a2))
  {
    var s' := SendAndRead(s, Connect(s.context), ConnectSent, ConnectReply, a1, a2);
    SendAndReadOutcome(s, Connect(s.context), ConnectSent, ConnectReply, a1, a2);
    PrefixOfOne(s.sent, Greeting(s.context));
    assert PhaseOk(s') && RelayOk(s');
    assert SentOk(s') by { assert Conversation(s') == [Greeting(s.context), Connect(s.context)]; }
    assert MemoryOk(s');
    assert VerdictsOk(s');
  }

  lemma AuthenticateAfterLoginKeepsInv(s: Session, a1: bool, a2: bool)
    requires LoginAnswered(s) && ChosePassword(s)
    ensures Inv(SendAndRead(s, Authentication(s.context), PasswordSent, IdentReply, a1, a2))
  {
    var s' := SendAndRead(s, Authentication(s.context), PasswordSent, IdentReply, a1, a2);
    SendAndReadOutcome(s, Authentication(s.context), PasswordSent, IdentReply, a1, a2);
    PrefixOfOne(s.sent, Greeting(s.context));
    assert PhaseOk(s') && RelayOk(s');
    assert SentOk(s') by {
      assert Conversation(s') == [Greeting(s.context), Authentication(s.context), Connect(s.context)];
    }
    assert MemoryOk(s');
    assert VerdictsOk(s');
  }

  lemma LoginReplyKeepsInv(s: Session, e: Event)
    requires Inv(s) && e.ReadCompleted? && Enabled(s, e) && s.phase == LoginSent
    ensures Inv(Step(s, e))
  {
    var d := Deliver(s, e.data);
    var v := WithVerdict(d, d.identReply[1]).(phase := LoginResponded);
    LoginAnsweredAfterRead(s, e);
    RefusedLoginKeepsInv(v);
    if ChoseNoAuthentication(v) { ConnectAfterLoginKeepsInv(v, e.accepted1, e.accepted2); }
    if ChosePassword(v) { AuthenticateAfterLoginKeepsInv(v, e.accepted1, e.accepted2); }
  }

  /** The session once the status of its credentials is in memory and has been read. */
  predicate StatusAnswered(s: Session) {
    && (IsOpen(s) || IsClosed(s)) && ChosePassword(s)
    && s.phase == PasswordResponded && s.pending == [] && |s.delivered| == 2
    && |s.identReply| == 2 && |s.connectReply| == 10 && s.connectReply[1] == 0
    && s.relaysStarted == 0 && s.conn.down.recvPosted == None
    && |s.verdicts| == 2 && s.verdicts[0] == VerdictOf(s.delivered[0], 0)
    && s.verdicts[1] == VerdictOf(s.delivered[1], USERNAME_PASSWORD) && s.verdicts[1] == s.identReply[1]
    && (s.sent == [] || s.sent == [Greeting(s.context)] || s.sent == [Greeting(s.context), Authentication(s.context)]
        || s.sent == Conversation(s))
    && (IsOpen(s) ==> s.sent == [Greeting(s.context), Authentication(s.context)])
  }

  lemma StatusAnsweredAfterRead(s: Session, e: Event)
    requires Inv(s) && e.ReadCompleted? && Enabled(s, e) && s.phase == PasswordSent
    ensures var d := Deliver(s, e.data);
            StatusAnswered(WithVerdict(d, d.identReply[1]).(phase := PasswordResponded))
  {
    SpliceElements(s.identReply, 0, e.data);
    if s.sent <= [Greeting(s.context)] { PrefixOfOne(s.sent, Greeting(s.context)); }
    else { PrefixOfThree(s.sent, Greeting(s.context), Authentication(s.context), Connect(s.context)); }
  }

  lemma RefusedStatusKeepsInv(s: Session)
    requires StatusAnswered(s)
    ensures Inv(Close(s, true))
  {
    var s' := Close(s, true);
    assert Conversation(s') == [Greeting(s.context), Authentication(s.context), Connect(s.context)];
    assert SentOk(s');
  }

  lemma ConnectAfterStatusKeepsInv(s: Session, a1: bool, a2: bool)
    requires StatusAnswered(s) && s.verdicts[1] == 0
    ensures Inv(SendAndRead(s, Connect(s.context), ConnectSent, ConnectReply, a1, a2))
  {
    var s' := SendAndRead(s, Connect(s.context), ConnectSent, ConnectReply, a1, a2);
    SendAndReadOutcome(s, Connect(s.context), ConnectSent, ConnectReply, a1, a2);
    assert PhaseOk(s') && RelayOk(s') && MemoryOk(s');
    assert SentOk(s') by {
      assert Conversation(s') == [Greeting(s.context), Authentication(s.context), Connect(s.context)];
    }
    assert VerdictsOk(s');
  }

  lemma PasswordReplyKeepsInv(s: Session, e: Event)
    requires Inv(s) && e.ReadCompleted? && Enabled(s, e) && s.phase == PasswordSent
    ensures Inv(Step(s, e))
  {
    var d := Deliver(s, e.data);
    var v := WithVerdict(d, d.identReply[1]).(phase := PasswordResponded);
    StatusAnsweredAfterRead(s, e);
    if v.verdicts[1] != 0 { RefusedStatusKeepsInv(v); }
    else { ConnectAfterStatusKeepsInv(v, e.accepted1, e.accepted2); }
  }

  /** The session once the reply to CONNECT has been read. */
  lemma ConnectAnsweredAfterRead(s: Session, e: Event)
    requires Inv(s) && e.ReadCompleted? && Enabled(s, e) && s.phase == ConnectSent
    ensures var d := Deliver(s, e.data);
            var v := WithVerdict(d, d.connectReply[1]);
            && (IsOpen(v) || IsClosed(v)) && PhaseOk(v) && SentOk(v) && MemoryOk(v) && VerdictsOk(v)
            && v.relaysStarted == 0 && v.conn.down.recvPosted == None
            && |v.verdicts| == Preliminaries(v) + 1 && Last(v.verdicts) == v.connectReply[1]
  {
    SpliceElements(s.connectReply, 0, e.data);
  }

  /** Closing or starting the relay changes nothing else. */
  lemma StartRelayOutcome(s: Session, a1: bool, a2: bool)
    requires (IsOpen(s) || IsClosed(s)) && s.conn.down.recvPosted == None
    ensures var s' := StartRelay(s, a1, a2);
            && s' == s.(conn := s'.conn, relaysStarted := s'.relaysStarted)
            && (if s'.relaysStarted > s.relaysStarted then
                  IsOpen(s) && IsOpen(s') && s'.relaysStarted == s.relaysStarted + 1
                else IsClosed(s') && s'.relaysStarted == s.relaysStarted && s'.conn.down.recvPosted == None)
  {
  }

  lemma ConnectReplyKeepsInv(s: Session, e: Event)
    requires Inv(s) && e.ReadCompleted? && Enabled(s, e) && s.phase == ConnectSent
    ensures Inv(Step(s, e))
  {
    ConnectAnsweredAfterRead(s, e);
    var d := Deliver(s, e.data);
    var v := WithVerdict(d, d.connectReply[1]);
    StartRelayOutcome(v, e.accepted1, e.accepted2);
  }

  lemma StepKeepsInv(s: Session, e: Event)
    requires Inv(s) && Enabled(s, e)
    ensures Inv(Step(s, e))
  {
    match e
    case Begin(_, _) => BeginKeepsInv(s, e);
    case ReadCompleted(_, _, _) =>
      match s.phase {
        case LoginSent => LoginReplyKeepsInv(s, e);
        case PasswordSent => PasswordReplyKeepsInv(s, e);
        case ConnectSent => ConnectReplyKeepsInv(s, e);
        case _ =>
      }
    case _ => FailureKeepsInv(s, e);
  }

  // ---------------------------------------------------------------------------------
  // Which answers keep a session open
  // ---------------------------------------------------------------------------------

  /** Opening the conversation keeps the session open exactly if Winsock takes the greeting and the read. */
  lemma BeginStaysOpenIff(s: Session, e: Event)
    requires Inv(s) && IsOpen(s) && e.Begin? && Enabled(s, e)
    ensures IsOpen(Step(s, e)) <==> e.sendAccepted && e.readAccepted
    ensures IsOpen(Step(s, e)) ==> Step(s, e).phase == LoginSent && Step(s, e).pending == [IdentReply]
    ensures Step(s, e).sent == if e.sendAccepted then [Greeting(s.context)] else []
    ensures Step(s, e).relaysStarted == 0
  {
  }

  /** The method chosen by an answer to the greeting, which says "none needed" if it is cut short. */
  function Chosen(data: Bytes): byte {
    if |data| > 1 then data[1] else 0
  }

  /**
    An answer to the greeting must be of version 5, choose a method, and choose username and password only if there
    are some. Then the credentials or the CONNECT go out.
   */
  lemma LoginStaysOpenIff(s: Session, e: Event)
    requires Inv(s) && IsOpen(s) && e.ReadCompleted? && Enabled(s, e) && s.phase == LoginSent
    ensures IsOpen(Step(s, e)) <==>
              && e.data[0] == 5 && Chosen(e.data) != 255
              && (Chosen(e.data) == 2 ==> HasCredentials(s.context))
              && e.accepted1 && e.accepted2
    ensures IsOpen(Step(s, e)) ==>
              && Step(s, e).phase == (if Chosen(e.data) == 2 then PasswordSent else ConnectSent)
              && Step(s, e).pending == [if Chosen(e.data) == 2 then IdentReply else ConnectReply]
    ensures e.data[0] == 5 && Chosen(e.data) != 255 && (Chosen(e.data) == 2 ==> HasCredentials(s.context)) ==>
              Step(s, e).sent == s.sent
                + if !e.accepted1 then []
                  else [if Chosen(e.data) == 2 then Authentication(s.context) else Connect(s.context)]
    ensures Step(s, e).relaysStarted == 0
  {
    SpliceElements(s.identReply, 0, e.data);
    assert s.verdicts == [];
    var v := WithVerdict(Deliver(s, e.data), Deliver(s, e.data).identReply[1]).(phase := LoginResponded);
    LoginAnsweredAfterRead(s, e);
    assert v.identReply[0] == e.data[0] && v.identReply[1] == Chosen(e.data);
    SendAndReadOutcome(v, Connect(v.context), ConnectSent, ConnectReply, e.accepted1, e.accepted2);
    if HasCredentials(v.context) {
      SendAndReadOutcome(v, Authentication(v.context), PasswordSent, IdentReply, e.accepted1, e.accepted2);
    }
  }

  /** An answer to the credentials must be whole and have status 0; then the CONNECT goes out. */
  lemma PasswordStaysOpenIff(s: Session, e: Event)
    requires Inv(s) && IsOpen(s) && e.ReadCompleted? && Enabled(s, e) && s.phase == PasswordSent
    ensures IsOpen(Step(s, e)) <==> |e.data| == 2 && e.data[1] == 0 && e.accepted1 && e.accepted2
    ensures IsOpen(Step(s, e)) ==> Step(s, e).phase == ConnectSent && Step(s, e).pending == [ConnectReply]
    ensures |e.data| == 2 && e.data[1] == 0 ==>
              Step(s, e).sent == s.sent + if e.accepted1 then [Connect(s.context)] else []
    ensures Step(s, e).relaysStarted == 0
  {
    SpliceElements(s.identReply, 0, e.data);
    var v := WithVerdict(Deliver(s, e.data), Deliver(s, e.data).identReply[1]).(phase := PasswordResponded);
    StatusAnsweredAfterRead(s, e);
    SendAndReadOutcome(v, Connect(v.context), ConnectSent, ConnectReply, e.accepted1, e.accepted2);
  }

  /** An answer to CONNECT must not carry another status than 0; then, and only then, the relay starts. */
  lemma ConnectStaysOpenIff(s: Session, e: Event)
    requires Inv(s) && IsOpen(s) && e.ReadCompleted? && Enabled(s, e) && s.phase == ConnectSent
    ensures IsOpen(Step(s, e)) <==> Chosen(e.data) == 0 && e.accepted1 && e.accepted2
    ensures Step(s, e).relaysStarted == if IsOpen(Step(s, e)) then 1 else 0
    ensures Chosen(e.data) == 0 ==> Step(s, e).conn == Relay.StartDataRelay(s.conn, e.accepted1, e.accepted2)
  {
    SpliceElements(s.connectReply, 0, e.data);
    ConnectAnsweredAfterRead(s, e);
    StartRelayOutcome(WithVerdict(Deliver(s, e.data), Deliver(s, e.data).connectReply[1]), e.accepted1, e.accepted2);
  }

  /** A refused post closes both sockets and clears the length of the relay's read from the server. */
  lemma RefusedPostOutcome(s: Session, message: Bytes, phase: Phase, reply: Reply, a1: bool, a2: bool)
    requires IsOpen(s) && !(a1 && a2)
    ensures var c, c' := s.conn, SendAndRead(s, message, phase, reply, a1, a2).conn;
            && c'.localSocket == c'.remoteSocket == -1 && c'.status == Relay.Completed
            && c'.down == c.down.(recv := Relay.WsaBuf(c.down.recv.buf, 0))
            && c'.up == if a1 then c.up else c.up.(send := Relay.WsaBuf(c.up.send.buf, 0))
  {
  }

  /** So does an answer read as a refusal. */
  lemma RefusedReplyOutcome(s: Session, e: Event)
    requires Inv(s) && IsOpen(s) && e.ReadCompleted? && Enabled(s, e)
    requires s.phase == LoginSent ==> e.data[0] != 5 || Chosen(e.data) == 255
    requires s.phase == PasswordSent ==> |e.data| < 2 || e.data[1] != 0
    requires s.phase == ConnectSent ==> Chosen(e.data) != 0
    ensures var c, c' := s.conn, Step(s, e).conn;
            && c'.localSocket == c'.remoteSocket == -1 && c'.status == Relay.Completed
            && c'.down == c.down.(recv := Relay.WsaBuf(c.down.recv.buf, 0)) && c'.up == c.up
  {
    if s.pending[0] == IdentReply { SpliceElements(s.identReply, 0, e.data); }
    else { SpliceElements(s.connectReply, 0, e.data); }
    assert s.phase == LoginSent ==> s.identReply == [5, 0];
  }

  /** A failed read or write closes the session. */
  lemma FailureCloses(s: Session, e: Event)
    requires Inv(s) && Enabled(s, e) && (e.ReadFailed? || e.WriteFailed?)
    ensures IsClosed(Step(s, e))
  {
  }

  // ---------------------------------------------------------------------------------
  // The layout of the messages
  // ---------------------------------------------------------------------------------

  /** Version 5, the number of methods, and the methods: "none needed", then username and password with a username. */
  lemma GreetingLayout(context: Context)
    ensures var g := Greeting(context);
            && |g| >= 2 && g[0] == 5 && g[1] == |g| - 2
            && g[2..] == if context.username.Some? then [0, 2] else [0]
  {
  }

  /** Version 1, then username and password, each behind its length. */
  lemma AuthenticationLayout(context: Context)
    requires HasCredentials(context)
    ensures var a, n, m := Authentication(context), |context.username.value|, |context.password.value|;
            && 1 <= n <= 255 && 1 <= m <= 255 && |a| == 3 + n + m
            && a[0] == 1 && a[1] == n && a[2..2 + n] == context.username.value
            && a[2 + n] == m && a[3 + n..] == context.password.value
  {
  }

  /** Credentials are usable if both strings are there, with 1 to 255 bytes each. */
  lemma CredentialsIff(context: Context)
    ensures HasCredentials(context) <==>
              && context.username.Some? && 0 < |context.username.value| < 256
              && context.password.Some? && 0 < |context.password.value| < 256
  {
  }
}
