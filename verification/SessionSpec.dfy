/** One proxy session as a flat event automaton: what each network event does to the two
    connections, the authorizer and the outbound connector. The objects in `Session`
    reach the same states through nested callbacks and are proved to refine `Step`. */
module SessionSpec {
  import opened Wrappers
  import opened SocksTypes
  import Wire
  import Machine
  import opened Authorizer

  /** Who a connection currently reports to. */
  datatype User = NoUser | TrackerUser | SessionItself | MainProxyUser | OutProxyUser

  /** A connection as its user sees it: the buffers sent on it, in order. */
  datatype Conn = Conn(user: User, sent: seq<Bytes>, connected: bool)

  datatype AuthCall = AuthCall(user: Bytes, password: Bytes, accepted: bool)

  /** `auths` and `connects` log the calls to the authorizer and to the outbound
      connector; `drops` and `ends` count `onConnectionDestroyed` and `onSessionEnd`. */
  datatype World = World(
    machine: Machine.Config,
    client: Conn,
    server: Option<Conn>,
    proxied: bool,
    auths: seq<AuthCall>,
    connects: seq<SocksAddress>,
    drops: nat,
    ends: nat)

  /** `sendOk` and `connectOk` are what `send` and `createNewConnection` answer while the
      event is handled; handling one event sends at most one buffer. */
  datatype Event =
    | ClientData(buf: Bytes, sendOk: bool, connectOk: bool)
    | ClientClosed
    | ServerConnected(localAddress: Option<SocksAddress>, sendOk: bool)
    | ServerData(buf: Bytes, sendOk: bool)
    | ServerClosed

  /** The local address a connection reports is one whose type byte names its variant. */
  predicate WellFormed(e: Event) {
    e.ServerConnected? && e.localAddress.Some? ==>
      Gettable(e.localAddress.value.addrType, e.localAddress.value.addr)
  }

  datatype Setup = Setup(table: map<Bytes, Bytes>, clientConnected: bool)

  function Init(setup: Setup): World {
    World(Machine.INITIAL, Conn(TrackerUser, [], setup.clientConnected), None, false, [], [], 0, 0)
  }

  // ---------------------------------------------------------------- building blocks

  function Released(c: Conn): Conn {
    Conn(NoUser, c.sent, false)
  }

  /** `Session::destroySelf`: drops the proxy, which closes and releases both connections,
      gives up the outbound connection and reports the end of the session. */
  function Destroy(w: World): World {
    var v := if !w.proxied then w else
      w.(proxied := false,
         client := Released(w.client),
         server := match w.server case None => None case Some(s) => Some(Released(s)));
    v.(drops := w.drops + 1, ends := w.ends + 1)
  }

  function SentTo(c: Conn, buf: Bytes): Conn {
    c.(sent := c.sent + [buf])
  }

  /** `InConnTracker::sendMsg` */
  function SendMsg(w: World, e: Wire.Encoding, sendOk: bool): World {
    if e.Encoded? && sendOk then w.(client := SentTo(w.client, e.bytes)) else Destroy(w)
  }

  function GreetingBytes(authMethod: Byte): Wire.Encoding {
    Wire.EncodeGreetingReply(GreetingReply(VERSION_5, authMethod))
  }

  function PassAuthBytes(status: Byte): Wire.Encoding {
    Wire.EncodeCredentialsReply(CredentialsReply(VERSION_5, status))
  }

  function CommandBytes(status: Byte, a: SocksAddress): Wire.Encoding
    requires Gettable(a.addrType, a.addr)
  {
    Wire.EncodeCommandReply(CommandReply(VERSION_5, status, a.addrType, a.addr, a.port))
  }

  /** `setState` */
  function InState(w: World, s: Machine.State): World {
    w.(machine := w.machine.(state := s))
  }

  /** The machine makes a callback. */
  function Emitting(w: World, o: Machine.Output): World {
    w.(machine := Machine.Emit(w.machine, o))
  }

  function ProtocolError(w: World): World {
    Destroy(Emitting(InState(w, Machine.ProtocolError), Machine.ErrorReport))
  }

  function PassAuthAnswered(w: World, success: bool, sendOk: bool): World {
    if w.machine.state != Machine.WaitForPassAuthResult then ProtocolError(w)
    else if success then
      SendMsg(Emitting(InState(w, Machine.WaitForCommand), Machine.PassAuthResponse(0x00)), PassAuthBytes(0x00), sendOk)
    else
      SendMsg(Emitting(w, Machine.PassAuthResponse(0x01)), PassAuthBytes(0x01), sendOk)
  }

  function AuthCompleted(w: World, success: bool, sendOk: bool): World {
    var v := PassAuthAnswered(w, success, sendOk);
    if success then v else Destroy(v)
  }

  function RequestedPassAuth(table: map<Bytes, Bytes>, w: World, user: Bytes, password: Bytes, sendOk: bool): World {
    var accepted := Authorized(table, user, password);
    AuthCompleted(w.(auths := w.auths + [AuthCall(user, password, accepted)]), accepted, sendOk)
  }

  function ProxyAnswered(w: World, status: Byte, a: SocksAddress, sendOk: bool): World
    requires Gettable(a.addrType, a.addr)
  {
    if w.machine.state != Machine.WaitForProxyStart then ProtocolError(w)
    else
      var v := SendMsg(Emitting(w, Machine.CommandResponse(status, a)), CommandBytes(status, a), sendOk);
      InState(v, if status == REQUEST_GRANTED then Machine.ProxyStarted else Machine.ProxyStartFailed)
  }

  function StartProxy(w: World, command: Byte, a: SocksAddress, sendOk: bool, connectOk: bool): World {
    if command != TCP_STREAM then
      Destroy(ProxyAnswered(w, COMMAND_NOT_SUPPORTED, EMPTY_ADDRESS, sendOk))
    else
      var v := w.(connects := w.connects + [a]);
      if connectOk then v.(server := Some(Conn(SessionItself, [], false)))
      else Destroy(ProxyAnswered(v, GENERAL_FAILURE, EMPTY_ADDRESS, sendOk))
  }

  // ---------------------------------------------------------------- events

  function AfterGreeting(w: World, msg: GreetingMsg, sendOk: bool): World {
    var res := if AUTH_LOGIN_PASS in msg.authMethods then AUTH_LOGIN_PASS else NO_AVAILABLE_METHOD;
    var v := SendMsg(Emitting(w, Machine.GreetingResponse(res)), GreetingBytes(res), sendOk);
    if res == AUTH_LOGIN_PASS then InState(v, Machine.WaitForPassAuth) else ProtocolError(v)
  }

  function AfterCredentials(table: map<Bytes, Bytes>, w: World, msg: CredentialsMsg, sendOk: bool): World {
    var v := Emitting(InState(w, Machine.WaitForPassAuthResult), Machine.RequestPassAuth(msg.user, msg.password));
    RequestedPassAuth(table, v, msg.user, msg.password, sendOk)
  }

  function AfterCommand(w: World, msg: CommandMsg, sendOk: bool, connectOk: bool): World {
    var a := Machine.CommandAddress(msg);
    var v := Emitting(InState(w, Machine.WaitForProxyStart), Machine.StartProxy(msg.command, a));
    StartProxy(v, msg.command, a, sendOk, connectOk)
  }

  function OnGreeting(w: World, buf: Bytes, sendOk: bool): World {
    match Wire.DecodeGreeting(buf)
    case None => ProtocolError(w)
    case Some(msg) => AfterGreeting(w, msg, sendOk)
  }

  function OnCredentials(table: map<Bytes, Bytes>, w: World, buf: Bytes, sendOk: bool): World {
    match Wire.DecodeCredentials(buf)
    case None => ProtocolError(w)
    case Some(msg) => AfterCredentials(table, w, msg, sendOk)
  }

  function OnCommand(w: World, buf: Bytes, sendOk: bool, connectOk: bool): World {
    match Wire.DecodeCommand(buf)
    case None => ProtocolError(w)
    case Some(msg) => AfterCommand(w, msg, sendOk, connectOk)
  }

  /** A buffer from the client before the proxy has taken over. */
  function Handshake(table: map<Bytes, Bytes>, w: World, buf: Bytes, sendOk: bool, connectOk: bool): World {
    match w.machine.state
    case WaitForGreeting => OnGreeting(w, buf, sendOk)
    case WaitForPassAuth => OnCredentials(table, w, buf, sendOk)
    case WaitForCommand => OnCommand(w, buf, sendOk, connectOk)
    case _ => ProtocolError(w)
  }

  function Connected(w: World, localAddress: Option<SocksAddress>, sendOk: bool): World
    requires localAddress.Some? ==> Gettable(localAddress.value.addrType, localAddress.value.addr)
    requires w.server.Some?
  {
    match localAddress
    case None => Destroy(ProxyAnswered(w, HOST_UNREACHABLE, EMPTY_ADDRESS, sendOk))
    case Some(a) =>
      var v := ProxyAnswered(w, REQUEST_GRANTED, a, sendOk);
      v.(client := v.client.(user := MainProxyUser),
         server := Some(v.server.value.(user := OutProxyUser)),
         proxied := true)
  }

  function OnServer(w: World, s: Conn): World {
    w.(server := Some(s))
  }

  /** An event is delivered to the current user of its connection; nothing is delivered
      once the session has ended. */
  function Step(table: map<Bytes, Bytes>, w: World, e: Event): World
    requires WellFormed(e)
  {
    if w.ends > 0 then w else
    match e
    case ClientData(buf, sendOk, connectOk) => (
      match w.client.user
      case TrackerUser => Handshake(table, w, buf, sendOk, connectOk)
      case MainProxyUser =>
        if w.server.Some? && sendOk then OnServer(w, SentTo(w.server.value, buf)) else w
      case _ => w)
    case ClientClosed => (
      var v := w.(client := w.client.(connected := false));
      match w.client.user
      case TrackerUser => Destroy(v)
      case MainProxyUser =>
        Destroy(if v.server.Some? then OnServer(v, v.server.value.(connected := false)) else v)
      case _ => v)
    case ServerConnected(localAddress, sendOk) => (
      if w.server.None? then w else
      var v := OnServer(w, w.server.value.(connected := true));
      if w.server.value.user == SessionItself then Connected(v, localAddress, sendOk) else v)
    case ServerData(buf, sendOk) => (
      if w.server.Some? && w.server.value.user == OutProxyUser && sendOk
      then w.(client := SentTo(w.client, buf)) else w)
    case ServerClosed => (
      if w.server.None? then w else
      var v := OnServer(w, w.server.value.(connected := false));
      if w.server.value.user == OutProxyUser
      then Destroy(v.(client := v.client.(connected := false))) else v)
  }

  predicate AllWellFormed(evs: seq<Event>) {
    forall i :: 0 <= i < |evs| ==> WellFormed(evs[i])
  }

  function Run(setup: Setup, evs: seq<Event>): World
    requires AllWellFormed(evs)
  {
    RunFrom(setup.table, Init(setup), evs)
  }

  function RunFrom(table: map<Bytes, Bytes>, w: World, evs: seq<Event>): World
    requires AllWellFormed(evs)
    decreases |evs|
  {
    if |evs| == 0 then w else RunFrom(table, Step(table, w, evs[0]), evs[1..])
  }

  lemma {:induction false} RunFromLast(table: map<Bytes, Bytes>, w: World, evs: seq<Event>)
    requires |evs| > 0 && AllWellFormed(evs)
    ensures RunFrom(table, w, evs)
         == Step(table, RunFrom(table, w, evs[..|evs| - 1]), evs[|evs| - 1])
    decreases |evs|
  {
    if |evs| == 1 {
    } else {
      RunFromLast(table, Step(table, w, evs[0]), evs[1..]);
      assert evs[1..][..|evs| - 2] == evs[..|evs| - 1][1..];
    }
  }

  /** A run goes on from where it has come to. */
  lemma RunLast(setup: Setup, evs: seq<Event>)
    requires |evs| > 0 && AllWellFormed(evs)
    ensures Run(setup, evs) == Step(setup.table, Run(setup, evs[..|evs| - 1]), evs[|evs| - 1])
  {
    RunFromLast(setup.table, Init(setup), evs);
  }

  lemma RunPrefix(setup: Setup, evs: seq<Event>, i: nat)
    requires i < |evs| && AllWellFormed(evs)
    ensures Run(setup, evs[..i + 1]) == Step(setup.table, Run(setup, evs[..i]), evs[i])
  {
    assert evs[..i + 1][..i] == evs[..i];
    RunLast(setup, evs[..i + 1]);
  }
}
