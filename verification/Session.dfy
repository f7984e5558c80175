/** The objects of one session, with the callbacks between them: `Session` owns the tracker
    of the client connection, the tracker owns the state machine, and the stream proxy owns
    two directed connections. Every method is proved against `SessionSpec`; the network's
    events, nested answers and handover included, come out as `SessionSpec.Step`. */
module Session {
  import opened Wrappers
  import opened SocksTypes
  import opened SessionSpec
  import Wire
  import Machine
  import SocksDecoder
  import SocksEncoder
  import Authorizer

  /** `ISocksConnection`. `sendOk` and `localAddress` are the network's answers. */
  class Connection {
    var user: User
    var sent: seq<Bytes>
    var connected: bool
    var localAddress: Option<SocksAddress>
    var sendOk: bool

    ghost function View(): Conn
      reads this
    {
      Conn(user, sent, connected)
    }

    constructor (user: User, connected: bool)
      ensures View() == Conn(user, [], connected)
    {
      this.user, this.sent, this.connected := user, [], connected;
      localAddress, sendOk := None, true;
    }

    method SetUser(user: User)
      modifies this`user
      ensures this.user == user
    {
      this.user := user;
    }

    method Send(buf: Bytes) returns (ok: bool)
      modifies this`sent
      ensures ok == sendOk
      ensures sent == if ok then old(sent) + [buf] else old(sent)
    {
      if sendOk {
        sent := sent + [buf];
      }
      return sendOk;
    }

    method CloseConnection()
      modifies this`connected
      ensures !connected
    {
      connected := false;
    }
  }

  /** `ISocksSessionUser`: opens outbound connections and forgets ended sessions. */
  class SessionUser {
    var connectOk: bool
    var connects: seq<SocksAddress>
    var drops: nat
    var ends: nat

    constructor ()
      ensures connects == [] && drops == 0 && ends == 0
    {
      connectOk, connects, drops, ends := true, [], 0, 0;
    }

    method CreateNewConnection(address: SocksAddress) returns (conn: Connection?)
      modifies this`connects
      ensures connects == old(connects) + [address]
      ensures (conn != null) == connectOk
      ensures conn != null ==> fresh(conn) && conn.View() == Conn(SessionItself, [], false)
    {
      connects := connects + [address];
      if !connectOk {
        return null;
      }
      conn := new Connection(SessionItself, false);
    }

    /** Gives up the outbound connection of the session. */
    method OnConnectionDestroyed()
      modifies this`drops
      ensures drops == old(drops) + 1
    {
      drops := drops + 1;
    }

    method OnSessionEnd()
      modifies this`ends
      ensures ends == old(ends) + 1
    {
      ends := ends + 1;
    }
  }

  // ------------------------------------------------------------------ StateMachine

  class StateMachine {
    const owner: InConnTracker
    var state: Machine.State
    ghost var trace: seq<Machine.Output>

    ghost function View(): Machine.Config
      reads this
    {
      Machine.Config(state, trace)
    }

    constructor (owner: InConnTracker)
      ensures this.owner == owner && View() == Machine.INITIAL
    {
      this.owner := owner;
      state, trace := Machine.WaitForGreeting, [];
    }

    ghost predicate Linked()
      reads owner, owner.owner, owner.owner.Links(), owner.owner.Footprint()
    {
      owner.machine == this && owner.owner.tracker == owner && owner.owner.Valid()
    }

    method ProcessBuffer(buf: Bytes)
      requires Linked()
      modifies owner.owner.Footprint()
      ensures Linked() && fresh(owner.owner.Footprint() - old(owner.owner.Footprint()))
      ensures owner.owner.World() ==
              Handshake(owner.owner.Table(), old(owner.owner.World()), buf,
                        old(owner.owner.inConn.sendOk), old(owner.owner.user.connectOk))
    {
      match state {
        case WaitForGreeting => ReceiveGreeting(buf);
        case WaitForPassAuth => ReceiveCredentials(buf);
        case WaitForCommand => ReceiveCommand(buf);
        case _ => ReportError();
      }
    }

    /** The three cases of `processBuffer`. */
    method ReceiveGreeting(buf: Bytes)
      requires Linked() && state == Machine.WaitForGreeting
      modifies owner.owner.Footprint()
      ensures Linked() && owner.owner.Footprint() == old(owner.owner.Footprint())
      ensures owner.owner.World() == OnGreeting(old(owner.owner.World()), buf, old(owner.owner.inConn.sendOk))
    {
      var ok, msg := SocksDecoder.DecodeGreeting(buf);
      if !ok {
        ReportError();
        return;
      }
      ProcessGreetingMsg(msg);
    }

    method ReceiveCredentials(buf: Bytes)
      requires Linked() && state == Machine.WaitForPassAuth
      modifies owner.owner.Footprint()
      ensures Linked() && owner.owner.Footprint() == old(owner.owner.Footprint())
      ensures owner.owner.World() ==
              OnCredentials(owner.owner.Table(), old(owner.owner.World()), buf, old(owner.owner.inConn.sendOk))
    {
      var ok, msg := SocksDecoder.DecodeCredentials(buf);
      if !ok {
        ReportError();
        return;
      }
      ProcessPassAuthMsg(msg);
    }

    method ReceiveCommand(buf: Bytes)
      requires Linked() && state == Machine.WaitForCommand
      modifies owner.owner.Footprint()
      ensures Linked() && fresh(owner.owner.Footprint() - old(owner.owner.Footprint()))
      ensures owner.owner.World() ==
              OnCommand(old(owner.owner.World()), buf, old(owner.owner.inConn.sendOk), old(owner.owner.user.connectOk))
    {
      var ok, msg := SocksDecoder.DecodeCommand(buf);
      if !ok {
        ReportError();
        return;
      }
      ProcessCommandMsg(msg);
    }

    method ProcessGreetingMsg(msg: GreetingMsg)
      requires Linked()
      modifies owner.owner.Footprint()
      ensures Linked() && owner.owner.Footprint() == old(owner.owner.Footprint())
      ensures owner.owner.World() ==
              if old(state) != Machine.WaitForGreeting then ProtocolError(old(owner.owner.World()))
              else AfterGreeting(old(owner.owner.World()), msg, old(owner.owner.inConn.sendOk))
    {
      if state != Machine.WaitForGreeting {
        ReportError();
        return;
      }
      var res := NO_AVAILABLE_METHOD;
      if AUTH_LOGIN_PASS in msg.authMethods {
        res := AUTH_LOGIN_PASS;
      }
      Record(Machine.GreetingResponse(res));
      owner.SendGreetingResponse(res);
      if res == AUTH_LOGIN_PASS {
        SetState(Machine.WaitForPassAuth);
      } else {
        ReportError();
      }
    }

    method ProcessPassAuthMsg(msg: CredentialsMsg)
      requires Linked()
      modifies owner.owner.Footprint()
      ensures Linked() && owner.owner.Footprint() == old(owner.owner.Footprint())
      ensures owner.owner.World() ==
              if old(state) != Machine.WaitForPassAuth then ProtocolError(old(owner.owner.World()))
              else AfterCredentials(owner.owner.Table(), old(owner.owner.World()), msg, old(owner.owner.inConn.sendOk))
    {
      if state != Machine.WaitForPassAuth {
        ReportError();
        return;
      }
      SetState(Machine.WaitForPassAuthResult);
      Record(Machine.RequestPassAuth(msg.user, msg.password));
      owner.RequestPassAuth(msg.user, msg.password);
    }

    method ProcessCommandMsg(msg: CommandMsg)
      requires Linked()
      modifies owner.owner.Footprint()
      ensures Linked() && fresh(owner.owner.Footprint() - old(owner.owner.Footprint()))
      ensures owner.owner.World() ==
              if old(state) != Machine.WaitForCommand then ProtocolError(old(owner.owner.World()))
              else AfterCommand(old(owner.owner.World()), msg,
                           old(owner.owner.inConn.sendOk), old(owner.owner.user.connectOk))
    {
      if state != Machine.WaitForCommand {
        ReportError();
        return;
      }
      SetState(Machine.WaitForProxyStart);
      var addr := SocksAddress(msg.addrType, msg.addr, msg.port);
      Record(Machine.StartProxy(msg.command, addr));
      owner.StartProxy(msg.command, addr);
    }

    method ProcessPassAuthResult(success: bool)
      requires Linked()
      modifies owner.owner.Footprint()
      ensures Linked() && owner.owner.Footprint() == old(owner.owner.Footprint())
      ensures owner.owner.World() ==
              PassAuthAnswered(old(owner.owner.World()), success, old(owner.owner.inConn.sendOk))
    {
      if state != Machine.WaitForPassAuthResult {
        ReportError();
        return;
      }
      if success {
        SetState(Machine.WaitForCommand);
        Record(Machine.PassAuthResponse(0x00));
        owner.SendPassAuthResponse(0x00);
      } else {
        Record(Machine.PassAuthResponse(0x01));
        owner.SendPassAuthResponse(0x01);
      }
    }

    method ProcessStartProxyResult(status: Byte, localAddress: SocksAddress)
      requires Linked() && Gettable(localAddress.addrType, localAddress.addr)
      modifies owner.owner.Footprint()
      ensures Linked() && owner.owner.Footprint() == old(owner.owner.Footprint())
      ensures owner.owner.World() ==
              ProxyAnswered(old(owner.owner.World()), status, localAddress, old(owner.owner.inConn.sendOk))
    {
      if state != Machine.WaitForProxyStart {
        ReportError();
        return;
      }
      Record(Machine.CommandResponse(status, localAddress));
      owner.SendCommandResponse(status, localAddress);
      if status == REQUEST_GRANTED {
        SetState(Machine.ProxyStarted);
      } else {
        SetState(Machine.ProxyStartFailed);
      }
    }

    method SetState(newState: Machine.State)
      requires Linked()
      requires owner.owner.outConn != null ==>
                 Machine.Rank(newState) >= Machine.Rank(Machine.WaitForProxyStart)
      modifies this`state
      ensures Linked() && owner.owner.Footprint() == old(owner.owner.Footprint())
      ensures owner.owner.World() == InState(old(owner.owner.World()), newState)
    {
      state := newState;
    }

    /** Records a callback that is about to be made. */
    ghost method Record(o: Machine.Output)
      requires Linked()
      modifies this`trace
      ensures Linked() && owner.owner.Footprint() == old(owner.owner.Footprint())
      ensures owner.owner.World() == Emitting(old(owner.owner.World()), o)
    {
      trace := trace + [o];
    }

    /** `StateMachine::protocolError` */
    method ReportError()
      requires Linked()
      modifies owner.owner.Footprint()
      ensures Linked() && owner.owner.Footprint() == old(owner.owner.Footprint())
      ensures owner.owner.World() == ProtocolError(old(owner.owner.World()))
    {
      SetState(Machine.ProtocolError);
      Record(Machine.ErrorReport);
      owner.OnProtocolError();
    }
  }

  // ------------------------------------------------------------------ InConnTracker

  class InConnTracker {
    const owner: Session
    const connection: Connection
    var machine: StateMachine?

    constructor (owner: Session, connection: Connection)
      modifies connection`user
      ensures this.owner == owner && this.connection == connection
      ensures machine != null && fresh(machine) && machine.owner == this
      ensures machine.View() == Machine.INITIAL
      ensures connection.user == TrackerUser
    {
      this.owner, this.connection := owner, connection;
      machine := null;
      new;
      machine := new StateMachine(this);
      connection.SetUser(TrackerUser);
    }

    ghost predicate Linked()
      reads owner, owner.Links(), owner.Footprint()
    {
      owner.tracker == this && owner.Valid()
    }

    method OnProxyStarted(status: Byte, localAddress: SocksAddress)
      requires Linked() && Gettable(localAddress.addrType, localAddress.addr)
      modifies owner.Footprint()
      ensures Linked() && owner.Footprint() == old(owner.Footprint())
      ensures owner.World() == ProxyAnswered(old(owner.World()), status, localAddress, old(owner.inConn.sendOk))
    {
      machine.ProcessStartProxyResult(status, localAddress);
    }

    method OnAuthRequestCompleted(success: bool)
      requires Linked()
      modifies owner.Footprint()
      ensures Linked() && owner.Footprint() == old(owner.Footprint())
      ensures owner.World() == AuthCompleted(old(owner.World()), success, old(owner.inConn.sendOk))
    {
      machine.ProcessPassAuthResult(success);
      if !success {
        DestroySelf();
      }
    }

    method SendGreetingResponse(authMethod: Byte)
      requires Linked()
      modifies owner.Footprint()
      ensures Linked() && owner.Footprint() == old(owner.Footprint())
      ensures owner.World() == SendMsg(old(owner.World()), GreetingBytes(authMethod), old(owner.inConn.sendOk))
    {
      var buf := new SocksEncoder.ByteBuffer();
      var ok := SocksEncoder.EncodeGreetingReply(GreetingReply(VERSION_5, authMethod), buf);
      SendEncoded(ok, buf.bytes);
    }

    method RequestPassAuth(user: Bytes, password: Bytes)
      requires Linked()
      modifies owner.Footprint()
      ensures Linked() && owner.Footprint() == old(owner.Footprint())
      ensures owner.World() ==
              RequestedPassAuth(owner.Table(), old(owner.World()), user, password, old(owner.inConn.sendOk))
    {
      owner.OnRequestPassAuth(user, password);
    }

    method SendPassAuthResponse(status: Byte)
      requires Linked()
      modifies owner.Footprint()
      ensures Linked() && owner.Footprint() == old(owner.Footprint())
      ensures owner.World() == SendMsg(old(owner.World()), PassAuthBytes(status), old(owner.inConn.sendOk))
    {
      var buf := new SocksEncoder.ByteBuffer();
      var ok := SocksEncoder.EncodeCredentialsReply(CredentialsReply(VERSION_5, status), buf);
      SendEncoded(ok, buf.bytes);
    }

    method StartProxy(command: Byte, address: SocksAddress)
      requires Linked() && owner.outConn == null && machine.state == Machine.WaitForProxyStart
      modifies owner.Footprint()
      ensures Linked() && fresh(owner.Footprint() - old(owner.Footprint()))
      ensures owner.World() ==
              SessionSpec.StartProxy(old(owner.World()), command, address,
                                     old(owner.inConn.sendOk), old(owner.user.connectOk))
    {
      owner.OnStartProxy(command, address);
    }

    method SendCommandResponse(status: Byte, a: SocksAddress)
      requires Linked() && Gettable(a.addrType, a.addr)
      modifies owner.Footprint()
      ensures Linked() && owner.Footprint() == old(owner.Footprint())
      ensures owner.World() == SendMsg(old(owner.World()), CommandBytes(status, a), old(owner.inConn.sendOk))
    {
      var buf := new SocksEncoder.ByteBuffer();
      var ok := SocksEncoder.EncodeCommandReply(CommandReply(VERSION_5, status, a.addrType, a.addr, a.port), buf);
      SendEncoded(ok, buf.bytes);
    }

    /** The rest of `sendMsg` once the message has been encoded. */
    method SendEncoded(encoded: bool, buf: Bytes)
      requires Linked()
      modifies owner.Footprint()
      ensures Linked() && owner.Footprint() == old(owner.Footprint())
      ensures owner.World() == SendMsg(old(owner.World()), if encoded then Wire.Encoded(buf) else Wire.Refused,
                                       old(owner.inConn.sendOk))
    {
      if !encoded {
        DestroySelf();
        return;
      }
      var sent := connection.Send(buf);
      if !sent {
        DestroySelf();
      }
    }

    method OnProtocolError()
      requires Linked()
      modifies owner.Footprint()
      ensures Linked() && owner.Footprint() == old(owner.Footprint())
      ensures owner.World() == Destroy(old(owner.World()))
    {
      DestroySelf();
    }

    method OnReceive(buf: Bytes)
      requires Linked()
      modifies owner.Footprint()
      ensures Linked() && fresh(owner.Footprint() - old(owner.Footprint()))
      ensures owner.World() == Handshake(owner.Table(), old(owner.World()), buf,
                                         old(owner.inConn.sendOk), old(owner.user.connectOk))
    {
      machine.ProcessBuffer(buf);
    }

    method OnConnectionClosed()
      requires Linked()
      modifies owner.Footprint()
      ensures Linked() && owner.Footprint() == old(owner.Footprint())
      ensures owner.World() == Destroy(old(owner.World()))
    {
      DestroySelf();
    }

    method DestroySelf()
      requires Linked()
      modifies owner.Footprint()
      ensures Linked() && owner.Footprint() == old(owner.Footprint())
      ensures owner.World() == Destroy(old(owner.World()))
    {
      owner.OnConnTrackerDestroy();
    }
  }

  // ------------------------------------------------------------------ Session

  class Session {
    const user: SessionUser
    const auth: Authorizer.SocksLoginPassAuthorizer
    const inConn: Connection
    var outConn: Connection?
    var tracker: InConnTracker?
    var tcpStreamProxy: TcpStreamProxy?
    ghost var auths: seq<AuthCall>

    constructor (user: SessionUser, inConn: Connection, auth: Authorizer.SocksLoginPassAuthorizer)
      requires user.connects == [] && user.drops == 0 && user.ends == 0 && inConn.sent == []
      modifies inConn`user
      ensures Valid() && this.inConn == inConn && this.user == user && this.auth == auth
      ensures World() == Init(Setup(Table(), inConn.connected))
    {
      this.user, this.auth, this.inConn := user, auth, inConn;
      outConn, tracker, tcpStreamProxy, auths := null, null, null, [];
      new;
      tracker := new InConnTracker(this, inConn);
    }

    /** The objects that link the session together. */
    ghost function Links(): set<object>
      reads this
    {
      (if tracker == null then {} else {tracker})
      + (if tcpStreamProxy == null then {} else {tcpStreamProxy})
      + (if outConn == null then {} else {outConn}) + {this, inConn}
    }

    ghost predicate Valid()
      reads this, Links(), Footprint()
    {
      && tracker != null && tracker.owner == this && tracker.connection == inConn
      && tracker.machine != null && tracker.machine.owner == tracker
      && outConn != inConn
      && (outConn != null ==> Machine.Rank(tracker.machine.state) >= Machine.Rank(Machine.WaitForProxyStart))
      && (tcpStreamProxy != null <==> inConn.user == MainProxyUser)
      && (tcpStreamProxy != null <==> outConn != null && outConn.user == OutProxyUser)
      && (tcpStreamProxy != null ==> tcpStreamProxy.Joins(this, inConn, outConn))
    }

    /** What handling an event may change. */
    ghost function Footprint(): set<object>
      reads this, Links()
    {
      {this, inConn, user}
      + (if outConn == null then {} else {outConn})
      + (if tracker == null || tracker.machine == null then {} else {tracker.machine})
    }

    ghost function Table(): map<Bytes, Bytes>
      reads auth
    {
      auth.userLoginPass
    }

    ghost function World(): World
      requires Valid()
      reads this, Links(), Footprint()
    {
      SessionSpec.World(
        tracker.machine.View(), inConn.View(),
        if outConn == null then None else Some(outConn.View()),
        tcpStreamProxy != null, auths, user.connects, user.drops, user.ends)
    }

    method OnProxyDestroy()
      requires Valid()
      modifies Footprint()
      ensures Valid() && Footprint() == old(Footprint()) && tracker == old(tracker)
      ensures World() == Destroy(old(World()))
    {
      DestroySelf();
    }

    method OnStartProxy(command: Byte, address: SocksAddress)
      requires Valid() && outConn == null && tracker.machine.state == Machine.WaitForProxyStart
      modifies Footprint()
      ensures Valid() && fresh(Footprint() - old(Footprint())) && tracker == old(tracker)
      ensures World() == StartProxy(old(World()), command, address, old(inConn.sendOk), old(user.connectOk))
    {
      if command != TCP_STREAM {
        tracker.OnProxyStarted(COMMAND_NOT_SUPPORTED, EMPTY_ADDRESS);
        DestroySelf();
        return;
      }
      var conn := user.CreateNewConnection(address);
      outConn := conn;
      if outConn == null {
        tracker.OnProxyStarted(GENERAL_FAILURE, EMPTY_ADDRESS);
        DestroySelf();
      }
    }

    method OnRequestPassAuth(name: Bytes, password: Bytes)
      requires Valid()
      modifies Footprint()
      ensures Valid() && Footprint() == old(Footprint()) && tracker == old(tracker)
      ensures World() == RequestedPassAuth(Table(), old(World()), name, password, old(inConn.sendOk))
    {
      ghost var table := Table();
      var success := auth.AuthUserPassword(name, password);
      Record(AuthCall(name, password, success));
      tracker.OnAuthRequestCompleted(success);
      assert Table() == table;
    }

    /** Records a call that was made to the authorizer. */
    ghost method Record(a: AuthCall)
      requires Valid()
      modifies this`auths
      ensures Valid() && Footprint() == old(Footprint())
      ensures World() == var w := old(World()); w.(auths := w.auths + [a])
    {
      auths := auths + [a];
    }

    method OnConnTrackerDestroy()
      requires Valid()
      modifies Footprint()
      ensures Valid() && Footprint() == old(Footprint()) && tracker == old(tracker)
      ensures World() == Destroy(old(World()))
    {
      DestroySelf();
    }

    method OnConnected()
      requires Valid() && outConn != null && outConn.user == SessionItself
      requires outConn.localAddress.Some? ==>
                 Gettable(outConn.localAddress.value.addrType, outConn.localAddress.value.addr)
      modifies Footprint()
      ensures Valid() && Footprint() == old(Footprint()) && tracker == old(tracker)
      ensures World() == Connected(old(World()), old(outConn.localAddress), old(inConn.sendOk))
    {
      var localAddr := outConn.localAddress;
      if localAddr.None? {
        tracker.OnProxyStarted(HOST_UNREACHABLE, EMPTY_ADDRESS);
        DestroySelf();
        return;
      } else {
        tracker.OnProxyStarted(REQUEST_GRANTED, localAddr.value);
      }
      tcpStreamProxy := new TcpStreamProxy(this, inConn, outConn);
    }

    method DestroySelf()
      requires Valid()
      modifies Footprint()
      ensures Valid() && Footprint() == old(Footprint()) && tracker == old(tracker)
      ensures World() == Destroy(old(World()))
    {
      if tcpStreamProxy != null {
        tcpStreamProxy.Release();
        tcpStreamProxy := null;
      }
      user.OnConnectionDestroyed();
      user.OnSessionEnd();
    }

    // ------------------------------------------ what the network delivers, and to whom

    method DeliverClientData(buf: Bytes, sendOk: bool, connectOk: bool)
      requires Valid()
      modifies Footprint()
      ensures Valid() && fresh(Footprint() - old(Footprint()))
      ensures Table() == old(Table())
      ensures World() == Step(Table(), old(World()), ClientData(buf, sendOk, connectOk))
    {
      if user.ends > 0 {
        return;
      }
      SetAnswers(sendOk, connectOk);
      match inConn.user {
        case TrackerUser => tracker.OnReceive(buf);
        case MainProxyUser => tcpStreamProxy.mainProxy.OnReceive(buf);
        case _ =>
      }
    }

    method DeliverClientClosed()
      requires Valid()
      modifies Footprint()
      ensures Valid() && Footprint() == old(Footprint())
      ensures Table() == old(Table())
      ensures World() == Step(Table(), old(World()), ClientClosed)
    {
      if user.ends > 0 {
        return;
      }
      inConn.CloseConnection();
      match inConn.user {
        case TrackerUser => tracker.OnConnectionClosed();
        case MainProxyUser => tcpStreamProxy.mainProxy.OnConnectionClosed();
        case _ =>
      }
    }

    method DeliverServerConnected(localAddress: Option<SocksAddress>, sendOk: bool)
      requires Valid() && WellFormed(ServerConnected(localAddress, sendOk))
      modifies Footprint()
      ensures Valid() && Footprint() == old(Footprint())
      ensures Table() == old(Table())
      ensures World() == Step(Table(), old(World()), ServerConnected(localAddress, sendOk))
    {
      if user.ends > 0 || outConn == null {
        return;
      }
      SetAnswers(sendOk, user.connectOk);
      outConn.localAddress := localAddress;
      outConn.connected := true;
      if outConn.user == SessionItself {
        OnConnected();
      }
    }

    method DeliverServerData(buf: Bytes, sendOk: bool)
      requires Valid()
      modifies Footprint()
      ensures Valid() && Footprint() == old(Footprint())
      ensures Table() == old(Table())
      ensures World() == Step(Table(), old(World()), ServerData(buf, sendOk))
    {
      if user.ends > 0 || outConn == null {
        return;
      }
      SetAnswers(sendOk, user.connectOk);
      if outConn.user == OutProxyUser {
        tcpStreamProxy.outProxy.OnReceive(buf);
      }
    }

    method DeliverServerClosed()
      requires Valid()
      modifies Footprint()
      ensures Valid() && Footprint() == old(Footprint())
      ensures Table() == old(Table())
      ensures World() == Step(Table(), old(World()), ServerClosed)
    {
      if user.ends > 0 || outConn == null {
        return;
      }
      outConn.CloseConnection();
      if outConn.user == OutProxyUser {
        tcpStreamProxy.outProxy.OnConnectionClosed();
      }
    }

    method SetAnswers(sendOk: bool, connectOk: bool)
      requires Valid()
      modifies Footprint()
      ensures Valid() && Footprint() == old(Footprint()) && World() == old(World())
      ensures tracker == old(tracker) && outConn == old(outConn) && tcpStreamProxy == old(tcpStreamProxy)
      ensures inConn.sendOk == sendOk && (outConn != null ==> outConn.sendOk == sendOk)
      ensures user.connectOk == connectOk
    {
      inConn.sendOk := sendOk;
      if outConn != null {
        outConn.sendOk := sendOk;
      }
      user.connectOk := connectOk;
    }
  }

  // ------------------------------------------------------------------ TcpStreamProxy

  datatype Direction = Main | Out

  class TcpStreamProxy {
    const user: Session
    var mainProxy: DirectedProxyConnection?
    var outProxy: DirectedProxyConnection?

    constructor (user: Session, srcConn: Connection, destConn: Connection)
      requires srcConn != destConn
      modifies srcConn`user, destConn`user
      ensures Joins(user, srcConn, destConn)
      ensures srcConn.user == MainProxyUser && destConn.user == OutProxyUser
    {
      this.user := user;
      mainProxy, outProxy := null, null;
      new;
      mainProxy := new DirectedProxyConnection(this, Main, srcConn);
      outProxy := new DirectedProxyConnection(this, Out, destConn);
    }

    ghost predicate Joins(user: Session, srcConn: Connection, destConn: Connection)
      reads this
    {
      this.user == user && mainProxy != null && outProxy != null
      && mainProxy.owner == this && mainProxy.direction == Main && mainProxy.connection == srcConn
      && outProxy.owner == this && outProxy.direction == Out && outProxy.connection == destConn
    }

    ghost predicate Linked()
      reads user, user.Links(), user.Footprint()
    {
      user.tcpStreamProxy == this && user.Valid()
    }

    method OnDataReceived(direction: Direction, buf: Bytes)
      requires Linked()
      modifies user.Footprint()
      ensures Linked() && user.Footprint() == old(user.Footprint())
      ensures var w := old(user.World());
              user.World() ==
              match direction
              case Main => if old(user.outConn.sendOk) then OnServer(w, SentTo(w.server.value, buf)) else w
              case Out => if old(user.inConn.sendOk) then w.(client := SentTo(w.client, buf)) else w
    {
      match direction {
        case Main =>
          var sent := outProxy.Send(buf);
        case Out =>
          var sent := mainProxy.Send(buf);
      }
    }

    method OnDisconnected(direction: Direction)
      requires Linked()
      modifies user.Footprint()
      ensures user.Valid() && user.Footprint() == old(user.Footprint())
      ensures var w := old(user.World());
              user.World() ==
              match direction
              case Main => Destroy(OnServer(w, w.server.value.(connected := false)))
              case Out => Destroy(w.(client := w.client.(connected := false)))
    {
      match direction {
        case Main => outProxy.Disconnect();
        case Out => mainProxy.Disconnect();
      }
      user.OnProxyDestroy();
    }

    /** The destructor: the members go in reverse order of declaration. */
    method Release()
      requires Linked()
      modifies user.inConn, user.outConn
      ensures user.inConn.View() == Released(old(user.inConn.View()))
      ensures user.outConn.View() == Released(old(user.outConn.View()))
      ensures !user.inConn.connected && user.inConn.user == NoUser
      ensures !user.outConn.connected && user.outConn.user == NoUser
    {
      outProxy.Release();
      mainProxy.Release();
    }
  }

  // ------------------------------------------------------------------ DirectedProxyConnection

  class DirectedProxyConnection {
    const owner: TcpStreamProxy
    const direction: Direction
    const connection: Connection

    constructor (owner: TcpStreamProxy, direction: Direction, connection: Connection)
      modifies connection`user
      ensures this.owner == owner && this.direction == direction && this.connection == connection
      ensures connection.user == if direction == Main then MainProxyUser else OutProxyUser
    {
      this.owner, this.direction, this.connection := owner, direction, connection;
      new;
      connection.SetUser(if direction == Main then MainProxyUser else OutProxyUser);
    }

    /** The destructor. */
    method Release()
      modifies connection
      ensures connection.View() == Released(old(connection.View()))
      ensures !connection.connected && connection.user == NoUser && connection.sent == old(connection.sent)
    {
      if connection.connected {
        connection.CloseConnection();
      }
      connection.SetUser(NoUser);
    }

    method Send(buf: Bytes) returns (ok: bool)
      modifies connection`sent
      ensures ok == connection.sendOk
      ensures connection.sent == if ok then old(connection.sent) + [buf] else old(connection.sent)
    {
      ok := connection.Send(buf);
    }

    method Disconnect()
      modifies connection`connected
      ensures !connection.connected
    {
      connection.CloseConnection();
    }

    ghost predicate Linked()
      reads owner, owner.user, owner.user.Links(), owner.user.Footprint()
    {
      owner.Linked()
      && this == match direction case Main => owner.mainProxy case Out => owner.outProxy
    }

    method OnReceive(buf: Bytes)
      requires Linked()
      modifies owner.user.Footprint()
      ensures Linked() && owner.user.Footprint() == old(owner.user.Footprint())
      ensures var w := old(owner.user.World());
              owner.user.World() ==
              match direction
              case Main => if old(owner.user.outConn.sendOk) then OnServer(w, SentTo(w.server.value, buf)) else w
              case Out => if old(owner.user.inConn.sendOk) then w.(client := SentTo(w.client, buf)) else w
    {
      owner.OnDataReceived(direction, buf);
    }

    method OnConnectionClosed()
      requires Linked()
      modifies owner.user.Footprint()
      ensures owner.user.Valid() && owner.user.Footprint() == old(owner.user.Footprint())
      ensures var w := old(owner.user.World());
              owner.user.World() ==
              match direction
              case Main => Destroy(OnServer(w, w.server.value.(connected := false)))
              case Out => Destroy(w.(client := w.client.(connected := false)))
    {
      owner.OnDisconnected(direction);
    }
  }

  // ------------------------------------------------------------------ the event loop

  /** The network delivering one event. */
  method Deliver(session: Session, e: Event)
    requires session.Valid() && WellFormed(e)
    modifies session.Footprint()
    ensures session.Valid() && fresh(session.Footprint() - old(session.Footprint()))
    ensures session.Table() == old(session.Table())
    ensures session.World() == Step(session.Table(), old(session.World()), e)
  {
    match e {
      case ClientData(buf, sendOk, connectOk) => session.DeliverClientData(buf, sendOk, connectOk);
      case ClientClosed => session.DeliverClientClosed();
      case ServerConnected(localAddress, sendOk) => session.DeliverServerConnected(localAddress, sendOk);
      case ServerData(buf, sendOk) => session.DeliverServerData(buf, sendOk);
      case ServerClosed => session.DeliverServerClosed();
    }
  }

  method DeliverAll(session: Session, evs: seq<Event>)
    requires session.Valid() && AllWellFormed(evs)
    modifies session.Footprint()
    ensures session.Valid() && session.Table() == old(session.Table())
    ensures session.World() == RunFrom(session.Table(), old(session.World()), evs)
  {
    ghost var footprint, table, w := session.Footprint(), session.Table(), session.World();
    var i := 0;
    while i < |evs|
      invariant 0 <= i <= |evs|
      invariant session.Valid() && fresh(session.Footprint() - footprint) && session.Table() == table
      invariant RunFrom(table, session.World(), evs[i..]) == RunFrom(table, w, evs)
    {
      assert evs[i..][1..] == evs[i + 1..];
      Deliver(session, evs[i]);
      i := i + 1;
    }
  }

  /** A whole session: whatever the network delivers, the objects end up in the state that
      `SessionSpec.Run` gives, so everything proved in `SessionRuns` holds of them. */
  method Serve(auth: Authorizer.SocksLoginPassAuthorizer, clientConnected: bool, evs: seq<Event>)
    returns (session: Session)
    requires AllWellFormed(evs)
    ensures session.Valid() && session.auth == auth
    ensures session.World() == Run(Setup(session.Table(), clientConnected), evs)
  {
    var user := new SessionUser();
    var inConn := new Connection(NoUser, clientConnected);
    session := new Session(user, inConn, auth);
    DeliverAll(session, evs);
  }
}
