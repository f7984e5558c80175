/** What holds in every run of a session, whatever the client, the destination and the
    network do. */
module SessionRuns {
  import opened Wrappers
  import opened SocksTypes
  import Wire
  import Machine
  import opened WireBytes
  import opened Authorizer
  import opened SessionSpec

  const OFFER_LOGIN_PASS: Bytes := [0x05, 0x02]
  const NO_METHOD: Bytes := [0x05, 0xff]
  const AUTH_ACCEPTED: Bytes := [0x05, 0x00]
  const AUTH_REFUSED: Bytes := [0x05, 0x01]

  function ClientBuffer(e: Event): seq<Bytes> {
    if e.ClientData? then [e.buf] else []
  }

  function ClientBuffers(evs: seq<Event>): seq<Bytes> {
    if |evs| == 0 then [] else ClientBuffers(evs[..|evs| - 1]) + ClientBuffer(evs[|evs| - 1])
  }

  // ---------------------------------------------------------------- the invariant

  predicate OffersLoginPass(buf: Bytes) {
    Wire.DecodeGreeting(buf).Some? && 0x02 in Wire.DecodeGreeting(buf).value.authMethods
  }

  /** The authorizer is asked at most once, with what the second buffer decodes to. */
  predicate AuthsFollow(table: map<Bytes, Bytes>, auths: seq<AuthCall>, cb: seq<Bytes>) {
    |auths| <= 1 &&
    (auths != [] ==>
      |cb| >= 2 && OffersLoginPass(cb[0])
      && Wire.DecodeCredentials(cb[1]) == Some(CredentialsMsg(auths[0].user, auths[0].password))
      && auths[0].accepted == Authorized(table, auths[0].user, auths[0].password))
  }

  predicate AsksFor(buf: Bytes, a: SocksAddress) {
    match Wire.DecodeCommand(buf)
    case None => false
    case Some(m) => m.command == 0x01 && a == SocksAddress(m.addrType, m.addr, m.port)
  }

  /** A connection is requested at most once, after an acceptance, to the address that the
      third buffer decodes to. */
  predicate ConnectsFollow(auths: seq<AuthCall>, connects: seq<SocksAddress>, cb: seq<Bytes>) {
    |connects| <= 1 &&
    (connects != [] ==>
      |auths| == 1 && auths[0].accepted && |cb| >= 3
      && AsksFor(cb[2], connects[0]))
  }

  predicate IsGranted(buf: Bytes) {
    |buf| >= 2 && buf[0] == 0x05 && buf[1] == 0x00
  }

  /** All that is ever written to the client before the relay starts. */
  predicate WireShape(s: seq<Bytes>, w: World) {
    || s == []
    || (s == [NO_METHOD] && w.auths == [] && w.ends > 0)
    || s == [OFFER_LOGIN_PASS]
    || (s == [OFFER_LOGIN_PASS, AUTH_REFUSED] && |w.auths| == 1 && !w.auths[0].accepted && w.ends > 0)
    || (s == [OFFER_LOGIN_PASS, AUTH_ACCEPTED] && |w.auths| == 1 && w.auths[0].accepted)
    || (|s| >= 3 && s[..2] == [OFFER_LOGIN_PASS, AUTH_ACCEPTED] && IsGranted(s[2]) && |w.connects| == 1)
  }

  /** Where a session that has not ended is. */
  predicate LivePhase(w: World, cb: seq<Bytes>) {
    if w.proxied then
      w.machine.state == Machine.ProxyStarted && w.client.user == MainProxyUser
      && w.server.Some? && w.server.value.user == OutProxyUser
      && |w.connects| == 1 && |w.client.sent| >= 3
    else
      w.client.user == TrackerUser &&
      match w.machine.state
      case WaitForGreeting =>
        |cb| == 0 && w.client.sent == [] && w.auths == [] && w.connects == [] && w.server.None?
      case WaitForPassAuth =>
        |cb| == 1 && OffersLoginPass(cb[0]) && w.client.sent == [OFFER_LOGIN_PASS]
        && w.auths == [] && w.connects == [] && w.server.None?
      case WaitForCommand =>
        |cb| == 2 && w.client.sent == [OFFER_LOGIN_PASS, AUTH_ACCEPTED]
        && |w.auths| == 1 && w.auths[0].accepted && w.connects == [] && w.server.None?
      case WaitForProxyStart =>
        |cb| == 3 && w.client.sent == [OFFER_LOGIN_PASS, AUTH_ACCEPTED]
        && |w.auths| == 1 && w.auths[0].accepted && |w.connects| == 1
        && w.server.Some? && w.server.value.user == SessionItself && w.server.value.sent == []
      case _ => false
  }

  /** A refusal ends the session before anything else can happen. */
  predicate RefusalEnds(w: World) {
    (|w.auths| == 1 && !w.auths[0].accepted ==>
      w.ends > 0 && w.connects == [] && w.server.None? && !w.proxied
      && w.machine.state == Machine.WaitForPassAuthResult
      && (w.client.sent == [OFFER_LOGIN_PASS] || w.client.sent == [OFFER_LOGIN_PASS, AUTH_REFUSED]))
    && (w.server.Some? ==> |w.connects| == 1)
  }

  predicate Inv(table: map<Bytes, Bytes>, w: World, cb: seq<Bytes>) {
    AuthsFollow(table, w.auths, cb) && ConnectsFollow(w.auths, w.connects, cb)
    && WireShape(w.client.sent, w) && RefusalEnds(w) && w.drops == w.ends && (w.ends == 0 ==> LivePhase(w, cb))
  }

  lemma Replies()
    ensures GreetingBytes(AUTH_LOGIN_PASS) == Wire.Encoded(OFFER_LOGIN_PASS)
    ensures GreetingBytes(NO_AVAILABLE_METHOD) == Wire.Encoded(NO_METHOD)
    ensures PassAuthBytes(0x00) == Wire.Encoded(AUTH_ACCEPTED)
    ensures PassAuthBytes(0x01) == Wire.Encoded(AUTH_REFUSED)
    ensures forall status :: CommandBytes(status, EMPTY_ADDRESS) == Wire.Refused
  {
  }

  lemma GreetingKeepsInv(table: map<Bytes, Bytes>, w: World, cb: seq<Bytes>,
                         buf: Bytes, sendOk: bool, connectOk: bool)
    requires Inv(table, w, cb) && w.ends == 0 && w.machine.state == Machine.WaitForGreeting
    ensures Inv(table, Handshake(table, w, buf, sendOk, connectOk), cb + [buf])
  {
    Replies();
  }

  /** A session that ends before the relay keeps what it has sent and asked for. */
  lemma EndingKeepsInv(table: map<Bytes, Bytes>, w: World, v: World, cb: seq<Bytes>, buf: Bytes)
    requires Inv(table, w, cb) && w.ends == 0 && !w.proxied
    requires v == w.(machine := v.machine, drops := v.drops, ends := v.ends) && v.drops == v.ends > 0
    ensures Inv(table, v, cb + [buf])
  {
  }

  lemma ErrorEnds(w: World)
    requires !w.proxied
    ensures var v := ProtocolError(w);
            v == w.(machine := Machine.Fail(w.machine), drops := w.drops + 1, ends := w.ends + 1)
  {
  }

  /** The wire and the end after the answer to the second buffer. */
  lemma AfterAnswer(table: map<Bytes, Bytes>, w: World, msg: CredentialsMsg, sendOk: bool)
    requires !w.proxied
    ensures var accepted := Authorized(table, msg.user, msg.password);
            var v := AfterCredentials(table, w, msg, sendOk);
            v.auths == w.auths + [AuthCall(msg.user, msg.password, accepted)]
            && v.client == (if !sendOk then w.client
                            else SentTo(w.client, if accepted then AUTH_ACCEPTED else AUTH_REFUSED))
            && v.server == w.server && v.connects == w.connects && !v.proxied
            && v.machine.state == (if accepted then Machine.WaitForCommand else Machine.WaitForPassAuthResult)
            && v.drops - w.drops == v.ends - w.ends
            && v.ends - w.ends == (if sendOk then 0 else 1) + (if accepted then 0 else 1)
  {
    Replies();
  }

  lemma PassAuthKeepsInv(table: map<Bytes, Bytes>, w: World, cb: seq<Bytes>,
                         buf: Bytes, sendOk: bool, connectOk: bool)
    requires Inv(table, w, cb) && w.ends == 0 && w.machine.state == Machine.WaitForPassAuth
    ensures Inv(table, Handshake(table, w, buf, sendOk, connectOk), cb + [buf])
  {
    match Wire.DecodeCredentials(buf)
    case None =>
      ErrorEnds(w);
      EndingKeepsInv(table, w, ProtocolError(w), cb, buf);
    case Some(msg) =>
      AfterAnswer(table, w, msg, sendOk);
  }

  /** An answer that reports a failure is never sent. */
  lemma FailureEnds(w: World, status: Byte, sendOk: bool)
    requires !w.proxied && w.machine.state == Machine.WaitForProxyStart && status != REQUEST_GRANTED
    ensures var v := Destroy(ProxyAnswered(w, status, EMPTY_ADDRESS, sendOk));
            v == w.(machine := Machine.HandleStartProxyResult(w.machine, status, EMPTY_ADDRESS),
                    drops := w.drops + 2, ends := w.ends + 2)
  {
    Replies();
  }

  lemma StreamKeepsInv(table: map<Bytes, Bytes>, w: World, cb: seq<Bytes>, buf: Bytes, v: World)
    requires Inv(table, w, cb) && w.ends == 0 && w.machine.state == Machine.WaitForCommand
    requires Wire.DecodeCommand(buf).Some? && Wire.DecodeCommand(buf).value.command == TCP_STREAM
    requires v.connects == [Machine.CommandAddress(Wire.DecodeCommand(buf).value)]
    requires v == w.(machine := v.machine, connects := v.connects, server := v.server, drops := v.drops, ends := v.ends)
    requires v.drops == v.ends
    requires v.ends == 0 ==>
               v.server == Some(Conn(SessionItself, [], false)) && v.machine.state == Machine.WaitForProxyStart
    ensures Inv(table, v, cb + [buf])
  {
  }

  lemma CommandKeepsInv(table: map<Bytes, Bytes>, w: World, cb: seq<Bytes>,
                        buf: Bytes, sendOk: bool, connectOk: bool)
    requires Inv(table, w, cb) && w.ends == 0 && w.machine.state == Machine.WaitForCommand
    ensures Inv(table, Handshake(table, w, buf, sendOk, connectOk), cb + [buf])
  {
    match Wire.DecodeCommand(buf)
    case None =>
      ErrorEnds(w);
      EndingKeepsInv(table, w, ProtocolError(w), cb, buf);
    case Some(msg) =>
      var a, v := Machine.CommandAddress(msg), AfterCommand(w, msg, sendOk, connectOk);
      var asked := Emitting(InState(w, Machine.WaitForProxyStart), Machine.StartProxy(msg.command, a));
      if msg.command != TCP_STREAM {
        FailureEnds(asked, COMMAND_NOT_SUPPORTED, sendOk);
        EndingKeepsInv(table, w, v, cb, buf);
      } else {
        FailureEnds(asked.(connects := w.connects + [a]), GENERAL_FAILURE, sendOk);
        StreamKeepsInv(table, w, cb, buf, v);
      }
  }

  lemma ConnectedKeepsInv(table: map<Bytes, Bytes>, w: World, cb: seq<Bytes>, e: Event)
    requires WellFormed(e) && e.ServerConnected? && Inv(table, w, cb) && w.ends == 0
    ensures Inv(table, Step(table, w, e), cb)
  {
    Replies();
    if w.server.Some? && w.server.value.user == SessionItself && e.localAddress.None? {
      FailureEnds(OnServer(w, w.server.value.(connected := true)), HOST_UNREACHABLE, e.sendOk);
    }
  }

  lemma ClosingKeepsInv(table: map<Bytes, Bytes>, w: World, cb: seq<Bytes>, e: Event)
    requires (e.ClientClosed? || e.ServerClosed?) && Inv(table, w, cb) && w.ends == 0
    ensures Inv(table, Step(table, w, e), cb)
  {
  }

  lemma RelayKeepsInv(table: map<Bytes, Bytes>, w: World, cb: seq<Bytes>, e: Event)
    requires e.ServerData? || (e.ClientData? && w.proxied)
    requires Inv(table, w, cb) && w.ends == 0
    ensures Inv(table, Step(table, w, e), cb + ClientBuffer(e))
  {
  }

  lemma HandshakeKeepsInv(table: map<Bytes, Bytes>, w: World, cb: seq<Bytes>, e: Event)
    requires e.ClientData? && !w.proxied && Inv(table, w, cb) && w.ends == 0
    ensures Inv(table, Step(table, w, e), cb + [e.buf])
  {
    match w.machine.state
    case WaitForGreeting => GreetingKeepsInv(table, w, cb, e.buf, e.sendOk, e.connectOk);
    case WaitForPassAuth => PassAuthKeepsInv(table, w, cb, e.buf, e.sendOk, e.connectOk);
    case WaitForCommand => CommandKeepsInv(table, w, cb, e.buf, e.sendOk, e.connectOk);
    case _ =>
  }

  lemma StepKeepsInv(table: map<Bytes, Bytes>, w: World, cb: seq<Bytes>, e: Event)
    requires WellFormed(e) && Inv(table, w, cb)
    ensures Inv(table, Step(table, w, e), cb + ClientBuffer(e))
  {
    if w.ends == 0 {
      match e
      case ClientData(_, _, _) =>
        if w.proxied {
          RelayKeepsInv(table, w, cb, e);
        } else {
          HandshakeKeepsInv(table, w, cb, e);
        }
      case ServerData(_, _) => RelayKeepsInv(table, w, cb, e);
      case ServerConnected(_, _) => ConnectedKeepsInv(table, w, cb, e);
      case _ => ClosingKeepsInv(table, w, cb, e);
    }
  }

  lemma {:induction false} EveryRun(setup: Setup, evs: seq<Event>)
    requires AllWellFormed(evs)
    ensures Inv(setup.table, Run(setup, evs), ClientBuffers(evs))
  {
    if |evs| == 0 {
    } else {
      RunLast(setup, evs);
      EveryRun(setup, evs[..|evs| - 1]);
      StepKeepsInv(setup.table, Run(setup, evs[..|evs| - 1]), ClientBuffers(evs[..|evs| - 1]), evs[|evs| - 1]);
    }
  }

  // ---------------------------------------------------------------- the machine inside

  /** The calls that one event makes on the machine, in order, nested ones included. */
  function MachineCalls(table: map<Bytes, Bytes>, w: World, e: Event): seq<Machine.Call> {
    if w.ends > 0 then [] else
    match e
    case ClientData(buf, _, connectOk) =>
      if w.client.user != TrackerUser then []
      else [Machine.Buffer(buf)] + Answers(table, w.machine.state, buf, connectOk)
    case ServerConnected(localAddress, _) =>
      if w.server.None? || w.server.value.user != SessionItself then []
      else (
        match localAddress
        case None => [Machine.StartProxyResult(HOST_UNREACHABLE, EMPTY_ADDRESS)]
        case Some(a) => [Machine.StartProxyResult(REQUEST_GRANTED, a)])
    case _ => []
  }

  function Answers(table: map<Bytes, Bytes>, s: Machine.State, buf: Bytes, connectOk: bool): seq<Machine.Call> {
    match s
    case WaitForPassAuth => (
      match Wire.DecodeCredentials(buf)
      case None => []
      case Some(msg) => [Machine.PassAuthResult(Authorized(table, msg.user, msg.password))])
    case WaitForCommand => (
      match Wire.DecodeCommand(buf)
      case None => []
      case Some(msg) =>
        if msg.command != TCP_STREAM
        then [Machine.StartProxyResult(COMMAND_NOT_SUPPORTED, EMPTY_ADDRESS)]
        else if !connectOk then [Machine.StartProxyResult(GENERAL_FAILURE, EMPTY_ADDRESS)]
        else [])
    case _ => []
  }

  lemma RunOne(c: Machine.Config, call: Machine.Call)
    ensures Machine.Run(c, [call]) == Machine.Handle(c, call)
  {
    assert [call][1..] == [];
  }

  lemma RunBuffer(c: Machine.Config, buf: Bytes, rest: seq<Machine.Call>)
    ensures Machine.Run(c, [Machine.Buffer(buf)] + rest) == Machine.Run(Machine.HandleBuffer(c, buf), rest)
  {
    Machine.RunFirst(c, Machine.Buffer(buf), rest);
  }

  lemma SendingKeepsMachine(w: World, e: Wire.Encoding, sendOk: bool)
    ensures SendMsg(w, e, sendOk).machine == w.machine && Destroy(w).machine == w.machine
  {
  }

  lemma GreetingRunsMachine(w: World, msg: GreetingMsg, buf: Bytes, sendOk: bool)
    requires w.machine.state == Machine.WaitForGreeting && Wire.DecodeGreeting(buf) == Some(msg)
    ensures AfterGreeting(w, msg, sendOk).machine == Machine.HandleBuffer(w.machine, buf)
  {
    var res := if AUTH_LOGIN_PASS in msg.authMethods then AUTH_LOGIN_PASS else NO_AVAILABLE_METHOD;
    SendingKeepsMachine(Emitting(w, Machine.GreetingResponse(res)), GreetingBytes(res), sendOk);
  }

  lemma AnswerRunsMachine(w: World, success: bool, sendOk: bool)
    ensures AuthCompleted(w, success, sendOk).machine == Machine.HandlePassAuthResult(w.machine, success)
  {
  }

  lemma ProxyAnswerRunsMachine(w: World, status: Byte, a: SocksAddress, sendOk: bool)
    requires Gettable(a.addrType, a.addr)
    ensures ProxyAnswered(w, status, a, sendOk).machine == Machine.HandleStartProxyResult(w.machine, status, a)
  {
  }

  lemma CredentialsRunMachine(table: map<Bytes, Bytes>, w: World, msg: CredentialsMsg, buf: Bytes, sendOk: bool)
    requires w.machine.state == Machine.WaitForPassAuth && Wire.DecodeCredentials(buf) == Some(msg)
    ensures AfterCredentials(table, w, msg, sendOk).machine
         == Machine.HandlePassAuthResult(Machine.HandleBuffer(w.machine, buf),
                                         Authorized(table, msg.user, msg.password))
  {
    var accepted := Authorized(table, msg.user, msg.password);
    var v := Emitting(InState(w, Machine.WaitForPassAuthResult), Machine.RequestPassAuth(msg.user, msg.password));
    AnswerRunsMachine(v.(auths := w.auths + [AuthCall(msg.user, msg.password, accepted)]), accepted, sendOk);
  }

  lemma CommandRunsMachine(w: World, msg: CommandMsg, buf: Bytes, sendOk: bool, connectOk: bool)
    requires w.machine.state == Machine.WaitForCommand && Wire.DecodeCommand(buf) == Some(msg)
    ensures var m := Machine.HandleBuffer(w.machine, buf);
            AfterCommand(w, msg, sendOk, connectOk).machine ==
            if msg.command != TCP_STREAM then
              Machine.HandleStartProxyResult(m, COMMAND_NOT_SUPPORTED, EMPTY_ADDRESS)
            else if !connectOk then Machine.HandleStartProxyResult(m, GENERAL_FAILURE, EMPTY_ADDRESS)
            else m
  {
    var a := Machine.CommandAddress(msg);
    var v := Emitting(InState(w, Machine.WaitForProxyStart), Machine.StartProxy(msg.command, a));
    ProxyAnswerRunsMachine(v, COMMAND_NOT_SUPPORTED, EMPTY_ADDRESS, sendOk);
    ProxyAnswerRunsMachine(v.(connects := w.connects + [a]), GENERAL_FAILURE, EMPTY_ADDRESS, sendOk);
  }

  lemma HandshakeRunsMachine(table: map<Bytes, Bytes>, w: World, buf: Bytes, sendOk: bool, connectOk: bool)
    ensures Handshake(table, w, buf, sendOk, connectOk).machine
         == Machine.Run(w.machine, [Machine.Buffer(buf)] + Answers(table, w.machine.state, buf, connectOk))
  {
    var answers := Answers(table, w.machine.state, buf, connectOk);
    var m := Machine.HandleBuffer(w.machine, buf);
    RunBuffer(w.machine, buf, answers);
    if w.machine.state == Machine.WaitForGreeting && Wire.DecodeGreeting(buf).Some? {
      GreetingRunsMachine(w, Wire.DecodeGreeting(buf).value, buf, sendOk);
    } else if w.machine.state == Machine.WaitForPassAuth && Wire.DecodeCredentials(buf).Some? {
      CredentialsRunMachine(table, w, Wire.DecodeCredentials(buf).value, buf, sendOk);
      RunOne(m, answers[0]);
    } else if w.machine.state == Machine.WaitForCommand && Wire.DecodeCommand(buf).Some? {
      CommandRunsMachine(w, Wire.DecodeCommand(buf).value, buf, sendOk, connectOk);
      if answers != [] {
        RunOne(m, answers[0]);
      }
    } else {
      ErrorRunsMachine(w);
    }
  }

  lemma ErrorRunsMachine(w: World)
    ensures ProtocolError(w).machine == Machine.Fail(w.machine)
  {
  }

  lemma ConnectedRunsMachine(w: World, localAddress: Option<SocksAddress>, sendOk: bool)
    requires WellFormed(ServerConnected(localAddress, sendOk)) && w.server.Some?
    ensures Connected(w, localAddress, sendOk).machine
         == Machine.Run(w.machine, [match localAddress
                                    case None => Machine.StartProxyResult(HOST_UNREACHABLE, EMPTY_ADDRESS)
                                    case Some(a) => Machine.StartProxyResult(REQUEST_GRANTED, a)])
  {
    match localAddress
    case None => RunOne(w.machine, Machine.StartProxyResult(HOST_UNREACHABLE, EMPTY_ADDRESS));
    case Some(a) => RunOne(w.machine, Machine.StartProxyResult(REQUEST_GRANTED, a));
  }

  lemma StepRunsMachine(table: map<Bytes, Bytes>, w: World, e: Event)
    requires WellFormed(e)
    ensures Step(table, w, e).machine == Machine.Run(w.machine, MachineCalls(table, w, e))
  {
    match e
    case ClientData(buf, sendOk, connectOk) =>
      HandshakeRunsMachine(table, w, buf, sendOk, connectOk);
    case ServerConnected(localAddress, sendOk) =>
      if w.server.Some? {
        ConnectedRunsMachine(OnServer(w, w.server.value.(connected := true)), localAddress, sendOk);
      }
    case _ =>
  }

  /** Nested callbacks do not take the machine out of its language: in every run of the
      session it has the state and the trace of some run of non-nested calls. */
  lemma {:induction false} SessionTrace(setup: Setup, evs: seq<Event>) returns (calls: seq<Machine.Call>)
    requires AllWellFormed(evs)
    ensures Run(setup, evs).machine == Machine.Run(Machine.INITIAL, calls)
    ensures Machine.StateTrace(Run(setup, evs).machine)
  {
    if |evs| == 0 {
      return [];
    }
    var before := SessionTrace(setup, evs[..|evs| - 1]);
    var w := Run(setup, evs[..|evs| - 1]);
    var more := MachineCalls(setup.table, w, evs[|evs| - 1]);
    RunLast(setup, evs);
    StepRunsMachine(setup.table, w, evs[|evs| - 1]);
    Machine.RunConcat(Machine.INITIAL, before, more);
    Machine.TraceLanguage(w.machine, more);
    return before + more;
  }

  // ---------------------------------------------------------------- ends are final

  lemma {:induction false} EndedIsFrozen(setup: Setup, evs: seq<Event>, k: nat)
    requires AllWellFormed(evs) && k <= |evs| && Run(setup, evs[..k]).ends > 0
    ensures Run(setup, evs) == Run(setup, evs[..k])
  {
    if k == |evs| {
      assert evs[..k] == evs;
    } else {
      var shorter := evs[..|evs| - 1];
      assert shorter[..k] == evs[..k];
      EndedIsFrozen(setup, shorter, k);
      RunLast(setup, evs);
    }
  }

  predicate Success(o: Machine.Output) {
    o == Machine.PassAuthResponse(0x00) || o.StartProxy? || o.CommandResponse?
  }

  lemma RefusedTrace(c: Machine.Config)
    requires Machine.StateTrace(c) && c.state == Machine.WaitForPassAuthResult
    ensures forall i :: 0 <= i < |c.trace| ==> !Success(c.trace[i])
  {
  }

  lemma RefusedWorld(table: map<Bytes, Bytes>, w: World, cb: seq<Bytes>)
    requires Inv(table, w, cb) && exists i :: 0 <= i < |w.auths| && !w.auths[i].accepted
    ensures |w.auths| == 1 && !w.auths[0].accepted && RefusalEnds(w)
  {
  }

  /** Once the authorizer has refused, no later event brings a success reply, a connection,
      a proxy or a command reply: the wire holds the offer and at most the refusal. The
      machine alone does not give this (`Machine.RefusalIsNotFinalHere`). */
  lemma RejectionIsFinal(setup: Setup, evs: seq<Event>, k: nat)
    requires AllWellFormed(evs) && k <= |evs|
    requires exists i :: 0 <= i < |Run(setup, evs[..k]).auths| && !Run(setup, evs[..k]).auths[i].accepted
    ensures var w := Run(setup, evs);
            w.ends > 0 && w.connects == [] && w.server.None? && !w.proxied
            && (w.client.sent == [OFFER_LOGIN_PASS] || w.client.sent == [OFFER_LOGIN_PASS, AUTH_REFUSED])
            && forall i :: 0 <= i < |w.machine.trace| ==> !Success(w.machine.trace[i])
  {
    EveryRun(setup, evs[..k]);
    RefusedWorld(setup.table, Run(setup, evs[..k]), ClientBuffers(evs[..k]));
    EndedIsFrozen(setup, evs, k);
    var calls := SessionTrace(setup, evs);
    RefusedTrace(Run(setup, evs).machine);
  }

  /** The same in plain bytes. */
  predicate AsksForInBytes(buf: Bytes, a: SocksAddress) {
    |buf| >= 3 && buf[..3] == [0x05, 0x01, 0x00] && IsAddress(buf[3..], a.addrType, a.addr, a.port)
  }

  lemma AskedInBytes(buf: Bytes, a: SocksAddress)
    ensures AsksFor(buf, a) <==> AsksForInBytes(buf, a)
  {
    CommandInBytes(buf, CommandMsg(0x05, 0x01, a.addrType, a.addr, a.port));
    if AsksFor(buf, a) {
      CommandInBytes(buf, Wire.DecodeCommand(buf).value);
    }
  }

  /** A connection is requested at most once, only after the authorizer accepted exactly
      the credentials in the client's second buffer, and to exactly the address in its
      third, whose type byte names its variant. */
  lemma OutboundIsAuthorized(setup: Setup, evs: seq<Event>)
    requires AllWellFormed(evs)
    ensures var w := Run(setup, evs);
            var cb := ClientBuffers(evs);
            |w.connects| <= 1 && |w.auths| <= 1 &&
            (w.connects != [] ==>
              |cb| >= 3 && OffersInBytes(cb[0])
              && |w.auths| == 1 && w.auths[0].accepted
              && Authorized(setup.table, w.auths[0].user, w.auths[0].password)
              && |w.auths[0].user| <= 255 && |w.auths[0].password| <= 255
              && cb[1] == [0x01, |w.auths[0].user|] + w.auths[0].user
                          + [|w.auths[0].password|] + w.auths[0].password
              && AsksForInBytes(cb[2], w.connects[0]))
  {
    EveryRun(setup, evs);
    var w, cb := Run(setup, evs), ClientBuffers(evs);
    if w.connects != [] {
      OfferInBytes(cb[0]);
      CredentialsInBytes(cb[1], CredentialsMsg(w.auths[0].user, w.auths[0].password));
      AskedInBytes(cb[2], w.connects[0]);
    }
  }

  /** The same down to the credential file: the last line of the file that names the user
      carries the password that came in the second buffer. */
  lemma OutboundIsGrantedByFile(setup: Setup, file: Bytes, evs: seq<Event>)
    requires AllWellFormed(evs) && setup.table == EnterAll(map[], Lines(file, 0))
    requires Run(setup, evs).connects != []
    ensures |ClientBuffers(evs)| >= 3
    ensures match Wire.DecodeCredentials(ClientBuffers(evs)[1])
            case None => false
            case Some(c) => LastLineGrants(Lines(file, 0), c.user, c.password)
  {
    EveryRun(setup, evs);
    var c := Wire.DecodeCredentials(ClientBuffers(evs)[1]).value;
    TableIsBackwardScan(map[], Lines(file, 0), c.user, c.password);
  }

  // ---------------------------------------------------------------- transparency

  /** The outbound connection reports an encodable local address and the reply goes out. */
  predicate TakesOver(w: World, e: Event)
    requires WellFormed(e)
  {
    e.ServerConnected? && e.localAddress.Some? && e.sendOk
    && CommandBytes(REQUEST_GRANTED, e.localAddress.value).Encoded?
    && w.ends == 0 && w.server.Some? && w.server.value.user == SessionItself
  }

  /** Event `i` is the one at which the proxy takes over. */
  ghost predicate Handover(setup: Setup, evs: seq<Event>, i: nat)
    requires AllWellFormed(evs)
  {
    i < |evs| && TakesOver(Run(setup, evs[..i]), evs[i])
  }

  predicate Closed(evs: seq<Event>) {
    exists i :: 0 <= i < |evs| && (evs[i].ClientClosed? || evs[i].ServerClosed?)
  }

  /** What the last event adds to one direction of the relay: its buffer, unless a side has
      closed before or the `send` fails. */
  function Carried(evs: seq<Event>, data: bool): seq<Bytes>
    requires |evs| > 0 && (data ==> evs[|evs| - 1].ClientData? || evs[|evs| - 1].ServerData?)
  {
    if !Closed(evs[..|evs| - 1]) && data && evs[|evs| - 1].sendOk then [evs[|evs| - 1].buf] else []
  }

  function ToClient(evs: seq<Event>): seq<Bytes> {
    if |evs| == 0 then []
    else ToClient(evs[..|evs| - 1]) + Carried(evs, evs[|evs| - 1].ServerData?)
  }

  function ToServer(evs: seq<Event>): seq<Bytes> {
    if |evs| == 0 then []
    else ToServer(evs[..|evs| - 1]) + Carried(evs, evs[|evs| - 1].ClientData?)
  }

  function Preamble(e: Event): seq<Bytes>
    requires e.ServerConnected? && e.localAddress.Some? && WellFormed(e)
    requires CommandBytes(REQUEST_GRANTED, e.localAddress.value).Encoded?
  {
    [[0x05, 0x02], [0x05, 0x00], GrantedReply(e.localAddress.value)]
  }

  predicate Relaying(w: World, toClient: seq<Bytes>, toServer: seq<Bytes>, closed: bool) {
    w.client.sent == toClient && w.server.Some? && w.server.value.sent == toServer &&
    if closed then
      w.ends == 1 && !w.proxied && w.client.user == NoUser && !w.client.connected
      && w.server.value.user == NoUser && !w.server.value.connected
    else
      w.ends == 0 && w.proxied
      && w.client.user == MainProxyUser && w.server.value.user == OutProxyUser
  }

  /** A greeting that offers login and password, credentials that the table accepts and a
      command that asks for a stream to `a`. */
  predicate GoodHandshake(table: map<Bytes, Bytes>, cb: seq<Bytes>, a: SocksAddress) {
    |cb| == 3 && OffersLoginPass(cb[0]) && AsksFor(cb[2], a) &&
    match Wire.DecodeCredentials(cb[1])
    case None => false
    case Some(c) => Authorized(table, c.user, c.password)
  }

  lemma TakingOver(table: map<Bytes, Bytes>, w: World, cb: seq<Bytes>, e: Event)
    requires WellFormed(e) && Inv(table, w, cb) && TakesOver(w, e)
    ensures |w.connects| == 1 && GoodHandshake(table, cb, w.connects[0])
    ensures Relaying(Step(table, w, e), Preamble(e), [], false)
  {
    Replies();
    GrantWritten(e.localAddress.value);
  }

  lemma ClosedByLast(evs: seq<Event>)
    requires |evs| > 0
    ensures var last := evs[|evs| - 1];
            Closed(evs) <==> Closed(evs[..|evs| - 1]) || last.ClientClosed? || last.ServerClosed?
  {
    var shorter := evs[..|evs| - 1];
    if Closed(shorter) {
      var i :| 0 <= i < |shorter| && (shorter[i].ClientClosed? || shorter[i].ServerClosed?);
      assert evs[i].ClientClosed? || evs[i].ServerClosed?;
    }
    if Closed(evs) {
      var i :| 0 <= i < |evs| && (evs[i].ClientClosed? || evs[i].ServerClosed?);
      assert i < |shorter| ==> shorter[i].ClientClosed? || shorter[i].ServerClosed?;
    }
  }

  lemma RelayStep(table: map<Bytes, Bytes>, w: World, e: Event,
                  toClient: seq<Bytes>, toServer: seq<Bytes>, closed: bool)
    requires WellFormed(e) && Relaying(w, toClient, toServer, closed)
    ensures Relaying(Step(table, w, e),
                     toClient + if !closed && e.ServerData? && e.sendOk then [e.buf] else [],
                     toServer + if !closed && e.ClientData? && e.sendOk then [e.buf] else [],
                     closed || e.ClientClosed? || e.ServerClosed?)
  {
  }

  /** The relay as it stands after the events that follow the handover `h`. */
  ghost predicate RelayedSince(w: World, h: Event, since: seq<Event>)
    requires WellFormed(h) && h.ServerConnected? && h.localAddress.Some?
    requires CommandBytes(REQUEST_GRANTED, h.localAddress.value).Encoded?
  {
    Relaying(w, Preamble(h) + ToClient(since), ToServer(since), Closed(since))
  }

  lemma RelayOneMore(table: map<Bytes, Bytes>, w: World, h: Event, since: seq<Event>)
    requires WellFormed(h) && h.ServerConnected? && h.localAddress.Some?
    requires CommandBytes(REQUEST_GRANTED, h.localAddress.value).Encoded?
    requires |since| > 0 && WellFormed(since[|since| - 1])
    requires RelayedSince(w, h, since[..|since| - 1])
    ensures RelayedSince(Step(table, w, since[|since| - 1]), h, since)
  {
    var before, e := since[..|since| - 1], since[|since| - 1];
    ClosedByLast(since);
    RelayStep(table, w, e, Preamble(h) + ToClient(before), ToServer(before), Closed(before));
    assert Preamble(h) + ToClient(since)
        == Preamble(h) + ToClient(before) + Carried(since, e.ServerData?);
  }

  lemma RelayBegins(setup: Setup, evs: seq<Event>)
    requires AllWellFormed(evs) && |evs| > 0 && Handover(setup, evs, |evs| - 1)
    ensures RelayedSince(Run(setup, evs), evs[|evs| - 1], [])
  {
    var before, h := evs[..|evs| - 1], evs[|evs| - 1];
    EveryRun(setup, before);
    RunLast(setup, evs);
    TakingOver(setup.table, Run(setup, before), ClientBuffers(before), h);
    assert Preamble(h) + [] == Preamble(h);
  }

  lemma RelayGoesOn(setup: Setup, evs: seq<Event>, i: nat)
    requires AllWellFormed(evs) && i < |evs| - 1 && Handover(setup, evs, i)
    requires RelayedSince(Run(setup, evs[..|evs| - 1]), evs[i], evs[..|evs| - 1][i + 1..])
    ensures RelayedSince(Run(setup, evs), evs[i], evs[i + 1..])
  {
    var shorter, since := evs[..|evs| - 1], evs[i + 1..];
    assert shorter[i + 1..] == since[..|since| - 1];
    RunLast(setup, evs);
    RelayOneMore(setup.table, Run(setup, shorter), evs[i], since);
  }

  lemma {:induction false} RelayAfterHandover(setup: Setup, evs: seq<Event>, i: nat)
    requires AllWellFormed(evs) && Handover(setup, evs, i)
    ensures RelayedSince(Run(setup, evs), evs[i], evs[i + 1..])
  {
    if i == |evs| - 1 {
      RelayBegins(setup, evs);
      assert evs[i + 1..] == [];
    } else {
      assert evs[..|evs| - 1][..i] == evs[..i];
      RelayAfterHandover(setup, evs[..|evs| - 1], i);
      RelayGoesOn(setup, evs, i);
    }
  }

  /** End-to-end transparency. A reply to the command is on the wire exactly when the proxy
      took over at some event. Then the three client buffers before it were a greeting
      that offers login and password, accepted credentials and a stream command; the client
      has been sent exactly the offer, the acceptance, the granted reply and the
      destination's buffers since; the destination has been sent exactly the client's. */
  lemma Transparency(setup: Setup, evs: seq<Event>)
    requires AllWellFormed(evs)
    ensures |Run(setup, evs).client.sent| >= 3 <==> exists i: nat :: Handover(setup, evs, i)
    ensures forall i: nat :: Handover(setup, evs, i) ==>
              |Run(setup, evs[..i]).connects| == 1
              && GoodHandshake(setup.table, ClientBuffers(evs[..i]), Run(setup, evs[..i]).connects[0])
              && Relaying(Run(setup, evs), Preamble(evs[i]) + ToClient(evs[i + 1..]),
                          ToServer(evs[i + 1..]), Closed(evs[i + 1..]))
  {
    forall i: nat | Handover(setup, evs, i)
      ensures |Run(setup, evs[..i]).connects| == 1
      ensures GoodHandshake(setup.table, ClientBuffers(evs[..i]), Run(setup, evs[..i]).connects[0])
      ensures Relaying(Run(setup, evs), Preamble(evs[i]) + ToClient(evs[i + 1..]),
                       ToServer(evs[i + 1..]), Closed(evs[i + 1..]))
    {
      EveryRun(setup, evs[..i]);
      TakingOver(setup.table, Run(setup, evs[..i]), ClientBuffers(evs[..i]), evs[i]);
      RelayAfterHandover(setup, evs, i);
    }
    if |Run(setup, evs).client.sent| >= 3 {
      var i := FindHandover(setup, evs);
    }
  }

  lemma FirstReply(table: map<Bytes, Bytes>, w: World, cb: seq<Bytes>, e: Event)
    requires WellFormed(e) && Inv(table, w, cb)
    requires |w.client.sent| < 3 <= |Step(table, w, e).client.sent|
    ensures TakesOver(w, e)
  {
    Replies();
  }

  lemma {:induction false} FindHandover(setup: Setup, evs: seq<Event>) returns (i: nat)
    requires AllWellFormed(evs) && |Run(setup, evs).client.sent| >= 3
    ensures Handover(setup, evs, i)
  {
    var n := |evs| - 1;
    var shorter := evs[..n];
    if |Run(setup, shorter).client.sent| >= 3 {
      i := FindHandover(setup, shorter);
      assert shorter[..i] == evs[..i];
    } else {
      i := n;
      EveryRun(setup, shorter);
      RunLast(setup, evs);
      FirstReply(setup.table, Run(setup, shorter), ClientBuffers(shorter), evs[n]);
    }
  }

  lemma OnlyTakingOverStartsProxy(table: map<Bytes, Bytes>, w: World, cb: seq<Bytes>, e: Event)
    requires WellFormed(e) && Inv(table, w, cb)
    ensures var v := Step(table, w, e);
            TakesOver(w, e) <==> !w.proxied && v.proxied && v.ends == 0
  {
    Replies();
  }

  /** `Handover` is the event at which a live session gets its proxy, and nothing else is. */
  lemma HandoverIsProxyStart(setup: Setup, evs: seq<Event>, i: nat)
    requires AllWellFormed(evs) && i < |evs|
    ensures Handover(setup, evs, i) <==>
            !Run(setup, evs[..i]).proxied && Run(setup, evs[..i + 1]).proxied
            && Run(setup, evs[..i + 1]).ends == 0
  {
    EveryRun(setup, evs[..i]);
    OnlyTakingOverStartsProxy(setup.table, Run(setup, evs[..i]), ClientBuffers(evs[..i]), evs[i]);
    RunPrefix(setup, evs, i);
  }

  predicate EverySendSucceeds(evs: seq<Event>) {
    forall i :: 0 <= i < |evs| ==>
      match evs[i]
      case ClientData(_, sendOk, _) => sendOk
      case ServerConnected(_, sendOk) => sendOk
      case ServerData(_, sendOk) => sendOk
      case _ => true
  }

  function ServerBuffers(evs: seq<Event>): seq<Bytes> {
    if |evs| == 0 then []
    else ServerBuffers(evs[..|evs| - 1]) + if evs[|evs| - 1].ServerData? then [evs[|evs| - 1].buf] else []
  }

  lemma {:induction false} RelayCarriesEverything(evs: seq<Event>)
    requires EverySendSucceeds(evs) && !Closed(evs)
    ensures ToClient(evs) == ServerBuffers(evs) && ToServer(evs) == ClientBuffers(evs)
  {
    if |evs| == 0 {
    } else {
      var shorter := evs[..|evs| - 1];
      assert forall i :: 0 <= i < |shorter| ==> shorter[i] == evs[i];
      assert EverySendSucceeds(shorter);
      RelayCarriesEverything(shorter);
    }
  }

  /** While both sides are open and sends succeed nothing is lost, added or reordered. */
  lemma OpenRelayIsTransparent(setup: Setup, evs: seq<Event>, i: nat)
    requires AllWellFormed(evs) && Handover(setup, evs, i)
    requires EverySendSucceeds(evs[i + 1..]) && !Closed(evs[i + 1..])
    ensures Wire.Concat(Run(setup, evs).client.sent)
         == Wire.Concat(Preamble(evs[i])) + Wire.Concat(ServerBuffers(evs[i + 1..]))
    ensures Run(setup, evs).server.Some?
         && Wire.Concat(Run(setup, evs).server.value.sent) == Wire.Concat(ClientBuffers(evs[i + 1..]))
  {
    RelayAfterHandover(setup, evs, i);
    RelayCarriesEverything(evs[i + 1..]);
    ConcatOfSum(Preamble(evs[i]), ServerBuffers(evs[i + 1..]));
  }

  lemma AppendIsAssociative(x: Bytes, y: Bytes, z: Bytes)
    ensures x + (y + z) == (x + y) + z
  {
  }

  lemma {:induction false} ConcatOfSum(a: seq<Bytes>, b: seq<Bytes>)
    ensures Wire.Concat(a + b) == Wire.Concat(a) + Wire.Concat(b)
  {
    if |a| == 0 {
      assert a + b == b;
    } else {
      ConcatOfSum(a[1..], b);
      assert (a + b)[0] == a[0] && (a + b)[1..] == a[1..] + b;
      AppendIsAssociative(a[0], Wire.Concat(a[1..]), Wire.Concat(b));
    }
  }

  /** Replies that report a failure never reach the wire: the encoder refuses the empty
      address they carry. Whatever command reply was sent is a granted one. */
  lemma OnlyGrantedRepliesAreSent(setup: Setup, evs: seq<Event>)
    requires AllWellFormed(evs)
    ensures WireShape(Run(setup, evs).client.sent, Run(setup, evs))
    ensures forall status :: CommandBytes(status, EMPTY_ADDRESS) == Wire.Refused
  {
    EveryRun(setup, evs);
  }
}
