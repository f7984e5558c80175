/** Which sequences of events bring a session to its proxy, told by the events alone, and
    what is left when the handover goes wrong or the destination does not answer. */
module SessionReach {
  import opened Wrappers
  import opened SocksTypes
  import Wire
  import Machine
  import opened Authorizer
  import opened WireBytes
  import opened SessionSpec
  import opened SessionRuns

  // ---------------------------------------------------------------- the handshake goes through

  /** The client's buffers so far are the beginning of a good handshake. */
  predicate GoodSoFar(table: map<Bytes, Bytes>, cb: seq<Bytes>) {
    |cb| <= 3
    && (|cb| >= 1 ==> OffersLoginPass(cb[0]))
    && (|cb| >= 2 ==> GoodCredentials(table, cb[1]))
    && (|cb| == 3 ==> AsksForStream(cb[2]))
  }

  predicate GoodCredentials(table: map<Bytes, Bytes>, buf: Bytes) {
    match Wire.DecodeCredentials(buf)
    case None => false
    case Some(c) => Authorized(table, c.user, c.password)
  }

  predicate AsksForStream(buf: Bytes) {
    Wire.DecodeCommand(buf).Some? && Wire.DecodeCommand(buf).value.command == 0x01
  }

  /** With `n` client buffers before it, the event does not stop the handshake: the client
      stays, the replies to its first two buffers are sent, the connection it asks for can be
      created, and the destination does not report a connection that was asked for. */
  predicate LetsGoOn(e: Event, n: nat) {
    match e
    case ClientData(_, sendOk, connectOk) => if n < 2 then sendOk else connectOk
    case ClientClosed => false
    case ServerConnected(_, _) => n < 3
    case _ => true
  }

  /** Every event lets the handshake go on. */
  predicate Undisturbed(evs: seq<Event>)
    decreases |evs|
  {
    |evs| > 0 ==>
      var before := evs[..|evs| - 1];
      Undisturbed(before) && LetsGoOn(evs[|evs| - 1], |ClientBuffers(before)|)
  }

  /** Alive, and the proxy has not taken over. */
  predicate Shaking(w: World) {
    w.ends == 0 && !w.proxied
  }

  lemma OneBufferOfHandshake(table: map<Bytes, Bytes>, w: World, cb: seq<Bytes>, e: Event)
    requires e.ClientData? && Inv(table, w, cb) && Shaking(w)
    ensures Shaking(Step(table, w, e)) <==> LetsGoOn(e, |cb|) && GoodSoFar(table, cb + [e.buf])
  {
    Replies();
  }

  lemma OneEventOfHandshake(table: map<Bytes, Bytes>, w: World, cb: seq<Bytes>, e: Event)
    requires WellFormed(e) && Inv(table, w, cb)
    ensures Shaking(Step(table, w, e)) <==>
            Shaking(w) && LetsGoOn(e, |cb|) && GoodSoFar(table, cb + ClientBuffer(e))
  {
    if Shaking(w) && e.ClientData? {
      OneBufferOfHandshake(table, w, cb, e);
    } else {
      assert Shaking(w) ==> cb + ClientBuffer(e) == cb;
    }
  }

  lemma GoodPrefix(table: map<Bytes, Bytes>, cb: seq<Bytes>, e: Event)
    requires GoodSoFar(table, cb + ClientBuffer(e))
    ensures GoodSoFar(table, cb)
  {
    var all := cb + ClientBuffer(e);
    assert forall i :: 0 <= i < |cb| ==> all[i] == cb[i];
  }

  /** A session is alive and without proxy exactly when the events let the handshake go on
      and the client's buffers are the beginning of a good one. */
  lemma {:induction false} ShakingExactly(setup: Setup, evs: seq<Event>)
    requires AllWellFormed(evs)
    ensures Shaking(Run(setup, evs)) <==> Undisturbed(evs) && GoodSoFar(setup.table, ClientBuffers(evs))
  {
    if |evs| == 0 {
    } else {
      var before, e := evs[..|evs| - 1], evs[|evs| - 1];
      ShakingExactly(setup, before);
      EveryRun(setup, before);
      RunLast(setup, evs);
      OneEventOfHandshake(setup.table, Run(setup, before), ClientBuffers(before), e);
      if GoodSoFar(setup.table, ClientBuffers(evs)) {
        GoodPrefix(setup.table, ClientBuffers(before), e);
      }
    }
  }

  /** Waiting for the destination: alive, with the connection asked for. */
  predicate Pending(w: World) {
    w.ends == 0 && w.server.Some? && w.server.value.user == SessionItself
  }

  lemma PendingWorld(table: map<Bytes, Bytes>, w: World, cb: seq<Bytes>)
    requires Inv(table, w, cb)
    ensures Pending(w) <==> Shaking(w) && |cb| == 3
    ensures Pending(w) ==> |w.connects| == 1 && AsksFor(cb[2], w.connects[0])
  {
  }

  /** The session waits for the destination exactly after an undisturbed good handshake, and
      it then has asked for the address in the third buffer. */
  lemma PendingExactly(setup: Setup, evs: seq<Event>)
    requires AllWellFormed(evs)
    ensures var w, cb := Run(setup, evs), ClientBuffers(evs);
            (Pending(w) <==> Undisturbed(evs) && |cb| == 3 && GoodSoFar(setup.table, cb))
            && (Pending(w) ==> |w.connects| == 1 && AsksForInBytes(cb[2], w.connects[0]))
  {
    EveryRun(setup, evs);
    ShakingExactly(setup, evs);
    PendingWorld(setup.table, Run(setup, evs), ClientBuffers(evs));
    if Pending(Run(setup, evs)) {
      AskedInBytes(ClientBuffers(evs)[2], Run(setup, evs).connects[0]);
    }
  }

  /** The destination reports a connection whose local address can be encoded, and the reply
      goes out. */
  predicate Grants(e: Event) {
    e.ServerConnected? && e.localAddress.Some? && e.sendOk
    && (e.localAddress.value.addrType == 0x01 || e.localAddress.value.addrType == 0x03
        || e.localAddress.value.addrType == 0x04)
    && (e.localAddress.value.addr.Domain? ==> |e.localAddress.value.addr.name| <= 255)
  }

  /** The proxy takes over at an event exactly when what arrived until then was a good,
      undisturbed handshake and the event grants it. */
  lemma HandoverExactly(setup: Setup, evs: seq<Event>, i: nat)
    requires AllWellFormed(evs) && i < |evs|
    ensures Handover(setup, evs, i) <==>
            Undisturbed(evs[..i]) && |ClientBuffers(evs[..i])| == 3
            && GoodSoFar(setup.table, ClientBuffers(evs[..i])) && Grants(evs[i])
  {
    PendingExactly(setup, evs[..i]);
  }

  lemma LaterIsNoHandover(setup: Setup, evs: seq<Event>, i: nat, j: nat)
    requires AllWellFormed(evs) && i < j < |evs| && Handover(setup, evs, i)
    ensures !Handover(setup, evs, j)
  {
    var shorter := evs[..j];
    assert shorter[..i] == evs[..i];
    RelayAfterHandover(setup, shorter, i);
  }

  /** There is at most one handover in a run. */
  lemma HandoverIsUnique(setup: Setup, evs: seq<Event>, i: nat, j: nat)
    requires AllWellFormed(evs) && Handover(setup, evs, i) && Handover(setup, evs, j)
    ensures i == j
  {
    if i < j {
      LaterIsNoHandover(setup, evs, i, j);
    } else if j < i {
      LaterIsNoHandover(setup, evs, j, i);
    }
  }

  // ---------------------------------------------------------------- what each buffer is answered

  /** The answer to the client's buffer number `n`, from 0 on. */
  function AnswerTo(table: map<Bytes, Bytes>, n: nat, buf: Bytes): seq<Bytes> {
    if n == 0 then
      match Wire.DecodeGreeting(buf)
      case None => []
      case Some(m) => if 0x02 in m.authMethods then [[0x05, 0x02]] else [[0x05, 0xff]]
    else if n == 1 then
      match Wire.DecodeCredentials(buf)
      case None => []
      case Some(c) => if Authorized(table, c.user, c.password) then [[0x05, 0x00]] else [[0x05, 0x01]]
    else []
  }

  lemma OneAnswer(table: map<Bytes, Bytes>, w: World, cb: seq<Bytes>, e: Event)
    requires Inv(table, w, cb) && Shaking(w) && e.ClientData?
    ensures Step(table, w, e).client.sent == w.client.sent + if e.sendOk then AnswerTo(table, |cb|, e.buf) else []
  {
    Replies();
    match w.machine.state
    case WaitForPassAuth =>
      match Wire.DecodeCredentials(e.buf) {
        case None =>
        case Some(c) => AfterAnswer(table, w, c, e.sendOk);
      }
    case WaitForCommand => CommandIsNotAnswered(table, w, e);
    case _ =>
  }

  lemma CommandIsNotAnswered(table: map<Bytes, Bytes>, w: World, e: Event)
    requires Shaking(w) && e.ClientData? && w.client.user == TrackerUser && w.machine.state == Machine.WaitForCommand
    ensures Step(table, w, e).client.sent == w.client.sent
  {
    match Wire.DecodeCommand(e.buf)
    case None => ErrorEnds(w);
    case Some(msg) =>
      var a := Machine.CommandAddress(msg);
      var asked := Emitting(InState(w, Machine.WaitForProxyStart), Machine.StartProxy(msg.command, a));
      FailureEnds(asked, COMMAND_NOT_SUPPORTED, e.sendOk);
      FailureEnds(asked.(connects := w.connects + [a]), GENERAL_FAILURE, e.sendOk);
  }

  /** Every client buffer before the relay is answered as `AnswerTo` says, good or bad; it
      is the sending that can fail. */
  lemma EveryBufferIsAnswered(setup: Setup, evs: seq<Event>, buf: Bytes, sendOk: bool, connectOk: bool)
    requires AllWellFormed(evs) && Shaking(Run(setup, evs))
    ensures AllWellFormed(evs + [ClientData(buf, sendOk, connectOk)])
    ensures Run(setup, evs + [ClientData(buf, sendOk, connectOk)]).client.sent
         == Run(setup, evs).client.sent
            + if sendOk then AnswerTo(setup.table, |ClientBuffers(evs)|, buf) else []
  {
    var longer := evs + [ClientData(buf, sendOk, connectOk)];
    assert longer[..|evs|] == evs;
    EveryRun(setup, evs);
    RunLast(setup, longer);
    OneAnswer(setup.table, Run(setup, evs), ClientBuffers(evs), longer[|evs|]);
  }

  /** The statuses the machine is told when no proxy comes about; none of them is sent. */
  lemma FailureStatuses(table: map<Bytes, Bytes>, w: World, cb: seq<Bytes>, e: Event)
    requires WellFormed(e) && Inv(table, w, cb) && Shaking(w)
    ensures e.ClientData? && |cb| == 2 && Wire.DecodeCommand(e.buf).Some? ==>
              var m, t := Wire.DecodeCommand(e.buf).value, Step(table, w, e).machine.trace;
              |t| > 0 && t[|t| - 1] ==
              if m.command != 0x01 then Machine.CommandResponse(0x07, EMPTY_ADDRESS)
              else if !e.connectOk then Machine.CommandResponse(0x01, EMPTY_ADDRESS)
              else Machine.StartProxy(0x01, SocksAddress(m.addrType, m.addr, m.port))
    ensures e.ServerConnected? && |cb| == 3 ==>
              var t := Step(table, w, e).machine.trace;
              |t| > 0 && t[|t| - 1] ==
              match e.localAddress
              case None => Machine.CommandResponse(0x04, EMPTY_ADDRESS)
              case Some(a) => Machine.CommandResponse(0x00, a)
  {
    if e.ClientData? && |cb| == 2 && Wire.DecodeCommand(e.buf).Some? {
      CommandRunsMachine(w, Wire.DecodeCommand(e.buf).value, e.buf, e.sendOk, e.connectOk);
    }
    if e.ServerConnected? && |cb| == 3 {
      ConnectedRunsMachine(OnServer(w, w.server.value.(connected := true)), e.localAddress, e.sendOk);
    }
  }

  // ---------------------------------------------------------------- a client that does not wait

  /** A client that sends anything before the command reply loses its session, whatever it
      sends: the buffer is neither kept nor relayed. */
  lemma EarlyDataEnds(setup: Setup, evs: seq<Event>, buf: Bytes, sendOk: bool, connectOk: bool)
    requires AllWellFormed(evs) && Pending(Run(setup, evs))
    ensures AllWellFormed(evs + [ClientData(buf, sendOk, connectOk)])
    ensures var w, v := Run(setup, evs), Run(setup, evs + [ClientData(buf, sendOk, connectOk)]);
            v.ends > 0 && !v.proxied && v.server == w.server && v.client.sent == [OFFER_LOGIN_PASS, AUTH_ACCEPTED]
            && v.machine.state == Machine.ProtocolError
  {
    var longer := evs + [ClientData(buf, sendOk, connectOk)];
    assert longer[..|evs|] == evs;
    EveryRun(setup, evs);
    RunLast(setup, longer);
  }

  // ---------------------------------------------------------------- a reply that cannot be sent

  predicate ReportsAddress(e: Event) {
    e.ServerConnected? && e.localAddress.Some?
  }

  lemma ProxyRegardless(table: map<Bytes, Bytes>, w: World, cb: seq<Bytes>, e: Event)
    requires WellFormed(e) && Inv(table, w, cb) && Pending(w) && ReportsAddress(e)
    ensures var v := Step(table, w, e);
            v.proxied
            && (|v.client.sent| == 3 <==> Grants(e)) && (v.ends == 0 <==> Grants(e))
            && (!Grants(e) ==> v.client.sent == w.client.sent == [OFFER_LOGIN_PASS, AUTH_ACCEPTED])
  {
    Replies();
  }

  lemma ProxyNeedsAddress(table: map<Bytes, Bytes>, w: World, cb: seq<Bytes>, e: Event)
    requires WellFormed(e) && Inv(table, w, cb) && !w.proxied && Step(table, w, e).proxied
    ensures Pending(w) && ReportsAddress(e)
  {
  }

  /** A proxy is built at an event exactly when the session waits for the destination and
      the event reports a local address, whether or not the granted reply goes out. */
  lemma ProxyBuiltExactly(setup: Setup, evs: seq<Event>, i: nat)
    requires AllWellFormed(evs) && i < |evs|
    ensures !Run(setup, evs[..i]).proxied && Run(setup, evs[..i + 1]).proxied <==>
            Pending(Run(setup, evs[..i])) && ReportsAddress(evs[i])
  {
    EveryRun(setup, evs[..i]);
    RunPrefix(setup, evs, i);
    var w, cb := Run(setup, evs[..i]), ClientBuffers(evs[..i]);
    if Pending(w) && ReportsAddress(evs[i]) {
      PendingWorld(setup.table, w, cb);
      ProxyRegardless(setup.table, w, cb, evs[i]);
    }
    if !w.proxied && Step(setup.table, w, evs[i]).proxied {
      ProxyNeedsAddress(setup.table, w, cb, evs[i]);
    }
  }

  /** So a proxy alone does not mean that the granted reply was sent. Where one is built, the
      reply is on the wire if and only if it could be encoded and sent; otherwise the session
      has ended, with a proxy and with the two replies of the handshake, for good. */
  lemma ProxyWithoutReply(setup: Setup, evs: seq<Event>, i: nat)
    requires AllWellFormed(evs) && i < |evs|
    requires !Run(setup, evs[..i]).proxied && Run(setup, evs[..i + 1]).proxied
    ensures var w := Run(setup, evs);
            (|w.client.sent| >= 3 <==> Grants(evs[i]))
            && (!Grants(evs[i]) ==>
                  w.proxied && w.ends > 0 && w.client.sent == [OFFER_LOGIN_PASS, AUTH_ACCEPTED])
  {
    ProxyBuiltExactly(setup, evs, i);
    EveryRun(setup, evs[..i]);
    RunPrefix(setup, evs, i);
    ProxyRegardless(setup.table, Run(setup, evs[..i]), ClientBuffers(evs[..i]), evs[i]);
    if Grants(evs[i]) {
      RelayAfterHandover(setup, evs, i);
    } else {
      EndedIsFrozen(setup, evs, i + 1);
    }
  }

  lemma OneMoreEvent(evs: seq<Event>, e: Event)
    ensures ClientBuffers(evs + [e]) == ClientBuffers(evs) + ClientBuffer(e)
    ensures Undisturbed(evs + [e]) <==> Undisturbed(evs) && LetsGoOn(e, |ClientBuffers(evs)|)
  {
    assert (evs + [e])[..|evs|] == evs;
  }

  function Sent(buf: Bytes): Event {
    ClientData(buf, true, true)
  }

  function Straight(greeting: Bytes, credentials: Bytes, command: Bytes): seq<Event> {
    [] + [Sent(greeting)] + [Sent(credentials)] + [Sent(command)]
  }

  /** Three buffers of a good handshake that arrive one after the other bring the session to
      wait for the destination. */
  lemma StraightHandshake(setup: Setup, greeting: Bytes, credentials: Bytes, command: Bytes)
    requires OffersLoginPass(greeting) && GoodCredentials(setup.table, credentials) && AsksForStream(command)
    ensures var evs := Straight(greeting, credentials, command);
            AllWellFormed(evs) && Pending(Run(setup, evs))
  {
    OneMoreEvent([], Sent(greeting));
    OneMoreEvent([] + [Sent(greeting)], Sent(credentials));
    OneMoreEvent([] + [Sent(greeting)] + [Sent(credentials)], Sent(command));
    PendingExactly(setup, Straight(greeting, credentials, command));
  }

  const USER: Bytes := [0x75]
  const PASSWORD: Bytes := [0x70]
  const GREETING: Bytes := [0x05, 0x01, 0x02]
  const CREDENTIALS: Bytes := [0x01, 0x01, 0x75, 0x01, 0x70]
  const COMMAND: Bytes := [0x05, 0x01, 0x00, 0x01, 1, 2, 3, 4, 80, 0]
  const ADDRESS: SocksAddress := SocksAddress(IPV4_ADDR, IPv4(IPV4_ZERO), 0)

  lemma ExampleBuffers()
    ensures OffersLoginPass(GREETING) && GoodCredentials(map[USER := PASSWORD], CREDENTIALS)
    ensures AsksForStream(COMMAND)
  {
    var request := CommandMsg(VERSION_5, TCP_STREAM, IPV4_ADDR, IPv4([1, 2, 3, 4]), 80);
    Wire.GreetingAccepted(GREETING, GreetingMsg(VERSION_5, [AUTH_LOGIN_PASS]));
    Wire.CredentialsAccepted(CREDENTIALS, CredentialsMsg(USER, PASSWORD));
    assert Wire.CommandLayout(request) == COMMAND;
    Wire.CommandAccepted(COMMAND, request);
  }

  /** A concrete run: the user "u" with password "p" asks for 1.2.3.4, the destination
      answers and the granted reply cannot be sent. The proxy is built all the same. */
  lemma ProxyBuiltWithoutReply(setup: Setup)
    requires setup.table == map[USER := PASSWORD]
    ensures var evs := Straight(GREETING, CREDENTIALS, COMMAND) + [ServerConnected(Some(ADDRESS), false)];
            AllWellFormed(evs) && Run(setup, evs).proxied
            && Run(setup, evs).client.sent == [OFFER_LOGIN_PASS, AUTH_ACCEPTED]
  {
    ExampleBuffers();
    StraightHandshake(setup, GREETING, CREDENTIALS, COMMAND);
    var before, reply := Straight(GREETING, CREDENTIALS, COMMAND), ServerConnected(Some(ADDRESS), false);
    var evs := before + [reply];
    assert evs[..3] == before;
    RunLast(setup, evs);
    EveryRun(setup, before);
    ProxyRegardless(setup.table, Run(setup, before), ClientBuffers(before), reply);
  }

  // ---------------------------------------------------------------- a destination that does not answer

  lemma {:induction false} RunFromConcat(table: map<Bytes, Bytes>, w: World, a: seq<Event>, b: seq<Event>)
    requires AllWellFormed(a) && AllWellFormed(b)
    ensures AllWellFormed(a + b)
    ensures RunFrom(table, w, a + b) == RunFrom(table, RunFrom(table, w, a), b)
    decreases |a|
  {
    if |a| == 0 {
      assert a + b == b;
    } else {
      assert (a + b)[1..] == a[1..] + b;
      RunFromConcat(table, Step(table, w, a[0]), a[1..], b);
    }
  }

  predicate FromServer(evs: seq<Event>) {
    forall e <- evs :: e.ServerClosed? || e.ServerData?
  }

  lemma {:induction false} ServerIsIgnored(table: map<Bytes, Bytes>, w: World, evs: seq<Event>)
    requires AllWellFormed(evs) && FromServer(evs)
    requires w.server.Some? ==> w.server.value.user == SessionItself
    ensures var v := RunFrom(table, w, evs);
            v.server.Some? == w.server.Some? && v.(server := w.server) == w
            && (w.server.Some? ==> v.server.value == w.server.value.(connected := v.server.value.connected))
    decreases |evs|
  {
    if |evs| == 0 {
    } else {
      assert evs[0] in evs;
      ServerIsIgnored(table, Step(table, w, evs[0]), evs[1..]);
    }
  }

  /** A failed connect goes unnoticed: however often the destination's side closes, the
      session keeps waiting, nothing is sent and nobody is told. */
  lemma FailedConnectWaits(setup: Setup, evs: seq<Event>, more: seq<Event>)
    requires AllWellFormed(evs) && Pending(Run(setup, evs))
    requires AllWellFormed(more) && FromServer(more)
    ensures AllWellFormed(evs + more)
    ensures var w, v := Run(setup, evs), Run(setup, evs + more);
            Pending(v) && v.(server := w.server) == w && v.server.value.sent == []
            && v.machine.state == Machine.WaitForProxyStart
  {
    RunFromConcat(setup.table, Init(setup), evs, more);
    EveryRun(setup, evs);
    ServerIsIgnored(setup.table, Run(setup, evs), more);
  }
}
