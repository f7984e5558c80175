/** The handshake automaton (src/StateMachine.cpp) seen from its owner: the calls made on
    it, the callbacks it makes, and what holds of them over whole runs. The class that
    updates `_state` in place is `Session.StateMachine`; `SessionRuns.StepRunsMachine` ties
    what it does, nested calls included, to `Run`. */
module Machine {
  import opened Wrappers
  import opened SocksTypes
  import Wire

  datatype State =
    | WaitForGreeting
    | WaitForPassAuth
    | WaitForPassAuthResult
    | WaitForCommand
    | WaitForProxyStart
    | ProxyStarted
    | ProxyStartFailed
    | ProtocolError

  datatype Call =
    | Buffer(buf: Bytes)
    | PassAuthResult(success: bool)
    | StartProxyResult(status: Byte, localAddress: SocksAddress)

  /** The callbacks of `IStateMachineOwner`. */
  datatype Output =
    | GreetingResponse(authMethod: Byte)
    | RequestPassAuth(user: Bytes, password: Bytes)
    | PassAuthResponse(authStatus: Byte)
    | StartProxy(command: Byte, address: SocksAddress)
    | CommandResponse(status: Byte, localAddress: SocksAddress)
    | ErrorReport

  datatype Config = Config(state: State, trace: seq<Output>)

  const INITIAL: Config := Config(WaitForGreeting, [])

  function Emit(c: Config, o: Output): Config {
    c.(trace := c.trace + [o])
  }

  function Fail(c: Config): Config {
    Emit(c.(state := ProtocolError), ErrorReport)
  }

  function CommandAddress(m: CommandMsg): SocksAddress {
    SocksAddress(m.addrType, m.addr, m.port)
  }

  // ------------------------------------------- calls that the owner does not nest

  function HandleBuffer(c: Config, buf: Bytes): Config {
    match c.state
    case WaitForGreeting => (
      match Wire.DecodeGreeting(buf)
      case None => Fail(c)
      case Some(m) =>
        if AUTH_LOGIN_PASS in m.authMethods
        then Emit(c, GreetingResponse(AUTH_LOGIN_PASS)).(state := WaitForPassAuth)
        else Fail(Emit(c, GreetingResponse(NO_AVAILABLE_METHOD))))
    case WaitForPassAuth => (
      match Wire.DecodeCredentials(buf)
      case None => Fail(c)
      case Some(m) => Emit(c.(state := WaitForPassAuthResult), RequestPassAuth(m.user, m.password)))
    case WaitForCommand => (
      match Wire.DecodeCommand(buf)
      case None => Fail(c)
      case Some(m) => Emit(c.(state := WaitForProxyStart), StartProxy(m.command, CommandAddress(m))))
    case _ => Fail(c)
  }

  function HandlePassAuthResult(c: Config, success: bool): Config {
    if c.state != WaitForPassAuthResult then Fail(c)
    else if success then Emit(c.(state := WaitForCommand), PassAuthResponse(0x00))
    else Emit(c, PassAuthResponse(0x01))
  }

  function HandleStartProxyResult(c: Config, status: Byte, localAddress: SocksAddress): Config {
    if c.state != WaitForProxyStart then Fail(c)
    else Emit(c, CommandResponse(status, localAddress)).(
         state := if status == REQUEST_GRANTED then ProxyStarted else ProxyStartFailed)
  }

  function Handle(c: Config, call: Call): Config {
    match call
    case Buffer(buf) => HandleBuffer(c, buf)
    case PassAuthResult(success) => HandlePassAuthResult(c, success)
    case StartProxyResult(status, localAddress) => HandleStartProxyResult(c, status, localAddress)
  }

  function Run(c: Config, calls: seq<Call>): Config
    decreases |calls|
  {
    if |calls| == 0 then c else Run(Handle(c, calls[0]), calls[1..])
  }

  lemma RunFirst(c: Config, call: Call, rest: seq<Call>)
    ensures Run(c, [call] + rest) == Run(Handle(c, call), rest)
  {
    assert ([call] + rest)[1..] == rest;
  }

  lemma {:induction false} RunConcat(c: Config, a: seq<Call>, b: seq<Call>)
    ensures Run(c, a + b) == Run(Run(c, a), b)
    decreases |a|
  {
    if |a| == 0 {
      assert a + b == b;
    } else {
      assert (a + b)[1..] == a[1..] + b;
      RunConcat(Handle(c, a[0]), a[1..], b);
    }
  }

  // ---------------------------------------------------------------- trace language

  predicate AllErrors(t: seq<Output>) {
    forall i :: 0 <= i < |t| ==> t[i] == ErrorReport
  }

  /** Greeting(2), the request, and any number of refusals. */
  predicate Asking(t: seq<Output>) {
    |t| >= 2 && t[0] == GreetingResponse(0x02) && t[1].RequestPassAuth?
    && forall i :: 2 <= i < |t| ==> t[i] == PassAuthResponse(0x01)
  }

  predicate Authenticated(t: seq<Output>) {
    |t| >= 3 && Asking(t[..|t| - 1]) && t[|t| - 1] == PassAuthResponse(0x00)
  }

  predicate Proxying(t: seq<Output>) {
    |t| >= 4 && Authenticated(t[..|t| - 1]) && t[|t| - 1].StartProxy?
  }

  predicate Answered(t: seq<Output>) {
    |t| >= 5 && Proxying(t[..|t| - 1]) && t[|t| - 1].CommandResponse?
  }

  /** The prefixes of Greeting(2) Request Refusal* Accept StartProxy CommandResponse. */
  predicate MainPath(t: seq<Output>) {
    t == [] || t == [GreetingResponse(0x02)]
    || Asking(t) || Authenticated(t) || Proxying(t) || Answered(t)
  }

  predicate TraceWithCore(t: seq<Output>, n: nat) {
    n <= |t| && AllErrors(t[n..])
    && (MainPath(t[..n]) || (t[..n] == [GreetingResponse(0xff)] && n < |t|))
  }

  ghost predicate StateTrace(c: Config) {
    match c.state
    case WaitForGreeting => c.trace == []
    case WaitForPassAuth => c.trace == [GreetingResponse(0x02)]
    case WaitForPassAuthResult => Asking(c.trace)
    case WaitForCommand => Authenticated(c.trace)
    case WaitForProxyStart => Proxying(c.trace)
    case ProxyStarted =>
      Answered(c.trace) && c.trace[|c.trace| - 1].status == 0x00
    case ProxyStartFailed =>
      Answered(c.trace) && c.trace[|c.trace| - 1].status != 0x00
    case ProtocolError =>
      |c.trace| > 0 && c.trace[|c.trace| - 1] == ErrorReport
      && exists n: nat :: TraceWithCore(c.trace, n)
  }

  lemma StateTraceIsOnMainPath(c: Config)
    requires StateTrace(c) && c.state != ProtocolError
    ensures MainPath(c.trace)
  {
  }

  lemma OneMoreError(t: seq<Output>, n: nat)
    requires TraceWithCore(t, n)
    ensures TraceWithCore(t + [ErrorReport], n)
  {
    var longer := t + [ErrorReport];
    assert longer[..n] == t[..n];
    assert longer[n..] == t[n..] + [ErrorReport];
  }

  lemma FirstError(t: seq<Output>)
    requires MainPath(t)
    ensures TraceWithCore(t + [ErrorReport], |t|)
  {
    var longer := t + [ErrorReport];
    assert longer[..|t|] == t;
    assert longer[|t|..] == [ErrorReport];
  }

  lemma FailKeepsStateTrace(c: Config)
    requires StateTrace(c)
    ensures StateTrace(Fail(c))
  {
    if c.state == ProtocolError {
      var n: nat :| TraceWithCore(c.trace, n);
      OneMoreError(c.trace, n);
    } else {
      StateTraceIsOnMainPath(c);
      FirstError(c.trace);
    }
  }

  lemma RefusedGreetingKeepsStateTrace(c: Config)
    requires c == INITIAL
    ensures StateTrace(Fail(Emit(c, GreetingResponse(NO_AVAILABLE_METHOD))))
  {
    var t := Fail(Emit(c, GreetingResponse(NO_AVAILABLE_METHOD))).trace;
    assert t == [GreetingResponse(NO_AVAILABLE_METHOD), ErrorReport];
    assert t[..1] == [GreetingResponse(NO_AVAILABLE_METHOD)];
    assert TraceWithCore(t, 1);
  }

  lemma EmitKeepsPrefix(c: Config, o: Output)
    ensures Emit(c, o).trace[..|c.trace|] == c.trace && Emit(c, o).trace[|c.trace|] == o
  {
  }

  /** The step from `c` to `d` emits one callback that fits the state it is made in. */
  predicate Advances(c: Config, d: Config) {
    |d.trace| == |c.trace| + 1 && d == Emit(c.(state := d.state), d.trace[|c.trace|]) &&
    var o := d.trace[|c.trace|];
    match c.state
    case WaitForGreeting => d.state == WaitForPassAuth && o == GreetingResponse(AUTH_LOGIN_PASS)
    case WaitForPassAuth => d.state == WaitForPassAuthResult && o.RequestPassAuth?
    case WaitForCommand => d.state == WaitForProxyStart && o.StartProxy?
    case _ => false
  }

  lemma BufferOutcome(c: Config, buf: Bytes)
    ensures var d := HandleBuffer(c, buf);
            d == Fail(c) || Advances(c, d)
            || (c.state == WaitForGreeting && d == Fail(Emit(c, GreetingResponse(NO_AVAILABLE_METHOD))))
  {
  }

  lemma AdvancingKeepsStateTrace(c: Config, d: Config)
    requires StateTrace(c) && Advances(c, d)
    ensures StateTrace(d)
  {
    EmitKeepsPrefix(c.(state := d.state), d.trace[|c.trace|]);
  }

  lemma BufferKeepsStateTrace(c: Config, buf: Bytes)
    requires StateTrace(c)
    ensures StateTrace(HandleBuffer(c, buf))
  {
    BufferOutcome(c, buf);
    FailKeepsStateTrace(c);
    if Advances(c, HandleBuffer(c, buf)) {
      AdvancingKeepsStateTrace(c, HandleBuffer(c, buf));
    } else if c.state == WaitForGreeting {
      RefusedGreetingKeepsStateTrace(c);
    }
  }

  lemma ResultKeepsStateTrace(c: Config, call: Call)
    requires StateTrace(c) && !call.Buffer?
    ensures StateTrace(Handle(c, call))
  {
    var d := Handle(c, call);
    if d == Fail(c) {
      FailKeepsStateTrace(c);
    } else {
      EmitKeepsPrefix(c, d.trace[|c.trace|]);
    }
  }

  lemma HandleKeepsStateTrace(c: Config, call: Call)
    requires StateTrace(c)
    ensures StateTrace(Handle(c, call))
  {
    match call
    case Buffer(buf) => BufferKeepsStateTrace(c, buf);
    case _ => ResultKeepsStateTrace(c, call);
  }

  /** Whatever calls are made, the callbacks form a word of the trace language, and the
      last state is the one that the word determines. */
  lemma {:induction false} TraceLanguage(c: Config, calls: seq<Call>)
    requires StateTrace(c)
    ensures StateTrace(Run(c, calls))
    ensures exists n: nat :: TraceWithCore(Run(c, calls).trace, n)
    decreases |calls|
  {
    if |calls| == 0 {
      if c.state != ProtocolError {
        assert c.trace[..|c.trace|] == c.trace;
        assert TraceWithCore(c.trace, |c.trace|);
      }
    } else {
      HandleKeepsStateTrace(c, calls[0]);
      TraceLanguage(Handle(c, calls[0]), calls[1..]);
    }
  }

  // ---------------------------------------------------------------- measure

  function Rank(s: State): nat {
    match s
    case WaitForGreeting => 0
    case WaitForPassAuth => 1
    case WaitForPassAuthResult => 2
    case WaitForCommand => 3
    case WaitForProxyStart => 4
    case ProxyStarted => 5
    case ProxyStartFailed => 5
    case ProtocolError => 6
  }

  /** The rank never decreases, a client buffer raises it unless the machine has already
      failed, and a failed machine stays failed and only reports errors. */
  lemma {:induction false} RankMonotone(c: Config, calls: seq<Call>)
    ensures Rank(c.state) <= Rank(Run(c, calls).state)
    ensures c.trace <= Run(c, calls).trace
    ensures (exists i :: 0 <= i < |calls| && calls[i].Buffer?) && c.state != ProtocolError ==>
              Rank(c.state) < Rank(Run(c, calls).state)
    ensures c.state == ProtocolError ==>
              Run(c, calls).state == ProtocolError
              && Run(c, calls).trace == c.trace + seq(|calls|, i => ErrorReport)
    decreases |calls|
  {
    if |calls| == 0 {
    } else {
      var d := Handle(c, calls[0]);
      RankMonotone(d, calls[1..]);
      assert c.trace <= d.trace;
      if c.state == ProtocolError {
        assert seq(|calls|, i => ErrorReport) == [ErrorReport] + seq(|calls| - 1, i => ErrorReport);
      }
      if exists i :: 0 <= i < |calls| && calls[i].Buffer? {
        var i :| 0 <= i < |calls| && calls[i].Buffer?;
        if i > 0 {
          assert calls[1..][i - 1].Buffer?;
        }
      }
    }
  }

  /** Client buffers that the machine took without failing. */
  function AcceptedBuffers(c: Config, calls: seq<Call>): nat
    decreases |calls|
  {
    if |calls| == 0 then 0
    else
      var d := Handle(c, calls[0]);
      (if calls[0].Buffer? && d.state != ProtocolError then 1 else 0) + AcceptedBuffers(d, calls[1..])
  }

  /** How many more client buffers the handshake can take. */
  function Remaining(s: State): nat {
    match s
    case WaitForGreeting => 3
    case WaitForPassAuth => 2
    case WaitForPassAuthResult => 1
    case WaitForCommand => 1
    case _ => 0
  }

  lemma {:induction false} AtMostThreeBuffers(c: Config, calls: seq<Call>)
    ensures AcceptedBuffers(c, calls) <= Remaining(c.state) <= 3
    ensures Remaining(Run(c, calls).state) + AcceptedBuffers(c, calls) <= Remaining(c.state)
    decreases |calls|
  {
    if |calls| == 0 {
    } else {
      AtMostThreeBuffers(Handle(c, calls[0]), calls[1..]);
    }
  }

  // ---------------------------------------------------------------- fragments

  function Expected(s: State): Option<Wire.Kind> {
    match s
    case WaitForGreeting => Some(Wire.Greeting)
    case WaitForPassAuth => Some(Wire.Credentials)
    case WaitForCommand => Some(Wire.Command)
    case _ => None
  }

  /** The machine does not reassemble: a piece of the expected message, or the message
      with anything after it, is a protocol error. */
  lemma FragmentFails(c: Config, whole: Bytes, piece: Bytes)
    requires Expected(c.state).Some? && Wire.Accepts(Expected(c.state).value, whole)
    requires piece != whole && (piece <= whole || whole <= piece)
    ensures Handle(c, Buffer(piece)) == Fail(c)
  {
    var kind := Expected(c.state).value;
    if Wire.Accepts(kind, piece) {
      if piece <= whole {
        Wire.PrefixFree(kind, piece, whole);
      } else {
        Wire.PrefixFree(kind, whole, piece);
      }
    }
  }

  // ----------------------------------------------- owners that answer in the callback

  /** What an owner answers inside the two request callbacks; `None` leaves it for later. */
  datatype Owner = Owner(
    onRequestPassAuth: (Bytes, Bytes) -> Option<bool>,
    onStartProxy: (Byte, SocksAddress) -> Option<(Byte, SocksAddress)>)

  /** The same call when the owner answers before the callback returns: the state is set
      first, then the callback runs and calls back into the machine. */
  function NestedBuffer(c: Config, buf: Bytes, owner: Owner): Config {
    match c.state
    case WaitForPassAuth => (
      match Wire.DecodeCredentials(buf)
      case None => Fail(c)
      case Some(m) =>
        var entered := c.(state := WaitForPassAuthResult);
        var called := Emit(entered, RequestPassAuth(m.user, m.password));
        match owner.onRequestPassAuth(m.user, m.password)
        case None => called
        case Some(success) => HandlePassAuthResult(called, success))
    case WaitForCommand => (
      match Wire.DecodeCommand(buf)
      case None => Fail(c)
      case Some(m) =>
        var entered := c.(state := WaitForProxyStart);
        var called := Emit(entered, StartProxy(m.command, CommandAddress(m)));
        match owner.onStartProxy(m.command, CommandAddress(m))
        case None => called
        case Some((status, localAddress)) => HandleStartProxyResult(called, status, localAddress))
    case _ => HandleBuffer(c, buf)
  }

  function NestedHandle(c: Config, call: Call, owner: Owner): Config {
    match call
    case Buffer(buf) => NestedBuffer(c, buf, owner)
    case _ => Handle(c, call)
  }

  function NestedRun(c: Config, calls: seq<Call>, owner: Owner): Config
    decreases |calls|
  {
    if |calls| == 0 then c else NestedRun(NestedHandle(c, calls[0], owner), calls[1..], owner)
  }

  /** The call with which an owner that waits until the machine has returned answers the
      callbacks it has seen since `before`. */
  function LateAnswer(before: Config, after: Config, owner: Owner): seq<Call> {
    if |after.trace| <= |before.trace| then []
    else
      match after.trace[|after.trace| - 1]
      case RequestPassAuth(user, password) => (
        match owner.onRequestPassAuth(user, password)
        case None => []
        case Some(success) => [PassAuthResult(success)])
      case StartProxy(command, address) => (
        match owner.onStartProxy(command, address)
        case None => []
        case Some((status, localAddress)) => [StartProxyResult(status, localAddress)])
      case _ => []
  }

  function WithLateAnswers(c: Config, calls: seq<Call>, owner: Owner): seq<Call>
    decreases |calls|
  {
    if |calls| == 0 then []
    else
      var d := Handle(c, calls[0]);
      var answer := LateAnswer(c, d, owner);
      [calls[0]] + (answer + WithLateAnswers(Run(d, answer), calls[1..], owner))
  }

  lemma OneAnswer(before: Config, call: Call, owner: Owner)
    ensures NestedHandle(before, call, owner)
         == Run(Handle(before, call), LateAnswer(before, Handle(before, call), owner))
  {
    var d := Handle(before, call);
    var answer := LateAnswer(before, d, owner);
    if |answer| > 0 {
      assert answer == [answer[0]] && answer[1..] == [];
      assert Run(d, answer) == Run(Handle(d, answer[0]), []) == Handle(d, answer[0]);
    }
  }

  /** Answering inside the callback or with the next call makes no difference: same final
      state, same callbacks in the same order, for every run. */
  lemma {:induction false} SynchronousEqualsDeferred(c: Config, calls: seq<Call>, owner: Owner)
    ensures NestedRun(c, calls, owner) == Run(c, WithLateAnswers(c, calls, owner))
    decreases |calls|
  {
    if |calls| == 0 {
    } else {
      var d := Handle(c, calls[0]);
      var answer := LateAnswer(c, d, owner);
      var e := Run(d, answer);
      OneAnswer(c, calls[0], owner);
      SynchronousEqualsDeferred(e, calls[1..], owner);
      var rest := WithLateAnswers(e, calls[1..], owner);
      RunFirst(c, calls[0], answer + rest);
      RunConcat(d, answer, rest);
    }
  }

  /** On its own the machine does not make a refusal final: it stays in the state in which
      it takes a result, and a second result is accepted. */
  lemma RefusalIsNotFinalHere(c: Config)
    requires c.state == WaitForPassAuthResult
    ensures Run(c, [PassAuthResult(false), PassAuthResult(true)])
         == Config(WaitForCommand, c.trace + [PassAuthResponse(0x01), PassAuthResponse(0x00)])
  {
    var d := Handle(c, PassAuthResult(false));
    assert [PassAuthResult(false), PassAuthResult(true)][1..] == [PassAuthResult(true)];
    assert Run(d, [PassAuthResult(true)]) == Handle(d, PassAuthResult(true));
  }
}
