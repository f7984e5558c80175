/** The consumer loop of the signal queue (src/libratel/NQSignals/Private/SignalHandler.cpp),
    run by one thread; what other threads may do to the queue meanwhile is in ConcurrentQueue. */
module SignalHandler {
  import opened Wrappers

  /** Calling a signal may emit further signals and may stop the handler; both are known in
      advance here, so every chain of emissions is finite. */
  datatype Signal = Signal(id: nat, stops: bool, emits: seq<Signal>)

  /** `ISignalStorage *`; `None` is null. */
  type Pointer = Option<Signal>

  datatype Error = NoError | EmptySignal

  /** `Blocked` is the call that sleeps in `pop` and does not return by itself. `Terminated`
      is the end of the program that assigning to a joinable `std::thread` means. */
  datatype Outcome = Returned(code: int) | Blocked | Terminated

  function Code(e: Error): int {
    match e case NoError => 0 case EmptySignal => 1
  }

  /** `push` creates the object whose address it enqueues. */
  function Pushed(sigs: seq<Signal>): seq<Pointer> {
    seq(|sigs|, i requires 0 <= i < |sigs| => Some(sigs[i]))
  }

  function Emits(s: Pointer): seq<Pointer> {
    match s case None => [] case Some(sig) => Pushed(sig.emits)
  }

  function Stops(s: Pointer): bool {
    s.Some? && s.value.stops
  }

  predicate StopsAny(q: seq<Pointer>) {
    exists s <- q :: Stops(s)
  }

  predicate NoNulls(q: seq<Pointer>) {
    forall s <- q :: s.Some?
  }

  // ---------------------------------------------------------------- order of execution

  function SizeOf(sigs: seq<Signal>): nat
    decreases sigs
  {
    if |sigs| == 0 then 0 else 1 + SizeOf(sigs[0].emits) + SizeOf(sigs[1..])
  }

  function Size(q: seq<Pointer>): nat {
    if |q| == 0 then 0 else 1 + (match q[0] case None => 0 case Some(s) => SizeOf(s.emits)) + Size(q[1..])
  }

  lemma {:induction false} SizeOfPushed(sigs: seq<Signal>)
    ensures Size(Pushed(sigs)) == SizeOf(sigs)
  {
    if |sigs| == 0 {
    } else {
      assert Pushed(sigs)[1..] == Pushed(sigs[1..]);
      SizeOfPushed(sigs[1..]);
    }
  }

  lemma SizeOfNext(q: seq<Pointer>)
    requires |q| > 0
    ensures Size(Next(q)) + 1 == Size(q)
  {
    SizeOfConcat(q[1..], Emits(q[0]));
    if q[0].Some? {
      SizeOfPushed(q[0].value.emits);
    }
  }

  lemma {:induction false} SizeOfConcat(a: seq<Pointer>, b: seq<Pointer>)
    ensures Size(a + b) == Size(a) + Size(b)
  {
    if |a| == 0 {
      assert a + b == b;
    } else {
      SizeOfConcat(a[1..], b);
      assert (a + b)[0] == a[0] && (a + b)[1..] == a[1..] + b;
    }
  }

  /** First come, first served: what a signal emits goes to the back of the queue. */
  function Served(q: seq<Pointer>): seq<Pointer>
    decreases Size(q)
  {
    if |q| == 0 then []
    else
      SizeOfNext(q);
      [q[0]] + Served(Next(q))
  }

  /** Everything emitted by the signals of `q`, in their order. */
  function Emitted(q: seq<Pointer>): seq<Pointer> {
    if |q| == 0 then [] else Emits(q[0]) + Emitted(q[1..])
  }

  lemma {:induction false} SizeOfEmitted(q: seq<Pointer>)
    ensures Size(Emitted(q)) + |q| == Size(q)
  {
    if |q| == 0 {
    } else {
      SizeOfEmitted(q[1..]);
      SizeOfConcat(Emits(q[0]), Emitted(q[1..]));
      if q[0].Some? {
        SizeOfPushed(q[0].value.emits);
      }
    }
  }

  /** Generation after generation: the waiting signals, then all that these emitted, and so on. */
  function Generations(q: seq<Pointer>): seq<Pointer>
    decreases Size(q)
  {
    if |q| == 0 then [] else
      SizeOfEmitted(q);
      q + Generations(Emitted(q))
  }

  lemma Regroup<T>(a: seq<T>, b: seq<T>, c: seq<T>)
    ensures a + (b + c) == (a + b) + c
  {
  }

  lemma ServedHead(s: Pointer, q: seq<Pointer>)
    ensures Served([s] + q) == [s] + Served(q + Emits(s))
  {
    assert ([s] + q)[1..] == q;
  }

  lemma {:induction false} ServedInTurn(a: seq<Pointer>, b: seq<Pointer>)
    ensures Served(a + b) == a + Served(b + Emitted(a))
  {
    if |a| == 0 {
      assert a + b == b && b + Emitted(a) == b;
    } else {
      var s, rest := a[0], a[1..];
      assert a == [s] + rest;
      Regroup([s], rest, b);
      ServedHead(s, rest + b);
      Regroup(rest, b, Emits(s));
      ServedInTurn(rest, b + Emits(s));
      Regroup(b, Emits(s), Emitted(rest));
      Regroup([s], rest, Served(b + Emitted(a)));
    }
  }

  /** The queue discipline runs the signals generation by generation. */
  lemma {:induction false} ServedByGenerations(q: seq<Pointer>)
    ensures Served(q) == Generations(q)
    decreases Size(q)
  {
    if |q| == 0 {
    } else {
      SizeOfEmitted(q);
      ServedByGenerations(Emitted(q));
      ServedInTurn(q, []);
      assert q + [] == q && [] + Emitted(q) == Emitted(q);
    }
  }

  function Called(q: seq<Pointer>): seq<nat> {
    if |q| == 0 then [] else Name(q[0]) + Called(q[1..])
  }

  function Name(s: Pointer): seq<nat> {
    match s case None => [] case Some(sig) => [sig.id]
  }

  lemma {:induction false} CalledOneMore(a: seq<Pointer>, s: Pointer)
    ensures Called(a + [s]) == Called(a) + Name(s)
  {
    if |a| == 0 {
    } else {
      CalledOneMore(a[1..], s);
      assert (a + [s])[0] == a[0] && (a + [s])[1..] == a[1..] + [s];
      Regroup(Name(a[0]), Called(a[1..]), Name(s));
    }
  }

  lemma Appending(a: seq<nat>, b: seq<nat>, c: seq<nat>)
    ensures (a + b) + c == a + (b + c) && (a + b) + [] == a + b
  {
    Regroup(a, b, c);
  }

  /** How many signals the loop takes from those in line before it ends or sleeps: up to and
      with the first that stops the handler, up to the first null one, or all. */
  function Taken(line: seq<Pointer>): (n: nat)
    ensures n <= |line|
    ensures forall i :: 0 <= i < n ==> line[i].Some? && (Stops(line[i]) ==> i == n - 1)
    ensures n < |line| ==> line[n].None? || (n > 0 && Stops(line[n - 1]))
  {
    if |line| == 0 || line[0].None? then 0
    else if Stops(line[0]) then 1
    else 1 + Taken(line[1..])
  }

  predicate Ordinary(q: seq<Pointer>) {
    forall s <- q :: s.Some? && !Stops(s)
  }

  lemma {:induction false} TakesOrdinaryFirst(done: seq<Pointer>, rest: seq<Pointer>)
    requires Ordinary(done)
    ensures Taken(done + rest) == |done| + Taken(rest)
  {
    if |done| == 0 {
      assert done + rest == rest;
    } else {
      assert done[0] in done && Ordinary(done[1..]);
      assert (done + rest)[0] == done[0] && (done + rest)[1..] == done[1..] + rest;
      TakesOrdinaryFirst(done[1..], rest);
    }
  }

  function Next(q: seq<Pointer>): seq<Pointer>
    requires |q| > 0
  {
    q[1..] + Emits(q[0])
  }

  /** One signal is taken from the front and called. */
  lemma OneRound(done: seq<Pointer>, q: seq<Pointer>)
    requires |q| > 0
    ensures done + Served(q) == (done + [q[0]]) + Served(Next(q))
    ensures Size(Next(q)) < Size(q)
    ensures Called(done + [q[0]]) == Called(done) + Name(q[0])
  {
    SizeOfNext(q);
    assert Served(q) == [q[0]] + Served(Next(q));
    Regroup(done, [q[0]], Served(Next(q)));
    CalledOneMore(done, q[0]);
  }

  /** `line` was in line when the loop began; it has called `done` and goes on. */
  ghost predicate GoesOn(line: seq<Pointer>, done: seq<Pointer>, q: seq<Pointer>) {
    line == done + Served(q) && Ordinary(done)
  }

  /** The last signal it called stopped it. */
  ghost predicate WasStopped(line: seq<Pointer>, done: seq<Pointer>, q: seq<Pointer>) {
    line == done + Generations(q) && |done| == Taken(line) && |done| > 0 && Stops(done[|done| - 1])
  }

  /** It took a null signal, not one of `done`. */
  ghost predicate MetNull(line: seq<Pointer>, done: seq<Pointer>, q: seq<Pointer>) {
    line == done + ([None] + Generations(q)) && |done| == Taken(line) && Ordinary(done)
  }

  /** It has called all there was and waits for more. */
  ghost predicate Drained(line: seq<Pointer>, done: seq<Pointer>, q: seq<Pointer>) {
    q == [] && line == done && |done| == Taken(line) && Ordinary(done)
  }

  lemma RoundDecides(line: seq<Pointer>, done: seq<Pointer>, q: seq<Pointer>)
    requires GoesOn(line, done, q)
    ensures if |q| == 0 then Drained(line, done, q)
            else if q[0].None? then MetNull(line, done, Next(q))
            else if Stops(q[0]) then WasStopped(line, done + [q[0]], Next(q))
            else GoesOn(line, done + [q[0]], Next(q))
    ensures |q| > 0 ==> Size(Next(q)) < Size(q) && Called(done + [q[0]]) == Called(done) + Name(q[0])
  {
    TakesOrdinaryFirst(done, Served(q));
    if |q| == 0 {
      assert done + [] == done;
    } else {
      OneRound(done, q);
      ServedByGenerations(Next(q));
      assert (done + [q[0]]) + Served(Next(q)) == done + ([q[0]] + Served(Next(q)));
    }
  }

  // ---------------------------------------------------------------- plain signals

  /** The signals of the next generation. */
  function Children(sigs: seq<Signal>): seq<Signal> {
    if |sigs| == 0 then [] else sigs[0].emits + Children(sigs[1..])
  }

  lemma {:induction false} SizeOfChildren(sigs: seq<Signal>)
    ensures SizeOf(Children(sigs)) + |sigs| == SizeOf(sigs)
  {
    if |sigs| == 0 {
    } else {
      SizeOfChildren(sigs[1..]);
      SizeOfSum(sigs[0].emits, Children(sigs[1..]));
    }
  }

  lemma {:induction false} SizeOfSum(a: seq<Signal>, b: seq<Signal>)
    ensures SizeOf(a + b) == SizeOf(a) + SizeOf(b)
  {
    if |a| == 0 {
      assert a + b == b;
    } else {
      assert (a + b)[0] == a[0] && (a + b)[1..] == a[1..] + b;
      SizeOfSum(a[1..], b);
    }
  }

  function Ids(sigs: seq<Signal>): seq<nat> {
    seq(|sigs|, i requires 0 <= i < |sigs| => sigs[i].id)
  }

  /** The ids, level by level. */
  function Levels(sigs: seq<Signal>): seq<nat>
    decreases SizeOf(sigs)
  {
    if |sigs| == 0 then []
    else
      SizeOfChildren(sigs);
      Ids(sigs) + Levels(Children(sigs))
  }

  lemma {:induction false} CalledIds(sigs: seq<Signal>)
    ensures Called(Pushed(sigs)) == Ids(sigs)
  {
    if |sigs| == 0 {
    } else {
      assert Pushed(sigs)[1..] == Pushed(sigs[1..]);
      CalledIds(sigs[1..]);
      assert Ids(sigs) == [sigs[0].id] + Ids(sigs[1..]);
    }
  }

  lemma {:induction false} EmittedChildren(sigs: seq<Signal>)
    ensures Emitted(Pushed(sigs)) == Pushed(Children(sigs))
  {
    if |sigs| == 0 {
    } else {
      assert Pushed(sigs)[1..] == Pushed(sigs[1..]);
      EmittedChildren(sigs[1..]);
      assert Pushed(sigs[0].emits + Children(sigs[1..])) == Pushed(sigs[0].emits) + Pushed(Children(sigs[1..]));
    }
  }

  lemma {:induction false} CalledSum(a: seq<Pointer>, b: seq<Pointer>)
    ensures Called(a + b) == Called(a) + Called(b)
  {
    if |a| == 0 {
      assert a + b == b;
    } else {
      assert (a + b)[0] == a[0] && (a + b)[1..] == a[1..] + b;
      CalledSum(a[1..], b);
      Regroup(Name(a[0]), Called(a[1..]), Called(b));
    }
  }

  /** Pushed signals are called level by level, each once. */
  lemma {:induction false} CalledByLevels(sigs: seq<Signal>)
    ensures Called(Generations(Pushed(sigs))) == Levels(sigs)
    decreases SizeOf(sigs)
  {
    if |sigs| == 0 {
    } else {
      SizeOfChildren(sigs);
      EmittedChildren(sigs);
      CalledByLevels(Children(sigs));
      CalledIds(sigs);
      CalledSum(Pushed(sigs), Generations(Pushed(Children(sigs))));
    }
  }

  /** The loop takes pushed signals up to and with the first that stops it. */
  lemma TakenPushed(sigs: seq<Signal>)
    ensures var n := Taken(Pushed(sigs));
            n <= |sigs| && (forall i :: 0 <= i && i + 1 < n ==> !sigs[i].stops)
            && (n < |sigs| ==> n > 0 && sigs[n - 1].stops)
  {
    var n := Taken(Pushed(sigs));
    forall i | 0 <= i && i + 1 < n
      ensures !sigs[i].stops
    {
      assert Pushed(sigs)[i] == Some(sigs[i]);
    }
  }

  lemma NextHasNoNulls(q: seq<Pointer>)
    requires |q| > 0 && NoNulls(q)
    ensures q[0].Some? && NoNulls(Next(q))
  {
    assert forall s <- Next(q) :: s in q[1..] || s in Emits(q[0]);
  }

  // ---------------------------------------------------------------- the handler

  class SignalHandler {
    var runFlag: bool
    var error: Error
    var queue: seq<Pointer>

    /** `_thread` has been started; nothing ever joins it. */
    var joinable: bool

    ghost var called: seq<nat>

    constructor ()
      ensures !runFlag && error == NoError && queue == [] && !joinable && called == []
      ensures Fed()
    {
      runFlag, error, queue, joinable, called := false, NoError, [], false, [];
    }

    /** No error, and nothing but what `Push` enqueues is waiting. */
    ghost predicate Fed()
      reads this
    {
      error == NoError && NoNulls(queue)
    }

    method Push(s: Signal)
      modifies this`queue
      ensures queue == old(queue) + [Some(s)]
      ensures old(Fed()) ==> Fed()
    {
      queue := queue + [Some(s)];
    }

    method Stop()
      modifies this`runFlag
      ensures !runFlag
    {
      runFlag := false;
    }

    method GetError() returns (e: Error)
      ensures e == error
    {
      return error;
    }

    method ExecuteSignal(s: Pointer)
      modifies this`runFlag, this`queue, this`called
      ensures queue == old(queue) + Emits(s) && runFlag == (old(runFlag) && !Stops(s))
      ensures called == old(called) + Name(s)
      ensures match s
              case None => queue == old(queue) && runFlag == old(runFlag) && called == old(called)
              case Some(sig) =>
                |queue| == |old(queue)| + |sig.emits| && old(queue) <= queue
                && (forall i :: 0 <= i < |sig.emits| ==> queue[|old(queue)| + i] == Some(sig.emits[i]))
                && runFlag == (old(runFlag) && !sig.stops) && called == old(called) + [sig.id]
    {
      if s.None? {
        assert old(queue) + Emits(s) == queue && old(called) + Name(s) == called;
        return;
      }
      var sig := s.value;
      called := called + [sig.id];
      var i := 0;
      while i < |sig.emits|
        invariant 0 <= i <= |sig.emits| && queue == old(queue) + Emits(s)[..i]
        invariant runFlag == old(runFlag) && called == old(called) + [sig.id]
      {
        Push(sig.emits[i]);
        assert Emits(s)[..i] + [Some(sig.emits[i])] == Emits(s)[..i + 1];
        i := i + 1;
      }
      assert Emits(s)[..i] == Emits(s);
      if sig.stops {
        Stop();
      }
    }

    /** The result is `false` when the loop must end. */
    method CheckQueue() returns (ok: bool)
      requires |queue| > 0
      modifies this`runFlag, this`error, this`queue, this`called
      ensures ok == old(queue)[0].Some?
      ensures error == (if ok then old(error) else EmptySignal)
      ensures queue == Next(old(queue))
      ensures runFlag == (old(runFlag) && !Stops(old(queue)[0]))
      ensures called == old(called) + Name(old(queue)[0])
    {
      var sig := queue[0];
      queue := queue[1..];
      if sig.None? {
        error := EmptySignal;
        return false;
      }
      ExecuteSignal(sig);
      return true;
    }

    /** Drains the queue, what its signals emit included; null signals are skipped, a stop does
        not end it, and the error reported is one left by an earlier run. */
    method RunOnce() returns (code: int)
      modifies this`runFlag, this`queue, this`called
      ensures queue == [] && code == Code(error)
      ensures old(Fed()) ==> Fed() && code == 0
      ensures runFlag == (old(runFlag) && !StopsAny(Generations(old(queue))))
      ensures called == old(called) + Called(Generations(old(queue)))
    {
      ghost var all := Served(queue);
      ghost var done: seq<Pointer> := [];
      while |queue| > 0
        invariant all == done + Served(queue) && called == old(called) + Called(done)
        invariant runFlag == (old(runFlag) && !StopsAny(done))
        decreases Size(queue)
      {
        OneRound(done, queue);
        Appending(old(called), Called(done), Name(queue[0]));
        var sig := queue[0];
        queue := queue[1..];
        ExecuteSignal(sig);
        done := done + [sig];
      }
      assert all == done;
      ServedByGenerations(old(queue));
      code := Code(error);
    }

    /** The loop calls signals in the order of `Generations`; `done` are those it called. It
        is also what the thread that `run` starts executes. */
    method RunLoop() returns (outcome: Outcome, ghost done: seq<Pointer>)
      modifies this`runFlag, this`error, this`queue, this`called
      ensures called == old(called) + Called(done)
      ensures !old(runFlag) ==> !runFlag && error == old(error) && queue == old(queue) && done == []
      ensures old(runFlag) ==> Ends(Generations(old(queue)), done, old(error), outcome)
      ensures !runFlag ==> outcome == Returned(Code(error)) && error == old(error)
      ensures old(Fed()) ==> Fed() && outcome != Returned(1)
    {
      ghost var line := Served(queue);
      ServedByGenerations(queue);
      done := [];
      while runFlag
        invariant called == old(called) + Called(done) && error == old(error)
        invariant runFlag ==> old(runFlag) && GoesOn(line, done, queue)
        invariant !runFlag && old(runFlag) ==> WasStopped(line, done, queue)
        invariant !old(runFlag) ==> done == [] && queue == old(queue)
        invariant old(Fed()) ==> Fed()
        decreases Size(queue), runFlag
      {
        RoundDecides(line, done, queue);
        if |queue| == 0 {
          return Blocked, done;
        }
        ghost var sig := queue[0];
        if NoNulls(queue) {
          NextHasNoNulls(queue);
        }
        Appending(old(called), Called(done), Name(sig));
        var ok := CheckQueue();
        if !ok {
          break;
        }
        done := done + [sig];
      }
      outcome := Returned(Code(error));
    }

    /** The three ways a loop that began ends; `before` is the error it began with. */
    ghost predicate Ends(line: seq<Pointer>, done: seq<Pointer>, before: Error, outcome: Outcome)
      reads this
    {
      if !runFlag then outcome == Returned(Code(before)) && error == before && WasStopped(line, done, queue)
      else if outcome == Blocked then error == before && Drained(line, done, queue)
      else outcome == Returned(1) && error == EmptySignal && MetNull(line, done, queue)
    }

    /** A handler whose loop ended on a null signal still counts as running: it refuses to run
        again until it is stopped. A second run in a new thread terminates the program. Fed by
        `Push` alone the loop never meets a null signal, and 1 means that it runs already. */
    method Run(inNewThread: bool) returns (outcome: Outcome, ghost done: seq<Pointer>)
      modifies this
      ensures called == old(called) + Called(done)
      ensures old(runFlag) ==>
                outcome == Returned(1) && error == old(error) && queue == old(queue) && done == [] && runFlag
                && joinable == old(joinable)
      ensures !old(runFlag) && !inNewThread ==>
                Ends(Generations(old(queue)), done, old(error), outcome) && joinable == old(joinable)
      ensures !old(runFlag) && inNewThread ==>
                outcome == (if old(joinable) then Terminated else Returned(0)) && joinable && runFlag
                && error == old(error) && queue == old(queue) && done == []
      ensures old(Fed()) ==> Fed() && (outcome == Returned(1) ==> old(runFlag))
    {
      if runFlag {
        return Returned(1), [];
      }
      runFlag := true;
      if inNewThread {
        if joinable {
          return Terminated, [];
        }
        joinable := true;
        return Returned(0), [];
      } else {
        outcome, done := RunLoop();
      }
    }
  }
}
