/** The consumer loop of the signal handler (src/libratel/NQSignals/Private/SignalHandler.cpp:51-69)
    as one thread of the blocking queue: other threads push and may stop the handler while it
    takes, calls and sleeps. */
module HandlerLoop {
  import opened Wrappers
  import opened ConcurrentQueue

  /** Where the loop is. While a signal is called the thread may push further ones itself. */
  datatype Place = AtTest | Taking | Calling | Left

  /** `called` are the signals called so far; the loop is run by thread `me`. */
  datatype Handler<T> = Handler(sys: System<T>, me: nat, runFlag: bool, place: Place, called: seq<T>)

  datatype Event<T> =
    | Queue(a: Action<T>)
    | Test
    | Call
    | CallReturns
    | Stop

  /** What the threads do on the queue: nobody else takes anything, and the thread of the loop
      starts calls of its own only from within a signal. */
  predicate QueueStep<T>(h: Handler<T>, a: Action<T>) {
    Enabled(h.sys, a) && !a.StartPop? && !a.StartTryPop?
    && (a.t == h.me && (a.StartPush? || a.StartEmpty?) ==> h.place == Calling)
  }

  predicate CanHappen<T>(h: Handler<T>, e: Event<T>) {
    h.me < |h.sys.threads| == |h.sys.returned| &&
    match e
    case Queue(a) => QueueStep(h, a)
    case Test => h.place == AtTest && h.sys.threads[h.me].Idle?
    case Call => h.place == Taking && h.sys.threads[h.me].Idle? && h.sys.threads[h.me].last.Popped?
    case CallReturns => h.place == Calling && h.sys.threads[h.me].Idle?
    case Stop => true
  }

  function After<T>(h: Handler<T>, e: Event<T>): Handler<T>
    requires CanHappen(h, e)
  {
    match e
    case Queue(a) => h.(sys := Apply(h.sys, a))
    case Test =>
      if h.runFlag then h.(sys := Apply(h.sys, StartPop(h.me)), place := Taking) else h.(place := Left)
    case Call => h.(called := h.called + [h.sys.threads[h.me].last.value], place := Calling)
    case CallReturns => h.(place := AtTest)
    case Stop => h.(runFlag := false)
  }

  function Begin<T>(n: nat, me: nat): Handler<T> {
    Handler(Init(n), me, true, AtTest, [])
  }

  ghost predicate Happens<T>(h: Handler<T>, es: seq<Event<T>>)
    decreases |es|
  {
    |es| > 0 ==> CanHappen(h, es[0]) && Happens(After(h, es[0]), es[1..])
  }

  ghost function AfterAll<T>(h: Handler<T>, es: seq<Event<T>>): Handler<T>
    requires Happens(h, es)
    decreases |es|
  {
    if |es| == 0 then h else AfterAll(After(h, es[0]), es[1..])
  }

  // ---------------------------------------------------------------- order of the calls

  /** The value that the loop has taken and not called. */
  function InHand<T>(h: Handler<T>): seq<T>
    requires h.me < |h.sys.threads|
  {
    if h.place != Taking then []
    else
      match h.sys.threads[h.me]
      case PopTaken(v) => [v]
      case Idle(Popped(v)) => [v]
      case _ => []
  }

  /** The thread is somewhere in `pop`, or back from it. */
  predicate InPop<T>(p: Thread<T>) {
    p.PopEntering? || p.PopLocked? || p.Waiting? || p.Woken? || p.PopTaken? || (p.Idle? && p.last.Popped?)
  }

  ghost predicate InOrder<T>(h: Handler<T>) {
    h.me < |h.sys.threads| == |h.sys.returned|
    && (forall i: nat :: i < |h.sys.threads| && i != h.me ==> !Pops(h.sys.threads[i]))
    && (if h.place == Taking then InPop(h.sys.threads[h.me]) else !Pops(h.sys.threads[h.me]))
    && Fifo(h.sys) && Values(h.sys.taken) == h.called + InHand(h)
  }

  lemma OthersPushOnly<T>(s: System<T>, a: Action<T>, me: nat)
    requires Enabled(s, a) && |s.returned| == |s.threads| && me < |s.threads|
    requires !a.StartTryPop? && (a.StartPop? ==> a.t == me)
    requires forall i: nat :: i < |s.threads| && i != me ==> !Pops(s.threads[i])
    ensures forall i: nat :: i < |s.threads| && i != me ==> !Pops(Apply(s, a).threads[i])
  {
    ChangedThreads(s, a);
  }

  lemma OthersTakeNothing<T>(h: Handler<T>, a: Action<T>)
    requires InOrder(h) && QueueStep(h, a) && a.t != h.me
    ensures var u := Apply(h.sys, a);
            u.taken == h.sys.taken && InHand(After(h, Queue(a))) == InHand(h)
  {
    ChangedThreads(h.sys, a);
  }

  /** A value that is taken is in hand at once. */
  lemma TakenIsInHand<T>(h: Handler<T>, a: Action<T>)
    requires InOrder(h) && QueueStep(h, a)
    ensures var u := After(h, Queue(a)); Values(u.sys.taken) == u.called + InHand(u)
  {
    var s, u := h.sys, Apply(h.sys, a);
    if a.t != h.me {
      OthersTakeNothing(h, a);
    } else if u.taken != s.taken {
      assert u.taken == s.taken + [(h.me, s.queue[0])];
      assert Values(u.taken) == Values(s.taken) + [s.queue[0]];
    }
  }

  /** The thread of the loop stays in its `pop`, or outside. */
  lemma StaysInPop<T>(h: Handler<T>, a: Action<T>)
    requires InOrder(h) && QueueStep(h, a)
    ensures var p := Apply(h.sys, a).threads[h.me];
            if h.place == Taking then InPop(p) else !Pops(p)
  {
    ChangedThreads(h.sys, a);
  }

  lemma KeepsOrder<T>(h: Handler<T>, e: Event<T>)
    requires InOrder(h) && CanHappen(h, e)
    ensures InOrder(After(h, e))
  {
    match e
    case Queue(a) =>
      OthersPushOnly(h.sys, a, h.me);
      KeepsFifo(h.sys, a);
      StaysInPop(h, a);
      TakenIsInHand(h, a);
    case Test =>
      if h.runFlag {
        OthersPushOnly(h.sys, StartPop(h.me), h.me);
      }
    case _ =>
  }

  lemma {:induction false} StaysInOrder<T>(h: Handler<T>, es: seq<Event<T>>)
    requires InOrder(h) && Happens(h, es)
    ensures InOrder(AfterAll(h, es))
    decreases |es|
  {
    if |es| == 0 {
    } else {
      KeepsOrder(h, es[0]);
      StaysInOrder(After(h, es[0]), es[1..]);
    }
  }

  /** Under any number of concurrent pushers, in every interleaving: what was pushed is what
      has been called, in that order, then the signal in hand, then the queue. */
  lemma CalledInPushOrder<T>(n: nat, me: nat, es: seq<Event<T>>)
    requires me < n && Happens(Begin<T>(n, me), es)
    ensures var h := AfterAll(Begin<T>(n, me), es);
            h.me < |h.sys.threads| && h.sys.pushed == h.called + InHand(h) + h.sys.queue
  {
    StaysInOrder(Begin<T>(n, me), es);
  }

  // ---------------------------------------------------------------- stopping

  lemma {:induction false} StoppedStays<T>(h: Handler<T>, es: seq<Event<T>>)
    requires Happens(h, es) && !h.runFlag
    ensures var u := AfterAll(h, es);
            !u.runFlag && |u.called| <= |h.called| + (if h.place == Taking then 1 else 0)
            && (h.place == Left ==> u.place == Left)
    decreases |es|
  {
    if |es| == 0 {
    } else {
      StoppedStays(After(h, es[0]), es[1..]);
    }
  }

  /** The event neither begins a push nor wakes a sleeper without cause. */
  predicate NoPushBegins<T>(e: Event<T>) {
    e.Queue? ==> !e.a.StartPush? && !e.a.Spurious?
  }

  predicate Pushing<T>(p: Thread<T>) {
    p.PushEntering? || p.PushLocked? || p.PushAppended? || p.PushNotifying?
  }

  /** The loop sleeps in `pop` and no push is under way. */
  ghost predicate FastAsleep<T>(h: Handler<T>) {
    h.me < |h.sys.threads| && h.place == Taking && h.sys.threads[h.me].Waiting?
    && forall i: nat :: i < |h.sys.threads| ==> !Pushing(h.sys.threads[i])
  }

  lemma SleepsOn<T>(h: Handler<T>, e: Event<T>)
    requires FastAsleep(h) && CanHappen(h, e) && NoPushBegins(e)
    ensures FastAsleep(After(h, e))
  {
    if e.Queue? {
      ChangedThreads(h.sys, e.a);
    }
  }

  /** A stop wakes nobody: a loop that sleeps when no push is under way sleeps on, and does
      not leave, until the next push, whoever stops the handler meanwhile. */
  lemma {:induction false} StopWakesNobody<T>(h: Handler<T>, es: seq<Event<T>>)
    requires FastAsleep(h) && Happens(h, es) && forall e <- es :: NoPushBegins(e)
    ensures FastAsleep(AfterAll(h, es)) && AfterAll(h, es).called == h.called
    ensures Stop in es ==> !AfterAll(h, es).runFlag
    decreases |es|
  {
    if |es| == 0 {
    } else {
      assert es[0] in es;
      SleepsOn(h, es[0]);
      StopWakesNobody(After(h, es[0]), es[1..]);
      if es[0] == Stop {
        StoppedStays(After(h, es[0]), es[1..]);
      }
    }
  }

  /** The loop leaves only when it has been stopped. */
  ghost predicate LeftStopped<T>(h: Handler<T>) {
    h.place == Left ==> !h.runFlag
  }

  lemma {:induction false} LeavesOnlyStopped<T>(h: Handler<T>, es: seq<Event<T>>)
    requires LeftStopped(h) && Happens(h, es)
    ensures LeftStopped(AfterAll(h, es))
    ensures h.runFlag && Stop !in es ==> AfterAll(h, es).runFlag
    decreases |es|
  {
    if |es| == 0 {
    } else {
      LeavesOnlyStopped(After(h, es[0]), es[1..]);
    }
  }

  /** In every run from the start that stops nobody the loop is still there. */
  lemma NoStopNoLeaving<T>(n: nat, me: nat, es: seq<Event<T>>)
    requires me < n && Happens(Begin<T>(n, me), es) && Stop !in es
    ensures AfterAll(Begin<T>(n, me), es).place != Left
  {
    LeavesOnlyStopped(Begin<T>(n, me), es);
  }

  /** At the test a stopped loop leaves and calls nothing more; one that goes on takes the
      next signal. */
  lemma TestDecides<T>(h: Handler<T>, es: seq<Event<T>>)
    requires CanHappen(h, Test) && Happens(After(h, Test), es)
    ensures !h.runFlag ==> AfterAll(After(h, Test), es).place == Left && AfterAll(After(h, Test), es).called == h.called
    ensures h.runFlag ==> After(h, Test).place == Taking && After(h, Test).sys.threads[h.me] == PopEntering
  {
    if !h.runFlag {
      LeftIsLeft(After(h, Test), es);
    }
  }

  lemma {:induction false} LeftIsLeft<T>(h: Handler<T>, es: seq<Event<T>>)
    requires h.place == Left && Happens(h, es)
    ensures AfterAll(h, es).place == Left && AfterAll(h, es).called == h.called
    decreases |es|
  {
    if |es| == 0 {
    } else {
      LeftIsLeft(After(h, es[0]), es[1..]);
    }
  }

  // ---------------------------------------------------------------- everything is called

  /** A step of a call under way or of the loop itself; no new push, no stop, no spurious
      wake-up. */
  predicate Progress<T>(e: Event<T>) {
    match e
    case Queue(a) => Internal(a)
    case Stop => false
    case _ => true
  }

  function ToAppend<T>(p: Thread<T>): nat {
    if p.PushEntering? || p.PushLocked? then 1 else 0
  }

  /** The signals pushed, or about to be, that have not been called. */
  function Outstanding<T>(h: Handler<T>): int {
    |h.sys.pushed| + Sum(h.sys.threads, ToAppend) - |h.called|
  }

  function Distance(p: Place): nat {
    match p
    case AtTest => 4
    case Taking => 0
    case Calling => 5
    case Left => 0
  }

  /** How many steps of progress are left at most. */
  function StepsLeft<T>(h: Handler<T>): int {
    6 * Outstanding(h) + Distance(h.place) + Sum(h.sys.threads, Work)
  }

  lemma AppendingSettlesPush<T>(s: System<T>, a: Action<T>)
    requires Enabled(s, a) && |s.returned| == |s.threads| && Internal(a)
    ensures var u := Apply(s, a);
            |u.pushed| + Sum(u.threads, ToAppend) == |s.pushed| + Sum(s.threads, ToAppend)
  {
    SumOfStep(s, a, ToAppend);
  }

  lemma ProgressDecreases<T>(h: Handler<T>, e: Event<T>)
    requires CanHappen(h, e) && Progress(e)
    ensures StepsLeft(After(h, e)) < StepsLeft(h)
  {
    match e
    case Queue(a) =>
      AppendingSettlesPush(h.sys, a);
      InternalStepsFinish(h.sys, a);
    case Test =>
      if h.runFlag {
        SumOfStep(h.sys, StartPop(h.me), ToAppend);
        SumOfStep(h.sys, StartPop(h.me), Work);
      }
    case _ =>
  }

  ghost predicate Sound<T>(h: Handler<T>) {
    InOrder(h) && Inv(h.sys)
  }

  lemma StaysSound<T>(h: Handler<T>, e: Event<T>)
    requires Sound(h) && CanHappen(h, e)
    ensures Sound(After(h, e))
  {
    KeepsOrder(h, e);
    match e
    case Queue(a) => OneStepSafe(h.sys, a);
    case Test =>
      if h.runFlag {
        OneStepSafe(h.sys, StartPop(h.me));
      }
    case _ =>
  }

  /** Every signal pushed has been called, and the loop sleeps until there are more. */
  ghost predicate AllCalled<T>(h: Handler<T>)
    requires h.me < |h.sys.threads|
  {
    h.called == h.sys.pushed && h.sys.queue == [] && h.place == Taking && h.sys.threads[h.me].Waiting?
  }

  ghost predicate Quiet<T>(threads: seq<Thread<T>>) {
    forall i :: 0 <= i < |threads| ==> threads[i].Idle? || threads[i].Waiting?
  }

  /** A loop asleep among idle threads has called everything. */
  lemma AsleepMeansCalled<T>(h: Handler<T>)
    requires Sound(h) && Quiet(h.sys.threads) && h.place == Taking && h.sys.threads[h.me].Waiting?
    ensures AllCalled(h)
  {
    SumZero(h.sys.threads, Credit);
    assert SomeWaiting(h.sys.threads);
    assert Values(h.sys.taken) + [] == Values(h.sys.taken) && h.called + [] == h.called;
  }

  /** Unless the loop has left or has called everything, some step of progress can happen. */
  lemma ProgressIsPossible<T>(h: Handler<T>) returns (e: Event<T>)
    requires Sound(h) && h.place != Left && !AllCalled(h)
    ensures CanHappen(h, e) && Progress(e)
  {
    if Quiet(h.sys.threads) {
      if h.place == Taking && h.sys.threads[h.me].Waiting? {
        AsleepMeansCalled(h);
      }
      e := if h.place == AtTest then Test else if h.place == Calling then CallReturns else Call;
    } else {
      var i :| 0 <= i < |h.sys.threads| && !h.sys.threads[i].Idle? && !h.sys.threads[i].Waiting?;
      var a := SomeoneCanMove(h.sys, i);
      e := Queue(a);
    }
  }

  lemma CalledWerePushed<T>(h: Handler<T>)
    requires Sound(h)
    ensures Outstanding(h) >= 0 && StepsLeft(h) >= 0
  {
    assert |h.sys.pushed| == |h.called| + |InHand(h)| + |h.sys.queue|;
  }

  /** Whatever the schedule, progress comes to an end after at most `StepsLeft` steps; and
      where it does, all is called or the loop has left (`ProgressIsPossible`). */
  lemma {:induction false} ProgressIsBounded<T>(h: Handler<T>, es: seq<Event<T>>)
    requires Sound(h) && Happens(h, es) && forall e <- es :: Progress(e)
    ensures |es| <= StepsLeft(h)
    decreases |es|
  {
    CalledWerePushed(h);
    if |es| == 0 {
    } else {
      assert es[0] in es;
      ProgressDecreases(h, es[0]);
      StaysSound(h, es[0]);
      ProgressIsBounded(After(h, es[0]), es[1..]);
    }
  }

  lemma {:induction false} AllGetsCalled<T>(h: Handler<T>) returns (es: seq<Event<T>>)
    requires Sound(h) && LeftStopped(h) && h.runFlag
    ensures Happens(h, es) && forall e <- es :: Progress(e)
    ensures var u := AfterAll(h, es); u.me < |u.sys.threads| && AllCalled(u)
    decreases StepsLeft(h)
  {
    if AllCalled(h) {
      return [];
    }
    var e := ProgressIsPossible(h);
    ProgressDecreases(h, e);
    StaysSound(h, e);
    CalledWerePushed(h);
    var rest := AllGetsCalled(After(h, e));
    es := [e] + rest;
    assert es[1..] == rest;
  }

  lemma {:induction false} RunStaysSound<T>(h: Handler<T>, es: seq<Event<T>>)
    requires Sound(h) && Happens(h, es)
    ensures Sound(AfterAll(h, es))
    decreases |es|
  {
    if |es| == 0 {
    } else {
      StaysSound(h, es[0]);
      RunStaysSound(After(h, es[0]), es[1..]);
    }
  }

  /** No signal is forgotten: after any run from the start that stops nobody, progress can be
      made until all that was pushed has been called. */
  lemma NoSignalIsForgotten<T>(n: nat, me: nat, es: seq<Event<T>>) returns (more: seq<Event<T>>)
    requires me < n && Happens(Begin<T>(n, me), es) && Stop !in es
    ensures var h := AfterAll(Begin<T>(n, me), es);
            Happens(h, more) && (forall e <- more :: Progress(e))
            && var u := AfterAll(h, more); u.me < |u.sys.threads| && AllCalled(u)
  {
    var start := Begin<T>(n, me);
    InitInv<T>(n);
    RunStaysSound(start, es);
    LeavesOnlyStopped(start, es);
    more := AllGetsCalled(AfterAll(start, es));
  }
}
