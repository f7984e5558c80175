/** The blocking queue (src/libratel/ConcurrentQueue.h) as a step system over any number
    of threads: the mutex, the condition variable with spurious wake-ups, and
    `notify_one` after the mutex has been released. */
module ConcurrentQueue {
  import opened Wrappers

  /** What the last finished call returned. */
  datatype Return<T> = Nothing | Pushed | Popped(value: T) | TryPopped(result: Option<T>) | IsEmpty(flag: bool)

  /** Where a thread is. `...Entering` has called and waits for the mutex; `...Locked`
      holds it before the critical section, the state after it holds it until unlock. */
  datatype Thread<T> =
    | Idle(last: Return<T>)
    | PushEntering(value: T)
    | PushLocked(value: T)
    | PushAppended
    | PushNotifying
    | PopEntering
    | PopLocked(woken: bool)
    | Waiting
    | Woken
    | PopTaken(value: T)
    | TryEntering
    | TryLocked
    | TryDone(result: Option<T>)
    | EmptyEntering
    | EmptyLocked
    | EmptyDone(flag: bool)

  /** `pushed`, `taken` and `returned` are histories: values in append order, removals in
      order with the removing thread, and the values each thread's calls have returned. */
  datatype System<T> = System(
    queue: seq<T>,
    mutex: Option<nat>,
    threads: seq<Thread<T>>,
    pushed: seq<T>,
    taken: seq<(nat, T)>,
    returned: seq<seq<T>>)

  datatype Action<T> =
    | StartPush(t: nat, value: T)
    | StartPop(t: nat)
    | StartTryPop(t: nat)
    | StartEmpty(t: nat)
    | Lock(t: nat)
    | Critical(t: nat)
    | Unlock(t: nat)
    | Notify(t: nat, waiter: Option<nat>)
    | Spurious(t: nat)

  predicate Enters<T>(p: Thread<T>) {
    p.PushEntering? || p.PopEntering? || p.Woken? || p.TryEntering? || p.EmptyEntering?
  }

  predicate BeforeCritical<T>(p: Thread<T>) {
    p.PushLocked? || p.PopLocked? || p.TryLocked? || p.EmptyLocked?
  }

  predicate AfterCritical<T>(p: Thread<T>) {
    p.PushAppended? || p.PopTaken? || p.TryDone? || p.EmptyDone?
  }

  predicate Holds<T>(p: Thread<T>) {
    BeforeCritical(p) || AfterCritical(p)
  }

  predicate SomeWaiting<T>(threads: seq<Thread<T>>) {
    exists i :: 0 <= i < |threads| && threads[i].Waiting?
  }

  predicate Enabled<T>(s: System<T>, a: Action<T>) {
    a.t < |s.threads| &&
    var p := s.threads[a.t];
    match a
    case StartPush(_, _) => p.Idle?
    case StartPop(_) => p.Idle?
    case StartTryPop(_) => p.Idle?
    case StartEmpty(_) => p.Idle?
    case Lock(_) => Enters(p) && s.mutex.None?
    case Critical(_) => BeforeCritical(p)
    case Unlock(_) => AfterCritical(p)
    case Notify(_, waiter) =>
      p.PushNotifying? &&
      (match waiter
       case None => !SomeWaiting(s.threads)
       case Some(w) => w < |s.threads| && s.threads[w].Waiting?)
    case Spurious(_) => p.Waiting?
  }

  function Move<T>(s: System<T>, t: nat, p: Thread<T>): System<T>
    requires t < |s.threads|
  {
    s.(threads := s.threads[t := p])
  }

  function Take<T>(s: System<T>, t: nat): System<T>
    requires s.queue != []
  {
    s.(queue := s.queue[1..], taken := s.taken + [(t, s.queue[0])])
  }

  function GiveBack<T>(s: System<T>, t: nat, values: seq<T>): System<T>
    requires t < |s.returned|
  {
    s.(returned := s.returned[t := s.returned[t] + values])
  }

  function Locked<T>(p: Thread<T>): Thread<T>
    requires Enters(p)
  {
    match p
    case PushEntering(v) => PushLocked(v)
    case PopEntering => PopLocked(false)
    case Woken => PopLocked(true)
    case TryEntering => TryLocked
    case EmptyEntering => EmptyLocked
  }

  function InCritical<T>(s: System<T>, t: nat): System<T>
    requires t < |s.threads| && BeforeCritical(s.threads[t])
  {
    match s.threads[t]
    case PushLocked(v) =>
      Move(s.(queue := s.queue + [v], pushed := s.pushed + [v]), t, PushAppended)
    case PopLocked(_) =>
      if s.queue == [] then Move(s.(mutex := None), t, Waiting)
      else Move(Take(s, t), t, PopTaken(s.queue[0]))
    case TryLocked =>
      if s.queue == [] then Move(s, t, TryDone(None))
      else Move(Take(s, t), t, TryDone(Some(s.queue[0])))
    case EmptyLocked =>
      Move(s, t, EmptyDone(s.queue == []))
  }

  function Unlocked<T>(s: System<T>, t: nat): System<T>
    requires t < |s.threads| == |s.returned| && AfterCritical(s.threads[t])
  {
    var u := s.(mutex := None);
    match s.threads[t]
    case PushAppended => Move(u, t, PushNotifying)
    case PopTaken(v) => GiveBack(Move(u, t, Idle(Popped(v))), t, [v])
    case TryDone(r) =>
      GiveBack(Move(u, t, Idle(TryPopped(r))), t, match r case None => [] case Some(v) => [v])
    case EmptyDone(b) => Move(u, t, Idle(IsEmpty(b)))
  }

  function Apply<T>(s: System<T>, a: Action<T>): System<T>
    requires Enabled(s, a) && |s.returned| == |s.threads|
  {
    match a
    case StartPush(t, v) => Move(s, t, PushEntering(v))
    case StartPop(t) => Move(s, t, PopEntering)
    case StartTryPop(t) => Move(s, t, TryEntering)
    case StartEmpty(t) => Move(s, t, EmptyEntering)
    case Lock(t) => Move(s.(mutex := Some(t)), t, Locked(s.threads[t]))
    case Critical(t) => InCritical(s, t)
    case Unlock(t) => Unlocked(s, t)
    case Notify(t, waiter) => (
      var u := Move(s, t, Idle(Pushed));
      match waiter
      case None => u
      case Some(w) => Move(u, w, Woken))
    case Spurious(t) => Move(s, t, Woken)
  }

  function Init<T>(n: nat): System<T> {
    System([], None, seq(n, i => Idle(Nothing)), [], [], seq(n, i => []))
  }

  // ---------------------------------------------------------------- counting

  function Sum<T>(threads: seq<Thread<T>>, weight: Thread<T> -> nat): nat {
    if |threads| == 0 then 0 else weight(threads[0]) + Sum(threads[1..], weight)
  }

  lemma {:induction false} SumUpdate<T>(threads: seq<Thread<T>>, weight: Thread<T> -> nat,
                                        t: nat, p: Thread<T>)
    requires t < |threads|
    ensures Sum(threads[t := p], weight) == Sum(threads, weight) - weight(threads[t]) + weight(p)
    ensures weight(threads[t]) <= Sum(threads, weight)
  {
    if t == 0 {
      assert threads[t := p][1..] == threads[1..];
    } else {
      SumUpdate(threads[1..], weight, t - 1, p);
      assert threads[t := p][1..] == threads[1..][t - 1 := p];
    }
  }

  lemma {:induction false} SumPositive<T>(threads: seq<Thread<T>>, weight: Thread<T> -> nat)
    requires Sum(threads, weight) > 0
    ensures exists i :: 0 <= i < |threads| && weight(threads[i]) > 0
  {
    if weight(threads[0]) == 0 {
      SumPositive(threads[1..], weight);
      var i :| 0 <= i < |threads[1..]| && weight(threads[1..][i]) > 0;
      assert weight(threads[i + 1]) > 0;
    }
  }

  lemma {:induction false} SumZero<T>(threads: seq<Thread<T>>, weight: Thread<T> -> nat)
    requires forall i :: 0 <= i < |threads| ==> weight(threads[i]) == 0
    ensures Sum(threads, weight) == 0
  {
    if |threads| == 0 {
    } else {
      SumZero(threads[1..], weight);
    }
  }

  // ---------------------------------------------------------------- safety

  /** A thread that is bound to look at the queue, or to wake one that will: a popper that
      was woken and has not rechecked, or a pusher that appended and has not notified. */
  function Credit<T>(p: Thread<T>): nat {
    if p.Woken? || p == PopLocked(true) || p.PushAppended? || p.PushNotifying? then 1 else 0
  }

  function Values<T>(taken: seq<(nat, T)>): seq<T> {
    seq(|taken|, i requires 0 <= i < |taken| => taken[i].1)
  }

  function TakenBy<T>(taken: seq<(nat, T)>, t: nat): seq<T> {
    if |taken| == 0 then []
    else
      var last := taken[|taken| - 1];
      TakenBy(taken[..|taken| - 1], t) + if last.0 == t then [last.1] else []
  }

  /** The value a thread has removed and is about to return. */
  function Carried<T>(p: Thread<T>): seq<T> {
    match p
    case PopTaken(v) => [v]
    case TryDone(Some(v)) => [v]
    case _ => []
  }

  ghost predicate MutualExclusion<T>(s: System<T>) {
    (s.mutex.Some? ==> s.mutex.value < |s.threads|)
    && forall i: nat :: i < |s.threads| ==> (Holds(s.threads[i]) <==> s.mutex == Some(i))
  }

  /** What was pushed is what was removed, in that order, followed by the queue. */
  ghost predicate Fifo<T>(s: System<T>) {
    s.pushed == Values(s.taken) + s.queue
  }

  /** Every removed value goes to the caller that removed it, once. */
  ghost predicate Delivered<T>(s: System<T>) {
    |s.returned| == |s.threads| &&
    forall i: nat :: i < |s.threads| ==>
      TakenBy(s.taken, i) == s.returned[i] + Carried(s.threads[i])
  }

  ghost predicate NoLostWakeUp<T>(s: System<T>) {
    SomeWaiting(s.threads) ==> |s.queue| <= Sum(s.threads, Credit)
  }

  ghost predicate Inv<T>(s: System<T>) {
    MutualExclusion(s) && Fifo(s) && Delivered(s) && NoLostWakeUp(s)
  }

  lemma InitInv<T>(n: nat)
    ensures Inv(Init<T>(n))
  {
  }

  lemma OthersStay<T>(s: System<T>, a: Action<T>, i: nat)
    requires Enabled(s, a) && |s.returned| == |s.threads| && i < |s.threads| && i != a.t
    ensures var u := Apply(s, a);
            |u.threads| == |s.threads| && Holds(u.threads[i]) == Holds(s.threads[i])
  {
  }

  lemma KeepsMutualExclusion<T>(s: System<T>, a: Action<T>)
    requires Enabled(s, a) && |s.returned| == |s.threads| && MutualExclusion(s)
    ensures MutualExclusion(Apply(s, a))
  {
    var u := Apply(s, a);
    forall i: nat | i < |u.threads|
      ensures Holds(u.threads[i]) <==> u.mutex == Some(i)
    {
      assert Holds(s.threads[i]) <==> s.mutex == Some(i);
      assert Holds(s.threads[a.t]) <==> s.mutex == Some(a.t);
      if i != a.t {
        OthersStay(s, a, i);
      }
    }
  }

  lemma KeepsFifo<T>(s: System<T>, a: Action<T>)
    requires Enabled(s, a) && |s.returned| == |s.threads| && Fifo(s)
    ensures Fifo(Apply(s, a))
  {
    var u := Apply(s, a);
    if |u.taken| > |s.taken| {
      assert Values(u.taken) == Values(s.taken) + [s.queue[0]];
    }
  }

  lemma OneMoreTaken<T>(taken: seq<(nat, T)>, x: (nat, T), t: nat)
    ensures TakenBy(taken + [x], t) == TakenBy(taken, t) + if x.0 == t then [x.1] else []
  {
    assert (taken + [x])[..|taken|] == taken;
  }

  /** A critical section returns nothing; it removes nothing, or what it removes it carries. */
  lemma CriticalCarries<T>(s: System<T>, a: Action<T>)
    requires Enabled(s, a) && a.Critical? && |s.returned| == |s.threads|
    ensures var u := Apply(s, a);
            u.returned == s.returned && Carried(s.threads[a.t]) == [] &&
            if u.taken == s.taken then Carried(u.threads[a.t]) == []
            else s.queue != [] && u.taken == s.taken + [(a.t, s.queue[0])] && Carried(u.threads[a.t]) == [s.queue[0]]
  {
  }

  /** Unlocking hands over what is carried. */
  lemma UnlockReturns<T>(s: System<T>, a: Action<T>)
    requires Enabled(s, a) && a.Unlock? && |s.returned| == |s.threads|
    ensures var u := Apply(s, a);
            u.taken == s.taken && Carried(u.threads[a.t]) == []
            && u.returned == s.returned[a.t := s.returned[a.t] + Carried(s.threads[a.t])]
  {
    if s.threads[a.t].PushAppended? || s.threads[a.t].EmptyDone? {
      assert s.returned[a.t] + [] == s.returned[a.t];
    }
  }

  lemma OthersCarryNothing<T>(s: System<T>, a: Action<T>)
    requires Enabled(s, a) && !a.Critical? && !a.Unlock? && |s.returned| == |s.threads|
    ensures var u := Apply(s, a);
            u.taken == s.taken && u.returned == s.returned
            && Carried(u.threads[a.t]) == Carried(s.threads[a.t]) == []
  {
  }

  lemma ReturnsWhatItTook<T>(s: System<T>, a: Action<T>)
    requires Enabled(s, a) && |s.returned| == |s.threads|
    requires TakenBy(s.taken, a.t) == s.returned[a.t] + Carried(s.threads[a.t])
    ensures var u := Apply(s, a); TakenBy(u.taken, a.t) == u.returned[a.t] + Carried(u.threads[a.t])
  {
    if a.Critical? {
      CriticalCarries(s, a);
      if s.queue != [] {
        OneMoreTaken(s.taken, (a.t, s.queue[0]), a.t);
      }
    } else if a.Unlock? {
      UnlockReturns(s, a);
    } else {
      OthersCarryNothing(s, a);
    }
  }

  /** What the other threads took, returned and carry is left alone. */
  lemma OthersKeepTheirs<T>(s: System<T>, a: Action<T>, i: nat)
    requires Enabled(s, a) && |s.returned| == |s.threads| && i < |s.threads| && i != a.t
    ensures var u := Apply(s, a);
            |u.returned| == |u.threads| == |s.threads| && u.returned[i] == s.returned[i]
            && Carried(u.threads[i]) == Carried(s.threads[i]) && TakenBy(u.taken, i) == TakenBy(s.taken, i)
  {
    if a.Critical? {
      CriticalCarries(s, a);
      if s.queue != [] {
        OneMoreTaken(s.taken, (a.t, s.queue[0]), i);
      }
    } else if a.Unlock? {
      UnlockReturns(s, a);
    } else {
      OthersCarryNothing(s, a);
    }
  }

  lemma KeepsDelivered<T>(s: System<T>, a: Action<T>)
    requires Enabled(s, a) && Delivered(s)
    ensures Delivered(Apply(s, a))
  {
    var u := Apply(s, a);
    forall i: nat | i < |u.threads|
      ensures TakenBy(u.taken, i) == u.returned[i] + Carried(u.threads[i])
    {
      assert TakenBy(s.taken, i) == s.returned[i] + Carried(s.threads[i]);
      if i == a.t {
        ReturnsWhatItTook(s, a);
      } else {
        OthersKeepTheirs(s, a, i);
      }
    }
  }

  predicate Wakes<T>(a: Action<T>) {
    a.Notify? && a.waiter.Some?
  }

  /** A step changes the thread that makes it, and the thread that it wakes. */
  lemma ChangedThreads<T>(s: System<T>, a: Action<T>)
    requires Enabled(s, a) && |s.returned| == |s.threads|
    ensures var u := Apply(s, a).threads;
            u == if Wakes(a) then s.threads[a.t := Idle(Pushed)][a.waiter.value := Woken]
                 else s.threads[a.t := u[a.t]]
    ensures Wakes(a) ==> a.waiter.value != a.t && s.threads[a.waiter.value].Waiting?
  {
  }

  lemma SumOfStep<T>(s: System<T>, a: Action<T>, weight: Thread<T> -> nat)
    requires Enabled(s, a) && |s.returned| == |s.threads|
    ensures var u := Apply(s, a).threads;
            Sum(u, weight) == Sum(s.threads, weight) - weight(s.threads[a.t]) + weight(u[a.t])
                              + if Wakes(a) then weight(Woken) - weight(Waiting) else 0
  {
    var u := Apply(s, a).threads;
    ChangedThreads(s, a);
    SumUpdate(s.threads, weight, a.t, u[a.t]);
    if Wakes(a) {
      SumUpdate(s.threads[a.t := Idle(Pushed)], weight, a.waiter.value, Woken);
    }
  }

  /** While someone waits, the queue grows by no more than the credit does. */
  lemma CreditCovers<T>(s: System<T>, a: Action<T>)
    requires Enabled(s, a) && |s.returned| == |s.threads|
    ensures var u := Apply(s, a);
            || u.queue == []
            || (a.Notify? && a.waiter.None? && !SomeWaiting(s.threads))
            || |u.queue| - |s.queue| <=
               Credit(u.threads[a.t]) - Credit(s.threads[a.t]) + if Wakes(a) then 1 else 0
  {
  }

  /** Only a popper that finds the queue empty starts to wait. */
  lemma StartsToWait<T>(s: System<T>, a: Action<T>)
    requires Enabled(s, a) && |s.returned| == |s.threads| && SomeWaiting(Apply(s, a).threads)
    ensures SomeWaiting(s.threads) || Apply(s, a).queue == []
  {
    var u := Apply(s, a);
    var i :| 0 <= i < |u.threads| && u.threads[i].Waiting?;
    ChangedThreads(s, a);
    if i != a.t {
      assert s.threads[i].Waiting?;
    }
  }

  lemma KeepsWakeUps<T>(s: System<T>, a: Action<T>)
    requires Enabled(s, a) && |s.returned| == |s.threads| && NoLostWakeUp(s)
    ensures NoLostWakeUp(Apply(s, a))
  {
    if SomeWaiting(Apply(s, a).threads) {
      StartsToWait(s, a);
      SumOfStep(s, a, Credit);
      CreditCovers(s, a);
    }
  }

  lemma OneStepSafe<T>(s: System<T>, a: Action<T>)
    requires Inv(s) && Enabled(s, a)
    ensures Inv(Apply(s, a))
  {
    KeepsMutualExclusion(s, a);
    KeepsFifo(s, a);
    KeepsDelivered(s, a);
    KeepsWakeUps(s, a);
  }

  ghost predicate Possible<T>(s: System<T>, actions: seq<Action<T>>)
    requires |s.returned| == |s.threads|
    decreases |actions|
  {
    |actions| > 0 ==>
      Enabled(s, actions[0]) && Possible(Apply(s, actions[0]), actions[1..])
  }

  ghost function RunAll<T>(s: System<T>, actions: seq<Action<T>>): (u: System<T>)
    requires |s.returned| == |s.threads| && Possible(s, actions)
    ensures |u.returned| == |u.threads|
    decreases |actions|
  {
    if |actions| == 0 then s else RunAll(Apply(s, actions[0]), actions[1..])
  }

  /** Every interleaving keeps mutual exclusion, first-in-first-out order, exact delivery
      and the wake-up bound. */
  lemma {:induction false} EveryRunSafe<T>(s: System<T>, actions: seq<Action<T>>)
    requires Inv(s) && Possible(s, actions)
    ensures Inv(RunAll(s, actions))
    decreases |actions|
  {
    if |actions| == 0 {
    } else {
      var a := actions[0];
      OneStepSafe(s, a);
      EveryRunSafe(Apply(s, a), actions[1..]);
    }
  }

  /** In particular every run of `n` threads on a new queue. */
  lemma SafeFromStart<T>(n: nat, actions: seq<Action<T>>)
    requires Possible(Init<T>(n), actions)
    ensures Inv(RunAll(Init<T>(n), actions))
  {
    InitInv<T>(n);
    EveryRunSafe(Init<T>(n), actions);
  }

  // ---------------------------------------------------------------- progress

  /** A step of a call already under way that does not rely on a spurious wake-up. */
  predicate Internal<T>(a: Action<T>) {
    a.Lock? || a.Critical? || a.Unlock? || a.Notify?
  }

  function Work<T>(p: Thread<T>): nat {
    match p
    case PushEntering(_) => 7
    case PushLocked(_) => 6
    case PushAppended => 5
    case PushNotifying => 4
    case PopEntering => 3
    case Woken => 3
    case PopLocked(_) => 2
    case PopTaken(_) => 1
    case TryEntering => 3
    case TryLocked => 2
    case TryDone(_) => 1
    case EmptyEntering => 3
    case EmptyLocked => 2
    case EmptyDone(_) => 1
    case Idle(_) => 0
    case Waiting => 0
  }

  lemma WorkDrops<T>(s: System<T>, a: Action<T>)
    requires Enabled(s, a) && |s.returned| == |s.threads| && Internal(a)
    ensures Work(Apply(s, a).threads[a.t]) + (if Wakes(a) then Work<T>(Woken) else 0) < Work(s.threads[a.t])
  {
  }

  lemma InternalStepsFinish<T>(s: System<T>, a: Action<T>)
    requires Enabled(s, a) && |s.returned| == |s.threads| && Internal(a)
    ensures Sum(Apply(s, a).threads, Work) < Sum(s.threads, Work)
  {
    WorkDrops(s, a);
    SumOfStep(s, a, Work);
  }

  ghost predicate Settled<T(!new)>(s: System<T>) {
    forall a: Action<T> :: Internal(a) ==> !Enabled(s, a)
  }

  /** A call under way never waits for anything but a thread that can move. */
  lemma SomeoneCanMove<T>(s: System<T>, i: nat) returns (a: Action<T>)
    requires Inv(s) && i < |s.threads| && !s.threads[i].Idle? && !s.threads[i].Waiting?
    ensures Internal(a) && Enabled(s, a)
  {
    var h := if s.mutex.Some? then s.mutex.value else i;
    if BeforeCritical(s.threads[h]) {
      a := Critical(h);
    } else if AfterCritical(s.threads[h]) {
      a := Unlock(h);
    } else if Enters(s.threads[h]) {
      a := Lock(h);
    } else if SomeWaiting(s.threads) {
      var w: nat :| w < |s.threads| && s.threads[w].Waiting?;
      a := Notify(h, Some(w));
    } else {
      a := Notify(h, None);
    }
  }

  /** No internal step is possible exactly when every thread is outside the queue or
      asleep in it: the threads never block each other in any other way. */
  lemma SettledExactly<T(!new)>(s: System<T>)
    requires Inv(s)
    ensures Settled(s) <==>
            forall i :: 0 <= i < |s.threads| ==> s.threads[i].Idle? || s.threads[i].Waiting?
  {
    if i :| 0 <= i < |s.threads| && !s.threads[i].Idle? && !s.threads[i].Waiting? {
      var a := SomeoneCanMove(s, i);
    }
  }

  /** When the calls under way have gone as far as they can, either the queue is empty or
      nobody sleeps: a value is never left behind a sleeping popper. */
  lemma NobodySleepsOnWork<T(!new)>(s: System<T>)
    requires Inv(s) && Settled(s)
    ensures s.queue == [] || !SomeWaiting(s.threads)
  {
    SettledExactly(s);
    SumZero(s.threads, Credit);
  }

  /** From any state reached, running the calls under way, in any order and without
      spurious wake-ups, ends after at most `Sum(Work)` steps, and such a run can always be
      continued until it settles. */
  lemma {:induction false} InternalRunsAreBounded<T>(s: System<T>, actions: seq<Action<T>>)
    requires Inv(s) && Possible(s, actions)
    requires forall i :: 0 <= i < |actions| ==> Internal(actions[i])
    ensures |actions| + Sum(RunAll(s, actions).threads, Work) <= Sum(s.threads, Work)
    decreases |actions|
  {
    if |actions| == 0 {
    } else {
      var a := actions[0];
      OneStepSafe(s, a);
      InternalStepsFinish(s, a);
      InternalRunsAreBounded(Apply(s, a), actions[1..]);
    }
  }

  lemma {:induction false} SettlesEventually<T(!new)>(s: System<T>) returns (actions: seq<Action<T>>)
    requires Inv(s)
    ensures Possible(s, actions) && forall i :: 0 <= i < |actions| ==> Internal(actions[i])
    ensures var u := RunAll(s, actions);
            Inv(u) && Settled(u) && (u.queue == [] || !SomeWaiting(u.threads))
    decreases Sum(s.threads, Work)
  {
    if Settled(s) {
      NobodySleepsOnWork(s);
      return [];
    }
    var a: Action<T> :| Internal(a) && Enabled(s, a);
    InternalStepsFinish(s, a);
    OneStepSafe(s, a);
    var rest := SettlesEventually(Apply(s, a));
    actions := [a] + rest;
    assert actions[1..] == rest;
  }

  /** A waiting thread can wake up without cause. If the mutex is free and the queue empty, it
      looks and waits again, and nothing has changed; otherwise it takes the front. */
  lemma SpuriousWakeUp<T>(s: System<T>, t: nat)
    requires t < |s.threads| == |s.returned| && s.threads[t].Waiting? && s.mutex.None?
    ensures var run := [Spurious(t), Lock(t), Critical(t)];
            Possible(s, run)
            && if s.queue == [] then RunAll(s, run) == s
               else RunAll(s, run).threads == s.threads[t := PopTaken(s.queue[0])]
                    && RunAll(s, run).queue == s.queue[1..]
  {
    var run := [Spurious(t), Lock(t), Critical(t)];
    var woken := Apply(s, run[0]);
    var locked := Apply(woken, run[1]);
    var looked := Apply(locked, run[2]);
    assert run[1..] == [run[1], run[2]] && run[1..][1..] == [run[2]] && run[1..][1..][1..] == [];
    assert locked.threads == s.threads[t := PopLocked(true)];
    assert looked.threads == if s.queue == [] then s.threads else s.threads[t := PopTaken(s.queue[0])];
    assert Possible(looked, []) && RunAll(looked, []) == looked;
    assert Possible(locked, [run[2]]) && RunAll(locked, [run[2]]) == looked;
    assert Possible(woken, run[1..]) && RunAll(woken, run[1..]) == looked;
  }

  /** `notify_one` wakes one waiting thread, any of them, and none only if none waits. */
  lemma NotifyWakesOne<T>(s: System<T>, t: nat, waiter: Option<nat>)
    requires t < |s.threads| == |s.returned| && s.threads[t].PushNotifying?
    ensures Enabled(s, Notify(t, waiter)) <==>
            match waiter
            case None => forall i :: 0 <= i < |s.threads| ==> !s.threads[i].Waiting?
            case Some(w) => w < |s.threads| && s.threads[w].Waiting?
    ensures Enabled(s, Notify(t, waiter)) ==>
              Apply(s, Notify(t, waiter)).threads ==
              match waiter
              case None => s.threads[t := Idle(Pushed)]
              case Some(w) => s.threads[t := Idle(Pushed)][w := Woken]
  {
  }

  // ---------------------------------------------------------------- run once

  predicate Pops<T>(p: Thread<T>) {
    p.PopEntering? || p.PopLocked? || p.Waiting? || p.Woken? || p.PopTaken?
    || p.TryEntering? || p.TryLocked? || p.TryDone?
  }

  /** Thread `c` runs the run-once loop (src/libratel/NQSignals/Private/SignalHandler.cpp:42-47):
      it calls `pop` only right after `empty` has told it that something is there. No other
      thread removes anything. */
  predicate OnceAction<T>(s: System<T>, a: Action<T>, c: nat) {
    (a.StartPop? ==> a.t == c && c < |s.threads| && s.threads[c] == Idle(IsEmpty(false)))
    && !a.StartTryPop?
  }

  ghost predicate OnceInv<T>(s: System<T>, c: nat) {
    c < |s.threads| && |s.returned| == |s.threads|
    && (forall i: nat :: i < |s.threads| && i != c ==> !Pops(s.threads[i]))
    && var p := s.threads[c];
       !p.Waiting? && !p.Woken? && !p.TryEntering? && !p.TryLocked? && !p.TryDone?
       && (p == Idle(IsEmpty(false)) || p == EmptyDone(false) || p.PopEntering? || p.PopLocked?
           ==> s.queue != [])
  }

  ghost predicate OnceRun<T>(s: System<T>, actions: seq<Action<T>>, c: nat)
    requires |s.returned| == |s.threads|
    decreases |actions|
  {
    |actions| > 0 ==>
      Enabled(s, actions[0]) && OnceAction(s, actions[0], c)
      && OnceRun(Apply(s, actions[0]), actions[1..], c)
  }

  lemma OnceStep<T>(s: System<T>, a: Action<T>, c: nat)
    requires OnceInv(s, c) && Enabled(s, a) && OnceAction(s, a, c)
    ensures OnceInv(Apply(s, a), c)
  {
    ChangedThreads(s, a);
  }

  lemma {:induction false} OnceKeepsInv<T>(s: System<T>, actions: seq<Action<T>>, c: nat)
    requires OnceInv(s, c) && OnceRun(s, actions, c)
    ensures Possible(s, actions) && OnceInv(RunAll(s, actions), c)
    decreases |actions|
  {
    if |actions| == 0 {
    } else {
      OnceStep(s, actions[0], c);
      OnceKeepsInv(Apply(s, actions[0]), actions[1..], c);
    }
  }

  lemma OnceInit<T>(n: nat, c: nat)
    requires c < n
    ensures OnceInv(Init<T>(n), c)
  {
  }

  /** As the only consumer the run-once loop never blocks in `pop`, in any run from the
      start, whatever is pushed concurrently. */
  lemma OnceNeverBlocks<T>(n: nat, actions: seq<Action<T>>, c: nat)
    requires c < n && OnceRun(Init<T>(n), actions, c)
    ensures Possible(Init<T>(n), actions)
    ensures var s := RunAll(Init<T>(n), actions);
            Inv(s) && c < |s.threads| && !s.threads[c].Waiting? && !s.threads[c].Woken?
  {
    OnceInit<T>(n, c);
    OnceKeepsInv(Init<T>(n), actions, c);
    SafeFromStart(n, actions);
  }
}
