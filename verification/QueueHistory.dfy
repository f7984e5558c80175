/** The blocking queue is linearizable: in every interleaving each finished call of `push`,
    `pop`, `tryPop` and `empty` takes effect at one moment between its start and its return,
    and in the order of these moments the results are those of a sequential queue. */
module QueueHistory {
  import opened Wrappers
  import opened ConcurrentQueue

  datatype Operation<T> = Push(value: T) | Pop | TryPop | Empty

  /** What can be seen of a run: calls, the moments they take effect, and returns. */
  datatype Mark<T> =
    | Called(t: nat, op: Operation<T>)
    | Effect(t: nat, op: Operation<T>, ret: Return<T>)
    | Returned(t: nat, ret: Return<T>)

  /** The call a thread has under way that has not taken effect. */
  function OperationOf<T>(p: Thread<T>): Option<Operation<T>> {
    match p
    case PushEntering(v) => Some(Push(v))
    case PushLocked(v) => Some(Push(v))
    case PopEntering => Some(Pop)
    case PopLocked(_) => Some(Pop)
    case Waiting => Some(Pop)
    case Woken => Some(Pop)
    case TryEntering => Some(TryPop)
    case TryLocked => Some(TryPop)
    case EmptyEntering => Some(Empty)
    case EmptyLocked => Some(Empty)
    case _ => None
  }

  /** What the call of a thread that has taken effect is going to return. */
  function ResultOf<T>(p: Thread<T>): Option<Return<T>> {
    match p
    case PushAppended => Some(Pushed)
    case PushNotifying => Some(Pushed)
    case PopTaken(v) => Some(Popped(v))
    case TryDone(r) => Some(TryPopped(r))
    case EmptyDone(b) => Some(IsEmpty(b))
    case _ => None
  }

  /** The mark that a step leaves, by what it does to the thread that makes it. */
  function MarkOf<T>(s: System<T>, a: Action<T>): seq<Mark<T>>
    requires Enabled(s, a) && |s.returned| == |s.threads|
  {
    var t, before, after := a.t, s.threads[a.t], Apply(s, a).threads[a.t];
    if before.Idle? && OperationOf(after).Some? then [Called(t, OperationOf(after).value)]
    else if OperationOf(before).Some? && ResultOf(after).Some? then
      [Effect(t, OperationOf(before).value, ResultOf(after).value)]
    else if ResultOf(before).Some? && after.Idle? then [Returned(t, after.last)]
    else []
  }

  ghost function History<T>(s: System<T>, actions: seq<Action<T>>): seq<Mark<T>>
    requires |s.returned| == |s.threads| && Possible(s, actions)
    decreases |actions|
  {
    if |actions| == 0 then []
    else MarkOf(s, actions[0]) + History(Apply(s, actions[0]), actions[1..])
  }

  // ---------------------------------------------------------------- the sequential queue

  /** One operation of a sequential queue; `None` when it does not return that. */
  ghost function Sequential<T>(q: seq<T>, op: Operation<T>, ret: Return<T>): Option<seq<T>> {
    match op
    case Push(v) => if ret == Pushed then Some(q + [v]) else None
    case Pop => if |q| > 0 && ret == Popped(q[0]) then Some(q[1..]) else None
    case TryPop =>
      if |q| == 0 then (if ret == TryPopped(None) then Some(q) else None)
      else if ret == TryPopped(Some(q[0])) then Some(q[1..])
      else None
    case Empty => if ret == IsEmpty(|q| == 0) then Some(q) else None
  }

  /** The effects one after the other on an empty queue. */
  ghost function Replay<T>(marks: seq<Mark<T>>): Option<seq<T>> {
    if |marks| == 0 then Some([])
    else
      match (Replay(marks[..|marks| - 1]), marks[|marks| - 1])
      case (None, _) => None
      case (Some(q), Effect(_, op, ret)) => Sequential(q, op, ret)
      case (Some(q), _) => Some(q)
  }

  // ---------------------------------------------------------------- calls of one thread

  datatype Phase<T> = Outside | Inside(op: Operation<T>) | Done(op: Operation<T>, ret: Return<T>) | Broken

  ghost function Follow<T>(phase: Phase<T>, m: Mark<T>): Phase<T> {
    match m
    case Called(_, op) => if phase == Outside then Inside(op) else Broken
    case Effect(_, op, ret) => if phase == Inside(op) then Done(op, ret) else Broken
    case Returned(_, ret) => if phase.Done? && phase.ret == ret then Outside else Broken
  }

  /** Where thread `t` is after its marks; `Broken` unless they are calls with one effect of
      the operation called and the result of that effect returned. */
  ghost function PhaseAt<T>(marks: seq<Mark<T>>, t: nat): Phase<T> {
    if |marks| == 0 then Outside
    else
      var before := PhaseAt(marks[..|marks| - 1], t);
      if marks[|marks| - 1].t == t then Follow(before, marks[|marks| - 1]) else before
  }

  ghost predicate Fits<T>(phase: Phase<T>, p: Thread<T>) {
    match phase
    case Outside => p.Idle?
    case Inside(op) => OperationOf(p) == Some(op)
    case Done(_, ret) => ResultOf(p) == Some(ret)
    case Broken => false
  }

  /** The marks account for the state: a legal sequential history that leaves the queue as it
      is, and every thread's calls in order. */
  ghost predicate Explained<T>(s: System<T>, marks: seq<Mark<T>>) {
    Replay(marks) == Some(s.queue)
    && forall t: nat :: t < |s.threads| ==> Fits(PhaseAt(marks, t), s.threads[t])
  }

  lemma OneMoreMark<T>(marks: seq<Mark<T>>, m: Mark<T>, t: nat)
    ensures Replay(marks + [m]) ==
            match (Replay(marks), m)
            case (None, _) => None
            case (Some(q), Effect(_, op, ret)) => Sequential(q, op, ret)
            case (Some(q), _) => Some(q)
    ensures PhaseAt(marks + [m], t) == if m.t == t then Follow(PhaseAt(marks, t), m) else PhaseAt(marks, t)
  {
    assert (marks + [m])[..|marks|] == marks;
  }

  /** What a step does to another thread: a notification may wake it. */
  lemma OthersGoOn<T>(s: System<T>, a: Action<T>, t: nat)
    requires Enabled(s, a) && |s.returned| == |s.threads| && t < |s.threads| && t != a.t
    ensures var p, q := s.threads[t], Apply(s, a).threads[t];
            OperationOf(p) == OperationOf(q) && ResultOf(p) == ResultOf(q) && p.Idle? == q.Idle?
  {
  }

  lemma OwnMark<T>(s: System<T>, a: Action<T>, phase: Phase<T>)
    requires Enabled(s, a) && |s.returned| == |s.threads| && Fits(phase, s.threads[a.t])
    ensures var m, p := MarkOf(s, a), Apply(s, a).threads[a.t];
            Fits(if m == [] then phase else Follow(phase, m[0]), p) && (m != [] ==> |m| == 1 && m[0].t == a.t)
  {
  }

  lemma OwnEffect<T>(s: System<T>, a: Action<T>)
    requires Enabled(s, a) && |s.returned| == |s.threads|
    ensures var m, u := MarkOf(s, a), Apply(s, a);
            if m != [] && m[0].Effect? then Sequential(s.queue, m[0].op, m[0].ret) == Some(u.queue)
            else u.queue == s.queue
  {
  }

  lemma StepIsExplained<T>(s: System<T>, a: Action<T>, marks: seq<Mark<T>>)
    requires Enabled(s, a) && |s.returned| == |s.threads| && Explained(s, marks)
    ensures Explained(Apply(s, a), marks + MarkOf(s, a))
  {
    var u, m := Apply(s, a), MarkOf(s, a);
    OwnMark(s, a, PhaseAt(marks, a.t));
    OwnEffect(s, a);
    if m == [] {
      assert marks + m == marks;
    } else {
      assert m == [m[0]];
      OneMoreMark(marks, m[0], a.t);
    }
    forall t: nat | t < |u.threads|
      ensures Fits(PhaseAt(marks + m, t), u.threads[t])
    {
      if t != a.t {
        OthersGoOn(s, a, t);
        if m != [] {
          OneMoreMark(marks, m[0], t);
        }
      }
    }
  }

  lemma Regroup<T>(a: seq<Mark<T>>, b: seq<Mark<T>>, c: seq<Mark<T>>)
    ensures a + (b + c) == (a + b) + c
  {
  }

  lemma {:induction false} RunIsExplained<T>(s: System<T>, actions: seq<Action<T>>, marks: seq<Mark<T>>)
    requires |s.returned| == |s.threads| && Possible(s, actions) && Explained(s, marks)
    ensures Explained(RunAll(s, actions), marks + History(s, actions))
    decreases |actions|
  {
    if |actions| == 0 {
      assert marks + [] == marks;
    } else {
      var u, m := Apply(s, actions[0]), MarkOf(s, actions[0]);
      StepIsExplained(s, actions[0], marks);
      RunIsExplained(u, actions[1..], marks + m);
      Regroup(marks, m, History(u, actions[1..]));
    }
  }

  // ---------------------------------------------------------------- linearizability

  predicate Quiet<T>(marks: seq<Mark<T>>, t: nat, from: nat, to: nat)
    requires to <= |marks|
  {
    forall i :: from <= i < to ==> marks[i].t != t
  }

  /** The call at `c` took effect at `e` and thread `t` did nothing else before `end`. */
  predicate EffectOf<T(==)>(marks: seq<Mark<T>>, t: nat, c: nat, e: nat, end: nat)
    requires end <= |marks|
  {
    c < e < end
    && marks[c].Called? && marks[c].t == t && marks[e].Effect? && marks[e].t == t && marks[e].op == marks[c].op
    && Quiet(marks, t, c + 1, e) && Quiet(marks, t, e + 1, end)
  }

  lemma {:induction false} BrokenStays<T>(marks: seq<Mark<T>>, t: nat, i: nat)
    requires i <= |marks| && PhaseAt(marks, t) != Broken
    ensures PhaseAt(marks[..i], t) != Broken
  {
    if i == |marks| {
      assert marks[..i] == marks;
    } else {
      assert marks[..|marks| - 1][..i] == marks[..i];
      BrokenStays(marks[..|marks| - 1], t, i);
    }
  }

  lemma {:induction false} InsideSince<T>(marks: seq<Mark<T>>, t: nat) returns (c: nat)
    requires PhaseAt(marks, t).Inside?
    ensures c < |marks| && marks[c] == Called(t, PhaseAt(marks, t).op) && Quiet(marks, t, c + 1, |marks|)
  {
    var last := |marks| - 1;
    if marks[last].t == t {
      c := last;
    } else {
      c := InsideSince(marks[..last], t);
      assert forall i :: c < i < last ==> marks[i] == marks[..last][i];
    }
  }

  lemma {:induction false} DoneSince<T>(marks: seq<Mark<T>>, t: nat) returns (c: nat, e: nat)
    requires PhaseAt(marks, t).Done?
    ensures EffectOf(marks, t, c, e, |marks|) && marks[e].ret == PhaseAt(marks, t).ret
  {
    var last := |marks| - 1;
    var before := marks[..last];
    if marks[last].t == t {
      c := InsideSince(before, t);
      e := last;
      assert forall i :: c < i < last ==> marks[i] == before[i];
    } else {
      c, e := DoneSince(before, t);
      assert forall i :: 0 <= i < last ==> marks[i] == before[i];
    }
  }

  /** Linearizability, for any number of threads and every interleaving: the effects replay
      as a legal run of a sequential queue that ends with the queue's contents, and the calls
      of every thread have one effect each, with the result that they return. */
  lemma EveryRunLinearizable<T>(n: nat, actions: seq<Action<T>>)
    requires Possible(Init<T>(n), actions)
    ensures var marks := History(Init<T>(n), actions);
            Replay(marks) == Some(RunAll(Init<T>(n), actions).queue)
            && forall t: nat :: t < n ==> PhaseAt(marks, t) != Broken
  {
    var s := Init<T>(n);
    RunIsExplained(s, actions, []);
    ThreadsStay(s, actions);
    assert [] + History(s, actions) == History(s, actions);
  }

  lemma {:induction false} ThreadsStay<T>(s: System<T>, actions: seq<Action<T>>)
    requires |s.returned| == |s.threads| && Possible(s, actions)
    ensures |RunAll(s, actions).threads| == |s.threads|
    decreases |actions|
  {
    if |actions| == 0 {
    } else {
      ThreadsStay(Apply(s, actions[0]), actions[1..]);
    }
  }

  /** Each return belongs to a call of the same thread, with its one effect in between and
      the result of that effect. */
  lemma EffectWithinCall<T>(marks: seq<Mark<T>>, t: nat, i: nat) returns (c: nat, e: nat)
    requires PhaseAt(marks, t) != Broken && i < |marks| && marks[i].Returned? && marks[i].t == t
    ensures EffectOf(marks, t, c, e, i) && marks[e].ret == marks[i].ret
  {
    BrokenStays(marks, t, i + 1);
    var before := marks[..i];
    assert marks[..i + 1][..i] == before;
    c, e := DoneSince(before, t);
    assert forall k :: 0 <= k < i ==> marks[k] == before[k];
  }

  /** Real-time order: if one call had returned before another one started, it took effect
      first. */
  lemma RealTimeOrder<T>(marks: seq<Mark<T>>, i: nat, u: nat, c: nat, e: nat)
    returns (e': nat)
    requires i < |marks| && marks[i].Returned? && PhaseAt(marks, marks[i].t) != Broken
    requires i < c && e < |marks| && EffectOf(marks, u, c, e, e + 1)
    ensures e' < e && marks[e'].Effect? && marks[e'].t == marks[i].t && marks[e'].ret == marks[i].ret
    ensures Quiet(marks, marks[i].t, e' + 1, i)
  {
    var c';
    c', e' := EffectWithinCall(marks, marks[i].t, i);
  }
}
