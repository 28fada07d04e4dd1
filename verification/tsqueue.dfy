/** The thread-safe queue of include/tsqueue.h as a monitor.

Any number of threads call `push`, `pop (false)`, `pop (true)`, `size` and `empty` on one queue.
Every step between two scheduling points is an action; a run is any sequence of enabled actions.
The condition variable follows POSIX.1-2017: a signal unblocks at least one waiter when there is
one, a waiter may also leave spuriously, and a waiter has to get the mutex back before it goes on. */
module ThreadSafeQueue {
  import opened Options

  type Tid = nat

  datatype Op<T> = Push(value: T) | Pop(block: bool) | Size | Empty

  datatype Outcome<T> = Done | Got(value: T) | EmptyError | Count(n: nat) | IsEmpty(b: bool)

  datatype Pc<T> =
    | Idle
    | Calling(op: Op<T>)                        // in pthread_mutex_lock
    | Inside(op: Op<T>)                         // has the mutex, looks at the queue next
    | Appended(value: T)                        // push has appended and signals next
    | Waiting                                   // blocked in pthread_cond_wait
    | Woken(signalled: bool)                    // off the condition variable, wants the mutex back
    | Leaving(op: Op<T>, outcome: Outcome<T>)   // has the mutex, unlocks next

  datatype Event<T> = Event(t: Tid, op: Op<T>, outcome: Outcome<T>)

  /** `log` records the finished calls in the order in which they released the mutex. */
  datatype State<T> = State(queue: seq<T>, holder: Option<Tid>, threads: map<Tid, Pc<T>>, log: seq<Event<T>>)

  datatype Action<T> =
    | Call(t: Tid, op: Op<T>)
    | Lock(t: Tid)
    | Append(t: Tid)
    | Signal(t: Tid, woken: set<Tid>)
    | Wait(t: Tid)
    | WakeSpuriously(t: Tid)
    | Resume(t: Tid)
    | Take(t: Tid)
    | Refuse(t: Tid)
    | Observe(t: Tid)
    | Unlock(t: Tid)

  predicate HasMutex<T>(pc: Pc<T>) {
    pc.Inside? || pc.Appended? || pc.Leaving?
  }

  function Waiters<T>(threads: map<Tid, Pc<T>>): set<Tid> {
    set t | t in threads && threads[t].Waiting?
  }

  /** Threads that a signal released and that have not got the mutex back yet. */
  function Signalled<T>(threads: map<Tid, Pc<T>>): set<Tid> {
    set t | t in threads && threads[t].Woken? && threads[t].signalled
  }

  predicate Enabled<T(==)>(s: State<T>, a: Action<T>) {
    && a.t in s.threads
    && var pc := s.threads[a.t];
       match a
       case Call(_, _) => pc.Idle?
       case Lock(_) => pc.Calling? && s.holder.None?
       case Append(_) => pc.Inside? && pc.op.Push?
       case Signal(_, woken) =>
         && pc.Appended?
         && woken <= Waiters(s.threads)
         && (s.queue == [] ==> woken == {})
         && (s.queue != [] && Waiters(s.threads) != {} ==> woken != {})
       case Wait(_) => pc.Inside? && pc.op.Pop? && pc.op.block && s.queue == []
       case WakeSpuriously(_) => pc.Waiting?
       case Resume(_) => pc.Woken? && s.holder.None?
       case Take(_) => pc.Inside? && pc.op.Pop? && s.queue != []
       case Refuse(_) => pc.Inside? && pc.op.Pop? && !pc.op.block && s.queue == []
       case Observe(_) => pc.Inside? && (pc.op.Size? || pc.op.Empty?)
       case Unlock(_) => pc.Leaving?
  }

  function Release<T>(threads: map<Tid, Pc<T>>, woken: set<Tid>): map<Tid, Pc<T>> {
    map t | t in threads :: if t in woken then Woken(true) else threads[t]
  }

  function Apply<T>(s: State<T>, a: Action<T>): State<T>
    requires Enabled(s, a)
  {
    var pc := s.threads[a.t];
    match a
    case Call(t, op) => s.(threads := s.threads[t := Calling(op)])
    case Lock(t) => s.(holder := Some(t), threads := s.threads[t := Inside(pc.op)])
    case Append(t) => s.(queue := s.queue + [pc.op.value], threads := s.threads[t := Appended(pc.op.value)])
    case Signal(t, woken) => s.(threads := Release(s.threads, woken)[t := Leaving(Push(pc.value), Done)])
    case Wait(t) => s.(holder := None, threads := s.threads[t := Waiting])
    case WakeSpuriously(t) => s.(threads := s.threads[t := Woken(false)])
    case Resume(t) => s.(holder := Some(t), threads := s.threads[t := Inside(Pop(true))])
    case Take(t) => s.(queue := s.queue[1..], threads := s.threads[t := Leaving(pc.op, Got(s.queue[0]))])
    case Refuse(t) => s.(threads := s.threads[t := Leaving(pc.op, EmptyError)])
    case Observe(t) =>
      var seen := if pc.op.Size? then Count(|s.queue|) else IsEmpty(s.queue == []);
      s.(threads := s.threads[t := Leaving(pc.op, seen)])
    case Unlock(t) =>
      s.(holder := None, threads := s.threads[t := Idle], log := s.log + [Event(t, pc.op, pc.outcome)])
  }

  predicate Init<T>(s: State<T>) {
    s.queue == [] && s.holder == None && s.log == [] && forall t | t in s.threads :: s.threads[t].Idle?
  }

  predicate IsRun<T(==)>(s: State<T>, run: seq<Action<T>>)
    decreases |run|
  {
    run == [] || (Enabled(s, run[0]) && IsRun(Apply(s, run[0]), run[1..]))
  }

  function After<T>(s: State<T>, run: seq<Action<T>>): State<T>
    requires IsRun(s, run)
    decreases |run|
  {
    if run == [] then s else After(Apply(s, run[0]), run[1..])
  }

  /* ---- The sequential queue that the concurrent one must be indistinguishable from ---- */

  function Sequential<T>(op: Op<T>, q: seq<T>): (r: (seq<T>, Outcome<T>)) {
    match op
    case Push(v) => (q + [v], Done)
    case Pop(_) => if q == [] then (q, EmptyError) else (q[1..], Got(q[0]))
    case Size => (q, Count(|q|))
    case Empty => (q, IsEmpty(q == []))
  }

  /** A call may report `outcome` on contents `q`; a blocking pop may never report an empty queue. */
  predicate Legal<T(==)>(op: Op<T>, outcome: Outcome<T>, q: seq<T>) {
    Sequential(op, q).1 == outcome && (op == Pop(true) ==> q != [])
  }

  /** Contents of a sequential queue that served the logged calls in order, if it could have. */
  function Replay<T(==)>(log: seq<Event<T>>): Option<seq<T>> {
    if log == [] then Some([])
    else
      var e := log[|log| - 1];
      var before := Replay(log[..|log| - 1]);
      if before.Some? && Legal(e.op, e.outcome, before.value)
      then Some(Sequential(e.op, before.value).0)
      else None
  }

  /* ---- Invariants ---- */

  predicate MutualExclusion<T>(s: State<T>) {
    && (s.holder.Some? ==> s.holder.value in s.threads)
    && forall t | t in s.threads :: HasMutex(s.threads[t]) <==> s.holder == Some(t)
  }

  /** The log replays, and only the thread with the mutex can be ahead of it. */
  predicate Linear<T(==)>(s: State<T>)
    requires MutualExclusion(s)
  {
    var r := Replay(s.log);
    && r.Some?
    && if s.holder.None? then s.queue == r.value
       else match s.threads[s.holder.value]
            case Appended(v) => s.queue == r.value + [v]
            case Leaving(op, outcome) => Legal(op, outcome, r.value) && s.queue == Sequential(op, r.value).0
            case _ => s.queue == r.value
  }

  /** One more element is accounted for while the thread inside is about to signal or to take it. */
  function InHand<T>(s: State<T>): nat
    requires MutualExclusion(s)
  {
    if s.holder.None? then 0
    else
      var pc := s.threads[s.holder.value];
      if pc.Appended? || (pc.Inside? && pc.op.Pop?) then 1 else 0
  }

  predicate NoLostWakeup<T>(s: State<T>)
    requires MutualExclusion(s)
  {
    Waiters(s.threads) != {} ==> |s.queue| <= |Signalled(s.threads)| + InHand(s)
  }

  predicate Inv<T(==)>(s: State<T>) {
    MutualExclusion(s) && Linear(s) && NoLostWakeup(s)
  }

  lemma SignalledUpdate<T>(threads: map<Tid, Pc<T>>, t: Tid, pc: Pc<T>)
    requires t in threads
    ensures var now := Signalled(threads[t := pc]);
      if pc.Woken? && pc.signalled then now == Signalled(threads) + {t} else now == Signalled(threads) - {t}
    ensures Waiters(threads[t := pc]) == if pc.Waiting? then Waiters(threads) + {t} else Waiters(threads) - {t}
  {
  }

  lemma SignalReleases<T>(threads: map<Tid, Pc<T>>, woken: set<Tid>)
    requires woken <= Waiters(threads)
    ensures Signalled(Release(threads, woken)) == Signalled(threads) + woken
    ensures |Signalled(Release(threads, woken))| == |Signalled(threads)| + |woken|
    ensures Waiters(Release(threads, woken)) == Waiters(threads) - woken
  {
    assert Signalled(threads) !! woken;
    assert |Signalled(threads) + woken| == |Signalled(threads)| + |woken|;
  }

  lemma ExclusionStep<T>(s: State<T>, a: Action<T>)
    requires MutualExclusion(s) && Enabled(s, a)
    ensures MutualExclusion(Apply(s, a))
  {
  }

  lemma LinearStep<T>(s: State<T>, a: Action<T>)
    requires MutualExclusion(s) && Linear(s) && Enabled(s, a)
    ensures MutualExclusion(Apply(s, a)) && Linear(Apply(s, a))
  {
    ExclusionStep(s, a);
    if a.Unlock? {
      var s' := Apply(s, a);
      assert s'.log[..|s'.log| - 1] == s.log;
    }
  }

  /** With a waiter, a signal sends at least one more thread on its way; without, the bound is void. */
  lemma SignalStep<T>(s: State<T>, a: Action<T>)
    requires MutualExclusion(s) && NoLostWakeup(s) && Enabled(s, a) && a.Signal?
    requires MutualExclusion(Apply(s, a))
    ensures NoLostWakeup(Apply(s, a))
  {
    var s' := Apply(s, a);
    SignalReleases(s.threads, a.woken);
    SignalledUpdate(Release(s.threads, a.woken), a.t, s'.threads[a.t]);
    if a.woken != {} {
      var w :| w in a.woken;
      assert |a.woken| == |a.woken - {w}| + 1;
    }
  }

  lemma OtherStep<T>(s: State<T>, a: Action<T>)
    requires MutualExclusion(s) && NoLostWakeup(s) && Enabled(s, a) && !a.Signal?
    requires MutualExclusion(Apply(s, a))
    ensures NoLostWakeup(Apply(s, a))
  {
    SignalledUpdate(s.threads, a.t, Apply(s, a).threads[a.t]);
  }

  lemma WakeupStep<T>(s: State<T>, a: Action<T>)
    requires MutualExclusion(s) && NoLostWakeup(s) && Enabled(s, a)
    ensures MutualExclusion(Apply(s, a)) && NoLostWakeup(Apply(s, a))
  {
    ExclusionStep(s, a);
    if a.Signal? {
      SignalStep(s, a);
    } else {
      OtherStep(s, a);
    }
  }

  /** Every reachable state satisfies the three invariants, whatever the interleaving. */
  lemma {:induction false} Reachable<T>(s: State<T>, run: seq<Action<T>>)
    requires Inv(s) && IsRun(s, run)
    ensures Inv(After(s, run))
    decreases |run|
  {
    if run != [] {
      LinearStep(s, run[0]);
      WakeupStep(s, run[0]);
      Reachable(Apply(s, run[0]), run[1..]);
    }
  }

  /** No lost wakeup: with the mutex free and a thread still blocked, at least as many signalled
      threads are on their way as there are elements. */
  lemma BlockedMeansEnoughSignalled<T>(s: State<T>, run: seq<Action<T>>)
    requires Init(s) && IsRun(s, run)
    requires var e := After(s, run); e.holder.None? && Waiters(e.threads) != {}
    ensures var e := After(s, run); |e.queue| <= |Signalled(e.threads)|
  {
    Reachable(s, run);
  }

  /** The queue is linearizable: the calls in the order of their critical sections are a legal
      history of a sequential FIFO queue, which ends with the contents of this one. */
  lemma Linearizable<T>(s: State<T>, run: seq<Action<T>>)
    requires Init(s) && IsRun(s, run)
    ensures var e := After(s, run);
      Replay(e.log).Some? && (e.holder.None? ==> Replay(e.log).value == e.queue)
  {
    Reachable(s, run);
  }

  /* ---- Where the plain bound holds ---- */

  /** The bound without what the thread inside has in hand. */
  predicate Bound<T>(s: State<T>) {
    Waiters(s.threads) != {} ==> |s.queue| <= |Signalled(s.threads)|
  }

  /** Where the thread with the mutex is. */
  datatype Spot = Nobody | InPush | InPop | InObserve | AfterAppend | BeforeUnlock

  function SpotOf<T>(s: State<T>): Spot
    requires MutualExclusion(s)
  {
    if s.holder.None? then Nobody
    else
      match s.threads[s.holder.value]
      case Appended(_) => AfterAppend
      case Leaving(_, _) => BeforeUnlock
      case Inside(op) => if op.Push? then InPush else if op.Pop? then InPop else InObserve
  }

  lemma StateOfRun<T>(s: State<T>, run: seq<Action<T>>)
    requires Init(s) && IsRun(s, run)
    ensures MutualExclusion(After(s, run)) && NoLostWakeup(After(s, run))
  {
    Reachable(s, run);
  }

  /** Every reachable state with the mutex at `spot` keeps the bound. */
  ghost predicate BoundHoldsAt(spot: Spot) {
    forall s: State<int>, run: seq<Action<int>> | Init(s) && IsRun(s, run) ::
      MutualExclusion(After(s, run)) && SpotOf(After(s, run)) == spot ==> Bound(After(s, run))
  }

  /** The bound holds in every reachable state exactly unless the thread with the mutex is a push that
      has appended and not signalled, or a pop that has not taken yet. */
  lemma BoundHoldsIff(spot: Spot)
    ensures BoundHoldsAt(spot) <==> spot != AfterAppend && spot != InPop
  {
    if spot == AfterAppend {
      var s: State<int> := State([], None, map[0 := Idle, 1 := Idle], []);
      BoundFailsBeforeSignal(s);
    } else if spot == InPop {
      var s: State<int> := State([], None, map[0 := Idle, 1 := Idle, 2 := Idle], []);
      var run := BoundFailsBeforeTake(s);
    } else {
      forall s: State<int>, run: seq<Action<int>> | Init(s) && IsRun(s, run)
        ensures MutualExclusion(After(s, run)) && SpotOf(After(s, run)) == spot ==> Bound(After(s, run))
      {
        StateOfRun(s, run);
      }
    }
  }

  /** A push that has appended and not yet signalled leaves one element, one blocked thread and nobody
      signalled. */
  lemma BoundFailsBeforeSignal(s: State<int>)
    requires Init(s) && s.threads == map[0 := Idle, 1 := Idle]
    ensures var run := [Call(0, Pop(true)), Lock(0), Wait(0), Call(1, Push(7)), Lock(1), Append(1)];
      && IsRun(s, run)
      && var e := After(s, run);
         && MutualExclusion(e) && SpotOf(e) == AfterAppend
         && e.queue == [7] && Waiters(e.threads) == {0} && Signalled(e.threads) == {}
  {
    var blocks, comes := [Call(0, Pop(true)), Lock(0), Wait(0)], [Call(1, Push(7)), Lock(1), Append(1)];
    OneBlocks(s);
    OneAppends(After(s, blocks));
    RunsConcat(s, blocks, comes);
    assert blocks + comes == [Call(0, Pop(true)), Lock(0), Wait(0), Call(1, Push(7)), Lock(1), Append(1)];
    StateOfRun(s, blocks + comes);
  }

  lemma OneBlocks(s: State<int>)
    requires Init(s) && s.threads == map[0 := Idle, 1 := Idle]
    ensures var run := [Call(0, Pop(true)), Lock(0), Wait(0)];
      && IsRun(s, run)
      && var e := After(s, run); e.queue == [] && e.holder == None && e.threads == map[0 := Waiting, 1 := Idle]
  {
    var s1 := Apply(s, Call(0, Pop(true)));
    var s2 := Apply(s1, Lock(0));
    var e := Apply(s2, Wait(0));
    assert e.queue == [] && e.holder == None && e.threads == map[0 := Waiting, 1 := Idle];
    hide Apply, Enabled;
    RunOfThree(s, Call(0, Pop(true)), Lock(0), Wait(0));
  }

  lemma OneAppends(s: State<int>)
    requires s.queue == [] && s.holder == None && s.threads == map[0 := Waiting, 1 := Idle]
    ensures var run := [Call(1, Push(7)), Lock(1), Append(1)];
      && IsRun(s, run)
      && var e := After(s, run);
         e.queue == [7] && e.holder == Some(1) && e.threads == map[0 := Waiting, 1 := Appended(7)]
  {
    var s1 := Apply(s, Call(1, Push(7)));
    var s2 := Apply(s1, Lock(1));
    var e := Apply(s2, Append(1));
    assert e.queue == [7] && e.holder == Some(1) && e.threads == map[0 := Waiting, 1 := Appended(7)];
    hide Apply, Enabled;
    RunOfThree(s, Call(1, Push(7)), Lock(1), Append(1));
  }

  /** Two threads block and then one element comes: the signalled one is inside again and has not taken
      the element yet, and nobody is on the way to the other. */
  lemma BoundFailsBeforeTake(s: State<int>) returns (run: seq<Action<int>>)
    requires Init(s) && s.threads == map[0 := Idle, 1 := Idle, 2 := Idle]
    ensures IsRun(s, run)
    ensures var e := After(s, run);
      && MutualExclusion(e) && SpotOf(e) == InPop
      && e.queue == [7] && Waiters(e.threads) == {1} && Signalled(e.threads) == {}
  {
    var s1, first := TwoBlock(s);
    var s2, second := OneComes(s1);
    var s3, third := OneIsSignalled(s2);
    RunsConcat(s, first, second);
    run := first + second;
    RunsConcat(s, run, third);
    run := run + third;
    StateOfRun(s, run);
  }

  lemma TwoBlock(s: State<int>) returns (e: State<int>, run: seq<Action<int>>)
    requires Init(s) && s.threads == map[0 := Idle, 1 := Idle, 2 := Idle]
    ensures IsRun(s, run) && e == After(s, run)
    ensures e.queue == [] && e.holder == None && e.threads == map[0 := Waiting, 1 := Waiting, 2 := Idle]
  {
    var s1 := Apply(s, Call(0, Pop(true)));
    var s2 := Apply(s1, Lock(0));
    var s3 := Apply(s2, Wait(0));
    var s4 := Apply(s3, Call(1, Pop(true)));
    var s5 := Apply(s4, Lock(1));
    e := Apply(s5, Wait(1));
    assert e.queue == [] && e.holder == None && e.threads == map[0 := Waiting, 1 := Waiting, 2 := Idle];
    hide Apply, Enabled;
    run := [Call(0, Pop(true)), Lock(0), Wait(0), Call(1, Pop(true)), Lock(1), Wait(1)];
    Prepend(s5, Wait(1), []);
    Prepend(s4, Lock(1), [Wait(1)]);
    Prepend(s3, Call(1, Pop(true)), [Lock(1), Wait(1)]);
    Prepend(s2, Wait(0), [Call(1, Pop(true)), Lock(1), Wait(1)]);
    Prepend(s1, Lock(0), [Wait(0), Call(1, Pop(true)), Lock(1), Wait(1)]);
    Prepend(s, Call(0, Pop(true)), [Lock(0), Wait(0), Call(1, Pop(true)), Lock(1), Wait(1)]);
  }

  lemma OneComes(s: State<int>) returns (e: State<int>, run: seq<Action<int>>)
    requires s.queue == [] && s.holder == None && s.threads == map[0 := Waiting, 1 := Waiting, 2 := Idle]
    ensures IsRun(s, run) && e == After(s, run)
    ensures e.queue == [7] && e.holder == Some(2) && e.threads == map[0 := Waiting, 1 := Waiting, 2 := Appended(7)]
  {
    var s1 := Apply(s, Call(2, Push(7)));
    var s2 := Apply(s1, Lock(2));
    e := Apply(s2, Append(2));
    assert e.threads == map[0 := Waiting, 1 := Waiting, 2 := Appended(7)];
    hide Apply, Enabled;
    run := [Call(2, Push(7)), Lock(2), Append(2)];
    Prepend(s2, Append(2), []);
    Prepend(s1, Lock(2), [Append(2)]);
    Prepend(s, Call(2, Push(7)), [Lock(2), Append(2)]);
  }

  lemma OneIsSignalled(s: State<int>) returns (e: State<int>, run: seq<Action<int>>)
    requires s.queue == [7] && s.holder == Some(2) && s.threads == map[0 := Waiting, 1 := Waiting, 2 := Appended(7)]
    ensures IsRun(s, run) && e == After(s, run)
    ensures e.queue == [7] && e.holder == Some(0) && e.threads == map[0 := Inside(Pop(true)), 1 := Waiting, 2 := Idle]
    ensures Waiters(e.threads) == {1} && Signalled(e.threads) == {}
  {
    var s1 := Apply(s, Signal(2, {0}));
    assert s1.threads == map[0 := Woken(true), 1 := Waiting, 2 := Leaving(Push(7), Done)];
    var s2 := Apply(s1, Unlock(2));
    e := Apply(s2, Resume(0));
    assert e.threads == map[0 := Inside(Pop(true)), 1 := Waiting, 2 := Idle];
    hide Apply, Enabled;
    run := [Signal(2, {0}), Unlock(2), Resume(0)];
    Prepend(s2, Resume(0), []);
    Prepend(s1, Unlock(2), [Resume(0)]);
    Prepend(s, Signal(2, {0}), [Unlock(2), Resume(0)]);
  }

  lemma {:induction false} RunsConcat<T>(s: State<T>, a: seq<Action<T>>, b: seq<Action<T>>)
    requires IsRun(s, a) && IsRun(After(s, a), b)
    ensures IsRun(s, a + b) && After(s, a + b) == After(After(s, a), b)
    decreases |a|
  {
    if a == [] {
      assert a + b == b;
    } else {
      RunsConcat(Apply(s, a[0]), a[1..], b);
      assert a + b == [a[0]] + (a[1..] + b);
      Prepend(s, a[0], a[1..] + b);
    }
  }

  lemma Prepend<T>(s: State<T>, a: Action<T>, run: seq<Action<T>>)
    requires Enabled(s, a) && IsRun(Apply(s, a), run)
    ensures IsRun(s, [a] + run) && After(s, [a] + run) == After(Apply(s, a), run)
  {
    assert ([a] + run)[1..] == run;
  }

  /* ---- First in, first out ---- */

  function PushedBy<T>(log: seq<Event<T>>): seq<T> {
    if log == [] then []
    else
      var e := log[|log| - 1];
      PushedBy(log[..|log| - 1]) + if e.op.Push? then [e.op.value] else []
  }

  function ReturnedBy<T>(log: seq<Event<T>>): seq<T> {
    if log == [] then []
    else
      var e := log[|log| - 1];
      ReturnedBy(log[..|log| - 1]) + if e.outcome.Got? then [e.outcome.value] else []
  }

  lemma {:induction false} ReplayIsFifo<T>(log: seq<Event<T>>)
    requires Replay(log).Some?
    ensures PushedBy(log) == ReturnedBy(log) + Replay(log).value
  {
    if log != [] {
      var before := log[..|log| - 1];
      ReplayIsFifo(before);
      var e, q := log[|log| - 1], Replay(before).value;
      if e.outcome.Got? {
        assert q == [q[0]] + q[1..];
      }
    }
  }

  /** What the pops returned, in the order of their critical sections, followed by what is still
      in the queue, is what the pushes put in: nothing is lost, doubled or overtaken. */
  lemma FirstInFirstOut<T>(s: State<T>, run: seq<Action<T>>)
    requires Init(s) && IsRun(s, run)
    requires After(s, run).holder.None?
    ensures var e := After(s, run); PushedBy(e.log) == ReturnedBy(e.log) + e.queue
  {
    Reachable(s, run);
    ReplayIsFifo(After(s, run).log);
  }

  /** A call that is over, and a thread that waits or was woken, does not have the mutex. */
  lemma EveryExitReleasesTheMutex<T>(s: State<T>, run: seq<Action<T>>, t: Tid)
    requires Init(s) && IsRun(s, run) && t in s.threads
    ensures var e := After(s, run); t in e.threads && (HasMutex(e.threads[t]) <==> e.holder == Some(t))
  {
    Reachable(s, run);
    SameThreads(s, run);
  }

  lemma {:induction false} SameThreads<T>(s: State<T>, run: seq<Action<T>>)
    requires IsRun(s, run)
    ensures After(s, run).threads.Keys == s.threads.Keys
    decreases |run|
  {
    if run != [] {
      assert Apply(s, run[0]).threads.Keys == s.threads.Keys;
      SameThreads(Apply(s, run[0]), run[1..]);
    }
  }

  /* ---- Progress ---- */

  /** Steps that happen by themselves: neither a new call nor a spurious wakeup. */
  predicate Internal<T>(a: Action<T>) {
    !a.Call? && !a.WakeSpuriously?
  }

  /** The step that the thread with the mutex takes next. */
  function NextInside<T>(s: State<T>): (a: Action<T>)
    requires MutualExclusion(s) && s.holder.Some?
    ensures Enabled(s, a) && Internal(a) && a.t == s.holder.value
  {
    var t := s.holder.value;
    match s.threads[t]
    case Appended(_) => Signal(t, if s.queue == [] then {} else Waiters(s.threads))
    case Leaving(_, _) => Unlock(t)
    case Inside(op) =>
      if op.Push? then Append(t)
      else if !op.Pop? then Observe(t)
      else if s.queue != [] then Take(t)
      else if op.block then Wait(t)
      else Refuse(t)
  }

  ghost predicate Stuck<T(!new)>(s: State<T>) {
    forall a: Action<T> | Internal(a) :: !Enabled(s, a)
  }

  /** Every thread is outside the queue or is blocked on an empty queue. */
  predicate Quiet<T>(s: State<T>) {
    && s.holder.None?
    && (forall t | t in s.threads :: s.threads[t].Idle? || s.threads[t].Waiting?)
    && (Waiters(s.threads) != {} ==> s.queue == [])
  }

  lemma StuckIsQuiet<T(!new)>(s: State<T>)
    requires Inv(s) && Stuck(s)
    ensures Quiet(s)
  {
    if s.holder.Some? {
      var next := NextInside(s);
      assert false;
    }
    forall t | t in s.threads ensures s.threads[t].Idle? || s.threads[t].Waiting? {
      var lock: Action<T>, resume: Action<T> := Lock(t), Resume(t);
      assert Internal(lock) && Internal(resume);
    }
    assert Signalled(s.threads) == {};
  }

  /** Whenever nothing can move by itself, no thread sleeps next to an element. */
  lemma StuckOnlyWhenQuiet<T(!new)>(s: State<T>, run: seq<Action<T>>)
    requires Init(s) && IsRun(s, run) && Stuck(After(s, run))
    ensures Quiet(After(s, run))
  {
    Reachable(s, run);
    StuckIsQuiet(After(s, run));
  }

  /** How many steps a thread has before it, unless it is woken. */
  function Rank<T>(pc: Pc<T>): nat {
    match pc
    case Idle => 0
    case Waiting => 0
    case Leaving(_, _) => 1
    case Appended(_) => 2
    case Inside(_) => 3
    case Calling(_) => 4
    case Woken(_) => 4
  }

  predicate PushPending<T>(pc: Pc<T>) {
    pc.Appended? || ((pc.Calling? || pc.Inside?) && pc.op.Push?)
  }

  function AtLeast<T>(threads: map<Tid, Pc<T>>, rank: nat): set<Tid> {
    set t | t in threads && Rank(threads[t]) >= rank
  }

  function Pushing<T>(threads: map<Tid, Pc<T>>): set<Tid> {
    set t | t in threads && PushPending(threads[t])
  }

  /** The ranks of all threads together. */
  function Ranks<T>(threads: map<Tid, Pc<T>>): nat {
    |AtLeast(threads, 1)| + |AtLeast(threads, 2)| + |AtLeast(threads, 3)| + |AtLeast(threads, 4)|
  }

  /** A push may wake all other threads, and then has signalled for good. */
  function StepsLeft<T>(s: State<T>): nat {
    |Pushing(s.threads)| * (4 * |s.threads.Keys| + 1) + Ranks(s.threads)
  }

  lemma RanksBound<T>(threads: map<Tid, Pc<T>>)
    ensures Ranks(threads) <= 4 * |threads.Keys|
  {
    forall j: nat ensures |AtLeast(threads, j)| <= |threads.Keys| {
      Within(AtLeast(threads, j), threads.Keys);
    }
  }

  lemma Within(a: set<Tid>, b: set<Tid>)
    requires a <= b
    ensures |a| <= |b|
  {
    assert b == a + (b - a);
  }

  lemma AtLeastUpdate<T>(threads: map<Tid, Pc<T>>, t: Tid, pc: Pc<T>, rank: nat)
    requires t in threads
    ensures |AtLeast(threads[t := pc], rank)| + (if Rank(threads[t]) >= rank then 1 else 0)
         == |AtLeast(threads, rank)| + (if Rank(pc) >= rank then 1 else 0)
  {
    var others := AtLeast(threads, rank) - {t};
    assert AtLeast(threads, rank) == if Rank(threads[t]) >= rank then others + {t} else others;
    assert AtLeast(threads[t := pc], rank) == if Rank(pc) >= rank then others + {t} else others;
  }

  lemma RanksUpdate<T>(threads: map<Tid, Pc<T>>, t: Tid, pc: Pc<T>)
    requires t in threads
    ensures Ranks(threads[t := pc]) + Rank(threads[t]) == Ranks(threads) + Rank(pc)
  {
    hide AtLeast;
    AtLeastUpdate(threads, t, pc, 1);
    AtLeastUpdate(threads, t, pc, 2);
    AtLeastUpdate(threads, t, pc, 3);
    AtLeastUpdate(threads, t, pc, 4);
  }

  lemma SignalEndsPush<T>(s: State<T>, a: Action<T>)
    requires Enabled(s, a) && a.Signal?
    ensures |Pushing(Apply(s, a).threads)| == |Pushing(s.threads)| - 1 && Apply(s, a).threads.Keys == s.threads.Keys
  {
    assert Pushing(Apply(s, a).threads) == Pushing(s.threads) - {a.t};
  }

  lemma OthersKeepPushes<T>(s: State<T>, a: Action<T>)
    requires Enabled(s, a) && Internal(a) && !a.Signal?
    ensures Pushing(Apply(s, a).threads) == Pushing(s.threads) && Apply(s, a).threads.Keys == s.threads.Keys
    ensures Ranks(Apply(s, a).threads) < Ranks(s.threads)
  {
    var pc := Apply(s, a).threads[a.t];
    assert Apply(s, a).threads == s.threads[a.t := pc];
    RanksUpdate(s.threads, a.t, pc);
    hide Ranks;
  }

  lemma EveryStepCounts<T>(s: State<T>, a: Action<T>)
    requires Enabled(s, a) && Internal(a)
    ensures StepsLeft(Apply(s, a)) < StepsLeft(s)
  {
    if a.Signal? {
      SignalEndsPush(s, a);
      RanksBound(Apply(s, a).threads);
      var n, k := 4 * |s.threads.Keys| + 1, |Pushing(s.threads)|;
      assert (k - 1) * n == k * n - n;
    } else {
      OthersKeepPushes(s, a);
    }
  }

  ghost predicate AllInternal<T>(run: seq<Action<T>>) {
    forall i :: 0 <= i < |run| ==> Internal(run[i])
  }

  /** Without new calls and spurious wakeups no run goes on for ever, whoever gets the mutex and however many
      threads a signal wakes. */
  lemma {:induction false} InternalRunsEnd<T>(s: State<T>, run: seq<Action<T>>)
    requires IsRun(s, run) && AllInternal(run)
    ensures |run| + StepsLeft(After(s, run)) <= StepsLeft(s)
    decreases |run|
  {
    if run != [] {
      EveryStepCounts(s, run[0]);
      InternalRunsEnd(Apply(s, run[0]), run[1..]);
    }
  }

  /** From every reachable state, every run without new calls and spurious wakeups has a bounded length, and
      one that cannot go on has handed out the elements: the queue is empty or no thread is blocked. */
  lemma WaitersAreServed<T(!new)>(s: State<T>, run: seq<Action<T>>)
    requires Inv(s) && IsRun(s, run) && AllInternal(run)
    ensures |run| <= StepsLeft(s)
    ensures Stuck(After(s, run)) ==> Quiet(After(s, run))
  {
    InternalRunsEnd(s, run);
    Reachable(s, run);
    if Stuck(After(s, run)) {
      StuckIsQuiet(After(s, run));
    }
  }

  /** Such a run exists from every reachable state, so every run can be continued to one. */
  lemma {:induction false} SomeRunServes<T(!new)>(s: State<T>) returns (run: seq<Action<T>>)
    requires Inv(s)
    ensures IsRun(s, run) && AllInternal(run) && Stuck(After(s, run))
    decreases StepsLeft(s)
  {
    hide Apply, Enabled, Internal, Stuck, Inv, StepsLeft;
    if Stuck(s) {
      return [];
    }
    var a := SomeStep(s);
    var rest := SomeRunServes(Apply(s, a));
    Prepend(s, a, rest);
    run := [a] + rest;
  }

  lemma SomeStep<T(!new)>(s: State<T>) returns (a: Action<T>)
    requires Inv(s) && !Stuck(s)
    ensures Enabled(s, a) && Internal(a) && Inv(Apply(s, a)) && StepsLeft(Apply(s, a)) < StepsLeft(s)
  {
    hide Apply, Enabled, Internal, StepsLeft;
    a :| Internal(a) && Enabled(s, a);
    LinearStep(s, a);
    WakeupStep(s, a);
    EveryStepCounts(s, a);
  }

  /* ---- The code of the critical sections ---- */

  lemma RunOfThree<T>(s: State<T>, a: Action<T>, b: Action<T>, c: Action<T>)
    requires Enabled(s, a) && Enabled(Apply(s, a), b) && Enabled(Apply(Apply(s, a), b), c)
    ensures IsRun(s, [a, b, c]) && After(s, [a, b, c]) == Apply(Apply(Apply(s, a), b), c)
  {
    var s1 := Apply(s, a);
    var s2 := Apply(s1, b);
    Prepend(s2, c, []);
    Prepend(s1, b, [c]);
    Prepend(s, a, [b, c]);
    assert [c] + [] == [c] && [b] + [c] == [b, c] && [a] + [b, c] == [a, b, c];
  }

  lemma RunOfFour<T>(s: State<T>, a: Action<T>, b: Action<T>, c: Action<T>, d: Action<T>)
    requires Enabled(s, a) && Enabled(Apply(s, a), b) && Enabled(Apply(Apply(s, a), b), c)
    requires Enabled(Apply(Apply(Apply(s, a), b), c), d)
    ensures IsRun(s, [a, b, c, d]) && After(s, [a, b, c, d]) == Apply(Apply(Apply(Apply(s, a), b), c), d)
  {
    RunOfThree(Apply(s, a), b, c, d);
    Prepend(s, a, [b, c, d]);
    assert [a] + [b, c, d] == [a, b, c, d];
  }

  /** The object. Each method is one passage of a thread through the mutex, from the moment it gets
      the mutex to the moment it gives it up; `woken` is the scheduler's choice at a signal. */
  /** What is left of a push: its element is behind the others, the threads it woke are on their way, and all
      others are where they were. */
  lemma PushLeaves<T>(s: State<T>, t: Tid, value: T, woken: set<Tid>)
    requires t in s.threads && s.threads[t] == Calling(Push(value)) && s.holder.None?
    requires woken <= Waiters(s.threads) && (Waiters(s.threads) != {} ==> woken != {})
    ensures IsRun(s, [Lock(t), Append(t), Signal(t, woken), Unlock(t)])
    ensures var e := After(s, [Lock(t), Append(t), Signal(t, woken), Unlock(t)]);
      && e.queue == s.queue + [value] && e.holder.None? && e.log == s.log + [Event(t, Push(value), Done)]
      && e.threads.Keys == s.threads.Keys && e.threads[t] == Idle
      && forall u | u in s.threads && u != t :: e.threads[u] == if u in woken then Woken(true) else s.threads[u]
  {
    var s2 := Apply(Apply(s, Lock(t)), Append(t));
    assert s2.threads == s.threads[t := Appended(value)];
    assert Waiters(s2.threads) == Waiters(s.threads);
    RunOfFour(s, Lock(t), Append(t), Signal(t, woken), Unlock(t));
  }

  /** What is left of a pop that enters with the action `enter`: on an empty queue it waits or is refused and
      leaves it empty, otherwise it takes the oldest. */
  lemma PopLeaves<T>(s: State<T>, t: Tid, block: bool, enter: Action<T>)
    requires t in s.threads && s.holder.None?
    requires if s.threads[t].Woken? then block && enter == Resume(t)
             else s.threads[t] == Calling(Pop(block)) && enter == Lock(t)
    ensures s.queue != [] ==>
              && IsRun(s, [enter, Take(t), Unlock(t)])
              && After(s, [enter, Take(t), Unlock(t)])
                 == State(s.queue[1..], None, s.threads[t := Idle], s.log + [Event(t, Pop(block), Got(s.queue[0]))])
    ensures s.queue == [] && block ==>
              && IsRun(s, [enter, Wait(t)])
              && After(s, [enter, Wait(t)]) == State([], None, s.threads[t := Waiting], s.log)
    ensures s.queue == [] && !block ==>
              && IsRun(s, [enter, Refuse(t), Unlock(t)])
              && After(s, [enter, Refuse(t), Unlock(t)])
                 == State([], None, s.threads[t := Idle], s.log + [Event(t, Pop(block), EmptyError)])
  {
    if s.queue != [] {
      RunOfThree(s, enter, Take(t), Unlock(t));
    } else if block {
      var wait: Action<T> := Wait(t);
      Prepend(Apply(s, enter), wait, []);
      Prepend(s, enter, [wait]);
      assert [wait] + [] == [wait] && [enter] + [wait] == [enter, wait];
    } else {
      RunOfThree(s, enter, Refuse(t), Unlock(t));
    }
  }

  /** A thread that is woken by nobody finds the queue as empty as before and blocks again. */
  lemma SpuriousWakeup<T>(s: State<T>, t: Tid)
    requires t in s.threads && s.threads[t].Waiting? && s.holder.None? && s.queue == []
    ensures IsRun(s, [WakeSpuriously(t), Resume(t), Wait(t)])
    ensures After(s, [WakeSpuriously(t), Resume(t), Wait(t)]) == s
    ensures Signalled(Apply(s, WakeSpuriously(t)).threads) == Signalled(s.threads)
  {
    RunOfThree(s, WakeSpuriously(t), Resume(t), Wait(t));
    assert s.threads[t := Waiting] == s.threads;
  }

  class TSQueue<T(==)> {
    var queue: seq<T>
    var holder: Option<Tid>
    var threads: map<Tid, Pc<T>>
    var log: seq<Event<T>>

    function View(): State<T>
      reads this
    {
      State(queue, holder, threads, log)
    }

    constructor (clients: set<Tid>)
      ensures Init(View()) && threads.Keys == clients
    {
      queue, holder, log := [], None, [];
      threads := map t | t in clients :: Idle;
    }

    method Push(t: Tid, value: T, woken: set<Tid>)
      requires t in threads && threads[t] == Calling(Op.Push(value)) && holder.None?
      requires woken <= Waiters(threads) && (Waiters(threads) != {} ==> woken != {})
      modifies this
      ensures var run := [Lock(t), Append(t), Signal(t, woken), Unlock(t)];
        IsRun(old(View()), run) && View() == After(old(View()), run)
      ensures queue == old(queue) + [value] && holder.None?
    {
      ghost var s0 := View();
      holder := Some(t);
      threads := threads[t := Inside(Op.Push(value))];
      queue := queue + [value];
      threads := threads[t := Appended(value)];
      SignalledUpdate(s0.threads, t, Appended(value));
      if queue != [] {
        threads := Release(threads, woken);
      }
      threads := threads[t := Leaving(Op.Push(value), Done)];
      holder := None;
      threads := threads[t := Idle];
      log := log + [Event(t, Op.Push(value), Done)];
      ghost var s1 := Apply(s0, Lock(t));
      ghost var s2 := Apply(s1, Append(t));
      assert Waiters(s2.threads) == Waiters(s0.threads);
      RunOfFour(s0, Lock(t), Append(t), Signal(t, woken), Unlock(t));
    }

    /** A pop that enters (or comes back from the condition variable) leaves with an element, leaves
        with the error, or blocks on the condition variable. */
    method Pop(t: Tid, block: bool) returns (result: Option<Outcome<T>>)
      requires t in threads && holder.None?
      requires threads[t] == Calling(Op.Pop(block)) || (threads[t].Woken? && block)
      modifies this
      ensures var enter := if old(threads[t]).Calling? then Lock(t) else Resume(t);
        if old(queue) != [] then
          && result == Some(Got(old(queue)[0]))
          && IsRun(old(View()), [enter, Take(t), Unlock(t)])
          && View() == After(old(View()), [enter, Take(t), Unlock(t)])
        else if block then
          && result == None
          && IsRun(old(View()), [enter, Wait(t)])
          && View() == After(old(View()), [enter, Wait(t)])
        else
          && result == Some(EmptyError)
          && IsRun(old(View()), [enter, Refuse(t), Unlock(t)])
          && View() == After(old(View()), [enter, Refuse(t), Unlock(t)])
      ensures holder.None? && queue == if old(queue) != [] then old(queue)[1..] else []
    {
      ghost var s0 := View();
      ghost var enter := if threads[t].Calling? then Lock(t) else Resume(t);
      ghost var s1 := Apply(s0, enter);
      holder := Some(t);
      threads := threads[t := Inside(Op.Pop(block))];
      if block && queue == [] {
        ghost var wait: Action<T> := Wait(t);
        Prepend(s1, wait, []);
        Prepend(s0, enter, [wait]);
        assert [wait] + [] == [wait] && [enter] + [wait] == [enter, wait];
        holder := None;
        threads := threads[t := Waiting];
        return None;
      }
      if queue == [] {
        RunOfThree(s0, enter, Refuse(t), Unlock(t));
        result := Some(EmptyError);
      } else {
        RunOfThree(s0, enter, Take(t), Unlock(t));
        result := Some(Got(queue[0]));
        queue := queue[1..];
      }
      threads := threads[t := Leaving(Op.Pop(block), result.value)];
      holder := None;
      threads := threads[t := Idle];
      log := log + [Event(t, Op.Pop(block), result.value)];
    }

    method Size(t: Tid) returns (n: nat)
      requires t in threads && threads[t] == Calling(Op.Size) && holder.None?
      modifies this
      ensures n == |queue| && queue == old(queue) && holder.None?
      ensures IsRun(old(View()), [Lock(t), Observe(t), Unlock(t)])
      ensures View() == After(old(View()), [Lock(t), Observe(t), Unlock(t)])
    {
      RunOfThree(View(), Lock(t), Observe(t), Unlock(t));
      holder := Some(t);
      n := |queue|;
      holder := None;
      threads := threads[t := Inside(Op.Size)][t := Leaving(Op.Size, Count(n))][t := Idle];
      log := log + [Event(t, Op.Size, Count(n))];
    }

    method Empty(t: Tid) returns (b: bool)
      requires t in threads && threads[t] == Calling(Op.Empty) && holder.None?
      modifies this
      ensures b == (queue == []) && queue == old(queue) && holder.None?
      ensures IsRun(old(View()), [Lock(t), Observe(t), Unlock(t)])
      ensures View() == After(old(View()), [Lock(t), Observe(t), Unlock(t)])
    {
      RunOfThree(View(), Lock(t), Observe(t), Unlock(t));
      holder := Some(t);
      b := queue == [];
      holder := None;
      threads := threads[t := Inside(Op.Empty)][t := Leaving(Op.Empty, IsEmpty(b))][t := Idle];
      log := log + [Event(t, Op.Empty, IsEmpty(b))];
    }
  }
}
