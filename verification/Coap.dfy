/**
 The CoAP request handler: SDK callback, worker thread, stop and deinit, as one
 interleaved machine. Each action below is one critical section or one call out.
 A condition wait puts its thread to sleep, and only a signal, or a spurious
 wakeup, lets it test its condition again. SDK callbacks run one at a time. A
 request is named by its place in the order of arrival.
 */
module Coap {
  import opened Bytes

  type Request = nat

  /** Where the SDK callback stands. */
  datatype CallbackPc =
    | Idle
    | Entering
    | Rejecting
    | Taking
    | Enqueueing(r: Request)
    | Refusing(r: Request)
    | Rechecking
    | Arming
    | Leaving

  /** Waiting: about to test the queue with the mutex held; Sleeping: inside the condition wait. */
  datatype WorkerPc = Waiting | Sleeping | Handling(r: Request) | Freeing(r: Request) | Exited

  datatype DeinitPc = NotBegun | AwaitingCallbacks | Dozing | Joining | Draining(rest: seq<Request>) | Done

  datatype Handler = Handler(
    stopping: bool,
    activeCallbacks: nat,
    armed: bool,
    slot: Option<Request>,
    queue: seq<Request>,
    callback: CallbackPc,
    worker: WorkerPc,
    deinit: DeinitPc,
    arrivals: nat,
    enqueued: seq<Request>,
    handled: seq<Request>,
    freed: seq<Request>)

  /** After init: listening, the worker started. */
  const INIT := Handler(false, 0, true, None, [], Idle, Waiting, NotBegun, 0, [], [], [])

  datatype Action =
    | Deliver | DeliverError
    | Enter | Reject | Take | Enqueue(room: bool) | Refuse | Recheck | Arm | Leave
    | Sleep | Pop | Handle | Free | Exit
    | Stop
    | BeginDeinit | Doze | CallbacksGone | Join | DrainOne | Finish
    | Spurious

  predicate Enabled(s: Handler, a: Action) {
    match a
    case Deliver | DeliverError => s.armed && s.callback.Idle?
    case Enter => s.callback.Entering?
    case Reject => s.callback.Rejecting?
    case Take => s.callback.Taking? && s.slot.Some?
    case Enqueue(_) => s.callback.Enqueueing?
    case Refuse => s.callback.Refusing?
    case Recheck => s.callback.Rechecking?
    case Arm => s.callback.Arming?
    case Leave => s.callback.Leaving?
    case Sleep => s.worker.Waiting? && s.queue == [] && !s.stopping
    case Pop => s.worker.Waiting? && s.queue != []
    case Handle => s.worker.Handling?
    case Free => s.worker.Freeing?
    case Exit => s.worker.Waiting? && s.queue == [] && s.stopping
    case Stop => true
    case BeginDeinit => s.deinit.NotBegun?
    case Doze => s.deinit.AwaitingCallbacks? && s.activeCallbacks > 0
    case CallbacksGone => s.deinit.AwaitingCallbacks? && s.activeCallbacks == 0
    case Join => s.deinit.Joining? && s.worker.Exited?
    case DrainOne => s.deinit.Draining? && s.deinit.rest != []
    case Finish => s.deinit.Draining? && s.deinit.rest == []
    case Spurious => s.worker.Sleeping? || s.deinit.Dozing?
  }

  /** A signal or a broadcast on queueCond, on which only the worker waits. */
  function SignalWorker(s: Handler): Handler { if s.worker.Sleeping? then s.(worker := Waiting) else s }

  /** A broadcast on callbackCond, on which only deinit waits. */
  function SignalDeinit(s: Handler): Handler { if s.deinit.Dozing? then s.(deinit := AwaitingCallbacks) else s }

  /** request_callback, callback_enter, enqueue_request and callback_leave. */
  function CallbackStep(s: Handler, a: Action): Handler
    requires Enabled(s, a)
  {
    match a
    case Deliver => s.(armed := false, slot := Some(s.arrivals), arrivals := s.arrivals + 1, callback := Entering)
    case DeliverError => s.(armed := false)
    case Enter =>
      if s.stopping then s.(callback := Rejecting)
      else s.(activeCallbacks := s.activeCallbacks + 1, callback := Taking)
    case Reject =>
      s.(freed := if s.slot.Some? then s.freed + [s.slot.value] else s.freed, slot := None, callback := Idle)
    case Take => s.(slot := None, callback := Enqueueing(s.slot.value))
    case Enqueue(room) =>
      if !room || s.stopping then s.(callback := Refusing(s.callback.r))
      else
        SignalWorker(
          s.(queue := s.queue + [s.callback.r], enqueued := s.enqueued + [s.callback.r], callback := Rechecking))
    case Refuse => s.(freed := s.freed + [s.callback.r], callback := Rechecking)
    case Recheck => s.(callback := if s.stopping then Leaving else Arming)
    case Arm => s.(armed := true, callback := Leaving)
    case Leave =>
      var t := s.(activeCallbacks := if s.activeCallbacks > 0 then s.activeCallbacks - 1 else 0, callback := Idle);
      if t.stopping && t.activeCallbacks == 0 then SignalDeinit(t) else t
    case _ => s
  }

  /** coap_worker_thread */
  function WorkerStep(s: Handler, a: Action): Handler
    requires Enabled(s, a)
  {
    match a
    case Sleep => s.(worker := Sleeping)
    case Pop => s.(queue := s.queue[1..], worker := Handling(s.queue[0]))
    case Handle => s.(handled := s.handled + [s.worker.r], worker := Freeing(s.worker.r))
    case Free => s.(freed := s.freed + [s.worker.r], worker := Waiting)
    case Exit => s.(worker := Exited)
    case _ => s
  }

  /** tmuxremote_coap_handler_stop and tmuxremote_coap_handler_deinit */
  function ShutdownStep(s: Handler, a: Action): Handler
    requires Enabled(s, a)
  {
    match a
    case Stop => SignalWorker(s.(stopping := true))
    case BeginDeinit => SignalWorker(s.(stopping := true, deinit := AwaitingCallbacks))
    case Doze => s.(deinit := Dozing)
    case CallbacksGone => SignalWorker(s.(deinit := Joining))
    case Join => s.(deinit := Draining(s.queue), queue := [])
    case DrainOne => s.(freed := s.freed + [s.deinit.rest[0]], deinit := Draining(s.deinit.rest[1..]))
    case Finish => s.(deinit := Done)
    case Spurious => SignalDeinit(SignalWorker(s))
    case _ => s
  }

  function Step(s: Handler, a: Action): Handler
    requires Enabled(s, a)
  {
    if a.Sleep? || a.Pop? || a.Handle? || a.Free? || a.Exit? then WorkerStep(s, a)
    else if a.Stop? || a.BeginDeinit? || a.Doze? || a.CallbacksGone? || a.Join? || a.DrainOne? || a.Finish? || a.Spurious?
    then ShutdownStep(s, a)
    else CallbackStep(s, a)
  }

  // ----- the invariant

  /** How often a request occurs in a list. */
  function Count(q: seq<Request>, r: Request): nat {
    if q == [] then 0 else Count(q[..|q| - 1], r) + One(q[|q| - 1] == r)
  }

  /** How many places hold a request: freed, held by the SDK callback, queued, with the worker, to be drained. */
  function Copies(s: Handler, r: Request): nat {
    Count(s.freed, r) + InCallback(s, r) + Count(s.queue, r) + InWorker(s, r) + InDrain(s, r)
  }

  function InCallback(s: Handler, r: Request): nat {
    One(s.slot == Some(r)) + One((s.callback.Enqueueing? || s.callback.Refusing?) && s.callback.r == r)
  }

  function InWorker(s: Handler, r: Request): nat {
    One((s.worker.Handling? || s.worker.Freeing?) && s.worker.r == r)
  }

  function InDrain(s: Handler, r: Request): nat {
    if s.deinit.Draining? then Count(s.deinit.rest, r) else 0
  }

  lemma {:induction false} CountFront(q: seq<Request>, r: Request)
    requires q != []
    ensures Count(q, r) == One(q[0] == r) + Count(q[1..], r)
  {
    if |q| > 1 {
      CountFront(q[..|q| - 1], r);
      assert q[..|q| - 1][1..] == q[1..][..|q| - 2];
    }
  }

  lemma CountBack(q: seq<Request>, x: Request, r: Request)
    ensures Count(q + [x], r) == Count(q, r) + One(x == r)
  {
    assert (q + [x])[..|q|] == q;
  }

  predicate Ascending(q: seq<Request>, bound: nat) {
    && (forall i :: 0 <= i < |q| ==> q[i] < bound)
    && (forall i, j :: 0 <= i < j < |q| ==> q[i] < q[j])
  }

  /** The requests the worker has taken and not yet handled. */
  function InHand(s: Handler): seq<Request> {
    if s.worker.Handling? then [s.worker.r] else []
  }

  /** The slot and the counter as the callback's position says. */
  predicate CallbackInv(s: Handler) {
    && (s.slot.Some? <==> s.callback.Entering? || s.callback.Rejecting? || s.callback.Taking?)
    && (s.slot.Some? ==> s.arrivals > 0 && s.slot.value == s.arrivals - 1)
    && (s.callback.Enqueueing? ==> s.arrivals > 0 && s.callback.r == s.arrivals - 1)
    && s.activeCallbacks ==
       (if s.callback.Idle? || s.callback.Entering? || s.callback.Rejecting? then 0 else 1)
    && (s.armed ==> s.callback.Idle? || s.callback.Leaving?)
    && (s.callback.Rejecting? ==> s.stopping)
  }

  /** What was taken or waits in the queue is what was put there, in order of arrival. */
  predicate OrderInv(s: Handler) {
    && s.enqueued == s.handled + InHand(s) + s.queue
    && Ascending(s.enqueued, s.arrivals)
    && (s.slot.Some? || s.callback.Enqueueing? ==> s.arrivals > 0 && Ascending(s.enqueued, s.arrivals - 1))
  }

  /** No wakeup is lost: a thread sleeps only while its condition does not hold. */
  predicate ShutdownInv(s: Handler) {
    && (s.worker.Sleeping? ==> s.queue == [] && !s.stopping)
    && (s.deinit.Dozing? ==> s.activeCallbacks > 0)
    && (!s.deinit.NotBegun? ==> s.stopping)
    && (s.worker.Exited? ==> s.stopping && s.queue == [])
    && (s.deinit.Draining? || s.deinit.Done? ==> s.worker.Exited?)
    && (s.deinit.Draining? ==> s.deinit.rest == [])
  }

  /** Each delivered request is in exactly one place. */
  ghost predicate Conserved(s: Handler) {
    forall r: Request :: Copies(s, r) == One(r < s.arrivals)
  }

  predicate Inv(s: Handler) {
    CallbackInv(s) && OrderInv(s) && ShutdownInv(s)
  }

  lemma ArrivalMoves(s: Handler, a: Action, r: Request)
    requires Enabled(s, a) && CallbackInv(s)
    requires a.Deliver? || a.DeliverError? || a.Enter? || a.Reject? || a.Take?
    ensures Copies(CallbackStep(s, a), r) == Copies(s, r) + One(a.Deliver? && r == s.arrivals)
  {
    if a.Reject? {
      CountBack(s.freed, s.slot.value, r);
    }
  }

  lemma DepartureMoves(s: Handler, a: Action, r: Request)
    requires Enabled(s, a) && (a.Refuse? || a.Recheck? || a.Arm? || a.Leave?)
    ensures Copies(CallbackStep(s, a), r) == Copies(s, r)
  {
    if a.Refuse? {
      CountBack(s.freed, s.callback.r, r);
    }
  }

  lemma EnqueueMoves(s: Handler, room: bool, r: Request)
    requires s.callback.Enqueueing?
    ensures Copies(CallbackStep(s, Enqueue(room)), r) == Copies(s, r)
  {
    if room && !s.stopping {
      var t := s.(queue := s.queue + [s.callback.r], enqueued := s.enqueued + [s.callback.r], callback := Rechecking);
      CountBack(s.queue, s.callback.r, r);
      assert Copies(t, r) == Copies(s, r);
      SignalMovesNothing(t, r);
    }
  }

  lemma SignalMovesNothing(s: Handler, r: Request)
    ensures Copies(SignalWorker(s), r) == Copies(s, r)
  {
  }

  lemma CallbackMoves(s: Handler, a: Action, r: Request)
    requires Enabled(s, a) && CallbackInv(s)
    ensures Copies(CallbackStep(s, a), r) == Copies(s, r) + One(a.Deliver? && r == s.arrivals)
  {
    if a.Deliver? || a.DeliverError? || a.Enter? || a.Reject? || a.Take? {
      ArrivalMoves(s, a, r);
    } else if a.Enqueue? {
      EnqueueMoves(s, a.room, r);
    } else if a.Refuse? || a.Recheck? || a.Arm? || a.Leave? {
      DepartureMoves(s, a, r);
    }
  }

  lemma WorkerMoves(s: Handler, a: Action, r: Request)
    requires Enabled(s, a)
    ensures Copies(WorkerStep(s, a), r) == Copies(s, r)
  {
    if a.Pop? {
      CountFront(s.queue, r);
    } else if a.Free? {
      CountBack(s.freed, s.worker.r, r);
    }
  }

  lemma ShutdownMoves(s: Handler, a: Action, r: Request)
    requires Enabled(s, a)
    ensures Copies(ShutdownStep(s, a), r) == Copies(s, r)
  {
    if a.DrainOne? {
      CountFront(s.deinit.rest, r);
      CountBack(s.freed, s.deinit.rest[0], r);
    }
  }

  lemma ArrivalKeeps(s: Handler, a: Action)
    requires Enabled(s, a) && Inv(s) && (a.Deliver? || a.DeliverError? || a.Enter? || a.Reject? || a.Take?)
    ensures Inv(CallbackStep(s, a))
  {
  }

  lemma EnqueueKeeps(s: Handler, room: bool)
    requires s.callback.Enqueueing? && Inv(s)
    ensures Inv(CallbackStep(s, Enqueue(room)))
  {
  }

  lemma DepartureKeeps(s: Handler, a: Action)
    requires Enabled(s, a) && Inv(s) && (a.Refuse? || a.Recheck? || a.Arm? || a.Leave?)
    ensures Inv(CallbackStep(s, a))
  {
  }

  lemma CallbackKeeps(s: Handler, a: Action)
    requires Enabled(s, a) && Inv(s)
    ensures Inv(CallbackStep(s, a))
  {
    if a.Deliver? || a.DeliverError? || a.Enter? || a.Reject? || a.Take? {
      ArrivalKeeps(s, a);
    } else if a.Enqueue? {
      EnqueueKeeps(s, a.room);
    } else if a.Refuse? || a.Recheck? || a.Arm? || a.Leave? {
      DepartureKeeps(s, a);
    }
  }

  lemma PopKeeps(s: Handler)
    requires s.worker.Waiting? && s.queue != [] && Inv(s)
    ensures Inv(WorkerStep(s, Pop))
  {
    assert s.queue == [s.queue[0]] + s.queue[1..];
  }

  lemma WorkerKeeps(s: Handler, a: Action)
    requires Enabled(s, a) && Inv(s)
    ensures Inv(WorkerStep(s, a))
  {
    if a.Pop? {
      PopKeeps(s);
    }
  }

  lemma ShutdownKeeps(s: Handler, a: Action)
    requires Enabled(s, a) && Inv(s)
    ensures Inv(ShutdownStep(s, a))
  {
  }

  lemma StepKeeps(s: Handler, a: Action)
    requires Enabled(s, a) && Inv(s)
    ensures Inv(Step(s, a))
  {
    CallbackKeeps(s, a);
    WorkerKeeps(s, a);
    ShutdownKeeps(s, a);
  }

  lemma StepMoves(s: Handler, a: Action, r: Request)
    requires Enabled(s, a) && CallbackInv(s)
    ensures Copies(Step(s, a), r) == Copies(s, r) + One(a.Deliver? && r == s.arrivals)
  {
    CallbackMoves(s, a, r);
    WorkerMoves(s, a, r);
    ShutdownMoves(s, a, r);
  }

  lemma StepArrivals(s: Handler, a: Action)
    requires Enabled(s, a)
    ensures Step(s, a).arrivals == s.arrivals + One(a.Deliver?)
  {
  }

  lemma StepConserves(s: Handler, a: Action, next: Handler)
    requires Enabled(s, a) && CallbackInv(s) && Conserved(s) && next == Step(s, a)
    ensures Conserved(next)
  {
    StepArrivals(s, a);
    forall r: Request
      ensures Copies(next, r) == One(r < next.arrivals)
    {
      StepMoves(s, a, r);
    }
  }

  // ----- every interleaving

  predicate Feasible(s: Handler, run: seq<Action>)
    decreases |run|
  {
    run != [] ==> Enabled(s, run[0]) && Feasible(Step(s, run[0]), run[1..])
  }

  function Run(s: Handler, run: seq<Action>): Handler
    requires Feasible(s, run)
    decreases |run|
  {
    if run == [] then s else Run(Step(s, run[0]), run[1..])
  }

  lemma {:induction false} RunKeeps(s: Handler, run: seq<Action>)
    requires Feasible(s, run) && Inv(s) && Conserved(s)
    ensures Inv(Run(s, run)) && Conserved(Run(s, run))
    decreases |run|
  {
    if run != [] {
      StepKeeps(s, run[0]);
      StepConserves(s, run[0], Step(s, run[0]));
      RunKeeps(Step(s, run[0]), run[1..]);
    }
  }

  lemma InitHolds()
    ensures Inv(INIT) && Conserved(INIT)
  {
  }

  /** At any moment: nothing is freed twice, nothing is freed that did not arrive. */
  lemma FreedAtMostOnce(run: seq<Action>, r: Request)
    requires Feasible(INIT, run)
    ensures Count(Run(INIT, run).freed, r) <= One(r < Run(INIT, run).arrivals)
  {
    InitHolds();
    RunKeeps(INIT, run);
    assert Copies(Run(INIT, run), r) == One(r < Run(INIT, run).arrivals);
  }

  /** The worker handles what was enqueued, from the first on, in order of arrival. */
  lemma HandledInOrder(run: seq<Action>)
    requires Feasible(INIT, run)
    ensures
      var s := Run(INIT, run);
      s.handled <= s.enqueued && Ascending(s.enqueued, s.arrivals) && Ascending(s.handled, s.arrivals)
  {
    InitHolds();
    RunKeeps(INIT, run);
    var s := Run(INIT, run);
    assert forall i :: 0 <= i < |s.handled| ==> s.handled[i] == s.enqueued[i];
  }

  /** Once stopping is set it stays, and nothing more is enqueued. */
  lemma {:induction false} NothingAfterStop(s: Handler, run: seq<Action>)
    requires Feasible(s, run) && s.stopping
    ensures Run(s, run).stopping && Run(s, run).enqueued == s.enqueued
    decreases |run|
  {
    if run != [] {
      NothingAfterStop(Step(s, run[0]), run[1..]);
    }
  }

  /** When deinit has joined the worker, the queue it drains is empty. */
  lemma DrainFindsNothing(run: seq<Action>)
    requires Feasible(INIT, run) && Enabled(Run(INIT, run), Join)
    ensures Run(INIT, run).queue == [] && Run(INIT, run).handled == Run(INIT, run).enqueued
  {
    InitHolds();
    RunKeeps(INIT, run);
  }

  // ----- what is enqueued, read off the schedule

  /** The requests offered to the queue with room, as long as nobody has asked to stop. */
  function Accepted(run: seq<Action>, stopping: bool, arrivals: nat): seq<Request>
    decreases |run|
  {
    if run == [] then []
    else
      (if run[0] == Enqueue(true) && !stopping && arrivals > 0 then [arrivals - 1] else [])
      + Accepted(run[1..], stopping || run[0] == Stop || run[0] == BeginDeinit, arrivals + One(run[0] == Deliver))
  }

  /** In every run exactly those are enqueued, in that order, and no other. */
  lemma {:induction false} EnqueuedAsOffered(s: Handler, run: seq<Action>)
    requires Feasible(s, run) && Inv(s)
    ensures Run(s, run).enqueued == s.enqueued + Accepted(run, s.stopping, s.arrivals)
    decreases |run|
  {
    if run == [] {
      assert s.enqueued + [] == s.enqueued;
    } else {
      var t := Step(s, run[0]);
      StepKeeps(s, run[0]);
      OneOffered(s, run[0]);
      EnqueuedAsOffered(t, run[1..]);
      Chained(s.enqueued, if run[0] == Enqueue(true) && !s.stopping && s.arrivals > 0 then [s.arrivals - 1] else [],
              Accepted(run[1..], t.stopping, t.arrivals));
    }
  }

  lemma Chained(a: seq<Request>, b: seq<Request>, c: seq<Request>)
    ensures a + b + c == a + (b + c)
  {
  }

  lemma OneOffered(s: Handler, a: Action)
    requires Enabled(s, a) && CallbackInv(s)
    ensures
      var t := Step(s, a);
      && t.enqueued == s.enqueued + (if a == Enqueue(true) && !s.stopping && s.arrivals > 0 then [s.arrivals - 1] else [])
      && t.stopping == (s.stopping || a == Stop || a == BeginDeinit)
      && t.arrivals == s.arrivals + One(a == Deliver)
  {
    assert s.enqueued + [] == s.enqueued;
  }

  /** Deliveries the handler did not take: those that found no room. */
  function TurnedAway(run: seq<Action>): nat
    decreases |run|
  {
    if run == [] then 0 else One(run[0] == Enqueue(false)) + TurnedAway(run[1..])
  }

  /** The one request that the callback has and has not yet offered to the queue. */
  predicate OnItsWay(s: Handler) { s.callback.Entering? || s.callback.Taking? || s.callback.Enqueueing? }

  predicate NothingStops(run: seq<Action>) { Stop !in run && BeginDeinit !in run && DeliverError !in run }

  /**
   Until someone stops it or the SDK reports an error, the handler never goes deaf: between
   callbacks a listen is armed, and every request was enqueued unless there was no room.
   */
  lemma {:induction false} KeepsListening(s: Handler, run: seq<Action>)
    requires Feasible(s, run) && Inv(s) && !s.stopping && NothingStops(run)
    requires s.callback.Idle? || s.callback.Leaving? ==> s.armed
    ensures
      var t := Run(s, run);
      && (t.callback.Idle? ==> t.armed)
      && |t.enqueued| - |s.enqueued| + TurnedAway(run) == t.arrivals - s.arrivals - One(OnItsWay(t)) + One(OnItsWay(s))
    decreases |run|
  {
    if run != [] {
      StepKeeps(s, run[0]);
      StillListens(s, run[0]);
      KeepsListening(Step(s, run[0]), run[1..]);
    }
  }

  lemma StillListens(s: Handler, a: Action)
    requires Enabled(s, a) && Inv(s) && !s.stopping && a != Stop && a != BeginDeinit && a != DeliverError
    requires s.callback.Idle? || s.callback.Leaving? ==> s.armed
    ensures
      var t := Step(s, a);
      && !t.stopping && (t.callback.Idle? || t.callback.Leaving? ==> t.armed)
      && |t.enqueued| - |s.enqueued| + One(a == Enqueue(false))
         == t.arrivals - s.arrivals - One(OnItsWay(t)) + One(OnItsWay(s))
  {
  }

  // ----- shutdown ends, and ends clean

  predicate Settled(s: Handler) { s.deinit.Done? && s.worker.Exited? && s.callback.Idle? }

  /** How far the shutdown still has to go. */
  function Distance(s: Handler): nat {
    CallbackDistance(s) + WorkerDistance(s) + DeinitDistance(s)
  }

  function CallbackDistance(s: Handler): nat {
    (if s.armed then 3 else 0) +
    match s.callback
    case Idle => 0
    case Rejecting => 1
    case Leaving | Entering => 2
    case Rechecking => 3
    case Refusing(_) => 4
    case Enqueueing(_) => 5
    case Taking | Arming => 6
  }

  function WorkerDistance(s: Handler): nat {
    3 * |s.queue| +
    match s.worker
    case Exited => 0
    case Waiting | Sleeping => 1
    case Freeing(_) => 2
    case Handling(_) => 3
  }

  function DeinitDistance(s: Handler): nat {
    match s.deinit
    case NotBegun => 6
    case AwaitingCallbacks => 5
    case Dozing => 4
    case Joining => 3
    case Draining(rest) => 2 + |rest|
    case Done => 0
  }

  lemma StepComesCloser(s: Handler, a: Action)
    requires Enabled(s, a) && Inv(s) && !s.deinit.NotBegun? && a != Stop && a != Spurious
    ensures Distance(Step(s, a)) < Distance(s) && !Step(s, a).deinit.NotBegun?
  {
    CallbackComesCloser(s, a);
    WorkerComesCloser(s, a);
    ShutdownComesCloser(s, a);
  }

  lemma CallbackComesCloser(s: Handler, a: Action)
    requires Enabled(s, a) && Inv(s) && !s.deinit.NotBegun?
    ensures CallbackStep(s, a) == s || Distance(CallbackStep(s, a)) < Distance(s)
    ensures !CallbackStep(s, a).deinit.NotBegun?
  {
  }

  lemma WorkerComesCloser(s: Handler, a: Action)
    requires Enabled(s, a) && Inv(s) && !s.deinit.NotBegun?
    ensures WorkerStep(s, a) == s || Distance(WorkerStep(s, a)) < Distance(s)
    ensures !WorkerStep(s, a).deinit.NotBegun?
  {
  }

  lemma ShutdownComesCloser(s: Handler, a: Action)
    requires Enabled(s, a) && Inv(s) && !s.deinit.NotBegun? && a != Stop && a != Spurious
    ensures ShutdownStep(s, a) == s || Distance(ShutdownStep(s, a)) < Distance(s)
    ensures !ShutdownStep(s, a).deinit.NotBegun?
  {
  }

  /** From the moment deinit begins, every schedule is finite, spurious wakeups aside. */
  lemma {:induction false} ShutdownEnds(s: Handler, run: seq<Action>)
    requires Inv(s) && !s.deinit.NotBegun? && Feasible(s, run) && Stop !in run && Spurious !in run
    ensures |run| <= Distance(s)
    decreases |run|
  {
    if run != [] {
      StepKeeps(s, run[0]);
      StepComesCloser(s, run[0]);
      ShutdownEnds(Step(s, run[0]), run[1..]);
    }
  }

  /** No schedule gets stuck short of the end: some thread that is awake can always move. */
  lemma ShutdownNeverStalls(s: Handler) returns (a: Action)
    requires Inv(s) && !s.deinit.NotBegun? && !Settled(s)
    ensures a != Stop && a != Spurious && !a.Deliver? && !a.DeliverError? && Enabled(s, a)
  {
    a := match s.callback
      case Entering => Enter
      case Rejecting => Reject
      case Taking => Take
      case Enqueueing(_) => Enqueue(true)
      case Refusing(_) => Refuse
      case Rechecking => Recheck
      case Arming => Arm
      case Leaving => Leave
      case Idle =>
        match s.worker
        case Handling(_) => Handle
        case Freeing(_) => Free
        case Waiting => if s.queue == [] then Exit else Pop
        case Exited =>
          match s.deinit
          case AwaitingCallbacks => CallbacksGone
          case Joining => Join
          case _ => Finish;
  }

  /** At the end every request ever delivered was freed exactly once, and all that was enqueued was handled. */
  lemma ShutdownIsClean(run: seq<Action>, r: Request)
    requires Feasible(INIT, run) && Settled(Run(INIT, run))
    ensures Count(Run(INIT, run).freed, r) == One(r < Run(INIT, run).arrivals)
    ensures Run(INIT, run).handled == Run(INIT, run).enqueued
  {
    InitHolds();
    RunKeeps(INIT, run);
    var s := Run(INIT, run);
    assert Copies(s, r) == One(r < s.arrivals);
    assert s.queue == [];
  }

  // ----- a callback that outlives deinit

  /** Deinit has destroyed the mutex and the callback is about to lock it. */
  predicate TooLate(s: Handler) { s.deinit.Done? && s.callback.Entering? }

  predicate EndsTooLate(s: Handler, run: seq<Action>) { Feasible(s, run) && TooLate(Run(s, run)) }

  lemma {:induction false} RunConcat(s: Handler, a: seq<Action>, b: seq<Action>)
    requires Feasible(s, a) && Feasible(Run(s, a), b)
    ensures Feasible(s, a + b) && Run(s, a + b) == Run(Run(s, a), b)
    decreases |a|
  {
    if a == [] {
      assert a + b == b;
    } else {
      assert (a + b)[0] == a[0] && (a + b)[1..] == a[1..] + b;
      RunConcat(Step(s, a[0]), a[1..], b);
    }
  }

  /** With nothing armed and no delivery under way the callback is never entered again. */
  lemma {:induction false} NeverEntered(s: Handler, run: seq<Action>)
    requires !s.armed && (s.callback.Idle? || s.callback.Rejecting?) && Feasible(s, run)
    ensures !Run(s, run).callback.Entering?
    decreases |run|
  {
    if run != [] {
      NeverEntered(Step(s, run[0]), run[1..]);
    }
  }

  /** While the callback waits to enter, the worker can finish. */
  lemma {:induction false} WorkerFinishes(s: Handler) returns (run: seq<Action>)
    requires s.stopping && !s.worker.Sleeping?
    ensures Feasible(s, run) && Run(s, run) == s.(
      worker := Exited, queue := Run(s, run).queue, handled := Run(s, run).handled, freed := Run(s, run).freed)
    decreases if s.worker.Exited? then 0 else WorkerDistance(s)
  {
    if s.worker.Exited? {
      return [];
    }
    var a := match s.worker
      case Handling(_) => Handle
      case Freeing(_) => Free
      case _ => if s.queue == [] then Exit else Pop;
    run := WorkerFinishes(Step(s, a));
    assert ([a] + run)[1..] == run;
    run := [a] + run;
  }

  /** Joining, draining and destroying, with the callback still waiting to enter. */
  lemma {:induction false} DrainFinishes(s: Handler) returns (run: seq<Action>)
    requires s.deinit.Draining?
    ensures Feasible(s, run) && Run(s, run).deinit.Done? && Run(s, run).callback == s.callback
    decreases |DrainRest(s)|
  {
    var a := if s.deinit.rest == [] then Finish else DrainOne;
    var next := Step(s, a);
    if a.Finish? {
      assert [a][1..] == [] && Run(next, []) == next;
      run := [a];
    } else {
      run := DrainFinishes(next);
      assert ([a] + run)[1..] == run;
      run := [a] + run;
    }
  }

  function DrainRest(s: Handler): seq<Request> { if s.deinit.Draining? then s.deinit.rest else [] }

  lemma OneAction(s: Handler, a: Action)
    requires Enabled(s, a)
    ensures Feasible(s, [a]) && Run(s, [a]) == Step(s, a)
  {
    assert [a][1..] == [] && Feasible(Step(s, a), []) && Run(Step(s, a), []) == Step(s, a);
  }

  lemma EnteringOutlives(s: Handler) returns (run: seq<Action>)
    requires Inv(s) && s.deinit.Joining? && s.callback.Entering?
    ensures EndsTooLate(s, run)
  {
    var work := WorkerFinishes(s);
    var u := Run(s, work);
    OneAction(u, Join);
    RunConcat(s, work, [Join]);
    var drain := DrainFinishes(Step(u, Join));
    RunConcat(s, work + [Join], drain);
    run := work + [Join] + drain;
  }

  /**
   Only callbacks past callback_enter are counted. When deinit finds none, a callback can
   still reach the mutex after deinit has destroyed it if and only if at that moment a
   request is armed or its delivery has begun.
   */
  lemma OutlivesDeinitIff(s: Handler)
    requires Inv(s) && Enabled(s, CallbacksGone)
    ensures
      var t := Step(s, CallbacksGone);
      (exists run :: EndsTooLate(t, run)) <==> s.armed || s.callback.Entering?
  {
    var t := Step(s, CallbacksGone);
    StepKeeps(s, CallbacksGone);
    if s.callback.Entering? {
      var run := EnteringOutlives(t);
    } else if s.armed {
      OneAction(t, Deliver);
      StepKeeps(t, Deliver);
      var run := EnteringOutlives(Step(t, Deliver));
      RunConcat(t, [Deliver], run);
      assert EndsTooLate(t, [Deliver] + run);
    } else {
      forall run | Feasible(t, run)
        ensures !EndsTooLate(t, run)
      {
        NeverEntered(t, run);
      }
    }
  }
}
