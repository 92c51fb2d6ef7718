/**
 The client's prompt overlay on values: a timed state machine fed by the agent's
 events and by the user. One instant is read per call, and the timer of a
 delayed clear fires as an event of its own, at its deadline or late.
 */
module Overlay {
  import opened Bytes
  import opened Prompt
  import L = Lifecycle

  /** The durations, and the text by which a prompt just answered is recognised. */
  datatype Config = Config(minimum: real, suppression: real, signature: Instance -> Text)

  datatype Stamp = Stamp(name: Text, at: real)

  datatype Pending = Pending(id: Text, deadline: real)

  datatype Engine = Engine(
    active: Option<Instance>,
    hidden: bool,
    since: Option<real>,
    resolved: Option<Stamp>,
    gone: Option<Stamp>,
    pending: Option<Pending>)

  const IDLE := Engine(None, false, None, None, None, None)

  datatype Op = Server(event: L.Event) | Dismiss(id: Text) | Restore | ResolveLocally(id: Text) | Reset | Fire

  datatype Timed = Timed(at: real, op: Op)

  predicate Shows(e: Engine, id: Text) { e.active.Some? && e.active.value.id == id }

  function Cleared(e: Engine): Engine {
    e.(active := None, hidden := false, since := None, pending := None)
  }

  /** A stamp older than the suppression time is forgotten. */
  function Fresh(c: Config, s: Option<Stamp>, now: real): Option<Stamp> {
    if s.Some? && now - s.value.at > c.suppression then None else s
  }

  predicate Holds(c: Config, s: Option<Stamp>, now: real, name: Text) {
    Fresh(c, s, now).Some? && s.value.name == name
  }

  function PresentStep(c: Config, e: Engine, now: real, i: Instance): Engine {
    var a := e.(gone := Fresh(c, e.gone, now));
    if Holds(c, e.gone, now, i.id) then a
    else if Holds(c, e.resolved, now, c.signature(i)) then a
    else a.(pending := None, resolved := None, active := Some(i), hidden := false, since := Some(now))
  }

  function GoneStep(c: Config, e: Engine, now: real, id: Text): Engine {
    if !Shows(e, id) then e
    else
      var a := e.(gone := Some(Stamp(id, now)));
      var elapsed := if e.since.Some? then now - e.since.value else c.minimum;
      var remaining := c.minimum - elapsed;
      if remaining > 0.0 then a.(pending := Some(Pending(id, now + remaining))) else Cleared(a)
  }

  function Step(c: Config, e: Engine, t: Timed): Engine {
    match t.op
    case Server(Present(i)) => PresentStep(c, e, t.at, i)
    case Server(Update(i)) =>
      if Shows(e, i.id)
      then e.(pending := None, active := Some(i), since := if e.since.Some? then e.since else Some(t.at))
      else e
    case Server(Gone(id)) => GoneStep(c, e, t.at, id)
    case Dismiss(id) => if Shows(e, id) then e.(hidden := true) else e
    case Restore => if e.active.Some? then e.(hidden := false) else e
    case ResolveLocally(id) =>
      if Shows(e, id)
      then Cleared(e.(resolved := Some(Stamp(c.signature(e.active.value), t.at)), gone := Some(Stamp(id, t.at))))
      else e
    case Reset => Cleared(e.(resolved := None, gone := None))
    case Fire =>
      if e.pending.None? then e
      else if Shows(e, e.pending.value.id) then Cleared(e.(pending := None))
      else e.(pending := None)
  }

  function Run(c: Config, e: Engine, run: seq<Timed>): Engine
    decreases |run|
  {
    if run == [] then e else Run(c, Step(c, e, run[0]), run[1..])
  }

  // ----- the invariant of every run

  /**
   A pending clear names the match shown, and its deadline is the start of the
   showing plus the minimum; only a match can be hidden.
   */
  predicate Inv(c: Config, e: Engine) {
    && (e.active.Some? <==> e.since.Some?)
    && (e.hidden ==> e.active.Some?)
    && (e.pending.Some? ==> Shows(e, e.pending.value.id) && e.pending.value.deadline == e.since.value + c.minimum)
  }

  lemma StepKeeps(c: Config, e: Engine, t: Timed)
    requires Inv(c, e)
    ensures Inv(c, Step(c, e, t))
  {
  }

  lemma {:induction false} RunKeeps(c: Config, e: Engine, run: seq<Timed>)
    requires Inv(c, e)
    ensures Inv(c, Run(c, e, run))
    decreases |run|
  {
    if run != [] {
      StepKeeps(c, e, run[0]);
      RunKeeps(c, Step(c, e, run[0]), run[1..]);
    }
  }

  // ----- gone is final

  /** The step shows this instance anew: an unsuppressed present, or an update of what is shown. */
  predicate Accepts(c: Config, e: Engine, t: Timed, id: Text) {
    match t.op
    case Server(Present(i)) =>
      i.id == id && !Holds(c, e.gone, t.at, i.id) && !Holds(c, e.resolved, t.at, c.signature(i))
    case Server(Update(i)) => i.id == id && Shows(e, id)
    case _ => false
  }

  predicate NeverAccepts(c: Config, e: Engine, run: seq<Timed>, id: Text)
    decreases |run|
  {
    run == [] || (!Accepts(c, e, run[0], id) && NeverAccepts(c, Step(c, e, run[0]), run[1..], id))
  }

  /** The instance is no longer shown, or its clear is still to come. */
  predicate Leaving(e: Engine, id: Text, deadline: real) {
    Shows(e, id) ==> e.pending == Some(Pending(id, deadline))
  }

  lemma LeavingStays(c: Config, e: Engine, t: Timed, id: Text, deadline: real)
    requires Inv(c, e) && Leaving(e, id, deadline) && !Accepts(c, e, t, id)
    ensures Leaving(Step(c, e, t), id, deadline)
  {
  }

  lemma {:induction false} LeavingLasts(c: Config, e: Engine, run: seq<Timed>, id: Text, deadline: real)
    requires Inv(c, e) && Leaving(e, id, deadline) && NeverAccepts(c, e, run, id)
    ensures Leaving(Run(c, e, run), id, deadline)
    decreases |run|
  {
    if run != [] {
      StepKeeps(c, e, run[0]);
      LeavingStays(c, e, run[0], id, deadline);
      LeavingLasts(c, Step(c, e, run[0]), run[1..], id, deadline);
    }
  }

  /** No timer is overdue. */
  predicate Punctual(e: Engine, now: real) { e.pending.Some? ==> now <= e.pending.value.deadline }

  /**
   After gone(id), with nothing showing id anew, id is off the screen at every
   later instant past both the gone and the deadline, if timers are punctual.
   */
  lemma GoneIsFinal(c: Config, e: Engine, id: Text, goneAt: real, later: seq<Timed>, now: real)
    requires Inv(c, e) && Shows(e, id)
    requires NeverAccepts(c, GoneStep(c, e, goneAt, id), later, id)
    requires Punctual(Run(c, GoneStep(c, e, goneAt, id), later), now)
    ensures now > e.since.value + c.minimum || goneAt >= e.since.value + c.minimum ==>
      !Shows(Run(c, GoneStep(c, e, goneAt, id), later), id)
  {
    var first := GoneStep(c, e, goneAt, id);
    var deadline := e.since.value + c.minimum;
    StepKeeps(c, e, Timed(goneAt, Server(L.Gone(id))));
    LeavingLasts(c, first, later, id, deadline);
    if goneAt >= deadline {
      assert !Shows(first, id);
      StaysAway(c, first, later, id);
    }
  }

  lemma {:induction false} StaysAway(c: Config, e: Engine, run: seq<Timed>, id: Text)
    requires !Shows(e, id) && NeverAccepts(c, e, run, id)
    ensures !Shows(Run(c, e, run), id)
    decreases |run|
  {
    if run != [] {
      StaysAway(c, Step(c, e, run[0]), run[1..], id);
    }
  }

  // ----- the minimum showing time

  /** The step replaces or ends the showing at somebody's wish. */
  predicate Overrides(c: Config, e: Engine, t: Timed) {
    match t.op
    case Server(Present(i)) => Accepts(c, e, t, i.id)
    case ResolveLocally(id) => Shows(e, id)
    case Reset => true
    case _ => false
  }

  /** A timer fires at its deadline or later, and only one that was set. */
  predicate Enabled(e: Engine, t: Timed) {
    t.op.Fire? ==> e.pending.Some? && e.pending.value.deadline <= t.at
  }

  predicate Undisturbed(c: Config, e: Engine, run: seq<Timed>, until: real)
    decreases |run|
  {
    run != [] ==>
    && run[0].at < until
    && Enabled(e, run[0])
    && !Overrides(c, e, run[0])
    && Undisturbed(c, Step(c, e, run[0]), run[1..], until)
  }

  /** A match stays up for the minimum time, whatever gone events arrive meanwhile. */
  lemma {:induction false} MinimumShowing(c: Config, e: Engine, run: seq<Timed>)
    requires Inv(c, e) && e.active.Some?
    requires Undisturbed(c, e, run, e.since.value + c.minimum)
    ensures Shows(Run(c, e, run), e.active.value.id) && Run(c, e, run).since == e.since
    decreases |run|
  {
    if run != [] {
      var next := Step(c, e, run[0]);
      StepKeeps(c, e, run[0]);
      assert Shows(next, e.active.value.id) && next.since == e.since;
      MinimumShowing(c, next, run[1..]);
    }
  }

  // ----- suppression after gone and after a local answer

  /** The step forgets that id has gone: a reset, or another instance going. */
  predicate Forgets(e: Engine, t: Timed, id: Text) {
    match t.op
    case Server(Gone(other)) => other != id && Shows(e, other)
    case ResolveLocally(other) => other != id && Shows(e, other)
    case Reset => true
    case _ => false
  }

  /** All within the suppression time after at, and nothing forgets. */
  predicate Remembering(c: Config, e: Engine, run: seq<Timed>, id: Text, at: real)
    decreases |run|
  {
    run != [] ==>
    && at <= run[0].at <= at + c.suppression
    && !Forgets(e, run[0], id)
    && Remembering(c, Step(c, e, run[0]), run[1..], id, at)
  }

  predicate NoPresentAccepted(c: Config, e: Engine, run: seq<Timed>, id: Text)
    decreases |run|
  {
    run != [] ==>
    && !(run[0].op.Server? && run[0].op.event.Present? && Accepts(c, e, run[0], id))
    && NoPresentAccepted(c, Step(c, e, run[0]), run[1..], id)
  }

  predicate Stamped(e: Engine, id: Text, at: real) {
    e.gone.Some? && e.gone.value.name == id && e.gone.value.at >= at
  }

  /** Within the suppression time of its going, no present of the instance gets through. */
  lemma {:induction false} SuppressionHolds(c: Config, e: Engine, run: seq<Timed>, id: Text, at: real)
    requires Stamped(e, id, at)
    requires Remembering(c, e, run, id, at)
    ensures NoPresentAccepted(c, e, run, id)
    decreases |run|
  {
    if run != [] {
      var next := Step(c, e, run[0]);
      assert Stamped(next, id, at);
      SuppressionHolds(c, next, run[1..], id, at);
    }
  }

  // ----- following the agent

  /** The agent's events in a run. */
  function Events(run: seq<Timed>): seq<L.Event>
    decreases |run|
  {
    if run == [] then []
    else if run[0].op.Server? then [run[0].op.event] + Events(run[1..])
    else Events(run[1..])
  }

  /** The clock does not run backwards. */
  predicate Timely(run: seq<Timed>, clock: real)
    decreases |run|
  {
    run != [] ==> clock <= run[0].at && Timely(run[1..], run[0].at)
  }

  /**
   What agent, user and timers have said so far, no present being refused: the
   agent's prompt; whether the user has taken it off the screen since; the prompt
   that went before its minimum time was over and still lingers; when the last
   showing began; what left the screen last; and the last local answer since a present.
   */
  datatype View = View(
    agent: Option<Instance>,
    taken: bool,
    lingers: Option<Instance>,
    since: real,
    hidden: bool,
    left: Option<Stamp>,
    answer: Option<Stamp>)

  const BLANK := View(None, false, None, 0.0, false, None, None)

  /** The agent's prompt unless the user has taken it off, or what lingers of the last one. */
  function OnScreen(v: View): Option<Instance> {
    if v.agent.None? then v.lingers else if v.taken then None else v.agent
  }

  predicate Up(v: View, id: Text) { OnScreen(v).Some? && OnScreen(v).value.id == id }

  function TakenOff(v: View): View { v.(taken := v.agent.Some?, lingers := None, hidden := false) }

  function SeeGone(c: Config, v: View, now: real, id: Text): View {
    if v.taken then v.(agent := None, taken := false)
    else
      var early := now < v.since + c.minimum;
      v.(agent := None, lingers := if early then v.agent else None,
         hidden := early && v.hidden, left := Some(Stamp(id, now)))
  }

  function See(c: Config, v: View, t: Timed): View {
    match t.op
    case Server(Present(i)) => View(Some(i), false, None, t.at, false, v.left, None)
    case Server(Update(i)) => v.(agent := Some(i))
    case Server(Gone(id)) => SeeGone(c, v, t.at, id)
    case Dismiss(id) => if Up(v, id) then v.(hidden := true) else v
    case Restore => v.(hidden := false)
    case ResolveLocally(id) =>
      if Up(v, id)
      then TakenOff(v).(left := Some(Stamp(id, t.at)), answer := Some(Stamp(c.signature(OnScreen(v).value), t.at)))
      else v
    case Reset => TakenOff(v).(left := None, answer := None)
    case Fire => if v.lingers.Some? then v.(lingers := None, hidden := false) else v
  }

  function SeeAll(c: Config, v: View, run: seq<Timed>): View
    decreases |run|
  {
    if run == [] then v else SeeAll(c, See(c, v, run[0]), run[1..])
  }

  /** The overlay shows exactly what is on the screen of the view. */
  predicate Tracks(e: Engine, v: View) {
    e.active == OnScreen(v) && e.hidden == v.hidden && (e.pending.Some? <==> v.lingers.Some?)
  }

  predicate Follows(c: Config, e: Engine, v: View, run: seq<Timed>)
    decreases |run|
  {
    run != [] ==>
    && Tracks(Step(c, e, run[0]), See(c, v, run[0]))
    && Follows(c, Step(c, e, run[0]), See(c, v, run[0]), run[1..])
  }

  /**
   A prompt arrives within the suppression time of its own leaving the screen, or
   of a local answer, the last since a present, to a prompt of the same signature.
   */
  predicate Blocked(c: Config, v: View, t: Timed) {
    && t.op.Server? && t.op.event.Present?
    && (Holds(c, v.left, t.at, t.op.event.inst.id) || Holds(c, v.answer, t.at, c.signature(t.op.event.inst)))
  }

  predicate Unblocked(c: Config, v: View, run: seq<Timed>)
    decreases |run|
  {
    run != [] ==> !Blocked(c, v, run[0]) && Unblocked(c, See(c, v, run[0]), run[1..])
  }

  /** The event goes on with the agent's trace. */
  predicate Continues(agent: Option<Instance>, op: Op) {
    op.Server? ==>
      match op.event
      case Present(i) => agent.None?
      case Update(i) => agent.Some? && agent.value.id == i.id
      case Gone(id) => agent.Some? && agent.value.id == id
  }

  function Told(agent: Option<Instance>, op: Op): Option<Instance> {
    if op.Server? then L.Apply(agent, op.event) else agent
  }

  lemma GrammarStep(agent: Option<Instance>, run: seq<Timed>)
    requires run != [] && L.Grammatical(agent, Events(run))
    ensures Continues(agent, run[0].op)
    ensures L.Grammatical(Told(agent, run[0].op), Events(run[1..]))
    ensures L.Replay(agent, Events(run)) == L.Replay(Told(agent, run[0].op), Events(run[1..]))
  {
    if run[0].op.Server? {
      assert Events(run) == [run[0].op.event] + Events(run[1..]);
      assert Events(run)[1..] == Events(run[1..]);
    }
  }

  lemma AgentMoves(c: Config, v: View, t: Timed)
    requires Continues(v.agent, t.op)
    ensures See(c, v, t).agent == Told(v.agent, t.op)
  {
  }

  /** A stamp the engine keeps, or has dropped because its time was over. */
  predicate Knows(c: Config, kept: Option<Stamp>, said: Option<Stamp>, clock: real) {
    kept == said || (kept.None? && said.Some? && clock - said.value.at > c.suppression)
  }

  predicate InStep(c: Config, e: Engine, v: View, clock: real) {
    && Inv(c, e) && Tracks(e, v)
    && (v.taken ==> v.agent.Some?) && (v.agent.Some? ==> v.lingers.None?)
    && (e.active.Some? ==> e.since == Some(v.since))
    && Knows(c, e.gone, v.left, clock) && Knows(c, e.resolved, v.answer, clock)
  }

  lemma PresentFollows(c: Config, e: Engine, v: View, clock: real, t: Timed)
    requires InStep(c, e, v, clock) && clock <= t.at && Continues(v.agent, t.op)
    requires t.op.Server? && t.op.event.Present?
    ensures Tracks(Step(c, e, t), See(c, v, t)) <==> !Blocked(c, v, t)
    ensures !Blocked(c, v, t) ==> InStep(c, Step(c, e, t), See(c, v, t), t.at)
  {
    StepKeeps(c, e, t);
  }

  lemma GoneFollows(c: Config, e: Engine, v: View, clock: real, t: Timed)
    requires InStep(c, e, v, clock) && clock <= t.at && Continues(v.agent, t.op)
    requires t.op.Server? && t.op.event.Gone?
    ensures InStep(c, Step(c, e, t), See(c, v, t), t.at)
  {
    StepKeeps(c, e, t);
  }

  lemma OtherFollows(c: Config, e: Engine, v: View, clock: real, t: Timed)
    requires InStep(c, e, v, clock) && clock <= t.at && Continues(v.agent, t.op)
    requires t.op.Server? ==> t.op.event.Update?
    ensures InStep(c, Step(c, e, t), See(c, v, t), t.at)
  {
    StepKeeps(c, e, t);
  }

  /** Every event, answer and timer is followed; a blocked present is not. */
  lemma OneStep(c: Config, e: Engine, v: View, clock: real, t: Timed)
    requires InStep(c, e, v, clock) && clock <= t.at && Continues(v.agent, t.op)
    ensures Tracks(Step(c, e, t), See(c, v, t)) <==> !Blocked(c, v, t)
    ensures !Blocked(c, v, t) ==> InStep(c, Step(c, e, t), See(c, v, t), t.at)
  {
    if t.op.Server? && t.op.event.Present? {
      PresentFollows(c, e, v, clock, t);
    } else if t.op.Server? && t.op.event.Gone? {
      GoneFollows(c, e, v, clock, t);
    } else {
      OtherFollows(c, e, v, clock, t);
    }
  }

  /**
   Whatever agent, user and timers do, the overlay shows after every step exactly the
   agent's prompt, or nothing once the user has taken it off, or what lingers of the
   last one, if and only if no present is blocked.
   */
  lemma {:induction false} FollowsIffUnblocked(c: Config, e: Engine, v: View, clock: real, run: seq<Timed>)
    requires InStep(c, e, v, clock)
    requires Timely(run, clock) && L.Grammatical(v.agent, Events(run))
    ensures Follows(c, e, v, run) <==> Unblocked(c, v, run)
    decreases |run|
  {
    if run != [] {
      GrammarStep(v.agent, run);
      AgentMoves(c, v, run[0]);
      OneStep(c, e, v, clock, run[0]);
      if !Blocked(c, v, run[0]) {
        FollowsIffUnblocked(c, Step(c, e, run[0]), See(c, v, run[0]), run[0].at, run[1..]);
      }
    }
  }

  lemma {:induction false} FollowsToTheEnd(c: Config, e: Engine, v: View, run: seq<Timed>)
    requires Tracks(e, v) && Follows(c, e, v, run)
    ensures Tracks(Run(c, e, run), SeeAll(c, v, run))
    decreases |run|
  {
    if run != [] {
      FollowsToTheEnd(c, Step(c, e, run[0]), See(c, v, run[0]), run[1..]);
    }
  }

  lemma {:induction false} ViewReplays(c: Config, v: View, run: seq<Timed>)
    requires L.Grammatical(v.agent, Events(run))
    ensures SeeAll(c, v, run).agent == L.Replay(v.agent, Events(run))
    decreases |run|
  {
    if run != [] {
      GrammarStep(v.agent, run);
      AgentMoves(c, v, run[0]);
      ViewReplays(c, See(c, v, run[0]), run[1..]);
    }
  }

  /**
   From detection to display: for every run of the agent's lifecycle, every timing of
   its events and everything the user does meanwhile, the overlay follows if and only
   if no present is blocked, and then ends up showing exactly the agent's active
   instance, unless the user has taken that one off the screen.
   */
  lemma OverlayShowsTheLifecycle(c: Config, ops: seq<L.Op>, run: seq<Timed>, clock: real)
    requires Events(run) == L.Run(L.INIT, ops).1 && Timely(run, clock)
    ensures Follows(c, IDLE, BLANK, run) <==> Unblocked(c, BLANK, run)
    ensures
      var v := SeeAll(c, BLANK, run);
      Unblocked(c, BLANK, run) ==> Tracks(Run(c, IDLE, run), v) && v.agent == L.Run(L.INIT, ops).0.active
  {
    L.RunIsLegal(L.INIT, ops);
    FollowsIffUnblocked(c, IDLE, BLANK, clock, run);
    ViewReplays(c, BLANK, run);
    if Unblocked(c, BLANK, run) {
      FollowsToTheEnd(c, IDLE, BLANK, run);
    }
  }

  // ----- two inputs that are not followed

  /**
   The agent loses a prompt for two snapshots and finds it again. If its events reach
   the overlay without the suppression time between them, the overlay ends up empty
   although the agent has the prompt active.
   */
  lemma HurriedReturnIsLost(c: Config, p: Candidate, at: real, later: real, run: seq<Timed>)
    requires c.suppression >= 0.0 && later - at >= c.minimum
    requires run == [
      Timed(at, Server(L.Present(L.Shown(p)))), Timed(later, Server(L.Gone(InstanceId(p)))),
      Timed(later, Server(L.Present(L.Shown(p))))]
    ensures
      var agent := L.Observe(L.INIT, [Some(p), None, None, Some(p)]);
      Events(run) == agent.1 && agent.0.active == Some(L.Shown(p)) && Run(c, IDLE, run).active == None
  {
    FlickerTrace(p);
    var a := Step(c, IDLE, run[0]);
    var b := Step(c, a, run[1]);
    assert b.active == None && b.gone == Some(Stamp(InstanceId(p), later));
    var d := Step(c, b, run[2]);
    var r1, r2 := run[1..], run[1..][1..];
    assert r2[1..] == [];
    assert Run(c, b, r2) == Run(c, d, []);
    assert Run(c, a, r1) == Run(c, b, r2);
    assert Events(r2) == [L.Present(L.Shown(p))] + Events(r2[1..]) == [L.Present(L.Shown(p))];
    assert Events(r1) == [L.Gone(InstanceId(p))] + Events(r2) == [L.Gone(InstanceId(p)), L.Present(L.Shown(p))];
    assert Events(run) == [L.Present(L.Shown(p))] + Events(r1);
    assert Run(c, IDLE, run) == Run(c, a, r1);
  }

  lemma FlickerTrace(p: Candidate)
    ensures L.Observe(L.INIT, [Some(p), None, None, Some(p)]).0.active == Some(L.Shown(p))
    ensures L.Observe(L.INIT, [Some(p), None, None, Some(p)]).1 ==
      [L.Present(L.Shown(p)), L.Gone(InstanceId(p)), L.Present(L.Shown(p))]
  {
    L.GapEnds(p);
    L.ObserveNext(L.INIT, [Some(p), None, None], Some(p));
    assert [Some(p), None, None] + [Some(p)] == [Some(p), None, None, Some(p)];
    assert [L.Present(L.Shown(p)), L.Gone(InstanceId(p))] + [L.Present(L.Shown(p))] ==
      [L.Present(L.Shown(p)), L.Gone(InstanceId(p)), L.Present(L.Shown(p))];
  }

  /**
   The user answers a prompt, and the agent asks again one row lower. The instances
   differ and the signatures do not, so within the suppression time the overlay stays
   empty although the agent has the second prompt active.
   */
  lemma RepeatedQuestionIsLost(
    c: Config, p: Candidate, row: Int32, shown: real, answered: real, gone: real, again: real, run: seq<Timed>)
    requires -0x8000_0000 <= p.anchorRow < 0x8000_0000 && row != p.anchorRow
    requires c.signature(L.Shown(p.(anchorRow := row))) == c.signature(L.Shown(p))
    requires again - answered <= c.suppression
    requires run == [
      Timed(shown, Server(L.Present(L.Shown(p)))), Timed(answered, ResolveLocally(InstanceId(p))),
      Timed(gone, Server(L.Gone(InstanceId(p)))), Timed(again, Server(L.Present(L.Shown(p.(anchorRow := row)))))]
    ensures
      var q := p.(anchorRow := row);
      var agent := L.Run(L.INIT, [L.Process(Some(p)), L.Resolve(InstanceId(p)), L.Process(Some(q))]);
      && Events(run) == agent.1 && agent.0.active == Some(L.Shown(q))
      && Run(c, IDLE, run).active == None
  {
    var q := p.(anchorRow := row);
    assert p == p.(anchorRow := p.anchorRow);
    AnchorRowSeparates(p, p.anchorRow, row);
    AnswerTrace(p, q);
    FourSteps(c, IDLE, run);
    var a := Step(c, IDLE, run[0]);
    assert a.active == Some(L.Shown(p)) && a.gone == None;
    var b := Step(c, a, run[1]);
    assert b.active == None && b.resolved == Some(Stamp(c.signature(L.Shown(p)), answered));
    assert Step(c, b, run[2]) == b;
  }

  lemma FourSteps(c: Config, e: Engine, run: seq<Timed>)
    requires |run| == 4
    ensures Run(c, e, run) == Step(c, Step(c, Step(c, Step(c, e, run[0]), run[1]), run[2]), run[3])
    ensures run[0].op.Server? && run[1].op.ResolveLocally? && run[2].op.Server? && run[3].op.Server? ==>
      Events(run) == [run[0].op.event, run[2].op.event, run[3].op.event]
  {
    var r1, r2, r3 := run[1..], run[2..], run[3..];
    assert r1[1..] == r2 && r2[1..] == r3 && r3[1..] == [];
    assert r1[0] == run[1] && r2[0] == run[2] && r3[0] == run[3];
    var a := Step(c, e, run[0]);
    var b := Step(c, a, run[1]);
    var d := Step(c, b, run[2]);
    assert Run(c, d, r3) == Run(c, Step(c, d, run[3]), []);
    assert Run(c, b, r2) == Run(c, d, r3);
    assert Run(c, a, r1) == Run(c, b, r2);
    if run[0].op.Server? && run[1].op.ResolveLocally? && run[2].op.Server? && run[3].op.Server? {
      assert Events(r3) == [run[3].op.event] + Events([]) == [run[3].op.event];
      assert Events(r2) == [run[2].op.event] + Events(r3);
      assert Events(r1) == Events(r2);
    }
  }

  lemma AnswerTrace(p: Candidate, q: Candidate)
    requires InstanceId(p) != InstanceId(q)
    ensures
      var agent := L.Run(L.INIT, [L.Process(Some(p)), L.Resolve(InstanceId(p)), L.Process(Some(q))]);
      && agent.1 == [L.Present(L.Shown(p)), L.Gone(InstanceId(p)), L.Present(L.Shown(q))]
      && agent.0.active == Some(L.Shown(q))
  {
    var ops := [L.Process(Some(p)), L.Resolve(InstanceId(p)), L.Process(Some(q))];
    var o1, o2 := ops[..1], ops[..2];
    assert o1[..0] == [] && o2[..1] == o1;
    assert L.Run(L.INIT, o1) == L.Step(L.INIT, ops[0]) by {
      assert [] + L.Step(L.INIT, ops[0]).1 == L.Step(L.INIT, ops[0]).1;
    }
    assert L.Run(L.INIT, o2).1 == [L.Present(L.Shown(p)), L.Gone(InstanceId(p))];
  }
}
