/** The prompt lifecycle on values, and what every run of it guarantees. */
module Lifecycle {
  import opened Bytes
  import opened Prompt

  const ABSENCE_SNAPSHOTS: nat := 2
  const INSTANCE_ID_MAX: nat := 32
  const UINT32: nat := 0x1_0000_0000

  datatype Event = Present(inst: Instance) | Update(inst: Instance) | Gone(id: Text)

  datatype State = State(active: Option<Instance>, absence: nat, suppress: bool, resolved: Text)

  const INIT: State := State(None, 0, false, [])

  datatype Op = Process(seen: Option<Candidate>) | Resolve(id: Text)

  predicate Inv(s: State) {
    && (s.active.Some? ==> s.active.value.id == InstanceId(s.active.value.content))
    && (s.active.Some? ==> s.active.value.revision < UINT32)
    && s.absence < ABSENCE_SNAPSHOTS
    && (s.active.None? ==> s.absence == 0)
    && (s.suppress <==> s.resolved != [])
  }

  predicate Suppressed(s: State, id: Text) {
    s.suppress && s.resolved != [] && id == s.resolved
  }

  function Unlatched(s: State): State { s.(suppress := false, resolved := []) }

  function NextRevision(revision: nat): nat { (revision + 1) % UINT32 }

  /** One snapshot without a usable candidate. */
  function Missing(s: State, suppressedIncoming: bool): (State, seq<Event>) {
    if s.active.None? then
      (if s.suppress && !suppressedIncoming then Unlatched(s) else s, [])
    else if s.absence + 1 >= ABSENCE_SNAPSHOTS then
      (State(None, 0, false, []), [Gone(s.active.value.id)])
    else (s.(absence := s.absence + 1), [])
  }

  /** One snapshot with a candidate that is not suppressed. */
  function Seen(s: State, c: Candidate): (State, seq<Event>) {
    var id := InstanceId(c);
    var t := Unlatched(s);
    if t.active.None? then
      var i := Instance(id, c, 1);
      (t.(active := Some(i), absence := 0), [Present(i)])
    else if t.active.value.id == id then
      if t.active.value.content == c then (t.(absence := 0), [])
      else
        var i := Instance(id, c, NextRevision(t.active.value.revision));
        (t.(active := Some(i), absence := 0), [Update(i)])
    else
      var i := Instance(id, c, 1);
      (t.(active := Some(i), absence := 0), [Gone(t.active.value.id), Present(i)])
  }

  /** What fits the fixed-size field. */
  function Stored(id: Text): Text { id[..Min(|id|, INSTANCE_ID_MAX - 1)] }

  function ResolveStep(s: State, id: Text): (State, seq<Event>) {
    if id == [] then (s, [])
    else
      var t := s.(suppress := true, resolved := Stored(id));
      if t.active.Some? && t.active.value.id == id then (t.(active := None, absence := 0), [Gone(id)])
      else (t, [])
  }

  function Step(s: State, op: Op): (State, seq<Event>) {
    match op
    case Resolve(id) => ResolveStep(s, id)
    case Process(None) => Missing(s, false)
    case Process(Some(c)) => if Suppressed(s, InstanceId(c)) then Missing(s, true) else Seen(s, c)
  }

  function Run(s: State, ops: seq<Op>): (State, seq<Event>) {
    if ops == [] then (s, [])
    else
      var before := Run(s, ops[..|ops| - 1]);
      var last := Step(before.0, ops[|ops| - 1]);
      (last.0, before.1 + last.1)
  }

  // ----- the trace grammar and the client

  /** A prefix of ( PRESENT(id, 1) UPDATE(id, rev + 1)* GONE(id) )*, outside any block. */
  predicate IdleTrace(t: seq<Event>)
    decreases |t|
  {
    t == [] || (t[0].Present? && t[0].inst.revision == 1 && ShownTrace(t[0].inst.id, 1, t[1..]))
  }

  /** The same, inside the block of an instance at some revision. */
  predicate ShownTrace(id: Text, revision: nat, t: seq<Event>)
    decreases |t|
  {
    t == [] ||
    match t[0]
    case Present(_) => false
    case Update(i) =>
      i.id == id && i.revision == NextRevision(revision) && ShownTrace(id, i.revision, t[1..])
    case Gone(gone) => gone == id && IdleTrace(t[1..])
  }

  predicate Grammatical(client: Option<Instance>, t: seq<Event>) {
    if client.None? then IdleTrace(t) else ShownTrace(client.value.id, client.value.revision, t)
  }

  /** A client that stores what it is told and forgets what is gone. */
  function Apply(client: Option<Instance>, e: Event): Option<Instance> {
    match e
    case Present(i) => Some(i)
    case Update(i) => if client.Some? && client.value.id == i.id then Some(i) else client
    case Gone(id) => if client.Some? && client.value.id == id then None else client
  }

  function Replay(client: Option<Instance>, t: seq<Event>): Option<Instance>
    decreases |t|
  {
    if t == [] then client else Replay(Apply(client, t[0]), t[1..])
  }

  lemma {:induction false} AppendTrace(client: Option<Instance>, t: seq<Event>, u: seq<Event>)
    requires Grammatical(client, t) && Grammatical(Replay(client, t), u)
    ensures Grammatical(client, t + u)
    ensures Replay(client, t + u) == Replay(Replay(client, t), u)
    decreases |t|
  {
    if t == [] {
      assert t + u == u;
    } else {
      assert (t + u)[1..] == t[1..] + u;
      AppendTrace(Apply(client, t[0]), t[1..], u);
    }
  }

  predicate Legal(s: State, r: (State, seq<Event>)) {
    Inv(r.0) && Grammatical(s.active, r.1) && Replay(s.active, r.1) == r.0.active
  }

  lemma ReplayShort(client: Option<Instance>, a: Event, b: Event)
    ensures Replay(client, []) == client
    ensures Replay(client, [a]) == Apply(client, a)
    ensures Replay(client, [a, b]) == Apply(Apply(client, a), b)
  {
    assert [a][1..] == [] && [a, b][1..] == [b] && [b][1..] == [];
    assert Replay(Apply(client, a), [b]) == Apply(Apply(client, a), b);
  }

  lemma MissingIsLegal(s: State, suppressedIncoming: bool)
    requires Inv(s)
    ensures Legal(s, Missing(s, suppressedIncoming))
  {
    if s.active.Some? {
      var e := Gone(s.active.value.id);
      ReplayShort(s.active, e, e);
      assert [e][1..] == [];
    }
  }

  lemma SeenIsLegal(s: State, c: Candidate)
    requires Inv(s)
    ensures Legal(s, Seen(s, c))
  {
    var r := Seen(s, c);
    if |r.1| == 1 {
      ReplayShort(s.active, r.1[0], r.1[0]);
      assert r.1 == [r.1[0]] && r.1[1..] == [];
    } else if |r.1| == 2 {
      ReplayShort(s.active, r.1[0], r.1[1]);
      assert r.1 == [r.1[0], r.1[1]] && r.1[1..] == [r.1[1]] && r.1[1..][1..] == [];
    }
  }

  lemma ResolveIsLegal(s: State, id: Text)
    requires Inv(s)
    ensures Legal(s, ResolveStep(s, id))
  {
    ReplayShort(s.active, Gone(id), Gone(id));
    assert [Gone(id)][1..] == [];
  }

  lemma StepIsLegal(s: State, op: Op)
    requires Inv(s)
    ensures Legal(s, Step(s, op))
  {
    match op {
      case Resolve(id) => ResolveIsLegal(s, id);
      case Process(None) => MissingIsLegal(s, false);
      case Process(Some(c)) =>
        MissingIsLegal(s, true);
        SeenIsLegal(s, c);
    }
  }

  /**
   Every run of process and resolve emits a grammatical trace, and replaying it
   yields exactly the agent's active instance: id, revision and contents.
   */
  lemma {:induction false} RunIsLegal(s: State, ops: seq<Op>)
    requires Inv(s)
    ensures Inv(Run(s, ops).0)
    ensures Grammatical(s.active, Run(s, ops).1)
    ensures Replay(s.active, Run(s, ops).1) == Run(s, ops).0.active
  {
    if ops != [] {
      var before := Run(s, ops[..|ops| - 1]);
      RunIsLegal(s, ops[..|ops| - 1]);
      StepIsLegal(before.0, ops[|ops| - 1]);
      AppendTrace(s.active, before.1, Step(before.0, ops[|ops| - 1]).1);
    }
  }

  lemma {:induction false} RunConcat(s: State, a: seq<Op>, b: seq<Op>)
    ensures Run(s, a + b).0 == Run(Run(s, a).0, b).0
    ensures Run(s, a + b).1 == Run(s, a).1 + Run(Run(s, a).0, b).1
    decreases |b|
  {
    if b == [] {
      assert a + b == a;
      assert Run(s, a).1 + [] == Run(s, a).1;
    } else {
      var n := |b| - 1;
      assert (a + b)[..|a + b| - 1] == a + b[..n];
      RunConcat(s, a, b[..n]);
      var x := Run(s, a);
      var y := Run(x.0, b[..n]);
      Regroup(x.1, y.1, Step(y.0, b[n]).1);
    }
  }

  lemma Regroup(x: seq<Event>, y: seq<Event>, z: seq<Event>)
    ensures (x + y) + z == x + (y + z)
  {
  }

  /**
   A client that joins after `before` with a copy of the active instance and one
   that saw every event hold the same prompt from then on.
   */
  lemma LateJoinerAgrees(before: seq<Op>, after: seq<Op>)
    ensures
      var joined := Run(INIT, before).0;
      Replay(joined.active, Run(joined, after).1) == Replay(None, Run(INIT, before + after).1)
  {
    RunIsLegal(INIT, before);
    RunIsLegal(Run(INIT, before).0, after);
    RunIsLegal(INIT, before + after);
    RunConcat(INIT, before, after);
  }

  /** A step presents or updates nothing but the candidate it has just seen. */
  lemma EmitsWhatItSees(s: State, op: Op, e: Event)
    requires e in Step(s, op).1 && !e.Gone?
    ensures op.Process? && op.seen == Some(e.inst.content)
  {
  }

  // ----- observations: runs without resolve

  function Ops(obs: seq<Option<Candidate>>): (ops: seq<Op>)
    ensures |ops| == |obs| && forall i :: 0 <= i < |obs| ==> ops[i] == Process(obs[i])
  {
    seq(|obs|, i requires 0 <= i < |obs| => Process(obs[i]))
  }

  function Observe(s: State, obs: seq<Option<Candidate>>): (State, seq<Event>) { Run(s, Ops(obs)) }

  lemma {:induction false} ObserveNext(s: State, obs: seq<Option<Candidate>>, x: Option<Candidate>)
    ensures
      var before := Observe(s, obs);
      var last := Step(before.0, Process(x));
      Observe(s, obs + [x]) == (last.0, if last.1 == [] then before.1 else before.1 + last.1)
  {
    assert Ops(obs + [x])[..|obs|] == Ops(obs);
    assert Observe(s, obs).1 + [] == Observe(s, obs).1;
  }

  lemma ObserveNothing(s: State)
    ensures Observe(s, []) == (s, [])
  {
    assert Ops([]) == [];
  }

  /** The instance under which a prompt is first presented. */
  function Shown(c: Candidate): Instance { Instance(InstanceId(c), c, 1) }

  lemma OneMissing(c: Candidate)
    ensures Observe(INIT, [Some(c), None]) == (State(Some(Shown(c)), 1, false, []), [Present(Shown(c))])
  {
    var o := Some(c);
    var shown := Present(Shown(c));
    ObserveNothing(INIT);
    ObserveNext(INIT, [], o);
    assert [] + [o] == [o] && [] + [shown] == [shown];
    ObserveNext(INIT, [o], None);
    assert [o] + [None] == [o, None] && [shown] + [] == [shown];
  }

  lemma GapEnds(c: Candidate)
    ensures Observe(INIT, [Some(c), None, None]) == (INIT, [Present(Shown(c)), Gone(InstanceId(c))])
  {
    var o := Some(c);
    OneMissing(c);
    ObserveNext(INIT, [o, None], None);
    assert [o, None] + [None] == [o, None, None];
    assert [Present(Shown(c))] + [Gone(InstanceId(c))] == [Present(Shown(c)), Gone(InstanceId(c))];
  }

  /** No resolve pending and no snapshot missed yet. */
  predicate Fresh(s: State) { Inv(s) && !s.suppress && s.absence == 0 }

  predicate EndsInCandidate(obs: seq<Option<Candidate>>) { obs != [] && obs[|obs| - 1].Some? }

  predicate EndsInGap(obs: seq<Option<Candidate>>) {
    |obs| >= 2 && obs[|obs| - 1].None? && obs[|obs| - 2].None?
  }

  predicate EndsInFlicker(obs: seq<Option<Candidate>>) {
    obs != [] && obs[|obs| - 1].None? && !EndsInGap(obs)
  }

  /** Append one snapshot to a normal form. */
  function Push(nf: seq<Option<Candidate>>, x: Option<Candidate>): seq<Option<Candidate>> {
    if x.None? then if EndsInGap(nf) then nf else nf + [x]
    else
      var base := if EndsInFlicker(nf) then nf[..|nf| - 1] else nf;
      if base != [] && base[|base| - 1] == x then base else base + [x]
  }

  /**
   Adjacent equal candidates collapse, a single missing snapshot before a candidate
   disappears, a longer gap counts as exactly two missing snapshots.
   */
  function Normal(obs: seq<Option<Candidate>>): seq<Option<Candidate>> {
    if obs == [] then [] else Push(Normal(obs[..|obs| - 1]), obs[|obs| - 1])
  }

  lemma {:induction false} ObserveInv(s: State, obs: seq<Option<Candidate>>)
    requires Inv(s) && !s.suppress
    ensures Inv(Observe(s, obs).0) && !Observe(s, obs).0.suppress
  {
    if obs != [] {
      var n := |obs| - 1;
      assert obs == obs[..n] + [obs[n]];
      ObserveInv(s, obs[..n]);
      ObserveNext(s, obs[..n], obs[n]);
      StepIsLegal(Observe(s, obs[..n]).0, Process(obs[n]));
    }
  }

  /** After a candidate the counter is zero and the candidate is the active prompt. */
  lemma AfterCandidate(s: State, obs: seq<Option<Candidate>>)
    requires Fresh(s) && EndsInCandidate(obs)
    ensures
      var t := Observe(s, obs).0;
      Fresh(t) && t.active.Some? && t.active.value.content == obs[|obs| - 1].value
  {
    var n := |obs| - 1;
    assert obs == obs[..n] + [obs[n]];
    ObserveInv(s, obs[..n]);
    ObserveNext(s, obs[..n], obs[n]);
    StepIsLegal(Observe(s, obs[..n]).0, Process(obs[n]));
  }

  lemma AfterGap(s: State, obs: seq<Option<Candidate>>)
    requires Inv(s) && !s.suppress && EndsInGap(obs)
    ensures Observe(s, obs).0.active.None?
  {
    var n := |obs| - 2;
    assert obs[..n + 1] == obs[..n] + [obs[n]] && obs == obs[..n + 1] + [obs[n + 1]];
    ObserveInv(s, obs[..n]);
    ObserveNext(s, obs[..n], obs[n]);
    ObserveNext(s, obs[..n + 1], obs[n + 1]);
  }

  /** A candidate does not notice a single missing snapshot before it. */
  lemma FlickerIsInvisible(s: State, nf: seq<Option<Candidate>>, x: Option<Candidate>)
    requires Fresh(s) && EndsInFlicker(nf) && x.Some?
    ensures Observe(s, nf + [x]) == Observe(s, nf[..|nf| - 1] + [x])
  {
    var base := nf[..|nf| - 1];
    assert nf == base + [None];
    if base == [] {
      ObserveNothing(s);
    } else {
      AfterCandidate(s, base);
    }
    ObserveNext(s, base, None);
    ObserveNext(s, nf, x);
    ObserveNext(s, base, x);
    MissThenSee(Observe(s, base).0, x.value);
  }

  lemma MissThenSee(s: State, c: Candidate)
    requires Fresh(s)
    ensures Step(s, Process(None)).1 == []
    ensures Step(Step(s, Process(None)).0, Process(Some(c))) == Step(s, Process(Some(c)))
  {
  }

  lemma PushPreserves(s: State, nf: seq<Option<Candidate>>, x: Option<Candidate>)
    requires Fresh(s)
    ensures Observe(s, Push(nf, x)) == Observe(s, nf + [x])
  {
    if x.None? {
      if EndsInGap(nf) {
        ObserveNext(s, nf, x);
        AfterGap(s, nf);
        ObserveInv(s, nf);
      }
    } else {
      var base := if EndsInFlicker(nf) then nf[..|nf| - 1] else nf;
      if EndsInFlicker(nf) {
        FlickerIsInvisible(s, nf, x);
      }
      if base != [] && base[|base| - 1] == x {
        RepeatIsInvisible(s, base, x);
      }
    }
  }

  lemma RepeatIsInvisible(s: State, base: seq<Option<Candidate>>, x: Option<Candidate>)
    requires Fresh(s) && base != [] && x.Some? && base[|base| - 1] == x
    ensures Observe(s, base) == Observe(s, base + [x])
  {
    AfterCandidate(s, base);
    ObserveNext(s, base, x);
  }

  /** In runs without resolve the events and the final state depend on the normal form alone. */
  lemma {:induction false} NormalFormDecides(s: State, obs: seq<Option<Candidate>>)
    requires Fresh(s)
    ensures Observe(s, obs) == Observe(s, Normal(obs))
  {
    if obs != [] {
      var n := |obs| - 1;
      assert obs == obs[..n] + [obs[n]];
      NormalFormDecides(s, obs[..n]);
      ObserveNext(s, obs[..n], obs[n]);
      ObserveNext(s, Normal(obs[..n]), obs[n]);
      PushPreserves(s, Normal(obs[..n]), obs[n]);
    }
  }

  /** What normal forms look like. */
  predicate IsNormal(nf: seq<Option<Candidate>>) {
    && (forall i :: 0 <= i && i + 1 < |nf| && nf[i].Some? ==> nf[i] != nf[i + 1])
    && (forall i :: 0 <= i && i + 2 < |nf| ==> !(nf[i].None? && nf[i + 1].None? && nf[i + 2].None?))
    && (forall i :: 0 <= i && i + 1 < |nf| && nf[i].None? && nf[i + 1].Some? ==>
          1 <= i && nf[i - 1].None?)
  }

  lemma PushIsNormal(nf: seq<Option<Candidate>>, x: Option<Candidate>)
    requires IsNormal(nf)
    ensures IsNormal(Push(nf, x))
  {
    if x.None? {
      if !EndsInGap(nf) {
        AppendIsNormal(nf, x);
      }
    } else {
      var base := if EndsInFlicker(nf) then nf[..|nf| - 1] else nf;
      PrefixIsNormal(nf, |base|);
      if !(base != [] && base[|base| - 1] == x) {
        AppendIsNormal(base, x);
      }
    }
  }

  lemma PrefixIsNormal(nf: seq<Option<Candidate>>, n: nat)
    requires IsNormal(nf) && n <= |nf|
    ensures IsNormal(nf[..n])
  {
  }

  /** An entry may follow unless it repeats, makes a third missing one, or ends a flicker. */
  lemma AppendIsNormal(nf: seq<Option<Candidate>>, x: Option<Candidate>)
    requires IsNormal(nf) && (nf != [] && x.Some? ==> nf[|nf| - 1] != x)
    requires x.None? ==> !EndsInGap(nf)
    requires x.Some? ==> !EndsInFlicker(nf)
    ensures IsNormal(nf + [x])
  {
  }

  lemma PushKeepsNormal(nf: seq<Option<Candidate>>, x: Option<Candidate>)
    requires IsNormal(nf + [x])
    ensures Push(nf, x) == nf + [x]
  {
    var full := nf + [x];
    if nf != [] {
      assert full[|nf| - 1] == nf[|nf| - 1] && full[|nf|] == x;
      if |nf| >= 2 {
        assert full[|nf| - 2] == nf[|nf| - 2];
      }
    }
  }

  /** Normalisation yields a normal form and leaves normal forms alone. */
  lemma {:induction false} NormalIsNormal(obs: seq<Option<Candidate>>)
    ensures IsNormal(Normal(obs))
    ensures IsNormal(obs) ==> Normal(obs) == obs
  {
    if obs != [] {
      var n := |obs| - 1;
      NormalIsNormal(obs[..n]);
      PushIsNormal(Normal(obs[..n]), obs[n]);
      if IsNormal(obs) {
        assert obs == obs[..n] + [obs[n]];
        PushKeepsNormal(obs[..n], obs[n]);
      }
    }
  }

  /** Redraws of the active prompt with one-snapshot flickers in between emit nothing. */
  lemma {:induction false} RedrawsAreSilent(s: State, obs: seq<Option<Candidate>>)
    requires Fresh(s) && s.active.Some?
    requires forall i :: 0 <= i < |obs| ==> obs[i] == None || obs[i] == Some(s.active.value.content)
    requires forall i :: 0 <= i && i + 1 < |obs| ==> obs[i].Some? || obs[i + 1].Some?
    ensures Observe(s, obs).1 == []
    ensures Observe(s, obs).0 == s.(absence := if obs == [] || obs[|obs| - 1].Some? then 0 else 1)
  {
    if obs == [] {
      ObserveNothing(s);
    } else {
      var n := |obs| - 1;
      assert obs == obs[..n] + [obs[n]];
      RedrawsAreSilent(s, obs[..n]);
      ObserveNext(s, obs[..n], obs[n]);
    }
  }

  // ----- resolve

  /** The id that was resolved last, empty when there is none. */
  function LastResolved(ops: seq<Op>): Text {
    if ops == [] then []
    else
      var last := ops[|ops| - 1];
      if last.Resolve? && last.id != [] then last.id else LastResolved(ops[..|ops| - 1])
  }

  lemma {:induction false} LatchIsLastResolved(ops: seq<Op>)
    ensures Run(INIT, ops).0.suppress ==> Run(INIT, ops).0.resolved == Stored(LastResolved(ops))
  {
    if ops != [] {
      var n := |ops| - 1;
      LatchIsLastResolved(ops[..n]);
      LatchMoves(Run(INIT, ops[..n]).0, ops[n]);
    }
  }

  lemma LatchMoves(s: State, op: Op)
    ensures
      var t := Step(s, op).0;
      t.suppress ==>
        if op.Resolve? && op.id != [] then t.resolved == Stored(op.id) else s.suppress && t.resolved == s.resolved
  {
  }

  /** In any run, a candidate that is not the one resolved last is never withheld: it ends up active. */
  lemma DistinctPromptIsNotWithheld(ops: seq<Op>, c: Candidate)
    requires LastResolved(ops) != InstanceId(c)
    ensures
      var t := Run(INIT, ops + [Process(Some(c))]).0;
      t.active.Some? && t.active.value.content == c && t.active.value.id == InstanceId(c)
  {
    assert (ops + [Process(Some(c))])[..|ops|] == ops;
    var s := Run(INIT, ops).0;
    RunIsLegal(INIT, ops);
    LatchIsLastResolved(ops);
    assert |Stored(LastResolved(ops))| == 16 ==> Stored(LastResolved(ops)) == LastResolved(ops);
    assert !Suppressed(s, InstanceId(c));
    SeenIsActive(s, c);
  }

  lemma SeenIsActive(s: State, c: Candidate)
    requires Inv(s)
    ensures Seen(s, c).0.active.Some?
    ensures Seen(s, c).0.active.value.content == c && Seen(s, c).0.active.value.id == InstanceId(c)
  {
  }

  predicate PresentsId(t: seq<Event>, id: Text) {
    exists i :: 0 <= i < |t| && t[i].Present? && t[i].inst.id == id
  }

  predicate AllSee(obs: seq<Option<Candidate>>, id: Text) {
    forall i :: 0 <= i < |obs| ==> obs[i].Some? && InstanceId(obs[i].value) == id
  }

  /** While every snapshot still shows the resolved id, nothing at all is emitted. */
  lemma {:induction false} LatchHolds(s: State, id: Text, obs: seq<Option<Candidate>>)
    requires Inv(s) && s.active.None? && s.suppress && s.resolved == id && AllSee(obs, id)
    ensures Observe(s, obs) == (s, [])
  {
    if obs == [] {
      ObserveNothing(s);
    } else {
      var n := |obs| - 1;
      assert obs == obs[..n] + [obs[n]];
      LatchHolds(s, id, obs[..n]);
      ObserveNext(s, obs[..n], obs[n]);
    }
  }

  /**
   Exactly when resolving the id of c keeps c from being presented again while it
   stays on screen: nothing else was active. Otherwise the other prompt's absence
   count runs out first, its GONE clears the latch, and c is presented.
   */
  lemma ResolveSuppressesIff(s: State, c: Candidate)
    requires Inv(s)
    ensures
      var id := InstanceId(c);
      var r := Step(s, Resolve(id)).0;
      (forall obs :: AllSee(obs, id) ==> !PresentsId(Observe(r, obs).1, id))
      <==> (s.active.None? || s.active.value.id == id)
  {
    var id := InstanceId(c);
    var r := Step(s, Resolve(id)).0;
    StepIsLegal(s, Resolve(id));
    assert id[..16] == id;
    if s.active.None? || s.active.value.id == id {
      forall obs | AllSee(obs, id)
        ensures !PresentsId(Observe(r, obs).1, id)
      {
        LatchHolds(r, id, obs);
      }
    } else {
      LatchIsLost(r, c);
      assert AllSee([Some(c), Some(c), Some(c)], id);
    }
  }

  lemma LatchIsLost(r: State, c: Candidate)
    requires Inv(r) && r.active.Some? && Suppressed(r, InstanceId(c))
    ensures PresentsId(Observe(r, [Some(c), Some(c), Some(c)]).1, InstanceId(c))
  {
    var o := Some(c);
    Thrice(r, o);
    var first := Step(r, Process(o));
    var shown := Present(Instance(InstanceId(c), c, 1));
    var t := Observe(r, [o, o, o]).1;
    if r.absence == 0 {
      assert Step(first.0, Process(o)) == (INIT, [Gone(r.active.value.id)]);
      assert Step(INIT, Process(o)).1 == [shown];
      assert t[1] == shown;
    } else {
      assert first == (INIT, [Gone(r.active.value.id)]);
      assert Step(INIT, Process(o)).1 == [shown];
      assert t[1] == shown;
    }
  }

  lemma Thrice(r: State, o: Option<Candidate>)
    ensures
      var first := Step(r, Process(o));
      var second := Step(first.0, Process(o));
      Observe(r, [o, o, o]).1 == first.1 + second.1 + Step(second.0, Process(o)).1
  {
    Twice(r, o);
    ObserveNext(r, [o, o], o);
    assert [o, o] + [o] == [o, o, o];
  }

  lemma Twice(r: State, o: Option<Candidate>)
    ensures
      var first := Step(r, Process(o));
      var second := Step(first.0, Process(o));
      Observe(r, [o, o]) == (second.0, first.1 + second.1)
  {
    var first := Step(r, Process(o));
    Once(r, o);
    ObserveNext(r, [o], o);
    assert [o] + [o] == [o, o] && first.1 + [] == first.1;
  }

  lemma Once(r: State, o: Option<Candidate>)
    ensures Observe(r, [o]) == Step(r, Process(o))
  {
    ObserveNothing(r);
    ObserveNext(r, [], o);
    assert [] + [o] == [o] && [] + Step(r, Process(o)).1 == Step(r, Process(o)).1;
  }

  /**
   Silence as long as every snapshot shows the resolved id; the first one that shows
   no candidate, or another id, opens the latch, and that candidate is presented.
   */
  lemma LatchOpens(s: State, obs: seq<Option<Candidate>>, seen: Option<Candidate>)
    requires Inv(s) && s.active.None? && s.suppress && AllSee(obs, s.resolved)
    requires seen.Some? ==> InstanceId(seen.value) != s.resolved
    ensures
      var t := Observe(s, obs + [seen]);
      && !t.0.suppress
      && t.1 == (if seen.None? then [] else [Present(Instance(InstanceId(seen.value), seen.value, 1))])
  {
    LatchHolds(s, s.resolved, obs);
    ObserveNext(s, obs, seen);
  }

  /**
   Whenever c is active and its id is resolved, another prompt d seen next becomes
   active if and only if its id differs: a distinct prompt with the same id is withheld.
   */
  lemma WithheldIffSharedId(ops: seq<Op>, c: Candidate, d: Candidate)
    requires Run(INIT, ops).0.active.Some? && Run(INIT, ops).0.active.value.content == c
    ensures
      var t := Run(INIT, ops + [Resolve(InstanceId(c)), Process(Some(d))]).0;
      (t.active.Some? && t.active.value.content == d) <==> InstanceId(d) != InstanceId(c)
  {
    var id := InstanceId(c);
    var s := Run(INIT, ops).0;
    RunIsLegal(INIT, ops);
    var resolved := ops + [Resolve(id)];
    assert resolved[..|ops|] == ops;
    var all := ops + [Resolve(id), Process(Some(d))];
    assert all[..|all| - 1] == resolved && all == resolved + [Process(Some(d))];
    assert Stored(id) == id;
    assert Run(INIT, resolved).0 == State(None, 0, true, id);
    if InstanceId(d) != id {
      DistinctPromptIsNotWithheld(resolved, d);
    }
  }

  /** A different prompt under the id of the active one is an update of it, not a new prompt. */
  lemma SharedIdUpdates(c: Candidate, d: Candidate)
    requires InstanceId(c) == InstanceId(d) && c != d
    ensures Observe(INIT, [Some(c), Some(d)]).1 ==
      [Present(Instance(InstanceId(c), c, 1)), Update(Instance(InstanceId(c), d, 2))]
  {
    ObserveNothing(INIT);
    ObserveNext(INIT, [], Some(c));
    ObserveNext(INIT, [Some(c)], Some(d));
    assert [] + [Some(c)] == [Some(c)] && [Some(c)] + [Some(d)] == [Some(c), Some(d)];
  }
}
