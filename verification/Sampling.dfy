/**
 One lifecycle step runs per feed call, so cutting the byte stream differently means
 sampling the same sequence of screens at different points. This module says exactly
 when the choice of sampling points cannot be seen in the events: in closed form from
 an idle lifecycle, then from every state of it.
 */
module Sampling {
  import opened Bytes
  import opened Prompt
  import opened Lifecycle

  type Obs = seq<Option<Candidate>>

  function Trace(obs: Obs): seq<Event> { Observe(INIT, obs).1 }

  /** Increasing sampling points, the last one at the end of the stream. */
  predicate IsSampling(cuts: seq<nat>, n: nat) {
    && 1 <= |cuts|
    && cuts[|cuts| - 1] == n - 1
    && (forall i :: 0 <= i < |cuts| ==> cuts[i] < n)
    && (forall i, j :: 0 <= i < j < |cuts| ==> cuts[i] < cuts[j])
  }

  function Sample(obs: Obs, cuts: seq<nat>): (r: Obs)
    requires forall i :: 0 <= i < |cuts| ==> cuts[i] < |obs|
    ensures |r| == |cuts| && forall i :: 0 <= i < |cuts| ==> r[i] == obs[cuts[i]]
  {
    seq(|cuts|, i requires 0 <= i < |cuts| => obs[cuts[i]])
  }

  /**
   The screens show no prompt at all; or they show one prompt, the last one, and
   after it first appeared at most one screen does not show it.
   */
  predicate Steady(obs: Obs)
    requires obs != []
  {
    var last := obs[|obs| - 1];
    && (forall i :: 0 <= i < |obs| ==> obs[i].None? || obs[i] == last)
    && (forall i, j, k :: 0 <= i < j < k < |obs| && obs[i].Some? && obs[j].None? ==> obs[k].Some?)
  }

  lemma SampleIsSteady(obs: Obs, cuts: seq<nat>)
    requires obs != [] && Steady(obs) && IsSampling(cuts, |obs|)
    ensures Steady(Sample(obs, cuts))
  {
    var r := Sample(obs, cuts);
    forall i, j, k | 0 <= i < j < k < |r| && r[i].Some? && r[j].None?
      ensures r[k].Some?
    {
      assert obs[cuts[i]].Some? && obs[cuts[j]].None?;
    }
  }

  predicate Blank(obs: Obs, k: nat)
    requires k <= |obs|
  {
    forall i :: 0 <= i < k ==> obs[i].None?
  }

  predicate Missed(obs: Obs, k: nat)
    requires k <= |obs|
  {
    exists i, j :: 0 <= i < j < k && obs[i].Some? && obs[j].None?
  }

  predicate Showing(r: (State, seq<Event>), c: Candidate) {
    && r.1 == [Present(Shown(c))]
    && r.0.active == Some(Shown(c)) && !r.0.suppress && r.0.absence <= 1
  }

  /** Before the prompt appears nothing happens; from then on it stays presented. */
  lemma {:induction false} SteadyPrefix(obs: Obs, k: nat, c: Candidate)
    requires obs != [] && Steady(obs) && obs[|obs| - 1] == Some(c) && k <= |obs|
    ensures
      var r := Observe(INIT, obs[..k]);
      if Blank(obs, k) then r == (INIT, [])
      else Showing(r, c) && (r.0.absence == 1 ==> Missed(obs, k))
  {
    if Blank(obs, k) {
      BlankTrace(obs[..k]);
    } else {
      SteadyPrefix(obs, k - 1, c);
      assert obs[..k] == obs[..k - 1] + [obs[k - 1]];
      ObserveNext(INIT, obs[..k - 1], obs[k - 1]);
      var before := Observe(INIT, obs[..k - 1]);
      if Blank(obs, k - 1) {
        FirstSight(c);
      } else {
        SteadyNext(obs, k, c, before);
      }
    }
  }

  lemma FirstSight(c: Candidate)
    ensures Step(INIT, Process(Some(c))) == (State(Some(Shown(c)), 0, false, []), [Present(Shown(c))])
    ensures [] + [Present(Shown(c))] == [Present(Shown(c))]
  {
  }

  lemma SteadyNext(obs: Obs, k: nat, c: Candidate, before: (State, seq<Event>))
    requires 0 < k <= |obs| && Steady(obs) && obs[|obs| - 1] == Some(c)
    requires Showing(before, c) && !Blank(obs, k - 1) && (before.0.absence == 1 ==> Missed(obs, k - 1))
    ensures
      var r := Step(before.0, Process(obs[k - 1]));
      r.1 == [] && Showing((r.0, before.1), c) && (r.0.absence == 1 ==> Missed(obs, k))
  {
    var i :| 0 <= i < k - 1 && obs[i].Some?;
    if before.0.absence == 1 {
      var i', j :| 0 <= i' < j < k - 1 && obs[i'].Some? && obs[j].None?;
      assert obs[k - 1].Some?;
    }
    SteadyStep(before.0, obs[k - 1], c);
  }

  lemma SteadyStep(s: State, x: Option<Candidate>, c: Candidate)
    requires s.active == Some(Shown(c)) && !s.suppress && (s.absence == 0 || x.Some?)
    requires x.None? || x == Some(c)
    ensures Step(s, Process(x)).1 == []
    ensures
      var t := Step(s, Process(x)).0;
      t.active == s.active && !t.suppress && t.absence == (if x.None? then 1 else 0)
  {
  }

  lemma {:induction false} BlankTrace(obs: Obs)
    requires forall i :: 0 <= i < |obs| ==> obs[i].None?
    ensures Observe(INIT, obs) == (INIT, [])
  {
    if obs == [] {
      ObserveNothing(INIT);
    } else {
      var n := |obs| - 1;
      assert obs == obs[..n] + [obs[n]];
      BlankTrace(obs[..n]);
      ObserveNext(INIT, obs[..n], obs[n]);
    }
  }

  lemma SteadyTrace(obs: Obs)
    requires obs != [] && Steady(obs)
    ensures Trace(obs) == match obs[|obs| - 1] case None => [] case Some(c) => [Present(Shown(c))]
  {
    var last := obs[|obs| - 1];
    if last.None? {
      BlankTrace(obs);
    } else {
      SteadyPrefix(obs, |obs|, last.value);
      assert obs[..|obs|] == obs;
    }
  }

  // ----- unsteady screens: sampling points that tell

  lemma TraceOfTwo(a: Option<Candidate>, b: Option<Candidate>)
    ensures
      var first := Step(INIT, Process(a));
      Trace([a, b]) == first.1 + Step(first.0, Process(b)).1
  {
    ObserveNothing(INIT);
    ObserveNext(INIT, [], a);
    ObserveNext(INIT, [a], b);
    assert [] + [a] == [a] && [a] + [b] == [a, b];
  }

  lemma TraceOfOne(a: Option<Candidate>)
    ensures Trace([a]) == match a case None => [] case Some(c) => [Present(Shown(c))]
  {
    ObserveNothing(INIT);
    ObserveNext(INIT, [], a);
    assert [] + [a] == [a];
  }

  lemma TraceWithGap(c: Candidate)
    ensures |Trace([Some(c), None, None, Some(c)])| == 3
  {
    var o := Some(c);
    GapEnds(c);
    ObserveNext(INIT, [o, None, None], o);
    assert [o, None, None] + [o] == [o, None, None, o];
  }

  /** A sampling point on another prompt than the last. */
  lemma OtherPromptTells(c: Candidate, last: Option<Candidate>)
    requires last != Some(c)
    ensures Trace([Some(c), last]) != Trace([last])
  {
    TraceOfOne(last);
    TraceOfTwo(Some(c), last);
    assert Trace([Some(c), last])[0] == Present(Shown(c));
  }

  lemma GapTells(c: Candidate)
    ensures Trace([Some(c), None, None, Some(c)]) != Trace([Some(c)])
  {
    TraceOfOne(Some(c));
    TraceWithGap(c);
  }

  lemma SampleTwo(obs: Obs, i: nat)
    requires i < |obs| - 1
    ensures IsSampling([i, |obs| - 1], |obs|) && Sample(obs, [i, |obs| - 1]) == [obs[i], obs[|obs| - 1]]
  {
  }

  lemma SampleFour(obs: Obs, i: nat, j: nat, k: nat)
    requires i < j < k < |obs| - 1
    ensures IsSampling([i, j, k, |obs| - 1], |obs|)
    ensures Sample(obs, [i, j, k, |obs| - 1]) == [obs[i], obs[j], obs[k], obs[|obs| - 1]]
  {
  }

  lemma UnsteadyTells(obs: Obs) returns (cuts: seq<nat>)
    requires obs != [] && !Steady(obs)
    ensures IsSampling(cuts, |obs|) && Trace(Sample(obs, cuts)) != Trace([obs[|obs| - 1]])
  {
    var n := |obs| - 1;
    if i :| 0 <= i < |obs| && obs[i].Some? && obs[i] != obs[n] {
      cuts := [i, n];
      SampleTwo(obs, i);
      OtherPromptTells(obs[i].value, obs[n]);
    } else {
      var i, j, k :| 0 <= i < j < k < |obs| && obs[i].Some? && obs[j].None? && obs[k].None?;
      assert obs[i] == obs[n];
      cuts := [i, j, k, n];
      SampleFour(obs, i, j, k);
      GapTells(obs[n].value);
    }
  }

  lemma SteadyIsInvisible(obs: Obs, cuts: seq<nat>)
    requires obs != [] && Steady(obs) && IsSampling(cuts, |obs|)
    ensures Trace(Sample(obs, cuts)) == Trace([obs[|obs| - 1]])
  {
    SampleIsSteady(obs, cuts);
    SteadyShowsLast(Sample(obs, cuts));
  }

  lemma SteadyShowsLast(obs: Obs)
    requires obs != [] && Steady(obs)
    ensures Trace(obs) == Trace([obs[|obs| - 1]])
  {
    SteadyTrace(obs);
    TraceOfOne(obs[|obs| - 1]);
  }

  /** The events are the same for every choice of sampling points iff the screens are steady. */
  lemma SamplingIsInvisibleIffSteady(obs: Obs)
    requires obs != []
    ensures Steady(obs) <==>
      forall cuts :: IsSampling(cuts, |obs|) ==> Trace(Sample(obs, cuts)) == Trace([obs[|obs| - 1]])
  {
    if Steady(obs) {
      forall cuts | IsSampling(cuts, |obs|)
        ensures Trace(Sample(obs, cuts)) == Trace([obs[|obs| - 1]])
      {
        SteadyIsInvisible(obs, cuts);
      }
    } else {
      var cuts := UnsteadyTells(obs);
    }
  }

  // ----- from any state of the lifecycle

  /** The samples give the events of the last screen alone. */
  predicate LikeLast(s: State, sample: Obs, last: Option<Candidate>) {
    Observe(s, sample).1 == Observe(s, [last]).1
  }

  /** Every choice of sampling points gives the events of the last screen alone. */
  ghost predicate Invisible(s: State, obs: Obs)
    requires obs != []
  {
    forall cuts :: IsSampling(cuts, |obs|) ==> LikeLast(s, Sample(obs, cuts), obs[|obs| - 1])
  }

  /** Sampling the screen x before the last one changes no event. */
  predicate Harmless(s: State, x: Option<Candidate>, last: Option<Candidate>) {
    Step(s, Process(x)).1 + Step(Step(s, Process(x)).0, Process(last)).1 == Step(s, Process(last)).1
  }

  /** Each screen, taken or skipped, is harmless in every state the samples before it can lead to. */
  predicate Unnoticed(s: State, obs: Obs)
    requires obs != []
    decreases |obs|
  {
    |obs| == 1 ||
    (&& Harmless(s, obs[0], obs[|obs| - 1])
     && Unnoticed(s, obs[1..])
     && Unnoticed(Step(s, Process(obs[0])).0, obs[1..]))
  }

  function Down(cuts: seq<nat>): (r: seq<nat>)
    requires forall i :: 0 <= i < |cuts| ==> 0 < cuts[i]
    ensures |r| == |cuts| && forall i :: 0 <= i < |cuts| ==> r[i] == cuts[i] - 1
  {
    seq(|cuts|, i requires 0 <= i < |cuts| => cuts[i] - 1)
  }

  function Up(cuts: seq<nat>): (r: seq<nat>)
    ensures |r| == |cuts| && forall i :: 0 <= i < |cuts| ==> r[i] == cuts[i] + 1
  {
    seq(|cuts|, i requires 0 <= i < |cuts| => cuts[i] + 1)
  }

  lemma SkipFirst(obs: Obs, cuts: seq<nat>)
    requires |obs| > 1 && IsSampling(cuts, |obs|) && cuts[0] != 0
    ensures forall i :: 0 <= i < |cuts| ==> 0 < cuts[i]
    ensures IsSampling(Down(cuts), |obs| - 1)
    ensures Sample(obs, cuts) == Sample(obs[1..], Down(cuts))
  {
    forall i | 0 <= i < |cuts|
      ensures 0 < cuts[i]
    {
      assert 0 < i ==> cuts[0] < cuts[i];
    }
  }

  lemma TakeFirst(obs: Obs, cuts: seq<nat>)
    requires |obs| > 1 && IsSampling(cuts, |obs|) && cuts[0] == 0
    ensures forall i :: 0 <= i < |cuts[1..]| ==> 0 < cuts[1..][i]
    ensures IsSampling(Down(cuts[1..]), |obs| - 1)
    ensures Sample(obs, cuts) == [obs[0]] + Sample(obs[1..], Down(cuts[1..]))
  {
    var tail := cuts[1..];
    assert tail[|tail| - 1] == cuts[|cuts| - 1];
    forall i | 0 <= i < |tail|
      ensures 0 < tail[i]
    {
      assert cuts[0] < cuts[i + 1];
    }
  }

  lemma SkippedFirst(obs: Obs, cuts: seq<nat>)
    requires |obs| > 1 && IsSampling(cuts, |obs| - 1)
    ensures IsSampling(Up(cuts), |obs|) && Sample(obs, Up(cuts)) == Sample(obs[1..], cuts)
  {
  }

  lemma TakenFirst(obs: Obs, cuts: seq<nat>)
    requires |obs| > 1 && IsSampling(cuts, |obs| - 1)
    ensures IsSampling([0] + Up(cuts), |obs|)
    ensures Sample(obs, [0] + Up(cuts)) == [obs[0]] + Sample(obs[1..], cuts)
  {
    var all := [0] + Up(cuts);
    forall i | 0 <= i < |all|
      ensures all[i] < |obs| && (0 < i ==> all[i] == cuts[i - 1] + 1)
    {
    }
  }

  lemma ObserveFirst(s: State, x: Option<Candidate>, rest: Obs)
    ensures
      var first := Step(s, Process(x));
      Observe(s, [x] + rest).1 == first.1 + Observe(first.0, rest).1
  {
    Once(s, x);
    RunConcat(s, Ops([x]), Ops(rest));
    assert Ops([x] + rest) == Ops([x]) + Ops(rest);
  }

  /** After a harmless first sample the others give the events of the last alone iff all do. */
  lemma FirstThenRest(s: State, x: Option<Candidate>, rest: Obs, last: Option<Candidate>)
    requires Harmless(s, x, last)
    ensures LikeLast(s, [x] + rest, last) <==> LikeLast(Step(s, Process(x)).0, rest, last)
  {
    var first := Step(s, Process(x));
    ObserveFirst(s, x, rest);
    Once(first.0, last);
    Once(s, last);
    SameRest(first.1, Observe(first.0, rest).1, Observe(first.0, [last]).1);
  }

  lemma SameRest(a: seq<Event>, x: seq<Event>, y: seq<Event>)
    ensures a + x == a + y <==> x == y
  {
    assert (a + x)[|a|..] == x && (a + y)[|a|..] == y;
  }

  lemma OneScreen(s: State, obs: Obs)
    requires |obs| == 1
    ensures Invisible(s, obs)
  {
    forall cuts | IsSampling(cuts, 1)
      ensures Sample(obs, cuts) == [obs[0]]
    {
      var first, last := cuts[0], cuts[|cuts| - 1];
      assert |cuts| > 1 ==> first < last;
    }
  }

  /** If the first screen is harmless and the choice among the others is invisible, taken or skipped. */
  lemma TakeOrSkip(s: State, next: State, obs: Obs)
    requires |obs| > 1 && next == Step(s, Process(obs[0])).0 && Harmless(s, obs[0], obs[|obs| - 1])
    requires Invisible(s, obs[1..]) && Invisible(next, obs[1..])
    ensures Invisible(s, obs)
  {
    var rest, last := obs[1..], obs[|obs| - 1];
    forall cuts | IsSampling(cuts, |obs|)
      ensures LikeLast(s, Sample(obs, cuts), last)
    {
      if cuts[0] == 0 {
        TakeFirst(obs, cuts);
        FirstThenRest(s, obs[0], Sample(rest, Down(cuts[1..])), last);
      } else {
        SkipFirst(obs, cuts);
      }
    }
  }

  lemma FirstIsHarmless(s: State, obs: Obs)
    requires |obs| > 1 && Invisible(s, obs)
    ensures Harmless(s, obs[0], obs[|obs| - 1])
  {
    var last := obs[|obs| - 1];
    SampleTwo(obs, 0);
    ObserveFirst(s, obs[0], [last]);
    assert [obs[0]] + [last] == [obs[0], last];
    Once(Step(s, Process(obs[0])).0, last);
    Once(s, last);
  }

  lemma SkippingStaysInvisible(s: State, obs: Obs)
    requires |obs| > 1 && Invisible(s, obs)
    ensures Invisible(s, obs[1..])
  {
    forall cuts | IsSampling(cuts, |obs| - 1)
      ensures LikeLast(s, Sample(obs[1..], cuts), obs[|obs| - 1])
    {
      SkippedFirst(obs, cuts);
    }
  }

  lemma TakingStaysInvisible(s: State, next: State, obs: Obs)
    requires |obs| > 1 && next == Step(s, Process(obs[0])).0 && Invisible(s, obs)
    ensures Invisible(next, obs[1..])
  {
    FirstIsHarmless(s, obs);
    forall cuts | IsSampling(cuts, |obs| - 1)
      ensures LikeLast(next, Sample(obs[1..], cuts), obs[|obs| - 1])
    {
      TakenThenRest(s, next, obs, cuts);
    }
  }

  lemma TakenThenRest(s: State, next: State, obs: Obs, cuts: seq<nat>)
    requires |obs| > 1 && next == Step(s, Process(obs[0])).0 && Invisible(s, obs) && IsSampling(cuts, |obs| - 1)
    requires Harmless(s, obs[0], obs[|obs| - 1])
    ensures LikeLast(next, Sample(obs[1..], cuts), obs[|obs| - 1])
  {
    TakenFirst(obs, cuts);
    FirstThenRest(s, obs[0], Sample(obs[1..], cuts), obs[|obs| - 1]);
  }

  /** From every state of the lifecycle: no choice of sampling points shows iff every screen goes unnoticed. */
  lemma {:induction false} SamplingIsInvisibleIff(s: State, obs: Obs)
    requires obs != []
    ensures Invisible(s, obs) <==> Unnoticed(s, obs)
    decreases |obs|
  {
    if |obs| == 1 {
      OneScreen(s, obs);
    } else {
      var next := Step(s, Process(obs[0])).0;
      SamplingIsInvisibleIff(s, obs[1..]);
      SamplingIsInvisibleIff(next, obs[1..]);
      if Unnoticed(s, obs) {
        TakeOrSkip(s, next, obs);
      }
      if Invisible(s, obs) {
        FirstIsHarmless(s, obs);
        SkippingStaysInvisible(s, obs);
        TakingStaysInvisible(s, next, obs);
      }
    }
  }

  /** What that means before any prompt was seen. */
  lemma IdleUnnoticedIff(obs: Obs)
    requires obs != []
    ensures Unnoticed(INIT, obs) <==> Steady(obs)
  {
    SamplingIsInvisibleIff(INIT, obs);
    SamplingIsInvisibleIffSteady(obs);
  }

  function Misses(obs: Obs): nat {
    if obs == [] then 0 else One(obs[0].None?) + Misses(obs[1..])
  }

  predicate Only(obs: Obs, c: Candidate)
    decreases |obs|
  {
    obs == [] || ((obs[0].None? || obs[0] == Some(c)) && Only(obs[1..], c))
  }

  /** A screen is harmless to the active prompt if it shows it, or is the first to miss it. */
  lemma ActiveHarmless(s: State, x: Option<Candidate>)
    requires Inv(s) && s.active.Some? && !s.suppress
    ensures
      var last := Some(s.active.value.content);
      Harmless(s, x, last) <==> x == last || (x.None? && s.absence == 0)
    ensures x == Some(s.active.value.content) ==> Step(s, Process(x)).0 == s.(absence := 0)
    ensures x.None? && s.absence == 0 ==> Step(s, Process(x)).0 == s.(absence := 1)
  {
    var last := Some(s.active.value.content);
    assert Step(s, Process(last)).1 == [];
    if x.None? && s.absence == 0 {
      assert Step(s.(absence := 1), Process(last)).1 == [];
    } else if x == last {
      assert Step(s.(absence := 0), Process(last)).1 == [];
    } else {
      assert Step(s, Process(x)).1 != [];
    }
  }

  /** The screens after the first, from the two states they may be sampled in. */
  predicate Rest(s: State, next: State, obs: Obs)
    requires |obs| > 1
  {
    Unnoticed(s, obs[1..]) && Unnoticed(next, obs[1..])
  }

  lemma ActiveUnfolds(s: State, obs: Obs)
    requires Inv(s) && s.active.Some? && !s.suppress
    requires |obs| > 1 && obs[|obs| - 1] == Some(s.active.value.content)
    ensures Unnoticed(s, obs) <==>
      if obs[0] == Some(s.active.value.content) then Rest(s, s.(absence := 0), obs)
      else obs[0].None? && s.absence == 0 && Rest(s, s.(absence := 1), obs)
  {
    ActiveHarmless(s, obs[0]);
  }

  /** While a prompt is active and in the end still shown: no other prompt, and at most one screen without it. */
  lemma {:induction false} ActiveUnnoticedIff(s: State, obs: Obs)
    requires Inv(s) && s.active.Some? && !s.suppress
    requires obs != [] && obs[|obs| - 1] == Some(s.active.value.content)
    ensures Unnoticed(s, obs) <==> Only(obs, s.active.value.content) && s.absence + Misses(obs) <= 1
    decreases |obs|
  {
    var rest := obs[1..];
    if |obs| == 1 {
      assert rest == [] && Misses(rest) == 0 && Only(rest, s.active.value.content);
    } else {
      ActiveUnfolds(s, obs);
      if obs[0].None? && s.absence == 0 {
        ActiveUnnoticedIff(s, rest);
        ActiveUnnoticedIff(s.(absence := 1), rest);
      } else if obs[0] == Some(s.active.value.content) {
        ActiveUnnoticedIff(s, rest);
        ActiveUnnoticedIff(s.(absence := 0), rest);
      }
    }
  }

  /** While a resolved prompt is in the end still on the screen: no other screen than such ones. */
  lemma {:induction false} ResolvedUnnoticedIff(s: State, obs: Obs)
    requires Inv(s) && s.active.None? && s.suppress
    requires obs != [] && obs[|obs| - 1].Some? && InstanceId(obs[|obs| - 1].value) == s.resolved
    ensures Unnoticed(s, obs) <==> AllSee(obs, s.resolved)
    decreases |obs|
  {
    var rest := obs[1..];
    if |obs| > 1 {
      ResolvedUnnoticedIff(s, rest);
      assert AllSee(obs, s.resolved) <==>
        AllSee(rest, s.resolved) && obs[0].Some? && InstanceId(obs[0].value) == s.resolved by {
        assert forall i :: 0 < i < |obs| ==> obs[i] == rest[i - 1];
        assert forall i :: 0 <= i < |rest| ==> rest[i] == obs[i + 1];
      }
    }
  }
}
