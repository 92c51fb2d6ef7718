/**
 What each operation of the detector does to a run of it: which events follow a
 resolve, which rules judge the next screens, and which prompts the cursor allows.
 */
module DetectorLaws {
  import opened Bytes
  import opened Display
  import opened Prompt
  import opened Rules
  import opened Detection
  import Vt
  import Tokens
  import ControlLaws
  import L = Lifecycle

  /** The terminal after the first i feeds. */
  function TermAfter(m: Vt.Machine, feeds: seq<Text>, i: nat): (r: Vt.Machine)
    requires Vt.Valid(m) && i <= |feeds|
    ensures Vt.Valid(r)
  {
    Vt.Feed(m, Tokens.Flatten(feeds[..i]))
  }

  /** The candidate on the screen after the first i feeds. */
  ghost function SeenThen(m: Vt.Machine, rules: seq<Rule>, feeds: seq<Text>, i: nat): Option<Candidate>
    requires Vt.Valid(m) && i <= |feeds|
  {
    Observation(rules, TermAfter(m, feeds, i).screen)
  }

  /** The candidates on the screens after each of the feeds. */
  ghost function SeenAt(m: Vt.Machine, rules: seq<Rule>, feeds: seq<Text>): (obs: seq<Option<Candidate>>)
    requires Vt.Valid(m)
    ensures |obs| == |feeds|
    ensures forall i :: 0 <= i < |obs| ==> obs[i] == SeenThen(m, rules, feeds, i + 1)
  {
    seq(|feeds|, i requires 0 <= i < |feeds| => SeenThen(m, rules, feeds, i + 1))
  }

  /** A detector that has fed on all of this: its terminal, its rules and a lifecycle that saw the screens. */
  ghost function Fed(m: Vt.Machine, rules: seq<Rule>, life: L.State, feeds: seq<Text>): (Detector, seq<L.Event>)
    requires Vt.Valid(m)
  {
    var o := L.Observe(life, SeenAt(m, rules, feeds));
    (Detector(TermAfter(m, feeds, |feeds|), rules, o.0), o.1)
  }

  ghost function Then(events: seq<L.Event>, r: (Detector, seq<L.Event>)): (Detector, seq<L.Event>) {
    (r.0, events + r.1)
  }

  // ----- runs

  lemma RunNext(d: Detector, ops: seq<Op>, op: Op)
    requires Valid(d)
    ensures Run(d, ops + [op]) == Then(Run(d, ops).1, Step(Run(d, ops).0, op))
  {
    assert (ops + [op])[..|ops|] == ops;
  }

  lemma {:induction false} AllTogether(m: Vt.Machine, feeds: seq<Text>, x: Text)
    requires Vt.Valid(m)
    ensures TermAfter(m, feeds + [x], |feeds| + 1) == Vt.Feed(TermAfter(m, feeds, |feeds|), x)
    ensures forall i :: 0 <= i <= |feeds| ==> TermAfter(m, feeds + [x], i) == TermAfter(m, feeds, i)
  {
    var all := feeds + [x];
    assert all[..|feeds| + 1] == all && feeds[..|feeds|] == feeds;
    FlattenSnoc(feeds, x);
    Vt.FeedConcat(m, Tokens.Flatten(feeds), x);
    forall i | 0 <= i <= |feeds|
      ensures TermAfter(m, all, i) == TermAfter(m, feeds, i)
    {
      assert all[..i] == feeds[..i];
    }
  }

  lemma SeenAtSnoc(m: Vt.Machine, rules: seq<Rule>, feeds: seq<Text>, x: Text)
    requires Vt.Valid(m)
    ensures SeenAt(m, rules, feeds + [x]) ==
      SeenAt(m, rules, feeds) + [SeenAfter(TermAfter(m, feeds, |feeds|), rules, x)]
  {
    AllTogether(m, feeds, x);
  }

  /** After any run, feeds are one run of the lifecycle over what the rules find on the screens they lead to. */
  lemma {:induction false} FeedsObserve(d: Detector, ops: seq<Op>, feeds: seq<Text>)
    requires Valid(d) && NoneEmpty(feeds)
    ensures
      var s := Run(d, ops);
      Run(d, ops + Feeds(feeds)) == Then(s.1, Fed(s.0.term, s.0.rules, s.0.life, feeds))
    decreases |feeds|
  {
    var s := Run(d, ops);
    if feeds == [] {
      L.ObserveNothing(s.0.life);
      assert SeenAt(s.0.term, s.0.rules, feeds) == [] && ops + Feeds(feeds) == ops && s.1 + [] == s.1;
    } else {
      var front, x := feeds[..|feeds| - 1], feeds[|feeds| - 1];
      assert feeds == front + [x];
      FeedsObserve(d, ops, front);
      FeedsSnoc(feeds);
      assert ops + Feeds(feeds) == ops + Feeds(front) + [Feed(x)];
      FedNext(s.0, front, x);
      FeedNext(d, ops + Feeds(front), x);
      L.Regroup(s.1, Fed(s.0.term, s.0.rules, s.0.life, front).1,
                L.Step(Fed(s.0.term, s.0.rules, s.0.life, front).0.life,
                       L.Process(SeenAfter(TermAfter(s.0.term, front, |front|), s.0.rules, x))).1);
    }
  }

  lemma FedNext(s: Detector, front: seq<Text>, x: Text)
    requires Valid(s)
    ensures
      var before := Fed(s.term, s.rules, s.life, front);
      var next := L.Step(before.0.life, L.Process(SeenAfter(before.0.term, s.rules, x)));
      Fed(s.term, s.rules, s.life, front + [x]) ==
        (Detector(Vt.Feed(before.0.term, x), s.rules, next.0), if next.1 == [] then before.1 else before.1 + next.1)
  {
    SeenAtSnoc(s.term, s.rules, front, x);
    AllTogether(s.term, front, x);
    L.ObserveNext(s.life, SeenAt(s.term, s.rules, front), SeenAfter(TermAfter(s.term, front, |front|), s.rules, x));
  }

  /** One operation after any run, and feeds after that. */
  lemma RunThenFeeds(d: Detector, ops: seq<Op>, op: Op, feeds: seq<Text>)
    requires Valid(d) && NoneEmpty(feeds)
    ensures
      var s := Run(d, ops);
      var r := Step(s.0, op);
      Run(d, ops + [op] + Feeds(feeds)) ==
        Then(s.1 + r.1, Fed(r.0.term, r.0.rules, r.0.life, feeds))
  {
    RunNext(d, ops, op);
    FeedsObserve(d, ops + [op], feeds);
  }

  // ----- resolve

  /**
   After any run, resolving the active id emits exactly that it is gone and leaves
   nothing active; resolving any other id emits nothing and leaves the active prompt.
   */
  lemma ResolveEnds(d: Detector, ops: seq<Op>, id: Text)
    requires Valid(d)
    ensures
      var s := Run(d, ops);
      var r := Run(d, ops + [Resolve(id)]);
      && r.0.term == s.0.term && r.0.rules == s.0.rules
      && if s.0.life.active.Some? && s.0.life.active.value.id == id
         then r.0.life.active == None && r.1 == s.1 + [L.Gone(id)]
         else r.0.life.active == s.0.life.active && r.1 == s.1
  {
    assert (ops + [Resolve(id)])[..|ops|] == ops;
    var s := Run(d, ops);
    assert s.1 + [] == s.1;
  }

  lemma ResolveLatches(d: Detector, id: Text)
    requires Valid(d) && d.life.active.Some? && d.life.active.value.id == id
    ensures Step(d, Resolve(id)) == (d.(life := L.State(None, 0, true, id)), [L.Gone(id)])
  {
    assert id[..|id|] == id;
  }

  /** Each of the feeds leads to a screen on which the rules find a prompt with this id. */
  ghost predicate KeepsShowing(s: Detector, feeds: seq<Text>, id: Text)
    requires Valid(s)
  {
    forall k :: 0 < k <= |feeds| ==>
      var seen := SeenThen(s.term, s.rules, feeds, k);
      seen.Some? && InstanceId(seen.value) == id
  }

  lemma AllSeeIt(s: Detector, feeds: seq<Text>, id: Text)
    requires Valid(s) && KeepsShowing(s, feeds, id)
    ensures L.AllSee(SeenAt(s.term, s.rules, feeds), id)
  {
    var obs := SeenAt(s.term, s.rules, feeds);
    forall i | 0 <= i < |obs|
      ensures obs[i].Some? && InstanceId(obs[i].value) == id
    {
      assert obs[i] == SeenThen(s.term, s.rules, feeds, i + 1);
    }
  }

  lemma AfterResolve(d: Detector, ops: seq<Op>, feeds: seq<Text>, id: Text)
    requires Valid(d) && NoneEmpty(feeds)
    requires Run(d, ops).0.life.active.Some? && Run(d, ops).0.life.active.value.id == id
    ensures
      var s := Run(d, ops);
      && L.Inv(L.State(None, 0, true, id))
      && Run(d, ops + [Resolve(id)] + Feeds(feeds)) ==
        Then(s.1 + [L.Gone(id)], Fed(s.0.term, s.0.rules, L.State(None, 0, true, id), feeds))
  {
    ResolveLatches(Run(d, ops).0, id);
    RunThenFeeds(d, ops, Resolve(id), feeds);
  }

  /** A resolved prompt stays away: nothing more is emitted as long as the screens show its id. */
  lemma ResolvedStaysAway(d: Detector, ops: seq<Op>, feeds: seq<Text>, id: Text)
    requires Valid(d) && NoneEmpty(feeds)
    requires
      var s := Run(d, ops).0;
      s.life.active.Some? && s.life.active.value.id == id && KeepsShowing(s, feeds, id)
    ensures
      var r := Run(d, ops + [Resolve(id)] + Feeds(feeds));
      r.1 == Run(d, ops).1 + [L.Gone(id)] && r.0.life.active == None
  {
    var s := Run(d, ops);
    AfterResolve(d, ops, feeds, id);
    AllSeeIt(s.0, feeds, id);
    L.LatchHolds(L.State(None, 0, true, id), id, SeenAt(s.0.term, s.0.rules, feeds));
    assert s.1 + [L.Gone(id)] + [] == s.1 + [L.Gone(id)];
  }

  /** And the first feed that shows another prompt presents that one, as new. */
  lemma OtherPromptFollows(d: Detector, ops: seq<Op>, feeds: seq<Text>, id: Text, last: Text, c: Candidate)
    requires Valid(d) && NoneEmpty(feeds) && last != []
    requires
      var s := Run(d, ops).0;
      s.life.active.Some? && s.life.active.value.id == id && KeepsShowing(s, feeds, id)
    requires
      var s := Run(d, ops).0;
      SeenAfter(TermAfter(s.term, feeds, |feeds|), s.rules, last) == Some(c) && InstanceId(c) != id
    ensures
      var shown := Instance(InstanceId(c), c, 1);
      var r := Run(d, ops + [Resolve(id)] + Feeds(feeds + [last]));
      r.1 == Run(d, ops).1 + [L.Gone(id), L.Present(shown)] && r.0.life.active == Some(shown)
  {
    var s := Run(d, ops);
    AfterResolve(d, ops, feeds + [last], id);
    SeesOther(s.0, feeds, id, last, c);
    var shown := L.Present(Instance(InstanceId(c), c, 1));
    Both(s.1, L.Gone(id), shown);
  }

  lemma Both(events: seq<L.Event>, a: L.Event, b: L.Event)
    ensures events + [a] + [b] == events + [a, b]
  {
  }

  lemma SeesOther(s: Detector, feeds: seq<Text>, id: Text, last: Text, c: Candidate)
    requires Valid(s) && KeepsShowing(s, feeds, id) && L.Inv(L.State(None, 0, true, id))
    requires SeenAfter(TermAfter(s.term, feeds, |feeds|), s.rules, last) == Some(c) && InstanceId(c) != id
    ensures
      var shown := Instance(InstanceId(c), c, 1);
      var t := Fed(s.term, s.rules, L.State(None, 0, true, id), feeds + [last]);
      t.1 == [L.Present(shown)] && t.0.life.active == Some(shown)
  {
    AllSeeIt(s, feeds, id);
    SeenAtSnoc(s.term, s.rules, feeds, last);
    OtherIsPresented(L.State(None, 0, true, id), SeenAt(s.term, s.rules, feeds), Some(c));
  }

  lemma OtherIsPresented(latched: L.State, obs: seq<Option<Candidate>>, seen: Option<Candidate>)
    requires L.Inv(latched) && latched.active.None? && latched.suppress && L.AllSee(obs, latched.resolved)
    requires seen.Some? && InstanceId(seen.value) != latched.resolved
    ensures
      var shown := Instance(InstanceId(seen.value), seen.value, 1);
      var t := L.Observe(latched, obs + [seen]);
      t.1 == [L.Present(shown)] && t.0.active == Some(shown)
  {
    L.LatchHolds(latched, latched.resolved, obs);
    L.ObserveNext(latched, obs, seen);
  }

  // ----- rules and size

  /** New rules emit nothing and change nothing else; every later feed is judged by them. */
  lemma RulesTakeEffect(d: Detector, ops: seq<Op>, rules: seq<Rule>, feeds: seq<Text>)
    requires Valid(d) && NoneEmpty(feeds)
    ensures
      var s := Run(d, ops);
      Run(d, ops + [SetRules(rules)] + Feeds(feeds)) == Then(s.1, Fed(s.0.term, rules, s.0.life, feeds))
  {
    RunThenFeeds(d, ops, SetRules(rules), feeds);
    assert Run(d, ops).1 + [] == Run(d, ops).1;
  }

  /** A new size emits nothing and keeps rules, lifecycle and a pending escape; every later feed starts from it. */
  lemma ResizeTakesEffect(d: Detector, ops: seq<Op>, rows: int, cols: int, feeds: seq<Text>)
    requires Valid(d) && NoneEmpty(feeds)
    ensures
      var s := Run(d, ops);
      var resized := Vt.Machine(Resized(s.0.term.screen, rows, cols), s.0.term.mode);
      Run(d, ops + [Resize(rows, cols)] + Feeds(feeds)) == Then(s.1, Fed(resized, s.0.rules, s.0.life, feeds))
  {
    RunThenFeeds(d, ops, Resize(rows, cols), feeds);
    assert Run(d, ops).1 + [] == Run(d, ops).1;
  }

  /** After any run, a feed of no bytes does nothing. */
  lemma EmptyFeed(d: Detector, ops: seq<Op>)
    requires Valid(d)
    ensures Run(d, ops + [Feed([])]) == Run(d, ops)
  {
    RunNext(d, ops, Feed([]));
    assert Run(d, ops).1 + [] == Run(d, ops).1;
  }

  // ----- the cursor

  /** ESC [ r ; c H, counted from 1. */
  function ToPosition(r: nat, c: nat): Text {
    ControlLaws.Sequence(Digits(r + 1) + [59] + Digits(c + 1), 72)
  }

  /** The prompt is of one of the rules, and its row is at most one below and not too far above the row given. */
  ghost predicate InWindow(rules: seq<Rule>, c: Candidate, r: int) {
    exists rule :: rule in rules && c.patternId == rule.patternId &&
      c.anchorRow - 1 <= r <= c.anchorRow + rule.maxScanLines + 2
  }

  lemma FoundInWindow(rules: seq<Rule>, s: Screen)
    requires Fits(s) && Observation(rules, s).Some?
    ensures InWindow(rules, Observation(rules, s).value, s.row)
  {
    var i, row := MatchIsLexicographicallyFirst(rules, SnapshotOf(s));
    assert rules[i] in rules;
  }

  lemma CursorThere(m: Vt.Machine, r: nat, c: nat)
    requires Vt.Valid(m) && m.mode == Vt.Ground && r < m.screen.rows < 100000 && c < m.screen.cols < 100000
    ensures Vt.Feed(m, ToPosition(r, c)).screen.row == r
  {
    var after := Positioned(m, r, c);
  }

  lemma Positioned(m: Vt.Machine, r: nat, c: nat) returns (after: Vt.Machine)
    requires Vt.Valid(m) && m.mode == Vt.Ground && r < m.screen.rows < 100000 && c < m.screen.cols < 100000
    ensures after == Vt.Feed(m, ToPosition(r, c)) && ControlLaws.Moves(m.screen, after, r, c)
  {
    after := Vt.Feed(m, ToPosition(r, c));
    ControlLaws.ShortNumber(r + 1);
    ControlLaws.ShortNumber(c + 1);
    ControlLaws.CursorPosition(m.screen, r + 1, c + 1, 72);
    assert m == Vt.Machine(m.screen, Vt.Ground);
  }

  lemma FeedEmitsWhatItSees(s: Detector, bytes: Text, e: L.Event)
    requires Valid(s) && bytes != [] && e in Step(s, Feed(bytes)).1 && !e.Gone?
    ensures SeenAfter(s.term, s.rules, bytes) == Some(e.inst.content)
  {
    L.EmitsWhatItSees(s.life, L.Process(SeenAfter(s.term, s.rules, bytes)), e);
  }

  /**
   After any run that leaves no escape pending: bytes that put the cursor on row r let
   the detector find, present or update only prompts whose cursor window holds r.
   */
  lemma CursorDecides(d: Detector, ops: seq<Op>, r: nat, c: nat) returns (events: seq<L.Event>)
    requires Valid(d)
    requires
      var m := Run(d, ops).0.term;
      m.mode == Vt.Ground && r < m.screen.rows < 100000 && c < m.screen.cols < 100000
    ensures
      var s := Run(d, ops);
      var seen := SeenAfter(s.0.term, s.0.rules, ToPosition(r, c));
      && (seen.Some? ==> InWindow(s.0.rules, seen.value, r))
      && Run(d, ops + [Feed(ToPosition(r, c))]).1 == s.1 + events
      && forall e :: e in events && !e.Gone? ==> InWindow(s.0.rules, e.inst.content, r)
  {
    var s := Run(d, ops);
    var bytes := ToPosition(r, c);
    CursorThere(s.0.term, r, c);
    if SeenAfter(s.0.term, s.0.rules, bytes).Some? {
      FoundInWindow(s.0.rules, Vt.Feed(s.0.term, bytes).screen);
    }
    RunNext(d, ops, Feed(bytes));
    events := Step(s.0, Feed(bytes)).1;
    forall e | e in events && !e.Gone?
      ensures InWindow(s.0.rules, e.inst.content, r)
    {
      FeedEmitsWhatItSees(s.0, bytes, e);
    }
  }
}
