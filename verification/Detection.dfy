/** The detector on values: terminal, rules and lifecycle composed, and its whole-run guarantees. */
module Detection {
  import opened Bytes
  import opened Display
  import opened Prompt
  import opened Rules
  import opened Sampling
  import Vt
  import Tokens
  import L = Lifecycle

  datatype Detector = Detector(term: Vt.Machine, rules: seq<Rule>, life: L.State)

  datatype Op =
    | Feed(bytes: Text)
    | Resize(rows: int, cols: int)
    | Resolve(id: Text)
    | SetRules(rules: seq<Rule>)

  ghost predicate Valid(d: Detector) { Vt.Valid(d.term) && L.Inv(d.life) }

  ghost function Initial(rows: int, cols: int): (d: Detector)
    ensures Valid(d)
  {
    Detector(Vt.Machine(InitialScreen(rows, cols), Vt.Ground), [], L.INIT)
  }

  /** The candidate the rules find on a screen. */
  ghost function Observation(rules: seq<Rule>, s: Screen): Option<Candidate>
    requires Fits(s)
  {
    FirstMatch(rules, SnapshotOf(s))
  }

  ghost function Step(d: Detector, op: Op): (r: (Detector, seq<L.Event>))
    requires Valid(d)
    ensures Valid(r.0)
  {
    match op
    case Feed(bytes) =>
      if bytes == [] then (d, [])
      else
        var term := Vt.Feed(d.term, bytes);
        var seen := L.Process(Observation(d.rules, term.screen));
        L.StepIsLegal(d.life, seen);
        var next := L.Step(d.life, seen);
        (d.(term := term, life := next.0), next.1)
    case Resize(rows, cols) => (d.(term := d.term.(screen := Resized(d.term.screen, rows, cols))), [])
    case Resolve(id) =>
      L.StepIsLegal(d.life, L.Resolve(id));
      var next := L.Step(d.life, L.Resolve(id));
      (d.(life := next.0), next.1)
    case SetRules(rules) => (d.(rules := rules), [])
  }

  ghost function Run(d: Detector, ops: seq<Op>): (r: (Detector, seq<L.Event>))
    requires Valid(d)
    ensures Valid(r.0)
  {
    if ops == [] then (d, [])
    else
      var before := Run(d, ops[..|ops| - 1]);
      var last := Step(before.0, ops[|ops| - 1]);
      (last.0, before.1 + last.1)
  }

  // ----- events

  lemma StepIsLegal(d: Detector, op: Op)
    requires Valid(d)
    ensures L.Grammatical(d.life.active, Step(d, op).1)
    ensures L.Replay(d.life.active, Step(d, op).1) == Step(d, op).0.life.active
  {
    match op {
      case Feed(bytes) =>
        if bytes != [] {
          var seen := Observation(d.rules, Vt.Feed(d.term, bytes).screen);
          L.StepIsLegal(d.life, L.Process(seen));
        }
      case Resolve(id) => L.StepIsLegal(d.life, L.Resolve(id));
      case _ =>
    }
  }

  /** Every run of the detector emits a grammatical trace whose replay is the active prompt. */
  lemma {:induction false} RunIsLegal(d: Detector, ops: seq<Op>)
    requires Valid(d)
    ensures L.Grammatical(d.life.active, Run(d, ops).1)
    ensures L.Replay(d.life.active, Run(d, ops).1) == Run(d, ops).0.life.active
  {
    if ops != [] {
      var before := Run(d, ops[..|ops| - 1]);
      RunIsLegal(d, ops[..|ops| - 1]);
      StepIsLegal(before.0, ops[|ops| - 1]);
      L.AppendTrace(d.life.active, before.1, Step(before.0, ops[|ops| - 1]).1);
    }
  }

  /**
   The candidate is what the rule makes of row `row` of the snapshot: the prompt
   expression matches there, the cursor is near, and the actions are those of the
   menu in the scanned rows below: at least two and at most 16, numbered by a
   permutation of 1..N, each taken from the first scanned row with its number.
   */
  ghost predicate SoundMenu(rule: Rule, snap: Snapshot, row: nat, m: seq<Found>, c: Candidate)
    requires Complete(snap)
  {
    && row < snap.rows && rule.template.Some?
    && rule.promptRegex(snap.lines[row]) && row - 1 <= snap.cursorRow <= row + rule.maxScanLines + 2
    && IsMenu(m)
    && IsFirstOccurrences(rule, rule.template.value, snap.lines, row + 1,
                          Min(row + rule.maxScanLines + 1, snap.rows), m)
    && c == Candidate(rule.patternId, NumberedMenu, Trim(snap.lines[row]), ActionsOf(m), row)
  }

  /** The candidate is the rule's own actions, captions trimmed, for the line on which it matches. */
  ghost predicate SoundStatic(rule: Rule, snap: Snapshot, row: nat, c: Candidate)
    requires Complete(snap)
  {
    && row < snap.rows && rule.promptRegex(snap.lines[row])
    && row - 1 <= snap.cursorRow <= row + rule.maxScanLines + 2
    && c.patternId == rule.patternId && c.patternType == rule.patternType
    && c.prompt == Trim(snap.lines[row]) && c.anchorRow == row
    && 1 <= |c.actions| == |rule.staticActions| <= 16
    && forall i :: 0 <= i < |c.actions| ==>
      c.actions[i] == Action(Trim(rule.staticActions[i].caption), rule.staticActions[i].keys)
  }

  /** Some of the rules finds the candidate on this very screen. */
  ghost predicate Sound(rules: seq<Rule>, s: Screen, c: Candidate)
    requires Fits(s)
  {
    if c.patternType.NumberedMenu?
    then exists rule, row, m :: rule in rules && SoundMenu(rule, SnapshotOf(s), row, m, c)
    else exists rule, row :: rule in rules && SoundStatic(rule, SnapshotOf(s), row, c)
  }

  lemma FilledIsSound(rules: seq<Rule>, rule: Rule, s: Screen, row: nat)
    requires Fits(s) && rule in rules && row < s.rows && Acceptable(rule, SnapshotOf(s), row)
    ensures Sound(rules, s, Fill(rule, SnapshotOf(s), row).value)
  {
    var snap := SnapshotOf(s);
    var c := Fill(rule, snap, row).value;
    if rule.patternType.NumberedMenu? {
      var hi := Limit(rule, snap, row);
      var m := Menu(rule, rule.template.value, snap.lines, row + 1, hi);
      MenuIsFirstOccurrences(rule, rule.template.value, snap.lines, row + 1, hi);
      assert SoundMenu(rule, snap, row, m, c);
    } else {
      assert SoundStatic(rule, snap, row, c);
    }
  }

  lemma ObservationIsSound(rules: seq<Rule>, s: Screen)
    requires Fits(s) && Observation(rules, s).Some?
    ensures Sound(rules, s, Observation(rules, s).value)
  {
    var r, row := MatchIsLexicographicallyFirst(rules, SnapshotOf(s));
    FilledIsSound(rules, rules[r], s, row);
  }

  /** The k-th operation of the run is a feed that emits the event, and its screen justifies the prompt. */
  ghost predicate JustifiedAt(d: Detector, ops: seq<Op>, k: nat, e: L.Event)
    requires Valid(d) && k < |ops| && !e.Gone?
  {
    ops[k].Feed? &&
    var before := Run(d, ops[..k]).0;
    e in Step(before, ops[k]).1 && Sound(before.rules, Vt.Feed(before.term, ops[k].bytes).screen, e.inst.content)
  }

  lemma StepIsSound(d: Detector, op: Op, e: L.Event)
    requires Valid(d) && e in Step(d, op).1 && !e.Gone?
    ensures op.Feed? && Sound(d.rules, Vt.Feed(d.term, op.bytes).screen, e.inst.content)
  {
    L.EmitsWhatItSees(d.life, if op.Resolve? then L.Resolve(op.id) else L.Process(SeenAfter(d.term, d.rules, op.bytes)), e);
    ObservationIsSound(d.rules, Vt.Feed(d.term, op.bytes).screen);
  }

  /**
   Over every run, the feed that presents or updates a prompt finds it on its own
   screen under the rules then in force, a numbered menu with a complete numbering.
   */
  lemma {:induction false} RunIsSound(d: Detector, ops: seq<Op>, e: L.Event) returns (k: nat)
    requires Valid(d) && e in Run(d, ops).1 && !e.Gone?
    ensures k < |ops| && JustifiedAt(d, ops, k, e)
  {
    var n := |ops| - 1;
    var before := Run(d, ops[..n]);
    if e in before.1 {
      k := RunIsSound(d, ops[..n], e);
      assert ops[..n][..k] == ops[..k] && ops[..n][k] == ops[k];
    } else {
      k := n;
      StepIsSound(before.0, ops[n], e);
    }
  }

  // ----- chunking

  ghost function Feeds(chunks: seq<Text>): (ops: seq<Op>)
    ensures |ops| == |chunks| && forall i :: 0 <= i < |chunks| ==> ops[i] == Feed(chunks[i])
  {
    seq(|chunks|, i requires 0 <= i < |chunks| => Feed(chunks[i]))
  }

  predicate NoneEmpty(chunks: seq<Text>) { forall i :: 0 <= i < |chunks| ==> chunks[i] != [] }

  /** The events of a detector with these rules when the stream arrives in these pieces. */
  ghost function ChunkTrace(m: Vt.Machine, rules: seq<Rule>, life: L.State, chunks: seq<Text>): seq<L.Event>
    requires Vt.Valid(m) && L.Inv(life)
  {
    Run(Detector(m, rules, life), Feeds(chunks)).1
  }

  ghost function SeenAfter(m: Vt.Machine, rules: seq<Rule>, bytes: Text): Option<Candidate>
    requires Vt.Valid(m)
  {
    Observation(rules, Vt.Feed(m, bytes).screen)
  }

  /** What the rules would see after each single byte of the stream. */
  ghost function PrefixObservations(m: Vt.Machine, rules: seq<Rule>, bytes: Text): (obs: Obs)
    requires Vt.Valid(m)
    ensures |obs| == |bytes|
    ensures forall i :: 0 <= i < |bytes| ==> obs[i] == SeenAfter(m, rules, bytes[..i + 1])
  {
    seq(|bytes|, i requires 0 <= i < |bytes| => SeenAfter(m, rules, bytes[..i + 1]))
  }

  function Total(chunks: seq<Text>): nat {
    if chunks == [] then 0 else Total(chunks[..|chunks| - 1]) + |chunks[|chunks| - 1]|
  }

  /** The position of the last byte of each chunk. */
  function Cuts(chunks: seq<Text>): (cuts: seq<nat>)
    requires NoneEmpty(chunks)
    ensures |cuts| == |chunks|
  {
    if chunks == [] then [] else Cuts(chunks[..|chunks| - 1]) + [Total(chunks) - 1]
  }

  lemma {:induction false} TotalIsSize(chunks: seq<Text>)
    ensures |Tokens.Flatten(chunks)| == Total(chunks)
  {
    if chunks != [] {
      var n := |chunks| - 1;
      TotalIsSize(chunks[..n]);
      FlattenSnoc(chunks[..n], chunks[n]);
      assert chunks == chunks[..n] + [chunks[n]];
    }
  }

  lemma {:induction false} FlattenSnoc(chunks: seq<Text>, x: Text)
    ensures Tokens.Flatten(chunks + [x]) == Tokens.Flatten(chunks) + x
  {
    if chunks == [] {
      assert [] + [x] == [x] && [x][1..] == [];
      assert Tokens.Flatten([]) == [] && x + [] == x && [] + x == x;
    } else {
      assert (chunks + [x])[0] == chunks[0] && (chunks + [x])[1..] == chunks[1..] + [x];
      FlattenSnoc(chunks[1..], x);
    }
  }

  lemma {:induction false} CutsAreSampling(chunks: seq<Text>)
    requires NoneEmpty(chunks) && chunks != []
    ensures IsSampling(Cuts(chunks), |Tokens.Flatten(chunks)|)
  {
    var n := |chunks| - 1;
    var front := chunks[..n];
    assert chunks == front + [chunks[n]];
    FlattenSnoc(front, chunks[n]);
    TotalIsSize(chunks);
    if n > 0 {
      CutsAreSampling(front);
    }
  }

  /** Feeding in chunks is observing the prefix screens at the chunk ends, from every state of the lifecycle. */
  lemma {:induction false} ChunksAreSamples(m: Vt.Machine, rules: seq<Rule>, life: L.State, chunks: seq<Text>, bytes: Text)
    requires Vt.Valid(m) && L.Inv(life) && NoneEmpty(chunks) && Tokens.Flatten(chunks) <= bytes
    requires forall i :: 0 <= i < |chunks| ==> Cuts(chunks)[i] < |bytes|
    ensures
      var o := L.Observe(life, Sample(PrefixObservations(m, rules, bytes), Cuts(chunks)));
      Run(Detector(m, rules, life), Feeds(chunks)) ==
        (Detector(Vt.Feed(m, Tokens.Flatten(chunks)), rules, o.0), o.1)
    decreases |chunks|, 1
  {
    if chunks == [] {
      assert Sample(PrefixObservations(m, rules, bytes), []) == [];
      L.ObserveNothing(life);
    } else {
      var front := chunks[..|chunks| - 1];
      SampleSnoc(m, rules, chunks, bytes);
      ChunksAreSamples(m, rules, life, front, bytes);
      SamplesNext(m, rules, life, chunks, bytes, Tokens.Flatten(front), Tokens.Flatten(chunks),
                  Sample(PrefixObservations(m, rules, bytes), Cuts(front)));
    }
  }

  lemma {:induction false} SamplesNext(m: Vt.Machine, rules: seq<Rule>, life: L.State, chunks: seq<Text>, bytes: Text,
                                       flat: Text, whole: Text, obs: Obs)
    requires Vt.Valid(m) && L.Inv(life) && chunks != [] && chunks[|chunks| - 1] != []
    requires whole == flat + chunks[|chunks| - 1] && whole <= bytes
    requires
      Run(Detector(m, rules, life), Feeds(chunks[..|chunks| - 1])) ==
        (Detector(Vt.Feed(m, flat), rules, L.Observe(life, obs).0), L.Observe(life, obs).1)
    ensures
      var all := obs + [PrefixObservations(m, rules, bytes)[|whole| - 1]];
      Run(Detector(m, rules, life), Feeds(chunks)) ==
        (Detector(Vt.Feed(m, whole), rules, L.Observe(life, all).0), L.Observe(life, all).1)
  {
    var x := chunks[|chunks| - 1];
    PrefixSeen(m, rules, bytes, flat, x, whole);
    FeedsSnoc(chunks);
    OneMoreFeed(Detector(m, rules, life), Feeds(chunks[..|chunks| - 1]), x, obs, Vt.Feed(m, flat));
  }

  /** A run that observed obs and stands at terminal t observes one more screen with one more feed. */
  lemma OneMoreFeed(d: Detector, ops: seq<Op>, bytes: Text, obs: Obs, t: Vt.Machine)
    requires Valid(d) && bytes != [] && Vt.Valid(t)
    requires Run(d, ops) == (Detector(t, d.rules, L.Observe(d.life, obs).0), L.Observe(d.life, obs).1)
    ensures
      var o := L.Observe(d.life, obs + [SeenAfter(t, d.rules, bytes)]);
      Run(d, ops + [Feed(bytes)]) == (Detector(Vt.Feed(t, bytes), d.rules, o.0), o.1)
  {
    FeedNext(d, ops, bytes);
    L.ObserveNext(d.life, obs, SeenAfter(t, d.rules, bytes));
  }

  lemma FeedsSnoc(chunks: seq<Text>)
    requires chunks != []
    ensures Feeds(chunks) == Feeds(chunks[..|chunks| - 1]) + [Feed(chunks[|chunks| - 1])]
  {
  }

  lemma {:induction false} SampleSnoc(m: Vt.Machine, rules: seq<Rule>, chunks: seq<Text>, bytes: Text)
    requires Vt.Valid(m) && NoneEmpty(chunks) && Tokens.Flatten(chunks) <= bytes && chunks != []
    requires forall i :: 0 <= i < |chunks| ==> Cuts(chunks)[i] < |bytes|
    ensures
      var front, x := chunks[..|chunks| - 1], chunks[|chunks| - 1];
      var flat := Tokens.Flatten(chunks);
      && Tokens.Flatten(front) <= bytes && flat == Tokens.Flatten(front) + x
      && (forall i :: 0 <= i < |front| ==> Cuts(front)[i] < |bytes|)
      && var obs := PrefixObservations(m, rules, bytes);
      Sample(obs, Cuts(chunks)) == Sample(obs, Cuts(front)) + [obs[|flat| - 1]]
  {
    var front, x := chunks[..|chunks| - 1], chunks[|chunks| - 1];
    var flat := Tokens.Flatten(chunks);
    assert chunks == front + [x];
    FlattenSnoc(front, x);
    CutsSnoc(chunks);
    forall i | 0 <= i < |front|
      ensures Cuts(front)[i] < |bytes|
    {
      assert Cuts(front)[i] == Cuts(chunks)[i];
    }
    SampleAppend(PrefixObservations(m, rules, bytes), Cuts(front), |flat| - 1);
  }

  lemma PrefixSeen(m: Vt.Machine, rules: seq<Rule>, bytes: Text, flat: Text, x: Text, whole: Text)
    requires Vt.Valid(m) && x != [] && whole == flat + x && whole <= bytes
    ensures PrefixObservations(m, rules, bytes)[|whole| - 1] == SeenAfter(Vt.Feed(m, flat), rules, x)
    ensures Vt.Feed(m, whole) == Vt.Feed(Vt.Feed(m, flat), x)
  {
    assert bytes[..|whole|] == whole;
    Vt.FeedConcat(m, flat, x);
  }

  lemma CutsSnoc(chunks: seq<Text>)
    requires NoneEmpty(chunks) && chunks != []
    ensures NoneEmpty(chunks[..|chunks| - 1]) && |Tokens.Flatten(chunks)| > 0
    ensures Cuts(chunks) == Cuts(chunks[..|chunks| - 1]) + [|Tokens.Flatten(chunks)| - 1]
    ensures forall i :: 0 <= i < |chunks| - 1 ==> Cuts(chunks[..|chunks| - 1])[i] == Cuts(chunks)[i]
  {
    TotalIsSize(chunks);
  }

  lemma SampleAppend(obs: Obs, cuts: seq<nat>, cut: nat)
    requires (forall i :: 0 <= i < |cuts| ==> cuts[i] < |obs|) && cut < |obs|
    ensures Sample(obs, cuts + [cut]) == Sample(obs, cuts) + [obs[cut]]
  {
  }

  lemma {:induction false} FeedNext(d: Detector, ops: seq<Op>, bytes: Text)
    requires Valid(d) && bytes != []
    ensures
      var before := Run(d, ops);
      var term := Vt.Feed(before.0.term, bytes);
      var next := L.Step(before.0.life, L.Process(Observation(before.0.rules, term.screen)));
      Run(d, ops + [Feed(bytes)]) ==
        (before.0.(term := term, life := next.0), if next.1 == [] then before.1 else before.1 + next.1)
  {
    assert (ops + [Feed(bytes)])[..|ops|] == ops;
    assert Run(d, ops).1 + [] == Run(d, ops).1;
  }

  /** The chunks make up the bytes, and their ends are the cuts. */
  predicate FitAt(chunks: seq<Text>, bytes: Text, cuts: seq<nat>) {
    chunks != [] && NoneEmpty(chunks) && Tokens.Flatten(chunks) == bytes && Cuts(chunks) == cuts
  }

  lemma OneChunk(bytes: Text)
    requires bytes != []
    ensures FitAt([bytes], bytes, [|bytes| - 1])
  {
    assert [bytes][1..] == [] && Tokens.Flatten([bytes]) == bytes + Tokens.Flatten([]);
    assert [bytes][..0] == [] && Cuts([]) == [] && Total([]) == 0;
  }

  lemma MoreChunks(front: seq<Text>, a: Text, cuts: seq<nat>, b: Text, bytes: Text, all: seq<nat>)
    requires FitAt(front, a, cuts) && b != [] && bytes == a + b && all == cuts + [|bytes| - 1]
    ensures FitAt(front + [b], bytes, all)
  {
    FlattenSnoc(front, b);
    TotalIsSize(front);
    assert (front + [b])[..|front|] == front;
  }

  lemma FrontIsSampling(cuts: seq<nat>, size: nat)
    requires IsSampling(cuts, size) && |cuts| > 1
    ensures
      var n := |cuts| - 1;
      cuts[n - 1] + 1 < size && IsSampling(cuts[..n], cuts[n - 1] + 1)
  {
    var n := |cuts| - 1;
    assert cuts[n - 1] < cuts[n];
    forall i | 0 <= i < n
      ensures cuts[i] < cuts[n - 1] + 1
    {
      assert i < n - 1 ==> cuts[i] < cuts[n - 1];
    }
  }

  /** The chunks whose ends are the given positions. */
  function ChunksAt(bytes: Text, cuts: seq<nat>): (chunks: seq<Text>)
    requires IsSampling(cuts, |bytes|)
    decreases |cuts|
  {
    var n := |cuts| - 1;
    if n == 0 then [bytes]
    else
      var k := cuts[n - 1] + 1;
      FrontIsSampling(cuts, |bytes|);
      ChunksAt(bytes[..k], cuts[..n]) + [bytes[k..]]
  }

  lemma Rejoined(bytes: Text, cuts: seq<nat>, k: nat)
    requires k <= |bytes| && cuts != [] && cuts[|cuts| - 1] == |bytes| - 1
    ensures bytes == bytes[..k] + bytes[k..] && cuts == cuts[..|cuts| - 1] + [|bytes| - 1]
  {
  }

  lemma {:induction false} ChunksAtFit(bytes: Text, cuts: seq<nat>)
    requires IsSampling(cuts, |bytes|)
    ensures FitAt(ChunksAt(bytes, cuts), bytes, cuts)
    decreases |cuts|
  {
    var n := |cuts| - 1;
    if n == 0 {
      OneChunk(bytes);
      assert cuts == [|bytes| - 1];
    } else {
      var k := cuts[n - 1] + 1;
      var front, a, b := cuts[..n], bytes[..k], bytes[k..];
      FrontIsSampling(cuts, |bytes|);
      ChunksAtFit(a, front);
      Rejoined(bytes, cuts, k);
      MoreChunks(ChunksAt(a, front), a, front, b, bytes, cuts);
    }
  }

  lemma TraceIsSampled(m: Vt.Machine, rules: seq<Rule>, life: L.State, chunks: seq<Text>, bytes: Text)
    requires Vt.Valid(m) && L.Inv(life) && NoneEmpty(chunks) && chunks != [] && Tokens.Flatten(chunks) == bytes
    ensures IsSampling(Cuts(chunks), |bytes|)
    ensures ChunkTrace(m, rules, life, chunks) ==
      L.Observe(life, Sample(PrefixObservations(m, rules, bytes), Cuts(chunks))).1
  {
    CutsAreSampling(chunks);
    ChunksAreSamples(m, rules, life, chunks, bytes);
  }

  lemma SampleLast(obs: Obs)
    requires obs != []
    ensures Sample(obs, [|obs| - 1]) == [obs[|obs| - 1]]
  {
  }

  lemma WholeTrace(m: Vt.Machine, rules: seq<Rule>, life: L.State, bytes: Text)
    requires Vt.Valid(m) && L.Inv(life) && bytes != []
    ensures
      var obs := PrefixObservations(m, rules, bytes);
      ChunkTrace(m, rules, life, [bytes]) == L.Observe(life, [obs[|bytes| - 1]]).1
  {
    OneChunk(bytes);
    TraceIsSampled(m, rules, life, [bytes], bytes);
    SampleLast(PrefixObservations(m, rules, bytes));
  }

  /** The events do not depend on how the stream is cut into pieces. */
  ghost predicate ChunkInvariant(m: Vt.Machine, rules: seq<Rule>, life: L.State, bytes: Text)
    requires Vt.Valid(m) && L.Inv(life)
  {
    forall chunks :: NoneEmpty(chunks) && Tokens.Flatten(chunks) == bytes ==>
      ChunkTrace(m, rules, life, chunks) == ChunkTrace(m, rules, life, [bytes])
  }

  lemma ChunksAreSampling(m: Vt.Machine, rules: seq<Rule>, life: L.State, bytes: Text)
    requires Vt.Valid(m) && L.Inv(life) && bytes != []
    ensures ChunkInvariant(m, rules, life, bytes) <==> Invisible(life, PrefixObservations(m, rules, bytes))
  {
    var obs := PrefixObservations(m, rules, bytes);
    WholeTrace(m, rules, life, bytes);
    if Invisible(life, obs) {
      forall chunks | NoneEmpty(chunks) && Tokens.Flatten(chunks) == bytes
        ensures ChunkTrace(m, rules, life, chunks) == ChunkTrace(m, rules, life, [bytes])
      {
        TraceIsSampled(m, rules, life, chunks, bytes);
      }
    }
    if ChunkInvariant(m, rules, life, bytes) {
      forall cuts | IsSampling(cuts, |bytes|)
        ensures LikeLast(life, Sample(obs, cuts), obs[|bytes| - 1])
      {
        ChunksAtFit(bytes, cuts);
        TraceIsSampled(m, rules, life, ChunksAt(bytes, cuts), bytes);
      }
    }
  }

  /**
   The design asks for events that do not depend on how the PTY stream is cut into
   pieces. From any state of the terminal and the lifecycle that holds for a stream
   exactly when the screens after its single bytes go unnoticed, each of them, taken
   or skipped. From an idle lifecycle these are the steady ones: no prompt at any of
   them, or one prompt that, once it has appeared, is missing from at most one of
   them and is there at the end.
   */
  lemma ChunkingIsInvisibleIff(m: Vt.Machine, rules: seq<Rule>, life: L.State, bytes: Text)
    requires Vt.Valid(m) && L.Inv(life) && bytes != []
    ensures ChunkInvariant(m, rules, life, bytes) <==> Unnoticed(life, PrefixObservations(m, rules, bytes))
    ensures life == L.INIT ==>
      (ChunkInvariant(m, rules, life, bytes) <==> Steady(PrefixObservations(m, rules, bytes)))
  {
    var obs := PrefixObservations(m, rules, bytes);
    ChunksAreSampling(m, rules, life, bytes);
    SamplingIsInvisibleIff(life, obs);
    if life == L.INIT {
      IdleUnnoticedIff(obs);
    }
  }

  // ----- a stream whose chunking shows

  /** A rule for every non-empty line. */
  function AnyLine(): Rule {
    Rule([], YesNo, 10, _ => true, _ => None, [Action([89], [121])], None)
  }

  ghost function OneLine(cell: Byte, col: nat): (m: Vt.Machine)
    requires Displayable(cell) && col < 2
    ensures Vt.Valid(m)
  {
    Vt.Machine(Screen(1, 2, 0, col, 0, 0, false, [[cell, BLANK]]), Vt.Ground)
  }

  lemma AnyLineSees(cell: Byte, col: nat)
    requires Displayable(cell) && col < 2
    ensures Observation([AnyLine()], OneLine(cell, col).screen).Some? <==> cell != BLANK
  {
    var s := OneLine(cell, col).screen;
    var snap := SnapshotOf(s);
    assert s.grid[0] == [cell, BLANK];
    assert TrimmedLength([cell, BLANK]) == if cell == BLANK then 0 else 1;
    var rules := [AnyLine()];
    assert snap.rows == 1 && snap.lines[0] == if cell == BLANK then [] else [cell];
    assert Acceptable(rules[0], snap, 0) <==> cell != BLANK;
    assert BottomMost(rules[0], snap, 0) == None;
    assert BottomMost(rules[0], snap, 1).Some? <==> cell != BLANK;
    assert rules[1..] == [] && FirstMatch([], snap) == None;
  }

  lemma TypeOn(cell: Byte, b: Byte)
    requires Displayable(cell) && Displayable(b)
    ensures Vt.Step(OneLine(cell, 0), b) == OneLine(b, 1)
  {
    var g: seq<seq<Byte>> := [[cell, BLANK]];
    var line: seq<Byte> := g[0][0 := b];
    assert line == [b, BLANK] && g[0 := line] == [[b, BLANK]];
  }

  /**
   "A", backspace, blank on a blank 1x2 terminal: fed byte by byte the A is seen and
   presented, fed at once it never is.
   */
  lemma ChunkingCanShow()
    ensures
      var m, bytes := OneLine(BLANK, 0), [65, 8, 32];
      exists chunks :: NoneEmpty(chunks) && Tokens.Flatten(chunks) == bytes &&
        ChunkTrace(m, [AnyLine()], L.INIT, chunks) != ChunkTrace(m, [AnyLine()], L.INIT, [bytes])
  {
    var m, bytes: Text := OneLine(BLANK, 0), [65, 8, 32];
    var rules := [AnyLine()];
    var obs := PrefixObservations(m, rules, bytes);
    assert bytes[..1] == [65] && bytes[..3] == bytes;
    TypedAndErased();
    AnyLineSees(65, 1);
    AnyLineSees(32, 1);
    assert obs[0].Some? && obs[2].None?;
    assert !Steady(obs);
    ChunkingIsInvisibleIff(m, rules, L.INIT, bytes);
  }

  lemma TypedAndErased()
    ensures Vt.Feed(OneLine(BLANK, 0), [65]) == OneLine(65, 1)
    ensures Vt.Feed(OneLine(BLANK, 0), [65, 8, 32]) == OneLine(32, 1)
  {
    var m := OneLine(BLANK, 0);
    Tokens.FeedOne(m, 65);
    TypeOn(BLANK, 65);
    Tokens.FeedTwo(m, 65, 8);
    assert Vt.Step(OneLine(65, 1), 8) == OneLine(65, 0);
    Vt.FeedConcat(m, [65, 8], [32]);
    assert [65, 8] + [32] == [65, 8, 32];
    Tokens.FeedOne(OneLine(65, 0), 32);
    TypeOn(65, 32);
  }
}
