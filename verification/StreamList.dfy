/**
 All data streams of the listener: the list that lookups by connection walk with
 the mutex held, and every interleaving of every stream's callbacks and threads.
 A stream is named by its order of creation; the listener is not torn down.
 */
module StreamList {
  import opened Bytes
  import opened D = DataStream

  /** A walk along the list with the mutex held; marking is the walk of a listener stop. */
  datatype Walk = Walk(at: nat, marking: bool)

  datatype System = System(streams: seq<Stream>, list: seq<nat>, busy: Option<nat>, walk: Option<Walk>)

  const INIT := System([], [], None, None)

  datatype Action = New | On(i: nat, act: Act) | Lock(marking: bool) | Visit | Unlock

  predicate Unlinks(s: System, i: nat, a: Act)
    requires i < |s.streams|
  {
    a.SdkStep? && s.streams[i].sdk == Unlink
  }

  predicate Can(s: System, a: Action) {
    match a
    case New => s.busy.None? && s.walk.None?
    case On(i, act) =>
      && i < |s.streams|
      && !act.NoteClosing?
      && Enabled(s.streams[i], act)
      && (act.Accepted? || act.Closed? ==> s.busy.None?)
      && (Unlinks(s, i, act) ==> s.walk.None?)
    case Lock(_) => s.walk.None?
    case Visit => s.walk.Some? && s.walk.value.at < |s.list| && s.list[s.walk.value.at] < |s.streams|
    case Unlock => s.walk.Some?
  }

  /** Unlinking walks to the first link that holds the stream. */
  function Remove(list: seq<nat>, i: nat): (r: seq<nat>)
    ensures |r| <= |list|
  {
    if list == [] then []
    else if list[0] == i then list[1..]
    else [list[0]] + Remove(list[1..], i)
  }

  function Do(s: System, i: nat, act: Act): System
    requires i < |s.streams|
  {
    var was, now := s.streams[i], Next(s.streams[i], act);
    s.(streams := s.streams[i := now],
       list := if Unlinks(s, i, act) then Remove(s.list, i) else s.list,
       busy := if now.sdk != Off then Some(i) else if was.sdk != Off then None else s.busy)
  }

  function Step(s: System, a: Action): System
    requires Can(s, a)
  {
    match a
    case New => s.(streams := s.streams + [NEW], list := [|s.streams|] + s.list)
    case On(i, act) => Do(s, i, act)
    case Lock(marking) => s.(walk := Some(Walk(0, marking)))
    case Visit =>
      var w := s.walk.value;
      var t := s.(walk := Some(w.(at := w.at + 1)));
      if w.marking then t.(streams := s.streams[s.list[w.at] := s.streams[s.list[w.at]].(closing := true)]) else t
    case Unlock => s.(walk := None)
  }

  /** The records an action reads or writes. */
  function Touches(s: System, a: Action): set<nat>
    requires Can(s, a)
  {
    match a
    case On(i, act) => {i} + if Unlinks(s, i, act) then set j | j in s.list else {}
    case Visit => {s.list[s.walk.value.at]}
    case _ => {}
  }

  // ----- the invariant

  predicate StreamOk(s: System, i: nat)
    requires i < |s.streams|
  {
    && D.Inv(s.streams[i])
    && (s.streams[i].linked <==> i in s.list)
    && (s.streams[i].sdk != Off ==> s.busy == Some(i))
  }

  predicate ListOk(list: seq<nat>, bound: nat) {
    && (forall j :: 0 <= j < |list| ==> list[j] < bound)
    && (forall j, k :: 0 <= j < k < |list| ==> list[j] != list[k])
  }

  predicate Inv(s: System) {
    && (forall i :: 0 <= i < |s.streams| ==> StreamOk(s, i))
    && ListOk(s.list, |s.streams|)
    && (s.busy.Some? ==> s.busy.value < |s.streams| && s.streams[s.busy.value].sdk != Off)
  }

  lemma {:induction false} RemoveMeans(list: seq<nat>, i: nat, bound: nat)
    requires ListOk(list, bound)
    ensures ListOk(Remove(list, i), bound)
    ensures forall j :: j in Remove(list, i) <==> j in list && j != i
  {
    if list != [] {
      var rest := list[1..];
      assert list == [list[0]] + rest;
      assert list[0] !in rest;
      RemoveMeans(rest, i, bound);
    }
  }

  lemma NewKeeps(s: System)
    requires Inv(s) && Can(s, New)
    ensures Inv(Step(s, New))
  {
    var t := Step(s, New);
    forall i | 0 <= i < |t.streams|
      ensures StreamOk(t, i)
    {
      assert i < |s.streams| ==> StreamOk(s, i);
    }
  }

  lemma SdkLinks(st: Stream, ok: bool)
    ensures SdkNext(st, ok).linked == (st.linked && st.sdk != Unlink)
    ensures st.sdk == Off ==> SdkNext(st, ok).sdk == Off
  {
    match st.sdk
    case Cas =>
    case Unlink =>
    case SpawnCleanup =>
    case _ =>
  }

  lemma ThreadLinks(st: Stream, act: Act)
    requires act.SetupStep? || act.PtyStep? || act.NetStep? || act.CleanupStep?
    ensures Next(st, act).linked == st.linked && Next(st, act).sdk == st.sdk
  {
    match act
    case SetupStep(ok) => assert Next(st, act) == SetupNext(st, ok);
    case PtyStep(io) =>
    case NetStep(ok) =>
    case CleanupStep => assert Next(st, act) == CleanupNext(st);
  }

  lemma NextLinks(st: Stream, act: Act)
    ensures Next(st, act).linked == (st.linked && !(act.SdkStep? && st.sdk == Unlink))
    ensures st.sdk == Off && Next(st, act).sdk != Off ==> act.Accepted? || act.Closed?
  {
    match act
    case Accepted(_) =>
    case Closed =>
    case NoteClosing =>
    case SdkStep(ok) => SdkLinks(st, ok);
    case _ => ThreadLinks(st, act);
  }

  /** Stream i has moved from was to now; the others stand as they stood. */
  ghost predicate Moved(s: System, t: System, i: nat, now: Stream) {
    && i < |s.streams|
    && t.streams == s.streams[i := now]
    && D.Inv(now)
    && (forall j :: j in t.list <==> j in s.list && (j == i ==> now.linked))
    && (now.linked ==> s.streams[i].linked)
    && (now.sdk != Off ==> t.busy == Some(i))
    && (now.sdk == Off ==> t.busy == if s.streams[i].sdk != Off then None else s.busy)
    && (now.sdk != Off && s.streams[i].sdk == Off ==> s.busy.None?)
    && ListOk(t.list, |t.streams|)
  }

  lemma MovedKeeps(s: System, t: System, i: nat, now: Stream)
    requires Inv(s) && Moved(s, t, i, now)
    ensures Inv(t)
  {
    assert StreamOk(s, i);
    forall j | 0 <= j < |t.streams|
      ensures StreamOk(t, j)
    {
      assert StreamOk(s, j);
    }
  }

  lemma DoKeeps(s: System, i: nat, act: Act)
    requires Inv(s) && Can(s, On(i, act))
    ensures Inv(Do(s, i, act))
  {
    assert StreamOk(s, i);
    NextKeeps(s.streams[i], act);
    NextLinks(s.streams[i], act);
    RemoveMeans(s.list, i, |s.streams|);
    DoMoves(s, i, act, Next(s.streams[i], act));
    MovedKeeps(s, Do(s, i, act), i, Next(s.streams[i], act));
  }

  lemma DoMoves(s: System, i: nat, act: Act, now: Stream)
    requires Inv(s) && i < |s.streams| && D.Inv(now) && now == Next(s.streams[i], act)
    requires act.Accepted? || act.Closed? ==> s.busy.None?
    requires now.linked == (s.streams[i].linked && !Unlinks(s, i, act))
    requires s.streams[i].sdk == Off && now.sdk != Off ==> act.Accepted? || act.Closed?
    requires ListOk(Remove(s.list, i), |s.streams|)
    requires forall j :: j in Remove(s.list, i) <==> j in s.list && j != i
    ensures Moved(s, Do(s, i, act), i, now)
  {
    assert StreamOk(s, i);
  }

  lemma MarkKeeps(s: System, i: nat)
    requires i < |s.streams| && Inv(s) && s.streams[i].linked
    ensures Inv(s.(streams := s.streams[i := s.streams[i].(closing := true)]))
  {
    var t := s.(streams := s.streams[i := s.streams[i].(closing := true)]);
    assert StreamOk(s, i);
    NextKeeps(s.streams[i], NoteClosing);
    forall j | 0 <= j < |t.streams|
      ensures StreamOk(t, j)
    {
      assert StreamOk(s, j);
    }
  }

  lemma WalkKeeps(s: System, w: Option<Walk>)
    requires Inv(s)
    ensures Inv(s.(walk := w))
  {
    forall j | 0 <= j < |s.streams|
      ensures StreamOk(s.(walk := w), j)
    {
      assert StreamOk(s, j);
    }
  }

  lemma StepKeeps(s: System, a: Action)
    requires Inv(s) && Can(s, a)
    ensures Inv(Step(s, a))
  {
    match a
    case New => NewKeeps(s);
    case On(i, act) => DoKeeps(s, i, act);
    case Lock(marking) => WalkKeeps(s, Some(Walk(0, marking)));
    case Visit =>
      var w := s.walk.value;
      var t := s.(walk := Some(w.(at := w.at + 1)));
      WalkKeeps(s, t.walk);
      if w.marking {
        assert StreamOk(t, s.list[w.at]);
        MarkKeeps(t, s.list[w.at]);
      }
    case Unlock => WalkKeeps(s, None);
  }

  // ----- every interleaving

  predicate Feasible(s: System, run: seq<Action>)
    decreases |run|
  {
    run != [] ==> Can(s, run[0]) && Feasible(Step(s, run[0]), run[1..])
  }

  function Run(s: System, run: seq<Action>): System
    requires Feasible(s, run)
    decreases |run|
  {
    if run == [] then s else Run(Step(s, run[0]), run[1..])
  }

  lemma {:induction false} RunKeeps(s: System, run: seq<Action>)
    requires Inv(s) && Feasible(s, run)
    ensures Inv(Run(s, run))
    decreases |run|
  {
    if run != [] {
      StepKeeps(s, run[0]);
      RunKeeps(Step(s, run[0]), run[1..]);
    }
  }

  /** No callback, thread, lookup or unlinking ever reads or writes a freed record. */
  lemma NoUseAfterFree(run: seq<Action>, a: Action, i: nat)
    requires Feasible(INIT, run) && Can(Run(INIT, run), a) && i in Touches(Run(INIT, run), a)
    ensures i < |Run(INIT, run).streams| && Run(INIT, run).streams[i].cleanup != Freed
  {
    RunKeeps(INIT, run);
    var s := Run(INIT, run);
    assert StreamOk(s, i);
    if a.On? && i == a.i && s.streams[i].cleanup == Freed {
      NothingAfterFree(s.streams[i], a.act);
    }
  }

  /** Each stream is cleaned up at most once, and freed only off the list and after its threads. */
  lemma FreedOnceAndLast(run: seq<Action>, i: nat)
    requires Feasible(INIT, run) && i < |Run(INIT, run).streams|
    ensures
      var s := Run(INIT, run);
      var st := s.streams[i];
      && st.cleanups <= 1
      && (st.cleanup == Freed ==>
           st.cleanups == 1 && i !in s.list && !SetupLive(st.setup) && !Live(st.pty) && !Live(st.net))
  {
    RunKeeps(INIT, run);
    assert StreamOk(Run(INIT, run), i);
  }

  /** A freed record is never written again. */
  lemma {:induction false} FreedForGood(s: System, run: seq<Action>, i: nat)
    requires Inv(s) && Feasible(s, run) && i < |s.streams| && s.streams[i].cleanup == Freed
    ensures i < |Run(s, run).streams| && Run(s, run).streams[i] == s.streams[i]
    decreases |run|
  {
    if run != [] {
      var a := run[0];
      assert StreamOk(s, i);
      if a.On? && a.i == i {
        NothingAfterFree(s.streams[i], a.act);
      }
      assert Step(s, a).streams[i] == s.streams[i];
      StepKeeps(s, a);
      FreedForGood(Step(s, a), run[1..], i);
    }
  }

  // ----- a stream whose cleanup thread runs is freed

  /** The steps of one stream in a run. */
  function StepsOf(run: seq<Action>, i: nat): nat
    decreases |run|
  {
    if run == [] then 0 else One(run[0].On? && run[0].i == i) + StepsOf(run[1..], i)
  }

  lemma OthersLeaveIt(s: System, a: Action, i: nat)
    requires Inv(s) && Can(s, a) && i < |s.streams| && BeingFreed(s.streams[i]) && !(a.On? && a.i == i)
    ensures i < |Step(s, a).streams| && Step(s, a).streams[i] == s.streams[i]
  {
    assert StreamOk(s, i);
  }

  /** Whatever else is scheduled, a stream being freed takes at most so many steps of its own. */
  lemma {:induction false} FreeingEnds(s: System, run: seq<Action>, i: nat)
    requires Inv(s) && Feasible(s, run) && i < |s.streams| && BeingFreed(s.streams[i])
    ensures i < |Run(s, run).streams|
    ensures Run(s, run).streams[i].cleanup == Freed ||
      (BeingFreed(Run(s, run).streams[i]) &&
       StepsOf(run, i) + Distance(Run(s, run).streams[i]) <= Distance(s.streams[i]))
    ensures StepsOf(run, i) <= Distance(s.streams[i])
    decreases |run|
  {
    if run != [] {
      var a := run[0];
      var next := Step(s, a);
      assert StreamOk(s, i);
      StepKeeps(s, a);
      if a.On? && a.i == i {
        CleanupComesCloser(s.streams[i], a.act);
      } else {
        OthersLeaveIt(s, a, i);
      }
      if BeingFreed(next.streams[i]) {
        FreeingEnds(next, run[1..], i);
      } else {
        FreedForGood(next, run[1..], i);
        NoStepsAfter(next, run[1..], i);
      }
    }
  }

  lemma {:induction false} NoStepsAfter(s: System, run: seq<Action>, i: nat)
    requires Inv(s) && Feasible(s, run) && i < |s.streams| && s.streams[i].cleanup == Freed
    ensures StepsOf(run, i) == 0
    decreases |run|
  {
    if run != [] {
      assert StreamOk(s, i);
      if run[0].On? && run[0].i == i {
        NothingAfterFree(s.streams[i], run[0].act);
      }
      StepKeeps(s, run[0]);
      FreedForGood(s, run[..1], i);
      assert run[..1][1..] == [];
      NoStepsAfter(Step(s, run[0]), run[1..], i);
    }
  }

  /** And until it is freed one of its own steps can be taken at once. */
  lemma FreeingNeverStalls(s: System, i: nat) returns (act: Act)
    requires Inv(s) && i < |s.streams| && BeingFreed(s.streams[i])
    ensures Can(s, On(i, act))
  {
    assert StreamOk(s, i);
    act := CleanupNeverStalls(s.streams[i]);
  }
}
