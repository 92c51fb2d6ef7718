/** The lifecycle object: fields updated in place, events handed to a callback. */
module PromptLifecycle {
  import opened Bytes
  import opened Prompt
  import L = Lifecycle

  /** tmuxremote_prompt_instance_reset */
  const CLEARED: Instance := Instance([], Candidate([], YesNo, [], [], 0), 0)

  class PromptLifecycle {
    var active: Instance
    var hasActive: bool
    var absenceSnapshots: nat
    var lastSequence: nat
    var resolvedInstanceId: Text
    var suppressResolved: bool
    /** The calls made to the callback so far. */
    var emitted: seq<L.Event>

    ghost function View(): L.State
      reads this
    {
      L.State(if hasActive then Some(active) else None, absenceSnapshots, suppressResolved, resolvedInstanceId)
    }

    ghost predicate Valid()
      reads this
    {
      L.Inv(View())
    }

    constructor ()
      ensures Valid() && View() == L.INIT && emitted == []
    {
      active, hasActive, absenceSnapshots, lastSequence := CLEARED, false, 0, 0;
      resolvedInstanceId, suppressResolved, emitted := [], false, [];
    }

    method Emit(e: L.Event)
      modifies this`emitted
      ensures emitted == old(emitted) + [e]
    {
      emitted := emitted + [e];
    }

    method ClearActive()
      modifies this`active, this`hasActive, this`absenceSnapshots
      ensures !hasActive
      ensures absenceSnapshots == if old(hasActive) then 0 else old(absenceSnapshots)
    {
      if hasActive {
        active := CLEARED;
        hasActive := false;
        absenceSnapshots := 0;
      }
    }

    method ReleaseLatch()
      modifies this`suppressResolved, this`resolvedInstanceId
      ensures !suppressResolved && resolvedInstanceId == []
    {
      suppressResolved, resolvedInstanceId := false, [];
    }

    method IsSuppressed(id: Text) returns (r: bool)
      ensures r == L.Suppressed(View(), id)
    {
      r := suppressResolved && resolvedInstanceId != [] && id == resolvedInstanceId;
    }

    /** A snapshot whose candidate is missing or suppressed. */
    method ProcessMissing(suppressedIncoming: bool)
      modifies this
      ensures View() == L.Missing(old(View()), suppressedIncoming).0
      ensures emitted == old(emitted) + L.Missing(old(View()), suppressedIncoming).1
      ensures lastSequence == old(lastSequence)
    {
      if !hasActive {
        if suppressResolved && !suppressedIncoming {
          ReleaseLatch();
        }
        return;
      }
      absenceSnapshots := absenceSnapshots + 1;
      if absenceSnapshots >= L.ABSENCE_SNAPSHOTS {
        var goneId := active.id;
        ClearActive();
        Emit(L.Gone(goneId));
        ReleaseLatch();
      }
    }

    method Activate(incoming: Instance)
      modifies this`active, this`hasActive
      ensures hasActive && active == incoming
    {
      active, hasActive := incoming, true;
    }

    /** A snapshot with a usable candidate. */
    method ProcessSeen(c: Candidate, id: Text)
      requires Valid() && id == InstanceId(c)
      modifies this
      ensures View() == L.Seen(old(View()), c).0
      ensures emitted == old(emitted) + L.Seen(old(View()), c).1
      ensures lastSequence == old(lastSequence)
    {
      if suppressResolved {
        ReleaseLatch();
      }
      if !hasActive {
        Activate(Instance(id, c, 1));
        absenceSnapshots := 0;
        Emit(L.Present(active));
        return;
      }
      absenceSnapshots := 0;
      if active.id == id {
        var incoming := Instance(id, c, active.revision);
        if !SameSemantics(active, incoming) {
          var revision := L.NextRevision(active.revision);
          ClearActive();
          Activate(Instance(id, c, revision));
          Emit(L.Update(active));
        }
        return;
      }
      var goneId := active.id;
      ClearActive();
      Emit(L.Gone(goneId));
      Activate(Instance(id, c, 1));
      Emit(L.Present(active));
    }

    method Process(candidate: Option<Candidate>, sequence: nat)
      requires Valid()
      modifies this
      ensures Valid() && lastSequence == sequence
      ensures View() == L.Step(old(View()), L.Process(candidate)).0
      ensures emitted == old(emitted) + L.Step(old(View()), L.Process(candidate)).1
    {
      L.StepIsLegal(View(), L.Process(candidate));
      lastSequence := sequence;
      match candidate {
        case None => ProcessMissing(false);
        case Some(c) =>
          var id := BuildInstanceId(c);
          var suppressed := IsSuppressed(id);
          if suppressed {
            ProcessMissing(true);
          } else {
            ProcessSeen(c, id);
          }
      }
    }

    method Resolve(id: Text)
      requires Valid()
      modifies this
      ensures Valid() && lastSequence == old(lastSequence)
      ensures View() == L.Step(old(View()), L.Resolve(id)).0
      ensures emitted == old(emitted) + L.Step(old(View()), L.Resolve(id)).1
    {
      L.StepIsLegal(View(), L.Resolve(id));
      if id == [] {
        return;
      }
      resolvedInstanceId := id[..Min(|id|, L.INSTANCE_ID_MAX - 1)];
      suppressResolved := true;
      if hasActive && active.id == id {
        var goneId := active.id;
        ClearActive();
        Emit(L.Gone(goneId));
      }
    }

    method CopyActive() returns (copy: Option<Instance>)
      ensures copy == View().active
    {
      copy := if hasActive then Some(active) else None;
    }
  }
}
