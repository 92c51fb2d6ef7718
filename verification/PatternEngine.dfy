/** The overlay engine as the client holds it, each method one step of the timed machine. */
module PatternEngine {
  import opened Bytes
  import opened Prompt
  import L = Lifecycle
  import O = Overlay

  class PatternEngine {
    const config: O.Config
    var activeMatch: Option<Instance>
    var isOverlayHidden: bool
    var activeSince: Option<real>
    var resolvedSignature: Option<Text>
    var resolvedAt: Option<real>
    var goneId: Option<Text>
    var goneAt: Option<real>
    var pendingGone: Option<O.Pending>

    ghost predicate Valid()
      reads this
    {
      && (resolvedSignature.Some? <==> resolvedAt.Some?)
      && (goneId.Some? <==> goneAt.Some?)
      && O.Inv(config, State())
    }

    function State(): O.Engine
      reads this
    {
      O.Engine(activeMatch, isOverlayHidden, activeSince,
        Both(resolvedSignature, resolvedAt), Both(goneId, goneAt), pendingGone)
    }

    constructor (config: O.Config)
      ensures Valid() && State() == O.IDLE && this.config == config
    {
      this.config := config;
      activeMatch, isOverlayHidden, activeSince := None, false, None;
      resolvedSignature, resolvedAt, goneId, goneAt := None, None, None, None;
      pendingGone := None;
    }

    /** applyServerPresent */
    method Present(shown: Instance, now: real)
      requires Valid()
      modifies this
      ensures Valid()
      ensures State() == O.Step(config, old(State()), O.Timed(now, O.Server(L.Present(shown))))
    {
      var suppressed := ShouldSuppressAfterGone(shown.id, now);
      if suppressed {
        return;
      }
      suppressed := ShouldSuppressResolved(shown, now);
      if suppressed {
        return;
      }
      pendingGone := None;
      ClearResolveSuppression();
      activeMatch := Some(shown);
      isOverlayHidden := false;
      activeSince := Some(now);
    }

    /** applyServerUpdate */
    method Update(shown: Instance, now: real)
      requires Valid()
      modifies this
      ensures Valid()
      ensures State() == O.Step(config, old(State()), O.Timed(now, O.Server(L.Update(shown))))
    {
      if activeMatch.None? || activeMatch.value.id != shown.id {
        return;
      }
      pendingGone := None;
      activeMatch := Some(shown);
      activeSince := if activeSince == None then Some(now) else activeSince;
    }

    /** applyServerGone */
    method Gone(id: Text, now: real)
      requires Valid()
      modifies this
      ensures Valid()
      ensures State() == O.Step(config, old(State()), O.Timed(now, O.Server(L.Gone(id))))
    {
      if activeMatch.None? || activeMatch.value.id != id {
        return;
      }
      goneId, goneAt := Some(id), Some(now);
      var elapsed := if activeSince.Some? then now - activeSince.value else config.minimum;
      var remaining := config.minimum - elapsed;
      if remaining > 0.0 {
        pendingGone := Some(O.Pending(id, now + remaining));
        return;
      }
      ClearActive();
    }

    /** dismissLocally */
    method Dismiss(id: Text, now: real)
      requires Valid()
      modifies this
      ensures Valid()
      ensures State() == O.Step(config, old(State()), O.Timed(now, O.Dismiss(id)))
    {
      if activeMatch.Some? && activeMatch.value.id == id {
        isOverlayHidden := true;
      }
    }

    /** restoreOverlay */
    method Restore(now: real)
      requires Valid()
      modifies this
      ensures Valid()
      ensures State() == O.Step(config, old(State()), O.Timed(now, O.Restore))
    {
      if activeMatch != None {
        isOverlayHidden := false;
      }
    }

    /** resolveLocally */
    method ResolveLocally(id: Text, now: real)
      requires Valid()
      modifies this
      ensures Valid()
      ensures State() == O.Step(config, old(State()), O.Timed(now, O.ResolveLocally(id)))
    {
      if activeMatch.None? || activeMatch.value.id != id {
        return;
      }
      resolvedSignature, resolvedAt := Some(config.signature(activeMatch.value)), Some(now);
      goneId, goneAt := Some(id), Some(now);
      ClearActive();
    }

    /** reset */
    method Reset(now: real)
      requires Valid()
      modifies this
      ensures Valid()
      ensures State() == O.Step(config, old(State()), O.Timed(now, O.Reset))
    {
      ClearResolveSuppression();
      goneId, goneAt := None, None;
      ClearActive();
    }

    /** The body of the delayed work item; a cancelled one never runs. */
    method Fire(now: real)
      requires Valid() && pendingGone.Some?
      modifies this
      ensures Valid()
      ensures State() == O.Step(config, old(State()), O.Timed(now, O.Fire))
      ensures activeMatch == None
    {
      var id := pendingGone.value.id;
      pendingGone := None;
      if activeMatch.None? || activeMatch.value.id != id {
        return;
      }
      ClearActive();
    }

    /** clearActiveState */
    method ClearActive()
      modifies this`activeMatch, this`isOverlayHidden, this`activeSince, this`pendingGone
      ensures State() == O.Cleared(old(State()))
    {
      pendingGone := None;
      activeMatch := None;
      isOverlayHidden := false;
      activeSince := None;
    }

    method ClearResolveSuppression()
      modifies this`resolvedSignature, this`resolvedAt
      ensures resolvedSignature == None && resolvedAt == None
    {
      resolvedSignature, resolvedAt := None, None;
    }

    /** shouldSuppressResolvedPrompt */
    method ShouldSuppressResolved(shown: Instance, now: real) returns (r: bool)
      requires Valid()
      modifies this`resolvedSignature, this`resolvedAt
      ensures Valid()
      ensures r == O.Holds(config, old(State()).resolved, now, config.signature(shown))
      ensures State() == old(State()).(resolved := O.Fresh(config, old(State()).resolved, now))
    {
      if resolvedSignature.None? || resolvedAt.None? {
        return false;
      }
      if now - resolvedAt.value > config.suppression {
        ClearResolveSuppression();
        return false;
      }
      return resolvedSignature.value == config.signature(shown);
    }

    /** shouldSuppressRePresentAfterGone */
    method ShouldSuppressAfterGone(id: Text, now: real) returns (r: bool)
      requires Valid()
      modifies this`goneId, this`goneAt
      ensures Valid()
      ensures r == O.Holds(config, old(State()).gone, now, id)
      ensures State() == old(State()).(gone := O.Fresh(config, old(State()).gone, now))
    {
      if goneId.None? || goneAt.None? {
        return false;
      }
      if now - goneAt.value > config.suppression {
        goneId, goneAt := None, None;
        return false;
      }
      return goneId.value == id;
    }
  }

  function Both(name: Option<Text>, at: Option<real>): Option<O.Stamp> {
    if name.Some? && at.Some? then Some(O.Stamp(name.value, at.value)) else None
  }
}
