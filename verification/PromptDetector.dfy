/** The detector object: every call runs under the detector's mutex and is one step of module Detection. */
module PromptDetector {
  import opened Bytes
  import opened Prompt
  import opened Rules
  import D = Detection
  import TerminalState
  import PromptLifecycle
  import RuleEvaluator

  class PromptDetector {
    const terminal: TerminalState.TerminalState
    const lifecycle: PromptLifecycle.PromptLifecycle
    var rules: seq<Rule>

    ghost predicate Valid()
      reads this, terminal, terminal.cells, terminal.csiBuf, lifecycle
    {
      terminal.Valid() && lifecycle.Valid()
    }

    ghost function View(): D.Detector
      requires Valid()
      reads this, terminal, terminal.cells, terminal.csiBuf, lifecycle
    {
      D.Detector(terminal.View(), rules, lifecycle.View())
    }

    constructor (rows: int, cols: int)
      ensures Valid() && View() == D.Initial(rows, cols) && lifecycle.emitted == []
      ensures fresh(terminal) && fresh(terminal.cells) && fresh(terminal.csiBuf) && fresh(lifecycle)
    {
      terminal := new TerminalState.TerminalState(rows, cols);
      lifecycle := new PromptLifecycle.PromptLifecycle();
      rules := [];
    }

    /** reload_rules_locked */
    method SetRules(newRules: seq<Rule>)
      requires Valid()
      modifies this`rules
      ensures Valid() && View() == D.Step(old(View()), D.SetRules(newRules)).0
    {
      rules := newRules;
    }

    method Feed(data: Text)
      requires Valid()
      modifies terminal, terminal.cells, terminal.csiBuf, lifecycle
      ensures Valid() && View() == D.Step(old(View()), D.Feed(data)).0
      ensures lifecycle.emitted == old(lifecycle.emitted) + D.Step(old(View()), D.Feed(data)).1
      ensures terminal.cells == old(terminal.cells)
      ensures data != [] ==> lifecycle.lastSequence == terminal.sequence
    {
      if data == [] {
        return;
      }
      terminal.Feed(data);
      var snapshot, number := terminal.TakeSnapshot();
      var candidate := RuleEvaluator.RulesetMatch(rules, snapshot);
      lifecycle.Process(candidate, number);
    }

    method Resize(rows: int, cols: int)
      requires Valid()
      modifies terminal
      ensures Valid() && View() == D.Step(old(View()), D.Resize(rows, cols)).0
      ensures lifecycle.emitted == old(lifecycle.emitted)
      ensures terminal.cells == old(terminal.cells) || fresh(terminal.cells)
    {
      terminal.Resize(rows, cols);
    }

    method Resolve(id: Text)
      requires Valid()
      modifies lifecycle
      ensures Valid() && View() == D.Step(old(View()), D.Resolve(id)).0
      ensures lifecycle.emitted == old(lifecycle.emitted) + D.Step(old(View()), D.Resolve(id)).1
    {
      if id == [] {
        return;
      }
      lifecycle.Resolve(id);
    }

    method CopyActive() returns (copy: Option<Instance>)
      requires Valid()
      ensures copy == View().life.active
    {
      copy := lifecycle.CopyActive();
    }
  }
}
