/** The loops of the rule evaluator, proved against module Rules. */
module RuleEvaluator {
  import opened Bytes
  import opened Display
  import opened Prompt
  import opened Rules

  /** append_action */
  method AppendAction(actions: Actions, caption: Text, keys: Text) returns (ok: bool, r: Actions)
    ensures ok <==> |actions| < MAX_ACTIONS
    ensures r == if ok then actions + [Action(Trim(caption), keys)] else actions
  {
    if |actions| >= MAX_ACTIONS {
      return false, actions;
    }
    var trimmed := TrimDup(caption);
    return true, actions + [Action(trimmed, keys)];
  }

  /** Match the option expression on the line, then from its first numbered option on. */
  method MatchOption(rule: Rule, line: Text) returns (captures: Option<Captures>)
    ensures captures == CapturesOn(rule, line)
  {
    captures := rule.optionRegex(line);
    if captures.None? {
      var start := FindNumberedOptionStart(line);
      if start.Some? && start.value != 0 {
        captures := rule.optionRegex(line[start.value..]);
      }
    }
  }

  /** seen_numbers holds exactly the numbers of the options found so far. */
  ghost predicate Records(seen: array<bool>, m: seq<Found>)
    reads seen
  {
    seen.Length == MAX_ACTIONS + 1 &&
    forall n :: 1 <= n <= MAX_ACTIONS ==> (seen[n] <==> HasNumber(m, n))
  }

  /** One scanned row: skip it, or append its option and record the number. */
  method ScanRow(rule: Rule, template: Text, line: Text, seen: array<bool>, actions: Actions, ghost m: seq<Found>)
    returns (ok: bool, r: Actions)
    requires Records(seen, m) && actions == ActionsOf(m)
    modifies seen
    ensures
      var o := OptionOn(rule, template, line);
      if o.None? || HasNumber(m, o.value.number)
      then ok && r == actions && Records(seen, m)
      else
        && (ok <==> |actions| < MAX_ACTIONS)
        && (ok ==> forall row :: ActionsOf(m + [Found(row, o.value)]) == r && Records(seen, m + [Found(row, o.value)]))
  {
    ok, r := true, actions;
    if line == [] {
      return;
    }
    var captures := MatchOption(rule, line);
    if captures.None? || captures.value.number.None? || captures.value.caption.None? {
      return;
    }
    var number := captures.value.number.value;
    var value := StrToL(number);
    if value.None? || value.value <= 0 || value.value > MAX_ACTIONS || seen[value.value] {
      return;
    }
    var keys := ReplaceNumber(template, number);
    ok, r := AppendAction(actions, captures.value.caption.value, keys);
    if ok {
      seen[value.value] := true;
      ghost var o := MenuOption(value.value, Action(Trim(captures.value.caption.value), keys));
      forall row: nat
        ensures ActionsOf(m + [Found(row, o)]) == r && Records(seen, m + [Found(row, o)])
      {
        forall n | 1 <= n <= MAX_ACTIONS
          ensures seen[n] <==> HasNumber(m + [Found(row, o)], n)
        {
          NumberKept(m, Found(row, o), n);
        }
      }
    }
  }

  /** The numbers 1..count have all been seen. */
  method AllSeen(seen: array<bool>, count: nat, ghost m: seq<Found>) returns (ok: bool)
    requires Records(seen, m) && count == |m| <= MAX_ACTIONS && Distinct(Numbers(m))
    ensures ok <==> IsMenu(m)
  {
    if count < 2 || !seen[1] {
      if 2 <= count {
        assert IsMenu(m) ==> 1 in Numbers(m);
      }
      return false;
    }
    for n := 1 to count + 1
      invariant forall k :: 1 <= k < n ==> k in Numbers(m)
    {
      if !seen[n] {
        assert n !in Numbers(m);
        return false;
      }
      assert HasNumber(m, n);
    }
    CoversIsPermutation(Numbers(m));
    return true;
  }

  /** A new number finds room: sixteen different ones would leave none new. */
  lemma RoomForNew(rule: Rule, template: Text, lines: seq<Text>, lo: nat, row: nat)
    requires lo <= row < |lines|
    ensures
      var m := Menu(rule, template, lines, lo, row);
      var o := OptionOn(rule, template, lines[row]);
      o.None? || HasNumber(m, o.value.number) || |ActionsOf(m)| < MAX_ACTIONS
  {
    CapIsNeverHit(rule, template, lines, lo, row);
  }

  /** The scan over rows lo..hi-1; the cap of append_action never stops it. */
  method ScanRows(rule: Rule, template: Text, lines: seq<Text>, lo: nat, hi: nat)
    returns (seen: array<bool>, actions: Actions)
    requires lo <= hi <= |lines|
    ensures fresh(seen)
    ensures actions == ActionsOf(Menu(rule, template, lines, lo, hi))
    ensures Records(seen, Menu(rule, template, lines, lo, hi))
  {
    actions := [];
    seen := new bool[MAX_ACTIONS + 1](_ => false);
    for row := lo to hi
      invariant actions == ActionsOf(Menu(rule, template, lines, lo, row))
      invariant Records(seen, Menu(rule, template, lines, lo, row))
    {
      var added;
      added, actions := ScanNext(rule, template, lines, lo, row, seen, actions);
      if !added {
        break;
      }
    }
  }

  /** A row of the scan, with the menu of the rows before it already recorded. */
  method ScanNext(rule: Rule, template: Text, lines: seq<Text>, ghost lo: nat, row: nat, seen: array<bool>, actions: Actions)
    returns (added: bool, r: Actions)
    requires lo <= row < |lines|
    requires Records(seen, Menu(rule, template, lines, lo, row)) && actions == ActionsOf(Menu(rule, template, lines, lo, row))
    modifies seen
    ensures added
    ensures r == ActionsOf(Menu(rule, template, lines, lo, row + 1))
    ensures Records(seen, Menu(rule, template, lines, lo, row + 1))
  {
    ghost var m := Menu(rule, template, lines, lo, row);
    RoomForNew(rule, template, lines, lo, row);
    MenuNext(rule, template, lines, lo, row);
    added, r := ScanRow(rule, template, lines[row], seen, actions, m);
  }

  method ExtractNumberedMenu(rule: Rule, snap: Snapshot, promptRow: nat) returns (ok: bool, actions: Actions)
    requires Complete(snap) && promptRow < snap.rows
    ensures
      var c := MenuCandidate(rule, snap, promptRow);
      (ok <==> c.Some?) && (ok ==> actions == c.value.actions)
  {
    if rule.template.None? {
      return false, [];
    }
    var maxRow := promptRow + rule.maxScanLines;
    if maxRow >= snap.rows {
      maxRow := snap.rows - 1;
    }
    var seen;
    seen, actions := ScanRows(rule, rule.template.value, snap.lines, promptRow + 1, maxRow + 1);
    assert maxRow + 1 == Limit(rule, snap, promptRow);
    ghost var m := Menu(rule, rule.template.value, snap.lines, promptRow + 1, maxRow + 1);
    MenuNumbersDistinct(rule, rule.template.value, snap.lines, promptRow + 1, maxRow + 1);
    ok := AllSeen(seen, |actions|, m);
  }

  lemma TrimmedNext(actions: seq<Action>, i: nat)
    requires i < |actions|
    ensures TrimmedActions(actions[..i + 1]) ==
      TrimmedActions(actions[..i]) + [Action(Trim(actions[i].caption), actions[i].keys)]
  {
  }

  method CopyStaticActions(rule: Rule) returns (ok: bool, actions: Actions)
    ensures ok <==> 1 <= |rule.staticActions| <= MAX_ACTIONS
    ensures ok ==> actions == TrimmedActions(rule.staticActions)
  {
    actions := [];
    for i := 0 to |rule.staticActions|
      invariant i <= MAX_ACTIONS && actions == TrimmedActions(rule.staticActions[..i])
    {
      TrimmedNext(rule.staticActions, i);
      var added;
      added, actions := AppendAction(actions, rule.staticActions[i].caption, rule.staticActions[i].keys);
      if !added {
        return false, [];
      }
    }
    assert rule.staticActions[..|rule.staticActions|] == rule.staticActions;
    ok := |actions| > 0;
  }

  method FillCandidate(rule: Rule, snap: Snapshot, promptRow: nat) returns (candidate: Option<Candidate>)
    requires Complete(snap) && promptRow < snap.rows
    ensures candidate == Fill(rule, snap, promptRow)
  {
    var prompt := TrimDup(snap.lines[promptRow]);
    var ok, actions;
    if rule.patternType.NumberedMenu? {
      ok, actions := ExtractNumberedMenu(rule, snap, promptRow);
    } else {
      ok, actions := CopyStaticActions(rule);
    }
    if !ok {
      return None;
    }
    return Some(Candidate(rule.patternId, rule.patternType, prompt, actions, promptRow));
  }

  method MatchRule(rule: Rule, snap: Snapshot) returns (candidate: Option<Candidate>)
    requires Complete(snap)
    ensures candidate == BottomMost(rule, snap, snap.rows)
  {
    var row: int := snap.rows - 1;
    while row >= 0
      invariant -1 <= row < snap.rows
      invariant BottomMost(rule, snap, row + 1) == BottomMost(rule, snap, snap.rows)
    {
      var line := snap.lines[row];
      if line != [] && rule.promptRegex(line) && CursorRelevant(rule, snap, row) {
        candidate := FillCandidate(rule, snap, row);
        if candidate.Some? {
          return;
        }
      }
      row := row - 1;
    }
    return None;
  }

  method RulesetMatch(rules: seq<Rule>, snap: Snapshot) returns (candidate: Option<Candidate>)
    requires Complete(snap)
    ensures candidate == FirstMatch(rules, snap)
  {
    for r := 0 to |rules|
      invariant FirstMatch(rules[r..], snap) == FirstMatch(rules, snap)
    {
      candidate := MatchRule(rules[r], snap);
      if candidate.Some? {
        return;
      }
      assert rules[r..][1..] == rules[r + 1..];
    }
    return None;
  }
}
