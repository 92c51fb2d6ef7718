/**
 A collision of identities that the rule evaluator itself produces: two menus that
 differ in their options are one prompt to the lifecycle.
 */
module Collision {
  import opened Bytes
  import opened Display
  import opened Prompt
  import opened Rules
  import opened Identity
  import L = Lifecycle

  /** Number, dot, blank and caption: what the built-in option expression captures on such lines. */
  function ReadOption(line: Text): Option<Captures> {
    var n := DigitRun(line);
    if 0 < n && n + 2 < |line| && line[n] == DOT && line[n + 1] == SPACE
    then Some(Captures(Some(line[..n]), Some(line[n + 2..])))
    else None
  }

  const QUESTION: Text := [81]

  /** A numbered menu below a line "Q", answered by the option's number. */
  function MenuRule(): Rule {
    Rule([109], NumberedMenu, 10, line => line == QUESTION, ReadOption, [], Some(NUMBER_TOKEN))
  }

  /** "01. x", "1. x0" and "2. y" */
  const PADDED_ONE: Text := [48, 49, 46, 32, 120]
  const PLAIN_ONE: Text := [49, 46, 32, 120, 48]
  const TWO: Text := [50, 46, 32, 121]

  const FIRST := ScreenWith(PADDED_ONE)
  const SECOND := ScreenWith(PLAIN_ONE)

  function MenuOf(one: Action): Candidate {
    Candidate([109], NumberedMenu, QUESTION, [one, Action([121], [50])], 0)
  }

  const FIRST_MENU := MenuOf(Action([120], [48, 49]))
  const SECOND_MENU := MenuOf(Action([120, 48], [49]))

  lemma Runs()
    ensures DigitRun(PADDED_ONE) == 2 && DigitRun(PLAIN_ONE) == 1 && DigitRun(TWO) == 1
  {
    assert PADDED_ONE[1..][1..][0] == 46;
    assert DigitRun(PADDED_ONE[1..][1..]) == 0;
    assert PLAIN_ONE[1..][0] == 46 && TWO[1..][0] == 46;
  }

  lemma Values()
    ensures StrToL([48, 49]) == Some(1) && StrToL([49]) == Some(1) && StrToL([50]) == Some(2)
  {
    OneDigit(49);
    OneDigit(50);
    var t: Text := [48, 49];
    assert t[1..] == [49] && t[..2] == t && t[..1] == [48];
    assert DigitRun(t) == 2;
    assert Decimal([48]) == 0 && Decimal(t) == 1;
  }

  lemma OneDigit(b: Byte)
    requires IsDigit(b)
    ensures DigitRun([b]) == 1 && Decimal([b]) == b - ZERO && StrToL([b]) == Some(b - ZERO)
  {
    var t: Text := [b];
    assert t[1..] == [] && t[..1] == t && t[..0] == [];
  }

  lemma NumberReplaced(number: Text)
    ensures ReplaceNumber(NUMBER_TOKEN, number) == number
  {
    assert OccursAt(NUMBER_TOKEN, NUMBER_TOKEN, 0);
    assert NUMBER_TOKEN[..0] + number + NUMBER_TOKEN[|NUMBER_TOKEN|..] == number;
  }

  lemma Plain(t: Text)
    requires t != [] && !IsSpace(t[0]) && !IsSpace(t[|t| - 1])
    ensures Trim(t) == t
  {
  }

  lemma OptionIs(line: Text, number: Text, caption: Text, value: int)
    requires line != [] && ReadOption(line) == Some(Captures(Some(number), Some(caption)))
    requires StrToL(number) == Some(value) && 1 <= value <= MAX_ACTIONS && Trim(caption) == caption
    ensures OptionOn(MenuRule(), NUMBER_TOKEN, line) == Some(MenuOption(value, Action(caption, number)))
  {
    NumberReplaced(number);
    assert MenuRule().optionRegex(line) == ReadOption(line);
  }

  lemma LinesRead()
    ensures ReadOption(PADDED_ONE) == Some(Captures(Some([48, 49]), Some([120])))
    ensures ReadOption(PLAIN_ONE) == Some(Captures(Some([49]), Some([120, 48])))
    ensures ReadOption(TWO) == Some(Captures(Some([50]), Some([121])))
  {
    Runs();
    assert PADDED_ONE[..2] == [48, 49] && PADDED_ONE[4..] == [120];
    assert PLAIN_ONE[..1] == [49] && PLAIN_ONE[3..] == [120, 48];
    assert TWO[..1] == [50] && TWO[3..] == [121];
  }

  lemma OptionsAre()
    ensures OptionOn(MenuRule(), NUMBER_TOKEN, PADDED_ONE) == Some(MenuOption(1, Action([120], [48, 49])))
    ensures OptionOn(MenuRule(), NUMBER_TOKEN, PLAIN_ONE) == Some(MenuOption(1, Action([120, 48], [49])))
    ensures OptionOn(MenuRule(), NUMBER_TOKEN, TWO) == Some(MenuOption(2, Action([121], [50])))
  {
    LinesRead();
    Values();
    Plain([120]);
    Plain([120, 48]);
    Plain([121]);
    OptionIs(PADDED_ONE, [48, 49], [120], 1);
    OptionIs(PLAIN_ONE, [49], [120, 48], 1);
    OptionIs(TWO, [50], [121], 2);
  }

  /** Two rows that read as options 1 and 2 make a menu. */
  lemma MenuIs(rule: Rule, template: Text, lines: seq<Text>, one: MenuOption, two: MenuOption)
    requires |lines| == 3 && one.number == 1 && two.number == 2
    requires OptionOn(rule, template, lines[1]) == Some(one) && OptionOn(rule, template, lines[2]) == Some(two)
    ensures Menu(rule, template, lines, 1, 3) == [Found(1, one), Found(2, two)]
    ensures IsMenu([Found(1, one), Found(2, two)])
    ensures ActionsOf([Found(1, one), Found(2, two)]) == [one.action, two.action]
  {
    assert Menu(rule, template, lines, 1, 1) == [];
    assert Menu(rule, template, lines, 1, 2) == [Found(1, one)];
    TwoNumbered(Found(1, one), Found(2, two));
  }

  lemma OnlyTopRow(rule: Rule, snap: Snapshot)
    requires Complete(snap) && snap.rows == 3 && Acceptable(rule, snap, 0)
    requires !rule.promptRegex(snap.lines[1]) && !rule.promptRegex(snap.lines[2])
    ensures FirstMatch([rule], snap) == Fill(rule, snap, 0)
  {
    assert BottomMost(rule, snap, 1) == Fill(rule, snap, 0);
    assert BottomMost(rule, snap, 2) == BottomMost(rule, snap, 1);
  }

  function ScreenWith(line: Text): Snapshot { Snapshot(3, 8, 2, 0, false, [QUESTION, line, TWO]) }

  lemma FilledWith(rule: Rule, snap: Snapshot, template: Text, m: seq<Found>)
    requires Complete(snap) && snap.rows == 3 && rule.maxScanLines >= 2
    requires rule.patternType.NumberedMenu? && rule.template == Some(template)
    requires m == Menu(rule, template, snap.lines, 1, 3) && IsMenu(m)
    ensures Fill(rule, snap, 0) ==
      Some(Candidate(rule.patternId, NumberedMenu, Trim(snap.lines[0]), ActionsOf(m), 0))
  {
    assert Limit(rule, snap, 0) == 3;
  }

  lemma FilledIs(rule: Rule, template: Text, line: Text, one: Action)
    requires rule.patternType.NumberedMenu? && rule.template == Some(template) && rule.patternId == [109]
    requires rule.maxScanLines >= 2
    requires OptionOn(rule, template, line) == Some(MenuOption(1, one))
    requires OptionOn(rule, template, TWO) == Some(MenuOption(2, Action([121], [50])))
    ensures Fill(rule, ScreenWith(line), 0) == Some(MenuOf(one))
  {
    var two := MenuOption(2, Action([121], [50]));
    MenuIs(rule, template, ScreenWith(line).lines, MenuOption(1, one), two);
    FilledWith(rule, ScreenWith(line), template, [Found(1, MenuOption(1, one)), Found(2, two)]);
    Plain(QUESTION);
  }

  /** Any line that reads as option 1, between the question and option 2. */
  lemma MatchIs(rule: Rule, template: Text, line: Text, one: Action)
    requires rule.patternType.NumberedMenu? && rule.template == Some(template) && rule.patternId == [109]
    requires rule.maxScanLines >= 2
    requires rule.promptRegex(QUESTION) && !rule.promptRegex(line) && !rule.promptRegex(TWO)
    requires OptionOn(rule, template, line) == Some(MenuOption(1, one))
    requires OptionOn(rule, template, TWO) == Some(MenuOption(2, Action([121], [50])))
    ensures FirstMatch([rule], ScreenWith(line)) == Some(MenuOf(one))
  {
    FilledIs(rule, template, line, one);
    OnlyTopRow(rule, ScreenWith(line));
  }

  lemma TwoNumbered(a: Found, b: Found)
    requires a.option.number == 1 && b.option.number == 2
    ensures IsMenu([a, b])
  {
    assert Numbers([a, b]) == [1, 2];
  }

  /**
   Under one rule the two screens show different prompts with the same id. The
   second is reported as an update of the first; and once the first is resolved the
   second is withheld, although it is a distinct prompt.
   */
  lemma EvaluatorCollides()
    ensures FirstMatch([MenuRule()], FIRST) == Some(FIRST_MENU) && FirstMatch([MenuRule()], SECOND) == Some(SECOND_MENU)
    ensures FIRST_MENU != SECOND_MENU && InstanceId(FIRST_MENU) == InstanceId(SECOND_MENU)
    ensures L.Observe(L.INIT, [FirstMatch([MenuRule()], FIRST), FirstMatch([MenuRule()], SECOND)]).1 ==
      [L.Present(Instance(InstanceId(FIRST_MENU), FIRST_MENU, 1)), L.Update(Instance(InstanceId(FIRST_MENU), SECOND_MENU, 2))]
    ensures
      var t := L.Run(L.INIT, [L.Process(Some(FIRST_MENU))] + [L.Resolve(InstanceId(FIRST_MENU)), L.Process(Some(SECOND_MENU))]).0;
      !(t.active.Some? && t.active.value.content == SECOND_MENU)
  {
    ScreensShow();
    MenusShareId();
    L.SharedIdUpdates(FIRST_MENU, SECOND_MENU);
    ShownFirst();
    L.WithheldIffSharedId([L.Process(Some(FIRST_MENU))], FIRST_MENU, SECOND_MENU);
  }

  lemma ScreensShow()
    ensures FirstMatch([MenuRule()], FIRST) == Some(FIRST_MENU) && FirstMatch([MenuRule()], SECOND) == Some(SECOND_MENU)
  {
    OptionsAre();
    MatchIs(MenuRule(), NUMBER_TOKEN, PADDED_ONE, Action([120], [48, 49]));
    MatchIs(MenuRule(), NUMBER_TOKEN, PLAIN_ONE, Action([120, 48], [49]));
  }

  lemma MenusShareId()
    ensures FIRST_MENU != SECOND_MENU && InstanceId(FIRST_MENU) == InstanceId(SECOND_MENU)
  {
    var after := [Action([121], [50])];
    FieldBoundaryIsInvisible(FIRST_MENU, [], [120], 48, [49], after);
    assert [48] + [49] == [48, 49] && [120] + [48] == [120, 48];
    assert [] + [Action([120], [48, 49])] + after == FIRST_MENU.actions;
    assert [] + [Action([120, 48], [49])] + after == SECOND_MENU.actions;
  }

  lemma ShownFirst()
    ensures
      var s := L.Run(L.INIT, [L.Process(Some(FIRST_MENU))]).0;
      s.active.Some? && s.active.value.content == FIRST_MENU
  {
    var ops := [L.Process(Some(FIRST_MENU))];
    assert ops[..0] == [];
    assert L.Run(L.INIT, []).0 == L.INIT;
  }
}
