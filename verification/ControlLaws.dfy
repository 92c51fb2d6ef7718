/**
 What the control functions mean (ECMA-48), said of the bytes that are fed and of
 what is on the screen before and after, with decimal numbers as parameters.
 */
module ControlLaws {
  import opened Bytes
  import opened Display
  import Vt
  import Tokens

  /** A parameter: empty or a number, negative ones written with a minus sign. */
  type Field = Option<int>

  function FieldText(f: Field): Text {
    match f
    case None => []
    case Some(n) => IntText(n)
  }

  function FieldTexts(fields: seq<Field>): seq<Text> {
    seq(|fields|, i requires 0 <= i < |fields| => FieldText(fields[i]))
  }

  /** Texts with semicolons between them. */
  function Join(texts: seq<Text>): Text
    requires texts != []
  {
    if |texts| == 1 then texts[0] else texts[0] + [59] + Join(texts[1..])
  }

  /** '?' marks a private control function. */
  function Params(private: bool, fields: seq<Field>): Text
    requires fields != []
  {
    (if private then [63] else []) + Join(FieldTexts(fields))
  }

  function Sequence(params: Text, final: Byte): Text { [27, 91] + params + [final] }

  /** What field k stands for: missing, empty and negative ones the default, at most 100000. */
  function Value(fields: seq<Field>, k: nat, default: nat): nat {
    if k >= |fields| || fields[k].None? || fields[k].value < 0 then default
    else if fields[k].value > 100000 then 100000
    else fields[k].value
  }

  /** A screen with no escape sequence pending, fed some bytes. */
  function After(s: Screen, bytes: Text): Vt.Machine
    requires Fits(s)
  {
    Vt.Feed(Vt.Machine(s, Vt.Ground), bytes)
  }

  // ----- reading the parameters

  predicate ParameterByte(b: Byte) { b == MINUS || IsDigit(b) }

  lemma FieldBytes(f: Field)
    ensures forall i :: 0 <= i < |FieldText(f)| ==> ParameterByte(FieldText(f)[i])
  {
  }

  lemma {:induction false} JoinedBytes(texts: seq<Text>)
    requires texts != []
    requires forall k, i :: 0 <= k < |texts| && 0 <= i < |texts[k]| ==> ParameterByte(texts[k][i])
    ensures forall i :: 0 <= i < |Join(texts)| ==> Join(texts)[i] == 59 || ParameterByte(Join(texts)[i])
    decreases |texts|
  {
    if |texts| > 1 {
      JoinedBytes(texts[1..]);
    }
  }

  lemma ParamsBytes(private: bool, fields: seq<Field>)
    requires fields != []
    ensures
      var p := Params(private, fields);
      forall i :: 0 <= i < |p| ==> (i == 0 && private && p[0] == 63) || p[i] == 59 || ParameterByte(p[i])
  {
    forall k | 0 <= k < |fields|
      ensures forall i :: 0 <= i < |FieldTexts(fields)[k]| ==> ParameterByte(FieldTexts(fields)[k][i])
    {
      FieldBytes(fields[k]);
    }
    JoinedBytes(FieldTexts(fields));
  }

  lemma ShortNumber(n: nat)
    requires n < 100000
    ensures |Digits(n)| <= 5
  {
    assert |Digits(n / 10000)| == 1;
    assert |Digits(n / 1000)| <= 2;
    assert |Digits(n / 100)| <= 3;
    assert |Digits(n / 10)| <= 4;
  }

  /** The token buffer holds 31 bytes; what a longer number loses does not matter. */
  lemma NumberReads(n: int, default: int)
    ensures Vt.IntToken(IntText(n), default) ==
      if n < 0 then default else if n > 100000 then 100000 else n
  {
    var t := IntText(n)[..Min(|IntText(n)|, 31)];
    if n < 0 {
      var m := Beginning(-n, 30);
      assert t[1..] == Digits(m);
      NumeralReads(Digits(m));
      DecimalDigits(m);
      Signed(t, m);
    } else {
      var m := Beginning(n, 31);
      assert t == Digits(m);
      NumeralReads(t);
      DecimalDigits(m);
      Unsigned(t);
    }
  }

  /** Cutting a number after so many digits leaves a number that is as large, or larger than 100000. */
  lemma Beginning(n: nat, k: nat) returns (m: nat)
    requires 6 <= k
    ensures Digits(m) == Digits(n)[..Min(|Digits(n)|, k)]
    ensures m == n || (100000 <= m <= n)
  {
    if |Digits(n)| <= k {
      m := n;
    } else {
      m := LeadingDigits(n, k);
      if m < 100000 {
        ShortNumber(m);
      }
    }
  }

  lemma FieldReads(f: Field, default: nat)
    ensures Vt.IntToken(FieldText(f), default) == Value([f], 0, default)
  {
    if f.Some? {
      NumberReads(f.value, default);
    }
  }

  lemma LastToken(a: Text)
    requires SEMICOLON !in a
    ensures Vt.Split(a) == [a]
  {
  }

  lemma FirstToken(a: Text, b: Text)
    requires SEMICOLON !in a
    ensures Vt.Split(a + [SEMICOLON] + b) == [a] + Vt.Split(b)
  {
    var t := a + [SEMICOLON] + b;
    var k := Vt.SepAt(t);
    assert t[|a|] == SEMICOLON;
    assert k == |a|;
    assert t[..k] == a && t[k + 1..] == b;
  }

  lemma {:induction false} SplitJoin(texts: seq<Text>)
    requires texts != [] && forall k :: 0 <= k < |texts| ==> SEMICOLON !in texts[k]
    ensures Vt.Split(Join(texts)) == texts
    decreases |texts|
  {
    var a := texts[0];
    assert SEMICOLON !in a;
    if |texts| == 1 {
      LastToken(a);
      assert texts == [a];
    } else {
      var rest := texts[1..];
      SplitJoin(rest);
      FirstToken(a, Join(rest));
      assert texts == [a] + rest;
    }
  }

  lemma {:induction false} TokenAt(tokens: seq<Text>, k: nat, default: int)
    ensures Vt.TokenValue(tokens, k, default) == if k < |tokens| then Vt.IntToken(tokens[k], default) else default
    decreases k
  {
    if tokens != [] && k > 0 {
      TokenAt(tokens[1..], k - 1, default);
    }
  }

  lemma {:induction false} AnyTokenMeans(tokens: seq<Text>, mode: int)
    ensures Vt.AnyToken(tokens, mode) <==> exists k :: 0 <= k < |tokens| && Vt.IntToken(tokens[k], -1) == mode
  {
    if tokens != [] {
      AnyTokenMeans(tokens[1..], mode);
      assert forall k :: 1 <= k < |tokens| ==> tokens[k] == tokens[1..][k - 1];
    }
  }

  lemma FieldsSplit(fields: seq<Field>)
    requires fields != []
    ensures Vt.Split(Join(FieldTexts(fields))) == FieldTexts(fields)
  {
    forall k | 0 <= k < |fields|
      ensures SEMICOLON !in FieldTexts(fields)[k]
    {
      FieldBytes(fields[k]);
    }
    SplitJoin(FieldTexts(fields));
  }

  lemma FieldsRead(fields: seq<Field>, k: nat, default: nat)
    requires fields != []
    ensures Vt.TokenValue(FieldTexts(fields), k, default) == Value(fields, k, default)
  {
    TokenAt(FieldTexts(fields), k, default);
    if k < |fields| {
      FieldReads(fields[k], default);
    }
  }

  lemma FieldsHaveMode(fields: seq<Field>, mode: nat)
    requires fields != [] && mode < 100000
    ensures Vt.AnyToken(FieldTexts(fields), mode) <==> Some(mode) in fields
  {
    AnyTokenMeans(FieldTexts(fields), mode);
    forall k | 0 <= k < |fields|
      ensures Vt.IntToken(FieldTexts(fields)[k], -1) == mode <==> fields[k] == Some(mode)
    {
      if fields[k].Some? {
        NumberReads(fields[k].value, -1);
      }
    }
    if Some(mode) in fields {
      var k :| 0 <= k < |fields| && fields[k] == Some(mode);
      assert Vt.IntToken(FieldTexts(fields)[k], -1) == mode;
    }
  }

  lemma ParamReads(private: bool, fields: seq<Field>, k: nat, default: nat)
    requires fields != []
    ensures Vt.Param(Params(private, fields), k, default) == Value(fields, k, default)
  {
    var t := Join(FieldTexts(fields));
    FieldsSplit(fields);
    FieldsRead(fields, k, default);
    ParamsBytes(false, fields);
    assert [] + t == t;
    if t == [] {
      LastToken([]);
      TokenAt([[]], k, default);
    }
    BodyOf(private, t);
  }

  lemma BodyOf(private: bool, t: Text)
    requires t != [] ==> t[0] != 63
    ensures Vt.Body((if private then [63] else []) + t) == t
  {
    if private {
      assert ([63] + t)[1..] == t;
    } else {
      assert [] + t == t;
    }
  }

  lemma ModeReads(private: bool, fields: seq<Field>)
    requires fields != []
    ensures Vt.SwitchesScreen(Params(private, fields)) <==>
      private && (Some(1049) in fields || Some(1047) in fields || Some(47) in fields)
  {
    var t := Join(FieldTexts(fields));
    ParamsBytes(private, fields);
    if private {
      assert ([63] + t)[1..] == t;
      FieldsSplit(fields);
      FieldsHaveMode(fields, 1049);
      FieldsHaveMode(fields, 1047);
      FieldsHaveMode(fields, 47);
    } else {
      assert [] + t == t;
    }
  }

  /** A control sequence is executed at its final byte and leaves nothing pending. */
  lemma SequenceRuns(s: Screen, params: Text, final: Byte)
    requires Fits(s) && Vt.NoFinal(params) && 0x40 <= final <= 0x7E
    ensures After(s, Sequence(params, final)) ==
      Vt.Machine(Vt.ProcessCsi(s, CString(Tokens.Truncated(params)), final), Vt.Ground)
  {
    Tokens.FeedCsi(s, params);
    Tokens.CsiEnds(s, [27, 91] + params, params, final, Sequence(params, final));
  }

  lemma FieldsRun(s: Screen, private: bool, fields: seq<Field>, final: Byte)
    requires Fits(s) && fields != [] && |Params(private, fields)| <= 127 && 0x40 <= final <= 0x7E
    ensures After(s, Sequence(Params(private, fields), final)) ==
      Vt.Machine(Vt.ProcessCsi(s, Params(private, fields), final), Vt.Ground)
  {
    var p := Params(private, fields);
    ParamsBytes(private, fields);
    SequenceRuns(s, p, final);
    assert Tokens.Truncated(p) == p && CString(p) == p;
  }

  // ----- cursor

  /** A coordinate that is out of range is pulled to the nearest edge. */
  predicate Lands(at: nat, target: int, size: nat) {
    && at < size
    && (0 <= target < size ==> at == target)
    && (target < 0 ==> at == 0)
    && (target >= size ==> at == size - 1)
  }

  /** The cursor has moved there, nothing else has changed and nothing is pending. */
  predicate Moves(s: Screen, m: Vt.Machine, row: int, col: int) {
    && m.mode == Vt.Ground
    && Lands(m.screen.row, row, s.rows) && Lands(m.screen.col, col, s.cols)
    && m.screen == s.(row := m.screen.row, col := m.screen.col)
  }

  // ----- erasing

  /** Part of a screen: some columns of the cursor's row, everything from the cursor on, or all of it. */
  datatype Region = InLine(first: int, last: int) | FromCursor | Everything

  predicate Covers(region: Region, s: Screen, r: int, c: int) {
    match region
    case InLine(first, last) => r == s.row && first <= c <= last
    case FromCursor => r > s.row || (r == s.row && c >= s.col)
    case Everything => true
  }

  /** t is s with exactly those cells blanked. */
  predicate Erased(s: Screen, t: Screen, region: Region) {
    && t == s.(row := t.row, col := t.col, grid := t.grid, alt := t.alt)
    && |s.grid| == |t.grid| == s.rows
    && forall r :: 0 <= r < s.rows ==>
      && |s.grid[r]| == |t.grid[r]| == s.cols
      && forall c :: 0 <= c < s.cols ==> t.grid[r][c] == if Covers(region, s, r, c) then 32 else s.grid[r][c]
  }

  lemma ErasingInLine(s: Screen, first: int, last: int)
    requires Fits(s)
    ensures Erased(s, EraseInLine(s, first, last), InLine(first, last))
  {
    assert forall r :: 0 <= r < s.rows ==> RowFits(s.grid[r], s.cols);
  }

  lemma ErasingLines(s: Screen)
    requires Fits(s)
    ensures Erased(s, EraseBelow(s), FromCursor)
    ensures Erased(s, ClearHome(s), Everything)
  {
    assert forall r :: 0 <= r < s.rows ==> RowFits(s.grid[r], s.cols);
  }

  /** That region is erased, the cursor is where it was, nothing else has changed and nothing is pending. */
  predicate Erases(s: Screen, m: Vt.Machine, region: Region) {
    && m.mode == Vt.Ground && Erased(s, m.screen, region)
    && m.screen.row == s.row && m.screen.col == s.col && m.screen.alt == s.alt
  }

  /** The screen is blank and the cursor in its first cell. */
  predicate Clears(s: Screen, m: Vt.Machine, alt: bool) {
    && m.mode == Vt.Ground && Erased(s, m.screen, Everything)
    && m.screen.row == 0 && m.screen.col == 0 && m.screen.alt == alt
  }

  // ----- every control function

  /**
   What has become of the screen s after a control function with these parameters.
   Cursor: up, down, right, left; to a column, to a row; to a row and a column, all
   counted from 1; back to the saved cursor, and saving it. Erasing: J in the display,
   K in the line, X some cells. h and l with private mode 1049, 1047 or 47, among
   others or alone: to the other screen and back. Everything else is skipped.
   */
  predicate Means(s: Screen, private: bool, fields: seq<Field>, final: Byte, m: Vt.Machine) {
    var n: int, second: int, mode: int := Value(fields, 0, 1), Value(fields, 1, 1), Value(fields, 0, 0);
    match final
    case 65 => Moves(s, m, s.row - n, s.col)
    case 66 => Moves(s, m, s.row + n, s.col)
    case 67 => Moves(s, m, s.row, s.col + n)
    case 68 => Moves(s, m, s.row, s.col - n)
    case 71 => Moves(s, m, s.row, n - 1)
    case 100 => Moves(s, m, n - 1, s.col)
    case 72 => Moves(s, m, n - 1, second - 1)
    case 102 => Moves(s, m, n - 1, second - 1)
    case 117 => Moves(s, m, s.savedRow, s.savedCol)
    case 115 => m == Vt.Machine(s.(savedRow := s.row, savedCol := s.col), Vt.Ground)
    case 74 =>
      if mode == 0 then Erases(s, m, FromCursor)
      else if mode == 2 || mode == 3 then Clears(s, m, s.alt)
      else Unchanged(s, m)
    case 75 =>
      if mode == 0 then Erases(s, m, InLine(s.col, s.cols - 1))
      else if mode == 1 then Erases(s, m, InLine(0, s.col))
      else if mode == 2 then Erases(s, m, InLine(0, s.cols - 1))
      else Unchanged(s, m)
    case 88 => Erases(s, m, InLine(s.col, s.col + (if n == 0 then 1 else n) - 1))
    case 104 => if private && NamesScreen(fields) then Clears(s, m, true) else Unchanged(s, m)
    case 108 => if private && NamesScreen(fields) then Clears(s, m, false) else Unchanged(s, m)
    case _ => Unchanged(s, m)
  }

  predicate NamesScreen(fields: seq<Field>) {
    Some(1049) in fields || Some(1047) in fields || Some(47) in fields
  }

  predicate Unchanged(s: Screen, m: Vt.Machine) { m == Vt.Machine(s, Vt.Ground) }

  /** The parameter text p reads as these fields. */
  predicate ReadAs(p: Text, private: bool, fields: seq<Field>) {
    && Vt.Param(p, 0, 1) == Value(fields, 0, 1)
    && Vt.Param(p, 1, 1) == Value(fields, 1, 1)
    && Vt.Param(p, 0, 0) == Value(fields, 0, 0)
    && (Vt.SwitchesScreen(p) <==> private && NamesScreen(fields))
  }

  lemma StepMeans(s: Screen, private: bool, fields: seq<Field>, final: Byte, p: Text)
    requires Fits(s) && ReadAs(p, private, fields) && 65 <= final <= 68
    ensures Means(s, private, fields, final, Vt.Machine(Vt.ProcessCsi(s, p, final), Vt.Ground))
  {
  }

  lemma PlaceMeans(s: Screen, private: bool, fields: seq<Field>, final: Byte, p: Text)
    requires Fits(s) && ReadAs(p, private, fields) && final in {71, 100, 115, 117}
    ensures Means(s, private, fields, final, Vt.Machine(Vt.ProcessCsi(s, p, final), Vt.Ground))
  {
  }

  lemma PositionMeans(s: Screen, private: bool, fields: seq<Field>, final: Byte, p: Text)
    requires Fits(s) && ReadAs(p, private, fields) && final in {72, 102}
    ensures Means(s, private, fields, final, Vt.Machine(Vt.ProcessCsi(s, p, final), Vt.Ground))
  {
  }

  lemma OtherMeans(s: Screen, private: bool, fields: seq<Field>, final: Byte, p: Text)
    requires Fits(s) && ReadAs(p, private, fields) && final !in {65, 66, 67, 68, 71, 72, 74, 75, 88, 100, 102, 104, 108, 115, 117}
    ensures Means(s, private, fields, final, Vt.Machine(Vt.ProcessCsi(s, p, final), Vt.Ground))
  {
  }

  lemma DisplayMeans(s: Screen, private: bool, fields: seq<Field>, final: Byte, p: Text)
    requires Fits(s) && ReadAs(p, private, fields) && final == 74
    ensures Means(s, private, fields, final, Vt.Machine(Vt.ProcessCsi(s, p, final), Vt.Ground))
  {
    ErasingLines(s);
  }

  lemma LineMeans(s: Screen, private: bool, fields: seq<Field>, final: Byte, p: Text)
    requires Fits(s) && ReadAs(p, private, fields) && final == 75
    ensures Means(s, private, fields, final, Vt.Machine(Vt.ProcessCsi(s, p, final), Vt.Ground))
  {
    var mode := Value(fields, 0, 0);
    ErasingInLine(s, if mode == 0 then s.col else 0, if mode == 1 then s.col else s.cols - 1);
  }

  lemma CellsMean(s: Screen, private: bool, fields: seq<Field>, final: Byte, p: Text)
    requires Fits(s) && ReadAs(p, private, fields) && final == 88
    ensures Means(s, private, fields, final, Vt.Machine(Vt.ProcessCsi(s, p, final), Vt.Ground))
  {
    var n: int := Value(fields, 0, 1);
    ErasingInLine(s, s.col, s.col + (if n == 0 then 1 else n) - 1);
  }

  lemma SwitchMeans(s: Screen, private: bool, fields: seq<Field>, final: Byte, p: Text)
    requires Fits(s) && ReadAs(p, private, fields) && final in {104, 108}
    ensures Means(s, private, fields, final, Vt.Machine(Vt.ProcessCsi(s, p, final), Vt.Ground))
  {
    ErasingLines(s);
  }

  /** Feeding ESC [, decimal parameters and a final byte does what that control function means. */
  lemma ControlFunctions(s: Screen, private: bool, fields: seq<Field>, final: Byte)
    requires Fits(s) && fields != [] && |Params(private, fields)| <= 127 && 0x40 <= final <= 0x7E
    ensures Means(s, private, fields, final, After(s, Sequence(Params(private, fields), final)))
  {
    var p := Params(private, fields);
    ParamReads(private, fields, 0, 1);
    ParamReads(private, fields, 1, 1);
    ParamReads(private, fields, 0, 0);
    ModeReads(private, fields);
    FieldsRun(s, private, fields, final);
    match final {
      case 74 => DisplayMeans(s, private, fields, final, p);
      case 75 => LineMeans(s, private, fields, final, p);
      case 88 => CellsMean(s, private, fields, final, p);
      case 104 => SwitchMeans(s, private, fields, final, p);
      case 108 => SwitchMeans(s, private, fields, final, p);
      case _ =>
        if 65 <= final <= 68 {
          StepMeans(s, private, fields, final, p);
        } else if final in {71, 100, 115, 117} {
          PlaceMeans(s, private, fields, final, p);
        } else if final in {72, 102} {
          PositionMeans(s, private, fields, final, p);
        } else {
          OtherMeans(s, private, fields, final, p);
        }
    }
  }

  /** ESC [ r ; c H puts the cursor on row r - 1 and column c - 1, counted from 0 and pulled onto the screen. */
  lemma CursorPosition(s: Screen, r: nat, c: nat, final: Byte)
    requires Fits(s) && |Digits(r)| + |Digits(c)| < 127 && final in {72, 102}
    requires s.rows <= 100000 && s.cols <= 100000
    ensures Moves(s, After(s, Sequence(Digits(r) + [59] + Digits(c), final)), r - 1, c - 1)
  {
    var fields: seq<Field> := [Some(r), Some(c)];
    TwoFields(r, c);
    ControlFunctions(s, false, fields, final);
  }

  lemma TwoFields(r: nat, c: nat)
    ensures Params(false, [Some(r), Some(c)]) == Digits(r) + [59] + Digits(c)
  {
    var texts := FieldTexts([Some(r), Some(c)]);
    assert texts == [Digits(r), Digits(c)] && texts[1..] == [Digits(c)];
    assert Join([Digits(c)]) == Digits(c);
  }

  lemma {:induction false} TextKeepsSaved(s: Screen, text: Text)
    requires Fits(s)
    ensures
      var t := Tokens.RunText(s, text);
      t.savedRow == s.savedRow && t.savedCol == s.savedCol && t.rows == s.rows && t.cols == s.cols
  {
    if text != [] {
      TextKeepsSaved(s, text[..|text| - 1]);
    }
  }

  /** Save, any text, restore: the cursor is back, and the cells are those the text leaves. */
  lemma RestoreReturns(s: Screen, text: Text)
    requires Fits(s) && 27 !in text
    ensures
      var m := After(s, [27, 91, 115] + text + [27, 91, 117]);
      && m.mode == Vt.Ground
      && m.screen.row == s.row && m.screen.col == s.col
      && m.screen.savedRow == s.row && m.screen.savedCol == s.col
      && m.screen.grid == After(s.(savedRow := s.row, savedCol := s.col), text).screen.grid
  {
    assert FieldTexts([None]) == [[]] && Params(false, [None]) == [];
    assert Sequence([], 115) == [27, 91, 115] && Sequence([], 117) == [27, 91, 117];
    ControlFunctions(s, false, [None], 115);
    var saved := s.(savedRow := s.row, savedCol := s.col);
    var g := Vt.Machine(s, Vt.Ground);
    Vt.FeedConcat(g, [27, 91, 115], text);
    Tokens.FeedText(saved, text);
    var t := Tokens.RunText(saved, text);
    TextKeepsSaved(saved, text);
    Vt.FeedConcat(g, [27, 91, 115] + text, [27, 91, 117]);
    ControlFunctions(t, false, [None], 117);
  }

  // ----- text

  /** The cursor is in the first column of the next line; past the last line the screen has moved up by one. */
  predicate NextLine(s: Screen, t: Screen) {
    if s.row + 1 < s.rows then t == s.(row := s.row + 1, col := 0)
    else if s.rows == 1 then t == s.(col := 0)
    else
      && t == s.(row := t.row, col := 0, grid := t.grid) && t.row == s.rows - 1
      && |s.grid| == |t.grid| == s.rows
      && (forall r :: 0 <= r < s.rows - 1 ==> t.grid[r] == s.grid[r + 1])
      && |t.grid[t.row]| == s.cols && forall c :: 0 <= c < s.cols ==> t.grid[t.row][c] == 32
  }

  /** t is s with the byte in the cell under the cursor. */
  predicate Written(s: Screen, t: Screen, b: Byte) {
    && t == s.(grid := t.grid) && |s.grid| == |t.grid| == s.rows
    && forall r :: 0 <= r < s.rows ==>
      && |s.grid[r]| == |t.grid[r]| == s.cols
      && forall c :: 0 <= c < s.cols ==> t.grid[r][c] == if r == s.row && c == s.col then b else s.grid[r][c]
  }

  /**
   One byte of text: carriage return, line feed, backspace, a tab to the next column
   that 8 divides or to the next line, a byte to show, or nothing. The last column wraps at once.
   */
  ghost predicate Types(s: Screen, b: Byte, m: Vt.Machine) {
    var tab: int := s.col + 8 - s.col % 8;
    if b == 13 then Moves(s, m, s.row, 0)
    else if b == 8 then Moves(s, m, s.row, s.col - 1)
    else if b == 10 || (b == 9 && tab >= s.cols) then m.mode == Vt.Ground && NextLine(s, m.screen)
    else if b == 9 then Moves(s, m, s.row, tab)
    else if 32 <= b < 127 || 128 <= b then
      m.mode == Vt.Ground && exists t ::
        Written(s, t, b) && if s.col + 1 < s.cols then m.screen == t.(col := s.col + 1) else NextLine(t, m.screen)
    else if b == 27 then m == Vt.Machine(s, Vt.Escape)
    else Unchanged(s, m)
  }

  lemma NextLineMeans(s: Screen)
    requires Fits(s)
    ensures NextLine(s, AdvanceLine(s))
  {
  }

  lemma WritingMeans(s: Screen, b: Byte)
    requires Fits(s) && Displayable(b)
    ensures Written(s, SetCell(s, s.row, s.col, b), b)
  {
    assert forall r :: 0 <= r < s.rows ==> RowFits(s.grid[r], s.cols);
  }

  /** What every byte outside escape sequences does. */
  lemma EveryByteTypes(s: Screen, b: Byte)
    requires Fits(s)
    ensures Types(s, b, After(s, [b]))
  {
    Tokens.FeedOne(Vt.Machine(s, Vt.Ground), b);
    NextLineMeans(s);
    if Displayable(b) {
      var t := SetCell(s, s.row, s.col, b);
      WritingMeans(s, b);
      NextLineMeans(t);
      assert Written(s, t, b);
    }
  }

  // ----- everything else

  /** Any other final byte, whatever its parameters, is skipped as a whole. */
  lemma OtherSequencesIgnored(s: Screen, params: Text, final: Byte)
    requires Fits(s) && Vt.NoFinal(params) && 0x40 <= final <= 0x7E
    requires final !in {65, 66, 67, 68, 71, 72, 74, 75, 88, 100, 102, 104, 108, 115, 117}
    ensures After(s, Sequence(params, final)) == Vt.Machine(s, Vt.Ground)
  {
    SequenceRuns(s, params, final);
  }

  /** Parameter bytes past the 127th are dropped. */
  lemma LongParametersCut(s: Screen, params: Text, final: Byte)
    requires Fits(s) && Vt.NoFinal(params) && 0x40 <= final <= 0x7E && 127 <= |params|
    ensures After(s, Sequence(params, final)) == After(s, Sequence(params[..127], final))
  {
    var cut := params[..127];
    assert Tokens.Truncated(params) == cut && Tokens.Truncated(cut) == cut;
    SequenceRuns(s, params, final);
    SequenceRuns(s, cut, final);
  }

  /** ESC with another byte is skipped, with the byte after it where it designates a character set. */
  lemma EscapePairsIgnored(s: Screen, b: Byte, designator: Byte)
    requires Fits(s) && b != 91
    ensures
      if b in {40, 41, 42, 43, 45, 46, 47}
      then After(s, [27, b, designator]) == Vt.Machine(s, Vt.Ground)
      else After(s, [27, b]) == Vt.Machine(s, Vt.Ground)
  {
    var g := Vt.Machine(s, Vt.Ground);
    Tokens.FeedTwo(g, 27, b);
    if Vt.IsCharsetIntro(b) {
      assert [27, b, designator] == [27, b] + [designator];
      Vt.FeedConcat(g, [27, b], [designator]);
      Tokens.FeedOne(Vt.Machine(s, Vt.Charset), designator);
    }
  }

  // ----- size

  /** A new terminal: the requested size, 48 by 160 where none is given, blank, cursors home. */
  lemma InitialIsBlank(rows: int, cols: int)
    ensures
      var s := InitialScreen(rows, cols);
      && s.rows == (if rows > 0 then rows else 48) && s.cols == (if cols > 0 then cols else 160)
      && !s.alt && s.row == 0 && s.col == 0 && s.savedRow == 0 && s.savedCol == 0
      && Erased(s, s, Everything)
  {
  }

  /** Resizing keeps every cell that is on both screens, blanks the rest and pulls both cursors onto the new one. */
  lemma ResizedByCell(s: Screen, rows: int, cols: int)
    requires Fits(s)
    ensures
      var t := Resized(s, rows, cols);
      && t.rows == (if rows > 0 then rows else 48) && t.cols == (if cols > 0 then cols else 160)
      && Lands(t.row, s.row, t.rows) && Lands(t.col, s.col, t.cols)
      && Lands(t.savedRow, s.savedRow, t.rows) && Lands(t.savedCol, s.savedCol, t.cols)
      && t.alt == s.alt && |t.grid| == t.rows
      && forall r :: 0 <= r < t.rows ==>
        && |t.grid[r]| == t.cols
        && forall c :: 0 <= c < t.cols ==>
          t.grid[r][c] == if r < s.rows && c < s.cols then s.grid[r][c] else 32
  {
    assert forall r :: 0 <= r < s.rows ==> RowFits(s.grid[r], s.cols);
  }
}
