/**
 The incremental control-sequence parser on values: one byte at a time, with the
 pending part of an escape sequence kept in the mode.
 */
module Vt {
  import opened Bytes
  import opened Display

  const ESC: Byte := 27
  const CR: Byte := 13
  const BS: Byte := 8
  const BRACKET: Byte := 91
  const QUESTION: Byte := 63

  /** sizeof(csi_buf) - 1 */
  const CSI_MAX: nat := 127
  /** sizeof(token) - 1 */
  const TOKEN_MAX: nat := 31

  datatype Mode = Ground | Escape | Charset | Csi(buf: Text)

  datatype Machine = Machine(screen: Screen, mode: Mode)

  predicate Valid(m: Machine) {
    && Fits(m.screen)
    && (m.mode.Csi? ==> |m.mode.buf| <= CSI_MAX && NoFinal(m.mode.buf))
  }

  /** Final bytes of a control sequence (section 5.4 of ECMA-48). */
  predicate IsFinal(b: Byte) { 0x40 <= b <= 0x7E }

  predicate NoFinal(t: Text) { forall i :: 0 <= i < |t| ==> !IsFinal(t[i]) }

  predicate IsCharsetIntro(b: Byte) {
    b == 40 || b == 41 || b == 42 || b == 43 || b == 45 || b == 46 || b == 47
  }

  // ----- parameters

  function SepAt(t: Text): (k: nat)
    ensures k <= |t|
    ensures forall i :: 0 <= i < k ==> t[i] != SEMICOLON
    ensures k < |t| ==> t[k] == SEMICOLON
  {
    if t == [] || t[0] == SEMICOLON then 0 else 1 + SepAt(t[1..])
  }

  function Split(t: Text): (ts: seq<Text>)
    ensures 1 <= |ts|
    decreases |t|
  {
    var k := SepAt(t);
    if k == |t| then [t] else [t[..k]] + Split(t[k + 1..])
  }

  function IntToken(token: Text, default: int): int {
    match StrToL(token[..Min(|token|, TOKEN_MAX)])
    case None => default
    case Some(v) => if v < 0 then default else Min(v, 100000)
  }

  /** The body of a parameter string: without the private marker. */
  function Body(params: Text): Text {
    if params != [] && params[0] == QUESTION then params[1..] else params
  }

  /** The value of the token at an index, the default past the last one. */
  function TokenValue(tokens: seq<Text>, index: nat, default: int): int {
    if tokens == [] then default
    else if index == 0 then IntToken(tokens[0], default)
    else TokenValue(tokens[1..], index - 1, default)
  }

  function Param(params: Text, index: nat, default: int): int {
    if params == [] then default else TokenValue(Split(Body(params)), index, default)
  }

  /** One of the tokens reads as the mode. */
  predicate AnyToken(tokens: seq<Text>, mode: int) {
    tokens != [] && (IntToken(tokens[0], -1) == mode || AnyToken(tokens[1..], mode))
  }

  predicate HasMode(params: Text, mode: int) {
    params != [] && params[0] == QUESTION && AnyToken(Split(params[1..]), mode)
  }

  predicate SwitchesScreen(params: Text) {
    HasMode(params, 1049) || HasMode(params, 1047) || HasMode(params, 47)
  }

  // ----- control sequences

  function ProcessCsi(s: Screen, params: Text, final: Byte): (r: Screen)
    requires Fits(s)
    ensures Fits(r)
  {
    var n := Param(params, 0, 1);
    if final == 65 then MoveTo(s, s.row - n, s.col)                                    // A
    else if final == 66 then MoveTo(s, s.row + n, s.col)                               // B
    else if final == 67 then MoveTo(s, s.row, s.col + n)                               // C
    else if final == 68 then MoveTo(s, s.row, s.col - n)                               // D
    else if final == 71 then MoveTo(s, s.row, n - 1)                                   // G
    else if final == 100 then MoveTo(s, n - 1, s.col)                                  // d
    else if final == 72 || final == 102 then MoveTo(s, n - 1, Param(params, 1, 1) - 1) // H, f
    else if final == 74 then EraseDisplay(s, Param(params, 0, 0))                      // J
    else if final == 75 then EraseLine(s, Param(params, 0, 0))                         // K
    else if final == 88 then EraseInLine(s, s.col, s.col + (if n <= 0 then 1 else n) - 1) // X
    else if final == 115 then s.(savedRow := s.row, savedCol := s.col)                 // s
    else if final == 117 then MoveTo(s, s.savedRow, s.savedCol)                        // u
    else if final == 104 && SwitchesScreen(params) then ClearHome(s.(alt := true))     // h
    else if final == 108 && SwitchesScreen(params) then ClearHome(s.(alt := false))    // l
    else s
  }

  function EraseDisplay(s: Screen, mode: int): (r: Screen)
    requires Fits(s)
    ensures Fits(r)
  {
    if mode == 2 || mode == 3 then ClearHome(s)
    else if mode == 0 then EraseBelow(s)
    else s
  }

  function EraseLine(s: Screen, mode: int): (r: Screen)
    requires Fits(s)
    ensures Fits(r)
  {
    if mode == 0 then EraseInLine(s, s.col, s.cols - 1)
    else if mode == 1 then EraseInLine(s, 0, s.col)
    else if mode == 2 then EraseInLine(s, 0, s.cols - 1)
    else s
  }

  // ----- text

  function NextTab(col: nat): nat { (col / 8 + 1) * 8 }

  /** A byte outside escape sequences, ESC excepted. */
  function TextByte(s: Screen, b: Byte): (r: Screen)
    requires Fits(s)
    ensures Fits(r)
  {
    if b == CR then s.(col := 0)
    else if b == LF then AdvanceLine(s)
    else if b == BS then MoveTo(s, s.row, s.col - 1)
    else if b == TAB then
      if NextTab(s.col) >= s.cols then AdvanceLine(s) else s.(col := NextTab(s.col))
    else if Displayable(b) then PutChar(s, b)
    else s
  }

  // ----- the machine

  function Step(m: Machine, b: Byte): (r: Machine)
    requires Valid(m)
    ensures Valid(r)
  {
    match m.mode
    case Charset => m.(mode := Ground)
    case Csi(buf) =>
      if IsFinal(b) then Machine(ProcessCsi(m.screen, CString(buf), b), Ground)
      else if |buf| < CSI_MAX then m.(mode := Csi(buf + [b]))
      else m
    case Escape =>
      if b == BRACKET then m.(mode := Csi([]))
      else if IsCharsetIntro(b) then m.(mode := Charset)
      else m.(mode := Ground)
    case Ground =>
      if b == ESC then m.(mode := Escape)
      else m.(screen := TextByte(m.screen, b))
  }

  function Feed(m: Machine, bytes: Text): (r: Machine)
    requires Valid(m)
    ensures Valid(r)
  {
    if bytes == [] then m
    else Step(Feed(m, bytes[..|bytes| - 1]), bytes[|bytes| - 1])
  }

  lemma FeedNext(m: Machine, bytes: Text, i: nat)
    requires Valid(m) && i < |bytes|
    ensures Feed(m, bytes[..i + 1]) == Step(Feed(m, bytes[..i]), bytes[i])
  {
    assert bytes[..i + 1][..i] == bytes[..i];
  }

  lemma {:induction false} FeedConcat(m: Machine, a: Text, b: Text)
    requires Valid(m)
    ensures Feed(m, a + b) == Feed(Feed(m, a), b)
    decreases |b|
  {
    if b == [] {
      assert a + b == a;
    } else {
      var n := |b| - 1;
      assert (a + b)[..|a + b| - 1] == a + b[..n];
      FeedConcat(m, a, b[..n]);
    }
  }
}
