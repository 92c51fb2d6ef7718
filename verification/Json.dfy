/**
 The vendored JSON library on values: what its printer writes and what its parser
 reads (strings as in section 7 of RFC 8259).
 */
module Json {
  import opened Bytes

  const NESTING_LIMIT: nat := 1000
  const INT_MAX: int := 0x7FFF_FFFF

  const QUOTE: Byte := 34
  const BACKSLASH: Byte := 92
  const LETTER_U: Byte := 117
  const COMMA: Byte := 44
  const COLON: Byte := 58
  const OPEN_BRACKET: Byte := 91
  const CLOSE_BRACKET: Byte := 93
  const OPEN_BRACE: Byte := 123
  const CLOSE_BRACE: Byte := 125

  const NULL_TEXT: Text := [110, 117, 108, 108]
  const FALSE_TEXT: Text := [102, 97, 108, 115, 101]
  const TRUE_TEXT: Text := [116, 114, 117, 101]

  datatype Json =
    | JNull | JFalse | JTrue
    | JNum(n: int)
    /** A number that is not an int, known by its text only. */
    | JDouble(text: Text)
    | JStr(s: Text)
    | JArr(items: seq<Json>)
    | JObj(members: seq<Member>)

  datatype Member = Member(name: Text, value: Json)

  /** Ints fit the int type, strings are C strings, no number is left uninterpreted. */
  predicate WellFormed(v: Json) {
    match v
    case JNum(n) => -INT_MAX - 1 <= n <= INT_MAX
    case JDouble(_) => false
    case JStr(s) => NUL !in s
    case JArr(items) => WellFormedItems(items)
    case JObj(ms) => WellFormedMembers(ms)
    case _ => true
  }

  predicate WellFormedItems(items: seq<Json>) {
    items == [] || (WellFormed(items[0]) && WellFormedItems(items[1..]))
  }

  predicate WellFormedMembers(ms: seq<Member>) {
    ms == [] || (NUL !in ms[0].name && WellFormed(ms[0].value) && WellFormedMembers(ms[1..]))
  }

  function Max(a: nat, b: nat): nat { if a < b then b else a }

  function Depth(v: Json): nat {
    match v
    case JArr(items) => 1 + ItemsDepth(items)
    case JObj(ms) => 1 + MembersDepth(ms)
    case _ => 0
  }

  function ItemsDepth(items: seq<Json>): nat {
    if items == [] then 0 else Max(Depth(items[0]), ItemsDepth(items[1..]))
  }

  function MembersDepth(ms: seq<Member>): nat {
    if ms == [] then 0 else Max(Depth(ms[0].value), MembersDepth(ms[1..]))
  }

  // ----- printing

  function EscapeByte(b: Byte): Text {
    if b == QUOTE then [BACKSLASH, QUOTE]
    else if b == BACKSLASH then [BACKSLASH, BACKSLASH]
    else if b == 8 then [BACKSLASH, 98]
    else if b == 12 then [BACKSLASH, 102]
    else if b == 10 then [BACKSLASH, 110]
    else if b == 13 then [BACKSLASH, 114]
    else if b == 9 then [BACKSLASH, 116]
    else if b < 32 then [BACKSLASH, LETTER_U, 48, 48, HexDigit(b / 16), HexDigit(b % 16)]
    else [b]
  }

  function Escape(s: Text): Text {
    if s == [] then [] else EscapeByte(s[0]) + Escape(s[1..])
  }

  function Quoted(s: Text): Text { [QUOTE] + Escape(s) + [QUOTE] }

  function Tabs(n: nat): (t: Text)
    ensures |t| == n && forall i :: 0 <= i < n ==> t[i] == TAB
  {
    seq(n, _ => TAB)
  }

  function ItemGap(fmt: bool): Text { if fmt then [SPACE] else [] }

  function KeyGap(fmt: bool): Text { if fmt then [TAB] else [] }

  function NewLine(fmt: bool): Text { if fmt then [LF] else [] }

  function Indent(fmt: bool, depth: nat): Text { if fmt then Tabs(depth) else [] }

  /** The text of a value printed at a nesting depth, formatted or not. */
  function Print(v: Json, fmt: bool, depth: nat): Text
    decreases v, 1
  {
    match v
    case JNull => NULL_TEXT
    case JFalse => FALSE_TEXT
    case JTrue => TRUE_TEXT
    case JNum(n) => IntText(n)
    case JDouble(text) => text
    case JStr(s) => Quoted(s)
    case JArr(items) => ArrayText(ItemTexts(items, fmt, depth + 1), ItemGap(fmt))
    case JObj(ms) => ObjectText(MemberTexts(ms, fmt, depth + 1), NewLine(fmt), Indent(fmt, depth))
  }

  function ItemTexts(items: seq<Json>, fmt: bool, depth: nat): (texts: seq<Text>)
    ensures |texts| == |items|
    decreases items, 0
  {
    if items == [] then [] else [Print(items[0], fmt, depth)] + ItemTexts(items[1..], fmt, depth)
  }

  /** Indentation, key, colon and the gap after it. */
  function KeyText(name: Text, fmt: bool, depth: nat): Text {
    Indent(fmt, depth) + Quoted(name) + ([COLON] + KeyGap(fmt))
  }

  /** The text in front of a member's value, and the text of the value. */
  datatype Entry = Entry(key: Text, text: Text)

  function MemberTexts(ms: seq<Member>, fmt: bool, depth: nat): (entries: seq<Entry>)
    ensures |entries| == |ms|
    decreases ms, 0
  {
    if ms == [] then []
    else
      [Entry(KeyText(ms[0].name, fmt, depth), Print(ms[0].value, fmt, depth))]
      + MemberTexts(ms[1..], fmt, depth)
  }

  function ArrayText(texts: seq<Text>, gap: Text): Text {
    [OPEN_BRACKET] + JoinItems(texts, gap) + [CLOSE_BRACKET]
  }

  function JoinItems(texts: seq<Text>, gap: Text): Text {
    if texts == [] then []
    else if |texts| == 1 then texts[0]
    else texts[0] + ([COMMA] + gap) + JoinItems(texts[1..], gap)
  }

  function ObjectText(entries: seq<Entry>, newLine: Text, indent: Text): Text {
    [OPEN_BRACE] + newLine + JoinMembers(entries, newLine) + indent + [CLOSE_BRACE]
  }

  function Comma(last: bool): Text { if last then [] else [COMMA] }

  function JoinMembers(entries: seq<Entry>, newLine: Text): Text {
    if entries == [] then []
    else
      entries[0].key + entries[0].text + (Comma(|entries| == 1) + newLine)
      + JoinMembers(entries[1..], newLine)
  }

  // ----- parsing: white space, strings

  function SkipWs(c: Text, i: nat): (j: nat)
    ensures i <= j
    ensures i < |c| ==> j < |c|
    ensures i >= |c| ==> j == i
    decreases |c| - i
  {
    if i >= |c| then i
    else if c[i] > 32 then i
    else if i + 1 == |c| then i
    else SkipWs(c, i + 1)
  }

  /** The position of the quote that ends the literal, searching from inside it. */
  function EndQuote(c: Text, j: nat): (r: Option<nat>)
    ensures r.Some? ==> j <= r.value < |c| && c[r.value] == QUOTE
    decreases |c| - j
  {
    if j >= |c| then None
    else if c[j] == QUOTE then Some(j)
    else if c[j] == BACKSLASH then if j + 1 >= |c| then None else EndQuote(c, j + 2)
    else EndQuote(c, j + 1)
  }

  function HexValue(b: Byte): (r: Option<int>)
    ensures r.Some? ==> 0 <= r.value < 16
  {
    if 48 <= b <= 57 then Some(b - 48)
    else if 65 <= b <= 70 then Some(b - 55)
    else if 97 <= b <= 102 then Some(b - 87)
    else None
  }

  /** The value of n hexadecimal digits. */
  function HexDigits(c: Text, p: nat, n: nat): (r: Option<int>)
    requires p + n <= |c|
    ensures r.Some? ==> 0 <= r.value < Pow16(n)
  {
    if n == 0 then Some(0)
    else
      match (HexDigits(c, p, n - 1), HexValue(c[p + n - 1]))
      case (Some(h), Some(d)) => Some(16 * h + d)
      case _ => None
  }

  /** parse_hex4: 0 if one of the four is not a digit. */
  function Hex4(c: Text, p: nat): (h: int)
    requires p + 4 <= |c|
    ensures 0 <= h < 0x1_0000
  {
    assert Pow16(4) == 0x1_0000;
    match HexDigits(c, p, 4)
    case Some(h) => h
    case None => 0
  }

  /** n continuation bytes, the low six bits last. */
  function Continuation(cp: nat, n: nat): (t: Text)
    ensures |t| == n
  {
    if n == 0 then [] else Continuation(cp / 64, n - 1) + [0x80 + cp % 64]
  }

  function Utf8(cp: int): (t: Text)
    requires 0 <= cp < 0x11_0000
    ensures 1 <= |t| <= 4
    ensures cp < 0x1_0000 ==> |t| <= 3
  {
    if cp < 0x80 then [cp]
    else if cp < 0x800 then [0xC0 + cp / 64] + Continuation(cp, 1)
    else if cp < 0x1_0000 then [0xE0 + cp / 4096] + Continuation(cp, 2)
    else [0xF0 + cp / 262144] + Continuation(cp, 3)
  }

  predicate IsHighSurrogate(h: int) { 0xD800 <= h <= 0xDBFF }
  predicate IsLowSurrogate(h: int) { 0xDC00 <= h <= 0xDFFF }

  /** A \u escape at p, possibly a surrogate pair: the bytes it stands for and its length. */
  function Utf16(c: Text, p: nat, end: nat): (r: Option<(Text, nat)>)
    requires end <= |c|
    ensures r.Some? ==>
      && (r.value.1 == 6 || r.value.1 == 12) && p + r.value.1 <= end
      && |r.value.0| <= (if r.value.1 == 6 then 3 else 4)
  {
    if end < p + 6 then None
    else
      var first := Hex4(c, p + 2);
      if IsLowSurrogate(first) then None
      else if IsHighSurrogate(first) then
        if end < p + 12 || c[p + 6] != BACKSLASH || c[p + 7] != LETTER_U then None
        else
          var second := Hex4(c, p + 8);
          if !IsLowSurrogate(second) then None
          else Some((Utf8(0x1_0000 + (first - 0xD800) * 1024 + (second - 0xDC00)), 12))
      else Some((Utf8(first), 6))
  }

  /** The byte that a two-character escape stands for. */
  function SimpleEscape(b: Byte): Option<Byte> {
    if b == 98 then Some(8)
    else if b == 102 then Some(12)
    else if b == 110 then Some(10)
    else if b == 114 then Some(13)
    else if b == 116 then Some(9)
    else if b == QUOTE || b == BACKSLASH || b == 47 then Some(b)
    else None
  }

  function Unescape(c: Text, p: nat, end: nat): Option<Text>
    requires end < |c|
    decreases end - p
  {
    if p >= end then Some([])
    else if c[p] != BACKSLASH then Then([c[p]], Unescape(c, p + 1, end))
    else if c[p + 1] == LETTER_U then
      match Utf16(c, p, end)
      case None => None
      case Some((bytes, n)) => Then(bytes, Unescape(c, p + n, end))
    else
      match SimpleEscape(c[p + 1])
      case None => None
      case Some(b) => Then([b], Unescape(c, p + 2, end))
  }

  function Then(a: Text, b: Option<Text>): Option<Text> {
    match b
    case None => None
    case Some(t) => Some(a + t)
  }

  function ParseString(c: Text, i: nat): (r: Option<(Text, nat)>)
    ensures r.Some? ==> i < r.value.1 <= |c|
  {
    if i >= |c| || c[i] != QUOTE then None
    else
      match EndQuote(c, i + 1)
      case None => None
      case Some(end) =>
        match Unescape(c, i + 1, end)
        case None => None
        case Some(t) => Some((CString(t), end + 1))
  }

  // ----- parsing: numbers

  predicate IsNumberByte(b: Byte) {
    IsDigit(b) || b == PLUS || b == MINUS || b == DOT || b == 101 || b == 69
  }

  function NumberRun(t: Text): (n: nat)
    ensures n <= |t|
    ensures forall i :: 0 <= i < n ==> IsNumberByte(t[i])
    ensures n < |t| ==> !IsNumberByte(t[n])
  {
    if t != [] && IsNumberByte(t[0]) then 1 + NumberRun(t[1..]) else 0
  }

  function SignLength(t: Text): nat {
    if t != [] && (t[0] == PLUS || t[0] == MINUS) then 1 else 0
  }

  /** Length of an exponent part, 0 if there is none. */
  function ExponentLength(t: Text): (n: nat)
    ensures n <= |t|
  {
    if t == [] || (t[0] != 101 && t[0] != 69) then 0
    else
      var s := SignLength(t[1..]);
      var n := DigitRun(t[1 + s..]);
      if n == 0 then 0 else 1 + s + n
  }

  /** Length of a point and the digits behind it, 0 if there is no point. */
  function FractionLength(t: Text): (n: nat)
    ensures n <= |t|
  {
    if t == [] || t[0] != DOT then 0 else 1 + DigitRun(t[1..])
  }

  /** The number with a sign, a whole part, a fraction and an exponent of these lengths. */
  function NumberOf(t: Text, s: nat, n: nat, f: nat, e: nat): Json
    requires s + n + f + e <= |t|
  {
    var value := if s > 0 && t[0] == MINUS then -Decimal(t[s..s + n]) else Decimal(t[s..s + n]);
    if f == 0 && e == 0 && -INT_MAX - 1 <= value <= INT_MAX then JNum(value) else JDouble(t[..s + n + f + e])
  }

  /** strtod: the number and how much of the text it takes. */
  function StrToD(t: Text): (r: Option<(Json, nat)>)
    ensures r.Some? ==> 0 < r.value.1 <= |t|
  {
    var s := SignLength(t);
    var n := DigitRun(t[s..]);
    var rest := t[s + n..];
    var f := FractionLength(rest);
    if n == 0 && f <= 1 then None
    else
      var e := ExponentLength(rest[f..]);
      Some((NumberOf(t, s, n, f, e), s + n + f + e))
  }

  function ParseNumber(c: Text, i: nat): (r: Option<(Json, nat)>)
    requires i <= |c|
    ensures r.Some? ==> i < r.value.1 <= |c|
  {
    match StrToD(c[i..][..NumberRun(c[i..])])
    case None => None
    case Some((v, n)) => Some((v, i + n))
  }

  // ----- parsing: values

  /** The text t lies at offset i. */
  predicate At(c: Text, i: nat, t: Text)
    decreases |t|
  {
    i + |t| <= |c| && (t == [] || (c[i] == t[0] && At(c, i + 1, t[1..])))
  }

  /** parse_value at offset i inside `depth` arrays and objects. */
  function ParseValue(c: Text, i: nat, depth: nat): (r: Option<(Json, nat)>)
    requires i <= |c|
    ensures r.Some? ==> i < r.value.1 <= |c|
    decreases |c| - i, 3
  {
    if At(c, i, NULL_TEXT) then Some((JNull, i + 4))
    else if At(c, i, FALSE_TEXT) then Some((JFalse, i + 5))
    else if At(c, i, TRUE_TEXT) then Some((JTrue, i + 4))
    else if i >= |c| then None
    else if c[i] == QUOTE then
      match ParseString(c, i)
      case None => None
      case Some((s, k)) => Some((JStr(s), k))
    else if c[i] == MINUS || IsDigit(c[i]) then ParseNumber(c, i)
    else if c[i] == OPEN_BRACKET then ParseArray(c, i, depth)
    else if c[i] == OPEN_BRACE then ParseObject(c, i, depth)
    else None
  }

  function ParseArray(c: Text, i: nat, depth: nat): (r: Option<(Json, nat)>)
    requires i < |c|
    ensures r.Some? ==> i < r.value.1 <= |c|
    decreases |c| - i, 2
  {
    if depth >= NESTING_LIMIT then None
    else
      var j := SkipWs(c, i + 1);
      if j >= |c| then None
      else if c[j] == CLOSE_BRACKET then Some((JArr([]), j + 1))
      else
        match ParseItems(c, j - 1, depth + 1)
        case None => None
        case Some((items, k)) => Some((JArr(items), k + 1))
  }

  /** The elements after the bracket or comma at offset i, up to the closing bracket. */
  function ParseItems(c: Text, i: nat, depth: nat): (r: Option<(seq<Json>, nat)>)
    requires i < |c|
    ensures r.Some? ==> i < r.value.1 < |c|
    decreases |c| - i, 1
  {
    match ParseItem(c, i, depth)
    case None => None
    case Some((v, k0)) =>
      var k := SkipWs(c, k0);
      if k >= |c| then None
      else if c[k] == COMMA then
        (match ParseItems(c, k, depth)
         case None => None
         case Some((rest, end)) => Some(([v] + rest, end)))
      else if c[k] == CLOSE_BRACKET then Some(([v], k))
      else None
  }

  /** The element after the bracket or comma at offset i. */
  function ParseItem(c: Text, i: nat, depth: nat): (r: Option<(Json, nat)>)
    requires i < |c|
    ensures r.Some? ==> i < r.value.1 <= |c|
    decreases |c| - i, 0
  {
    ParseValue(c, SkipWs(c, i + 1), depth)
  }

  function ParseObject(c: Text, i: nat, depth: nat): (r: Option<(Json, nat)>)
    requires i < |c|
    ensures r.Some? ==> i < r.value.1 <= |c|
    decreases |c| - i, 2
  {
    if depth >= NESTING_LIMIT then None
    else
      var j := SkipWs(c, i + 1);
      if j >= |c| then None
      else if c[j] == CLOSE_BRACE then Some((JObj([]), j + 1))
      else
        match ParseMembers(c, j - 1, depth + 1)
        case None => None
        case Some((ms, k)) => Some((JObj(ms), k + 1))
  }

  function ParseMembers(c: Text, i: nat, depth: nat): (r: Option<(seq<Member>, nat)>)
    requires i < |c|
    ensures r.Some? ==> i < r.value.1 < |c|
    decreases |c| - i, 1
  {
    match ParseMember(c, i, depth)
    case None => None
    case Some((m, e0)) =>
      var e := SkipWs(c, e0);
      if e >= |c| then None
      else if c[e] == COMMA then
        (match ParseMembers(c, e, depth)
         case None => None
         case Some((rest, end)) => Some(([m] + rest, end)))
      else if c[e] == CLOSE_BRACE then Some(([m], e))
      else None
  }

  /** The name and the value after the brace or comma at offset i. */
  function ParseMember(c: Text, i: nat, depth: nat): (r: Option<(Member, nat)>)
    requires i < |c|
    ensures r.Some? ==> i < r.value.1 <= |c|
    decreases |c| - i, 0
  {
    if i + 1 >= |c| then None
    else
      match ParseString(c, SkipWs(c, i + 1))
      case None => None
      case Some((name, k0)) =>
        var k := SkipWs(c, k0);
        if k >= |c| || c[k] != COLON then None
        else
          match ParseValue(c, SkipWs(c, k + 1), depth)
          case None => None
          case Some((v, e)) => Some((Member(name, v), e))
  }

  /** cJSON_Parse on a C string: its terminator is part of the buffer. */
  function Parse(text: Text): Option<Json> {
    var c := CString(text) + [NUL];
    var start := if |c| > 4 && c[..3] == [0xEF, 0xBB, 0xBF] then 3 else 0;
    match ParseValue(c, SkipWs(c, start), 0)
    case None => None
    case Some((v, _)) => Some(v)
  }
}
