/**
 Bytes, C strings and the few C library functions (in the C locale) that the
 terminal parser and the rule evaluator rely on.
 */
module Bytes {

  type Byte = b: int | 0 <= b < 256

  /** A C string or a raw byte buffer. */
  type Text = seq<Byte>

  datatype Option<+T> = None | Some(value: T)

  const NUL: Byte := 0
  const TAB: Byte := 9
  const LF: Byte := 10
  const SPACE: Byte := 32
  const PLUS: Byte := 43
  const MINUS: Byte := 45
  const DOT: Byte := 46
  const ZERO: Byte := 48
  const NINE: Byte := 57
  const SEMICOLON: Byte := 59

  predicate IsDigit(b: Byte) { ZERO <= b <= NINE }

  /** isspace: TAB, LF, VT, FF, CR and the blank. */
  predicate IsSpace(b: Byte) { b == SPACE || 9 <= b <= 13 }

  /** The C string stored in a buffer: everything before its first NUL. */
  function CString(t: Text): (s: Text)
    ensures s <= t && NUL !in s
    ensures |s| < |t| ==> t[|s|] == NUL
  {
    if t == [] || t[0] == NUL then [] else [t[0]] + CString(t[1..])
  }

  function SkipSpaces(t: Text): (r: Text)
    ensures |r| <= |t|
  {
    if t != [] && IsSpace(t[0]) then SkipSpaces(t[1..]) else t
  }

  /** Length of the leading digit run. */
  function DigitRun(t: Text): (n: nat)
    ensures n <= |t|
  {
    if t != [] && IsDigit(t[0]) then 1 + DigitRun(t[1..]) else 0
  }

  lemma {:induction false} DigitRunIsMaximal(t: Text)
    ensures forall i :: 0 <= i < DigitRun(t) ==> IsDigit(t[i])
    ensures DigitRun(t) < |t| ==> !IsDigit(t[DigitRun(t)])
  {
    if t != [] && IsDigit(t[0]) {
      DigitRunIsMaximal(t[1..]);
    }
  }

  /** Value of a decimal numeral; anything but a digit would count as zero. */
  function Decimal(t: Text): (v: int)
    ensures 0 <= v
  {
    if t == [] then 0
    else
      var last := t[|t| - 1];
      10 * Decimal(t[..|t| - 1]) + if IsDigit(last) then last - ZERO else 0
  }

  /** The value of the leading digits, None without any. */
  function Numeral(t: Text): Option<int> {
    var n := DigitRun(t);
    if n == 0 then None else Some(Decimal(t[..n]))
  }

  /**
   strtol in base 10, None when no digits were consumed. The result is not
   saturated at the width of long: every caller clamps it far below that.
   */
  function StrToL(t: Text): Option<int> {
    var s := SkipSpaces(t);
    if s == [] || (s[0] != MINUS && s[0] != PLUS) then Numeral(s)
    else
      match Numeral(s[1..])
      case None => None
      case Some(v) => Some(if s[0] == MINUS then -v else v)
  }

  function Min(a: int, b: int): int { if a < b then a else b }

  function Clamp(value: int, minimum: int, maximum: int): int {
    if value < minimum then minimum else if value > maximum then maximum else value
  }

  /** A lower-case hexadecimal digit. */
  function HexDigit(d: int): Byte
    requires 0 <= d < 16
  {
    if d < 10 then 48 + d else 87 + d
  }

  function Pow16(k: nat): nat { if k == 0 then 1 else 16 * Pow16(k - 1) }

  function One(b: bool): nat { if b then 1 else 0 }

  // ----- decimal text

  function Digits(n: nat): (t: Text)
    ensures 1 <= |t| && forall i :: 0 <= i < |t| ==> IsDigit(t[i])
  {
    if n < 10 then [48 + n] else Digits(n / 10) + [48 + n % 10]
  }

  /** "%d" */
  function IntText(n: int): Text { if n < 0 then [MINUS] + Digits(-n) else Digits(n) }

  lemma {:induction false} DecimalDigits(n: nat)
    ensures Decimal(Digits(n)) == n
  {
    var t := Digits(n);
    if n >= 10 {
      DecimalDigits(n / 10);
      assert t[..|t| - 1] == Digits(n / 10);
    } else {
      assert t[..0] == [] && Decimal([]) == 0;
    }
  }

  lemma {:induction false} FullRun(t: Text)
    requires forall i :: 0 <= i < |t| ==> IsDigit(t[i])
    ensures DigitRun(t) == |t|
  {
    if t != [] {
      FullRun(t[1..]);
    }
  }

  function Pow10(k: nat): nat { if k == 0 then 1 else 10 * Pow10(k - 1) }

  /** The positional value of a numeral, from the front. */
  function PlaceValue(t: Text): int {
    if t == [] then 0 else (t[0] - 48) * Pow10(|t| - 1) + PlaceValue(t[1..])
  }

  lemma TimesTen(x: int, y: int)
    ensures x * (10 * y) == 10 * (x * y)
  {
  }

  lemma {:induction false} AppendDigit(t: Text, b: Byte)
    ensures PlaceValue(t + [b]) == 10 * PlaceValue(t) + b - 48
  {
    if t != [] {
      assert (t + [b])[1..] == t[1..] + [b];
      AppendDigit(t[1..], b);
      TimesTen(t[0] as int - 48, Pow10(|t| - 1));
    }
  }

  /** The printed digits are the decimal numeral of the number, without a leading zero. */
  lemma {:induction false} DigitsArePlaces(n: nat)
    ensures PlaceValue(Digits(n)) == n
    ensures 10 <= n ==> Digits(n)[0] != 48
    ensures n < 10 <==> |Digits(n)| == 1
  {
    if n >= 10 {
      DigitsArePlaces(n / 10);
      AppendDigit(Digits(n / 10), 48 + n % 10);
    }
  }

  /** The leading digits of a number are themselves the digits of a smaller one. */
  lemma {:induction false} LeadingDigits(n: nat, k: nat) returns (m: nat)
    requires 1 <= k <= |Digits(n)|
    ensures m <= n && Digits(m) == Digits(n)[..k]
  {
    if k == |Digits(n)| {
      m := n;
      assert Digits(n)[..k] == Digits(n);
    } else {
      m := LeadingDigits(n / 10, k);
      assert Digits(n)[..k] == Digits(n / 10)[..k];
    }
  }

  lemma NumeralReads(u: Text)
    requires u != [] && forall i :: 0 <= i < |u| ==> IsDigit(u[i])
    ensures Numeral(u) == Some(Decimal(u))
  {
    FullRun(u);
    assert u[..|u|] == u;
  }

  lemma Unsigned(u: Text)
    requires u != [] && IsDigit(u[0])
    ensures StrToL(u) == Numeral(u)
  {
    NoSpaces(u);
  }

  lemma Signed(t: Text, v: int)
    requires t != [] && t[0] == MINUS && Numeral(t[1..]) == Some(v)
    ensures StrToL(t) == Some(-v)
  {
    NoSpaces(t);
  }

  lemma NoSpaces(t: Text)
    requires t != [] && !IsSpace(t[0])
    ensures SkipSpaces(t) == t
  {
  }

  lemma DigitsRead(n: nat)
    ensures StrToL(Digits(n)) == Some(n)
  {
    NumeralReads(Digits(n));
    DecimalDigits(n);
    Unsigned(Digits(n));
  }
}
