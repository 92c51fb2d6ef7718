/** JSON numbers (section 6 of RFC 8259) that are not ints: each is read whole, as an opaque value. */
module JsonNumbers {
  import opened Bytes
  import opened Json
  import R = JsonRoundTrip

  /** A sign, a whole part, and a fraction or an exponent, or both. */
  datatype Real = Real(negative: bool, whole: Text, fraction: Option<Text>, exponent: Exponent)

  datatype Exponent = NoExponent | Exponent(letter: Byte, sign: Text, digits: Text)

  predicate AreDigits(t: Text) { t != [] && forall i :: 0 <= i < |t| ==> 48 <= t[i] <= 57 }

  predicate IsExponent(x: Exponent) {
    x.NoExponent? || (x.letter in {69, 101} && x.sign in {[], [43], [45]} && AreDigits(x.digits))
  }

  /** Its text is not that of an int. */
  predicate IsReal(r: Real) {
    && AreDigits(r.whole) && (r.fraction.Some? ==> AreDigits(r.fraction.value)) && IsExponent(r.exponent)
    && (r.fraction.None? && r.exponent.NoExponent? ==>
          PlaceValue(r.whole) > (if r.negative then 0x8000_0000 else 0x7FFF_FFFF))
  }

  function SignText(r: Real): Text { if r.negative then [45] else [] }

  function FractionText(r: Real): Text { if r.fraction.None? then [] else [46] + r.fraction.value }

  function ExponentText(x: Exponent): Text { if x.NoExponent? then [] else [x.letter] + x.sign + x.digits }

  function RealText(r: Real): Text { SignText(r) + r.whole + FractionText(r) + ExponentText(r.exponent) }

  lemma {:induction false} RunEnds(a: Text, b: Text)
    requires (forall i :: 0 <= i < |a| ==> IsDigit(a[i])) && (b == [] || !IsDigit(b[0]))
    ensures DigitRun(a + b) == |a|
  {
    if a == [] {
      assert a + b == b;
    } else {
      assert (a + b)[1..] == a[1..] + b;
      RunEnds(a[1..], b);
    }
  }

  lemma {:induction false} DecimalIsPlaceValue(t: Text)
    requires forall i :: 0 <= i < |t| ==> IsDigit(t[i])
    ensures Decimal(t) == PlaceValue(t)
  {
    if t != [] {
      var n := |t| - 1;
      DecimalIsPlaceValue(t[..n]);
      AppendDigit(t[..n], t[n]);
      assert t == t[..n] + [t[n]];
    }
  }

  lemma ExponentFound(letter: Byte, sign: Text, digits: Text)
    requires letter in {69, 101} && sign in {[], [43], [45]} && AreDigits(digits)
    ensures ExponentLength([letter] + sign + digits) == 1 + |sign| + |digits|
  {
    var t := [letter] + sign + digits;
    assert IsDigit(digits[0]) && t[1..] == sign + digits;
    assert SignLength(sign + digits) == |sign|;
    assert t[1 + |sign|..] == digits + [];
    RunEnds(digits, []);
  }

  lemma ExponentRead(x: Exponent)
    requires IsExponent(x)
    ensures ExponentLength(ExponentText(x)) == |ExponentText(x)|
    ensures ExponentText(x) == [] || (!IsDigit(ExponentText(x)[0]) && ExponentText(x)[0] != 46)
    ensures x.Exponent? <==> ExponentText(x) != []
  {
    if x.Exponent? {
      ExponentFound(x.letter, x.sign, x.digits);
    }
  }

  /** Sign and whole part, as strtod finds them, and what is behind them. */
  predicate Head(t: Text, s: nat, n: nat, whole: Text, rest: Text) {
    && t != [] && (t[0] == MINUS <==> s == 1) && s + n <= |t|
    && SignLength(t) == s && DigitRun(t[s..]) == n > 0 && t[s..s + n] == whole && t[s + n..] == rest
  }

  lemma HeadFound(t: Text, sign: Text, whole: Text, rest: Text)
    requires sign in {[], [45]} && AreDigits(whole) && (rest == [] || !IsDigit(rest[0]))
    requires t == sign + whole + rest
    ensures Head(t, |sign|, |whole|, whole, rest)
  {
    assert IsDigit(whole[0]) && t[|sign|] == whole[0];
    assert t[|sign|..] == whole + rest;
    RunEnds(whole, rest);
  }

  lemma FractionFound(digits: Text, exponent: Text) returns (rest: Text)
    requires AreDigits(digits) && (exponent == [] || !IsDigit(exponent[0]))
    ensures rest == [46] + digits + exponent && FractionLength(rest) == 1 + |digits| && rest[1 + |digits|..] == exponent
  {
    rest := [46] + digits + exponent;
    assert rest[1..] == digits + exponent;
    RunEnds(digits, exponent);
  }

  /** What is behind the whole part: a fraction of so many bytes and an exponent. */
  predicate Tail(rest: Text, f: nat, x: Text) {
    && f + |x| == |rest| && FractionLength(rest) == f && rest[f..] == x && ExponentLength(x) == |x|
  }

  lemma HeadAndTail(t: Text, s: nat, n: nat, whole: Text, rest: Text, f: nat, x: Text)
    requires Head(t, s, n, whole, rest) && Tail(rest, f, x)
    requires f > 0 || x != [] || Decimal(whole) > (if s == 1 then 0x8000_0000 else 0x7FFF_FFFF)
    ensures StrToD(t) == Some((JDouble(t), |t|))
  {
    NotInt(t, s, n, whole, f, |x|);
    assert StrToD(t) == Some((NumberOf(t, s, n, f, |x|), |t|));
  }

  lemma NotInt(t: Text, s: nat, n: nat, whole: Text, f: nat, e: nat)
    requires s + n + f + e == |t| && t[s..s + n] == whole && (s == 1 ==> t != [] && t[0] == MINUS) && s <= 1
    requires f > 0 || e > 0 || Decimal(whole) > (if s == 1 then 0x8000_0000 else 0x7FFF_FFFF)
    ensures NumberOf(t, s, n, f, e) == JDouble(t)
  {
    assert t[..|t|] == t;
  }

  lemma RealHead(r: Real) returns (rest: Text, f: nat)
    requires IsReal(r)
    ensures Head(RealText(r), |SignText(r)|, |r.whole|, r.whole, rest) && Tail(rest, f, ExponentText(r.exponent))
    ensures f > 0 <==> r.fraction.Some?
  {
    var x := ExponentText(r.exponent);
    ExponentRead(r.exponent);
    if r.fraction.None? {
      rest, f := x, 0;
    } else {
      rest := FractionFound(r.fraction.value, x);
      f := 1 + |r.fraction.value|;
    }
    assert SignText(r) + r.whole + FractionText(r) + x == SignText(r) + r.whole + rest;
    HeadFound(RealText(r), SignText(r), r.whole, rest);
  }

  lemma RealBytes(r: Real)
    requires IsReal(r)
    ensures RealText(r) != [] && (RealText(r)[0] == MINUS || IsDigit(RealText(r)[0]))
    ensures forall i :: 0 <= i < |RealText(r)| ==> IsNumberByte(RealText(r)[i])
  {
    assert IsDigit(r.whole[0]);
  }

  lemma RealReads(c: Text, r: Real, depth: nat)
    requires IsReal(r) && depth <= NESTING_LIMIT
    ensures R.Reads(c, RealText(r), JDouble(RealText(r)), depth)
  {
    var rest, f := RealHead(r);
    DecimalIsPlaceValue(r.whole);
    ExponentRead(r.exponent);
    RealBytes(r);
    HeadReads(c, RealText(r), |SignText(r)|, |r.whole|, r.whole, rest, f, ExponentText(r.exponent), depth);
  }

  lemma HeadReads(c: Text, t: Text, s: nat, n: nat, whole: Text, rest: Text, f: nat, x: Text, depth: nat)
    requires Head(t, s, n, whole, rest) && Tail(rest, f, x)
    requires f > 0 || x != [] || Decimal(whole) > (if s == 1 then 0x8000_0000 else 0x7FFF_FFFF)
    requires depth <= NESTING_LIMIT && (t[0] == MINUS || IsDigit(t[0]))
    requires forall i :: 0 <= i < |t| ==> IsNumberByte(t[i])
    ensures R.Reads(c, t, JDouble(t), depth)
  {
    HeadAndTail(t, s, n, whole, rest, f, x);
    NumberTextReads(c, t, JDouble(t), depth);
  }

  /** What strtod takes as one number, the parser reads as that number. */
  lemma NumberTextReads(c: Text, t: Text, v: Json, depth: nat)
    requires t != [] && (t[0] == MINUS || IsDigit(t[0])) && StrToD(t) == Some((v, |t|)) && Depth(v) == 0
    requires depth <= NESTING_LIMIT && forall i :: 0 <= i < |t| ==> IsNumberByte(t[i])
    ensures R.Reads(c, t, v, depth)
  {
    forall i: nat | At(c, i, t) && i + |t| < |c| && !IsNumberByte(c[i + |t|])
      ensures ParseValue(c, i, depth) == Some((v, i + |t|))
    {
      NumberTextAt(c, i, t, v);
      R.AtByte(c, i, t, 0);
      R.NoKeyword(c, i);
    }
  }

  lemma NumberTextAt(c: Text, i: nat, t: Text, v: Json)
    requires At(c, i, t) && i + |t| < |c| && !IsNumberByte(c[i + |t|]) && StrToD(t) == Some((v, |t|))
    requires forall k :: 0 <= k < |t| ==> IsNumberByte(t[k])
    ensures ParseNumber(c, i) == Some((v, i + |t|))
  {
    var u := RunTaken(c, i, t);
    assert StrToD(u) == Some((v, |t|));
  }

  lemma RunTaken(c: Text, i: nat, t: Text) returns (u: Text)
    requires At(c, i, t) && i + |t| < |c| && !IsNumberByte(c[i + |t|])
    requires forall k :: 0 <= k < |t| ==> IsNumberByte(t[k])
    ensures u == c[i..][..NumberRun(c[i..])] == t
  {
    R.RunOf(c, i, t);
    R.SliceAt(c, i, t);
    u := c[i..][..|t|];
    assert u == c[i..i + |t|];
  }
}
