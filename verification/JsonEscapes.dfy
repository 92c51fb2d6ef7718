/**
 What string literals mean (section 7 of RFC 8259): plain bytes, the eight short
 escapes, and code points written as \u escapes, alone or as a surrogate pair.
 */
module JsonEscapes {
  import opened Bytes
  import opened Json
  import opened JsonStrings
  import opened JsonRoundTrip

  /** A piece of a literal. The case of each hexadecimal digit is free. */
  datatype Piece =
    | Plain(b: Byte)
    | Short(letter: Byte)
    | Code(cp: int, upper: seq<bool>)
    /** \u and four bytes that are not all hexadecimal digits. */
    | Malformed(four: Text)

  predicate IsPiece(piece: Piece) {
    match piece
    case Plain(b) => b != 34 && b != 92
    case Short(letter) => letter in SHORT
    case Code(cp, upper) =>
      && (0 <= cp < 0xD800 || 0xE000 <= cp < 0x11_0000)
      && |upper| == if cp < 0x1_0000 then 4 else 8
    case Malformed(four) =>
      && |four| == 4 && 34 !in four && 92 !in four
      && exists k :: 0 <= k < 4 && !IsHexDigit(four[k])
  }

  predicate IsHexDigit(b: Byte) { 48 <= b <= 57 || 65 <= b <= 70 || 97 <= b <= 102 }

  /** Backspace, form feed, line feed, carriage return, tab; quote, backslash and slash themselves. */
  const SHORT: map<Byte, Byte> := map[98 := 8, 102 := 12, 110 := 10, 114 := 13, 116 := 9, 34 := 34, 92 := 92, 47 := 47]

  // ----- how pieces are written

  function Hex(d: int, upper: bool): Byte
    requires 0 <= d < 16
  {
    if d < 10 then 48 + d else if upper then 55 + d else 87 + d
  }

  function FourHex(v: int, upper: seq<bool>): (t: Text)
    requires 0 <= v < 0x1_0000 && |upper| == 4
    ensures |t| == 4
  {
    [Hex(v / 16 / 16 / 16, upper[0]), Hex(v / 16 / 16 % 16, upper[1]), Hex(v / 16 % 16, upper[2]), Hex(v % 16, upper[3])]
  }

  function Unit(v: int, upper: seq<bool>): (t: Text)
    requires 0 <= v < 0x1_0000 && |upper| == 4
    ensures |t| == 6
  {
    [92, 117] + FourHex(v, upper)
  }

  /** A code point past the first 65536 is split into ten high and ten low bits. */
  function Written(piece: Piece): Text
    requires IsPiece(piece)
  {
    match piece
    case Plain(b) => [b]
    case Short(letter) => [92, letter]
    case Code(cp, upper) =>
      if cp < 0x1_0000 then Unit(cp, upper)
      else
        Unit(0xD800 + (cp - 0x1_0000) / 1024, upper[..4]) + Unit(0xDC00 + (cp - 0x1_0000) % 1024, upper[4..])
    case Malformed(four) => [92, 117] + four
  }

  predicate ArePieces(pieces: seq<Piece>) { forall k :: 0 <= k < |pieces| ==> IsPiece(pieces[k]) }

  function Concat(texts: seq<Text>): Text {
    if texts == [] then [] else texts[0] + Concat(texts[1..])
  }

  function WrittenEach(pieces: seq<Piece>): (texts: seq<Text>)
    requires ArePieces(pieces)
    ensures |texts| == |pieces| && forall k :: 0 <= k < |texts| ==> texts[k] == Written(pieces[k])
  {
    seq(|pieces|, k requires 0 <= k < |pieces| => Written(pieces[k]))
  }

  function WrittenAll(pieces: seq<Piece>): Text
    requires ArePieces(pieces)
  {
    Concat(WrittenEach(pieces))
  }

  // ----- what pieces mean

  /** A malformed escape stands for the code point 0. */
  predicate StandsFor(t: Text, piece: Piece)
    requires IsPiece(piece)
  {
    match piece
    case Plain(b) => t == [b]
    case Short(letter) => t == [SHORT[letter]]
    case Code(cp, _) =>
      && IsUtf8(t) && CodePoint(t) == cp
      && |t| == if cp < 0x80 then 1 else if cp < 0x800 then 2 else if cp < 0x1_0000 then 3 else 4
    case Malformed(_) => t == [0]
  }

  predicate StandFor(texts: seq<Text>, pieces: seq<Piece>)
    requires ArePieces(pieces)
  {
    |texts| == |pieces| && forall k :: 0 <= k < |pieces| ==> StandsFor(texts[k], pieces[k])
  }

  // ----- hexadecimal digits

  lemma HexIsDigit(d: int, upper: bool)
    requires 0 <= d < 16
    ensures HexValue(Hex(d, upper)) == Some(d) && Hex(d, upper) != 34 && Hex(d, upper) != 92
  {
  }

  lemma DigitIsHex(b: Byte)
    requires HexValue(b).Some?
    ensures Hex(HexValue(b).value, b < 97) == b
  {
  }

  lemma Places(v: int, d0: int, d1: int, d2: int, d3: int)
    requires 0 <= d0 < 16 && 0 <= d1 < 16 && 0 <= d2 < 16 && 0 <= d3 < 16
    requires v == 4096 * d0 + 256 * d1 + 16 * d2 + d3
    ensures v / 16 / 16 / 16 == d0 && v / 16 / 16 % 16 == d1 && v / 16 % 16 == d2 && v % 16 == d3
  {
    assert v / 16 == 256 * d0 + 16 * d1 + d2;
    assert v / 16 / 16 == 16 * d0 + d1;
  }

  lemma PlacesBack(v: int)
    requires 0 <= v < 0x1_0000
    ensures v == 4096 * (v / 16 / 16 / 16) + 256 * (v / 16 / 16 % 16) + 16 * (v / 16 % 16) + v % 16
  {
    var a := v / 16;
    var b := a / 16;
    assert v == 16 * a + v % 16 && a == 16 * b + a % 16 && b == 16 * (b / 16) + b % 16;
  }

  lemma FourRead(c: Text, p: nat, d0: int, d1: int, d2: int, d3: int)
    requires p + 4 <= |c|
    requires HexValue(c[p]) == Some(d0) && HexValue(c[p + 1]) == Some(d1)
    requires HexValue(c[p + 2]) == Some(d2) && HexValue(c[p + 3]) == Some(d3)
    ensures Hex4(c, p) == 4096 * d0 + 256 * d1 + 16 * d2 + d3
  {
    assert HexDigits(c, p, 0) == Some(0);
    assert HexDigits(c, p, 1) == Some(d0);
    assert HexDigits(c, p, 2) == Some(16 * d0 + d1);
    assert HexDigits(c, p, 3) == Some(256 * d0 + 16 * d1 + d2);
  }

  lemma HexReads(c: Text, p: nat, v: int, upper: seq<bool>)
    requires 0 <= v < 0x1_0000 && |upper| == 4 && At(c, p, FourHex(v, upper))
    ensures p + 4 <= |c| && Hex4(c, p) == v
  {
    var t := FourHex(v, upper);
    AtByte(c, p, t, 0);
    AtByte(c, p, t, 1);
    AtByte(c, p, t, 2);
    AtByte(c, p, t, 3);
    HexIsDigit(v / 16 / 16 / 16, upper[0]);
    HexIsDigit(v / 16 / 16 % 16, upper[1]);
    HexIsDigit(v / 16 % 16, upper[2]);
    HexIsDigit(v % 16, upper[3]);
    FourRead(c, p, v / 16 / 16 / 16, v / 16 / 16 % 16, v / 16 % 16, v % 16);
    PlacesBack(v);
  }

  lemma FourHexBytes(v: int, upper: seq<bool>)
    requires 0 <= v < 0x1_0000 && |upper| == 4
    ensures 34 !in FourHex(v, upper) && 92 !in FourHex(v, upper)
  {
    HexIsDigit(v / 16 / 16 / 16, upper[0]);
    HexIsDigit(v / 16 / 16 % 16, upper[1]);
    HexIsDigit(v / 16 % 16, upper[2]);
    HexIsDigit(v % 16, upper[3]);
  }

  lemma {:induction false} BadDigit(c: Text, p: nat, k: nat, n: nat)
    requires k < n && p + n <= |c| && HexValue(c[p + k]) == None
    ensures HexDigits(c, p, n) == None
    decreases n
  {
    if k < n - 1 {
      BadDigit(c, p, k, n - 1);
    }
  }

  lemma FourDigitsRead(c: Text, p: nat, k: nat)
    requires p + 4 <= |c| && Hex4(c, p) != 0 && k < 4
    ensures HexValue(c[p + k]).Some?
  {
    if HexValue(c[p + k]).None? {
      BadDigit(c, p, k, 4);
    }
  }

  /** Four bytes that read as more than 0 are the four digits of what they read as. */
  lemma HexWritten(c: Text, p: nat) returns (upper: seq<bool>)
    requires p + 4 <= |c| && Hex4(c, p) != 0
    ensures |upper| == 4 && [c[p], c[p + 1], c[p + 2], c[p + 3]] == FourHex(Hex4(c, p), upper)
  {
    FourDigitsRead(c, p, 0);
    FourDigitsRead(c, p, 1);
    FourDigitsRead(c, p, 2);
    FourDigitsRead(c, p, 3);
    FourRead(c, p, HexValue(c[p]).value, HexValue(c[p + 1]).value, HexValue(c[p + 2]).value, HexValue(c[p + 3]).value);
    upper := FourWritten(c[p], c[p + 1], c[p + 2], c[p + 3], Hex4(c, p));
  }

  lemma FourWritten(b0: Byte, b1: Byte, b2: Byte, b3: Byte, v: int) returns (upper: seq<bool>)
    requires HexValue(b0).Some? && HexValue(b1).Some? && HexValue(b2).Some? && HexValue(b3).Some? && 0 <= v < 0x1_0000
    requires v == 4096 * HexValue(b0).value + 256 * HexValue(b1).value + 16 * HexValue(b2).value + HexValue(b3).value
    ensures |upper| == 4
    ensures [b0, b1, b2, b3] == FourHex(v, upper)
  {
    upper := [b0 < 97, b1 < 97, b2 < 97, b3 < 97];
    DigitIsHex(b0);
    DigitIsHex(b1);
    DigitIsHex(b2);
    DigitIsHex(b3);
    Places(v, HexValue(b0).value, HexValue(b1).value, HexValue(b2).value, HexValue(b3).value);
  }

  // ----- reading one piece

  /** The scan for the closing quote steps over bytes that are neither quote nor backslash. */
  lemma {:induction false} TextScanned(c: Text, p: nat, t: Text)
    requires At(c, p, t) && 34 !in t && 92 !in t
    ensures EndQuote(c, p) == EndQuote(c, p + |t|)
    decreases |t|
  {
    if t != [] {
      assert t[0] in t;
      TextScanned(c, p + 1, t[1..]);
    }
  }

  lemma EscapeScanned(c: Text, p: nat, t: Text)
    requires At(c, p, [92, 117] + t) && 34 !in t && 92 !in t
    ensures p + 2 + |t| <= |c| && c[p] == 92 && c[p + 1] == 117 && At(c, p + 2, t)
    ensures EndQuote(c, p) == EndQuote(c, p + 2 + |t|)
  {
    AtSplit(c, p, [92, 117], t);
    AtByte(c, p, [92, 117], 0);
    AtByte(c, p, [92, 117], 1);
    TextScanned(c, p + 2, t);
  }

  lemma UnitReads(c: Text, p: nat, v: int, upper: seq<bool>)
    requires 0 <= v < 0x1_0000 && |upper| == 4 && At(c, p, Unit(v, upper))
    ensures p + 6 <= |c| && c[p] == 92 && c[p + 1] == 117 && Hex4(c, p + 2) == v
    ensures EndQuote(c, p) == EndQuote(c, p + 6)
  {
    FourHexBytes(v, upper);
    EscapeScanned(c, p, FourHex(v, upper));
    HexReads(c, p + 2, v, upper);
  }

  lemma CodeReads(c: Text, p: nat, cp: int, upper: seq<bool>, end: nat)
    requires IsPiece(Code(cp, upper)) && At(c, p, Written(Code(cp, upper)))
    requires p + |Written(Code(cp, upper))| <= end <= |c|
    ensures
      var n := |Written(Code(cp, upper))|;
      && c[p] == 92 && c[p + 1] == 117 && EndQuote(c, p) == EndQuote(c, p + n)
      && Utf16(c, p, end) == Some((Utf8(cp), n))
  {
    if cp < 0x1_0000 {
      UnitReads(c, p, cp, upper);
    } else {
      var high, low := 0xD800 + (cp - 0x1_0000) / 1024, 0xDC00 + (cp - 0x1_0000) % 1024;
      AtSplit(c, p, Unit(high, upper[..4]), Unit(low, upper[4..]));
      UnitReads(c, p, high, upper[..4]);
      UnitReads(c, p + 6, low, upper[4..]);
    }
  }

  lemma MalformedReads(c: Text, p: nat, four: Text, end: nat)
    requires IsPiece(Malformed(four)) && At(c, p, [92, 117] + four) && p + 6 <= end <= |c|
    ensures c[p] == 92 && c[p + 1] == 117 && EndQuote(c, p) == EndQuote(c, p + 6)
    ensures Utf16(c, p, end) == Some(([0], 6))
  {
    EscapeScanned(c, p, four);
    var k :| 0 <= k < 4 && !IsHexDigit(four[k]);
    AtByte(c, p + 2, four, k);
    BadDigit(c, p + 2, k, 4);
  }

  /**
   From p on the scan for the closing quote goes on at q, and what is between them
   unescapes to the text, in a literal that ends behind it.
   */
  predicate ReadsAs(c: Text, p: nat, q: nat, end: nat, text: Text)
    requires end < |c|
  {
    EndQuote(c, p) == EndQuote(c, q) && Unescape(c, p, end) == Then(text, Unescape(c, q, end))
  }

  /** Wherever w stands in a literal, it reads as t. */
  ghost predicate Reads(w: Text, t: Text) {
    forall c: Text, p: nat, q: nat, end: nat ::
      q == p + |w| && q <= end < |c| && At(c, p, w) ==> ReadsAs(c, p, q, end, t)
  }

  /** The bytes that the parser stores for a piece. */
  function Said(piece: Piece): Text
    requires IsPiece(piece)
  {
    match piece
    case Plain(b) => [b]
    case Short(letter) => [SHORT[letter]]
    case Code(cp, _) => Utf8(cp)
    case Malformed(_) => [0]
  }

  lemma PieceReads(piece: Piece)
    requires IsPiece(piece)
    ensures StandsFor(Said(piece), piece) && Reads(Written(piece), Said(piece))
  {
    if piece.Code? {
      Utf8Decodes(piece.cp);
    }
    var w := Written(piece);
    forall c: Text, p: nat, q: nat, end: nat | q == p + |w| && q <= end < |c| && At(c, p, w)
      ensures ReadsAs(c, p, q, end, Said(piece))
    {
      PieceReadsAt(c, p, piece, end);
    }
  }

  lemma PieceReadsAt(c: Text, p: nat, piece: Piece, end: nat)
    requires IsPiece(piece) && At(c, p, Written(piece)) && p + |Written(piece)| <= end < |c|
    ensures ReadsAs(c, p, p + |Written(piece)|, end, Said(piece))
  {
    var w := Written(piece);
    match piece {
      case Plain(b) => AtByte(c, p, w, 0);
      case Short(letter) =>
        AtByte(c, p, w, 0);
        AtByte(c, p, w, 1);
      case Code(cp, upper) => CodeReads(c, p, cp, upper, end);
      case Malformed(four) => MalformedReads(c, p, four, end);
    }
  }

  // ----- reading them all

  lemma NothingReads()
    ensures Reads([], [])
  {
    forall c: Text, p: nat, q: nat, end: nat | q == p && q <= end < |c|
      ensures ReadsAs(c, p, q, end, [])
    {
      NothingThen(Unescape(c, p, end));
    }
  }

  lemma BothRead(w: Text, t: Text, v: Text, u: Text)
    requires Reads(w, t) && Reads(v, u)
    ensures Reads(w + v, t + u)
  {
    forall c: Text, p: nat, q: nat, end: nat | q == p + |w + v| && q <= end < |c| && At(c, p, w + v)
      ensures ReadsAs(c, p, q, end, t + u)
    {
      AtSplit(c, p, w, v);
      var m := p + |w|;
      assert ReadsAs(c, p, m, end, t) && ReadsAs(c, m, q, end, u);
      ThenThen(t, u, Unescape(c, q, end));
    }
  }

  lemma {:induction false} TextsRead(ws: seq<Text>, ts: seq<Text>)
    requires |ws| == |ts| && forall k :: 0 <= k < |ws| ==> Reads(ws[k], ts[k])
    ensures Reads(Concat(ws), Concat(ts))
  {
    if ws == [] {
      NothingReads();
    } else {
      TextsRead(ws[1..], ts[1..]);
      BothRead(ws[0], ts[0], Concat(ws[1..]), Concat(ts[1..]));
    }
  }

  function SaidEach(pieces: seq<Piece>): (texts: seq<Text>)
    requires ArePieces(pieces)
    ensures |texts| == |pieces| && forall k :: 0 <= k < |texts| ==> texts[k] == Said(pieces[k])
  {
    seq(|pieces|, k requires 0 <= k < |pieces| => Said(pieces[k]))
  }

  lemma PiecesRead(pieces: seq<Piece>)
    requires ArePieces(pieces)
    ensures StandFor(SaidEach(pieces), pieces) && Reads(WrittenAll(pieces), Concat(SaidEach(pieces)))
  {
    forall k | 0 <= k < |pieces|
      ensures StandsFor(Said(pieces[k]), pieces[k]) && Reads(Written(pieces[k]), Said(pieces[k]))
    {
      PieceReads(pieces[k]);
    }
    TextsRead(WrittenEach(pieces), SaidEach(pieces));
  }

  lemma LiesThere(before: Text, t: Text, after: Text)
    ensures At(before + t + after, |before|, t)
    ensures (before + t + after)[|before| + |t|..] == after
  {
    var c := before + t + after;
    assert c[|before|..|before| + |t|] == t;
    AtSlice(c, |before|, t);
  }

  function Literal(pieces: seq<Piece>): Text
    requires ArePieces(pieces)
  {
    [34] + WrittenAll(pieces) + [34]
  }

  /**
   A literal made of such pieces, wherever it stands, parses to what the pieces stand
   for up to the first NUL among them, and its end is right behind the closing quote.
   */
  lemma LiteralMeans(before: Text, pieces: seq<Piece>, after: Text) returns (texts: seq<Text>)
    requires ArePieces(pieces)
    ensures StandFor(texts, pieces)
    ensures ParseString(before + Literal(pieces) + after, |before|) ==
      Some((CString(Concat(texts)), |before| + |Literal(pieces)|))
  {
    PiecesRead(pieces);
    texts := SaidEach(pieces);
    LiteralThere(before, Literal(pieces), after, WrittenAll(pieces), Concat(texts));
  }

  lemma LiteralThere(before: Text, literal: Text, after: Text, w: Text, t: Text)
    requires Reads(w, t) && literal == [34] + w + [34]
    ensures ParseString(before + literal + after, |before|) == Some((CString(t), |before| + |literal|))
  {
    LiesThere(before, literal, after);
    LiteralReads(before + literal + after, |before|, literal, w, t);
  }

  lemma LiteralReads(c: Text, i: nat, literal: Text, w: Text, t: Text)
    requires Reads(w, t) && literal == [34] + w + [34] && At(c, i, literal)
    ensures ParseString(c, i) == Some((CString(t), i + |literal|))
  {
    QuotedLayout(c, i, w);
    var end := i + 1 + |w|;
    AtByte(c, i + 1, w + [34], |w|);
    Ends(c, i + 1, end, t);
  }

  lemma Ends(c: Text, p: nat, end: nat, text: Text)
    requires 0 < p <= end < |c| && c[p - 1] == 34 && c[end] == 34 && ReadsAs(c, p, end, end, text)
    ensures ParseString(c, p - 1) == Some((CString(text), end + 1))
  {
    assert text + [] == text;
  }

  // ----- what is refused

  /** Wherever the literal ends behind q, what stands at q cannot be read. */
  ghost predicate Unreadable(c: Text, q: nat) {
    forall end :: q < end < |c| ==> Unescape(c, q, end) == None
  }

  /** Something readable and then something that is not: no literal, whatever follows. */
  lemma RefusedAfter(c: Text, p: nat, w: Text, t: Text)
    requires 0 < p && p + |w| < |c| && c[p - 1] == 34 && c[p + |w|] == 92
    requires At(c, p, w) && Reads(w, t) && Unreadable(c, p + |w|)
    ensures ParseString(c, p - 1) == None
  {
    var q := p + |w|;
    assert ReadsAs(c, p, q, q, t);
    if EndQuote(c, q).Some? {
      var end := EndQuote(c, q).value;
      assert ReadsAs(c, p, q, end, t);
      NothingBehind(c, p, q, end, t);
    }
  }

  lemma NothingBehind(c: Text, p: nat, q: nat, end: nat, text: Text)
    requires 0 < p <= q <= end < |c| && c[p - 1] == 34 && c[q] == 92 && EndQuote(c, q) == Some(end)
    requires ReadsAs(c, p, q, end, text) && Unreadable(c, q)
    ensures ParseString(c, p - 1) == None
  {
    assert c[end] == 34;
    assert Unescape(c, q, end) == None;
  }

  /** A backslash after w in the middle of a text. */
  lemma Layout(before: Text, w: Text, bad: Text, rest: Text) returns (c: Text, q: nat)
    requires |bad| >= 2 && bad[0] == 92
    ensures c == before + ([34] + w + bad) + rest
    ensures q == |before| + 1 + |w| && q + |bad| <= |c| && c[|before|] == 34
    ensures At(c, |before| + 1, w) && At(c, q, bad)
    ensures c[q] == 92 && c[q + 1] == bad[1] && c[q + |bad|..] == rest
  {
    c, q := before + ([34] + w + bad) + rest, |before| + 1 + |w|;
    LiesThere(before, [34] + w + bad, rest);
    AtThree(c, |before|, [34], w, bad);
    AtByte(c, |before|, [34], 0);
    AtByte(c, q, bad, 0);
    AtByte(c, q, bad, 1);
  }

  /** A low surrogate without a high one before it. */
  lemma LoneLowRefused(before: Text, pieces: seq<Piece>, low: int, upper: seq<bool>, rest: Text)
    requires ArePieces(pieces) && 0xDC00 <= low <= 0xDFFF && |upper| == 4
    ensures ParseString(before + ([34] + WrittenAll(pieces) + Unit(low, upper)) + rest, |before|) == None
  {
    PiecesRead(pieces);
    LoneLowAt(before, WrittenAll(pieces), Concat(SaidEach(pieces)), low, upper, rest);
  }

  lemma LoneLowAt(before: Text, w: Text, t: Text, low: int, upper: seq<bool>, rest: Text)
    requires Reads(w, t) && 0xDC00 <= low <= 0xDFFF && |upper| == 4
    ensures ParseString(before + ([34] + w + Unit(low, upper)) + rest, |before|) == None
  {
    var c, q := Layout(before, w, Unit(low, upper), rest);
    LowAlone(c, q, low, upper);
    RefusedAfter(c, |before| + 1, w, t);
  }

  lemma LowAlone(c: Text, q: nat, low: int, upper: seq<bool>)
    requires 0xDC00 <= low <= 0xDFFF && |upper| == 4 && At(c, q, Unit(low, upper))
    ensures Unreadable(c, q)
  {
    UnitReads(c, q, low, upper);
  }

  /** The text begins with the escape of a low surrogate. */
  ghost predicate BeginsWithLow(t: Text) {
    exists low, upper :: 0xDC00 <= low <= 0xDFFF && |upper| == 4 && Unit(low, upper) <= t
  }

  /** A high surrogate without a low one behind it. */
  lemma LoneHighRefused(before: Text, pieces: seq<Piece>, high: int, upper: seq<bool>, rest: Text)
    requires ArePieces(pieces) && 0xD800 <= high <= 0xDBFF && |upper| == 4 && !BeginsWithLow(rest)
    ensures ParseString(before + ([34] + WrittenAll(pieces) + Unit(high, upper)) + rest, |before|) == None
  {
    PiecesRead(pieces);
    LoneHighAt(before, WrittenAll(pieces), Concat(SaidEach(pieces)), high, upper, rest);
  }

  lemma LoneHighAt(before: Text, w: Text, t: Text, high: int, upper: seq<bool>, rest: Text)
    requires Reads(w, t) && 0xD800 <= high <= 0xDBFF && |upper| == 4 && !BeginsWithLow(rest)
    ensures ParseString(before + ([34] + w + Unit(high, upper)) + rest, |before|) == None
  {
    var c, q := Layout(before, w, Unit(high, upper), rest);
    UnitReads(c, q, high, upper);
    HighAlone(c, q, rest);
    RefusedAfter(c, |before| + 1, w, t);
  }

  lemma HighAlone(c: Text, q: nat, rest: Text)
    requires q + 6 <= |c| && c[q] == 92 && c[q + 1] == 117 && IsHighSurrogate(Hex4(c, q + 2))
    requires c[q + 6..] == rest && !BeginsWithLow(rest)
    ensures Unreadable(c, q)
  {
    if |rest| >= 6 && rest[0] == 92 && rest[1] == 117 && IsLowSurrogate(Hex4(c, q + 8)) {
      LowBegins(c, q + 6, rest);
      assert false;
    }
    assert |rest| >= 2 ==> rest[0] == c[q + 6] && rest[1] == c[q + 7];
  }

  lemma LowBegins(c: Text, p: nat, rest: Text)
    requires p + 6 <= |c| && c[p..] == rest && rest[0] == 92 && rest[1] == 117 && IsLowSurrogate(Hex4(c, p + 2))
    ensures BeginsWithLow(rest)
  {
    var upper := HexWritten(c, p + 2);
    var low := Hex4(c, p + 2);
    assert rest[2] == c[p + 2] && rest[3] == c[p + 3] && rest[4] == c[p + 4] && rest[5] == c[p + 5];
    assert Unit(low, upper) <= rest;
  }

  /** A backslash before anything but the nine letters of RFC 8259. */
  lemma UnknownEscapeRefused(before: Text, pieces: seq<Piece>, letter: Byte, rest: Text)
    requires ArePieces(pieces) && letter !in SHORT && letter != 117
    ensures ParseString(before + ([34] + WrittenAll(pieces) + [92, letter]) + rest, |before|) == None
  {
    PiecesRead(pieces);
    UnknownEscapeAt(before, WrittenAll(pieces), Concat(SaidEach(pieces)), letter, rest);
  }

  lemma UnknownEscapeAt(before: Text, w: Text, t: Text, letter: Byte, rest: Text)
    requires Reads(w, t) && letter !in SHORT && letter != 117
    ensures ParseString(before + ([34] + w + [92, letter]) + rest, |before|) == None
  {
    var c, q := Layout(before, w, [92, letter], rest);
    assert Unreadable(c, q);
    RefusedAfter(c, |before| + 1, w, t);
  }
}
