/**
 parse_string as it works: a first pass finds the closing quote and estimates the size
 of the output, a second pass unescapes into a buffer of that size.
 */
module JsonStrings {
  import opened Bytes
  import opened Json

  /** The first pass, started at a, stops over position q (and not in the middle of an escape). */
  predicate Visits(c: Text, a: nat, q: nat)
    decreases q - a
  {
    a == q || (a < q && a < |c| && Visits(c, if c[a] == BACKSLASH then a + 2 else a + 1, q))
  }

  predicate IsEscape(c: Text, a: nat, q: nat) { q < |c| && c[q] == BACKSLASH && Visits(c, a, q) }

  /** Escapes that the first pass has counted before position q. */
  function Skipped(c: Text, a: nat, q: nat): nat {
    if q <= a then 0 else Skipped(c, a, q - 1) + (if IsEscape(c, a, q - 1) then 1 else 0)
  }

  lemma {:induction false} VisitsNext(c: Text, a: nat, q: nat)
    requires a <= q < |c|
    ensures Visits(c, a, q) && c[q] != BACKSLASH ==> Visits(c, a, q + 1)
    ensures Visits(c, a, q) && c[q] == BACKSLASH ==> !Visits(c, a, q + 1) && Visits(c, a, q + 2)
    decreases q - a
  {
    if a < q {
      var b := if c[a] == BACKSLASH then a + 2 else a + 1;
      if b <= q {
        VisitsNext(c, b, q);
      } else {
        assert !Visits(c, b, q);
      }
    } else {
      assert Visits(c, q + 1, q + 1) && Visits(c, q + 2, q + 2) && !Visits(c, q + 2, q + 1);
    }
  }

  /** Of two neighbouring positions at most one starts an escape. */
  lemma SkippedTwo(c: Text, a: nat, q: nat)
    requires a <= q && q + 1 < |c|
    ensures Skipped(c, a, q + 2) <= Skipped(c, a, q) + 1
  {
    VisitsNext(c, a, q);
    assert Skipped(c, a, q + 2) == Skipped(c, a, q + 1) + (if IsEscape(c, a, q + 1) then 1 else 0);
  }

  lemma SkippedSix(c: Text, a: nat, q: nat)
    requires a <= q && q + 5 < |c|
    ensures Skipped(c, a, q + 6) <= Skipped(c, a, q) + 3
  {
    SkippedTwo(c, a, q);
    SkippedTwo(c, a, q + 2);
    SkippedTwo(c, a, q + 4);
  }

  /** The first pass: the closing quote and the number of escapes before it. */
  method FindEnd(c: Text, a: nat) returns (end: Option<nat>, skipped: nat)
    ensures end == EndQuote(c, a)
    ensures end.Some? ==> skipped == Skipped(c, a, end.value) && Visits(c, a, end.value)
  {
    var j := a;
    skipped := 0;
    while j < |c| && c[j] != QUOTE
      invariant a <= j && EndQuote(c, j) == EndQuote(c, a)
      invariant skipped == Skipped(c, a, j) && Visits(c, a, j)
    {
      VisitsNext(c, a, j);
      if c[j] == BACKSLASH {
        if j + 1 >= |c| {
          return None, skipped;
        }
        assert !IsEscape(c, a, j + 1);
        assert Skipped(c, a, j + 2) == Skipped(c, a, j + 1);
        skipped := skipped + 1;
        j := j + 1;
      }
      j := j + 1;
    }
    if j >= |c| {
      return None, skipped;
    }
    return Some(j), skipped;
  }

  /** Bytes that the output may hold when the second pass is at p: what was read, less the escapes. */
  function Room(c: Text, a: nat, p: nat, end: nat): int {
    var q := Min(p, end);
    q - a - Skipped(c, a, q)
  }

  /** One escape or plain byte at p never outgrows the room, even when the passes are out of step. */
  lemma RoomGrows(c: Text, a: nat, p: nat, end: nat, consumed: nat)
    requires a <= p < end < |c| && Visits(c, a, end)
    ensures consumed == 1 && c[p] != BACKSLASH ==> Room(c, a, p + 1, end) >= Room(c, a, p, end) + 1
    ensures consumed == 2 ==> Room(c, a, p + 2, end) >= Room(c, a, p, end) + 1
    ensures consumed == 6 && p + 6 <= end ==> Room(c, a, p + 6, end) >= Room(c, a, p, end) + 3
    ensures consumed == 12 && p + 12 <= end ==> Room(c, a, p + 12, end) >= Room(c, a, p, end) + 4
  {
    VisitsNext(c, a, p);
    if consumed == 2 && p + 2 <= end {
      SkippedTwo(c, a, p);
    }
    if consumed == 6 && p + 6 <= end {
      SkippedSix(c, a, p);
    }
    if consumed == 12 && p + 12 <= end {
      SkippedSix(c, a, p);
      SkippedSix(c, a, p + 6);
    }
  }

  lemma NothingThen(t: Option<Text>)
    ensures Then([], t) == t
  {
    if t.Some? {
      assert [] + t.value == t.value;
    }
  }

  lemma ThenThen(a: Text, b: Text, t: Option<Text>)
    ensures Then(a, Then(b, t)) == Then(a + b, t)
  {
    if t.Some? {
      assert a + (b + t.value) == a + b + t.value;
    }
  }

  /** Append bytes to the output buffer. */
  method Emit(output: array<Byte>, n: nat, bytes: Text) returns (m: nat)
    requires n + |bytes| <= output.Length
    modifies output
    ensures m == n + |bytes| && output[..m] == old(output[..n]) + bytes
  {
    m := n;
    for k := 0 to |bytes|
      invariant m == n + k && output[..m] == old(output[..n]) + bytes[..k]
    {
      output[m] := bytes[k];
      m := m + 1;
      assert output[..m] == output[..m - 1] + [bytes[k]];
    }
  }

  /** What one step of the second pass appends, and how far it moves. */
  function Piece(c: Text, p: nat, end: nat): Option<(Text, nat)>
    requires p < end < |c|
  {
    if c[p] != BACKSLASH then Some(([c[p]], 1))
    else if c[p + 1] == LETTER_U then Utf16(c, p, end)
    else
      match SimpleEscape(c[p + 1])
      case None => None
      case Some(b) => Some(([b], 2))
  }

  lemma PieceStep(c: Text, a: nat, p: nat, end: nat)
    requires a <= p < end < |c| && Visits(c, a, end)
    ensures Piece(c, p, end).None? ==> Unescape(c, p, end) == None
    ensures Piece(c, p, end).Some? ==>
      var (bytes, n) := Piece(c, p, end).value;
      && Unescape(c, p, end) == Then(bytes, Unescape(c, p + n, end))
      && n > 0 && Room(c, a, p + n, end) >= Room(c, a, p, end) + |bytes|
  {
    if Piece(c, p, end).Some? {
      RoomGrows(c, a, p, end, Piece(c, p, end).value.1);
    }
  }

  /** The second pass, into a buffer with room for what the first pass counted. */
  method Decode(c: Text, a: nat, end: nat, output: array<Byte>) returns (size: Option<nat>)
    requires a <= end < |c| && Visits(c, a, end) && Room(c, a, end, end) < output.Length
    modifies output
    ensures size.None? <==> Unescape(c, a, end).None?
    ensures size.Some? ==> size.value < output.Length && Unescape(c, a, end) == Some(output[..size.value])
  {
    var p: nat, n: nat := a, 0;
    NothingThen(Unescape(c, a, end));
    RoomMonotone(c, a, a, end);
    while p < end
      invariant a <= p && n <= Room(c, a, p, end) && Room(c, a, p, end) <= Room(c, a, end, end)
      invariant Unescape(c, a, end) == Then(output[..n], Unescape(c, p, end))
      decreases end - p
    {
      PieceStep(c, a, p, end);
      var piece := Piece(c, p, end);
      if piece.None? {
        return None;
      }
      var (bytes, consumed) := piece.value;
      RoomMonotone(c, a, p + consumed, end);
      ThenThen(output[..n], bytes, Unescape(c, p + consumed, end));
      n := Emit(output, n, bytes);
      p := p + consumed;
    }
    assert output[..n] + [] == output[..n];
    return Some(n);
  }

  /**
   parse_string. The buffer has the size the first pass computed; that every write
   of the second pass stays inside it is part of what is verified here.
   */
  method ParseStringLiteral(c: Text, i: nat) returns (r: Option<(Text, nat)>)
    ensures r == ParseString(c, i)
  {
    if i >= |c| || c[i] != QUOTE {
      return None;
    }
    var endOption, skipped := FindEnd(c, i + 1);
    if endOption.None? {
      return None;
    }
    var end := endOption.value;
    SkippedBound(c, i + 1, end);
    var allocationLength := end - i - skipped;
    var output := new Byte[allocationLength + 1](_ => NUL);
    var size := Decode(c, i + 1, end, output);
    if size.None? {
      return None;
    }
    output[size.value] := NUL;
    return Some((CString(output[..size.value]), end + 1));
  }

  lemma {:induction false} SkippedBound(c: Text, a: nat, q: nat)
    requires a <= q <= |c|
    ensures Skipped(c, a, q) <= q - a
  {
    if a < q {
      SkippedBound(c, a, q - 1);
    }
  }

  lemma {:induction false} RoomMonotone(c: Text, a: nat, p: nat, end: nat)
    requires a <= p && a <= end <= |c|
    ensures Room(c, a, p, end) <= Room(c, a, end, end)
    decreases end - p
  {
    if p < end {
      RoomMonotone(c, a, p + 1, end);
    }
  }

  // ----- the bytes written for a \u escape

  /** The code point that a UTF-8 sequence stands for. */
  function CodePoint(t: Text): int {
    if |t| == 1 then t[0]
    else if |t| == 2 then (t[0] as int - 0xC0) * 64 + (t[1] as int - 0x80)
    else if |t| == 3 then (t[0] as int - 0xE0) * 4096 + (t[1] as int - 0x80) * 64 + (t[2] as int - 0x80)
    else if |t| == 4 then (t[0] as int - 0xF0) * 262144 + (t[1] as int - 0x80) * 4096 + (t[2] as int - 0x80) * 64 + (t[3] as int - 0x80)
    else -1
  }

  /** A well-formed sequence: a lead byte for its length, and bytes of the form 10xxxxxx. */
  predicate IsUtf8(t: Text) {
    && 1 <= |t| <= 4
    && (if |t| == 1 then t[0] < 0x80 else
        if |t| == 2 then 0xC0 <= t[0] < 0xE0 else
        if |t| == 3 then 0xE0 <= t[0] < 0xF0 else 0xF0 <= t[0] < 0xF8)
    && forall k :: 1 <= k < |t| ==> 0x80 <= t[k] < 0xC0
  }

  /** Each code point is written in UTF-8, with as few bytes as it takes. */
  lemma Utf8Decodes(cp: int)
    requires 0 <= cp < 0x11_0000
    ensures CodePoint(Utf8(cp)) == cp && IsUtf8(Utf8(cp))
    ensures |Utf8(cp)| == if cp < 0x80 then 1 else if cp < 0x800 then 2 else if cp < 0x1_0000 then 3 else 4
  {
    var a, b := cp / 64, cp / 4096;
    assert b == a / 64 && cp / 262144 == b / 64;
    assert Continuation(cp, 1) == Continuation(a, 0) + [0x80 + cp % 64];
    assert Continuation(cp, 2) == Continuation(a, 1) + [0x80 + cp % 64];
    assert Continuation(a, 1) == Continuation(b, 0) + [0x80 + a % 64];
    assert Continuation(cp, 3) == Continuation(a, 2) + [0x80 + cp % 64];
    assert Continuation(a, 2) == Continuation(b, 1) + [0x80 + a % 64];
    assert Continuation(b, 1) == Continuation(b / 64, 0) + [0x80 + b % 64];
  }
}
