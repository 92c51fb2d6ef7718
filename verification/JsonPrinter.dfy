/** The printer as it works: a growing buffer, an offset, and texts written in place. */
module JsonPrinter {
  import opened Bytes
  import opened Json
  import opened JsonRoundTrip

  /** Extra bytes that the first pass over a string reserves for one byte. */
  function EscapeCost(b: Byte): nat {
    if b == QUOTE || b == BACKSLASH || b == 8 || b == 12 || b == 10 || b == 13 || b == 9 then 1
    else if b < 32 then 5
    else 0
  }

  function EscapeCosts(s: Text): nat {
    if s == [] then 0 else EscapeCosts(s[..|s| - 1]) + EscapeCost(s[|s| - 1])
  }

  lemma {:induction false} EscapeSnoc(s: Text, b: Byte)
    ensures Escape(s + [b]) == Escape(s) + EscapeByte(b)
  {
    if s == [] {
      assert [] + [b] == [b] && [b][1..] == [] && Escape([]) == [];
    } else {
      assert (s + [b])[0] == s[0] && (s + [b])[1..] == s[1..] + [b];
      EscapeSnoc(s[1..], b);
    }
  }

  /** The first pass counts exactly the bytes that the second pass writes. */
  lemma {:induction false} EscapeLength(s: Text)
    ensures |Escape(s)| == |s| + EscapeCosts(s)
  {
    if s != [] {
      var n := |s| - 1;
      assert s == s[..n] + [s[n]];
      EscapeLength(s[..n]);
      EscapeSnoc(s[..n], s[n]);
    }
  }

  lemma {:induction false} NothingToEscape(s: Text)
    requires EscapeCosts(s) == 0
    ensures Escape(s) == s
  {
    if s != [] {
      var n := |s| - 1;
      assert s == s[..n] + [s[n]];
      NothingToEscape(s[..n]);
      EscapeSnoc(s[..n], s[n]);
    }
  }

  class PrintBuffer {
    var buffer: array<Byte>
    var offset: nat
    var depth: nat
    const format: bool

    ghost predicate Valid()
      reads this`buffer, this`offset
    {
      offset < buffer.Length <= INT_MAX
    }

    constructor (format: bool)
      ensures Valid() && fresh(buffer) && offset == 0 && depth == 0 && this.format == format
    {
      buffer := new Byte[256](_ => NUL);
      offset, depth := 0, 0;
      this.format := format;
    }

    /** What has been printed so far. */
    ghost function Contents(): Text
      requires Valid()
      reads this`buffer, this`offset, buffer
    {
      buffer[..offset]
    }

    /** Behind the offset lies this text, NUL-terminated. */
    ghost predicate Holds(t: Text)
      reads this`buffer, this`offset, buffer
    {
      offset + |t| < buffer.Length && buffer[offset..offset + |t|] == t && buffer[offset + |t|] == NUL
    }

    /** Room for `needed` more bytes and a terminator. */
    method Ensure(needed: nat) returns (ok: bool)
      requires Valid()
      modifies this`buffer
      ensures Valid() && (buffer == old(buffer) || fresh(buffer))
      ensures ok <==> offset + needed + 1 <= INT_MAX
      ensures ok ==> offset + needed + 1 <= buffer.Length
      ensures Contents() == old(Contents())
    {
      if needed > INT_MAX {
        return false;
      }
      var total := needed + offset + 1;
      if total <= buffer.Length {
        return true;
      }
      var newSize := total * 2;
      if total > INT_MAX / 2 {
        if total > INT_MAX {
          return false;
        }
        newSize := INT_MAX;
      }
      var newBuffer := new Byte[newSize](_ => NUL);
      ghost var before := buffer[..];
      for i := 0 to buffer.Length
        invariant newBuffer[..i] == before[..i] && buffer[..] == before
      {
        newBuffer[i] := buffer[i];
      }
      assert newBuffer[..offset] == newBuffer[..buffer.Length][..offset];
      buffer := newBuffer;
      return true;
    }

    /** Copy a text and a terminator behind the offset; the buffer is large enough. */
    method Write(t: Text)
      requires Valid() && offset + |t| < buffer.Length
      modifies buffer
      ensures Valid() && Holds(t) && Contents() == old(Contents())
    {
      for i := 0 to |t|
        invariant buffer[..offset] == old(buffer[..offset])
        invariant buffer[offset..offset + i] == t[..i]
      {
        buffer[offset + i] := t[i];
        assert buffer[offset..offset + i + 1] == buffer[offset..offset + i] + [t[i]];
      }
      assert buffer[offset..offset + |t|] == t;
      buffer[offset + |t|] := NUL;
      assert buffer[offset..offset + |t|] == t;
    }

    /** Move the offset over a text that lies behind it. */
    method Advance(n: nat, ghost t: Text)
      requires Valid() && n == |t| && Holds(t)
      modifies this`offset
      ensures Valid() && Contents() == old(Contents()) + t
    {
      offset := offset + n;
      assert buffer[..offset] == buffer[..offset - n] + buffer[offset - n..offset];
    }

    /** Reserve space, write a text and move behind it. */
    method Append(t: Text, reserve: nat) returns (ok: bool)
      requires Valid() && |t| <= reserve
      modifies this`buffer, this`offset, buffer
      ensures Valid() && (buffer == old(buffer) || fresh(buffer))
      ensures ok <==> old(offset) + reserve + 1 <= INT_MAX
      ensures Contents() == if ok then old(Contents()) + t else old(Contents())
      ensures ok ==> Holds([])
    {
      ok := Ensure(reserve);
      if ok {
        Write(t);
        Advance(|t|, t);
      }
    }

    /** Reserve space and write a text, leaving the offset in front of it. */
    method Place(t: Text, reserve: nat) returns (ok: bool)
      requires Valid() && |t| <= reserve
      modifies this`buffer, buffer
      ensures Valid() && (buffer == old(buffer) || fresh(buffer))
      ensures ok <==> offset + reserve + 1 <= INT_MAX
      ensures Contents() == old(Contents()) && (ok ==> Holds(t))
    {
      ok := Ensure(reserve);
      if ok {
        Write(t);
      }
    }

    /** update_offset: go to the terminator of the text at the offset. */
    method UpdateOffset(ghost t: Text)
      requires Valid() && Holds(t) && NUL !in t
      modifies this`offset
      ensures Valid() && Contents() == old(Contents()) + t
    {
      ghost var start := offset;
      while buffer[offset] != NUL
        invariant start <= offset <= start + |t|
        decreases start + |t| - offset
      {
        offset := offset + 1;
      }
      assert buffer[start..start + |t|] == t;
      assert offset == start + |t|;
      assert buffer[..offset] == buffer[..start] + buffer[start..start + |t|];
    }

    /** print_string_ptr: count the escapes, reserve, then write. */
    method PrintString(s: Text) returns (ok: bool)
      requires Valid() && NUL !in s
      modifies this`buffer, buffer
      ensures Valid() && (buffer == old(buffer) || fresh(buffer))
      ensures ok <==> offset + |Quoted(s)| + 2 <= INT_MAX
      ensures Contents() == old(Contents()) && (ok ==> Holds(Quoted(s)))
    {
      var escapes := 0;
      for i := 0 to |s|
        invariant escapes == EscapeCosts(s[..i])
      {
        assert s[..i + 1][..i] == s[..i];
        escapes := escapes + EscapeCost(s[i]);
      }
      assert s[..|s|] == s;
      EscapeLength(s);
      var length := |s| + escapes;
      ok := Ensure(length + 3);
      if !ok {
        return;
      }
      if escapes == 0 {
        NothingToEscape(s);
        Write([QUOTE] + s + [QUOTE]);
      } else {
        WriteEscaped(s, length);
      }
    }

    /** The second pass; the closing quote goes where the first pass said it belongs. */
    method WriteEscaped(s: Text, length: nat)
      requires Valid() && length == |Escape(s)| && offset + length + 2 < buffer.Length
      modifies buffer
      ensures Valid() && Holds(Quoted(s)) && Contents() == old(Contents())
    {
      buffer[offset] := QUOTE;
      WriteBody(s, length);
      buffer[offset + length + 1] := QUOTE;
      buffer[offset + length + 2] := NUL;
      assert buffer[offset..offset + length + 2] == buffer[offset..offset + length + 1] + [QUOTE];
    }

    method WriteBody(s: Text, length: nat)
      requires Valid() && length == |Escape(s)| && offset + length + 2 < buffer.Length && buffer[offset] == QUOTE
      modifies buffer
      ensures buffer[..offset] == old(buffer[..offset])
      ensures buffer[offset..offset + length + 1] == [QUOTE] + Escape(s)
    {
      var p := offset + 1;
      for i := 0 to |s|
        invariant p == offset + 1 + |Escape(s[..i])| <= offset + 1 + length
        invariant buffer[..offset] == old(buffer[..offset])
        invariant buffer[offset..p] == [QUOTE] + Escape(s[..i])
      {
        EscapeNext(s, i);
        p := PutEscape(p, s[i]);
      }
      assert s[..|s|] == s;
    }

    /**
     print_value: the text is written; part of it may still lie behind the offset,
     NUL-terminated, for update_offset to step over.
     */
    method PrintValue(v: Json) returns (ok: bool, ghost rest: Text)
      requires Valid() && WellFormed(v)
      modifies this, buffer
      ensures Valid() && (buffer == old(buffer) || fresh(buffer)) && depth == old(depth)
      ensures ok <==> old(offset) + |Print(v, format, depth)| + 2 <= INT_MAX
      ensures ok ==> old(offset) <= offset && Holds(rest)
      ensures ok ==> Contents() + rest == old(Contents()) + Print(v, format, depth)
      decreases v, 1
    {
      rest := Print(v, format, depth);
      match v {
        case JNull => ok := Place(NULL_TEXT, 5);
        case JFalse => ok := Place(FALSE_TEXT, 6);
        case JTrue => ok := Place(TRUE_TEXT, 5);
        case JNum(n) =>
          ok := Append(IntText(n), |IntText(n)| + 1);
          rest := [];
        case JStr(s) => ok := PrintString(s);
        case JArr(items) => ok, rest := PrintArray(items);
        case JObj(ms) => ok, rest := PrintObject(ms, Print(v, format, depth));
      }
    }

    /** Print a value and move behind it. */
    method PrintNested(v: Json) returns (ok: bool)
      requires Valid() && WellFormed(v)
      modifies this, buffer
      ensures Valid() && (buffer == old(buffer) || fresh(buffer)) && depth == old(depth)
      ensures ok <==> old(offset) + |Print(v, format, depth)| + 2 <= INT_MAX
      ensures ok ==> Contents() == old(Contents()) + Print(v, format, depth)
      decreases v, 2
    {
      ghost var before := Contents();
      ghost var rest;
      ok, rest := PrintValue(v);
      if ok {
        PrintHasNoNul(v, format, depth);
        Suffix(before, Print(v, format, depth), Contents(), rest);
        UpdateOffset(rest);
      }
    }

    method PrintArray(items: seq<Json>) returns (ok: bool, ghost rest: Text)
      requires Valid() && WellFormedItems(items)
      modifies this, buffer
      ensures Valid() && (buffer == old(buffer) || fresh(buffer)) && depth == old(depth)
      ensures
        var t := ArrayText(ItemTexts(items, format, depth + 1), ItemGap(format));
        && (ok <==> old(offset) + |t| + 2 <= INT_MAX)
        && (ok ==> old(offset) <= offset && Holds(rest) && Contents() + rest == old(Contents()) + t)
      decreases items, 2
    {
      rest := [CLOSE_BRACKET];
      ghost var body := JoinItems(ItemTexts(items, format, depth + 1), ItemGap(format));
      ArrayPieces(Contents(), body);
      ok := OpenArray(items, body);
      if ok {
        ok := Place([CLOSE_BRACKET], 2);
      }
    }

    /** The bracket and the elements. */
    method OpenArray(items: seq<Json>, ghost body: Text) returns (ok: bool)
      requires Valid() && WellFormedItems(items)
      requires body == JoinItems(ItemTexts(items, format, depth + 1), ItemGap(format))
      modifies this, buffer
      ensures Valid() && (buffer == old(buffer) || fresh(buffer)) && depth == old(depth)
      ensures !ok ==> old(offset) + 1 + |body| + 2 > INT_MAX
      ensures ok ==> offset == old(offset) + 1 + |body| && Contents() == old(Contents()) + [OPEN_BRACKET] + body
      decreases items, 1
    {
      ok := Append([OPEN_BRACKET], 1);
      if !ok {
        return;
      }
      depth := depth + 1;
      ok := PrintItems(items);
      depth := depth - 1;
      assert |Contents()| == offset;
    }

    /** The elements with their separators. */
    method PrintItems(items: seq<Json>) returns (ok: bool)
      requires Valid() && WellFormedItems(items)
      modifies this, buffer
      ensures Valid() && (buffer == old(buffer) || fresh(buffer)) && depth == old(depth)
      ensures
        var t := JoinItems(ItemTexts(items, format, depth), ItemGap(format));
        && (!ok ==> old(offset) + |t| + 2 > INT_MAX)
        && (ok ==> Contents() == old(Contents()) + t)
      decreases items, 0
    {
      ghost var start := Contents();
      ghost var texts, gap := ItemTexts(items, format, depth), ItemGap(format);
      ghost var done: Text := [];
      ok := true;
      for k := 0 to |items|
        invariant Valid() && (buffer == old(buffer) || fresh(buffer)) && depth == old(depth) && ok
        invariant Contents() == start + done && done + JoinItems(texts[k..], gap) == JoinItems(texts, gap)
      {
        ItemTextAt(items, format, depth, k);
        ItemsTail(texts, k, gap);
        ghost var t := texts[k] + (if k + 1 < |texts| then [COMMA] + gap else []);
        Assoc(done, t, JoinItems(texts[k + 1..], gap));
        Assoc(start, done, t);
        ok := PrintItem(items[k], k + 1 == |items|);
        if !ok {
          return;
        }
        done := done + t;
      }
      assert texts[|items|..] == [] && done + [] == done;
    }

    /** An element and, unless it is the last, the separator after it. */
    method PrintItem(v: Json, last: bool) returns (ok: bool)
      requires Valid() && WellFormed(v)
      modifies this, buffer
      ensures Valid() && (buffer == old(buffer) || fresh(buffer)) && depth == old(depth)
      ensures
        var t := Print(v, format, depth) + (if last then [] else [COMMA] + ItemGap(format));
        && (!ok ==> old(offset) + |t| + 2 > INT_MAX)
        && (ok ==> Contents() == old(Contents()) + t)
      decreases v, 3
    {
      ghost var text := Print(v, format, depth);
      ok := PrintNested(v);
      if ok && !last {
        ok := Append([COMMA] + ItemGap(format), 1 + |ItemGap(format)| + 1);
        Assoc(old(Contents()), text, [COMMA] + ItemGap(format));
      } else {
        assert text + [] == text;
      }
    }

    method PrintObject(ms: seq<Member>, ghost text: Text) returns (ok: bool, ghost rest: Text)
      requires Valid() && WellFormedMembers(ms)
      requires text == ObjectText(MemberTexts(ms, format, depth + 1), NewLine(format), Indent(format, depth))
      modifies this, buffer
      ensures Valid() && (buffer == old(buffer) || fresh(buffer)) && depth == old(depth)
      ensures ok <==> old(offset) + |text| + 2 <= INT_MAX
      ensures ok ==> old(offset) <= offset && Holds(rest) && Contents() + rest == old(Contents()) + text
      decreases ms, 3
    {
      ghost var start := Contents();
      ghost var newLine := NewLine(format);
      var indent := Indent(format, depth);
      rest := indent + [CLOSE_BRACE];
      ghost var body := JoinMembers(MemberTexts(ms, format, depth + 1), newLine);
      ObjectPieces(start, newLine, body, indent, text);
      ok := OpenObject(ms, body);
      if ok {
        ok := Place(indent + [CLOSE_BRACE], |indent| + 2);
      }
    }

    /** The brace, the line end and the members. */
    method OpenObject(ms: seq<Member>, ghost body: Text) returns (ok: bool)
      requires Valid() && WellFormedMembers(ms)
      requires body == JoinMembers(MemberTexts(ms, format, depth + 1), NewLine(format))
      modifies this, buffer
      ensures Valid() && (buffer == old(buffer) || fresh(buffer)) && depth == old(depth)
      ensures !ok ==> old(offset) + 1 + |NewLine(format)| + |body| + 2 > INT_MAX
      ensures ok ==> offset == old(offset) + 1 + |NewLine(format)| + |body|
      ensures ok ==> Contents() == old(Contents()) + ([OPEN_BRACE] + NewLine(format)) + body
      decreases ms, 2
    {
      ok := OpenBrace();
      if !ok {
        return;
      }
      ghost var begun := Contents();
      ok := PrintDeeper(ms, body);
      assert ok ==> Contents() == begun + body;
    }

    method OpenBrace() returns (ok: bool)
      requires Valid()
      modifies this`buffer, this`offset, buffer
      ensures Valid() && (buffer == old(buffer) || fresh(buffer))
      ensures !ok ==> old(offset) + 1 + |NewLine(format)| + 2 > INT_MAX
      ensures ok ==> offset == old(offset) + 1 + |NewLine(format)|
      ensures ok ==> Contents() == old(Contents()) + ([OPEN_BRACE] + NewLine(format))
    {
      var newLine := NewLine(format);
      ok := Append([OPEN_BRACE] + newLine, 1 + |newLine| + 1);
      if ok {
        SizeOf(Contents(), old(Contents()), [OPEN_BRACE] + newLine);
      }
    }

    /** The members, one level down. */
    method PrintDeeper(ms: seq<Member>, ghost body: Text) returns (ok: bool)
      requires Valid() && WellFormedMembers(ms)
      requires body == JoinMembers(MemberTexts(ms, format, depth + 1), NewLine(format))
      modifies this, buffer
      ensures Valid() && (buffer == old(buffer) || fresh(buffer)) && depth == old(depth)
      ensures !ok ==> old(offset) + |body| + 2 > INT_MAX
      ensures ok ==> Contents() == old(Contents()) + body && offset == old(offset) + |body|
      decreases ms, 1
    {
      depth := depth + 1;
      ok := PrintMembers(ms, body);
      depth := depth - 1;
      if ok {
        SizeOf(Contents(), old(Contents()), body);
      }
    }

    /** The members with their line ends. */
    method PrintMembers(ms: seq<Member>, ghost text: Text) returns (ok: bool)
      requires Valid() && WellFormedMembers(ms)
      requires text == JoinMembers(MemberTexts(ms, format, depth), NewLine(format))
      modifies this, buffer
      ensures Valid() && (buffer == old(buffer) || fresh(buffer)) && depth == old(depth)
      ensures !ok ==> old(offset) + |text| + 2 > INT_MAX
      ensures ok ==> Contents() == old(Contents()) + text
      decreases ms, 0
    {
      ghost var start := Contents();
      ghost var entries, newLine := MemberTexts(ms, format, depth), NewLine(format);
      ghost var done: Text := [];
      ok := true;
      for k := 0 to |ms|
        invariant Valid() && (buffer == old(buffer) || fresh(buffer)) && depth == old(depth) && ok
        invariant Contents() == start + done && done + JoinMembers(entries[k..], newLine) == JoinMembers(entries, newLine)
      {
        ghost var t := MemberAt(ms, format, depth, k, entries, start, done);
        ok := PrintMember(ms[k], k + 1 == |ms|);
        if !ok {
          return;
        }
        done := done + t;
      }
      assert entries[|ms|..] == [] && done + [] == done;
    }

    /** Indentation, key, colon, value, comma and line end of one member. */
    method PrintMember(m: Member, last: bool) returns (ok: bool)
      requires Valid() && WellFormed(m.value) && NUL !in m.name
      modifies this, buffer
      ensures Valid() && (buffer == old(buffer) || fresh(buffer)) && depth == old(depth)
      ensures
        var t := KeyText(m.name, format, depth) + Print(m.value, format, depth) + (Comma(last) + NewLine(format));
        && (!ok ==> old(offset) + |t| + 2 > INT_MAX)
        && (ok ==> Contents() == old(Contents()) + t)
      decreases m.value, 3
    {
      ghost var start := Contents();
      ghost var key, text := KeyText(m.name, format, depth), Print(m.value, format, depth);
      var ending := Comma(last) + NewLine(format);
      ok := PrintKey(m.name);
      if !ok {
        return;
      }
      ok := PrintNested(m.value);
      if !ok {
        return;
      }
      Assoc(start, key, text);
      ok := Append(ending, |ending| + 1);
      Assoc(start, key + text, ending);
    }

    method PrintKey(name: Text) returns (ok: bool)
      requires Valid() && NUL !in name
      modifies this`buffer, this`offset, buffer
      ensures Valid() && (buffer == old(buffer) || fresh(buffer))
      ensures !ok ==> old(offset) + |KeyText(name, format, depth)| + 1 > INT_MAX
      ensures ok ==> Contents() == old(Contents()) + KeyText(name, format, depth)
    {
      ghost var start := Contents();
      var indent := Indent(format, depth);
      var colon := [COLON] + KeyGap(format);
      ghost var quoted := Quoted(name);
      ok := Append(indent, |indent|);
      if !ok {
        return;
      }
      ok := PrintString(name);
      if !ok {
        return;
      }
      EscapeHasNoNul(name);
      UpdateOffset(quoted);
      Assoc(start, indent, quoted);
      ok := Append(colon, |colon|);
      Assoc(start, indent + quoted, colon);
    }

    method PutEscape(p: nat, b: Byte) returns (q: nat)
      requires Valid() && offset < p && p + |EscapeByte(b)| < buffer.Length
      modifies buffer
      ensures q == p + |EscapeByte(b)|
      ensures buffer[..offset] == old(buffer[..offset])
      ensures buffer[offset..q] == old(buffer[offset..p]) + EscapeByte(b)
    {
      var e := EscapeByte(b);
      q := p;
      for k := 0 to |e|
        invariant q == p + k
        invariant buffer[..offset] == old(buffer[..offset])
        invariant buffer[offset..q] == old(buffer[offset..p]) + e[..k]
      {
        buffer[q] := e[k];
        q := q + 1;
        assert buffer[offset..q] == buffer[offset..q - 1] + [e[k]];
      }
    }
  }

  /** print: the text of a value, or nothing when it does not fit an int-sized buffer. */
  method PrintJson(v: Json, format: bool) returns (r: Option<Text>)
    requires WellFormed(v)
    ensures r == if |Print(v, format, 0)| + 2 <= INT_MAX then Some(Print(v, format, 0)) else None
  {
    var p := new PrintBuffer(format);
    ghost var rest;
    var ok;
    ok, rest := p.PrintValue(v);
    if !ok {
      return None;
    }
    PrintHasNoNul(v, format, 0);
    Suffix([], Print(v, format, 0), p.Contents(), rest);
    p.UpdateOffset(rest);
    assert [] + Print(v, format, 0) == Print(v, format, 0);
    return Some(p.buffer[..p.offset]);
  }

  // ----- how the pieces of a printed array or object add up

  lemma {:induction false} ItemsTail(texts: seq<Text>, k: nat, gap: Text)
    requires k < |texts|
    ensures JoinItems(texts[k..], gap) ==
      texts[k] + (if k + 1 < |texts| then [COMMA] + gap else []) + JoinItems(texts[k + 1..], gap)
  {
    assert texts[k..][1..] == texts[k + 1..];
    if k + 1 == |texts| {
      assert texts[k + 1..] == [];
      assert texts[k] + [] + [] == texts[k];
    }
  }

  lemma {:induction false} MembersTail(entries: seq<Entry>, k: nat, newLine: Text)
    requires k < |entries|
    ensures JoinMembers(entries[k..], newLine) ==
      entries[k].key + entries[k].text + (Comma(k + 1 == |entries|) + newLine) + JoinMembers(entries[k + 1..], newLine)
  {
    assert entries[k..][1..] == entries[k + 1..];
  }

  /** Member k with its line end, between what is done and what is still to come. */
  lemma {:induction false} MemberAt(
    ms: seq<Member>, fmt: bool, depth: nat, k: nat, entries: seq<Entry>, start: Text, done: Text) returns (t: Text)
    requires WellFormedMembers(ms) && k < |ms| && entries == MemberTexts(ms, fmt, depth)
    ensures t == KeyText(ms[k].name, fmt, depth) + Print(ms[k].value, fmt, depth) + (Comma(k + 1 == |ms|) + NewLine(fmt))
    ensures WellFormed(ms[k].value) && NUL !in ms[k].name
    ensures (start + done) + t == start + (done + t)
    ensures done + JoinMembers(entries[k..], NewLine(fmt)) == (done + t) + JoinMembers(entries[k + 1..], NewLine(fmt))
  {
    MemberTextAt(ms, fmt, depth, k);
    MembersTail(entries, k, NewLine(fmt));
    t := entries[k].key + entries[k].text + (Comma(k + 1 == |entries|) + NewLine(fmt));
    Assoc(done, t, JoinMembers(entries[k + 1..], NewLine(fmt)));
    Assoc(start, done, t);
  }

  lemma {:induction false} EscapeNext(s: Text, i: nat)
    requires i < |s|
    ensures Escape(s[..i + 1]) == Escape(s[..i]) + EscapeByte(s[i])
    ensures [QUOTE] + Escape(s[..i]) + EscapeByte(s[i]) == [QUOTE] + Escape(s[..i + 1])
    ensures |Escape(s[..i + 1])| <= |Escape(s)|
  {
    assert s[..i + 1] == s[..i] + [s[i]];
    EscapeSnoc(s[..i], s[i]);
    EscapePrefix(s, i + 1);
  }

  lemma Assoc(a: Text, b: Text, c: Text)
    ensures a + b + c == a + (b + c)
  {
  }

  lemma ArrayPieces(start: Text, body: Text)
    ensures start + [OPEN_BRACKET] + body + [CLOSE_BRACKET] == start + ([OPEN_BRACKET] + body + [CLOSE_BRACKET])
  {
  }

  lemma SizeOf(whole: Text, a: Text, b: Text)
    requires whole == a + b
    ensures |whole| == |a| + |b|
  {
  }

  lemma ObjectPieces(start: Text, newLine: Text, body: Text, indent: Text, text: Text)
    requires text == [OPEN_BRACE] + newLine + body + indent + [CLOSE_BRACE]
    ensures start + ([OPEN_BRACE] + newLine) + body + (indent + [CLOSE_BRACE]) == start + text
    ensures |text| == |newLine| + |body| + |indent| + 2
  {
  }

  /** What is left behind the offset is a suffix of the text just printed. */
  lemma Suffix(before: Text, text: Text, after: Text, rest: Text)
    requires after + rest == before + text && |before| <= |after| && NUL !in text
    ensures NUL !in rest
  {
    forall i | 0 <= i < |rest|
      ensures rest[i] in text
    {
      assert (after + rest)[|after| + i] == rest[i];
      assert (before + text)[|after| + i] == text[|after| + i - |before|];
    }
  }

  lemma {:induction false} EscapePrefix(s: Text, i: nat)
    requires i <= |s|
    ensures |Escape(s[..i])| <= |Escape(s)|
    decreases |s| - i
  {
    if i == |s| {
      assert s[..i] == s;
    } else {
      assert s[..i + 1] == s[..i] + [s[i]];
      EscapeSnoc(s[..i], s[i]);
      EscapePrefix(s, i + 1);
    }
  }
}
