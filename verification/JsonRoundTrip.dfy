/** Printing and parsing back, formatted or not, at every nesting depth. */
module JsonRoundTrip {
  import opened Bytes
  import opened Json

  lemma {:induction false} AtSplit(c: Text, i: nat, a: Text, b: Text)
    requires At(c, i, a + b)
    ensures At(c, i, a) && At(c, i + |a|, b)
    decreases |a|
  {
    if a == [] {
      assert a + b == b;
    } else {
      assert (a + b)[1..] == a[1..] + b;
      AtSplit(c, i + 1, a[1..], b);
    }
  }

  lemma {:induction false} AtByte(c: Text, i: nat, t: Text, k: nat)
    requires At(c, i, t) && k < |t|
    ensures c[i + k] == t[k]
    decreases |t|
  {
    if k > 0 {
      AtByte(c, i + 1, t[1..], k - 1);
    }
  }

  lemma {:induction false} AtSlice(c: Text, i: nat, t: Text)
    requires i + |t| <= |c| && c[i..i + |t|] == t
    ensures At(c, i, t)
    decreases |t|
  {
    if t != [] {
      assert c[i] == c[i..i + |t|][0];
      assert c[i + 1..i + |t|] == t[1..];
      AtSlice(c, i + 1, t[1..]);
    }
  }

  lemma {:induction false} SliceAt(c: Text, i: nat, t: Text)
    requires At(c, i, t)
    ensures c[i..i + |t|] == t
  {
    forall k | 0 <= k < |t|
      ensures c[i..i + |t|][k] == t[k]
    {
      AtByte(c, i, t, k);
    }
  }

  lemma {:induction false} AtThree(c: Text, i: nat, x: Text, y: Text, z: Text)
    requires At(c, i, x + y + z)
    ensures At(c, i, x) && At(c, i + |x|, y) && At(c, i + |x| + |y|, z)
  {
    AtSplit(c, i, x + y, z);
    AtSplit(c, i, x, y);
  }

  // ----- white space

  /** Only white space from i up to j, and j is not white space. */
  predicate Gap(c: Text, i: nat, j: nat)
    decreases j - i
  {
    i <= j < |c| && if i == j then c[j] > 32 else c[i] <= 32 && Gap(c, i + 1, j)
  }

  lemma {:induction false} SkipGap(c: Text, i: nat, j: nat)
    requires Gap(c, i, j)
    ensures SkipWs(c, i) == j
    decreases j - i
  {
    if i < j {
      SkipGap(c, i + 1, j);
    }
  }

  predicate Blank(t: Text) { forall k :: 0 <= k < |t| ==> t[k] <= 32 }

  lemma {:induction false} GapJoin(c: Text, i: nat, t: Text, j: nat)
    requires At(c, i, t) && Blank(t) && Gap(c, i + |t|, j)
    ensures Gap(c, i, j)
    decreases |t|
  {
    if t != [] {
      GapJoin(c, i + 1, t[1..], j);
    }
  }

  // ----- strings

  lemma {:induction false} EscapeEnds(c: Text, j: nat, s: Text)
    requires At(c, j, Escape(s) + [QUOTE])
    ensures EndQuote(c, j) == Some(j + |Escape(s)|)
    decreases |s|
  {
    if s == [] {
      AtByte(c, j, Escape(s) + [QUOTE], 0);
    } else {
      var e := EscapeByte(s[0]);
      assert Escape(s) + [QUOTE] == e + (Escape(s[1..]) + [QUOTE]);
      AtSplit(c, j, e, Escape(s[1..]) + [QUOTE]);
      EscapeEnds(c, j + |e|, s[1..]);
      SkipEscape(c, j, s[0]);
    }
  }

  /** The scan for the closing quote steps over one escaped byte. */
  lemma {:induction false} SkipEscape(c: Text, j: nat, b: Byte)
    requires At(c, j, EscapeByte(b))
    ensures EndQuote(c, j) == EndQuote(c, j + |EscapeByte(b)|)
  {
    var e := EscapeByte(b);
    AtByte(c, j, e, 0);
    if |e| == 2 {
      AtByte(c, j, e, 1);
    } else if |e| == 6 {
      AtByte(c, j, e, 1);
      AtByte(c, j, e, 2);
      AtByte(c, j, e, 3);
      AtByte(c, j, e, 4);
      AtByte(c, j, e, 5);
      assert EndQuote(c, j) == EndQuote(c, j + 2);
      assert EndQuote(c, j + 2) == EndQuote(c, j + 3);
      assert EndQuote(c, j + 3) == EndQuote(c, j + 4);
      assert EndQuote(c, j + 4) == EndQuote(c, j + 5);
    }
  }

  lemma {:induction false} FourDigits(c: Text, p: nat, b: Byte)
    requires p + 4 <= |c| && c[p] == c[p + 1] == 48
    requires c[p + 2] == HexDigit(b / 16) && c[p + 3] == HexDigit(b % 16)
    ensures HexDigits(c, p, 4) == Some(b)
  {
    assert HexDigits(c, p, 0) == Some(0);
    assert HexDigits(c, p, 1) == Some(0);
    assert HexDigits(c, p, 2) == Some(0);
    assert HexDigits(c, p, 3) == Some(b / 16);
  }

  lemma {:induction false} UnescapeByte(c: Text, p: nat, end: nat, b: Byte)
    requires At(c, p, EscapeByte(b)) && p + |EscapeByte(b)| <= end < |c| && b != NUL
    ensures Unescape(c, p, end) == Then([b], Unescape(c, p + |EscapeByte(b)|, end))
  {
    var e := EscapeByte(b);
    AtByte(c, p, e, 0);
    if |e| >= 2 {
      AtByte(c, p, e, 1);
    }
    if |e| == 6 {
      AtByte(c, p, e, 2);
      AtByte(c, p, e, 3);
      AtByte(c, p, e, 4);
      AtByte(c, p, e, 5);
      assert HexValue(48) == Some(0);
      assert HexValue(HexDigit(b / 16)) == Some(b / 16) && HexValue(HexDigit(b % 16)) == Some(b % 16);
      FourDigits(c, p + 2, b);
      assert Hex4(c, p + 2) == b;
      assert Utf16(c, p, end) == Some(([b], 6));
    }
  }

  lemma {:induction false} EscapeSplit(c: Text, p: nat, s: Text)
    requires s != [] && At(c, p, Escape(s))
    ensures At(c, p, EscapeByte(s[0])) && At(c, p + |EscapeByte(s[0])|, Escape(s[1..]))
    ensures |Escape(s)| == |EscapeByte(s[0])| + |Escape(s[1..])|
  {
    var e, rest := EscapeByte(s[0]), Escape(s[1..]);
    assert Escape(s) == e + rest;
    AtSplit(c, p, e, rest);
  }

  lemma {:induction false} UnescapeEscape(c: Text, p: nat, end: nat, s: Text)
    requires At(c, p, Escape(s)) && end == p + |Escape(s)| < |c| && NUL !in s
    ensures Unescape(c, p, end) == Some(s)
    decreases |s|
  {
    if s != [] {
      EscapeSplit(c, p, s);
      UnescapeEscape(c, p + |EscapeByte(s[0])|, end, s[1..]);
      assert s[0] in s;
      UnescapeFirst(c, p, end, s);
    }
  }

  lemma {:induction false} UnescapeFirst(c: Text, p: nat, end: nat, s: Text)
    requires s != [] && s[0] != NUL && At(c, p, EscapeByte(s[0])) && p + |EscapeByte(s[0])| <= end < |c|
    requires Unescape(c, p + |EscapeByte(s[0])|, end) == Some(s[1..])
    ensures Unescape(c, p, end) == Some(s)
  {
    UnescapeByte(c, p, end, s[0]);
    assert [s[0]] + s[1..] == s;
  }

  lemma {:induction false} WholeCString(s: Text)
    requires NUL !in s
    ensures CString(s) == s && CString(s + [NUL]) == s
  {
    if s != [] {
      assert s[0] in s;
      WholeCString(s[1..]);
      assert (s + [NUL])[1..] == s[1..] + [NUL];
    }
  }

  lemma QuotedLayout(c: Text, i: nat, body: Text)
    requires At(c, i, [QUOTE] + body + [QUOTE])
    ensures i < |c| && c[i] == QUOTE && At(c, i + 1, body + [QUOTE]) && At(c, i + 1, body)
    ensures i + 1 + |body| < |c|
  {
    assert [QUOTE] + body + [QUOTE] == [QUOTE] + (body + [QUOTE]);
    AtSplit(c, i, [QUOTE], body + [QUOTE]);
    AtByte(c, i, [QUOTE], 0);
    AtSplit(c, i + 1, body, [QUOTE]);
  }

  lemma {:induction false} StringParsesBack(c: Text, i: nat, s: Text)
    requires At(c, i, Quoted(s)) && NUL !in s
    ensures ParseString(c, i) == Some((s, i + |Quoted(s)|))
    ensures c[i] == QUOTE
  {
    QuotedLayout(c, i, Escape(s));
    BodyParsesBack(c, i, Escape(s), s);
  }

  lemma {:induction false} BodyParsesBack(c: Text, i: nat, body: Text, s: Text)
    requires body == Escape(s) && NUL !in s && i < |c| && c[i] == QUOTE
    requires At(c, i + 1, body + [QUOTE]) && At(c, i + 1, body) && i + 1 + |body| < |c|
    ensures ParseString(c, i) == Some((s, i + 2 + |body|))
  {
    EscapeEnds(c, i + 1, s);
    UnescapeEscape(c, i + 1, i + 1 + |body|, s);
    WholeCString(s);
    StringReads(c, i, i + 1 + |body|, s);
  }

  lemma {:induction false} StringReads(c: Text, i: nat, end: nat, s: Text)
    requires i < |c| && c[i] == QUOTE && EndQuote(c, i + 1) == Some(end) && end < |c|
    requires Unescape(c, i + 1, end) == Some(s) && CString(s) == s
    ensures ParseString(c, i) == Some((s, end + 1))
  {
  }

  // ----- numbers

  lemma {:induction false} IntTextReads(n: int)
    requires -INT_MAX - 1 <= n <= INT_MAX
    ensures StrToD(IntText(n)) == Some((JNum(n), |IntText(n)|))
  {
    var t := IntText(n);
    var s := SignLength(t);
    var digits := Digits(if n < 0 then -n else n);
    assert IsDigit(digits[0]);
    assert t[s..] == digits;
    FullRun(digits);
    DecimalDigits(if n < 0 then -n else n);
    assert t[|t|..] == [] && t[s..|t|] == digits;
  }

  lemma IntTextBytes(n: int)
    ensures forall i :: 0 <= i < |IntText(n)| ==> IsNumberByte(IntText(n)[i])
  {
  }

  lemma {:induction false} RunOf(c: Text, i: nat, t: Text)
    requires At(c, i, t) && i + |t| < |c| && !IsNumberByte(c[i + |t|])
    requires forall k :: 0 <= k < |t| ==> IsNumberByte(t[k])
    ensures NumberRun(c[i..]) == |t|
    decreases |t|
  {
    if t != [] {
      assert t == [t[0]] + t[1..];
      AtSplit(c, i, [t[0]], t[1..]);
      AtByte(c, i, t, 0);
      RunOf(c, i + 1, t[1..]);
      assert c[i..][1..] == c[i + 1..];
    }
  }

  lemma {:induction false} NumberParsesBack(c: Text, i: nat, n: int)
    requires At(c, i, IntText(n)) && i + |IntText(n)| < |c| && !IsNumberByte(c[i + |IntText(n)|])
    requires -INT_MAX - 1 <= n <= INT_MAX
    ensures ParseNumber(c, i) == Some((JNum(n), i + |IntText(n)|))
  {
    var t := IntText(n);
    IntTextReads(n);
    IntTextBytes(n);
    RunOf(c, i, t);
    SliceAt(c, i, t);
    assert c[i..][..|t|] == c[i..i + |t|];
  }

  // ----- arrays, for element texts that each parse back

  /** What parse_value must answer for a value printed at i. */
  function Answer<T>(fits: bool, v: T, end: nat): Option<(T, nat)> {
    if fits then Some((v, end)) else None
  }

  predicate Starts(t: Text) { t != [] && t[0] > 32 && t[0] != CLOSE_BRACKET && t[0] != 0xEF }

  /** Wherever the text lies in c, with no number byte behind it, it is read back as v. */
  ghost predicate Reads(c: Text, t: Text, v: Json, depth: nat) {
    Starts(t) &&
    forall i: nat :: At(c, i, t) && i + |t| < |c| && !IsNumberByte(c[i + |t|]) ==>
      ParseValue(c, i, depth) == Answer(depth + Depth(v) <= NESTING_LIMIT, v, i + |t|)
  }

  ghost predicate AllRead(c: Text, texts: seq<Text>, items: seq<Json>, depth: nat) {
    |texts| == |items| &&
    (texts == [] || (Reads(c, texts[0], items[0], depth) && AllRead(c, texts[1..], items[1..], depth)))
  }

  lemma {:induction false} ReadAt(c: Text, t: Text, v: Json, depth: nat, i: nat)
    requires Reads(c, t, v, depth) && At(c, i, t) && i + |t| < |c| && !IsNumberByte(c[i + |t|])
    ensures ParseValue(c, i, depth) == Answer(depth + Depth(v) <= NESTING_LIMIT, v, i + |t|)
    ensures c[i] == t[0]
  {
  }

  /** Texts joined at j, white space between the bracket or comma at i and j. */
  lemma {:induction false} ItemsParseBack(c: Text, i: nat, j: nat, texts: seq<Text>, items: seq<Json>, gap: Text, depth: nat)
    requires texts != [] && AllRead(c, texts, items, depth)
    requires i < j && Gap(c, i + 1, j) && At(c, j, JoinItems(texts, gap)) && Blank(gap)
    requires j + |JoinItems(texts, gap)| < |c| && c[j + |JoinItems(texts, gap)|] == CLOSE_BRACKET
    ensures ParseItems(c, i, depth) ==
      Answer(depth + ItemsDepth(items) <= NESTING_LIMIT, items, j + |JoinItems(texts, gap)|)
    decreases |texts|
  {
    if |texts| == 1 {
      OneItem(c, i, j, texts, items, gap, depth);
    } else {
      ItemsSplit(c, i, j, texts, items, gap, depth);
      var k := j + |texts[0]|;
      ItemsParseBack(c, k, k + 1 + |gap|, texts[1..], items[1..], gap, depth);
      MoreItems(c, i, items[0], depth, k, items[1..], j + |JoinItems(texts, gap)|);
      assert items == [items[0]] + items[1..];
    }
  }

  lemma {:induction false} OneItem(c: Text, i: nat, j: nat, texts: seq<Text>, items: seq<Json>, gap: Text, depth: nat)
    requires |texts| == 1 && AllRead(c, texts, items, depth)
    requires i < j && Gap(c, i + 1, j) && At(c, j, JoinItems(texts, gap))
    requires j + |JoinItems(texts, gap)| < |c| && c[j + |JoinItems(texts, gap)|] == CLOSE_BRACKET
    ensures ParseItems(c, i, depth) ==
      Answer(depth + ItemsDepth(items) <= NESTING_LIMIT, items, j + |JoinItems(texts, gap)|)
  {
    assert items == [items[0]];
    ItemReads(c, i, j, texts[0], items[0], depth);
    LastItem(c, i, items[0], depth, j + |texts[0]|);
  }

  /** The first of several elements is read, and the others stand behind it. */
  lemma {:induction false} ItemsSplit(c: Text, i: nat, j: nat, texts: seq<Text>, items: seq<Json>, gap: Text, depth: nat)
    requires |texts| >= 2 && AllRead(c, texts, items, depth)
    requires i < j && Gap(c, i + 1, j) && At(c, j, JoinItems(texts, gap)) && Blank(gap)
    requires j + |JoinItems(texts, gap)| < |c|
    ensures AllRead(c, texts[1..], items[1..], depth)
    ensures
      var k := j + |texts[0]|;
      var next := k + 1 + |gap|;
      && k < j + |JoinItems(texts, gap)| && c[k] == COMMA
      && ParseItem(c, i, depth) == Answer(depth + Depth(items[0]) <= NESTING_LIMIT, items[0], k)
      && At(c, next, JoinItems(texts[1..], gap)) && Gap(c, k + 1, next)
      && next + |JoinItems(texts[1..], gap)| == j + |JoinItems(texts, gap)|
  {
    assert AllRead(c, texts[1..], items[1..], depth);
    ItemsLayout(c, j, texts, gap);
    ItemReads(c, i, j, texts[0], items[0], depth);
  }

  /** Where the second element starts, and that a comma precedes it. */
  lemma {:induction false} ItemsLayout(c: Text, j: nat, texts: seq<Text>, gap: Text)
    requires |texts| >= 2 && Starts(texts[1]) && At(c, j, JoinItems(texts, gap)) && Blank(gap)
    ensures
      var k := j + |texts[0]|;
      var next := k + 1 + |gap|;
      && At(c, j, texts[0]) && k < |c| && c[k] == COMMA
      && At(c, next, JoinItems(texts[1..], gap)) && Gap(c, k + 1, next)
      && next + |JoinItems(texts[1..], gap)| == j + |JoinItems(texts, gap)|
  {
    var k := j + |texts[0]|;
    var next := k + 1 + |gap|;
    var rest := JoinItems(texts[1..], gap);
    assert JoinItems(texts, gap) == texts[0] + ([COMMA] + gap) + rest;
    AtThree(c, j, texts[0], [COMMA] + gap, rest);
    AtSplit(c, k, [COMMA], gap);
    AtByte(c, k, [COMMA], 0);
    assert rest[0] == texts[1][0];
    AtByte(c, next, rest, 0);
    GapJoin(c, k + 1, gap, next);
  }

  lemma {:induction false} ItemReads(c: Text, i: nat, j: nat, t: Text, v: Json, depth: nat)
    requires Reads(c, t, v, depth) && i < j && Gap(c, i + 1, j) && At(c, j, t)
    requires j + |t| < |c| && !IsNumberByte(c[j + |t|])
    ensures ParseItem(c, i, depth) == Answer(depth + Depth(v) <= NESTING_LIMIT, v, j + |t|)
  {
    ReadAt(c, t, v, depth, j);
    SkipGap(c, i + 1, j);
  }

  lemma {:induction false} LastItem(c: Text, i: nat, v: Json, depth: nat, close: nat)
    requires i < close < |c| && c[close] == CLOSE_BRACKET
    requires ParseItem(c, i, depth) == Answer(depth + Depth(v) <= NESTING_LIMIT, v, close)
    ensures ParseItems(c, i, depth) == Answer(depth + ItemsDepth([v]) <= NESTING_LIMIT, [v], close)
  {
    SkipGap(c, close, close);
    assert [v][1..] == [] && ItemsDepth([v]) == Depth(v);
  }

  lemma {:induction false} MoreItems(c: Text, i: nat, v: Json, depth: nat, k: nat, rest: seq<Json>, close: nat)
    requires i < k < close < |c| && c[k] == COMMA
    requires ParseItem(c, i, depth) == Answer(depth + Depth(v) <= NESTING_LIMIT, v, k)
    requires ParseItems(c, k, depth) == Answer(depth + ItemsDepth(rest) <= NESTING_LIMIT, rest, close)
    ensures ParseItems(c, i, depth) == Answer(depth + ItemsDepth([v] + rest) <= NESTING_LIMIT, [v] + rest, close)
  {
    SkipGap(c, k, k);
    assert ([v] + rest)[1..] == rest && ItemsDepth([v] + rest) == Max(Depth(v), ItemsDepth(rest));
  }

  lemma {:induction false} ArrayParsesBack(c: Text, i: nat, texts: seq<Text>, items: seq<Json>, gap: Text, depth: nat)
    requires AllRead(c, texts, items, depth + 1) && At(c, i, ArrayText(texts, gap)) && Blank(gap) && depth < NESTING_LIMIT
    ensures ParseArray(c, i, depth) ==
      Answer(depth + 1 + ItemsDepth(items) <= NESTING_LIMIT, JArr(items), i + |ArrayText(texts, gap)|)
  {
    ArrayLayout(c, i, texts, gap);
    var close := i + 1 + |JoinItems(texts, gap)|;
    if items != [] {
      FirstItem(c, i + 1, texts, gap);
      ItemsParseBack(c, i, i + 1, texts, items, gap, depth + 1);
    }
    ArrayCases(c, i, depth, items, close);
  }

  lemma {:induction false} ArrayLayout(c: Text, i: nat, texts: seq<Text>, gap: Text)
    requires At(c, i, ArrayText(texts, gap))
    ensures
      var close := i + 1 + |JoinItems(texts, gap)|;
      && At(c, i + 1, JoinItems(texts, gap)) && close < |c| && c[close] == CLOSE_BRACKET
      && close + 1 == i + |ArrayText(texts, gap)| && c[i] == OPEN_BRACKET
  {
    var body := JoinItems(texts, gap);
    AtThree(c, i, [OPEN_BRACKET], body, [CLOSE_BRACKET]);
    AtByte(c, i, [OPEN_BRACKET], 0);
    AtByte(c, i + 1 + |body|, [CLOSE_BRACKET], 0);
  }

  lemma {:induction false} FirstItem(c: Text, j: nat, texts: seq<Text>, gap: Text)
    requires texts != [] && Starts(texts[0]) && At(c, j, JoinItems(texts, gap))
    ensures JoinItems(texts, gap) != [] && c[j] == texts[0][0] && Gap(c, j, j)
  {
    assert JoinItems(texts, gap)[0] == texts[0][0];
    AtByte(c, j, JoinItems(texts, gap), 0);
  }

  lemma {:induction false} ArrayCases(c: Text, i: nat, depth: nat, items: seq<Json>, close: nat)
    requires i < close < |c| && c[i + 1] > 32 && c[close] == CLOSE_BRACKET && depth < NESTING_LIMIT
    requires items == [] ==> close == i + 1
    requires items != [] ==> c[i + 1] != CLOSE_BRACKET
    requires items != [] ==>
      ParseItems(c, i, depth + 1) == Answer(depth + 1 + ItemsDepth(items) <= NESTING_LIMIT, items, close)
    ensures ParseArray(c, i, depth) == Answer(depth + 1 + ItemsDepth(items) <= NESTING_LIMIT, JArr(items), close + 1)
  {
    SkipGap(c, i + 1, i + 1);
  }

  // ----- objects, for keys and value texts that each parse back

  /** A key is read from the brace or comma at i on, and the value found behind it. */
  predicate KeyRead(c: Text, i: nat, name: Text, value: nat) {
    && i + 1 < |c|
    && var r := ParseString(c, SkipWs(c, i + 1));
    && r.Some? && r.value.0 == name
    && var k := SkipWs(c, r.value.1);
    && k < |c| && c[k] == COLON && SkipWs(c, k + 1) == value
  }

  /** Wherever the key text lies in c, it is white space up to a quote, and then the name. */
  ghost predicate KeyReads(c: Text, key: Text, indent: nat, name: Text) {
    indent < |key| &&
    forall at: nat :: At(c, at, key) ==> KeyReadsAt(c, key, indent, name, at)
  }

  ghost predicate KeyReadsAt(c: Text, key: Text, indent: nat, name: Text, at: nat) {
    && Gap(c, at, at + indent) && c[at + indent] == QUOTE
    && (at + |key| < |c| && c[at + |key|] > 32 ==> KeyFound(c, name, at + indent, at + |key|))
  }

  ghost predicate KeyFound(c: Text, name: Text, quote: nat, value: nat) {
    forall i: nat :: Leads(c, i, quote) ==> KeyRead(c, i, name, value)
  }

  /** Only white space between the brace or comma at i and the quote. */
  predicate Leads(c: Text, i: nat, quote: nat) { i < quote && Gap(c, i + 1, quote) }

  ghost predicate ReadsMember(c: Text, e: Entry, m: Member, indent: nat, depth: nat) {
    KeyReads(c, e.key, indent, m.name) && Reads(c, e.text, m.value, depth)
  }

  ghost predicate AllReadMembers(c: Text, entries: seq<Entry>, ms: seq<Member>, indent: nat, depth: nat) {
    |entries| == |ms| &&
    (entries == [] ||
     (ReadsMember(c, entries[0], ms[0], indent, depth) && AllReadMembers(c, entries[1..], ms[1..], indent, depth)))
  }

  /** The value after a key, and the comma or the white space after the value. */
  lemma {:induction false} EntryLayout(c: Text, at: nat, e: Entry, rest: Text, newLine: Text, last: bool)
    requires At(c, at, e.key + e.text + (Comma(last) + newLine) + rest) && e.text != []
    ensures
      var value := at + |e.key|;
      var end := value + |e.text|;
      var after := end + |Comma(last)|;
      && At(c, at, e.key) && At(c, value, e.text) && c[value] == e.text[0]
      && (!last ==> end < |c| && c[end] == COMMA)
      && At(c, after, newLine) && At(c, after + |newLine|, rest)
  {
    var end := at + |e.key| + |e.text|;
    AtThree(c, at, e.key + e.text, Comma(last) + newLine, rest);
    AtSplit(c, at, e.key, e.text);
    AtByte(c, at + |e.key|, e.text, 0);
    AtSplit(c, end, Comma(last), newLine);
    if !last {
      AtByte(c, end, Comma(last), 0);
    }
  }

  lemma {:induction false} MembersStart(c: Text, at: nat, entries: seq<Entry>, m: Member, newLine: Text, indent: nat, depth: nat)
    requires entries != [] && ReadsMember(c, entries[0], m, indent, depth) && At(c, at, JoinMembers(entries, newLine))
    ensures Gap(c, at, at + indent) && c[at + indent] == QUOTE && at + indent < at + |JoinMembers(entries, newLine)|
  {
    EntryLayout(c, at, entries[0], JoinMembers(entries[1..], newLine), newLine, |entries| == 1);
    assert KeyReadsAt(c, entries[0].key, indent, m.name, at);
  }

  /**
   Entries joined at `at`, only white space between the brace or comma at i and the
   first key, and `close` is the first byte after them that is not white space.
   */
  lemma {:induction false} MembersParseBack(c: Text, i: nat, at: nat, entries: seq<Entry>, ms: seq<Member>,
                                            newLine: Text, indent: nat, depth: nat, close: nat)
    requires ms != [] && AllReadMembers(c, entries, ms, indent, depth)
    requires At(c, at, JoinMembers(entries, newLine)) && Blank(newLine)
    requires Leads(c, i, at + indent)
    requires Gap(c, at + |JoinMembers(entries, newLine)|, close) && c[close] == CLOSE_BRACE
    ensures ParseMembers(c, i, depth) == Answer(depth + MembersDepth(ms) <= NESTING_LIMIT, ms, close)
    decreases |ms|
  {
    if |ms| == 1 {
      OneMember(c, i, at, entries, ms, newLine, indent, depth, close);
    } else {
      MembersSplit(c, i, at, entries, ms, newLine, indent, depth, close);
      var end := at + |entries[0].key| + |entries[0].text|;
      MembersParseBack(c, end, end + 1 + |newLine|, entries[1..], ms[1..], newLine, indent, depth, close);
      MoreMembersRead(c, i, ms[0], end, depth, ms[1..], close);
      assert ms == [ms[0]] + ms[1..];
    }
  }

  lemma {:induction false} OneMember(c: Text, i: nat, at: nat, entries: seq<Entry>, ms: seq<Member>,
                                     newLine: Text, indent: nat, depth: nat, close: nat)
    requires |ms| == 1 && AllReadMembers(c, entries, ms, indent, depth)
    requires At(c, at, JoinMembers(entries, newLine)) && Blank(newLine)
    requires Leads(c, i, at + indent)
    requires Gap(c, at + |JoinMembers(entries, newLine)|, close) && c[close] == CLOSE_BRACE
    ensures ParseMembers(c, i, depth) == Answer(depth + MembersDepth(ms) <= NESTING_LIMIT, ms, close)
  {
    LastLayout(c, at, entries, newLine, close);
    assert ms == [ms[0]];
    LastMember(c, i, at, entries[0], ms[0], indent, depth, close);
  }

  /** The first of several members is read, and the others stand behind it. */
  lemma {:induction false} MembersSplit(c: Text, i: nat, at: nat, entries: seq<Entry>, ms: seq<Member>,
                                        newLine: Text, indent: nat, depth: nat, close: nat)
    requires |ms| > 1 && AllReadMembers(c, entries, ms, indent, depth)
    requires At(c, at, JoinMembers(entries, newLine)) && Blank(newLine) && Leads(c, i, at + indent)
    requires Gap(c, at + |JoinMembers(entries, newLine)|, close)
    ensures AllReadMembers(c, entries[1..], ms[1..], indent, depth)
    ensures
      var end := at + |entries[0].key| + |entries[0].text|;
      var at' := end + 1 + |newLine|;
      && i < end < close && c[end] == COMMA
      && ParseMember(c, i, depth) == Answer(depth + Depth(ms[0].value) <= NESTING_LIMIT, ms[0], end)
      && At(c, at', JoinMembers(entries[1..], newLine))
      && Gap(c, at' + |JoinMembers(entries[1..], newLine)|, close)
      && Leads(c, end, at' + indent)
  {
    assert AllReadMembers(c, entries[1..], ms[1..], indent, depth);
    Unjoined(entries, newLine);
    SplitOff(c, i, at, entries[0], ms[0], newLine, indent, depth,
             JoinMembers(entries[1..], newLine), JoinMembers(entries, newLine));
    NextKey(c, at + |entries[0].key| + |entries[0].text|, entries[1..], ms[1], newLine, indent, depth);
  }

  lemma {:induction false} SplitOff(c: Text, i: nat, at: nat, e: Entry, m: Member,
                                    newLine: Text, indent: nat, depth: nat, rest: Text, joined: Text)
    requires joined == e.key + e.text + (Comma(false) + newLine) + rest
    requires ReadsMember(c, e, m, indent, depth) && At(c, at, joined) && Leads(c, i, at + indent)
    ensures
      var end := at + |e.key| + |e.text|;
      var at' := end + 1 + |newLine|;
      && i < end < at' <= |c| && c[end] == COMMA && At(c, end + 1, newLine)
      && ParseMember(c, i, depth) == Answer(depth + Depth(m.value) <= NESTING_LIMIT, m, end)
      && At(c, at', rest) && at' + |rest| == at + |joined|
  {
    RestLayout(c, at, e, newLine, rest, joined);
    MemberReads(c, i, at, e, m, indent, depth, at + |e.key| + |e.text|);
  }

  lemma {:induction false} LastLayout(c: Text, at: nat, entries: seq<Entry>, newLine: Text, close: nat)
    requires |entries| == 1 && Starts(entries[0].text) && At(c, at, JoinMembers(entries, newLine)) && Blank(newLine)
    requires Gap(c, at + |JoinMembers(entries, newLine)|, close) && c[close] == CLOSE_BRACE
    ensures
      var e := entries[0];
      var value := at + |e.key|;
      At(c, at, e.key) && At(c, value, e.text) && Gap(c, value + |e.text|, close)
  {
    var e := entries[0];
    assert entries[1..] == [] && JoinMembers([], newLine) == [];
    assert JoinMembers(entries, newLine) == e.key + e.text + (Comma(true) + newLine) + [];
    assert |JoinMembers(entries, newLine)| == |e.key| + |e.text| + |newLine|;
    EntryLayout(c, at, e, [], newLine, true);
    GapJoin(c, at + |e.key| + |e.text|, newLine, close);
  }

  /** The first of several entries, its comma, and the text of the others behind it. */
  lemma {:induction false} RestLayout(c: Text, at: nat, e: Entry, newLine: Text, rest: Text, joined: Text)
    requires joined == e.key + e.text + (Comma(false) + newLine) + rest
    requires e.text != [] && At(c, at, joined)
    ensures
      var end := at + |e.key| + |e.text|;
      var at' := end + 1 + |newLine|;
      && At(c, at, e.key) && At(c, at + |e.key|, e.text)
      && end < |c| && c[end] == COMMA && At(c, end + 1, newLine)
      && At(c, at', rest) && at' + |rest| == at + |joined|
  {
    EntryLayout(c, at, e, rest, newLine, false);
  }

  lemma Unjoined(entries: seq<Entry>, newLine: Text)
    requires |entries| > 1
    ensures JoinMembers(entries, newLine) ==
      entries[0].key + entries[0].text + (Comma(false) + newLine) + JoinMembers(entries[1..], newLine)
  {
  }

  /** Only white space between the comma at `end` and the key behind it. */
  lemma {:induction false} NextKey(c: Text, end: nat, rest: seq<Entry>, m: Member, newLine: Text, indent: nat, depth: nat)
    requires rest != [] && ReadsMember(c, rest[0], m, indent, depth) && Blank(newLine)
    requires At(c, end + 1, newLine) && At(c, end + 1 + |newLine|, JoinMembers(rest, newLine))
    ensures Leads(c, end, end + 1 + |newLine| + indent)
  {
    MembersStart(c, end + 1 + |newLine|, rest, m, newLine, indent, depth);
    GapJoin(c, end + 1, newLine, end + 1 + |newLine| + indent);
  }

  lemma {:induction false} LastMember(c: Text, i: nat, at: nat, e: Entry, m: Member, indent: nat, depth: nat, close: nat)
    requires ReadsMember(c, e, m, indent, depth) && At(c, at, e.key) && At(c, at + |e.key|, e.text)
    requires Leads(c, i, at + indent)
    requires Gap(c, at + |e.key| + |e.text|, close) && c[close] == CLOSE_BRACE
    ensures ParseMembers(c, i, depth) == Answer(depth + MembersDepth([m]) <= NESTING_LIMIT, [m], close)
  {
    var end := at + |e.key| + |e.text|;
    EndsNumber(c, end, close);
    MemberReads(c, i, at, e, m, indent, depth, end);
    LastMemberRead(c, i, m, end, depth, close);
  }

  lemma {:induction false} LastMemberRead(c: Text, i: nat, m: Member, end: nat, depth: nat, close: nat)
    requires i < end && Gap(c, end, close) && c[close] == CLOSE_BRACE
    requires ParseMember(c, i, depth) == Answer(depth + Depth(m.value) <= NESTING_LIMIT, m, end)
    ensures ParseMembers(c, i, depth) == Answer(depth + MembersDepth([m]) <= NESTING_LIMIT, [m], close)
  {
    SkipGap(c, end, close);
    assert [m][1..] == [] && MembersDepth([m]) == Depth(m.value);
  }

  lemma {:induction false} MoreMembersRead(c: Text, i: nat, m: Member, end: nat, depth: nat, rest: seq<Member>, close: nat)
    requires i < end < close < |c| && c[end] == COMMA
    requires ParseMember(c, i, depth) == Answer(depth + Depth(m.value) <= NESTING_LIMIT, m, end)
    requires ParseMembers(c, end, depth) == Answer(depth + MembersDepth(rest) <= NESTING_LIMIT, rest, close)
    ensures ParseMembers(c, i, depth) == Answer(depth + MembersDepth([m] + rest) <= NESTING_LIMIT, [m] + rest, close)
  {
    SkipGap(c, end, end);
    assert ([m] + rest)[1..] == rest && MembersDepth([m] + rest) == Max(Depth(m.value), MembersDepth(rest));
  }

  lemma {:induction false} MemberReads(c: Text, i: nat, at: nat, e: Entry, m: Member, indent: nat, depth: nat, end: nat)
    requires ReadsMember(c, e, m, indent, depth) && At(c, at, e.key) && At(c, at + |e.key|, e.text)
    requires Leads(c, i, at + indent) && end == at + |e.key| + |e.text| < |c| && !IsNumberByte(c[end])
    ensures ParseMember(c, i, depth) == Answer(depth + Depth(m.value) <= NESTING_LIMIT, m, end)
  {
    ReadAt(c, e.text, m.value, depth, at + |e.key|);
    assert KeyReadsAt(c, e.key, indent, m.name, at);
    assert KeyRead(c, i, m.name, at + |e.key|);
  }

  lemma {:induction false} EndsNumber(c: Text, i: nat, j: nat)
    requires Gap(c, i, j) && c[j] == CLOSE_BRACE
    ensures !IsNumberByte(c[i])
  {
  }

  lemma {:induction false} ObjectParsesBack(c: Text, i: nat, entries: seq<Entry>, ms: seq<Member>,
                                            newLine: Text, indent: nat, outer: Text, depth: nat)
    requires AllReadMembers(c, entries, ms, indent, depth + 1) && depth < NESTING_LIMIT
    requires At(c, i, ObjectText(entries, newLine, outer)) && Blank(newLine) && Blank(outer)
    ensures ParseObject(c, i, depth) ==
      Answer(depth + 1 + MembersDepth(ms) <= NESTING_LIMIT, JObj(ms), i + |ObjectText(entries, newLine, outer)|)
  {
    var body := JoinMembers(entries, newLine);
    ObjectLayout(c, i, body, newLine, outer);
    var at := i + 1 + |newLine|;
    var close := at + |body| + |outer|;
    assert |ObjectText(entries, newLine, outer)| == 1 + |newLine| + |body| + |outer| + 1;
    if ms == [] {
      GapJoin(c, i + 1, newLine, close);
      EmptyObject(c, i, depth, close);
    } else {
      MembersFollow(c, i, at, entries, ms, newLine, indent, depth, close);
    }
  }

  lemma {:induction false} MembersFollow(c: Text, i: nat, at: nat, entries: seq<Entry>, ms: seq<Member>,
                                         newLine: Text, indent: nat, depth: nat, close: nat)
    requires ms != [] && AllReadMembers(c, entries, ms, indent, depth + 1) && depth < NESTING_LIMIT
    requires at == i + 1 + |newLine| && At(c, i + 1, newLine) && Blank(newLine) && At(c, at, JoinMembers(entries, newLine))
    requires Gap(c, at + |JoinMembers(entries, newLine)|, close) && c[close] == CLOSE_BRACE
    ensures ParseObject(c, i, depth) == Answer(depth + 1 + MembersDepth(ms) <= NESTING_LIMIT, JObj(ms), close + 1)
  {
    MembersParsed(c, i, at, entries, ms, newLine, indent, depth + 1, close);
    FullObject(c, i, depth, ms, at + indent - 1, close);
  }

  lemma {:induction false} MembersParsed(c: Text, i: nat, at: nat, entries: seq<Entry>, ms: seq<Member>,
                                         newLine: Text, indent: nat, depth: nat, close: nat)
    requires ms != [] && AllReadMembers(c, entries, ms, indent, depth)
    requires at == i + 1 + |newLine| && At(c, i + 1, newLine) && Blank(newLine) && At(c, at, JoinMembers(entries, newLine))
    requires Gap(c, at + |JoinMembers(entries, newLine)|, close) && c[close] == CLOSE_BRACE
    ensures Gap(c, i + 1, at + indent) && at + indent <= close && c[at + indent] == QUOTE
    ensures ParseMembers(c, at + indent - 1, depth) == Answer(depth + MembersDepth(ms) <= NESTING_LIMIT, ms, close)
  {
    FirstKey(c, i, at, entries, ms, newLine, indent, depth);
    MembersParseBack(c, at + indent - 1, at, entries, ms, newLine, indent, depth, close);
  }

  /** Only white space between the brace at i and the first key. */
  lemma {:induction false} FirstKey(c: Text, i: nat, at: nat, entries: seq<Entry>, ms: seq<Member>,
                                    newLine: Text, indent: nat, depth: nat)
    requires ms != [] && AllReadMembers(c, entries, ms, indent, depth)
    requires at == i + 1 + |newLine| && At(c, i + 1, newLine) && Blank(newLine) && At(c, at, JoinMembers(entries, newLine))
    ensures Gap(c, i + 1, at + indent) && Gap(c, at + indent, at + indent) && c[at + indent] == QUOTE
    ensures at + indent < at + |JoinMembers(entries, newLine)|
  {
    MembersStart(c, at, entries, ms[0], newLine, indent, depth);
    GapJoin(c, i + 1, newLine, at + indent);
  }

  lemma {:induction false} EmptyObject(c: Text, i: nat, depth: nat, close: nat)
    requires i < close < |c| && Gap(c, i + 1, close) && c[close] == CLOSE_BRACE && depth < NESTING_LIMIT
    ensures ParseObject(c, i, depth) == Some((JObj([]), close + 1))
  {
    SkipGap(c, i + 1, close);
  }

  lemma {:induction false} FullObject(c: Text, i: nat, depth: nat, ms: seq<Member>, before: nat, close: nat)
    requires i <= before < close < |c| && Gap(c, i + 1, before + 1) && c[before + 1] == QUOTE && depth < NESTING_LIMIT
    requires ParseMembers(c, before, depth + 1) ==
      Answer(depth + 1 + MembersDepth(ms) <= NESTING_LIMIT, ms, close)
    ensures ParseObject(c, i, depth) == Answer(depth + 1 + MembersDepth(ms) <= NESTING_LIMIT, JObj(ms), close + 1)
  {
    SkipGap(c, i + 1, before + 1);
  }

  /** The pieces of a printed object: the members, and white space before the closing brace. */
  lemma {:induction false} ObjectLayout(c: Text, i: nat, body: Text, newLine: Text, outer: Text)
    requires At(c, i, [OPEN_BRACE] + newLine + body + outer + [CLOSE_BRACE]) && Blank(outer)
    ensures
      var at := i + 1 + |newLine|;
      var close := at + |body| + |outer|;
      && At(c, i + 1, newLine) && At(c, at, body)
      && close < |c| && c[close] == CLOSE_BRACE && Gap(c, at + |body|, close)
  {
    var at := i + 1 + |newLine|;
    var close := at + |body| + |outer|;
    AtThree(c, i, [OPEN_BRACE] + newLine + body, outer, [CLOSE_BRACE]);
    AtThree(c, i, [OPEN_BRACE], newLine, body);
    AtByte(c, close, [CLOSE_BRACE], 0);
    GapJoin(c, at + |body|, outer, close);
  }

  // ----- keys

  /** A key: its quote comes after the indentation, its colon after the string. */
  lemma {:induction false} KeyLayout(c: Text, at: nat, indent: Text, quoted: Text, gap: Text)
    requires At(c, at, indent + quoted + ([COLON] + gap)) && quoted != [] && quoted[0] == QUOTE && Blank(indent)
    ensures
      var quote := at + |indent|;
      var colon := quote + |quoted|;
      && At(c, quote, quoted) && Gap(c, at, quote) && c[quote] == QUOTE
      && colon < |c| && c[colon] == COLON && At(c, colon + 1, gap)
  {
    var colon := at + |indent| + |quoted|;
    AtThree(c, at, indent, quoted, [COLON] + gap);
    AtSplit(c, colon, [COLON], gap);
    AtByte(c, colon, [COLON], 0);
    AtByte(c, at + |indent|, quoted, 0);
    GapJoin(c, at, indent, at + |indent|);
  }

  lemma {:induction false} KeyParsesBack(c: Text, i: nat, quote: nat, name: Text, gap: Text)
    requires Leads(c, i, quote) && At(c, quote, Quoted(name)) && NUL !in name && Blank(gap)
    requires quote + |Quoted(name)| < |c| && c[quote + |Quoted(name)|] == COLON
    requires At(c, quote + |Quoted(name)| + 1, gap)
    requires quote + |Quoted(name)| + 1 + |gap| < |c| && c[quote + |Quoted(name)| + 1 + |gap|] > 32
    ensures KeyRead(c, i, name, quote + |Quoted(name)| + 1 + |gap|)
  {
    var colon := quote + |Quoted(name)|;
    SkipGap(c, i + 1, quote);
    StringParsesBack(c, quote, name);
    SkipGap(c, colon, colon);
    GapJoin(c, colon + 1, gap, colon + 1 + |gap|);
    SkipGap(c, colon + 1, colon + 1 + |gap|);
  }

  lemma {:induction false} KeyTextReads(c: Text, name: Text, fmt: bool, printDepth: nat)
    requires NUL !in name
    ensures KeyReads(c, KeyText(name, fmt, printDepth), |Indent(fmt, printDepth)|, name)
  {
    var indent, quoted, gap := Indent(fmt, printDepth), Quoted(name), KeyGap(fmt);
    var key := KeyText(name, fmt, printDepth);
    forall at: nat | At(c, at, key)
      ensures KeyReadsAt(c, key, |indent|, name, at)
    {
      KeyLayout(c, at, indent, quoted, gap);
      var quote := at + |indent|;
      if at + |key| < |c| && c[at + |key|] > 32 {
        forall i: nat | Leads(c, i, quote)
          ensures KeyRead(c, i, name, at + |key|)
        {
          KeyParsesBack(c, i, quote, name, gap);
        }
      }
    }
  }

  // ----- values

  lemma {:induction false} FirstByte(v: Json, fmt: bool, depth: nat)
    requires WellFormed(v)
    ensures Starts(Print(v, fmt, depth))
  {
    if v.JNum? && v.n >= 0 {
      assert IsDigit(Digits(v.n)[0]);
    }
  }

  lemma {:induction false} NoKeyword(c: Text, i: nat)
    requires i < |c|
    ensures c[i] != 110 ==> !At(c, i, NULL_TEXT)
    ensures c[i] != 102 ==> !At(c, i, FALSE_TEXT)
    ensures c[i] != 116 ==> !At(c, i, TRUE_TEXT)
  {
  }

  lemma {:induction false} ItemTextAt(items: seq<Json>, fmt: bool, depth: nat, n: nat)
    requires n < |items| && WellFormedItems(items)
    ensures ItemTexts(items, fmt, depth)[n] == Print(items[n], fmt, depth) && WellFormed(items[n])
    decreases n
  {
    if n > 0 {
      ItemTextAt(items[1..], fmt, depth, n - 1);
    }
  }

  lemma {:induction false} MemberTextAt(ms: seq<Member>, fmt: bool, depth: nat, n: nat)
    requires n < |ms| && WellFormedMembers(ms)
    ensures MemberTexts(ms, fmt, depth)[n] == Entry(KeyText(ms[n].name, fmt, depth), Print(ms[n].value, fmt, depth))
    ensures WellFormed(ms[n].value) && NUL !in ms[n].name
    decreases n
  {
    if n > 0 {
      MemberTextAt(ms[1..], fmt, depth, n - 1);
    }
  }

  /** Every printed value reads back, at every depth that the parser reaches. */
  lemma {:induction false} PrintedReads(c: Text, v: Json, fmt: bool, printDepth: nat, depth: nat)
    requires WellFormed(v) && depth <= NESTING_LIMIT
    ensures Reads(c, Print(v, fmt, printDepth), v, depth)
    decreases v, 1
  {
    match v {
      case JArr(items) =>
        if depth < NESTING_LIMIT {
          ItemsRead(c, items, fmt, printDepth + 1, depth + 1);
        }
        ArrayReads(c, ItemTexts(items, fmt, printDepth + 1), items, ItemGap(fmt), depth);
      case JObj(ms) =>
        if depth < NESTING_LIMIT {
          MembersRead(c, ms, fmt, printDepth + 1, depth + 1);
        }
        ObjectReads(c, MemberTexts(ms, fmt, printDepth + 1), ms, NewLine(fmt), |Indent(fmt, printDepth + 1)|,
                    Indent(fmt, printDepth), depth);
      case _ => ScalarReads(c, v, fmt, printDepth, depth);
    }
  }

  lemma {:induction false} ScalarReads(c: Text, v: Json, fmt: bool, printDepth: nat, depth: nat)
    requires WellFormed(v) && !v.JArr? && !v.JObj? && depth <= NESTING_LIMIT
    ensures Reads(c, Print(v, fmt, printDepth), v, depth)
  {
    var t := Print(v, fmt, printDepth);
    FirstByte(v, fmt, printDepth);
    forall i: nat | At(c, i, t) && i + |t| < |c| && !IsNumberByte(c[i + |t|])
      ensures ParseValue(c, i, depth) == Answer(depth + Depth(v) <= NESTING_LIMIT, v, i + |t|)
    {
      ScalarReadsAt(c, i, t, v, fmt, printDepth, depth);
    }
  }

  lemma {:induction false} ScalarReadsAt(c: Text, i: nat, t: Text, v: Json, fmt: bool, printDepth: nat, depth: nat)
    requires WellFormed(v) && !v.JArr? && !v.JObj? && depth <= NESTING_LIMIT && t == Print(v, fmt, printDepth)
    requires At(c, i, t) && i + |t| < |c| && !IsNumberByte(c[i + |t|])
    ensures ParseValue(c, i, depth) == Answer(depth + Depth(v) <= NESTING_LIMIT, v, i + |t|)
  {
    ScalarParsesBack(c, i, v, fmt, printDepth, depth);
    assert Depth(v) == 0;
  }

  lemma {:induction false} ScalarParsesBack(c: Text, i: nat, v: Json, fmt: bool, printDepth: nat, depth: nat)
    requires WellFormed(v) && !v.JArr? && !v.JObj? && At(c, i, Print(v, fmt, printDepth))
    requires i + |Print(v, fmt, printDepth)| < |c| && !IsNumberByte(c[i + |Print(v, fmt, printDepth)|])
    ensures ParseValue(c, i, depth) == Some((v, i + |Print(v, fmt, printDepth)|))
  {
    NoKeyword(c, i);
    match v {
      case JNull =>
      case JFalse =>
      case JTrue =>
      case JNum(n) => NumberValue(c, i, n, depth);
      case JStr(s) => StringParsesBack(c, i, s);
    }
  }

  lemma {:induction false} NumberValue(c: Text, i: nat, n: int, depth: nat)
    requires WellFormed(JNum(n)) && At(c, i, IntText(n))
    requires i + |IntText(n)| < |c| && !IsNumberByte(c[i + |IntText(n)|])
    ensures ParseValue(c, i, depth) == Some((JNum(n), i + |IntText(n)|))
  {
    NumberParsesBack(c, i, n);
    AtByte(c, i, IntText(n), 0);
    NoKeyword(c, i);
    if n >= 0 {
      assert IsDigit(Digits(n)[0]);
    }
  }

  lemma {:induction false} ItemsRead(c: Text, items: seq<Json>, fmt: bool, printDepth: nat, depth: nat)
    requires WellFormedItems(items) && depth <= NESTING_LIMIT
    ensures AllRead(c, ItemTexts(items, fmt, printDepth), items, depth)
    decreases items, 0
  {
    if items != [] {
      PrintedReads(c, items[0], fmt, printDepth, depth);
      ItemsRead(c, items[1..], fmt, printDepth, depth);
      assert ItemTexts(items, fmt, printDepth)[1..] == ItemTexts(items[1..], fmt, printDepth);
    }
  }

  lemma {:induction false} ArrayReads(c: Text, texts: seq<Text>, items: seq<Json>, gap: Text, depth: nat)
    requires depth <= NESTING_LIMIT && Blank(gap)
    requires depth < NESTING_LIMIT ==> AllRead(c, texts, items, depth + 1)
    ensures Reads(c, ArrayText(texts, gap), JArr(items), depth)
  {
    var t := ArrayText(texts, gap);
    forall i: nat | At(c, i, t) && i + |t| < |c|
      ensures ParseValue(c, i, depth) == Answer(depth + Depth(JArr(items)) <= NESTING_LIMIT, JArr(items), i + |t|)
    {
      AtByte(c, i, t, 0);
      NoKeyword(c, i);
      assert ParseValue(c, i, depth) == ParseArray(c, i, depth);
      if depth < NESTING_LIMIT {
        ArrayParsesBack(c, i, texts, items, gap, depth);
      }
    }
  }

  lemma {:induction false} MembersRead(c: Text, ms: seq<Member>, fmt: bool, printDepth: nat, depth: nat)
    requires WellFormedMembers(ms) && depth <= NESTING_LIMIT
    ensures AllReadMembers(c, MemberTexts(ms, fmt, printDepth), ms, |Indent(fmt, printDepth)|, depth)
    decreases ms, 0
  {
    if ms != [] {
      KeyTextReads(c, ms[0].name, fmt, printDepth);
      PrintedReads(c, ms[0].value, fmt, printDepth, depth);
      MembersRead(c, ms[1..], fmt, printDepth, depth);
      assert MemberTexts(ms, fmt, printDepth)[1..] == MemberTexts(ms[1..], fmt, printDepth);
    }
  }

  lemma {:induction false} ObjectReads(c: Text, entries: seq<Entry>, ms: seq<Member>, newLine: Text, indent: nat,
                                       outer: Text, depth: nat)
    requires depth <= NESTING_LIMIT && Blank(newLine) && Blank(outer)
    requires depth < NESTING_LIMIT ==> AllReadMembers(c, entries, ms, indent, depth + 1)
    ensures Reads(c, ObjectText(entries, newLine, outer), JObj(ms), depth)
  {
    var t := ObjectText(entries, newLine, outer);
    forall i: nat | At(c, i, t) && i + |t| < |c|
      ensures ParseValue(c, i, depth) == Answer(depth + Depth(JObj(ms)) <= NESTING_LIMIT, JObj(ms), i + |t|)
    {
      AtByte(c, i, t, 0);
      NoKeyword(c, i);
      assert ParseValue(c, i, depth) == ParseObject(c, i, depth);
      if depth < NESTING_LIMIT {
        ObjectParsesBack(c, i, entries, ms, newLine, indent, outer, depth);
      }
    }
  }

  /**
   Printing and parsing back returns the same tree, in both modes, exactly when the
   tree is nested no deeper than the limit; a deeper one is rejected.
   */
  lemma {:induction false} RoundTrip(v: Json, fmt: bool)
    requires WellFormed(v)
    ensures Parse(Print(v, fmt, 0)) == (if Depth(v) <= NESTING_LIMIT then Some(v) else None)
  {
    var t := Print(v, fmt, 0);
    PrintHasNoNul(v, fmt, 0);
    WholeCString(t);
    var c := t + [NUL];
    PrintedReads(c, v, fmt, 0, 0);
    assert c[0] == t[0];
    assert |c| > 4 ==> c[..3][0] == t[0];
    SkipGap(c, 0, 0);
    AtSlice(c, 0, t);
    ReadAt(c, t, v, 0, 0);
  }

  // ----- printed text is a C string

  lemma {:induction false} EscapeHasNoNul(s: Text)
    ensures NUL !in s ==> NUL !in Escape(s)
  {
    if s != [] {
      assert s[0] in s;
      EscapeHasNoNul(s[1..]);
    }
  }

  lemma {:induction false} PrintHasNoNul(v: Json, fmt: bool, depth: nat)
    requires WellFormed(v)
    ensures NUL !in Print(v, fmt, depth)
    decreases v, 1
  {
    match v {
      case JStr(s) => EscapeHasNoNul(s);
      case JArr(items) =>
        ItemsHaveNoNul(items, fmt, depth + 1);
        assert NUL !in ItemGap(fmt);
      case JObj(ms) =>
        MembersHaveNoNul(ms, fmt, depth + 1);
        assert NUL !in NewLine(fmt) && NUL !in Indent(fmt, depth);
      case _ =>
    }
  }

  lemma {:induction false} ItemsHaveNoNul(items: seq<Json>, fmt: bool, depth: nat)
    requires WellFormedItems(items)
    ensures NUL !in JoinItems(ItemTexts(items, fmt, depth), ItemGap(fmt))
    decreases items, 0
  {
    var texts := ItemTexts(items, fmt, depth);
    forall n | 0 <= n < |items|
      ensures NUL !in texts[n]
    {
      ItemTextAt(items, fmt, depth, n);
      PrintHasNoNul(items[n], fmt, depth);
    }
    JoinedItemsHaveNoNul(texts, ItemGap(fmt));
  }

  lemma {:induction false} MembersHaveNoNul(ms: seq<Member>, fmt: bool, depth: nat)
    requires WellFormedMembers(ms)
    ensures NUL !in JoinMembers(MemberTexts(ms, fmt, depth), NewLine(fmt))
    decreases ms, 0
  {
    var entries := MemberTexts(ms, fmt, depth);
    forall n | 0 <= n < |ms|
      ensures NUL !in entries[n].key && NUL !in entries[n].text
    {
      MemberTextAt(ms, fmt, depth, n);
      EscapeHasNoNul(ms[n].name);
      PrintHasNoNul(ms[n].value, fmt, depth);
    }
    JoinedMembersHaveNoNul(entries, NewLine(fmt));
  }

  lemma {:induction false} JoinedItemsHaveNoNul(texts: seq<Text>, gap: Text)
    requires NUL !in gap && forall n :: 0 <= n < |texts| ==> NUL !in texts[n]
    ensures NUL !in JoinItems(texts, gap)
  {
    if texts != [] {
      JoinedItemsHaveNoNul(texts[1..], gap);
    }
  }

  lemma {:induction false} JoinedMembersHaveNoNul(entries: seq<Entry>, newLine: Text)
    requires NUL !in newLine && forall n :: 0 <= n < |entries| ==> NUL !in entries[n].key && NUL !in entries[n].text
    ensures NUL !in JoinMembers(entries, newLine)
  {
    if entries != [] {
      JoinedMembersHaveNoNul(entries[1..], newLine);
    }
  }
}
