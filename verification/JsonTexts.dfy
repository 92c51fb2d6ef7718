/**
 JSON texts as RFC 8259 writes them (sections 2 to 7): any white space between the
 tokens, any mix of escapes in the strings, any numbers. Every one of them
 parses to what it stands for.
 */
module JsonTexts {
  import opened Bytes
  import opened Json
  import opened JsonEscapes
  import opened JsonNumbers
  import R = JsonRoundTrip

  /** How a text is laid out. */
  datatype Form =
    | Null | False | True
    | Number(n: int)
    /** Not an int: its value is known by its text only. */
    | RealNumber(x: Real)
    | String(pieces: seq<Piece>)
    | Array(blank: Text, items: seq<Slot>)
    | Object(blank: Text, members: seq<Pair>)

  /** A value and the white space around it. */
  datatype Slot = Slot(before: Text, form: Form, after: Text)

  /** White space, a name, white space, and behind the colon a value. */
  datatype Pair = Pair(before: Text, name: seq<Piece>, gap: Text, slot: Slot)

  predicate Blank(t: Text) { forall i :: 0 <= i < |t| ==> t[i] in {9, 10, 13, 32} }

  /** A name or a string: pieces without a NUL byte among them. */
  predicate IsName(pieces: seq<Piece>) { ArePieces(pieces) && NUL !in WrittenAll(pieces) }

  predicate IsForm(f: Form) {
    match f
    case Number(n) => -0x8000_0000 <= n <= 0x7FFF_FFFF
    case RealNumber(x) => IsReal(x)
    case String(pieces) => IsName(pieces)
    case Array(blank, items) => Blank(blank) && AreSlots(items)
    case Object(blank, members) => Blank(blank) && ArePairs(members)
    case _ => true
  }

  predicate AreSlots(items: seq<Slot>) {
    items == [] ||
    (Blank(items[0].before) && IsForm(items[0].form) && Blank(items[0].after) && AreSlots(items[1..]))
  }

  predicate ArePairs(members: seq<Pair>) {
    members == [] ||
    (var m := members[0];
     && Blank(m.before) && IsName(m.name) && Blank(m.gap)
     && Blank(m.slot.before) && IsForm(m.slot.form) && Blank(m.slot.after)
     && ArePairs(members[1..]))
  }

  // ----- the text

  /** The blank stands in an array or object that is empty. */
  function TextOf(f: Form): Text
    requires IsForm(f)
    decreases f, 1
  {
    match f
    case Null => [110, 117, 108, 108]
    case False => [102, 97, 108, 115, 101]
    case True => [116, 114, 117, 101]
    case Number(n) => IntText(n)
    case RealNumber(x) => RealText(x)
    case String(pieces) => Literal(pieces)
    case Array(blank, items) => [91] + (if items == [] then blank else Commas(SlotTexts(items))) + [93]
    case Object(blank, members) => [123] + (if members == [] then blank else Commas(PairTexts(members))) + [125]
  }

  function SlotTexts(items: seq<Slot>): (texts: seq<Text>)
    requires AreSlots(items)
    ensures |texts| == |items|
    decreases items, 0
  {
    if items == [] then []
    else [items[0].before + TextOf(items[0].form) + items[0].after] + SlotTexts(items[1..])
  }

  function PairTexts(members: seq<Pair>): (texts: seq<Text>)
    requires ArePairs(members)
    ensures |texts| == |members|
    decreases members, 0
  {
    if members == [] then []
    else
      var m := members[0];
      [(m.before + Literal(m.name) + m.gap) + [58] + (m.slot.before + TextOf(m.slot.form) + m.slot.after)]
      + PairTexts(members[1..])
  }

  function Commas(texts: seq<Text>): Text {
    if texts == [] then [] else if |texts| == 1 then texts[0] else texts[0] + [44] + Commas(texts[1..])
  }

  // ----- the value

  ghost predicate NameMeans(pieces: seq<Piece>, s: Text)
    requires ArePieces(pieces)
  {
    exists texts: seq<Text> :: StandFor(texts, pieces) && s == CString(Concat(texts))
  }

  /** The value is what the text stands for. */
  ghost predicate Means(f: Form, v: Json)
    requires IsForm(f)
  {
    match f
    case Null => v == JNull
    case False => v == JFalse
    case True => v == JTrue
    case Number(n) => v == JNum(n)
    case RealNumber(x) => v == JDouble(RealText(x))
    case String(pieces) => v.JStr? && NameMeans(pieces, v.s)
    case Array(_, items) => v.JArr? && SlotsMean(items, v.items)
    case Object(_, members) => v.JObj? && PairsMean(members, v.members)
  }

  ghost predicate SlotsMean(items: seq<Slot>, values: seq<Json>)
    requires AreSlots(items)
  {
    |values| == |items| &&
    (items == [] || (Means(items[0].form, values[0]) && SlotsMean(items[1..], values[1..])))
  }

  ghost predicate PairsMean(members: seq<Pair>, values: seq<Member>)
    requires ArePairs(members)
  {
    |values| == |members| &&
    (members == [] ||
     (&& NameMeans(members[0].name, values[0].name) && Means(members[0].slot.form, values[0].value)
      && PairsMean(members[1..], values[1..])))
  }

  function NameOf(pieces: seq<Piece>): Text
    requires ArePieces(pieces)
  {
    CString(Concat(SaidEach(pieces)))
  }

  function ValueOf(f: Form): Json
    requires IsForm(f)
    decreases f, 1
  {
    match f
    case Null => JNull
    case False => JFalse
    case True => JTrue
    case Number(n) => JNum(n)
    case RealNumber(x) => JDouble(RealText(x))
    case String(pieces) => JStr(NameOf(pieces))
    case Array(_, items) => JArr(SlotValues(items))
    case Object(_, members) => JObj(PairValues(members))
  }

  function SlotValues(items: seq<Slot>): (values: seq<Json>)
    requires AreSlots(items)
    ensures |values| == |items|
    decreases items, 0
  {
    if items == [] then [] else [ValueOf(items[0].form)] + SlotValues(items[1..])
  }

  function PairValues(members: seq<Pair>): (values: seq<Member>)
    requires ArePairs(members)
    ensures |values| == |members|
    decreases members, 0
  {
    if members == [] then []
    else [Member(NameOf(members[0].name), ValueOf(members[0].slot.form))] + PairValues(members[1..])
  }

  lemma NameIs(pieces: seq<Piece>)
    requires ArePieces(pieces)
    ensures NameMeans(pieces, NameOf(pieces))
  {
    PiecesRead(pieces);
  }

  lemma {:induction false} FormMeans(f: Form)
    requires IsForm(f)
    ensures Means(f, ValueOf(f))
    decreases f, 1
  {
    match f {
      case String(pieces) => NameIs(pieces);
      case Array(_, items) => SlotsMeanValues(items);
      case Object(_, members) => PairsMeanValues(members);
      case _ =>
    }
  }

  lemma {:induction false} SlotsMeanValues(items: seq<Slot>)
    requires AreSlots(items)
    ensures SlotsMean(items, SlotValues(items))
    decreases items, 0
  {
    if items != [] {
      FormMeans(items[0].form);
      SlotsMeanValues(items[1..]);
      assert SlotValues(items)[1..] == SlotValues(items[1..]);
    }
  }

  lemma {:induction false} PairsMeanValues(members: seq<Pair>)
    requires ArePairs(members)
    ensures PairsMean(members, PairValues(members))
    decreases members, 0
  {
    if members != [] {
      NameIs(members[0].name);
      FormMeans(members[0].slot.form);
      PairsMeanValues(members[1..]);
      assert PairValues(members)[1..] == PairValues(members[1..]);
    }
  }

  // ----- elements between commas

  /** The comma or the bracket behind an element or a member. */
  predicate Stops(b: Byte) { b == 44 || b == 93 || b == 125 }

  /** The element behind the bracket or comma at i is read, and only white space follows up to k. */
  predicate ItemFound(c: Text, i: nat, k: nat, v: Json, depth: nat)
    requires i < |c|
  {
    && SkipWs(c, i + 1) < |c| && c[SkipWs(c, i + 1)] != 93
    && var r := ParseItem(c, i, depth);
    if depth + Depth(v) <= NESTING_LIMIT then r.Some? && r.value.0 == v && SkipWs(c, r.value.1) == k else r.None?
  }

  /** Wherever the text stands between i and k, it is read as the value. */
  ghost predicate ReadsItem(c: Text, t: Text, v: Json, depth: nat) {
    forall i: nat, k: nat :: k == i + 1 + |t| < |c| && At(c, i + 1, t) && Stops(c[k]) ==> ItemFound(c, i, k, v, depth)
  }

  ghost predicate ReadItems(c: Text, texts: seq<Text>, values: seq<Json>, depth: nat) {
    |texts| == |values| &&
    (texts == [] || (ReadsItem(c, texts[0], values[0], depth) && ReadItems(c, texts[1..], values[1..], depth)))
  }

  lemma OnlyItem(c: Text, i: nat, v: Json, depth: nat, close: nat)
    requires i < close < |c| && c[close] == 93 && ItemFound(c, i, close, v, depth)
    ensures ParseItems(c, i, depth) == R.Answer(depth + ItemsDepth([v]) <= NESTING_LIMIT, [v], close)
  {
    assert [v][1..] == [] && ItemsDepth([v]) == Depth(v);
  }

  lemma AnotherItem(c: Text, i: nat, v: Json, depth: nat, k: nat, rest: seq<Json>, close: nat)
    requires i < k < close < |c| && c[k] == 44 && ItemFound(c, i, k, v, depth)
    requires ParseItems(c, k, depth) == R.Answer(depth + ItemsDepth(rest) <= NESTING_LIMIT, rest, close)
    ensures ParseItems(c, i, depth) == R.Answer(depth + ItemsDepth([v] + rest) <= NESTING_LIMIT, [v] + rest, close)
  {
    assert ([v] + rest)[1..] == rest && ItemsDepth([v] + rest) == Max(Depth(v), ItemsDepth(rest));
  }

  /** The first of several texts, its comma, and the others. */
  lemma FirstOfMany(c: Text, p: nat, texts: seq<Text>) returns (k: nat)
    requires |texts| >= 2 && At(c, p, Commas(texts))
    ensures k == p + |texts[0]| < |c| && c[k] == 44 && At(c, p, texts[0]) && At(c, k + 1, Commas(texts[1..]))
    ensures k + 1 + |Commas(texts[1..])| == p + |Commas(texts)|
  {
    k := p + |texts[0]|;
    R.AtThree(c, p, texts[0], [44], Commas(texts[1..]));
    R.AtByte(c, k, [44], 0);
  }

  lemma {:induction false} ItemsRead(c: Text, i: nat, texts: seq<Text>, values: seq<Json>, depth: nat, close: nat)
    requires texts != [] && ReadItems(c, texts, values, depth) && At(c, i + 1, Commas(texts))
    requires close == i + 1 + |Commas(texts)| < |c| && c[close] == 93
    ensures ParseItems(c, i, depth) == R.Answer(depth + ItemsDepth(values) <= NESTING_LIMIT, values, close)
    ensures SkipWs(c, i + 1) < |c| && c[SkipWs(c, i + 1)] != 93
    decreases |texts|
  {
    var v := values[0];
    if |texts| == 1 {
      assert ItemFound(c, i, close, v, depth);
      OnlyItem(c, i, v, depth, close);
      assert values == [v];
    } else {
      var k := FirstOfMany(c, i + 1, texts);
      assert ItemFound(c, i, k, v, depth);
      ItemsRead(c, k, texts[1..], values[1..], depth, close);
      AnotherItem(c, i, v, depth, k, values[1..], close);
      assert values == [v] + values[1..];
    }
  }

  /** White space may come before the first element. */
  lemma SkippedFirst(c: Text, i: nat, j: nat, depth: nat)
    requires i < |c| && j == SkipWs(c, i + 1) < |c| && SkipWs(c, j) == j
    ensures 0 < j && ParseItems(c, j - 1, depth) == ParseItems(c, i, depth)
  {
    assert ParseItem(c, j - 1, depth) == ParseItem(c, i, depth);
  }

  lemma {:induction false} SkipTwice(c: Text, i: nat)
    ensures SkipWs(c, SkipWs(c, i)) == SkipWs(c, i)
    decreases |c| - i
  {
    if i < |c| && c[i] <= 32 && i + 1 != |c| {
      SkipTwice(c, i + 1);
    }
  }

  lemma ArrayRead(c: Text, i: nat, j: nat, values: seq<Json>, depth: nat, close: nat)
    requires i < |c| && depth < NESTING_LIMIT && SkipWs(c, i + 1) == j && 0 < j < |c| && c[j] != 93
    requires ParseItems(c, j - 1, depth + 1) == R.Answer(depth + 1 + ItemsDepth(values) <= NESTING_LIMIT, values, close)
    ensures ParseArray(c, i, depth) == R.Answer(depth + 1 + ItemsDepth(values) <= NESTING_LIMIT, JArr(values), close + 1)
  {
  }

  lemma Enclosed(c: Text, i: nat, open: Byte, inner: Text, close: Byte)
    requires At(c, i, [open] + inner + [close])
    ensures
      var k := i + 1 + |inner|;
      k < |c| && c[i] == open && At(c, i + 1, inner) && c[k] == close && k + 1 == i + |[open] + inner + [close]|
  {
    R.AtThree(c, i, [open], inner, [close]);
    R.AtByte(c, i, [open], 0);
    R.AtByte(c, i + 1 + |inner|, [close], 0);
  }

  /** White space is skipped up to what stands behind it. */
  lemma BlankSkipped(c: Text, i: nat, blank: Text)
    requires At(c, i, blank) && Blank(blank) && i + |blank| < |c| && c[i + |blank|] > 32
    ensures SkipWs(c, i) == i + |blank|
  {
    R.GapJoin(c, i, blank, i + |blank|);
    R.SkipGap(c, i, i + |blank|);
  }

  lemma EmptyArrayRead(c: Text, i: nat, blank: Text, depth: nat)
    requires At(c, i + 1, blank) && Blank(blank) && depth < NESTING_LIMIT
    requires i + 1 + |blank| < |c| && c[i + 1 + |blank|] == 93
    ensures ParseArray(c, i, depth) == Some((JArr([]), i + 2 + |blank|))
  {
    BlankSkipped(c, i + 1, blank);
  }

  // ----- members between commas

  /** The member behind the brace or comma at i is read, and only white space follows up to k. */
  predicate MemberFound(c: Text, i: nat, k: nat, m: Member, depth: nat)
    requires i < |c|
  {
    && SkipWs(c, i + 1) < |c| && c[SkipWs(c, i + 1)] != 125
    && var r := ParseMember(c, i, depth);
    if depth + Depth(m.value) <= NESTING_LIMIT then r.Some? && r.value.0 == m && SkipWs(c, r.value.1) == k else r.None?
  }

  ghost predicate ReadsMember(c: Text, t: Text, m: Member, depth: nat) {
    forall i: nat, k: nat :: k == i + 1 + |t| < |c| && At(c, i + 1, t) && Stops(c[k]) ==> MemberFound(c, i, k, m, depth)
  }

  ghost predicate ReadMembers(c: Text, texts: seq<Text>, ms: seq<Member>, depth: nat) {
    |texts| == |ms| &&
    (texts == [] || (ReadsMember(c, texts[0], ms[0], depth) && ReadMembers(c, texts[1..], ms[1..], depth)))
  }

  lemma OnlyMember(c: Text, i: nat, m: Member, depth: nat, close: nat)
    requires i < close < |c| && c[close] == 125 && MemberFound(c, i, close, m, depth)
    ensures ParseMembers(c, i, depth) == R.Answer(depth + MembersDepth([m]) <= NESTING_LIMIT, [m], close)
  {
    assert [m][1..] == [] && MembersDepth([m]) == Depth(m.value);
  }

  lemma AnotherMember(c: Text, i: nat, m: Member, depth: nat, k: nat, rest: seq<Member>, close: nat)
    requires i < k < close < |c| && c[k] == 44 && MemberFound(c, i, k, m, depth)
    requires ParseMembers(c, k, depth) == R.Answer(depth + MembersDepth(rest) <= NESTING_LIMIT, rest, close)
    ensures ParseMembers(c, i, depth) == R.Answer(depth + MembersDepth([m] + rest) <= NESTING_LIMIT, [m] + rest, close)
  {
    assert ([m] + rest)[1..] == rest && MembersDepth([m] + rest) == Max(Depth(m.value), MembersDepth(rest));
  }

  lemma {:induction false} MembersRead(c: Text, i: nat, texts: seq<Text>, ms: seq<Member>, depth: nat, close: nat)
    requires texts != [] && ReadMembers(c, texts, ms, depth) && At(c, i + 1, Commas(texts))
    requires close == i + 1 + |Commas(texts)| < |c| && c[close] == 125
    ensures ParseMembers(c, i, depth) == R.Answer(depth + MembersDepth(ms) <= NESTING_LIMIT, ms, close)
    ensures SkipWs(c, i + 1) < |c| && c[SkipWs(c, i + 1)] != 125
    decreases |texts|
  {
    var m := ms[0];
    if |texts| == 1 {
      assert MemberFound(c, i, close, m, depth);
      OnlyMember(c, i, m, depth, close);
      assert ms == [m];
    } else {
      var k := FirstOfMany(c, i + 1, texts);
      assert MemberFound(c, i, k, m, depth);
      MembersRead(c, k, texts[1..], ms[1..], depth, close);
      AnotherMember(c, i, m, depth, k, ms[1..], close);
      assert ms == [m] + ms[1..];
    }
  }

  lemma SkippedFirstMember(c: Text, i: nat, j: nat, depth: nat)
    requires i < |c| && j == SkipWs(c, i + 1) < |c| && SkipWs(c, j) == j
    ensures 0 < j && ParseMembers(c, j - 1, depth) == ParseMembers(c, i, depth)
  {
    assert i + 1 < |c|;
    assert ParseMember(c, j - 1, depth) == ParseMember(c, i, depth);
  }

  lemma ObjectRead(c: Text, i: nat, j: nat, ms: seq<Member>, depth: nat, close: nat)
    requires i < |c| && depth < NESTING_LIMIT && SkipWs(c, i + 1) == j && 0 < j < |c| && c[j] != 125
    requires ParseMembers(c, j - 1, depth + 1) == R.Answer(depth + 1 + MembersDepth(ms) <= NESTING_LIMIT, ms, close)
    ensures ParseObject(c, i, depth) == R.Answer(depth + 1 + MembersDepth(ms) <= NESTING_LIMIT, JObj(ms), close + 1)
  {
  }

  lemma EmptyObjectRead(c: Text, i: nat, blank: Text, depth: nat)
    requires At(c, i + 1, blank) && Blank(blank) && depth < NESTING_LIMIT
    requires i + 1 + |blank| < |c| && c[i + 1 + |blank|] == 125
    ensures ParseObject(c, i, depth) == Some((JObj([]), i + 2 + |blank|))
  {
    BlankSkipped(c, i + 1, blank);
  }

  // ----- one element, one member

  /** A value between white space from p on, and the comma or bracket behind it at k. */
  lemma SpacedReads(c: Text, p: nat, before: Text, t: Text, after: Text, v: Json, depth: nat, k: nat) returns (j: nat, e: nat)
    requires R.Reads(c, t, v, depth) && Blank(before) && Blank(after)
    requires At(c, p, before + t + after) && k == p + |before + t + after| < |c| && Stops(c[k])
    ensures j < |c| && SkipWs(c, p) == j && c[j] == t[0] && SkipWs(c, e) == k
    ensures ParseValue(c, j, depth) == R.Answer(depth + Depth(v) <= NESTING_LIMIT, v, e)
  {
    j, e := p + |before|, p + |before| + |t|;
    R.AtThree(c, p, before, t, after);
    R.AtByte(c, j, t, 0);
    BlankSkipped(c, p, before);
    BlankSkipped(c, e, after);
    if after != [] {
      R.AtByte(c, e, after, 0);
    }
    R.ReadAt(c, t, v, depth, j);
  }

  lemma SlotReads(c: Text, before: Text, t: Text, after: Text, v: Json, depth: nat)
    requires R.Reads(c, t, v, depth) && Blank(before) && Blank(after)
    ensures ReadsItem(c, before + t + after, v, depth)
  {
    var whole := before + t + after;
    forall i: nat, k: nat | k == i + 1 + |whole| < |c| && At(c, i + 1, whole) && Stops(c[k])
      ensures ItemFound(c, i, k, v, depth)
    {
      var j, e := SpacedReads(c, i + 1, before, t, after, v, depth, k);
      ItemReads(c, i, v, depth, j, e, k, t[0]);
    }
  }

  lemma ItemReads(c: Text, i: nat, v: Json, depth: nat, j: nat, e: nat, k: nat, first: Byte)
    requires i < |c| && SkipWs(c, i + 1) == j < |c| && c[j] == first != 93 && SkipWs(c, e) == k
    requires ParseValue(c, j, depth) == R.Answer(depth + Depth(v) <= NESTING_LIMIT, v, e)
    ensures ItemFound(c, i, k, v, depth)
  {
  }

  /** White space, a literal and white space from p up to the colon at k. */
  lemma NameReads(c: Text, p: nat, before: Text, literal: Text, w: Text, name: Text, gap: Text, k: nat) returns (j: nat, e: nat)
    requires Reads(w, name) && literal == [34] + w + [34] && Blank(before) && Blank(gap)
    requires At(c, p, before + literal + gap) && k == p + |before + literal + gap| < |c| && c[k] == 58
    ensures j < |c| && SkipWs(c, p) == j && c[j] == 34
    ensures ParseString(c, j) == Some((CString(name), e)) && SkipWs(c, e) == k
  {
    j, e := p + |before|, p + |before| + |literal|;
    R.AtThree(c, p, before, literal, gap);
    R.AtByte(c, j, literal, 0);
    BlankSkipped(c, p, before);
    BlankSkipped(c, e, gap);
    LiteralReads(c, j, literal, w, name);
  }

  lemma MemberParsed(c: Text, i: nat, m: Member, depth: nat, j: nat, e: nat, colon: nat, v: nat, f: nat)
    requires i + 1 < |c| && SkipWs(c, i + 1) == j && ParseString(c, j) == Some((m.name, e))
    requires SkipWs(c, e) == colon < |c| && c[colon] == 58 && SkipWs(c, colon + 1) == v <= |c|
    requires ParseValue(c, v, depth) == R.Answer(depth + Depth(m.value) <= NESTING_LIMIT, m.value, f)
    ensures ParseMember(c, i, depth) == R.Answer(depth + Depth(m.value) <= NESTING_LIMIT, m, f)
  {
  }

  lemma MemberReads(c: Text, i: nat, m: Member, depth: nat, j: nat, f: nat, k: nat)
    requires i < |c| && SkipWs(c, i + 1) == j < |c| && c[j] == 34 && SkipWs(c, f) == k
    requires ParseMember(c, i, depth) == R.Answer(depth + Depth(m.value) <= NESTING_LIMIT, m, f)
    ensures MemberFound(c, i, k, m, depth)
  {
  }

  /** White space, name, white space, colon, white space, value, white space. */
  datatype Parts = Parts(before: Text, literal: Text, gap: Text, left: Text, text: Text, right: Text)

  function Key(a: Parts): Text { a.before + a.literal + a.gap }

  function Rest(a: Parts): Text { a.left + a.text + a.right }

  predicate BlankParts(a: Parts) { Blank(a.before) && Blank(a.gap) && Blank(a.left) && Blank(a.right) }

  lemma PairReads(c: Text, a: Parts, w: Text, name: Text, m: Member, depth: nat)
    requires BlankParts(a) && Reads(w, name) && a.literal == [34] + w + [34] && m.name == CString(name)
    requires R.Reads(c, a.text, m.value, depth)
    ensures ReadsMember(c, Key(a) + [58] + Rest(a), m, depth)
  {
    var whole := Key(a) + [58] + Rest(a);
    forall i: nat, k: nat | k == i + 1 + |whole| < |c| && At(c, i + 1, whole) && Stops(c[k])
      ensures MemberFound(c, i, k, m, depth)
    {
      PairReadsAt(c, i, k, a, w, name, m, depth);
    }
  }

  lemma PairReadsAt(c: Text, i: nat, k: nat, a: Parts, w: Text, name: Text, m: Member, depth: nat)
    requires BlankParts(a) && Reads(w, name) && a.literal == [34] + w + [34] && m.name == CString(name)
    requires R.Reads(c, a.text, m.value, depth)
    requires k == i + 1 + |Key(a) + [58] + Rest(a)| < |c| && At(c, i + 1, Key(a) + [58] + Rest(a)) && Stops(c[k])
    ensures MemberFound(c, i, k, m, depth)
  {
    var colon := i + 1 + |Key(a)|;
    R.AtThree(c, i + 1, Key(a), [58], Rest(a));
    R.AtByte(c, colon, [58], 0);
    var j, e := NameReads(c, i + 1, a.before, a.literal, w, name, a.gap, colon);
    var v, f := SpacedReads(c, colon + 1, a.left, a.text, a.right, m.value, depth, k);
    MemberParsed(c, i, m, depth, j, e, colon, v, f);
    MemberReads(c, i, m, depth, j, f, k);
  }

  // ----- every form

  lemma WordReads(c: Text, f: Form, depth: nat)
    requires IsForm(f) && (f.Null? || f.False? || f.True? || f.Number?) && depth <= NESTING_LIMIT
    ensures R.Reads(c, TextOf(f), ValueOf(f), depth)
  {
    R.ScalarReads(c, ValueOf(f), false, 0, depth);
  }

  lemma StringReads(c: Text, pieces: seq<Piece>, depth: nat)
    requires IsName(pieces) && depth <= NESTING_LIMIT
    ensures R.Reads(c, Literal(pieces), JStr(NameOf(pieces)), depth)
  {
    PiecesRead(pieces);
    QuotedReads(c, Literal(pieces), WrittenAll(pieces), Concat(SaidEach(pieces)), depth);
  }

  lemma QuotedReads(c: Text, literal: Text, w: Text, t: Text, depth: nat)
    requires Reads(w, t) && literal == [34] + w + [34] && depth <= NESTING_LIMIT
    ensures R.Reads(c, literal, JStr(CString(t)), depth)
  {
    forall i: nat | At(c, i, literal) && i + |literal| < |c|
      ensures ParseValue(c, i, depth) == Some((JStr(CString(t)), i + |literal|))
    {
      R.AtByte(c, i, literal, 0);
      R.NoKeyword(c, i);
      LiteralReads(c, i, literal, w, t);
    }
  }

  lemma ArrayBegins(c: Text, i: nat, depth: nat)
    requires i < |c| && c[i] == 91
    ensures ParseValue(c, i, depth) == ParseArray(c, i, depth)
    ensures depth >= NESTING_LIMIT ==> ParseArray(c, i, depth) == None
  {
    R.NoKeyword(c, i);
  }

  lemma ArrayInside(c: Text, i: nat, texts: seq<Text>, values: seq<Json>, depth: nat)
    requires texts != [] && ReadItems(c, texts, values, depth + 1) && depth < NESTING_LIMIT
    requires At(c, i + 1, Commas(texts)) && i + 1 + |Commas(texts)| < |c| && c[i + 1 + |Commas(texts)|] == 93
    ensures ParseArray(c, i, depth) ==
      R.Answer(depth + 1 + ItemsDepth(values) <= NESTING_LIMIT, JArr(values), i + 2 + |Commas(texts)|)
  {
    var close := i + 1 + |Commas(texts)|;
    ItemsRead(c, i, texts, values, depth + 1, close);
    SkipTwice(c, i + 1);
    var j := SkipWs(c, i + 1);
    SkippedFirst(c, i, j, depth + 1);
    ArrayRead(c, i, j, values, depth, close);
  }

  lemma ObjectBegins(c: Text, i: nat, depth: nat)
    requires i < |c| && c[i] == 123
    ensures ParseValue(c, i, depth) == ParseObject(c, i, depth)
    ensures depth >= NESTING_LIMIT ==> ParseObject(c, i, depth) == None
  {
    R.NoKeyword(c, i);
  }

  lemma ObjectInside(c: Text, i: nat, texts: seq<Text>, ms: seq<Member>, depth: nat)
    requires texts != [] && ReadMembers(c, texts, ms, depth + 1) && depth < NESTING_LIMIT
    requires At(c, i + 1, Commas(texts)) && i + 1 + |Commas(texts)| < |c| && c[i + 1 + |Commas(texts)|] == 125
    ensures ParseObject(c, i, depth) ==
      R.Answer(depth + 1 + MembersDepth(ms) <= NESTING_LIMIT, JObj(ms), i + 2 + |Commas(texts)|)
  {
    var close := i + 1 + |Commas(texts)|;
    MembersRead(c, i, texts, ms, depth + 1, close);
    SkipTwice(c, i + 1);
    var j := SkipWs(c, i + 1);
    SkippedFirstMember(c, i, j, depth + 1);
    ObjectRead(c, i, j, ms, depth, close);
  }

  predicate ArrayFound(c: Text, i: nat, close: nat, values: seq<Json>, depth: nat)
    requires i < |c|
  {
    ParseArray(c, i, depth) == R.Answer(depth + 1 + ItemsDepth(values) <= NESTING_LIMIT, JArr(values), close + 1)
  }

  ghost predicate ArrayBody(c: Text, inner: Text, values: seq<Json>, depth: nat) {
    forall i: nat, close: nat :: close == i + 1 + |inner| < |c| && At(c, i + 1, inner) && c[close] == 93 ==>
      ArrayFound(c, i, close, values, depth)
  }

  lemma ArrayBodyReads(c: Text, blank: Text, texts: seq<Text>, values: seq<Json>, depth: nat)
    requires Blank(blank) && depth < NESTING_LIMIT && ReadItems(c, texts, values, depth + 1)
    ensures ArrayBody(c, if texts == [] then blank else Commas(texts), values, depth)
  {
    if texts == [] {
      forall i: nat, close: nat | close == i + 1 + |blank| < |c| && At(c, i + 1, blank) && c[close] == 93
        ensures ArrayFound(c, i, close, values, depth)
      {
        EmptyArrayRead(c, i, blank, depth);
      }
    } else {
      var inner := Commas(texts);
      forall i: nat, close: nat | close == i + 1 + |inner| < |c| && At(c, i + 1, inner) && c[close] == 93
        ensures ArrayFound(c, i, close, values, depth)
      {
        ArrayInside(c, i, texts, values, depth);
      }
    }
  }

  lemma ArrayReads(c: Text, inner: Text, values: seq<Json>, depth: nat)
    requires depth <= NESTING_LIMIT && (depth < NESTING_LIMIT ==> ArrayBody(c, inner, values, depth))
    ensures R.Reads(c, [91] + inner + [93], JArr(values), depth)
  {
    var t := [91] + inner + [93];
    forall i: nat | At(c, i, t) && i + |t| < |c|
      ensures ParseValue(c, i, depth) == R.Answer(depth + Depth(JArr(values)) <= NESTING_LIMIT, JArr(values), i + |t|)
    {
      Enclosed(c, i, 91, inner, 93);
      ArrayBegins(c, i, depth);
      assert depth < NESTING_LIMIT ==> ArrayFound(c, i, i + 1 + |inner|, values, depth);
    }
  }

  predicate ObjectFound(c: Text, i: nat, close: nat, ms: seq<Member>, depth: nat)
    requires i < |c|
  {
    ParseObject(c, i, depth) == R.Answer(depth + 1 + MembersDepth(ms) <= NESTING_LIMIT, JObj(ms), close + 1)
  }

  ghost predicate ObjectBody(c: Text, inner: Text, ms: seq<Member>, depth: nat) {
    forall i: nat, close: nat :: close == i + 1 + |inner| < |c| && At(c, i + 1, inner) && c[close] == 125 ==>
      ObjectFound(c, i, close, ms, depth)
  }

  lemma ObjectBodyReads(c: Text, blank: Text, texts: seq<Text>, ms: seq<Member>, depth: nat)
    requires Blank(blank) && depth < NESTING_LIMIT && ReadMembers(c, texts, ms, depth + 1)
    ensures ObjectBody(c, if texts == [] then blank else Commas(texts), ms, depth)
  {
    if texts == [] {
      forall i: nat, close: nat | close == i + 1 + |blank| < |c| && At(c, i + 1, blank) && c[close] == 125
        ensures ObjectFound(c, i, close, ms, depth)
      {
        EmptyObjectRead(c, i, blank, depth);
      }
    } else {
      var inner := Commas(texts);
      forall i: nat, close: nat | close == i + 1 + |inner| < |c| && At(c, i + 1, inner) && c[close] == 125
        ensures ObjectFound(c, i, close, ms, depth)
      {
        ObjectInside(c, i, texts, ms, depth);
      }
    }
  }

  lemma ObjectReads(c: Text, inner: Text, ms: seq<Member>, depth: nat)
    requires depth <= NESTING_LIMIT && (depth < NESTING_LIMIT ==> ObjectBody(c, inner, ms, depth))
    ensures R.Reads(c, [123] + inner + [125], JObj(ms), depth)
  {
    var t := [123] + inner + [125];
    forall i: nat | At(c, i, t) && i + |t| < |c|
      ensures ParseValue(c, i, depth) == R.Answer(depth + Depth(JObj(ms)) <= NESTING_LIMIT, JObj(ms), i + |t|)
    {
      Enclosed(c, i, 123, inner, 125);
      ObjectBegins(c, i, depth);
      assert depth < NESTING_LIMIT ==> ObjectFound(c, i, i + 1 + |inner|, ms, depth);
    }
  }

  lemma {:induction false} FormReads(c: Text, f: Form, depth: nat)
    requires IsForm(f) && depth <= NESTING_LIMIT
    ensures R.Reads(c, TextOf(f), ValueOf(f), depth)
    decreases f, 1
  {
    match f {
      case RealNumber(x) => RealReads(c, x, depth);
      case String(pieces) => StringReads(c, pieces, depth);
      case Array(blank, items) =>
        if depth < NESTING_LIMIT {
          SlotsRead(c, items, depth + 1);
          ArrayBodyReads(c, blank, SlotTexts(items), SlotValues(items), depth);
        }
        ArrayReads(c, if items == [] then blank else Commas(SlotTexts(items)), SlotValues(items), depth);
      case Object(blank, members) =>
        if depth < NESTING_LIMIT {
          PairsRead(c, members, depth + 1);
          ObjectBodyReads(c, blank, PairTexts(members), PairValues(members), depth);
        }
        ObjectReads(c, if members == [] then blank else Commas(PairTexts(members)), PairValues(members), depth);
      case _ => WordReads(c, f, depth);
    }
  }

  lemma {:induction false} SlotsRead(c: Text, items: seq<Slot>, depth: nat)
    requires AreSlots(items) && depth <= NESTING_LIMIT
    ensures ReadItems(c, SlotTexts(items), SlotValues(items), depth)
    decreases items, 0
  {
    if items != [] {
      var it := items[0];
      FormReads(c, it.form, depth);
      SlotReads(c, it.before, TextOf(it.form), it.after, ValueOf(it.form), depth);
      SlotsRead(c, items[1..], depth);
      assert SlotTexts(items)[1..] == SlotTexts(items[1..]);
      assert SlotValues(items)[1..] == SlotValues(items[1..]);
    }
  }

  lemma {:induction false} PairsRead(c: Text, members: seq<Pair>, depth: nat)
    requires ArePairs(members) && depth <= NESTING_LIMIT
    ensures ReadMembers(c, PairTexts(members), PairValues(members), depth)
    decreases members, 0
  {
    if members != [] {
      var m := members[0];
      FormReads(c, m.slot.form, depth);
      PairRead(c, m, TextOf(m.slot.form), ValueOf(m.slot.form), depth);
      PairsRead(c, members[1..], depth);
      assert PairTexts(members)[1..] == PairTexts(members[1..]);
      assert PairValues(members)[1..] == PairValues(members[1..]);
    }
  }

  lemma PairRead(c: Text, m: Pair, text: Text, v: Json, depth: nat)
    requires Blank(m.before) && IsName(m.name) && Blank(m.gap) && Blank(m.slot.before) && Blank(m.slot.after)
    requires R.Reads(c, text, v, depth)
    ensures
      ReadsMember(c, (m.before + Literal(m.name) + m.gap) + [58] + (m.slot.before + text + m.slot.after),
                  Member(NameOf(m.name), v), depth)
  {
    PiecesRead(m.name);
    var a := Parts(m.before, Literal(m.name), m.gap, m.slot.before, text, m.slot.after);
    PairReads(c, a, WrittenAll(m.name), Concat(SaidEach(m.name)), Member(NameOf(m.name), v), depth);
  }

  // ----- the whole text

  lemma {:induction false} CommasHaveNoNul(texts: seq<Text>)
    requires forall k :: 0 <= k < |texts| ==> NUL !in texts[k]
    ensures NUL !in Commas(texts)
  {
    if |texts| > 1 {
      CommasHaveNoNul(texts[1..]);
    }
  }

  lemma {:induction false} TextHasNoNul(f: Form)
    requires IsForm(f)
    ensures NUL !in TextOf(f)
    decreases f, 1
  {
    match f {
      case RealNumber(x) => RealBytes(x);
      case Array(blank, items) => SlotsHaveNoNul(items);
      case Object(blank, members) => PairsHaveNoNul(members);
      case _ =>
    }
  }

  lemma {:induction false} SlotsHaveNoNul(items: seq<Slot>)
    requires AreSlots(items)
    ensures forall k :: 0 <= k < |items| ==> NUL !in SlotTexts(items)[k]
    ensures NUL !in Commas(SlotTexts(items))
    decreases items, 0
  {
    if items != [] {
      TextHasNoNul(items[0].form);
      SlotsHaveNoNul(items[1..]);
      CommasHaveNoNul(SlotTexts(items));
    }
  }

  lemma {:induction false} PairsHaveNoNul(members: seq<Pair>)
    requires ArePairs(members)
    ensures forall k :: 0 <= k < |members| ==> NUL !in PairTexts(members)[k]
    ensures NUL !in Commas(PairTexts(members))
    decreases members, 0
  {
    if members != [] {
      TextHasNoNul(members[0].slot.form);
      PairHasNoNul(members[0], TextOf(members[0].slot.form));
      PairsHaveNoNul(members[1..]);
      CommasHaveNoNul(PairTexts(members));
    }
  }

  lemma PairHasNoNul(m: Pair, text: Text)
    requires Blank(m.before) && IsName(m.name) && Blank(m.gap) && Blank(m.slot.before) && Blank(m.slot.after)
    requires NUL !in text
    ensures NUL !in (m.before + Literal(m.name) + m.gap) + [58] + (m.slot.before + text + m.slot.after)
  {
  }

  /**
   Every JSON text parses to what it stands for, if and only if that nests at most 1000
   deep, whatever white space comes before it and whatever text behind it.
   */
  lemma EveryTextParses(before: Text, f: Form, after: Text) returns (v: Json)
    requires Blank(before) && IsForm(f) && NUL !in after && (after == [] || !IsNumberByte(after[0]))
    ensures Means(f, v)
    ensures Parse(before + TextOf(f) + after) == if Depth(v) <= 1000 then Some(v) else None
  {
    v := ValueOf(f);
    FormMeans(f);
    TextHasNoNul(f);
    FormReads(before + TextOf(f) + after + [NUL], f, 0);
    TextParses(before, TextOf(f), after, v);
  }

  lemma TextParses(before: Text, t: Text, after: Text, v: Json)
    requires R.Reads(before + t + after + [NUL], t, v, 0) && Blank(before)
    requires NUL !in t && NUL !in after && (after == [] || !IsNumberByte(after[0]))
    ensures Parse(before + t + after) == if Depth(v) <= NESTING_LIMIT then Some(v) else None
  {
    var c := Laid(before, t, after);
    BlankSkipped(c, 0, before);
    R.ReadAt(c, t, v, 0, |before|);
    assert c[0] != 0xEF;
    ParseFrom(before + t + after, c, |before|);
  }

  /** The buffer the parser works on. */
  lemma Laid(before: Text, t: Text, after: Text) returns (c: Text)
    requires t != []
    ensures c == before + t + after + [NUL]
    ensures At(c, 0, before) && At(c, |before|, t) && |before| + |t| < |c|
    ensures c[0] == (if before == [] then t[0] else before[0]) && c[|before|] == t[0]
    ensures c[|before| + |t|] == if after == [] then NUL else after[0]
  {
    c := before + t + after + [NUL];
    Regrouped(before, t, after);
    LiesThere(before, t, after + [NUL]);
    LiesThere([], before, t + after + [NUL]);
  }

  lemma Regrouped(before: Text, t: Text, after: Text)
    ensures before + t + after + [NUL] == before + t + (after + [NUL]) == [] + before + (t + after + [NUL])
  {
  }

  lemma ParseFrom(text: Text, c: Text, j: nat)
    requires NUL !in text && c == text + [NUL] && c[0] != 0xEF && SkipWs(c, 0) == j <= |c|
    ensures Parse(text) == match ParseValue(c, j, 0) case None => None case Some((v, _)) => Some(v)
  {
    R.WholeCString(text);
    assert |c| > 4 ==> c[..3][0] == c[0];
  }
}
