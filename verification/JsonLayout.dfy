/**
 What the printer writes is JSON text: each print is the text of a layout that stands
 for the tree, with no white space at all when it is not formatted.
 */
module JsonLayout {
  import opened Bytes
  import opened Json
  import opened JsonEscapes
  import opened JsonTexts
  import R = JsonRoundTrip

  // ----- strings

  function PieceOf(b: Byte): Piece {
    if b == 34 then Short(34)
    else if b == 92 then Short(92)
    else if b == 8 then Short(98)
    else if b == 12 then Short(102)
    else if b == 10 then Short(110)
    else if b == 13 then Short(114)
    else if b == 9 then Short(116)
    else if b < 32 then Code(b, [false, false, false, false])
    else Plain(b)
  }

  function PiecesOf(s: Text): (pieces: seq<Piece>)
    ensures |pieces| == |s| && ArePieces(pieces)
  {
    if s == [] then [] else [PieceOf(s[0])] + PiecesOf(s[1..])
  }

  lemma PieceWritten(b: Byte)
    ensures IsPiece(PieceOf(b)) && Written(PieceOf(b)) == EscapeByte(b) && StandsFor([b], PieceOf(b))
  {
  }

  lemma {:induction false} PiecesWritten(s: Text)
    ensures WrittenAll(PiecesOf(s)) == Escape(s)
  {
    if s != [] {
      PieceWritten(s[0]);
      PiecesWritten(s[1..]);
      FirstWritten(PieceOf(s[0]), PiecesOf(s[1..]));
    }
  }

  lemma FirstWritten(piece: Piece, rest: seq<Piece>)
    requires IsPiece(piece) && ArePieces(rest)
    ensures WrittenAll([piece] + rest) == Written(piece) + WrittenAll(rest)
  {
    assert WrittenEach([piece] + rest)[1..] == WrittenEach(rest);
  }

  function Singles(s: Text): (texts: seq<Text>)
    ensures |texts| == |s|
  {
    if s == [] then [] else [[s[0]]] + Singles(s[1..])
  }

  lemma {:induction false} PiecesStand(s: Text)
    ensures StandFor(Singles(s), PiecesOf(s)) && Concat(Singles(s)) == s
  {
    if s != [] {
      PieceWritten(s[0]);
      PiecesStand(s[1..]);
      assert Singles(s)[1..] == Singles(s[1..]);
      forall k | 0 <= k < |s|
        ensures StandsFor(Singles(s)[k], PiecesOf(s)[k])
      {
        if k > 0 {
          assert Singles(s)[k] == Singles(s[1..])[k - 1] && PiecesOf(s)[k] == PiecesOf(s[1..])[k - 1];
        }
      }
    }
  }

  lemma NamePrinted(s: Text)
    requires NUL !in s
    ensures IsName(PiecesOf(s)) && Literal(PiecesOf(s)) == Quoted(s) && NameMeans(PiecesOf(s), s)
  {
    PiecesWritten(s);
    PiecesStand(s);
    R.EscapeHasNoNul(s);
    R.WholeCString(s);
  }

  // ----- layouts

  function FormOf(v: Json, fmt: bool, depth: nat): Form
    requires WellFormed(v)
    decreases v, 1
  {
    match v
    case JNull => Null
    case JFalse => False
    case JTrue => True
    case JNum(n) => Number(n)
    case JStr(s) => String(PiecesOf(s))
    case JArr(items) => Array([], SlotsOf(items, fmt, depth + 1, []))
    case JObj(ms) =>
      Object(NewLine(fmt) + Indent(fmt, depth), PairsOf(ms, fmt, depth + 1, NewLine(fmt) + Indent(fmt, depth)))
  }

  /** A blank before every element but the first. */
  function SlotsOf(items: seq<Json>, fmt: bool, depth: nat, before: Text): (slots: seq<Slot>)
    requires WellFormedItems(items)
    ensures |slots| == |items|
    decreases items, 0
  {
    if items == [] then []
    else [Slot(before, FormOf(items[0], fmt, depth), [])] + SlotsOf(items[1..], fmt, depth, ItemGap(fmt))
  }

  /** Every member on a line of its own, and the closing brace on another. */
  function PairsOf(ms: seq<Member>, fmt: bool, depth: nat, close: Text): (pairs: seq<Pair>)
    requires WellFormedMembers(ms)
    ensures |pairs| == |ms|
    decreases ms, 0
  {
    if ms == [] then []
    else
      [Pair(NewLine(fmt) + Indent(fmt, depth), PiecesOf(ms[0].name), [],
            Slot(KeyGap(fmt), FormOf(ms[0].value, fmt, depth), if |ms| == 1 then close else []))]
      + PairsOf(ms[1..], fmt, depth, close)
  }

  lemma Gaps(fmt: bool, depth: nat)
    ensures Blank(NewLine(fmt) + Indent(fmt, depth)) && Blank(KeyGap(fmt)) && Blank(ItemGap(fmt)) && Blank([])
  {
  }

  lemma {:induction false} FormIsForm(v: Json, fmt: bool, depth: nat)
    requires WellFormed(v)
    ensures IsForm(FormOf(v, fmt, depth))
    decreases v, 1
  {
    Gaps(fmt, depth);
    match v {
      case JStr(s) => NamePrinted(s);
      case JArr(items) => SlotsAreSlots(items, fmt, depth + 1, []);
      case JObj(ms) => PairsArePairs(ms, fmt, depth + 1, NewLine(fmt) + Indent(fmt, depth));
      case _ =>
    }
  }

  lemma {:induction false} SlotsAreSlots(items: seq<Json>, fmt: bool, depth: nat, before: Text)
    requires WellFormedItems(items) && Blank(before)
    ensures AreSlots(SlotsOf(items, fmt, depth, before))
    decreases items, 0
  {
    if items != [] {
      Gaps(fmt, depth);
      FormIsForm(items[0], fmt, depth);
      SlotsAreSlots(items[1..], fmt, depth, ItemGap(fmt));
      assert SlotsOf(items, fmt, depth, before)[1..] == SlotsOf(items[1..], fmt, depth, ItemGap(fmt));
    }
  }

  lemma {:induction false} PairsArePairs(ms: seq<Member>, fmt: bool, depth: nat, close: Text)
    requires WellFormedMembers(ms) && Blank(close)
    ensures ArePairs(PairsOf(ms, fmt, depth, close))
    decreases ms, 0
  {
    if ms != [] {
      Gaps(fmt, depth);
      NamePrinted(ms[0].name);
      FormIsForm(ms[0].value, fmt, depth);
      PairsArePairs(ms[1..], fmt, depth, close);
      assert PairsOf(ms, fmt, depth, close)[1..] == PairsOf(ms[1..], fmt, depth, close);
    }
  }

  lemma {:induction false} FormStands(v: Json, fmt: bool, depth: nat)
    requires WellFormed(v)
    ensures IsForm(FormOf(v, fmt, depth)) && Means(FormOf(v, fmt, depth), v)
    decreases v, 1
  {
    FormIsForm(v, fmt, depth);
    match v {
      case JStr(s) => NamePrinted(s);
      case JArr(items) => SlotsStand(items, fmt, depth + 1, []);
      case JObj(ms) =>
        Gaps(fmt, depth);
        PairsStand(ms, fmt, depth + 1, NewLine(fmt) + Indent(fmt, depth));
      case _ =>
    }
  }

  lemma {:induction false} SlotsStand(items: seq<Json>, fmt: bool, depth: nat, before: Text)
    requires WellFormedItems(items) && Blank(before)
    ensures AreSlots(SlotsOf(items, fmt, depth, before)) && SlotsMean(SlotsOf(items, fmt, depth, before), items)
    decreases items, 0
  {
    SlotsAreSlots(items, fmt, depth, before);
    if items != [] {
      Gaps(fmt, depth);
      FormStands(items[0], fmt, depth);
      SlotsStand(items[1..], fmt, depth, ItemGap(fmt));
      assert SlotsOf(items, fmt, depth, before)[1..] == SlotsOf(items[1..], fmt, depth, ItemGap(fmt));
    }
  }

  lemma {:induction false} PairsStand(ms: seq<Member>, fmt: bool, depth: nat, close: Text)
    requires WellFormedMembers(ms) && Blank(close)
    ensures ArePairs(PairsOf(ms, fmt, depth, close)) && PairsMean(PairsOf(ms, fmt, depth, close), ms)
    decreases ms, 0
  {
    PairsArePairs(ms, fmt, depth, close);
    if ms != [] {
      NamePrinted(ms[0].name);
      FormStands(ms[0].value, fmt, depth);
      PairsStand(ms[1..], fmt, depth, close);
      assert PairsOf(ms, fmt, depth, close)[1..] == PairsOf(ms[1..], fmt, depth, close);
    }
  }

  // ----- their texts

  /** Texts with a gap before each of them, the first one aside. */
  function Gapped(texts: seq<Text>, gap: Text, before: Text): (r: seq<Text>)
    ensures |r| == |texts|
  {
    if texts == [] then [] else [before + texts[0] + []] + Gapped(texts[1..], gap, gap)
  }

  lemma {:induction false} GappedJoin(texts: seq<Text>, gap: Text, before: Text)
    requires texts != []
    ensures Commas(Gapped(texts, gap, before)) == before + JoinItems(texts, gap)
    decreases |texts|
  {
    var g := Gapped(texts, gap, before);
    if |texts| > 1 {
      GappedJoin(texts[1..], gap, gap);
      assert g[1..] == Gapped(texts[1..], gap, gap);
    }
  }

  lemma {:induction false} SlotsText(items: seq<Json>, fmt: bool, depth: nat, before: Text)
    requires WellFormedItems(items) && Blank(before)
    ensures AreSlots(SlotsOf(items, fmt, depth, before))
    ensures SlotTexts(SlotsOf(items, fmt, depth, before)) == Gapped(ItemTexts(items, fmt, depth), ItemGap(fmt), before)
    decreases items, 0
  {
    SlotsAreSlots(items, fmt, depth, before);
    if items != [] {
      Gaps(fmt, depth);
      FormText(items[0], fmt, depth);
      SlotsText(items[1..], fmt, depth, ItemGap(fmt));
      assert SlotsOf(items, fmt, depth, before)[1..] == SlotsOf(items[1..], fmt, depth, ItemGap(fmt));
      assert ItemTexts(items, fmt, depth)[1..] == ItemTexts(items[1..], fmt, depth);
    }
  }

  /** Keys and texts, each on a new line, white space behind the last. */
  function Lined(entries: seq<Entry>, newLine: Text, close: Text): (r: seq<Text>)
    ensures |r| == |entries|
  {
    if entries == [] then []
    else
      [newLine + entries[0].key + entries[0].text + if |entries| == 1 then close else []]
      + Lined(entries[1..], newLine, close)
  }

  lemma {:induction false} LinedJoin(entries: seq<Entry>, newLine: Text, indent: Text)
    requires entries != []
    ensures Commas(Lined(entries, newLine, newLine + indent)) == newLine + JoinMembers(entries, newLine) + indent
    decreases |entries|
  {
    var e := entries[0];
    var g := Lined(entries, newLine, newLine + indent);
    if |entries| > 1 {
      LinedJoin(entries[1..], newLine, indent);
      assert g[1..] == Lined(entries[1..], newLine, newLine + indent);
      AnotherLine(newLine, e.key, e.text, JoinMembers(entries[1..], newLine), indent);
    } else {
      assert entries[1..] == [] && JoinMembers([], newLine) == [];
      LastLine(newLine, e.key, e.text, indent);
    }
  }

  lemma AnotherLine(newLine: Text, key: Text, text: Text, rest: Text, indent: Text)
    ensures (newLine + key + text + []) + [44] + (newLine + rest + indent)
         == newLine + (key + text + ([COMMA] + newLine) + rest) + indent
  {
  }

  lemma LastLine(newLine: Text, key: Text, text: Text, indent: Text)
    ensures newLine + key + text + (newLine + indent) == newLine + (key + text + ([] + newLine) + []) + indent
  {
  }

  lemma PairText(indent: Text, newLine: Text, quoted: Text, gap: Text, text: Text, close: Text)
    ensures (newLine + indent + quoted + []) + [58] + (gap + text + close)
         == newLine + (indent + quoted + ([COLON] + gap)) + text + close
  {
  }

  lemma {:induction false} PairsText(ms: seq<Member>, fmt: bool, depth: nat, close: Text)
    requires WellFormedMembers(ms) && Blank(close)
    ensures ArePairs(PairsOf(ms, fmt, depth, close))
    ensures PairTexts(PairsOf(ms, fmt, depth, close)) == Lined(MemberTexts(ms, fmt, depth), NewLine(fmt), close)
    decreases ms, 0
  {
    PairsArePairs(ms, fmt, depth, close);
    if ms != [] {
      NamePrinted(ms[0].name);
      FormText(ms[0].value, fmt, depth);
      PairsText(ms[1..], fmt, depth, close);
      assert PairsOf(ms, fmt, depth, close)[1..] == PairsOf(ms[1..], fmt, depth, close);
      assert MemberTexts(ms, fmt, depth)[1..] == MemberTexts(ms[1..], fmt, depth);
      PairText(Indent(fmt, depth), NewLine(fmt), Quoted(ms[0].name), KeyGap(fmt), Print(ms[0].value, fmt, depth),
               if |ms| == 1 then close else []);
    }
  }

  lemma {:induction false} FormText(v: Json, fmt: bool, depth: nat)
    requires WellFormed(v)
    ensures IsForm(FormOf(v, fmt, depth)) && TextOf(FormOf(v, fmt, depth)) == Print(v, fmt, depth)
    decreases v, 1
  {
    FormIsForm(v, fmt, depth);
    match v {
      case JStr(s) => NamePrinted(s);
      case JArr(items) =>
        SlotsText(items, fmt, depth + 1, []);
        if items != [] {
          GappedJoin(ItemTexts(items, fmt, depth + 1), ItemGap(fmt), []);
        }
      case JObj(ms) =>
        Gaps(fmt, depth);
        PairsText(ms, fmt, depth + 1, NewLine(fmt) + Indent(fmt, depth));
        ObjectPrinted(MemberTexts(ms, fmt, depth + 1), NewLine(fmt), Indent(fmt, depth));
      case _ =>
    }
  }

  lemma ObjectPrinted(entries: seq<Entry>, newLine: Text, indent: Text)
    ensures ObjectText(entries, newLine, indent) ==
      [123] + (if entries == [] then newLine + indent else Commas(Lined(entries, newLine, newLine + indent))) + [125]
  {
    if entries != [] {
      LinedJoin(entries, newLine, indent);
    }
    Braces(newLine, JoinMembers(entries, newLine), indent);
  }

  lemma Braces(newLine: Text, joined: Text, indent: Text)
    ensures [123] + newLine + joined + indent + [125] == [123] + (newLine + joined + indent) + [125]
  {
  }

  /** No white space outside the strings. */
  predicate Compact(f: Form) {
    match f
    case Array(blank, items) => blank == [] && CompactSlots(items)
    case Object(blank, members) => blank == [] && CompactPairs(members)
    case _ => true
  }

  predicate CompactSlots(items: seq<Slot>) {
    items == [] ||
    (items[0].before == [] && Compact(items[0].form) && items[0].after == [] && CompactSlots(items[1..]))
  }

  predicate CompactPairs(members: seq<Pair>) {
    members == [] ||
    (var m := members[0];
     && m.before == [] && m.gap == [] && m.slot.before == [] && Compact(m.slot.form) && m.slot.after == []
     && CompactPairs(members[1..]))
  }

  lemma {:induction false} FormIsCompact(v: Json, depth: nat)
    requires WellFormed(v)
    ensures Compact(FormOf(v, false, depth))
    decreases v, 1
  {
    match v {
      case JArr(items) => SlotsAreCompact(items, depth + 1);
      case JObj(ms) => PairsAreCompact(ms, depth + 1);
      case _ =>
    }
  }

  lemma {:induction false} SlotsAreCompact(items: seq<Json>, depth: nat)
    requires WellFormedItems(items)
    ensures CompactSlots(SlotsOf(items, false, depth, []))
    decreases items, 0
  {
    if items != [] {
      FormIsCompact(items[0], depth);
      SlotsAreCompact(items[1..], depth);
      assert SlotsOf(items, false, depth, [])[1..] == SlotsOf(items[1..], false, depth, []);
    }
  }

  lemma {:induction false} PairsAreCompact(ms: seq<Member>, depth: nat)
    requires WellFormedMembers(ms)
    ensures CompactPairs(PairsOf(ms, false, depth, []))
    decreases ms, 0
  {
    if ms != [] {
      FormIsCompact(ms[0].value, depth);
      PairsAreCompact(ms[1..], depth);
      assert PairsOf(ms, false, depth, [])[1..] == PairsOf(ms[1..], false, depth, []);
    }
  }

  /**
   Formatted or not, what is printed for a tree is a JSON text that stands for it,
   and the unformatted print has no white space outside its strings.
   */
  lemma PrintIsText(v: Json, fmt: bool) returns (f: Form)
    requires WellFormed(v)
    ensures IsForm(f) && Means(f, v) && TextOf(f) == Print(v, fmt, 0)
    ensures !fmt ==> Compact(f)
  {
    f := FormOf(v, fmt, 0);
    FormIsCompact(v, 0);
    FormStands(v, fmt, 0);
    FormText(v, fmt, 0);
  }
}
