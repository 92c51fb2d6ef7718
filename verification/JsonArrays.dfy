/**
 parse_array as it works: each element is linked behind the last while it is parsed,
 and the circle of prev links is closed at the end.
 */
module JsonArrays {
  import opened Bytes
  import opened Json
  import opened CellList

  ghost function Values(items: seq<Item>): seq<Json> {
    if items == [] then [] else Values(items[..|items| - 1]) + [items[|items| - 1].value]
  }

  lemma ValuesNext(items: seq<Item>, item: Item)
    ensures Values(items + [item]) == Values(items) + [item.value]
  {
    assert (items + [item])[..|items|] == items;
  }

  ghost function Before(items: seq<Item>, i: nat): Item?
    requires i < |items|
  {
    if i == 0 then null else items[i - 1]
  }

  /** All links in place but the head's prev, which stays null until the end. */
  ghost predicate Growing(items: seq<Item>)
    reads items
  {
    && Distinct(items)
    && (forall i :: 0 <= i < |items| ==> items[i].next == Next(items, i))
    && (forall i :: 0 <= i < |items| ==> items[i].prev == Before(items, i))
  }

  /** The elements read so far, in front of what is still to be read. */
  function After(values: seq<Json>, rest: Option<(seq<Json>, nat)>): Option<(seq<Json>, nat)> {
    match rest
    case None => None
    case Some((vs, end)) => Some((values + vs, end))
  }

  lemma AfterNext(values: seq<Json>, v: Json, rest: Option<(seq<Json>, nat)>)
    ensures After(values, After([v], rest)) == After(values + [v], rest)
  {
    if rest.Some? {
      assert values + ([v] + rest.value.0) == (values + [v]) + rest.value.0;
    }
  }

  lemma AfterNothing(rest: Option<(seq<Json>, nat)>)
    ensures After([], rest) == rest
  {
    if rest.Some? {
      assert [] + rest.value.0 == rest.value.0;
    }
  }

  /** A new item behind the last one. */
  method Append(head: Item?, last: Item?, item: Item, ghost items: seq<Item>) returns (first: Item)
    requires Growing(items) && item !in items && item.next == null && item.prev == null
    requires if items == [] then head == null else head == items[0] && last == items[|items| - 1]
    modifies items, item
    ensures Growing(items + [item]) && first == (items + [item])[0]
  {
    if head == null {
      first := item;
    } else {
      SetNext(last, item, items, |items| - 1);
      PointBack(item, last, items);
      first := head;
    }
    GrownByOne(items, item);
  }

  lemma GrownLink(items: seq<Item>, item: Item, i: nat)
    requires i <= |items| && (i == |items| ==> item.next == null && item.prev == if items == [] then null else items[i - 1])
    requires i < |items| ==> items[i].next == if i + 1 == |items| then item else Next(items, i)
    requires i < |items| ==> items[i].prev == Before(items, i)
    ensures (items + [item])[i].next == Next(items + [item], i) && (items + [item])[i].prev == Before(items + [item], i)
  {
  }

  lemma GrownByOne(items: seq<Item>, item: Item)
    requires Distinct(items) && item !in items && item.next == null
    requires item.prev == if items == [] then null else items[|items| - 1]
    requires forall i :: 0 <= i < |items| ==> items[i].next == if i + 1 == |items| then item else Next(items, i)
    requires forall i :: 0 <= i < |items| ==> items[i].prev == Before(items, i)
    ensures Growing(items + [item])
  {
    var all := items + [item];
    assert all[..|items|] == items && all[|items|] == item;
    assert Distinct(all);
    forall i | 0 <= i < |all|
      ensures all[i].next == Next(all, i) && all[i].prev == Before(all, i)
    {
      GrownLink(items, item, i);
    }
  }

  /** A new cell for the value, behind the last one. */
  method Attach(head: Item?, last: Item?, value: Json, ghost items: seq<Item>) returns (first: Item, item: Item)
    requires Growing(items)
    requires if items == [] then head == null else head == items[0] && last == items[|items| - 1]
    modifies items
    ensures fresh(item) && item !in items && item.value == value
    ensures Growing(items + [item]) && first == (items + [item])[0]
    ensures Values(items + [item]) == Values(items) + [value]
  {
    item := new Item(value);
    first := Append(head, last, item, items);
    ValuesNext(items, item);
  }

  /** Closing the circle makes the list a child list. */
  method Adopt(head: Item?, last: Item?, ghost items: seq<Item>) returns (parent: Parent)
    requires Growing(items)
    requires if items == [] then head == null else head == items[0] && last == items[|items| - 1]
    modifies items
    ensures fresh(parent) && parent.Valid() && parent.items == items
  {
    CloseCircle(head, last, items);
    parent := new Parent();
    parent.child := head;
    parent.items := items;
  }

  method CloseCircle(head: Item?, last: Item?, ghost items: seq<Item>)
    requires Growing(items)
    requires if items == [] then head == null else head == items[0] && last == items[|items| - 1]
    modifies items
    ensures LinkedAs(items)
  {
    if head != null {
      SetPrev(head, last, items, 0);
    }
  }

  /** What follows an element: a syntax error, a comma, or the closing bracket. */
  datatype Following = Wrong | Comma(k: nat) | Close(k: nat)

  /** One turn of the loop, up to the byte behind the element. */
  function ReadElement(c: Text, at: nat, depth: nat): (r: (Following, Json))
    requires at < |c|
    ensures r.0.Wrong? ==> ParseItems(c, at, depth) == None
    ensures r.0.Comma? ==> at < r.0.k < |c| && ParseItems(c, at, depth) == After([r.1], ParseItems(c, r.0.k, depth))
    ensures r.0.Close? ==> ParseItems(c, at, depth) == Some(([r.1], r.0.k))
  {
    match ParseItem(c, at, depth)
    case None => (Wrong, JNull)
    case Some((v, k0)) =>
      var k := SkipWs(c, k0);
      if k >= |c| then (Wrong, v)
      else if c[k] == COMMA then (Comma(k), v)
      else if c[k] == CLOSE_BRACKET then (Close(k), v)
      else (Wrong, v)
  }

  /** The elements from the bracket or comma before the first on. */
  method ParseItemList(c: Text, i: nat, depth: nat)
    returns (ok: bool, head: Item?, last: Item?, ghost items: seq<Item>, end: nat)
    requires i < |c|
    ensures ok == ParseItems(c, i, depth).Some?
    ensures ok ==> Growing(items) && ParseItems(c, i, depth) == Some((Values(items), end))
    ensures ok ==> items != [] && head == items[0] && last == items[|items| - 1]
    ensures fresh(items)
  {
    head, last, items, end := null, null, [], 0;
    AfterNothing(ParseItems(c, i, depth));
    var at := i;
    while true
      invariant at < |c| && Growing(items) && fresh(items)
      invariant if items == [] then head == null else head == items[0] && last == items[|items| - 1]
      invariant ParseItems(c, i, depth) == After(Values(items), ParseItems(c, at, depth))
      decreases |c| - at
    {
      var (following, value) := ReadElement(c, at, depth);
      AfterElement(c, i, at, depth, Values(items));
      if following.Wrong? {
        return false, head, last, items, end;
      }
      var item;
      head, item := Attach(head, last, value, items);
      last, items := item, items + [item];
      if following.Close? {
        return true, head, last, items, following.k;
      }
      at := following.k;
    }
  }

  /** The element read moves from what is still to be read to what has been read. */
  lemma AfterElement(c: Text, i: nat, at: nat, depth: nat, values: seq<Json>)
    requires i < |c| && at < |c| && ParseItems(c, i, depth) == After(values, ParseItems(c, at, depth))
    ensures
      var (following, value) := ReadElement(c, at, depth);
      match following
      case Wrong => ParseItems(c, i, depth) == None
      case Comma(k) => ParseItems(c, i, depth) == After(values + [value], ParseItems(c, k, depth))
      case Close(k) => ParseItems(c, i, depth) == Some((values + [value], k))
  {
    var (following, value) := ReadElement(c, at, depth);
    if following.Comma? {
      AfterNext(values, value, ParseItems(c, following.k, depth));
    }
  }

  lemma ArrayUnfold(c: Text, i: nat, depth: nat, j: nat)
    requires i < |c| && depth < NESTING_LIMIT && j == SkipWs(c, i + 1) < |c|
    ensures c[j] == CLOSE_BRACKET ==> ParseArray(c, i, depth) == Some((JArr([]), j + 1))
    ensures c[j] != CLOSE_BRACKET ==>
      var r := ParseItems(c, j - 1, depth + 1);
      ParseArray(c, i, depth) == if r.None? then None else Some((JArr(r.value.0), r.value.1 + 1))
  {
  }

  /** parse_array: the child list holds the elements of the value read, in order; null for a syntax error. */
  method ParseArrayList(c: Text, i: nat, depth: nat) returns (parent: Parent?, end: nat)
    requires i < |c|
    ensures parent == null <==> ParseArray(c, i, depth).None?
    ensures parent != null ==> fresh(parent) && parent.Valid()
    ensures parent != null ==> ParseArray(c, i, depth) == Some((JArr(Values(parent.items)), end))
  {
    if depth >= NESTING_LIMIT {
      return null, 0;
    }
    var j := SkipWs(c, i + 1);
    if j >= |c| {
      return null, 0;
    }
    ArrayUnfold(c, i, depth, j);
    parent, end := ParseElements(c, j, depth + 1);
  }

  method ParseElements(c: Text, j: nat, depth: nat) returns (parent: Parent?, end: nat)
    requires 0 < j < |c|
    ensures c[j] == CLOSE_BRACKET ==> parent != null && parent.items == [] && end == j + 1
    ensures c[j] != CLOSE_BRACKET ==> (parent == null <==> ParseItems(c, j - 1, depth).None?)
    ensures c[j] != CLOSE_BRACKET && parent != null ==>
      end > 0 && ParseItems(c, j - 1, depth) == Some((Values(parent.items), end - 1))
    ensures parent != null ==> fresh(parent) && parent.Valid()
  {
    if c[j] == CLOSE_BRACKET {
      parent := new Parent();
      end := j + 1;
    } else {
      parent, end := ParseChildren(c, j - 1, depth);
      end := end + 1;
    }
  }

  method ParseChildren(c: Text, i: nat, depth: nat) returns (parent: Parent?, end: nat)
    requires i < |c|
    ensures parent == null <==> ParseItems(c, i, depth).None?
    ensures parent != null ==> fresh(parent) && parent.Valid()
    ensures parent != null ==> ParseItems(c, i, depth) == Some((Values(parent.items), end))
  {
    var ok, head, last;
    ghost var items;
    ok, head, last, items, end := ParseItemList(c, i, depth);
    if !ok {
      return null, end;
    }
    parent := Adopt(head, last, items);
  }
}
