/**
 The intrusive child list of the JSON library: next runs to null, prev runs to the
 predecessor, and the first item's prev is the last item.
 */
module CellList {
  import opened Json

  /** A cell: the value it holds and its links. */
  class Item {
    const value: Json
    var next: Item?
    var prev: Item?

    constructor (value: Json)
      ensures next == null && prev == null && this.value == value
    {
      this.value := value;
      next, prev := null, null;
    }
  }

  ghost predicate Distinct(s: seq<Item>) {
    s == [] || (s[|s| - 1] !in s[..|s| - 1] && Distinct(s[..|s| - 1]))
  }

  lemma {:induction false} DistinctMeans(s: seq<Item>)
    ensures Distinct(s) <==> forall i, j :: 0 <= i < j < |s| ==> s[i] != s[j]
  {
    if s != [] {
      DistinctMeans(s[..|s| - 1]);
    }
  }

  /** No other position holds the item at k. */
  lemma OnlyAt(s: seq<Item>, k: nat)
    requires Distinct(s) && k < |s|
    ensures forall i :: 0 <= i < |s| && i != k ==> s[i] != s[k]
  {
    DistinctMeans(s);
  }

  ghost function Next(s: seq<Item>, i: nat): Item?
    requires i < |s|
  {
    if i + 1 < |s| then s[i + 1] else null
  }

  /** The predecessor, counted around: the last item precedes the first. */
  ghost function Prev(s: seq<Item>, i: nat): Item?
    requires i < |s|
  {
    if i == 0 then s[|s| - 1] else s[i - 1]
  }

  /** One link is written, and no link of the list's other items changes. */
  method SetNext(item: Item, target: Item?, ghost s: seq<Item>, ghost k: nat)
    requires Distinct(s) && k < |s| && s[k] == item
    modifies item`next
    ensures item.next == target
    ensures forall i :: 0 <= i < |s| ==> s[i].next == if i == k then target else old(s[i].next)
  {
    OnlyAt(s, k);
    item.next := target;
  }

  method SetPrev(item: Item, target: Item?, ghost s: seq<Item>, ghost k: nat)
    requires Distinct(s) && k < |s| && s[k] == item
    modifies item`prev
    ensures item.prev == target
    ensures forall i :: 0 <= i < |s| ==> s[i].prev == if i == k then target else old(s[i].prev)
  {
    OnlyAt(s, k);
    item.prev := target;
  }

  /** An item outside the list is given a predecessor. */
  method PointBack(item: Item, target: Item, ghost s: seq<Item>)
    requires item !in s
    modifies item`prev
    ensures item.prev == target
    ensures forall i :: 0 <= i < |s| ==> s[i].prev == old(s[i].prev)
  {
    item.prev := target;
  }

  class Parent {
    var child: Item?
    ghost var items: seq<Item>

    ghost predicate Valid()
      reads this, items
    {
      && Distinct(items)
      && child == (if items == [] then null else items[0])
      && LinkedAs(items)
    }

    constructor ()
      ensures Valid() && items == []
    {
      child, items := null, [];
    }

    /** get_array_item */
    method Get(index: nat) returns (r: Item?)
      requires Valid()
      ensures r == if index < |items| then items[index] else null
    {
      var current := child;
      ghost var k := 0;
      var left := index;
      while current != null && left > 0
        invariant 0 <= k <= |items| && left == index - k && left >= 0
        invariant current == if k < |items| then items[k] else null
        decreases left
      {
        assert current == items[k];
        left := left - 1;
        current := current.next;
        k := k + 1;
      }
      return current;
    }

    /** add_item_to_array; a new item has no successor. */
    method Add(item: Item)
      requires Valid() && item !in items && item.next == null
      modifies this, items, item
      ensures Valid() && items == old(items) + [item]
    {
      if child == null {
        child := item;
        item.prev := item;
        item.next := null;
        items := [item];
      } else {
        ghost var was := items;
        LinkBehind(item);
        items := was + [item];
        AppendedIsLinked(was, item);
        assert items[..|was|] == was;
      }
    }

    /** The pointer updates of an append to a list that is not empty. */
    method LinkBehind(item: Item)
      requires Valid() && items != [] && item !in items && item.next == null
      modifies items, item
      ensures LinkedBehind(items, item)
    {
      var last := child.prev;
      assert last == items[|items| - 1];
      SetNext(last, item, items, |items| - 1);
      PointBack(item, last, items);
      SetPrev(child, item, items, 0);
    }

    /** cJSON_InsertItemInArray; past the end it appends. */
    method Insert(which: int, item: Item) returns (ok: bool)
      requires Valid() && item !in items && item.next == null
      modifies this, items, item
      ensures Valid()
      ensures ok == (which >= 0)
      ensures items == if which >= 0 then Inserted(old(items), which, item) else old(items)
    {
      if which < 0 {
        return false;
      }
      var after := Get(which);
      if after == null {
        Add(item);
        return true;
      }
      ghost var was := items;
      LinkInFront(item, after, which);
      items := Inserted(was, which, item);
      InsertedIsDistinct(was, which, item);
      InsertedIsLinked(was, which, item);
      return true;
    }

    /** The pointer updates of an insertion in front of an existing item. */
    method LinkInFront(item: Item, after: Item, ghost k: nat)
      requires Valid() && item !in items && k < |items| && items[k] == after
      modifies this`child, items, item
      ensures child == if k == 0 then item else items[0]
      ensures LinkedBefore(items, k, item)
    {
      assert after.prev == Prev(items, k);
      OnlyAt(items, 0);
      item.next := after;
      item.prev := after.prev;
      SetPrev(after, item, items, k);
      if after == child {
        child := item;
      } else {
        SetNext(item.prev, item, items, k - 1);
      }
    }

    /** cJSON_DetachItemFromArray */
    method DetachAt(which: int) returns (r: Item?)
      requires Valid()
      modifies this, items
      ensures Valid()
      ensures 0 <= which < |old(items)| ==>
        r == old(items)[which] && items == Removed(old(items), which) && r.next == null && r.prev == null
      ensures !(0 <= which < |old(items)|) ==> r == null && items == old(items)
    {
      if which < 0 {
        return null;
      }
      var item := Get(which);
      r := Detach(item, which);
    }

    /** cJSON_DetachItemViaPointer; an item that was never linked, and the head of no list, is refused. */
    method Detach(item: Item?, ghost k: nat) returns (r: Item?)
      requires Valid()
      requires if k < |items| then items[k] == item else item == null || (item != child && item.prev == null)
      modifies this, items
      ensures Valid()
      ensures k < |old(items)| ==>
        r == item && items == Removed(old(items), k) && item.next == null && item.prev == null
      ensures k >= |old(items)| ==> r == null && items == old(items)
    {
      if item == null || (item != child && item.prev == null) {
        return null;
      }
      TakeOut(item, k);
      return item;
    }

    method TakeOut(item: Item, ghost k: nat)
      requires Valid() && k < |items| && items[k] == item
      modifies this, items
      ensures Valid() && items == Removed(old(items), k)
      ensures item.next == null && item.prev == null
    {
      ghost var was := items;
      Unlink(item, k);
      items := Removed(was, k);
      RemovedIsDistinct(was, k);
      RemovedIsLinked(was, k);
    }

    /** The pointer updates of a removal. */
    method Unlink(item: Item, ghost k: nat)
      requires Valid() && k < |items| && items[k] == item
      modifies this`child, items
      ensures item.next == null && item.prev == null
      ensures child == if k > 0 then items[0] else Next(items, 0)
      ensures LinkedPast(items, k)
    {
      assert item.next == Next(items, k) && item.prev == Prev(items, k);
      OnlyAt(items, 0);
      if item != child {
        SetNext(item.prev, item.next, items, k - 1);
      }
      SkipBack(item, k);
      Close(item, k);
    }

    /** The successor's prev goes past the item. */
    method SkipBack(item: Item, ghost k: nat)
      requires Distinct(items) && k < |items| && items[k] == item
      requires item.next == Next(items, k)
      requires forall i :: 0 <= i < |items| ==> items[i].next == if i + 1 == k then Next(items, k) else Next(items, i)
      requires forall i :: 0 <= i < |items| ==> items[i].prev == Prev(items, i)
      modifies items
      ensures LinkedOver(items, k)
    {
      if item.next != null {
        SetPrev(item.next, item.prev, items, k + 1);
      }
    }

    /** The head, or the head's prev, follows when an end of the list goes. */
    method Close(item: Item, ghost k: nat)
      requires Distinct(items) && k < |items| && items[k] == item && child == items[0]
      requires LinkedOver(items, k)
      modifies this`child, items
      ensures item.next == null && item.prev == null
      ensures child == if k > 0 then items[0] else Next(items, 0)
      ensures LinkedPast(items, k)
    {
      assert item.next == Next(items, k) && item.prev == Prev(items, k);
      OnlyAt(items, 0);
      if item == child {
        child := item.next;
      } else if item.next == null {
        SetPrev(child, item.prev, items, 0);
      }
      Forget(item, k);
    }

    /** The item points nowhere, and no link of the others changes. */
    method Forget(item: Item, ghost k: nat)
      requires Distinct(items) && k < |items| && items[k] == item
      modifies item
      ensures item.next == null && item.prev == null
      ensures forall i :: 0 <= i < |items| && i != k ==> items[i].next == old(items[i].next)
      ensures forall i :: 0 <= i < |items| && i != k ==> items[i].prev == old(items[i].prev)
    {
      SetPrev(item, null, items, k);
      SetNext(item, null, items, k);
    }

    /** cJSON_ReplaceItemViaPointer */
    method Replace(item: Item, replacement: Item, ghost k: nat)
      requires Valid() && k < |items| && items[k] == item && (replacement == item || replacement !in items)
      modifies this, items, replacement
      ensures Valid() && items == old(items)[k := replacement]
      ensures replacement != item ==> item.next == null && item.prev == null
    {
      if replacement == item {
        return;
      }
      ghost var was := items;
      Exchange(item, replacement, k);
      items := was[k := replacement];
      ReplacedIsDistinct(was, k, replacement);
      ReplacedIsLinked(was, k, replacement);
    }

    /** The pointer updates of a replacement. */
    method Exchange(item: Item, replacement: Item, ghost k: nat)
      requires Valid() && k < |items| && items[k] == item && replacement !in items
      modifies this`child, items, replacement
      ensures item.next == null && item.prev == null
      ensures child == if k == 0 then replacement else items[0]
      ensures Exchanged(items, k, replacement)
    {
      OnlyAt(items, 0);
      TakeLinks(item, replacement, k);
      if child == item {
        ExchangeFirst(item, replacement);
      } else {
        ExchangeLater(item, replacement, k);
      }
      Retire(item, replacement, k);
    }

    /** The item taken out points nowhere, and no link of the others changes. */
    method Retire(item: Item, replacement: Item, ghost k: nat)
      requires Distinct(items) && k < |items| && items[k] == item && replacement !in items
      requires Exchanged(items, k, replacement)
      modifies item
      ensures item.next == null && item.prev == null
      ensures Exchanged(items, k, replacement)
    {
      Forget(item, k);
    }

    /** The replacement takes over both links, and the successor's back link. */
    method TakeLinks(item: Item, replacement: Item, ghost k: nat)
      requires Valid() && k < |items| && items[k] == item && replacement !in items
      modifies items, replacement
      ensures LinksTaken(items, k, replacement)
    {
      assert item.next == Next(items, k) && item.prev == Prev(items, k);
      CopyLinks(item, replacement);
      TakeBack(replacement, k);
    }

    /** The successor's prev goes to the replacement. */
    method TakeBack(replacement: Item, ghost k: nat)
      requires Distinct(items) && k < |items| && replacement !in items
      requires LinkedAs(items) && replacement.next == Next(items, k) && replacement.prev == Prev(items, k)
      modifies items
      ensures LinksTaken(items, k, replacement)
    {
      if replacement.next != null {
        SetPrev(replacement.next, replacement, items, k + 1);
      }
    }

    method CopyLinks(item: Item, replacement: Item)
      requires replacement !in items
      modifies replacement
      ensures replacement.next == old(item.next) && replacement.prev == old(item.prev)
      ensures forall i :: 0 <= i < |items| ==> items[i].next == old(items[i].next)
      ensures forall i :: 0 <= i < |items| ==> items[i].prev == old(items[i].prev)
    {
      replacement.next, replacement.prev := item.next, item.prev;
    }

    /** The item replaced is the head of the list. */
    method ExchangeFirst(item: Item, replacement: Item)
      requires Distinct(items) && |items| > 0 && items[0] == item == child && replacement !in items
      requires LinksTaken(items, 0, replacement)
      modifies this`child, replacement
      ensures child == replacement
      ensures Exchanged(items, 0, replacement)
    {
      assert item.prev == Prev(items, 0);
      OnlyAt(items, 0);
      if child.prev == child {
        replacement.prev := replacement;
      }
      child := replacement;
    }

    /** The item replaced has a predecessor in the list; a last one hands the head a new prev. */
    method ExchangeLater(item: Item, replacement: Item, ghost k: nat)
      requires Distinct(items) && 0 < k < |items| && items[k] == item && items[0] == child
      requires replacement !in items && LinksTaken(items, k, replacement)
      modifies items
      ensures Exchanged(items, k, replacement)
    {
      assert replacement.prev == items[k - 1];
      if replacement.prev != null {
        SetNext(replacement.prev, replacement, items, k - 1);
      }
      if replacement.next == null {
        SetPrev(child, replacement, items, 0);
      }
    }
  }

  // ----- the sequence operations

  ghost function Inserted(s: seq<Item>, which: nat, item: Item): seq<Item> {
    if which < |s| then s[..which] + [item] + s[which..] else s + [item]
  }

  ghost function Removed(s: seq<Item>, k: nat): seq<Item>
    requires k < |s|
  {
    s[..k] + s[k + 1..]
  }

  /** The position after k, counted around. */
  ghost function Successor(s: seq<Item>, k: nat): nat
    requires k < |s|
  {
    if k + 1 < |s| then k + 1 else 0
  }

  ghost predicate LinkedAs(s: seq<Item>)
    reads s
  {
    forall i :: 0 <= i < |s| ==> s[i].next == Next(s, i) && s[i].prev == Prev(s, i)
  }

  /** All links of a list behind which item has been put. */
  ghost predicate LinkedBehind(s: seq<Item>, item: Item)
    requires s != []
    reads s, item
  {
    && item.next == null && item.prev == s[|s| - 1]
    && (forall i :: 0 <= i < |s| ==> s[i].next == if i + 1 == |s| then item else Next(s, i))
    && (forall i :: 0 <= i < |s| ==> s[i].prev == if i == 0 then item else Prev(s, i))
  }

  lemma AppendedIsLinked(was: seq<Item>, item: Item)
    requires was != [] && LinkedBehind(was, item)
    ensures LinkedAs(was + [item])
  {
    var s := was + [item];
    forall i | 0 <= i < |s|
      ensures s[i].next == Next(s, i) && s[i].prev == Prev(s, i)
    {
      if i < |was| {
        assert s[i] == was[i] && s[i + 1] == if i + 1 < |was| then was[i + 1] else item;
        assert i > 0 ==> s[i - 1] == was[i - 1];
      } else {
        assert s[i] == item && s[i - 1] == was[i - 1];
      }
    }
  }

  /** All links of a list into which item has been put in front of k. */
  ghost predicate LinkedBefore(s: seq<Item>, k: nat, item: Item)
    requires k < |s|
    reads s, item
  {
    && item.next == s[k]
    && item.prev == Prev(s, k)
    && (forall i :: 0 <= i < |s| ==> s[i].next == if i + 1 == k then item else Next(s, i))
    && (forall i :: 0 <= i < |s| ==> s[i].prev == if i == k then item else Prev(s, i))
  }

  lemma InsertedDiffer(was: seq<Item>, k: nat, item: Item, i: nat, j: nat)
    requires Distinct(was) && item !in was && k < |was| && i < j <= |was|
    ensures Inserted(was, k, item)[i] != Inserted(was, k, item)[j]
  {
    if i == k {
      assert was[j - 1] != item;
    } else if j == k {
      assert was[i] != item;
    } else {
      OnlyAt(was, if i < k then i else i - 1);
    }
  }

  lemma InsertedIsDistinct(was: seq<Item>, k: nat, item: Item)
    requires Distinct(was) && item !in was && k < |was|
    ensures Distinct(Inserted(was, k, item))
  {
    var s := Inserted(was, k, item);
    forall i, j | 0 <= i < j < |s|
      ensures s[i] != s[j]
    {
      InsertedDiffer(was, k, item, i, j);
    }
    DistinctMeans(s);
  }

  lemma InsertedIsLinked(was: seq<Item>, k: nat, item: Item)
    requires k < |was| && LinkedBefore(was, k, item)
    ensures LinkedAs(Inserted(was, k, item))
  {
    var s := Inserted(was, k, item);
    forall i | 0 <= i < |s|
      ensures s[i].next == Next(s, i) && s[i].prev == Prev(s, i)
    {
      if i < k {
        assert s[i] == was[i];
      } else if i > k {
        assert s[i] == was[i - 1];
      }
    }
  }

  /** All links of a list out of which the item at k has been taken. */
  ghost predicate LinkedPast(s: seq<Item>, k: nat)
    requires k < |s|
    reads s
  {
    && (forall i :: 0 <= i < |s| && i != k ==> s[i].next == if i + 1 == k then Next(s, k) else Next(s, i))
    && (forall i :: 0 <= i < |s| && i != k ==> s[i].prev == if i == Successor(s, k) then Prev(s, k) else Prev(s, i))
  }

  /** The neighbours of the item at k point past it; its own links still stand. */
  ghost predicate LinkedOver(s: seq<Item>, k: nat)
    requires k < |s|
    reads s
  {
    && (forall i :: 0 <= i < |s| ==> s[i].next == if i + 1 == k then Next(s, k) else Next(s, i))
    && (forall i :: 0 <= i < |s| ==> s[i].prev == if i == k + 1 then Prev(s, k) else Prev(s, i))
  }

  lemma RemovedIsDistinct(was: seq<Item>, k: nat)
    requires Distinct(was) && k < |was|
    ensures Distinct(Removed(was, k))
  {
    DistinctMeans(was);
    DistinctMeans(Removed(was, k));
  }

  lemma RemovedIsLinked(was: seq<Item>, k: nat)
    requires k < |was| && LinkedPast(was, k)
    ensures LinkedAs(Removed(was, k))
  {
    var s := Removed(was, k);
    forall i | 0 <= i < |s|
      ensures s[i].next == Next(s, i) && s[i].prev == Prev(s, i)
    {
      if i < k {
        assert s[i] == was[i];
      } else {
        assert s[i] == was[i + 1];
      }
    }
  }

  ghost predicate LinksTaken(s: seq<Item>, k: nat, item: Item)
    requires k < |s|
    reads s, item
  {
    && item.next == Next(s, k)
    && item.prev == Prev(s, k)
    && (forall i :: 0 <= i < |s| ==> s[i].next == Next(s, i))
    && (forall i :: 0 <= i < |s| ==> s[i].prev == if i == k + 1 then item else Prev(s, i))
  }

  /** All links of a list in which item has replaced the one at k, which is left out. */
  ghost predicate Exchanged(s: seq<Item>, k: nat, item: Item)
    requires k < |s|
    reads s, item
  {
    && item.next == Next(s, k)
    && item.prev == (if |s| == 1 then item else Prev(s, k))
    && (forall i :: 0 <= i < |s| && i != k ==> s[i].next == if i + 1 == k then item else Next(s, i))
    && (forall i :: 0 <= i < |s| && i != k ==> s[i].prev == if i == Successor(s, k) then item else Prev(s, i))
  }

  lemma ReplacedIsDistinct(was: seq<Item>, k: nat, item: Item)
    requires Distinct(was) && item !in was && k < |was|
    ensures Distinct(was[k := item])
  {
    DistinctMeans(was);
    DistinctMeans(was[k := item]);
  }

  lemma ReplacedIsLinked(was: seq<Item>, k: nat, item: Item)
    requires k < |was| && Exchanged(was, k, item)
    ensures LinkedAs(was[k := item])
  {
    var s := was[k := item];
    forall i | 0 <= i < |s|
      ensures s[i].next == Next(s, i) && s[i].prev == Prev(s, i)
    {
      assert i != k ==> s[i] == was[i];
    }
  }
}
