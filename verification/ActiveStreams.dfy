/** The listener's linked list of streams: new ones at the head, lookups from the head on. */
module ActiveStreams {

  class Entry {
    const ref: nat
    var closing: bool
    var detecting: bool
    var next: Entry?

    constructor (ref: nat)
      ensures this.ref == ref && !closing && !detecting && next == null
    {
      this.ref := ref;
      closing, detecting, next := false, false, null;
    }

    /** A lookup by connection stops here. */
    predicate Answers(ref: nat)
      reads this
    {
      !closing && detecting && this.ref == ref
    }
  }

  ghost function First(s: seq<Entry>): Entry? { if s == [] then null else s[0] }

  ghost function Next(s: seq<Entry>, i: nat): Entry?
    requires i < |s|
  {
    if i + 1 < |s| then s[i + 1] else null
  }

  ghost predicate Distinct(s: seq<Entry>) { forall i, j :: 0 <= i < j < |s| ==> s[i] != s[j] }

  /** Linked one after another, ending in null. */
  ghost predicate Chain(s: seq<Entry>)
    reads s
  {
    Distinct(s) && forall i :: 0 <= i < |s| ==> s[i].next == Next(s, i)
  }

  ghost function Without(s: seq<Entry>, e: Entry): seq<Entry> {
    if s == [] then [] else if s[0] == e then s[1..] else [s[0]] + Without(s[1..], e)
  }

  class List {
    var head: Entry?
    ghost var entries: seq<Entry>

    ghost predicate Valid()
      reads this, entries
    {
      Chain(entries) && head == First(entries)
    }

    constructor ()
      ensures Valid() && entries == []
    {
      head, entries := null, [];
    }

    /** stream_callback: a new record becomes the head. */
    method Link(e: Entry)
      requires Valid() && e !in entries
      modifies this, e`next
      ensures Valid() && entries == [e] + old(entries)
    {
      ghost var was := entries;
      e.next := head;
      head := e;
      entries := [e] + was;
      assert forall i :: 0 <= i < |entries| ==> entries[i] == if i == 0 then e else was[i - 1];
    }

    /** cleanup_active_stream: walk to the link that holds the record and skip over it. */
    method Unlink(e: Entry)
      requires Valid()
      modifies this, entries
      ensures Valid() && entries == Without(old(entries), e)
    {
      var current := head;
      var before: Entry? := null;
      ghost var k := 0;
      while current != null && current != e
        invariant Valid() && entries == old(entries)
        invariant k <= |entries| && current == First(entries[k..])
        invariant before == if k == 0 then null else entries[k - 1]
        invariant e !in entries[..k]
        decreases |entries| - k
      {
        assert current == entries[k] && current.next == Next(entries, k);
        before := current;
        current := current.next;
        k := k + 1;
      }
      WithoutAt(entries, e, k);
      if current == null {
        return;
      }
      ghost var was := entries;
      assert e == was[k] && e.next == Next(was, k);
      if before == null {
        head := e.next;
      } else {
        before.next := e.next;
      }
      entries := was[..k] + was[k + 1..];
      SkippedIsChain(was, k);
    }

    /** A lookup by connection: the first record that answers. */
    method Find(ref: nat) returns (r: Entry?)
      requires Valid()
      ensures r == null <==> forall x <- entries :: !x.Answers(ref)
      ensures r != null ==>
        exists k :: 0 <= k < |entries| && entries[k] == r && r.Answers(ref)
          && forall x <- entries[..k] :: !x.Answers(ref)
    {
      r := head;
      ghost var k := 0;
      while r != null && !(!r.closing && r.detecting && r.ref == ref)
        invariant k <= |entries| && r == First(entries[k..])
        invariant forall x <- entries[..k] :: !x.Answers(ref)
        decreases |entries| - k
      {
        assert r == entries[k] && r.next == Next(entries, k);
        r := r.next;
        k := k + 1;
      }
      assert r == null ==> entries[..k] == entries;
      assert r != null ==> r == entries[k] && r in entries && r.Answers(ref);
    }
  }

  lemma {:induction false} WithoutAt(s: seq<Entry>, e: Entry, k: nat)
    requires k <= |s| && e !in s[..k] && (k < |s| ==> s[k] == e)
    ensures Without(s, e) == if k < |s| then s[..k] + s[k + 1..] else s
  {
    if k > 0 {
      assert s[0] == s[..k][0];
      assert s[1..][..k - 1] == s[..k][1..];
      WithoutAt(s[1..], e, k - 1);
      assert s == [s[0]] + s[1..];
    }
  }

  /** One link rewritten, the rest as they were. */
  lemma SkippedIsChain(was: seq<Entry>, k: nat)
    requires Distinct(was) && k < |was|
    requires forall i :: 0 <= i < |was| ==> was[i].next == if i + 1 == k then Next(was, k) else Next(was, i)
    ensures Chain(was[..k] + was[k + 1..])
  {
    var s := was[..k] + was[k + 1..];
    forall i | 0 <= i < |s|
      ensures s[i].next == Next(s, i)
    {
      assert s[i] == if i < k then was[i] else was[i + 1];
    }
  }
}
