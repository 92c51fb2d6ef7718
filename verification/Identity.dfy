/**
 When two prompts share an identity. The fields are hashed without separators and
 into 64 bits, so different prompts can; those whose fields differ only inside
 four neighbouring bytes cannot.
 */
module Identity {
  import opened Bytes
  import opened Prompt

  // ----- the fold can be undone byte by byte

  lemma {:induction false} XorSourceInjective(x: nat, y: nat, z: nat, bits: nat)
    requires x < Pow2(bits) && y < Pow2(bits) && Xor(x, z, bits) == Xor(y, z, bits)
    ensures x == y
  {
    if bits > 0 {
      var a, b := Xor(x / 2, z / 2, bits - 1), Xor(y / 2, z / 2, bits - 1);
      assert 2 * a + (x + z) % 2 == 2 * b + (y + z) % 2;
      assert a == b;
      XorSourceInjective(x / 2, y / 2, z / 2, bits - 1);
      SameParity(z, x, y);
    }
  }

  lemma HashInjective(u: Hash, v: Hash, b: Byte)
    requires Mul(XorByte(u, b)) == Mul(XorByte(v, b))
    ensures u == v
  {
    MulInjective(XorByte(u, b), XorByte(v, b));
    assert u / 256 == v / 256;
    assert Pow2(8) == 256;
    XorSourceInjective(u % 256, v % 256, b, 8);
  }

  /** Whatever follows, different running hashes stay different. */
  lemma {:induction false} FoldInjective(u: Hash, v: Hash, rest: Text)
    requires Fold(u, rest) == Fold(v, rest)
    ensures u == v
  {
    if rest != [] {
      var n := |rest| - 1;
      HashInjective(Fold(u, rest[..n]), Fold(v, rest[..n]), rest[n]);
      FoldInjective(u, v, rest[..n]);
    }
  }

  /** Four neighbouring bytes decide, whatever stands before and after them. */
  lemma WindowDecides(h: Hash, a: Text, x: Text, y: Text, z: Text)
    requires |x| == |y| == 4
    ensures Fold(h, a + x + z) == Fold(h, a + y + z) <==> x == y
  {
    if Fold(h, a + x + z) == Fold(h, a + y + z) {
      FoldConcat(h, a + x, z);
      FoldConcat(h, a + y, z);
      FoldInjective(Fold(h, a + x), Fold(h, a + y), z);
      FoldConcat(h, a, x);
      FoldConcat(h, a, y);
      RowBytesSeparate(Fold(h, a), x, y);
    }
  }

  // ----- identities

  /** The id is a faithful image of the 64-bit hash. */
  lemma IdIsHash(c: Candidate, d: Candidate)
    ensures InstanceId(c) == InstanceId(d) <==> Fold(SEED, Fields(c)) == Fold(SEED, Fields(d))
  {
    if InstanceId(c) == InstanceId(d) {
      Pow16Of16();
      HexInjective(Fold(SEED, Fields(c)), Fold(SEED, Fields(d)), 16);
    }
  }

  /** Equally long and the same outside the four bytes from k on. */
  predicate Near(s: Text, t: Text, k: nat) {
    |s| == |t| && k + 4 <= |s| && s[..k] == t[..k] && s[k + 4..] == t[k + 4..]
  }

  lemma NearFieldsDecide(c: Candidate, d: Candidate, k: nat)
    requires Near(Fields(c), Fields(d), k)
    ensures InstanceId(c) == InstanceId(d) <==> Fields(c) == Fields(d)
  {
    var s, t := Fields(c), Fields(d);
    IdIsHash(c, d);
    WindowDecides(SEED, s[..k], s[k..k + 4], t[k..k + 4], s[k + 4..]);
    Reassemble(s, k);
    Reassemble(t, k);
  }

  lemma Reassemble(s: Text, k: nat)
    requires k + 4 <= |s|
    ensures s == s[..k] + s[k..k + 4] + s[k + 4..]
  {
  }

  /** All texts of the two candidates have the same lengths, and the rows are 32-bit numbers. */
  predicate SameShape(c: Candidate, d: Candidate) {
    && |c.patternId| == |d.patternId| && |c.prompt| == |d.prompt|
    && SameLengths(c.actions, d.actions)
    && -0x8000_0000 <= c.anchorRow < 0x8000_0000 && -0x8000_0000 <= d.anchorRow < 0x8000_0000
  }

  predicate SameLengths(a: seq<Action>, b: seq<Action>) {
    |a| == |b| &&
    (a == [] ||
     (var x, y := a[|a| - 1], b[|b| - 1];
      |x.caption| == |y.caption| && |x.keys| == |y.keys| && SameLengths(a[..|a| - 1], b[..|b| - 1])))
  }

  /** Concatenations of equally long pieces agree exactly when the pieces do. */
  lemma PiecesDecide(a: Text, b: Text, s: Text, t: Text)
    requires |a| == |b| && |s| == |t|
    ensures a + s == b + t <==> a == b && s == t
  {
    if a + s == b + t {
      assert (a + s)[..|a|] == a && (b + t)[..|b|] == b;
      assert (a + s)[|a|..] == s && (b + t)[|b|..] == t;
    }
  }

  lemma {:induction false} ActionsDecide(a: seq<Action>, b: seq<Action>)
    requires SameLengths(a, b)
    ensures |ActionBytes(a)| == |ActionBytes(b)|
    ensures ActionBytes(a) == ActionBytes(b) <==> a == b
  {
    if a != [] {
      var n := |a| - 1;
      var x, y := a[n], b[n];
      ActionsDecide(a[..n], b[..n]);
      PiecesDecide(ActionBytes(a[..n]), ActionBytes(b[..n]), x.caption, y.caption);
      PiecesDecide(ActionBytes(a[..n]) + x.caption, ActionBytes(b[..n]) + y.caption, x.keys, y.keys);
      LastDecides(a, b);
    }
  }

  lemma LastDecides(a: seq<Action>, b: seq<Action>)
    requires |a| == |b| > 0
    ensures
      var n := |a| - 1;
      a == b <==> a[..n] == b[..n] && a[n].caption == b[n].caption && a[n].keys == b[n].keys
  {
    var n := |a| - 1;
    assert a == a[..n] + [a[n]] && b == b[..n] + [b[n]];
  }

  lemma TypesDecide(t: PromptType, u: PromptType)
    ensures |TypeBytes(t)| == |TypeBytes(u)| == 4
    ensures TypeBytes(t) == TypeBytes(u) <==> t == u
  {
    assert TypeBytes(t)[0] == (match t case YesNo => 0 case NumberedMenu => 1 case AcceptReject => 2);
    assert TypeBytes(u)[0] == (match u case YesNo => 0 case NumberedMenu => 1 case AcceptReject => 2);
  }

  /** Between candidates of one shape the concatenated fields tell everything. */
  lemma FieldsDecide(c: Candidate, d: Candidate)
    requires SameShape(c, d)
    ensures |Fields(c)| == |Fields(d)|
    ensures Fields(c) == Fields(d) <==> c == d
  {
    var c1, d1 := c.patternId + TypeBytes(c.patternType), d.patternId + TypeBytes(d.patternType);
    var c2, d2 := c1 + c.prompt, d1 + d.prompt;
    var c3, d3 := c2 + ActionBytes(c.actions), d2 + ActionBytes(d.actions);
    TypesDecide(c.patternType, d.patternType);
    ActionsDecide(c.actions, d.actions);
    PiecesDecide(c.patternId, d.patternId, TypeBytes(c.patternType), TypeBytes(d.patternType));
    PiecesDecide(c1, d1, c.prompt, d.prompt);
    PiecesDecide(c2, d2, ActionBytes(c.actions), ActionBytes(d.actions));
    PiecesDecide(c3, d3, IntBytes(c.anchorRow), IntBytes(d.anchorRow));
    if IntBytes(c.anchorRow) == IntBytes(d.anchorRow) {
      IntBytesInjective(c.anchorRow, d.anchorRow);
    }
  }

  /** Prompts of one shape whose fields differ only inside four neighbouring bytes: equal ids, equal prompts. */
  lemma NearPromptsDecide(c: Candidate, d: Candidate, k: nat)
    requires SameShape(c, d) && Near(Fields(c), Fields(d), k)
    ensures InstanceId(c) == InstanceId(d) <==> c == d
  {
    NearFieldsDecide(c, d, k);
    FieldsDecide(c, d);
  }

  // ----- collisions

  /** Moving a byte from the keys of an action to its caption is invisible. */
  lemma FieldBoundaryIsInvisible(c: Candidate, before: seq<Action>, caption: Text, b: Byte, keys: Text, after: seq<Action>)
    requires |before| + 1 + |after| <= MAX_ACTIONS
    ensures
      var c1 := c.(actions := before + [Action(caption, [b] + keys)] + after);
      var c2 := c.(actions := before + [Action(caption + [b], keys)] + after);
      c1 != c2 && Fields(c1) == Fields(c2) && InstanceId(c1) == InstanceId(c2)
  {
    var a1 := before + [Action(caption, [b] + keys)];
    var a2 := before + [Action(caption + [b], keys)];
    assert a1[..|before|] == before && a2[..|before|] == before;
    assert (a1 + after)[|before|].caption != (a2 + after)[|before|].caption;
    assert ActionBytes(before) + caption + ([b] + keys) == ActionBytes(before) + (caption + [b]) + keys;
    SameBytesThen(a1, a2, after);
  }

  lemma {:induction false} SameBytesThen(a1: seq<Action>, a2: seq<Action>, after: seq<Action>)
    requires ActionBytes(a1) == ActionBytes(a2)
    ensures ActionBytes(a1 + after) == ActionBytes(a2 + after)
  {
    if after == [] {
      assert a1 + after == a1 && a2 + after == a2;
    } else {
      var n := |after| - 1;
      SameBytesThen(a1, a2, after[..n]);
      assert (a1 + after)[..|a1| + n] == a1 + after[..n] && (a2 + after)[..|a2| + n] == a2 + after[..n];
    }
  }

  /** Visible characters only: no NUL, nothing to trim, and valid UTF-8. */
  predicate Visible(t: Text) { forall k :: 0 <= k < |t| ==> 33 <= t[k] <= 126 }

  /** A number written in base 94 with a fixed count of visible characters. */
  function Visibly(n: nat, count: nat): (t: Text)
    ensures |t| == count && Visible(t)
  {
    if count == 0 then [] else Visibly(n / 94, count - 1) + [33 + n % 94]
  }

  function Pow94(k: nat): nat { if k == 0 then 1 else 94 * Pow94(k - 1) }

  lemma {:induction false} VisiblyInjective(a: nat, b: nat, k: nat)
    requires a < Pow94(k) && b < Pow94(k) && Visibly(a, k) == Visibly(b, k)
    ensures a == b
  {
    if k > 0 {
      assert Visibly(a, k)[k - 1] == 33 + a % 94 && Visibly(b, k)[k - 1] == 33 + b % 94;
      assert Visibly(a, k)[..k - 1] == Visibly(a / 94, k - 1) && Visibly(b, k)[..k - 1] == Visibly(b / 94, k - 1);
      VisiblyInjective(a / 94, b / 94, k - 1);
    }
  }

  /** A function from 0..m to fewer than m + 1 values takes some value twice. */
  lemma {:induction false} Pigeonhole(f: nat -> nat, m: nat) returns (i: nat, j: nat)
    requires 0 < m && forall x: nat :: x <= m ==> f(x) < m
    ensures i < j <= m && f(i) == f(j)
  {
    if m == 1 {
      return 0, 1;
    }
    if k: nat :| k < m && f(k) == f(m) {
      return k, m;
    }
    if f(m) == m - 1 {
      i, j := Pigeonhole(f, m - 1);
    } else {
      // the value m - 1 is redirected to the value at m, which nothing below m takes
      var g := (x: nat) => if f(x) == m - 1 then f(m) else f(x);
      i, j := Pigeonhole(g, m - 1);
    }
  }

  /**
   With ten visible characters there are more prompts than hashes: even between prompts
   of one shape some two different ones share their id, so Near cannot be dropped.
   */
  lemma SomePromptsCollide(c: Candidate) returns (p: Text, q: Text)
    ensures |p| == |q| == 10 && Visible(p) && Visible(q) && p != q
    ensures InstanceId(c.(prompt := p)) == InstanceId(c.(prompt := q))
  {
    var f := (n: nat) => Fold(SEED, Fields(c.(prompt := Visibly(n, 10)))) as nat;
    var i, j := Pigeonhole(f, M);
    p, q := Visibly(i, 10), Visibly(j, 10);
    EnoughCharacters();
    if p == q {
      VisiblyInjective(i, j, 10);
    }
    IdIsHash(c.(prompt := p), c.(prompt := q));
  }

  lemma EnoughCharacters()
    ensures M < Pow94(10)
  {
    assert Pow94(2) == 8836;
    assert Pow94(5) == 7339040224;
    assert Pow94(8) == 94 * 94 * 94 * Pow94(5);
  }
}
