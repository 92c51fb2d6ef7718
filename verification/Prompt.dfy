/** Prompt candidates, prompt instances and their hashed identity. */
module Prompt {
  import opened Bytes

  datatype PromptType = YesNo | NumberedMenu | AcceptReject

  datatype Action = Action(caption: Text, keys: Text)

  const MAX_ACTIONS: nat := 16

  type Actions = s: seq<Action> | |s| <= MAX_ACTIONS

  type Int32 = x: int | -0x8000_0000 <= x < 0x8000_0000

  datatype Candidate = Candidate(
    patternId: Text, patternType: PromptType, prompt: Text, actions: Actions, anchorRow: int)

  datatype Instance = Instance(id: Text, content: Candidate, revision: nat)

  /** Field-by-field comparison; revision and id do not take part. */
  predicate SameSemantics(a: Instance, b: Instance)
    ensures SameSemantics(a, b) <==> a.content == b.content
  {
    && a.content.patternId == b.content.patternId
    && a.content.patternType == b.content.patternType
    && a.content.prompt == b.content.prompt
    && |a.content.actions| == |b.content.actions|
    && (forall i :: 0 <= i < |a.content.actions| ==>
          a.content.actions[i].caption == b.content.actions[i].caption &&
          a.content.actions[i].keys == b.content.actions[i].keys)
    && a.content.anchorRow == b.content.anchorRow
  }

  // ----- the 64-bit fold

  const M: int := 0x1_0000_0000_0000_0000
  const PRIME: int := 1099511628211
  const SEED: int := 1469598103934665603

  type Hash = h: int | 0 <= h < 0x1_0000_0000_0000_0000

  function Pow2(k: nat): nat { if k == 0 then 1 else 2 * Pow2(k - 1) }

  /** Exclusive or of the low bits of two numbers. */
  function Xor(x: nat, y: nat, bits: nat): (r: nat)
    ensures r < Pow2(bits)
  {
    if bits == 0 then 0 else 2 * Xor(x / 2, y / 2, bits - 1) + (x + y) % 2
  }

  /** hash ^= byte: only the low eight bits can change. */
  function XorByte(h: Hash, b: Byte): (r: Hash)
    ensures -255 <= r - h <= 255
    ensures r / 256 == h / 256
  {
    assert Pow2(8) == 256;
    h - h % 256 + Xor(h % 256, b, 8)
  }

  function Mul(h: int): (r: Hash) { (h * PRIME) % M }

  function Fold(h: Hash, bytes: Text): Hash {
    if bytes == [] then h
    else Mul(XorByte(Fold(h, bytes[..|bytes| - 1]), bytes[|bytes| - 1]))
  }

  lemma {:induction false} FoldConcat(h: Hash, a: Text, b: Text)
    ensures Fold(h, a + b) == Fold(Fold(h, a), b)
    decreases |b|
  {
    if b == [] {
      assert a + b == a;
    } else {
      assert (a + b)[..|a + b| - 1] == a + b[..|b| - 1];
      FoldConcat(h, a, b[..|b| - 1]);
    }
  }

  // ----- the identity

  /** The four bytes of an int as they lie in memory (little endian, two's complement). */
  function IntBytes(x: int): (t: Text)
    ensures |t| == 4
  {
    var u := x % 0x1_0000_0000;
    [u % 256, u / 256 % 256, u / 65536 % 256, u / 16777216]
  }

  function TypeBytes(t: PromptType): Text {
    IntBytes(match t case YesNo => 0 case NumberedMenu => 1 case AcceptReject => 2)
  }

  function ActionBytes(actions: seq<Action>): Text {
    if actions == [] then []
    else
      var last := actions[|actions| - 1];
      ActionBytes(actions[..|actions| - 1]) + last.caption + last.keys
  }

  /** Everything the identity depends on, as one byte string without separators. */
  function Fields(c: Candidate): Text {
    c.patternId + TypeBytes(c.patternType) + c.prompt + ActionBytes(c.actions) + IntBytes(c.anchorRow)
  }

  function Hex(n: nat, digits: nat): (t: Text)
    ensures |t| == digits
  {
    if digits == 0 then [] else Hex(n / 16, digits - 1) + [HexDigit(n % 16)]
  }

  /** The width of the "%016x" format. */
  const ID_FORMAT: string := "0000000000000000"

  function InstanceId(c: Candidate): (id: Text)
    ensures |id| == 16
  {
    Hex(Fold(SEED, Fields(c)), |ID_FORMAT|)
  }

  method Fnv1a64(data: Text, seed: Hash) returns (hash: Hash)
    ensures hash == Fold(seed, data)
  {
    hash := seed;
    for i := 0 to |data|
      invariant hash == Fold(seed, data[..i])
    {
      assert data[..i + 1][..i] == data[..i];
      hash := XorByte(hash, data[i]);
      hash := Mul(hash);
    }
    assert data[..|data|] == data;
  }

  method HashActions(actions: seq<Action>, seed: Hash) returns (hash: Hash)
    ensures hash == Fold(seed, ActionBytes(actions))
  {
    hash := seed;
    for i := 0 to |actions|
      invariant hash == Fold(seed, ActionBytes(actions[..i]))
    {
      ghost var before := ActionBytes(actions[..i]);
      hash := Fnv1a64(actions[i].caption, hash);
      FoldConcat(seed, before, actions[i].caption);
      hash := Fnv1a64(actions[i].keys, hash);
      FoldConcat(seed, before + actions[i].caption, actions[i].keys);
      assert actions[..i + 1][..i] == actions[..i];
    }
    assert actions[..|actions|] == actions;
  }

  /** The field-by-field hashing is one fold over the concatenated fields. */
  method BuildInstanceId(c: Candidate) returns (id: Text)
    ensures id == InstanceId(c)
  {
    var hash := Fnv1a64(c.patternId, SEED);
    hash := Fnv1a64(TypeBytes(c.patternType), hash);
    hash := Fnv1a64(c.prompt, hash);
    hash := HashActions(c.actions, hash);
    hash := Fnv1a64(IntBytes(c.anchorRow), hash);
    FoldFields(c);
    id := Hex(hash, |ID_FORMAT|);
  }

  lemma {:induction false} FoldFields(c: Candidate)
    ensures Fold(SEED, Fields(c)) ==
      Fold(Fold(Fold(Fold(Fold(SEED, c.patternId), TypeBytes(c.patternType)), c.prompt),
                ActionBytes(c.actions)), IntBytes(c.anchorRow))
  {
    var a := c.patternId;
    var b := a + TypeBytes(c.patternType);
    var d := b + c.prompt;
    FoldConcat(SEED, a, TypeBytes(c.patternType));
    FoldConcat(SEED, b, c.prompt);
    FoldConcat(SEED, d, ActionBytes(c.actions));
    FoldConcat(SEED, d + ActionBytes(c.actions), IntBytes(c.anchorRow));
  }

  // ----- the hexadecimal form loses nothing

  lemma {:induction false} HexInjective(a: nat, b: nat, k: nat)
    requires a < Pow16(k) && b < Pow16(k) && Hex(a, k) == Hex(b, k)
    ensures a == b
  {
    if k > 0 {
      assert Hex(a, k)[k - 1] == HexDigit(a % 16) && Hex(b, k)[k - 1] == HexDigit(b % 16);
      assert Hex(a, k)[..k - 1] == Hex(a / 16, k - 1) && Hex(b, k)[..k - 1] == Hex(b / 16, k - 1);
      HexInjective(a / 16, b / 16, k - 1);
    }
  }

  lemma Pow16Of16()
    ensures Pow16(16) == M
  {
    assert Pow16(4) == 0x1_0000;
    assert Pow16(8) == 0x1_0000_0000;
    assert Pow16(12) == 0x1_0000_0000_0000;
  }

  // ----- distinct anchor rows never share an identity

  lemma {:induction false} XorInjective(x: nat, y: nat, z: nat, bits: nat)
    requires y < Pow2(bits) && z < Pow2(bits) && Xor(x, y, bits) == Xor(x, z, bits)
    ensures y == z
  {
    if bits > 0 {
      var a, b := Xor(x / 2, y / 2, bits - 1), Xor(x / 2, z / 2, bits - 1);
      assert 2 * a + (x + y) % 2 == 2 * b + (x + z) % 2;
      assert a == b;
      XorInjective(x / 2, y / 2, z / 2, bits - 1);
      SameParity(x, y, z);
    }
  }

  lemma SameParity(x: nat, y: nat, z: nat)
    requires (x + y) % 2 == (x + z) % 2
    ensures y % 2 == z % 2
  {
  }

  lemma XorByteInjective(h: Hash, b: Byte, c: Byte)
    requires XorByte(h, b) == XorByte(h, c)
    ensures b == c
  {
    assert Pow2(8) == 256;
    XorInjective(h % 256, b, c, 8);
  }

  /** The prime is odd, so multiplying by it modulo 2^64 can be undone. */
  const INVERSE: int := 14886173955864302971

  lemma MulInjective(u: Hash, v: Hash)
    requires Mul(u) == Mul(v)
    ensures u == v
  {
    var k := u * PRIME / M - v * PRIME / M;
    assert (u - v) * PRIME == k * M;
    var j := PRIME * INVERSE / M;
    assert PRIME * INVERSE == 1 + j * M;
    assert (u - v) * PRIME * INVERSE == k * M * INVERSE;
    assert (u - v) * (1 + j * M) == (u - v) * PRIME * INVERSE;
    assert u - v == M * (k * INVERSE - (u - v) * j);
    Multiple(u - v, k * INVERSE - (u - v) * j);
  }

  lemma Multiple(d: int, k: int)
    requires d == M * k && -M < d < M
    ensures d == 0
  {
  }

  /** How the difference of two running hashes moves over one multiply-and-xor step. */
  lemma StepDifference(u: Hash, v: Hash, e: int, k: int, b: Byte, c: Byte) returns (d: int, k': int)
    requires u - v == e + M * k
    ensures -510 <= d <= 510
    ensures XorByte(Mul(u), b) - XorByte(Mul(v), c) == e * PRIME + d + M * k'
    ensures u == v ==> XorByte(Mul(u), b) - XorByte(Mul(v), c) == d
  {
    d := (XorByte(Mul(u), b) - Mul(u)) - (XorByte(Mul(v), c) - Mul(v));
    k' := k * PRIME - (u * PRIME / M - v * PRIME / M);
    assert u * PRIME == M * (u * PRIME / M) + Mul(u);
    assert v * PRIME == M * (v * PRIME / M) + Mul(v);
    assert (u - v) * PRIME == e * PRIME + M * (k * PRIME);
  }

  /** Differences confined to the row bytes cannot cancel modulo 2^64. */
  lemma NoCancellation(e0: int, d1: int, d2: int, d3: int, k: int)
    requires -255 <= e0 <= 255 && -510 <= d1 <= 510 && -510 <= d2 <= 510 && -510 <= d3 <= 510
    requires ((e0 * PRIME + d1) * PRIME + d2) * PRIME + d3 == M * k
    ensures e0 == d1 == d2 == d3 == 0
  {
    var a := 82312875 * e0 + 189225 * d1 + 435 * d2 + d3;
    var b := 567675 * e0 + 870 * d1 + d2;
    // PRIME == 2^40 + 435
    var q := k - 72057594123452416 * e0 - 65536 * d1;
    assert 0x100_0000_0000 * b + a == M * q;
    var t := 0x100_0000 * q - b;
    assert a == 0x100_0000_0000 * t;
    assert t == 0;
    SmallSums(e0, d1, d2, d3, q);
  }

  /** Both halves of the sum vanish, and then each of its differences. */
  lemma SmallSums(e0: int, d1: int, d2: int, d3: int, q: int)
    requires -255 <= e0 <= 255 && -510 <= d1 <= 510 && -510 <= d2 <= 510 && -510 <= d3 <= 510
    requires 82312875 * e0 + 189225 * d1 + 435 * d2 + d3 == 0
    requires 567675 * e0 + 870 * d1 + d2 == 0x100_0000 * q
    ensures e0 == d1 == d2 == d3 == 0
  {
    var l := 189225 * e0 + 435 * d1 + d2;
    assert 435 * l == -d3;
    var w := 435 * e0 + d1;
    assert 435 * w == l - d2;
    assert -1 <= l <= 1;
    assert -1 <= w <= 1;
    assert -2 <= e0 <= 2;
    assert q == 0;
  }

  /** The running hash just before the multiplication for byte i. */
  function Chain(h: Hash, b: Text, i: nat): Hash
    requires i < |b|
  {
    if i == 0 then XorByte(h, b[0]) else XorByte(Mul(Chain(h, b, i - 1)), b[i])
  }

  lemma {:induction false} FoldChain(h: Hash, b: Text, i: nat)
    requires i < |b|
    ensures Fold(h, b[..i + 1]) == Mul(Chain(h, b, i))
  {
    assert b[..i + 1][..i] == b[..i];
    if i > 0 {
      FoldChain(h, b, i - 1);
    }
  }

  lemma ChainDifference(h: Hash, b: Text, c: Text, i: nat, e: int, k: int) returns (d: int, k': int)
    requires 0 < i < |b| == |c|
    requires Chain(h, b, i - 1) - Chain(h, c, i - 1) == e + M * k
    ensures -510 <= d <= 510
    ensures Chain(h, b, i) - Chain(h, c, i) == e * PRIME + d + M * k'
    ensures Chain(h, b, i - 1) == Chain(h, c, i - 1) ==>
      Chain(h, b, i) - Chain(h, c, i) == d && (d == 0 ==> b[i] == c[i])
  {
    d, k' := StepDifference(Chain(h, b, i - 1), Chain(h, c, i - 1), e, k, b[i], c[i]);
    if Chain(h, b, i - 1) == Chain(h, c, i - 1) && d == 0 {
      XorByteInjective(Mul(Chain(h, b, i - 1)), b[i], c[i]);
    }
  }

  lemma FirstDifference(h: Hash, b: Byte, c: Byte)
    ensures -255 <= XorByte(h, b) - XorByte(h, c) <= 255
  {
    assert XorByte(h, b) / 256 == XorByte(h, c) / 256;
  }

  lemma {:induction false} ChainSeparates(h: Hash, b: Text, c: Text)
    requires |b| == |c| == 4 && Chain(h, b, |b| - 1) == Chain(h, c, |c| - 1)
    ensures b[0] == c[0] && b[1] == c[1] && b[2] == c[2] && b[3] == c[3]
  {
    var e0 := Chain(h, b, 0) - Chain(h, c, 0);
    FirstDifference(h, b[0], c[0]);
    var d1, k1 := ChainDifference(h, b, c, 1, e0, 0);
    var e1 := e0 * PRIME + d1;
    var d2, k2 := ChainDifference(h, b, c, 2, e1, k1);
    var e2 := e1 * PRIME + d2;
    var d3, k3 := ChainDifference(h, b, c, 3, e2, k2);
    NoCancellation(e0, d1, d2, d3, -k3);
    XorByteInjective(h, b[0], c[0]);
  }

  lemma WholeChain(h: Hash, b: Text)
    requires b != []
    ensures Fold(h, b) == Mul(Chain(h, b, |b| - 1))
  {
    FoldChain(h, b, |b| - 1);
    assert b[..|b|] == b;
  }

  lemma SameChain(h: Hash, b: Text, c: Text)
    requires b != [] && c != [] && Fold(h, b) == Fold(h, c)
    ensures Chain(h, b, |b| - 1) == Chain(h, c, |c| - 1)
  {
    WholeChain(h, b);
    WholeChain(h, c);
    MulInjective(Chain(h, b, |b| - 1), Chain(h, c, |c| - 1));
  }

  lemma {:induction false} RowBytesSeparate(h: Hash, b: Text, c: Text)
    requires |b| == |c| == 4 && Fold(h, b) == Fold(h, c)
    ensures b == c
  {
    SameChain(h, b, c);
    ChainSeparates(h, b, c);
    FourBytes(b, c);
  }

  lemma FourBytes(b: Text, c: Text)
    requires |b| == |c| == 4 && b[0] == c[0] && b[1] == c[1] && b[2] == c[2] && b[3] == c[3]
    ensures b == c
  {
  }

  lemma IntBytesInjective(x: Int32, y: Int32)
    requires IntBytes(x) == IntBytes(y)
    ensures x == y
  {
    var u := x % 0x1_0000_0000;
    var v := y % 0x1_0000_0000;
    assert IntBytes(x)[0] == IntBytes(y)[0] && IntBytes(x)[1] == IntBytes(y)[1];
    assert IntBytes(x)[2] == IntBytes(y)[2] && IntBytes(x)[3] == IntBytes(y)[3];
    FromDigits(u);
    FromDigits(v);
  }

  lemma FromDigits(u: nat)
    requires u < 0x1_0000_0000
    ensures u == u % 256 + 256 * (u / 256 % 256) + 65536 * (u / 65536 % 256) + 16777216 * (u / 16777216)
  {
    var a := u / 256;
    var b := a / 256;
    assert u / 65536 == b;
    assert u / 16777216 == b / 256;
  }

  /** Two candidates that differ only in the anchor row have different ids, for all 32-bit rows. */
  lemma AnchorRowSeparates(c: Candidate, row1: Int32, row2: Int32)
    requires row1 != row2
    ensures InstanceId(c.(anchorRow := row1)) != InstanceId(c.(anchorRow := row2))
  {
    var head := c.patternId + TypeBytes(c.patternType) + c.prompt + ActionBytes(c.actions);
    if InstanceId(c.(anchorRow := row1)) == InstanceId(c.(anchorRow := row2)) {
      Pow16Of16();
      HexInjective(Fold(SEED, Fields(c.(anchorRow := row1))), Fold(SEED, Fields(c.(anchorRow := row2))), 16);
      FoldConcat(SEED, head, IntBytes(row1));
      FoldConcat(SEED, head, IntBytes(row2));
      RowBytesSeparate(Fold(SEED, head), IntBytes(row1), IntBytes(row2));
      IntBytesInjective(row1, row2);
    }
  }
}
