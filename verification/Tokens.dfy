/**
 A batch reading of the byte stream: first cut it into text runs, ESC pairs,
 charset triples and control sequences, then execute those one after another.
 The incremental machine of module Vt computes the same thing for every input
 and every way of cutting the input into feed calls.
 */
module Tokens {
  import opened Bytes
  import opened Display
  import opened Vt

  datatype Token =
    | TextRun(bytes: Text)
    | EscPair(b: Byte)
    | CharsetTriple(intro: Byte, designator: Byte)
    | CsiSequence(params: Text, final: Byte)

  function EscAt(t: Text): (k: nat)
    ensures k <= |t| && ESC !in t[..k]
    ensures k < |t| ==> t[k] == ESC
  {
    if t == [] || t[0] == ESC then 0
    else
      var k := 1 + EscAt(t[1..]);
      assert t[..k] == [t[0]] + t[1..][..k - 1];
      k
  }

  function FinalAt(t: Text): (k: nat)
    ensures k <= |t| && NoFinal(t[..k])
    ensures k < |t| ==> IsFinal(t[k])
  {
    if t == [] || IsFinal(t[0]) then 0
    else
      var k := 1 + FinalAt(t[1..]);
      assert t[..k] == [t[0]] + t[1..][..k - 1];
      k
  }

  /** The complete tokens of a stream and its unfinished escape sequence, if any. */
  function Tokenise(s: Text): (r: (seq<Token>, Text))
    decreases |s|
  {
    if s == [] then ([], [])
    else if s[0] != ESC then
      var k := EscAt(s);
      var rest := Tokenise(s[k..]);
      ([TextRun(s[..k])] + rest.0, rest.1)
    else if |s| == 1 then ([], s)
    else if s[1] == BRACKET then
      var k := FinalAt(s[2..]);
      if k == |s| - 2 then ([], s)
      else
        var rest := Tokenise(s[k + 3..]);
        ([CsiSequence(s[2..k + 2], s[k + 2])] + rest.0, rest.1)
    else if IsCharsetIntro(s[1]) then
      if |s| == 2 then ([], s)
      else
        var rest := Tokenise(s[3..]);
        ([CharsetTriple(s[1], s[2])] + rest.0, rest.1)
    else
      var rest := Tokenise(s[2..]);
      ([EscPair(s[1])] + rest.0, rest.1)
  }

  function Truncated(params: Text): Text { params[..Min(|params|, CSI_MAX)] }

  function RunText(s: Screen, bytes: Text): (r: Screen)
    requires Fits(s)
    ensures Fits(r)
  {
    if bytes == [] then s
    else TextByte(RunText(s, bytes[..|bytes| - 1]), bytes[|bytes| - 1])
  }

  function Execute(s: Screen, token: Token): (r: Screen)
    requires Fits(s)
    ensures Fits(r)
  {
    match token
    case TextRun(bytes) => RunText(s, bytes)
    case CsiSequence(params, final) => ProcessCsi(s, CString(Truncated(params)), final)
    case EscPair(_) => s
    case CharsetTriple(_, _) => s
  }

  function ExecuteAll(s: Screen, tokens: seq<Token>): (r: Screen)
    requires Fits(s)
    ensures Fits(r)
    decreases |tokens|
  {
    if tokens == [] then s else ExecuteAll(Execute(s, tokens[0]), tokens[1..])
  }

  function ModeOf(tail: Text): Mode {
    if |tail| == 0 then Ground
    else if |tail| == 1 then Escape
    else if tail[1] == BRACKET then Csi(Truncated(tail[2..]))
    else Charset
  }

  function Batch(s: Screen, bytes: Text): Machine
    requires Fits(s)
  {
    var r := Tokenise(bytes);
    Machine(ExecuteAll(s, r.0), ModeOf(r.1))
  }

  /** A byte string that brings the machine from the ground state into the mode. */
  function Pending(mode: Mode): Text {
    match mode
    case Ground => []
    case Escape => [ESC]
    case Charset => [ESC, 40]
    case Csi(buf) => [ESC, BRACKET] + buf
  }

  // ----- feeding one token

  lemma {:induction false} FeedText(s: Screen, bytes: Text)
    requires Fits(s) && ESC !in bytes
    ensures Feed(Machine(s, Ground), bytes) == Machine(RunText(s, bytes), Ground)
  {
    if bytes != [] {
      var n := |bytes| - 1;
      assert bytes[n] in bytes;
      FeedText(s, bytes[..n]);
    }
  }

  lemma {:induction false} FeedParams(s: Screen, params: Text)
    requires Fits(s) && NoFinal(params)
    ensures Feed(Machine(s, Csi([])), params) == Machine(s, Csi(Truncated(params)))
  {
    if params != [] {
      var n := |params| - 1;
      FeedParams(s, params[..n]);
      assert n < CSI_MAX ==> Truncated(params) == Truncated(params[..n]) + [params[n]];
      assert n >= CSI_MAX ==> Truncated(params) == Truncated(params[..n]);
    }
  }

  lemma FeedOne(m: Machine, b: Byte)
    requires Valid(m)
    ensures Feed(m, [b]) == Step(m, b)
  {
    assert [b][..0] == [];
    assert Feed(m, []) == m;
  }

  lemma FeedTwo(m: Machine, a: Byte, b: Byte)
    requires Valid(m)
    ensures Feed(m, [a, b]) == Step(Step(m, a), b)
  {
    FeedOne(m, a);
    assert [a, b][..1] == [a];
  }

  lemma FeedCsi(s: Screen, params: Text)
    requires Fits(s) && NoFinal(params)
    ensures Feed(Machine(s, Ground), [ESC, BRACKET] + params) == Machine(s, Csi(Truncated(params)))
  {
    FeedTwo(Machine(s, Ground), ESC, BRACKET);
    FeedConcat(Machine(s, Ground), [ESC, BRACKET], params);
    FeedParams(s, params);
  }

  lemma FeedPending(m: Machine)
    requires Valid(m)
    ensures Feed(Machine(m.screen, Ground), Pending(m.mode)) == m
  {
    var g := Machine(m.screen, Ground);
    match m.mode {
      case Ground =>
      case Escape => FeedOne(g, ESC);
      case Charset => FeedTwo(g, ESC, 40);
      case Csi(buf) =>
        FeedCsi(m.screen, buf);
        assert Truncated(buf) == buf;
    }
  }

  /** Peel off a prefix that leads back to the ground state. */
  lemma {:induction false} FeedSplit(s: Screen, bytes: Text, k: nat, t: Screen)
    requires Fits(s) && Fits(t) && k <= |bytes|
    requires Feed(Machine(s, Ground), bytes[..k]) == Machine(t, Ground)
    ensures Feed(Machine(s, Ground), bytes) == Feed(Machine(t, Ground), bytes[k..])
  {
    assert bytes == bytes[..k] + bytes[k..];
    FeedConcat(Machine(s, Ground), bytes[..k], bytes[k..]);
  }

  lemma BatchStep(s: Screen, bytes: Text, token: Token, k: nat)
    requires Fits(s) && k <= |bytes|
    requires Tokenise(bytes) == ([token] + Tokenise(bytes[k..]).0, Tokenise(bytes[k..]).1)
    ensures Batch(s, bytes) == Batch(Execute(s, token), bytes[k..])
  {
    var r := Tokenise(bytes[k..]);
    assert ([token] + r.0)[1..] == r.0;
  }

  lemma {:induction false} FromGround(s: Screen, bytes: Text)
    requires Fits(s)
    ensures Feed(Machine(s, Ground), bytes) == Batch(s, bytes)
    decreases |bytes|, 1
  {
    if bytes == [] {
    } else if bytes[0] != ESC {
      var k := EscAt(bytes);
      FeedText(s, bytes[..k]);
      Continue(s, bytes, TextRun(bytes[..k]), k);
    } else if |bytes| == 1 {
      FeedOne(Machine(s, Ground), ESC);
    } else if bytes[1] == BRACKET {
      CsiFromGround(s, bytes);
    } else if IsCharsetIntro(bytes[1]) {
      FeedTwo(Machine(s, Ground), ESC, bytes[1]);
      if |bytes| == 2 {
        assert bytes == [ESC, bytes[1]];
      } else {
        assert bytes[..3] == [ESC, bytes[1]] + [bytes[2]];
        FeedConcat(Machine(s, Ground), [ESC, bytes[1]], [bytes[2]]);
        FeedOne(Machine(s, Charset), bytes[2]);
        Continue(s, bytes, CharsetTriple(bytes[1], bytes[2]), 3);
      }
    } else {
      FeedTwo(Machine(s, Ground), ESC, bytes[1]);
      assert bytes[..2] == [ESC, bytes[1]];
      Continue(s, bytes, EscPair(bytes[1]), 2);
    }
  }

  lemma CsiEnds(s: Screen, body: Text, params: Text, final: Byte, whole: Text)
    requires Fits(s) && whole == body + [final] && NoFinal(Truncated(params))
    requires Feed(Machine(s, Ground), body) == Machine(s, Csi(Truncated(params)))
    ensures Feed(Machine(s, Ground), whole) == Step(Machine(s, Csi(Truncated(params))), final)
  {
    FeedConcat(Machine(s, Ground), body, [final]);
    FeedOne(Machine(s, Csi(Truncated(params))), final);
  }

  lemma {:induction false} CsiFromGround(s: Screen, bytes: Text)
    requires Fits(s) && 2 <= |bytes| && bytes[0] == ESC && bytes[1] == BRACKET
    ensures Feed(Machine(s, Ground), bytes) == Batch(s, bytes)
    decreases |bytes|, 0
  {
    var k := FinalAt(bytes[2..]);
    var params := bytes[2..k + 2];
    assert params == bytes[2..][..k];
    assert bytes[..k + 2] == [ESC, BRACKET] + params;
    FeedCsi(s, params);
    if k == |bytes| - 2 {
      assert bytes[..k + 2] == bytes && bytes[2..] == params;
    } else {
      CsiEnds(s, bytes[..k + 2], params, bytes[k + 2], bytes[..k + 3]);
      Continue(s, bytes, CsiSequence(params, bytes[k + 2]), k + 3);
    }
  }

  lemma {:induction false} Continue(s: Screen, bytes: Text, token: Token, k: nat)
    requires Fits(s) && 0 < k <= |bytes|
    requires Tokenise(bytes) == ([token] + Tokenise(bytes[k..]).0, Tokenise(bytes[k..]).1)
    requires Feed(Machine(s, Ground), bytes[..k]) == Machine(Execute(s, token), Ground)
    ensures Feed(Machine(s, Ground), bytes) == Batch(s, bytes)
    decreases |bytes| - k, 2
  {
    var t := Execute(s, token);
    FeedSplit(s, bytes, k, t);
    BatchStep(s, bytes, token, k);
    FromGround(t, bytes[k..]);
  }

  // ----- main results

  /** The flag machine refines the batch interpreter, from every state it can be in. */
  lemma FeedIsBatch(m: Machine, bytes: Text)
    requires Valid(m)
    ensures Feed(m, bytes) == Batch(m.screen, Pending(m.mode) + bytes)
  {
    FeedPending(m);
    FeedConcat(Machine(m.screen, Ground), Pending(m.mode), bytes);
    FromGround(m.screen, Pending(m.mode) + bytes);
  }

  function FeedChunks(m: Machine, chunks: seq<Text>): (r: Machine)
    requires Valid(m)
    ensures Valid(r)
    decreases |chunks|
  {
    if chunks == [] then m else FeedChunks(Feed(m, chunks[0]), chunks[1..])
  }

  function Flatten(chunks: seq<Text>): Text {
    if chunks == [] then [] else chunks[0] + Flatten(chunks[1..])
  }

  /** However a stream is cut into feed calls, the terminal ends in the same state. */
  lemma {:induction false} ChunkingIsIrrelevant(m: Machine, chunks: seq<Text>)
    requires Valid(m)
    ensures FeedChunks(m, chunks) == Feed(m, Flatten(chunks))
    ensures FeedChunks(m, chunks) == Batch(m.screen, Pending(m.mode) + Flatten(chunks))
    decreases |chunks|
  {
    FeedIsBatch(m, Flatten(chunks));
    if chunks != [] {
      ChunkingIsIrrelevant(Feed(m, chunks[0]), chunks[1..]);
      FeedConcat(m, chunks[0], Flatten(chunks[1..]));
    }
  }
}
