/**
 The rule evaluator: picks a prompt candidate from a screen snapshot. A compiled
 regular expression is a function from a line to whether, or with what captures, it
 matches.
 */
module Rules {
  import opened Bytes
  import opened Display
  import opened Prompt

  /** Groups 1 and 2 of an option match; a group may be unset. */
  datatype Captures = Captures(number: Option<Text>, caption: Option<Text>)

  datatype Rule = Rule(
    patternId: Text,
    patternType: PromptType,
    maxScanLines: nat,
    promptRegex: Text -> bool,
    /** The rule's own option expression, or the built-in one. None: fewer than two groups. */
    optionRegex: Text -> Option<Captures>,
    staticActions: seq<Action>,
    template: Option<Text>)

  predicate Complete(snap: Snapshot) { |snap.lines| == snap.rows }

  // ----- strings

  function TrimRight(t: Text): (r: Text)
    ensures r <= t
    ensures forall i :: |r| <= i < |t| ==> IsSpace(t[i])
    ensures r != [] ==> !IsSpace(r[|r| - 1])
  {
    if t != [] && IsSpace(t[|t| - 1]) then TrimRight(t[..|t| - 1]) else t
  }

  function Trim(t: Text): Text { TrimRight(SkipSpaces(t)) }

  /** Trimming takes white space off both ends and leaves none there. */
  lemma TrimMeans(t: Text) returns (a: Text, b: Text)
    ensures t == a + Trim(t) + b
    ensures forall i :: 0 <= i < |a| ==> IsSpace(a[i])
    ensures forall i :: 0 <= i < |b| ==> IsSpace(b[i])
    ensures Trim(t) != [] ==> !IsSpace(Trim(t)[0]) && !IsSpace(Trim(t)[|Trim(t)| - 1])
  {
    a := SkippedSpaces(t);
    b := SkipSpaces(t)[|Trim(t)|..];
    assert SkipSpaces(t) == Trim(t) + b;
  }

  lemma {:induction false} SkippedSpaces(t: Text) returns (a: Text)
    ensures t == a + SkipSpaces(t) && forall i :: 0 <= i < |a| ==> IsSpace(a[i])
    ensures SkipSpaces(t) != [] ==> !IsSpace(SkipSpaces(t)[0])
  {
    if t != [] && IsSpace(t[0]) {
      var rest := SkippedSpaces(t[1..]);
      a := [t[0]] + rest;
      assert t == [t[0]] + (rest + SkipSpaces(t[1..]));
    } else {
      a := [];
    }
  }

  lemma SkipOne(input: Text, start: nat)
    requires start < |input| && IsSpace(input[start])
    ensures SkipSpaces(input[start..]) == SkipSpaces(input[start + 1..])
  {
    assert input[start..][1..] == input[start + 1..];
  }

  lemma TrimOne(input: Text, start: nat, end: nat)
    requires start < end <= |input| && IsSpace(input[end - 1])
    ensures TrimRight(input[start..end]) == TrimRight(input[start..end - 1])
  {
    assert input[start..end][..end - 1 - start] == input[start..end - 1];
  }

  method LeadingSpaces(input: Text) returns (start: nat)
    ensures start <= |input| && input[start..] == SkipSpaces(input)
  {
    start := 0;
    while start < |input| && IsSpace(input[start])
      invariant start <= |input| && SkipSpaces(input[start..]) == SkipSpaces(input)
    {
      SkipOne(input, start);
      start := start + 1;
    }
  }

  method TrimmedEnd(input: Text, start: nat) returns (end: nat)
    requires start <= |input|
    ensures start <= end <= |input| && input[start..end] == TrimRight(input[start..])
  {
    end := |input|;
    assert input[start..end] == input[start..];
    while end > start && IsSpace(input[end - 1])
      invariant start <= end <= |input| && TrimRight(input[start..end]) == TrimRight(input[start..])
    {
      TrimOne(input, start, end);
      end := end - 1;
    }
  }

  method TrimDup(input: Text) returns (out: Text)
    ensures out == Trim(input)
  {
    var start := LeadingSpaces(input);
    var end := TrimmedEnd(input, start);
    out := input[start..end];
  }

  predicate OccursAt(token: Text, t: Text, k: nat) { k + |token| <= |t| && t[k..k + |token|] == token }

  /** strstr */
  function IndexOf(token: Text, t: Text, from: nat): (r: Option<nat>)
    requires from <= |t|
    ensures r.Some? ==> from <= r.value && OccursAt(token, t, r.value)
    ensures forall k :: from <= k < (if r.Some? then r.value else |t|) ==> !OccursAt(token, t, k)
    decreases |t| - from
  {
    if OccursAt(token, t, from) then Some(from)
    else if from == |t| then None
    else IndexOf(token, t, from + 1)
  }

  /** "{number}" */
  const NUMBER_TOKEN: Text := [123, 110, 117, 109, 98, 101, 114, 125]

  function ReplaceNumber(template: Text, number: Text): Text {
    match IndexOf(NUMBER_TOKEN, template, 0)
    case None => template
    case Some(k) => template[..k] + number + template[k + |NUMBER_TOKEN|..]
  }

  /** The first "{number}" gives way to the number and everything around it stays; without one nothing changes. */
  lemma TemplateFilled(before: Text, after: Text, number: Text, plain: Text)
    ensures
      var token: Text := [123, 110, 117, 109, 98, 101, 114, 125];
      && ((forall k :: 0 <= k < |before| ==> !OccursAt(token, before + token + after, k)) ==>
            ReplaceNumber(before + token + after, number) == before + number + after)
      && ((forall k :: 0 <= k < |plain| ==> !OccursAt(token, plain, k)) ==> ReplaceNumber(plain, number) == plain)
  {
    var template := before + NUMBER_TOKEN + after;
    assert OccursAt(NUMBER_TOKEN, template, |before|);
    if forall k :: 0 <= k < |before| ==> !OccursAt(NUMBER_TOKEN, template, k) {
      assert template[..|before|] == before && template[|before| + |NUMBER_TOKEN|..] == after;
    }
  }

  // ----- where a numbered option starts

  /** A maximal digit run starts at p and is followed by '.' and white space. */
  predicate OptionStart(line: Text, p: nat) {
    DigitsDotSpace(line, p) && (p == 0 || !IsDigit(line[p - 1]))
  }

  predicate DigitsDotSpace(line: Text, p: nat) {
    p < |line| && IsDigit(line[p]) &&
    var q := p + DigitRun(line[p..]);
    q + 1 < |line| && line[q] == DOT && IsSpace(line[q + 1])
  }

  function FirstOptionStart(line: Text, from: nat): (r: Option<nat>)
    ensures r.Some? ==> from <= r.value && OptionStart(line, r.value)
    ensures forall p :: from <= p < (if r.Some? then r.value else |line|) ==> !OptionStart(line, p)
    decreases |line| - from
  {
    if from >= |line| then None
    else if OptionStart(line, from) then Some(from)
    else FirstOptionStart(line, from + 1)
  }

  lemma {:induction false} InsideRun(line: Text, p: nat)
    requires 0 < p < |line| && IsDigit(line[p - 1]) && IsDigit(line[p])
    ensures p - 1 + DigitRun(line[p - 1..]) == p + DigitRun(line[p..])
  {
    assert line[p - 1..][1..] == line[p..];
  }

  /** Where the run just before would have been found too, no digit stands before. */
  lemma LeftmostIsMaximal(line: Text, p: nat)
    requires DigitsDotSpace(line, p) && (p > 0 ==> !DigitsDotSpace(line, p - 1))
    ensures OptionStart(line, p)
  {
    if p > 0 && IsDigit(line[p - 1]) {
      InsideRun(line, p);
    }
  }

  method SkipDigits(line: Text, p: nat) returns (q: nat)
    requires p <= |line|
    ensures q == p + DigitRun(line[p..])
  {
    q := p;
    while q < |line| && IsDigit(line[q])
      invariant p <= q <= |line| && q + DigitRun(line[q..]) == p + DigitRun(line[p..])
    {
      assert line[q..][1..] == line[q + 1..];
      q := q + 1;
    }
  }

  /** The search tries every digit, yet only starts of maximal runs can be found. */
  method FindNumberedOptionStart(line: Text) returns (r: Option<nat>)
    ensures r.Some? ==> OptionStart(line, r.value) && forall p :: 0 <= p < r.value ==> !OptionStart(line, p)
    ensures r.None? ==> forall p: nat :: !OptionStart(line, p)
    ensures r == FirstOptionStart(line, 0)
  {
    var p := 0;
    while p < |line|
      invariant p <= |line|
      invariant forall i :: 0 <= i < p ==> !DigitsDotSpace(line, i)
    {
      if IsDigit(line[p]) {
        var q := SkipDigits(line, p);
        if q + 1 < |line| && line[q] == DOT && IsSpace(line[q + 1]) {
          LeftmostIsMaximal(line, p);
          return Some(p);
        }
      }
      p := p + 1;
    }
    return None;
  }

  // ----- the option on a line

  datatype MenuOption = MenuOption(number: int, action: Action)

  function CapturesOn(rule: Rule, line: Text): Option<Captures> {
    match rule.optionRegex(line)
    case Some(c) => Some(c)
    case None =>
      match FirstOptionStart(line, 0)
      case Some(p) => if p > 0 then rule.optionRegex(line[p..]) else None
      case None => None
  }

  function OptionOn(rule: Rule, template: Text, line: Text): (r: Option<MenuOption>)
    ensures r.Some? ==> 1 <= r.value.number <= MAX_ACTIONS
  {
    if line == [] then None
    else
      match CapturesOn(rule, line)
      case Some(Captures(Some(number), Some(caption))) =>
        (match StrToL(number)
         case Some(n) =>
           if 1 <= n <= MAX_ACTIONS
           then Some(MenuOption(n, Action(Trim(caption), ReplaceNumber(template, number))))
           else None
         case None => None)
      case _ => None
  }

  /**
   The expression sees the whole line, and where it fails the line from the leftmost
   numbered start on. The number it captures must be one of 1..16.
   */
  lemma OptionMeans(rule: Rule, template: Text, line: Text, k: nat, n: nat, caption: Text)
    requires k < |line| && rule.optionRegex(line[k..]) == Some(Captures(Some(Digits(n)), Some(caption)))
    requires k > 0 ==>
      rule.optionRegex(line) == None && OptionStart(line, k) && forall p :: 0 <= p < k ==> !OptionStart(line, p)
    ensures OptionOn(rule, template, line) ==
      if 1 <= n <= 16 then Some(MenuOption(n, Action(Trim(caption), ReplaceNumber(template, Digits(n))))) else None
  {
    DigitsRead(n);
    if k == 0 {
      assert line[0..] == line;
    } else {
      assert FirstOptionStart(line, 0) == Some(k);
    }
  }

  // ----- the menu below a prompt

  datatype Found = Found(row: nat, option: MenuOption)

  predicate HasNumber(m: seq<Found>, n: int) {
    exists i :: 0 <= i < |m| && m[i].option.number == n
  }

  /** The options on rows lo..hi-1, each number at its first row; no cap on their count. */
  function Menu(rule: Rule, template: Text, lines: seq<Text>, lo: nat, hi: nat): seq<Found>
    requires hi <= |lines|
  {
    if hi <= lo then []
    else
      var before := Menu(rule, template, lines, lo, hi - 1);
      match OptionOn(rule, template, lines[hi - 1])
      case None => before
      case Some(o) => if HasNumber(before, o.number) then before else before + [Found(hi - 1, o)]
  }

  predicate Distinct(nums: seq<int>) {
    forall i, j :: 0 <= i < j < |nums| ==> nums[i] != nums[j]
  }

  function Numbers(m: seq<Found>): (nums: seq<int>)
    ensures |nums| == |m| && forall i :: 0 <= i < |m| ==> nums[i] == m[i].option.number
  {
    seq(|m|, i requires 0 <= i < |m| => m[i].option.number)
  }

  predicate ShowsNumber(rule: Rule, template: Text, lines: seq<Text>, r: nat, n: int)
    requires r < |lines|
  {
    var o := OptionOn(rule, template, lines[r]);
    o.Some? && o.value.number == n
  }

  /** The entry's option is on its row and its number on no earlier scanned row. */
  predicate FirstOccurrence(rule: Rule, template: Text, lines: seq<Text>, lo: nat, hi: nat, f: Found)
    requires hi <= |lines|
  {
    && lo <= f.row < hi
    && OptionOn(rule, template, lines[f.row]) == Some(f.option)
    && forall r :: lo <= r < f.row ==> !ShowsNumber(rule, template, lines, r, f.option.number)
  }

  /** Every entry is the first row with its number, and no number on a scanned row is left out. */
  ghost predicate IsFirstOccurrences(rule: Rule, template: Text, lines: seq<Text>, lo: nat, hi: nat, m: seq<Found>)
    requires hi <= |lines|
  {
    && (forall i :: 0 <= i < |m| ==> FirstOccurrence(rule, template, lines, lo, hi, m[i]))
    && (forall r, n :: lo <= r < hi && ShowsNumber(rule, template, lines, r, n) ==> HasNumber(m, n))
    && (forall i, j :: 0 <= i < j < |m| ==> m[i].row < m[j].row)
  }

  lemma NumberKept(m: seq<Found>, f: Found, n: int)
    ensures HasNumber(m + [f], n) <==> HasNumber(m, n) || f.option.number == n
  {
    if HasNumber(m, n) {
      var i :| 0 <= i < |m| && m[i].option.number == n;
      assert (m + [f])[i] == m[i];
    }
    assert (m + [f])[|m|] == f;
  }

  lemma AddFound(rule: Rule, template: Text, lines: seq<Text>, lo: nat, hi: nat, before: seq<Found>, o: MenuOption)
    requires lo < hi <= |lines| && OptionOn(rule, template, lines[hi - 1]) == Some(o)
    requires IsFirstOccurrences(rule, template, lines, lo, hi - 1, before) && !HasNumber(before, o.number)
    ensures IsFirstOccurrences(rule, template, lines, lo, hi, before + [Found(hi - 1, o)])
  {
    var f := Found(hi - 1, o);
    var m := before + [f];
    assert FirstOccurrence(rule, template, lines, lo, hi, f);
    forall i | 0 <= i < |m|
      ensures FirstOccurrence(rule, template, lines, lo, hi, m[i])
    {
      assert i < |before| ==> FirstOccurrence(rule, template, lines, lo, hi - 1, before[i]);
    }
    forall r, n | lo <= r < hi && ShowsNumber(rule, template, lines, r, n)
      ensures HasNumber(m, n)
    {
      NumberKept(before, f, n);
    }
    assert forall i :: 0 <= i < |before| ==> FirstOccurrence(rule, template, lines, lo, hi - 1, before[i]);
  }

  lemma SkipRow(rule: Rule, template: Text, lines: seq<Text>, lo: nat, hi: nat, before: seq<Found>)
    requires lo < hi <= |lines| && IsFirstOccurrences(rule, template, lines, lo, hi - 1, before)
    requires forall n :: ShowsNumber(rule, template, lines, hi - 1, n) ==> HasNumber(before, n)
    ensures IsFirstOccurrences(rule, template, lines, lo, hi, before)
  {
    forall i | 0 <= i < |before|
      ensures FirstOccurrence(rule, template, lines, lo, hi, before[i])
    {
      assert FirstOccurrence(rule, template, lines, lo, hi - 1, before[i]);
    }
  }

  lemma NextRow(rule: Rule, template: Text, lines: seq<Text>, lo: nat, hi: nat, before: seq<Found>)
    requires lo < hi <= |lines| && IsFirstOccurrences(rule, template, lines, lo, hi - 1, before)
    ensures
      var o := OptionOn(rule, template, lines[hi - 1]);
      IsFirstOccurrences(rule, template, lines, lo, hi,
        if o.None? || HasNumber(before, o.value.number) then before else before + [Found(hi - 1, o.value)])
  {
    var o := OptionOn(rule, template, lines[hi - 1]);
    if o.Some? && !HasNumber(before, o.value.number) {
      AddFound(rule, template, lines, lo, hi, before, o.value);
    } else {
      SkipRow(rule, template, lines, lo, hi, before);
    }
  }

  lemma MenuNext(rule: Rule, template: Text, lines: seq<Text>, lo: nat, row: nat)
    requires lo <= row < |lines|
    ensures
      var m := Menu(rule, template, lines, lo, row);
      var o := OptionOn(rule, template, lines[row]);
      Menu(rule, template, lines, lo, row + 1) ==
        if o.None? || HasNumber(m, o.value.number) then m else m + [Found(row, o.value)]
  {
  }

  lemma OneRowMore(rule: Rule, template: Text, lines: seq<Text>, lo: nat, hi: nat)
    requires lo < hi <= |lines|
    requires IsFirstOccurrences(rule, template, lines, lo, hi - 1, Menu(rule, template, lines, lo, hi - 1))
    ensures IsFirstOccurrences(rule, template, lines, lo, hi, Menu(rule, template, lines, lo, hi))
  {
    MenuNext(rule, template, lines, lo, hi - 1);
    NextRow(rule, template, lines, lo, hi, Menu(rule, template, lines, lo, hi - 1));
  }

  lemma {:induction false} MenuIsFirstOccurrences(rule: Rule, template: Text, lines: seq<Text>, lo: nat, hi: nat)
    requires hi <= |lines|
    ensures IsFirstOccurrences(rule, template, lines, lo, hi, Menu(rule, template, lines, lo, hi))
  {
    if lo < hi {
      MenuIsFirstOccurrences(rule, template, lines, lo, hi - 1);
      OneRowMore(rule, template, lines, lo, hi);
    }
  }

  lemma FirstOccurrencesDiffer(rule: Rule, template: Text, lines: seq<Text>, lo: nat, hi: nat, m: seq<Found>, i: nat, j: nat)
    requires hi <= |lines| && IsFirstOccurrences(rule, template, lines, lo, hi, m) && i < j < |m|
    ensures m[i].option.number != m[j].option.number
  {
    assert FirstOccurrence(rule, template, lines, lo, hi, m[i]);
    assert FirstOccurrence(rule, template, lines, lo, hi, m[j]);
    assert ShowsNumber(rule, template, lines, m[i].row, m[i].option.number);
  }

  lemma NumberInRange(rule: Rule, template: Text, lines: seq<Text>, lo: nat, hi: nat, m: seq<Found>, i: nat)
    requires hi <= |lines| && IsFirstOccurrences(rule, template, lines, lo, hi, m) && i < |m|
    ensures 1 <= m[i].option.number <= MAX_ACTIONS
  {
    assert FirstOccurrence(rule, template, lines, lo, hi, m[i]);
  }

  lemma MenuNumbersDistinct(rule: Rule, template: Text, lines: seq<Text>, lo: nat, hi: nat)
    requires hi <= |lines|
    ensures Distinct(Numbers(Menu(rule, template, lines, lo, hi)))
    ensures forall n :: n in Numbers(Menu(rule, template, lines, lo, hi)) ==> 1 <= n <= MAX_ACTIONS
  {
    MenuIsFirstOccurrences(rule, template, lines, lo, hi);
    NumbersDistinct(rule, template, lines, lo, hi, Menu(rule, template, lines, lo, hi));
  }

  lemma NumbersDistinct(rule: Rule, template: Text, lines: seq<Text>, lo: nat, hi: nat, m: seq<Found>)
    requires hi <= |lines| && IsFirstOccurrences(rule, template, lines, lo, hi, m)
    ensures Distinct(Numbers(m)) && forall n :: n in Numbers(m) ==> 1 <= n <= MAX_ACTIONS
  {
    forall i, j | 0 <= i < j < |m|
      ensures Numbers(m)[i] != Numbers(m)[j]
    {
      FirstOccurrencesDiffer(rule, template, lines, lo, hi, m, i, j);
    }
    forall i | 0 <= i < |m|
      ensures 1 <= Numbers(m)[i] <= MAX_ACTIONS
    {
      NumberInRange(rule, template, lines, lo, hi, m, i);
    }
  }

  /** By pigeonhole there is always room for the next new number: the cap never cuts a menu short. */
  lemma CapIsNeverHit(rule: Rule, template: Text, lines: seq<Text>, lo: nat, hi: nat)
    requires hi <= |lines|
    ensures
      var m := Menu(rule, template, lines, lo, hi);
      |m| <= MAX_ACTIONS && (|m| == MAX_ACTIONS ==> forall n :: 1 <= n <= MAX_ACTIONS ==> HasNumber(m, n))
  {
    var m := Menu(rule, template, lines, lo, hi);
    MenuNumbersDistinct(rule, template, lines, lo, hi);
    DistinctInRange(Numbers(m), MAX_ACTIONS);
    if |m| == MAX_ACTIONS {
      forall n | 1 <= n <= MAX_ACTIONS
        ensures HasNumber(m, n)
      {
        assert n in Numbers(m);
      }
    }
  }

  // ----- pigeonhole

  ghost function UpTo(n: nat): (s: set<int>)
    ensures |s| == n && forall k :: k in s <==> 1 <= k <= n
  {
    if n == 0 then {} else UpTo(n - 1) + {n}
  }

  lemma {:induction false} DistinctCount(nums: seq<int>)
    requires Distinct(nums)
    ensures |set x | x in nums| == |nums|
  {
    if nums == [] {
      assert (set x | x in nums) == {};
    } else {
      var n := |nums| - 1;
      DistinctCount(nums[..n]);
      assert (set x | x in nums) == (set x | x in nums[..n]) + {nums[n]};
    }
  }

  lemma SubsetSize(a: set<int>, b: set<int>)
    requires a <= b
    ensures |a| <= |b|
    ensures |a| == |b| ==> a == b
  {
    assert b == a + (b - a);
  }

  /** Distinct numbers from 1..n: at most n of them, and all of 1..n if there are n. */
  lemma DistinctInRange(nums: seq<int>, n: nat)
    requires Distinct(nums) && forall x :: x in nums ==> 1 <= x <= n
    ensures |nums| <= n
    ensures |nums| == n ==> forall k :: 1 <= k <= n ==> k in nums
  {
    var s := set x | x in nums;
    DistinctCount(nums);
    SubsetSize(s, UpTo(n));
    if |nums| == n {
      forall k | 1 <= k <= n
        ensures k in nums
      {
        assert k in UpTo(n);
      }
    }
  }

  /** N distinct numbers that include all of 1..N include nothing else. */
  lemma CoversIsPermutation(nums: seq<int>)
    requires Distinct(nums) && forall k :: 1 <= k <= |nums| ==> k in nums
    ensures forall k :: k in nums ==> 1 <= k <= |nums|
  {
    var s := set x | x in nums;
    DistinctCount(nums);
    SubsetSize(UpTo(|nums|), s);
    forall k | k in nums
      ensures 1 <= k <= |nums|
    {
      assert k in s;
    }
  }

  /** At least two options, numbered by a permutation of 1..N. */
  ghost predicate IsMenu(m: seq<Found>) {
    && 2 <= |m| <= MAX_ACTIONS
    && Distinct(Numbers(m))
    && forall k :: k in Numbers(m) <==> 1 <= k <= |m|
  }

  /**
   A menu is found exactly when the numbers shown on the scanned rows, however often
   and in whatever order, are those of 1..N with N from 2 to 16.
   */
  lemma MenuFoundIff(rule: Rule, template: Text, lines: seq<Text>, lo: nat, hi: nat)
    requires hi <= |lines|
    ensures IsMenu(Menu(rule, template, lines, lo, hi)) <==> ShowsMenu(rule, template, lines, lo, hi)
  {
    var m := Menu(rule, template, lines, lo, hi);
    MenuIsFirstOccurrences(rule, template, lines, lo, hi);
    MenuNumbersDistinct(rule, template, lines, lo, hi);
    if IsMenu(m) {
      MenuShows(rule, template, lines, lo, hi, m, |m|);
    }
    if ShowsMenu(rule, template, lines, lo, hi) {
      var n :| 2 <= n <= 16 && ShowsExactly(rule, template, lines, lo, hi, n);
      MenuShows(rule, template, lines, lo, hi, m, n);
      ExactNumbers(Numbers(m), n);
    }
  }

  lemma MenuShows(rule: Rule, template: Text, lines: seq<Text>, lo: nat, hi: nat, m: seq<Found>, n: int)
    requires hi <= |lines| && IsFirstOccurrences(rule, template, lines, lo, hi, m)
    ensures ShowsExactly(rule, template, lines, lo, hi, n) <==> forall k :: k in Numbers(m) <==> 1 <= k <= n
  {
    forall k
      ensures k in Numbers(m) <==> Shows(rule, template, lines, lo, hi, k)
    {
      NumberShown(rule, template, lines, lo, hi, m, k);
    }
  }

  lemma ExactNumbers(nums: seq<int>, n: nat)
    requires Distinct(nums) && forall k :: k in nums <==> 1 <= k <= n
    ensures |nums| == n
  {
    DistinctCount(nums);
    assert (set x | x in nums) == UpTo(n);
  }

  ghost predicate Shows(rule: Rule, template: Text, lines: seq<Text>, lo: nat, hi: nat, k: int)
    requires hi <= |lines|
  {
    exists r :: lo <= r < hi && ShowsNumber(rule, template, lines, r, k)
  }

  ghost predicate ShowsExactly(rule: Rule, template: Text, lines: seq<Text>, lo: nat, hi: nat, n: int)
    requires hi <= |lines|
  {
    forall k :: Shows(rule, template, lines, lo, hi, k) <==> 1 <= k <= n
  }

  ghost predicate ShowsMenu(rule: Rule, template: Text, lines: seq<Text>, lo: nat, hi: nat)
    requires hi <= |lines|
  {
    exists n :: 2 <= n <= 16 && ShowsExactly(rule, template, lines, lo, hi, n)
  }

  lemma NumberShown(rule: Rule, template: Text, lines: seq<Text>, lo: nat, hi: nat, m: seq<Found>, k: int)
    requires hi <= |lines| && IsFirstOccurrences(rule, template, lines, lo, hi, m)
    ensures k in Numbers(m) <==> Shows(rule, template, lines, lo, hi, k)
  {
    if k in Numbers(m) {
      var i :| 0 <= i < |m| && Numbers(m)[i] == k;
      assert FirstOccurrence(rule, template, lines, lo, hi, m[i]);
      assert ShowsNumber(rule, template, lines, m[i].row, k);
    }
    if Shows(rule, template, lines, lo, hi, k) {
      var i :| 0 <= i < |m| && m[i].option.number == k;
      assert Numbers(m)[i] == k;
    }
  }

  // ----- candidates

  function Limit(rule: Rule, snap: Snapshot, row: nat): nat { Min(row + rule.maxScanLines, snap.rows - 1) + 1 }

  function ActionsOf(m: seq<Found>): (a: seq<Action>)
    ensures |a| == |m| && forall i :: 0 <= i < |m| ==> a[i] == m[i].option.action
  {
    seq(|m|, i requires 0 <= i < |m| => m[i].option.action)
  }

  ghost function MenuCandidate(rule: Rule, snap: Snapshot, row: nat): Option<Candidate>
    requires Complete(snap) && row < snap.rows
  {
    match rule.template
    case None => None
    case Some(template) =>
      var m := Menu(rule, template, snap.lines, row + 1, Limit(rule, snap, row));
      if IsMenu(m)
      then Some(Candidate(rule.patternId, NumberedMenu, Trim(snap.lines[row]), ActionsOf(m), row))
      else None
  }

  function TrimmedActions(actions: seq<Action>): (r: seq<Action>)
    ensures |r| == |actions|
    ensures forall i :: 0 <= i < |actions| ==> r[i] == Action(Trim(actions[i].caption), actions[i].keys)
  {
    seq(|actions|, i requires 0 <= i < |actions| => Action(Trim(actions[i].caption), actions[i].keys))
  }

  ghost function StaticCandidate(rule: Rule, snap: Snapshot, row: nat): Option<Candidate>
    requires Complete(snap) && row < snap.rows
  {
    if 1 <= |rule.staticActions| <= MAX_ACTIONS
    then Some(Candidate(rule.patternId, rule.patternType, Trim(snap.lines[row]),
                        TrimmedActions(rule.staticActions), row))
    else None
  }

  ghost function Fill(rule: Rule, snap: Snapshot, row: nat): Option<Candidate>
    requires Complete(snap) && row < snap.rows
  {
    if rule.patternType.NumberedMenu? then MenuCandidate(rule, snap, row) else StaticCandidate(rule, snap, row)
  }

  predicate CursorRelevant(rule: Rule, snap: Snapshot, row: nat) {
    row - 1 <= snap.cursorRow <= row + rule.maxScanLines + 2
  }

  ghost predicate Acceptable(rule: Rule, snap: Snapshot, row: nat)
    requires Complete(snap) && row < snap.rows
  {
    && snap.lines[row] != [] && rule.promptRegex(snap.lines[row])
    && CursorRelevant(rule, snap, row) && Fill(rule, snap, row).Some?
  }

  /** The candidate of the bottom-most acceptable row below row n. */
  ghost function BottomMost(rule: Rule, snap: Snapshot, n: nat): Option<Candidate>
    requires Complete(snap) && n <= snap.rows
  {
    if n == 0 then None
    else if Acceptable(rule, snap, n - 1) then Fill(rule, snap, n - 1)
    else BottomMost(rule, snap, n - 1)
  }

  ghost function FirstMatch(rules: seq<Rule>, snap: Snapshot): Option<Candidate>
    requires Complete(snap)
  {
    if rules == [] then None
    else
      var c := BottomMost(rules[0], snap, snap.rows);
      if c.Some? then c else FirstMatch(rules[1..], snap)
  }

  /** No acceptable pair has a lower rule index, or the same rule and a lower row on screen. */
  ghost predicate IsFirstPair(rules: seq<Rule>, snap: Snapshot, r: nat, row: nat)
    requires Complete(snap) && r < |rules| && row < snap.rows
  {
    && Acceptable(rules[r], snap, row)
    && (forall row' :: row < row' < snap.rows ==> !Acceptable(rules[r], snap, row'))
    && (forall r', row' :: 0 <= r' < r && 0 <= row' < snap.rows ==> !Acceptable(rules[r'], snap, row'))
  }

  lemma {:induction false} BottomMostIs(rule: Rule, snap: Snapshot, n: nat) returns (row: nat)
    requires Complete(snap) && n <= snap.rows
    ensures BottomMost(rule, snap, n).None? ==> forall q :: 0 <= q < n ==> !Acceptable(rule, snap, q)
    ensures BottomMost(rule, snap, n).Some? ==>
      && row < n && Acceptable(rule, snap, row)
      && BottomMost(rule, snap, n) == Fill(rule, snap, row)
      && forall q :: row < q < n ==> !Acceptable(rule, snap, q)
  {
    row := 0;
    if n > 0 {
      if Acceptable(rule, snap, n - 1) {
        row := n - 1;
      } else {
        row := BottomMostIs(rule, snap, n - 1);
      }
    }
  }

  /**
   What makes a row acceptable: a line that is not empty, on which the expression
   matches, with the cursor between one row above it and two below the scanned ones,
   and actions to offer.
   */
  lemma AcceptableMeans(rule: Rule, snap: Snapshot, row: nat)
    requires Complete(snap) && row < snap.rows
    ensures Acceptable(rule, snap, row) <==>
      && |snap.lines[row]| > 0 && rule.promptRegex(snap.lines[row])
      && row - 1 <= snap.cursorRow <= row + rule.maxScanLines + 2
      && if rule.patternType == NumberedMenu
         then rule.template.Some? && ShowsMenu(rule, rule.template.value, snap.lines, row + 1,
                                               Min(row + rule.maxScanLines + 1, snap.rows))
         else 1 <= |rule.staticActions| <= 16
  {
    if rule.patternType.NumberedMenu? && rule.template.Some? {
      MenuFoundIff(rule, rule.template.value, snap.lines, row + 1, Min(row + rule.maxScanLines + 1, snap.rows));
    }
  }

  /** The match is the lexicographically first acceptable pair, and fails only if there is none. */
  lemma {:induction false} MatchIsLexicographicallyFirst(rules: seq<Rule>, snap: Snapshot) returns (r: nat, row: nat)
    requires Complete(snap)
    ensures FirstMatch(rules, snap).Some? ==>
      && r < |rules| && row < snap.rows
      && IsFirstPair(rules, snap, r, row)
      && FirstMatch(rules, snap) == Fill(rules[r], snap, row)
      && snap.lines[row] != [] && rules[r].promptRegex(snap.lines[row])
      && row - 1 <= snap.cursorRow <= row + rules[r].maxScanLines + 2
    ensures FirstMatch(rules, snap).None? ==>
      forall r', row' :: 0 <= r' < |rules| && 0 <= row' < snap.rows ==> !Acceptable(rules[r'], snap, row')
  {
    r, row := 0, 0;
    if rules != [] {
      row := BottomMostIs(rules[0], snap, snap.rows);
      if BottomMost(rules[0], snap, snap.rows).None? {
        var r';
        r', row := MatchIsLexicographicallyFirst(rules[1..], snap);
        r := r' + 1;
        assert forall q :: 1 <= q < |rules| ==> rules[q] == rules[1..][q - 1];
      }
    }
  }
}
