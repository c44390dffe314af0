/** Python's whitespace, `strip`, `join` and the separators the two chunkers split on. */
module Text {

  /** `str.isspace` of one character, which is also what `\s` matches. */
  predicate IsSpace(c: char) {
    var code := c as int;
    9 <= code <= 13 || 28 <= code <= 32 || code == 0x85 || code == 0xA0 || code == 0x1680
    || 0x2000 <= code <= 0x200A || code == 0x2028 || code == 0x2029 || code == 0x202F || code == 0x205F || code == 0x3000
  }

  predicate Blank(s: string) {
    forall i :: 0 <= i < |s| ==> IsSpace(s[i])
  }

  /** What a reader is left with once all whitespace is ignored. */
  function Ink(s: string): string {
    if s == [] then [] else (if IsSpace(s[0]) then [] else [s[0]]) + Ink(s[1..])
  }

  function Concat(parts: seq<string>): string {
    if parts == [] then [] else parts[0] + Concat(parts[1..])
  }

  function InkOf(parts: seq<string>): string {
    Ink(Concat(parts))
  }

  function Join(parts: seq<string>, sep: string): string {
    if parts == [] then [] else if |parts| == 1 then parts[0] else Join(parts[..|parts| - 1], sep) + sep + parts[|parts| - 1]
  }

  function StripLeft(s: string): string {
    if s != [] && IsSpace(s[0]) then StripLeft(s[1..]) else s
  }

  function StripRight(s: string): string {
    if s != [] && IsSpace(s[|s| - 1]) then StripRight(s[..|s| - 1]) else s
  }

  function Strip(s: string): string {
    StripRight(StripLeft(s))
  }

  /** `[p.strip() for p in parts if p.strip()]` */
  function Stripped(parts: seq<string>): seq<string> {
    if parts == [] then []
    else (if Strip(parts[0]) == [] then [] else [Strip(parts[0])]) + Stripped(parts[1..])
  }

  // --------------------------------------------------------------- separators

  /** `\n\s*\n`, `(?<=[.!?])\s+`, and the literal two newlines. */
  datatype Separator = BlankLine | SentenceEnd | TwoNewlines

  /** The end of the run of whitespace that starts at `i`. */
  function RunEnd(s: string, i: nat): (end: nat)
    requires i <= |s|
    ensures i <= end <= |s|
    decreases |s| - i
  {
    if i < |s| && IsSpace(s[i]) then RunEnd(s, i + 1) else i
  }

  /** Just past the last newline in `s[i..end]`, or `i` if there is none. */
  function PastLastNewline(s: string, i: nat, end: nat): (past: nat)
    requires i <= end <= |s|
    ensures i <= past <= end
    decreases end
  {
    if end == i then i else if s[end - 1] == '\n' then end else PastLastNewline(s, i, end - 1)
  }

  /** Where a separator that begins at `i` ends; `i` itself if none does. */
  function MatchEnd(sep: Separator, s: string, i: nat): (end: nat)
    requires i < |s|
    ensures i <= end <= |s|
  {
    match sep
    case BlankLine =>
      if s[i] != '\n' then i
      else
        var past := PastLastNewline(s, i + 1, RunEnd(s, i + 1));
        if past == i + 1 then i else past
    case SentenceEnd => if i > 0 && s[i - 1] in ".!?" then RunEnd(s, i) else i
    case TwoNewlines => if i + 1 < |s| && s[i] == '\n' && s[i + 1] == '\n' then i + 2 else i
  }

  function SplitFrom(sep: Separator, s: string, start: nat, i: nat): seq<string>
    requires start <= i <= |s|
    decreases |s| - i
  {
    if i == |s| then [s[start..]]
    else
      var end := MatchEnd(sep, s, i);
      if end > i then [s[start..i]] + SplitFrom(sep, s, end, end) else SplitFrom(sep, s, start, i + 1)
  }

  function Split(sep: Separator, s: string): seq<string> {
    SplitFrom(sep, s, 0, 0)
  }

  // ------------------------------------------------------------------- lemmas

  lemma {:induction false} InkConcat(a: string, b: string)
    ensures Ink(a + b) == Ink(a) + Ink(b)
    decreases |a|
  {
    if a == [] {
      assert a + b == b;
    } else {
      assert (a + b)[1..] == a[1..] + b;
      InkConcat(a[1..], b);
    }
  }

  lemma {:induction false} BlankHasNoInk(s: string)
    requires Blank(s)
    ensures Ink(s) == []
  {
    if s != [] { BlankHasNoInk(s[1..]); }
  }

  lemma {:induction false} ConcatAppends(a: seq<string>, b: seq<string>)
    ensures Concat(a + b) == Concat(a) + Concat(b)
    decreases |a|
  {
    if a == [] {
      assert a + b == b;
    } else {
      assert (a + b)[1..] == a[1..] + b;
      ConcatAppends(a[1..], b);
    }
  }

  lemma InkOfAppend(a: seq<string>, b: seq<string>)
    ensures InkOf(a + b) == InkOf(a) + InkOf(b)
  {
    ConcatAppends(a, b);
    InkConcat(Concat(a), Concat(b));
  }

  lemma EmptyHasNoInk()
    ensures InkOf([]) == []
  {
  }

  lemma InkOfOne(s: string)
    ensures InkOf([s]) == Ink(s)
  {
    assert Concat([s]) == s + Concat([]) == s;
  }

  lemma {:induction false} StripKeepsInk(s: string)
    ensures Ink(Strip(s)) == Ink(s) && |Strip(s)| <= |s|
  {
    StripLeftKeepsInk(s);
    StripRightKeepsInk(StripLeft(s));
  }

  lemma {:induction false} StripLeftKeepsInk(s: string)
    ensures Ink(StripLeft(s)) == Ink(s) && |StripLeft(s)| <= |s|
  {
    if s != [] && IsSpace(s[0]) { StripLeftKeepsInk(s[1..]); }
  }

  lemma {:induction false} StripRightKeepsInk(s: string)
    ensures Ink(StripRight(s)) == Ink(s) && |StripRight(s)| <= |s|
    decreases |s|
  {
    if s != [] && IsSpace(s[|s| - 1]) {
      var front := s[..|s| - 1];
      StripRightKeepsInk(front);
      assert s == front + [s[|s| - 1]];
      InkConcat(front, [s[|s| - 1]]);
      assert Ink([s[|s| - 1]]) == [];
    }
  }

  lemma {:induction false} StrippedKeepsInk(parts: seq<string>)
    ensures InkOf(Stripped(parts)) == InkOf(parts)
    decreases |parts|
  {
    if parts != [] {
      StrippedKeepsInk(parts[1..]);
      StripKeepsInk(parts[0]);
      var head := if Strip(parts[0]) == [] then [] else [Strip(parts[0])];
      InkOfOne(Strip(parts[0]));
      InkOfAppend(head, Stripped(parts[1..]));
      InkConcat(parts[0], Concat(parts[1..]));
      assert InkOf(head) == Ink(parts[0]);
    }
  }

  lemma {:induction false} JoinKeepsInk(parts: seq<string>, sep: string)
    requires Blank(sep)
    ensures Ink(Join(parts, sep)) == InkOf(parts)
    decreases |parts|
  {
    if |parts| == 1 {
      assert parts == [parts[0]];
      InkOfOne(parts[0]);
    } else if |parts| > 1 {
      var n := |parts| - 1;
      JoinKeepsInk(parts[..n], sep);
      InkConcat(Join(parts[..n], sep) + sep, parts[n]);
      InkConcat(Join(parts[..n], sep), sep);
      BlankHasNoInk(sep);
      assert parts == parts[..n] + [parts[n]];
      InkOfAppend(parts[..n], [parts[n]]);
      InkOfOne(parts[n]);
    }
  }

  lemma {:induction false} RunIsBlank(s: string, i: nat)
    requires i <= |s|
    ensures Blank(s[i..RunEnd(s, i)])
    decreases |s| - i
  {
    if i < |s| && IsSpace(s[i]) { RunIsBlank(s, i + 1); }
  }

  lemma SeparatorsAreBlank(sep: Separator, s: string, i: nat)
    requires i < |s|
    ensures Blank(s[i..MatchEnd(sep, s, i)])
  {
    match sep
    case BlankLine =>
      RunIsBlank(s, i + 1);
      var end := MatchEnd(sep, s, i);
      forall k | 0 <= k < end - i ensures IsSpace(s[i..end][k]) {
        if k > 0 {
          assert s[i..end][k] == s[i + 1..RunEnd(s, i + 1)][k - 1];
        }
      }
    case SentenceEnd => RunIsBlank(s, i);
    case TwoNewlines =>
  }

  lemma CutKeepsInk(s: string, start: nat, i: nat, end: nat)
    requires start <= i <= end <= |s| && Blank(s[i..end])
    ensures Ink(s[start..]) == Ink(s[start..i]) + Ink(s[end..])
  {
    BlankHasNoInk(s[i..end]);
    assert s[start..] == s[start..i] + (s[i..end] + s[end..]);
    InkConcat(s[start..i], s[i..end] + s[end..]);
    InkConcat(s[i..end], s[end..]);
  }

  lemma {:induction false} SplitFromKeepsInk(sep: Separator, s: string, start: nat, i: nat)
    requires start <= i <= |s|
    ensures InkOf(SplitFrom(sep, s, start, i)) == Ink(s[start..])
    decreases |s| - i
  {
    hide Ink, Concat, MatchEnd, Blank;
    if i == |s| {
      InkOfOne(s[start..]);
    } else {
      var end := MatchEnd(sep, s, i);
      if end > i {
        SplitFromKeepsInk(sep, s, end, end);
        InkOfAppend([s[start..i]], SplitFrom(sep, s, end, end));
        InkOfOne(s[start..i]);
        SeparatorsAreBlank(sep, s, i);
        CutKeepsInk(s, start, i, end);
      } else {
        SplitFromKeepsInk(sep, s, start, i + 1);
      }
    }
  }

  /** Splitting on any of the separators loses whitespace only. */
  lemma SplitKeepsInk(sep: Separator, s: string)
    ensures InkOf(Split(sep, s)) == Ink(s)
  {
    SplitFromKeepsInk(sep, s, 0, 0);
    assert s[0..] == s;
  }

  // ------------------------------------------------------- what the separators are

  /** `s[i..j]` is a match of the separator's pattern, with the character before it for the look-behind. */
  predicate Matches(sep: Separator, s: string, i: nat, j: nat) {
    && i < j <= |s|
    && match sep
       case BlankLine => j >= i + 2 && s[i] == '\n' && s[j - 1] == '\n' && Blank(s[i..j])
       case SentenceEnd => i > 0 && s[i - 1] in ".!?" && Blank(s[i..j])
       case TwoNewlines => j == i + 2 && s[i] == '\n' && s[i + 1] == '\n'
  }

  lemma {:induction false} RunIsLongest(s: string, i: nat, j: nat)
    requires i <= j <= |s| && Blank(s[i..j])
    ensures j <= RunEnd(s, i)
    decreases |s| - i
  {
    if i < j {
      assert s[i..j][0] == s[i] && s[i..j][1..] == s[i + 1..j];
      RunIsLongest(s, i + 1, j);
    }
  }

  lemma {:induction false} LastNewlineIsLast(s: string, i: nat, end: nat)
    requires i <= end <= |s|
    ensures forall j | PastLastNewline(s, i, end) <= j < end :: s[j] != '\n'
    ensures PastLastNewline(s, i, end) > i ==> s[PastLastNewline(s, i, end) - 1] == '\n'
    decreases end
  {
    if end > i && s[end - 1] != '\n' { LastNewlineIsLast(s, i, end - 1); }
  }

  /** `MatchEnd` is the pattern matched greedily: it finds a match if there is one, and the longest. */
  lemma MatchIsGreedy(sep: Separator, s: string, i: nat)
    requires i < |s|
    ensures MatchEnd(sep, s, i) > i ==> Matches(sep, s, i, MatchEnd(sep, s, i))
    ensures forall j: nat :: Matches(sep, s, i, j) ==> j <= MatchEnd(sep, s, i)
  {
    SeparatorsAreBlank(sep, s, i);
    if sep == BlankLine && s[i] == '\n' { LastNewlineIsLast(s, i + 1, RunEnd(s, i + 1)); }
    forall j: nat | Matches(sep, s, i, j) ensures j <= MatchEnd(sep, s, i) {
      if sep != TwoNewlines {
        assert s[i..j][0] == s[i] && s[i..j][1..] == s[i + 1..j];
        RunIsLongest(s, i, j);
        RunIsLongest(s, i + 1, j);
      }
    }
  }

  lemma SliceOfSlice(s: string, start: nat, i: nat, k: nat, end: nat)
    requires start <= i <= |s| && k <= end <= i - start
    ensures s[start..i][k..end] == s[start + k..start + end]
  {
    var inner, outer := s[start..i][k..end], s[start + k..start + end];
    assert |inner| == |outer| && forall x | 0 <= x < |inner| :: inner[x] == outer[x];
  }

  lemma MatchInPart(sep: Separator, s: string, start: nat, i: nat, k: nat)
    requires start <= i <= |s| && start + k < i && MatchEnd(sep, s[start..i], k) > k
    ensures MatchEnd(sep, s, start + k) > start + k
  {
    var part := s[start..i];
    var end := MatchEnd(sep, part, k);
    hide MatchEnd;
    assert k < end <= |part|;
    MatchIsGreedy(sep, part, k);
    SliceOfSlice(s, start, i, k, end);
    assert Matches(sep, s, start + k, start + end);
    MatchIsGreedy(sep, s, start + k);
  }

  /** No part could be split further. */
  predicate Unsplit(sep: Separator, part: string) {
    forall k :: 0 <= k < |part| ==> MatchEnd(sep, part, k) == k
  }

  lemma {:induction false} SplitFromIsComplete(sep: Separator, s: string, start: nat, i: nat)
    requires start <= i <= |s| && forall k | start <= k < i :: MatchEnd(sep, s, k) == k
    ensures forall part | part in SplitFrom(sep, s, start, i) :: Unsplit(sep, part)
    decreases |s| - i
  {
    hide MatchEnd;
    forall k | 0 <= k < i - start ensures MatchEnd(sep, s[start..i], k) == k {
      if MatchEnd(sep, s[start..i], k) > k { MatchInPart(sep, s, start, i, k); }
    }
    if i == |s| {
      assert s[start..] == s[start..i];
    } else {
      var end := MatchEnd(sep, s, i);
      if end > i {
        SplitFromIsComplete(sep, s, end, end);
      } else {
        SplitFromIsComplete(sep, s, start, i + 1);
      }
    }
  }

  /** Splitting leaves no separator inside a part. */
  lemma SplitIsComplete(sep: Separator, s: string)
    ensures forall part | part in Split(sep, s) :: Unsplit(sep, part)
  {
    SplitFromIsComplete(sep, s, 0, 0);
  }

  // ------------------------------------------------------------- cut by force

  /** The length a piece may have. */
  type Limit = n: nat | n > 0 witness 1

  /** `[s[i : i + size] for i in range(0, len(s), size)]` */
  function Slices(s: string, size: Limit): seq<string>
    decreases |s|
  {
    if |s| == 0 then [] else if |s| <= size then [s] else [s[..size]] + Slices(s[size..], size)
  }

  lemma {:induction false} SlicesAreExact(s: string, size: Limit)
    ensures Concat(Slices(s, size)) == s
    ensures forall piece :: piece in Slices(s, size) ==> 0 < |piece| <= size
    decreases |s|
  {
    if |s| > size {
      SlicesAreExact(s[size..], size);
      assert s == s[..size] + s[size..];
    } else if |s| > 0 {
      assert Concat([s]) == s + Concat([]);
    }
  }

  method SliceLoop(s: string, size: Limit) returns (slices: seq<string>)
    ensures slices == Slices(s, size)
  {
    slices := [];
    var i := 0;
    while i < |s|
      invariant 0 <= i <= |s|
      invariant Slices(s, size) == slices + Slices(s[i..], size)
      decreases |s| - i
    {
      var end := if i + size < |s| then i + size else |s|;
      assert s[i..][..end - i] == s[i..end] && s[i..][end - i..] == s[end..];
      if end == |s| {
        assert s[i..end] == s[i..] && s[end..] == [];
      }
      slices := slices + [s[i..end]];
      i := end;
    }
  }

  // ------------------------------------------------------------ what stays whole

  predicate AllWithin(pieces: seq<string>, limit: Limit) {
    forall piece :: piece in pieces ==> |piece| <= limit
  }

  predicate StandsAt(unit: string, piece: string, i: int) {
    0 <= i <= |piece| - |unit| && piece[i..i + |unit|] == unit
  }

  predicate Within(unit: string, piece: string) {
    exists i: nat :: i <= |piece| && StandsAt(unit, piece, i)
  }

  predicate KeptWhole(unit: string, pieces: seq<string>) {
    exists piece :: piece in pieces && Within(unit, piece)
  }

  lemma KeptInEither(unit: string, first: seq<string>, second: seq<string>)
    ensures KeptWhole(unit, first) || KeptWhole(unit, second) ==> KeptWhole(unit, first + second)
  {
  }

  lemma {:induction false} LeftEndIsInk(s: string)
    ensures StripLeft(s) == [] || !IsSpace(StripLeft(s)[0])
  {
    if s != [] && IsSpace(s[0]) { LeftEndIsInk(s[1..]); }
  }

  lemma {:induction false} RightEndIsInk(s: string)
    requires s == [] || !IsSpace(s[0])
    ensures StripRight(s) != [] ==> Ink(StripRight(s)) != []
    decreases |s|
  {
    if s != [] && IsSpace(s[|s| - 1]) { RightEndIsInk(s[..|s| - 1]); }
  }

  lemma {:induction false} StripRightEnds(s: string)
    ensures StripRight(s) <= s
    ensures StripRight(s) == [] || !IsSpace(StripRight(s)[|StripRight(s)| - 1])
    decreases |s|
  {
    if s != [] && IsSpace(s[|s| - 1]) { StripRightEnds(s[..|s| - 1]); }
  }

  /** What is stripped begins and ends in ink. */
  lemma StripEnds(s: string)
    ensures Strip(s) == [] || (!IsSpace(Strip(s)[0]) && !IsSpace(Strip(s)[|Strip(s)| - 1]))
  {
    LeftEndIsInk(s);
    StripRightEnds(StripLeft(s));
  }
}
