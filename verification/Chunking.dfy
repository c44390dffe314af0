/**
 `summarize/chunking.py`: a transcript is cut into pieces of bounded length, by paragraph,
 then by sentence, then by force. The same packing loop runs at the first two levels.
 */
module Chunking {
  import opened Text

  datatype Level = Sentences | Paragraphs

  function Rank(level: Level): nat {
    if level == Sentences then 0 else 1
  }

  function Glue(level: Level): string {
    match level
    case Paragraphs => "\n\n"
    case Sentences => " "
  }

  /** What becomes of a unit too long for any piece. */
  function Break(level: Level, unit: string, limit: Limit): seq<string>
    decreases Rank(level), 0
  {
    match level
    case Sentences => Slices(unit, limit)
    case Paragraphs => SplitOversized(unit, limit)
  }

  /** The packing loop: `current` is the piece being filled and `len` the length the code tracks for it. */
  function Pack(level: Level, units: seq<string>, current: seq<string>, len: nat, limit: Limit): seq<string>
    decreases Rank(level), 1, |units|
  {
    if units == [] then Flush(level, current)
    else
      var unit := units[0];
      var more := |unit| + |Glue(level)|;
      if |unit| > limit then Flush(level, current) + Break(level, unit, limit) + Pack(level, units[1..], [], 0, limit)
      else if current != [] && len + more > limit then Flush(level, current) + Pack(level, units[1..], [unit], more, limit)
      else Pack(level, units[1..], current + [unit], len + more, limit)
  }

  function Flush(level: Level, current: seq<string>): seq<string> {
    if current == [] then [] else [Join(current, Glue(level))]
  }

  function SplitOversized(text: string, limit: Limit): seq<string>
    decreases Rank(Sentences), 2
  {
    var pieces := Pack(Sentences, Stripped(Split(SentenceEnd, text)), [], 0, limit);
    if pieces == [] then [if |text| <= limit then text else text[..limit]] else pieces
  }

  /** Paragraphs of the text; a lone one is broken into sentences first. */
  function Units(text: string, limit: Limit): seq<string>
  {
    var paragraphs := Stripped(Split(BlankLine, text));
    if |paragraphs| == 1 then SplitOversized(paragraphs[0], limit) else paragraphs
  }

  function Chunks(text: string, limit: Limit): seq<string>
  {
    if Strip(text) == [] then [] else Pack(Paragraphs, Units(text, limit), [], 0, limit)
  }

  // ------------------------------------------------------------ nothing is lost

  lemma GlueIsBlank(level: Level)
    ensures Blank(Glue(level))
  {
  }

  lemma BreakKeepsInk(level: Level, unit: string, limit: Limit)
    ensures InkOf(Break(level, unit, limit)) == Ink(unit)
    decreases Rank(level), 0
  {
    match level
    case Sentences => SlicesAreExact(unit, limit);
    case Paragraphs => SplitOversizedKeepsInk(unit, limit);
  }

  lemma FlushKeepsInk(level: Level, current: seq<string>)
    ensures InkOf(Flush(level, current)) == InkOf(current)
  {
    if current != [] {
      GlueIsBlank(level);
      JoinKeepsInk(current, Glue(level));
      InkOfOne(Join(current, Glue(level)));
    }
  }

  lemma PackIs(level: Level, units: seq<string>, current: seq<string>, len: nat, limit: Limit)
    ensures Pack(level, units, current, len, limit) ==
      if units == [] then Flush(level, current)
      else
        var more := |units[0]| + |Glue(level)|;
        if |units[0]| > limit then Flush(level, current) + Break(level, units[0], limit) + Pack(level, units[1..], [], 0, limit)
        else if current != [] && len + more > limit then Flush(level, current) + Pack(level, units[1..], [units[0]], more, limit)
        else Pack(level, units[1..], current + [units[0]], len + more, limit)
  {
    hide Flush, Break, Glue;
  }

  lemma {:induction false} PackKeepsInk(level: Level, units: seq<string>, current: seq<string>, len: nat, limit: Limit)
    ensures InkOf(Pack(level, units, current, len, limit)) == InkOf(current) + InkOf(units)
    decreases Rank(level), 1, |units|
  {
    hide Ink, Concat, InkOf, Join, Break, Flush, Glue, Pack;
    PackIs(level, units, current, len, limit);
    FlushKeepsInk(level, current);
    if units == [] {
      EmptyHasNoInk();
    } else {
      var unit := units[0];
      var more := |unit| + |Glue(level)|;
      assert units == [unit] + units[1..];
      InkOfAppend([unit], units[1..]);
      InkOfOne(unit);
      if |unit| > limit {
        PackKeepsInk(level, units[1..], [], 0, limit);
        EmptyHasNoInk();
        BreakKeepsInk(level, unit, limit);
        InkOfAppend(Flush(level, current), Break(level, unit, limit));
        InkOfAppend(Flush(level, current) + Break(level, unit, limit), Pack(level, units[1..], [], 0, limit));
      } else if current != [] && len + more > limit {
        PackKeepsInk(level, units[1..], [unit], more, limit);
        InkOfAppend(Flush(level, current), Pack(level, units[1..], [unit], more, limit));
      } else {
        PackKeepsInk(level, units[1..], current + [unit], len + more, limit);
        InkOfAppend(current, [unit]);
      }
    }
  }

  lemma SplitOversizedKeepsInk(text: string, limit: Limit)
    ensures InkOf(SplitOversized(text, limit)) == Ink(text)
    decreases Rank(Sentences), 2
  {
    var units := Stripped(Split(SentenceEnd, text));
    SplitKeepsInk(SentenceEnd, text);
    StrippedKeepsInk(Split(SentenceEnd, text));
    PackKeepsInk(Sentences, units, [], 0, limit);
    if Pack(Sentences, units, [], 0, limit) == [] {
      var kept := if |text| <= limit then text else text[..limit];
      InkOfOne(kept);
      assert text == kept + text[|kept|..];
      InkConcat(kept, text[|kept|..]);
    }
  }

  // ------------------------------------------------------------ nothing is too long

  /** The tracked length counts one separator too many, so the joined piece is shorter than it says. */
  predicate Tracks(level: Level, current: seq<string>, len: nat, limit: Limit) {
    && len == (if current == [] then 0 else |Join(current, Glue(level))| + |Glue(level)|)
    && (current != [] ==> |Join(current, Glue(level))| <= limit)
  }

  lemma BreakRespectsLimit(level: Level, unit: string, limit: Limit)
    ensures AllWithin(Break(level, unit, limit), limit)
    decreases Rank(level), 0
  {
    match level
    case Sentences => SlicesAreExact(unit, limit);
    case Paragraphs => SplitOversizedRespectsLimit(unit, limit);
  }

  lemma FlushRespectsLimit(level: Level, current: seq<string>, len: nat, limit: Limit)
    requires Tracks(level, current, len, limit)
    ensures AllWithin(Flush(level, current), limit)
  {
  }

  lemma WithinBoth(first: seq<string>, second: seq<string>, limit: Limit)
    requires AllWithin(first, limit) && AllWithin(second, limit)
    ensures AllWithin(first + second, limit)
  {
  }

  /** A fresh piece is tracked, and so is one that takes another unit. */
  lemma TracksOneMore(level: Level, current: seq<string>, len: nat, limit: Limit, unit: string)
    requires Tracks(level, current, len, limit) && |unit| <= limit
    ensures Tracks(level, [], 0, limit)
    ensures Tracks(level, [unit], |unit| + |Glue(level)|, limit)
    ensures current == [] || len + |unit| + |Glue(level)| <= limit ==>
              Tracks(level, current + [unit], len + |unit| + |Glue(level)|, limit)
  {
    assert (current + [unit])[..|current|] == current;
  }

  lemma {:induction false} PackRespectsLimit(level: Level, units: seq<string>, current: seq<string>, len: nat, limit: Limit)
    requires Tracks(level, current, len, limit)
    ensures AllWithin(Pack(level, units, current, len, limit), limit)
    decreases Rank(level), 1, |units|
  {
    hide AllWithin, Tracks, Join, Break, Pack, Flush, Glue;
    PackIs(level, units, current, len, limit);
    FlushRespectsLimit(level, current, len, limit);
    if units != [] {
      var unit := units[0];
      var more := |unit| + |Glue(level)|;
      if |unit| > limit {
        BreakRespectsLimit(level, unit, limit);
        TracksOneMore(level, current, len, limit, "");
        PackRespectsLimit(level, units[1..], [], 0, limit);
        WithinBoth(Flush(level, current), Break(level, unit, limit), limit);
        WithinBoth(Flush(level, current) + Break(level, unit, limit), Pack(level, units[1..], [], 0, limit), limit);
      } else {
        TracksOneMore(level, current, len, limit, unit);
        if current != [] && len + more > limit {
          PackRespectsLimit(level, units[1..], [unit], more, limit);
          WithinBoth(Flush(level, current), Pack(level, units[1..], [unit], more, limit), limit);
        } else {
          PackRespectsLimit(level, units[1..], current + [unit], len + more, limit);
        }
      }
    }
  }

  lemma SplitOversizedRespectsLimit(text: string, limit: Limit)
    ensures AllWithin(SplitOversized(text, limit), limit)
    decreases Rank(Sentences), 2
  {
    PackRespectsLimit(Sentences, Stripped(Split(SentenceEnd, text)), [], 0, limit);
  }

  /**
   For every text and every positive limit: no chunk is longer than the limit, and the
   chunks in order hold every non-whitespace character of the text, once and in order.
   */
  lemma ChunksAreExact(text: string, limit: Limit)
    ensures AllWithin(Chunks(text, limit), limit)
    ensures InkOf(Chunks(text, limit)) == Ink(text)
  {
    if Strip(text) == [] {
      StripKeepsInk(text);
    } else {
      var paragraphs := Stripped(Split(BlankLine, text));
      SplitKeepsInk(BlankLine, text);
      StrippedKeepsInk(Split(BlankLine, text));
      if |paragraphs| == 1 {
        assert paragraphs == [paragraphs[0]];
        InkOfOne(paragraphs[0]);
        SplitOversizedKeepsInk(paragraphs[0], limit);
      }
      EmptyHasNoInk();
      PackKeepsInk(Paragraphs, Units(text, limit), [], 0, limit);
      PackRespectsLimit(Paragraphs, Units(text, limit), [], 0, limit);
    }
  }

  // ------------------------------------------------------- what is never split

  lemma {:induction false} JoinHoldsEach(parts: seq<string>, sep: string, unit: string)
    requires unit in parts
    ensures Within(unit, Join(parts, sep))
    decreases |parts|
  {
    var n := |parts| - 1;
    var whole := Join(parts, sep);
    if parts[n] == unit {
      assert StandsAt(unit, whole, |whole| - |unit|);
    } else {
      JoinHoldsEach(parts[..n], sep, unit);
      var i: nat :| i <= |Join(parts[..n], sep)| && StandsAt(unit, Join(parts[..n], sep), i);
      assert whole[i..i + |unit|] == unit;
      assert StandsAt(unit, whole, i);
    }
  }

  lemma FlushHoldsEach(level: Level, current: seq<string>, unit: string)
    requires unit in current
    ensures KeptWhole(unit, Flush(level, current))
  {
    JoinHoldsEach(current, Glue(level), unit);
    assert Join(current, Glue(level)) in Flush(level, current);
  }

  /** A unit that fits is never cut: some piece holds it in one stretch. */
  lemma {:induction false} PackKeepsUnitsWhole(level: Level, units: seq<string>, current: seq<string>, len: nat, limit: Limit, unit: string)
    requires unit in current + units && |unit| <= limit
    requires AllWithin(current, limit)
    ensures KeptWhole(unit, Pack(level, units, current, len, limit))
    decreases Rank(level), 1, |units|
  {
    hide KeptWhole, Join, Break, Pack, Flush, Glue;
    PackIs(level, units, current, len, limit);
    if unit in current { FlushHoldsEach(level, current, unit); }
    if units != [] {
      var more := |units[0]| + |Glue(level)|;
      if |units[0]| > limit {
        if unit !in current { PackKeepsUnitsWhole(level, units[1..], [], 0, limit, unit); }
        KeptInEither(unit, Flush(level, current), Break(level, units[0], limit));
        KeptInEither(unit, Flush(level, current) + Break(level, units[0], limit), Pack(level, units[1..], [], 0, limit));
      } else if current != [] && len + more > limit {
        if unit !in current { PackKeepsUnitsWhole(level, units[1..], [units[0]], more, limit, unit); }
        KeptInEither(unit, Flush(level, current), Pack(level, units[1..], [units[0]], more, limit));
      } else {
        PackKeepsUnitsWhole(level, units[1..], current + [units[0]], len + more, limit, unit);
      }
    }
  }

  /** With more than one paragraph, each paragraph that fits a chunk is in one chunk entire. */
  lemma ParagraphsAreKeptWhole(text: string, limit: Limit, paragraph: string)
    requires |paragraph| <= limit
    requires var paragraphs := Stripped(Split(BlankLine, text)); |paragraphs| > 1 && paragraph in paragraphs
    ensures KeptWhole(paragraph, Chunks(text, limit))
  {
    hide Within, Pack;
    ParagraphMeansInk(text, paragraph);
    PackKeepsUnitsWhole(Paragraphs, Units(text, limit), [], 0, limit, paragraph);
  }

  lemma {:induction false} StrippedIsInked(parts: seq<string>)
    ensures forall part :: part in Stripped(parts) ==> Ink(part) != []
  {
    if parts != [] {
      StrippedIsInked(parts[1..]);
      if Strip(parts[0]) != [] {
        LeftEndIsInk(parts[0]);
        RightEndIsInk(StripLeft(parts[0]));
      }
    }
  }

  lemma {:induction false} InkIn(parts: seq<string>, part: string)
    requires part in parts && Ink(part) != []
    ensures InkOf(parts) != []
  {
    InkConcat(parts[0], Concat(parts[1..]));
    if parts[0] != part { InkIn(parts[1..], part); }
  }

  /** Total length, counting the glue after every part. */
  function Weight(parts: seq<string>, glue: nat): nat {
    if parts == [] then 0 else |parts[0]| + glue + Weight(parts[1..], glue)
  }

  lemma {:induction false} WeightAppends(a: seq<string>, b: seq<string>, glue: nat)
    ensures Weight(a + b, glue) == Weight(a, glue) + Weight(b, glue)
    decreases |a|
  {
    if a == [] {
      assert a + b == b;
    } else {
      assert (a + b)[1..] == a[1..] + b;
      WeightAppends(a[1..], b, glue);
    }
  }

  lemma {:induction false} JoinWeighs(parts: seq<string>, sep: string)
    requires parts != []
    ensures |Join(parts, sep)| + |sep| == Weight(parts, |sep|)
    decreases |parts|
  {
    var n := |parts| - 1;
    assert parts == parts[..n] + [parts[n]];
    WeightAppends(parts[..n], [parts[n]], |sep|);
    assert Weight([parts[n]], |sep|) == |parts[n]| + |sep| + Weight([], |sep|);
    if n > 0 { JoinWeighs(parts[..n], sep); }
  }

  lemma FlushWeighs(level: Level, current: seq<string>)
    requires current != []
    ensures Weight(Flush(level, current), |Glue(level)|) == Weight(current, |Glue(level)|)
  {
    hide Join, Glue;
    var g := |Glue(level)|;
    JoinWeighs(current, Glue(level));
    assert Weight([Join(current, Glue(level))], g) == |Join(current, Glue(level))| + g + Weight([], g);
  }

  lemma GlueIsThere(level: Level)
    ensures |Glue(level)| >= 1
  {
  }

  lemma UnitWeighs(units: seq<string>, glue: nat)
    requires units != []
    ensures Weight(units, glue) == |units[0]| + glue + Weight(units[1..], glue)
    ensures Weight([units[0]], glue) == |units[0]| + glue && Weight([], glue) == 0
  {
    assert Weight([units[0]], glue) == |units[0]| + glue + Weight([], glue);
  }

  lemma PackHead(level: Level, units: seq<string>, current: seq<string>, len: nat, limit: Limit)
    requires units != [] && |units[0]| <= limit
    ensures var more := |units[0]| + |Glue(level)|;
      Pack(level, units, current, len, limit) ==
      if current != [] && len + more > limit then Flush(level, current) + Pack(level, units[1..], [units[0]], more, limit)
      else Pack(level, units[1..], current + [units[0]], len + more, limit)
  {
    hide Flush, Glue;
  }

  lemma TailWithin(units: seq<string>, limit: Limit)
    requires units != [] && AllWithin(units, limit)
    ensures |units[0]| <= limit && AllWithin(units[1..], limit)
  {
  }

  lemma PackNone(level: Level, current: seq<string>, len: nat, limit: Limit)
    ensures Pack(level, [], current, len, limit) == Flush(level, current)
    ensures current == [] <==> Flush(level, current) == []
  {
  }

  lemma FlushedTurnWeighs(level: Level, units: seq<string>, current: seq<string>, limit: Limit, glue: nat)
    requires units != [] && current != [] && |units[0]| <= limit && glue == |Glue(level)|
    requires Weight(current, glue) + |units[0]| + glue > limit
    requires Weight(Pack(level, units[1..], [units[0]], |units[0]| + glue, limit), glue) == Weight(units, glue)
    ensures Weight(Pack(level, units, current, Weight(current, glue), limit), glue) == Weight(current, glue) + Weight(units, glue)
  {
    hide *;
    PackHead(level, units, current, Weight(current, glue), limit);
    FlushWeighs(level, current);
    WeightAppends(Flush(level, current), Pack(level, units[1..], [units[0]], |units[0]| + glue, limit), glue);
  }

  lemma {:induction false} PackKeepsWeight(level: Level, units: seq<string>, current: seq<string>, limit: Limit)
    requires AllWithin(units, limit)
    ensures Weight(Pack(level, units, current, Weight(current, |Glue(level)|), limit), |Glue(level)|) ==
            Weight(current, |Glue(level)|) + Weight(units, |Glue(level)|)
    decreases |units|
  {
    var g := |Glue(level)|;
    hide *;
    if units == [] {
      NothingWeighs(g);
      if current != [] { FlushWeighs(level, current); }
      PackNone(level, current, Weight(current, g), limit);
    } else {
      UnitWeighs(units, g);
      TailWithin(units, limit);
      if current != [] && Weight(current, g) + |units[0]| + g > limit {
        PackKeepsWeight(level, units[1..], [units[0]], limit);
        FlushedTurnWeighs(level, units, current, limit, g);
      } else {
        PackHead(level, units, current, Weight(current, g), limit);
        WeightAppends(current, [units[0]], g);
        PackKeepsWeight(level, units[1..], current + [units[0]], limit);
      }
    }
  }

  lemma NothingWeighs(glue: nat)
    ensures Weight([], glue) == 0
  {
  }

  /** Units that all fit end up in a single piece exactly if their tracked length does not exceed the limit. */
  lemma {:induction false} OnePieceIfLight(level: Level, units: seq<string>, current: seq<string>, limit: Limit)
    requires AllWithin(units, limit) && current != []
    ensures |Pack(level, units, current, Weight(current, |Glue(level)|), limit)| == 1 <==>
            units == [] || Weight(current, |Glue(level)|) + Weight(units, |Glue(level)|) <= limit
    decreases |units|
  {
    hide Join, Glue, Break;
    var g := |Glue(level)|;
    if units != [] {
      var unit := units[0];
      assert Weight([unit], g) == |unit| + g + Weight([], g);
      WeightAppends(current, [unit], g);
      if Weight(current, g) + |unit| + g > limit {
        PackKeepsWeight(level, units[1..], [unit], limit);
        GlueIsThere(level);
        assert Pack(level, units[1..], [unit], |unit| + g, limit) != [];
      } else {
        OnePieceIfLight(level, units[1..], current + [unit], limit);
      }
    }
  }

  lemma {:induction false} LightIsJoined(level: Level, units: seq<string>, current: seq<string>, limit: Limit)
    requires AllWithin(units, limit) && current != []
    requires Weight(current, |Glue(level)|) + Weight(units, |Glue(level)|) <= limit
    ensures Pack(level, units, current, Weight(current, |Glue(level)|), limit) == [Join(current + units, Glue(level))]
    decreases |units|
  {
    hide *;
    var g := |Glue(level)|;
    if units == [] {
      assert current + units == current;
      PackLast(level, current, Weight(current, g), limit);
    } else {
      UnitWeighs(units, g);
      TailWithin(units, limit);
      PackHead(level, units, current, Weight(current, g), limit);
      WeightAppends(current, [units[0]], g);
      LightIsJoined(level, units[1..], current + [units[0]], limit);
      assert current + [units[0]] + units[1..] == current + units;
    }
  }

  lemma PackLast(level: Level, current: seq<string>, len: nat, limit: Limit)
    requires current != []
    ensures Pack(level, [], current, len, limit) == [Join(current, Glue(level))]
  {
  }

  /** Several fitting paragraphs come out in one chunk, blank lines between them, exactly if that leaves two characters to spare. */
  lemma FewParagraphsAreOneChunk(text: string, limit: Limit)
    requires var paragraphs := Stripped(Split(BlankLine, text)); |paragraphs| > 1 && AllWithin(paragraphs, limit)
    ensures var together := Join(Stripped(Split(BlankLine, text)), "\n\n");
      && (|together| + 2 <= limit ==> Chunks(text, limit) == [together])
      && (|Chunks(text, limit)| == 1 ==> |together| + 2 <= limit)
  {
    var paragraphs := Stripped(Split(BlankLine, text));
    hide Split, Stripped, Strip, Join, Pack, AllWithin;
    ParagraphMeansInk(text, paragraphs[0]);
    JoinWeighs(paragraphs, "\n\n");
    OnePieceFromNothing(Paragraphs, paragraphs, limit);
    if |Join(paragraphs, "\n\n")| + 2 <= limit {
      UnitWeighs(paragraphs, 2);
      TailWithin(paragraphs, limit);
      PackHead(Paragraphs, paragraphs, [], 0, limit);
      assert [] + [paragraphs[0]] == [paragraphs[0]];
      LightIsJoined(Paragraphs, paragraphs[1..], [paragraphs[0]], limit);
      assert [paragraphs[0]] + paragraphs[1..] == paragraphs;
    }
  }

  /**
   A text of one paragraph is different: it is cut at its sentences even when it fits.
   With two sentences or more, all within the limit, it comes out in one chunk exactly
   if its sentences joined by single spaces are strictly shorter than the limit.
   */
  lemma LoneParagraphIsKeptIfShorter(text: string, limit: Limit)
    requires |Stripped(Split(BlankLine, text))| == 1
    requires var sentences := Stripped(Split(SentenceEnd, Stripped(Split(BlankLine, text))[0]));
      |sentences| >= 2 && AllWithin(sentences, limit)
    ensures var sentences := Stripped(Split(SentenceEnd, Stripped(Split(BlankLine, text))[0]));
      |Chunks(text, limit)| == 1 <==> |Join(sentences, " ")| < limit
  {
    hide Stripped, Split, Strip, Join, Pack, AllWithin;
    var paragraph := Stripped(Split(BlankLine, text))[0];
    ParagraphMeansInk(text, paragraph);
    SentencesRepacked(Stripped(Split(SentenceEnd, paragraph)), limit);
  }

  /** It fails: four characters in a chunk of four, and yet two chunks. */
  lemma FittingParagraphIsSplit()
    ensures |"A. B"| <= 4 && Chunks("A. B", 4) == ["A.", "B"]
  {
    ShortSplits();
    hide Split, Stripped, Strip;
    assert Units("A. B", 4) == SplitOversized("A. B", 4);
    TwoPieces(Sentences, 4);
    TwoPieces(Paragraphs, 4);
  }

  lemma ShortSplits()
    ensures Strip("A. B") == "A. B"
    ensures Stripped(Split(BlankLine, "A. B")) == ["A. B"] && Stripped(Split(SentenceEnd, "A. B")) == ["A.", "B"]
  {
    var s := "A. B";
    assert forall i | 0 <= i < 4 :: MatchEnd(BlankLine, s, i) == i;
    assert SplitFrom(BlankLine, s, 0, 4) == [s[0..]] == [s];
    assert SplitFrom(BlankLine, s, 0, 2) == SplitFrom(BlankLine, s, 0, 3) == [s];
    assert Split(BlankLine, s) == SplitFrom(BlankLine, s, 0, 1) == [s];
    StrippedOfOne(s);
    assert RunEnd(s, 3) == 3 && RunEnd(s, 2) == 3;
    assert MatchEnd(SentenceEnd, s, 0) == 0 && MatchEnd(SentenceEnd, s, 1) == 1 && MatchEnd(SentenceEnd, s, 2) == 3;
    assert SplitFrom(SentenceEnd, s, 3, 4) == [s[3..]] == ["B"];
    assert SplitFrom(SentenceEnd, s, 3, 3) == ["B"];
    assert s[0..2] == "A." && ["A."] + ["B"] == ["A.", "B"];
    assert SplitFrom(SentenceEnd, s, 0, 2) == [s[0..2]] + SplitFrom(SentenceEnd, s, 3, 3) == ["A.", "B"];
    assert Split(SentenceEnd, s) == SplitFrom(SentenceEnd, s, 0, 1) == ["A.", "B"];
    assert ["A.", "B"][1..] == ["B"];
    StrippedOfOne("B");
    assert Strip("A.") == "A.";
  }

  lemma StrippedOfOne(part: string)
    ensures Stripped([part]) == if Strip(part) == [] then [] else [Strip(part)]
  {
    assert [part][1..] == [] && Stripped([part][1..]) == [];
  }

  lemma TwoPieces(level: Level, limit: Limit)
    requires limit == 4
    ensures Pack(level, ["A.", "B"], [], 0, limit) == ["A.", "B"]
  {
  }

  lemma ParagraphMeansInk(text: string, paragraph: string)
    requires paragraph in Stripped(Split(BlankLine, text))
    ensures Strip(text) != []
  {
    hide Split, Stripped, Concat, Strip;
    StripKeepsInk(text);
    SplitKeepsInk(BlankLine, text);
    StrippedKeepsInk(Split(BlankLine, text));
    StrippedIsInked(Split(BlankLine, text));
    InkIn(Stripped(Split(BlankLine, text)), paragraph);
  }

  /** Sentences packed once, and the pieces packed again as if they were paragraphs. */
  lemma SentencesRepacked(sentences: seq<string>, limit: Limit)
    requires |sentences| >= 2 && AllWithin(sentences, limit)
    ensures var pieces := Pack(Sentences, sentences, [], 0, limit);
      && pieces != []
      && (|Pack(Paragraphs, pieces, [], 0, limit)| == 1 <==> |Join(sentences, " ")| < limit)
  {
    hide Join, Pack;
    var pieces := Pack(Sentences, sentences, [], 0, limit);
    JoinWeighs(sentences, " ");
    PackKeepsWeight(Sentences, sentences, [], limit);
    PackRespectsLimit(Sentences, sentences, [], 0, limit);
    OnePieceFromNothing(Sentences, sentences, limit);
    OnePieceFromNothing(Paragraphs, pieces, limit);
    MoreGlueWeighsMore(pieces);
  }

  lemma OnePieceFromNothing(level: Level, units: seq<string>, limit: Limit)
    requires AllWithin(units, limit) && units != []
    ensures |Pack(level, units, [], 0, limit)| == 1 <==> |units| == 1 || Weight(units, |Glue(level)|) <= limit
  {
    assert [] + [units[0]] == [units[0]];
    assert Weight([units[0]], |Glue(level)|) == |units[0]| + |Glue(level)| + Weight([], |Glue(level)|);
    OnePieceIfLight(level, units[1..], [units[0]], limit);
  }

  lemma {:induction false} MoreGlueWeighsMore(parts: seq<string>)
    ensures Weight(parts, 1) <= Weight(parts, 2)
  {
    if parts != [] { MoreGlueWeighsMore(parts[1..]); }
  }

  // -------------------------------------------------------------- the loops

  /** One turn of the packing loop, with the pieces finished so far in front. */
  lemma PackTurn(level: Level, units: seq<string>, i: nat, done: seq<string>, current: seq<string>, len: nat, limit: Limit)
    requires i < |units|
    ensures var more := |units[i]| + |Glue(level)|;
      var flushed := if current == [] then done else done + [Join(current, Glue(level))];
      done + Pack(level, units[i..], current, len, limit) ==
      if |units[i]| > limit then flushed + Break(level, units[i], limit) + Pack(level, units[i + 1..], [], 0, limit)
      else if current != [] && len + more > limit then flushed + Pack(level, units[i + 1..], [units[i]], more, limit)
      else done + Pack(level, units[i + 1..], current + [units[i]], len + more, limit)
  {
    hide Break, Glue, Join;
    assert units[i..][0] == units[i] && units[i..][1..] == units[i + 1..];
    assert done + [] == done;
  }

  lemma PackEnds(level: Level, current: seq<string>, len: nat, limit: Limit)
    ensures Pack(level, [], current, len, limit) == if current == [] then [] else [Join(current, Glue(level))]
  {
  }

  method SplitOversizedLoop(text: string, targetChars: Limit) returns (pieces: seq<string>)
    ensures pieces == SplitOversized(text, targetChars)
  {
    hide Stripped, Split, Pack, Join;
    var sentences := Stripped(Split(SentenceEnd, text));
    pieces := [];
    var current: seq<string>, currentLen: nat := [], 0;
    for i := 0 to |sentences|
      invariant current == [] ==> currentLen == 0
      invariant Pack(Sentences, sentences, [], 0, targetChars) ==
                pieces + Pack(Sentences, sentences[i..], current, currentLen, targetChars)
    {
      var sentence := sentences[i];
      PackTurn(Sentences, sentences, i, pieces, current, currentLen, targetChars);
      if |sentence| > targetChars {
        if current != [] {
          pieces := pieces + [Join(current, " ")];
          current, currentLen := [], 0;
        }
        var slices := SliceLoop(sentence, targetChars);
        pieces := pieces + slices;
        continue;
      }
      if current != [] && currentLen + |sentence| + 1 > targetChars {
        pieces := pieces + [Join(current, " ")];
        current, currentLen := [], 0;
      }
      assert [] + [sentence] == [sentence];
      current := current + [sentence];
      currentLen := currentLen + |sentence| + 1;
    }
    assert sentences[|sentences|..] == [] && pieces + [] == pieces;
    PackEnds(Sentences, current, currentLen, targetChars);
    if current != [] {
      pieces := pieces + [Join(current, " ")];
    }
    if pieces == [] {
      pieces := [if |text| <= targetChars then text else text[..targetChars]];
    }
  }

  method ChunkTranscript(text: string, targetTokens: int) returns (chunks: seq<string>)
    ensures chunks == Chunks(text, if targetTokens < 1 then 1 else targetTokens * 4)
  {
    hide Stripped, Split, Strip, Pack, Join, SplitOversized;
    if Strip(text) == [] {
      return [];
    }
    var targetChars: Limit := if targetTokens * CHARS_PER_TOKEN > 1 then targetTokens * CHARS_PER_TOKEN else 1;
    var units := Stripped(Split(BlankLine, text));
    if |units| == 1 {
      units := SplitOversizedLoop(units[0], targetChars);
    }
    chunks := [];
    var current: seq<string>, currentLen: nat := [], 0;
    for i := 0 to |units|
      invariant current == [] ==> currentLen == 0
      invariant Pack(Paragraphs, units, [], 0, targetChars) ==
                chunks + Pack(Paragraphs, units[i..], current, currentLen, targetChars)
    {
      var unit := units[i];
      PackTurn(Paragraphs, units, i, chunks, current, currentLen, targetChars);
      if |unit| > targetChars {
        if current != [] {
          chunks := chunks + [Join(current, "\n\n")];
          current, currentLen := [], 0;
        }
        var parts := SplitOversizedLoop(unit, targetChars);
        chunks := chunks + parts;
        continue;
      }
      if current != [] && currentLen + |unit| + 2 > targetChars {
        chunks := chunks + [Join(current, "\n\n")];
        current, currentLen := [], 0;
      }
      assert [] + [unit] == [unit];
      current := current + [unit];
      currentLen := currentLen + |unit| + 2;
    }
    assert units[|units|..] == [];
    PackEnds(Paragraphs, current, currentLen, targetChars);
    assert chunks + [] == chunks;
    if current != [] {
      chunks := chunks + [Join(current, "\n\n")];
    }
  }

  const CHARS_PER_TOKEN := 4
}
