/**
 `digest/narrate.py`: a digest script is cut into pieces a speech endpoint accepts. Unlike
 `Chunking` the pieces are built as one growing string, and only the final flush strips them.
 */
module Narration {
  import opened Wrappers
  import opened Text

  function Emit(current: string): seq<string> {
    if current == [] then [] else [current]
  }

  function EmitStripped(current: string): seq<string> {
    if Strip(current) == [] then [] else [Strip(current)]
  }

  function Glued(current: string, sep: string, part: string): string {
    if current == [] then part else current + sep + part
  }

  /** The sentence loop of `_split_piece`. */
  function Fill(sentences: seq<string>, current: string, limit: Limit): seq<string>
    decreases |sentences|
  {
    if sentences == [] then Emit(current)
    else
      var sentence := sentences[0];
      if |sentence| > limit then Emit(current) + Slices(sentence, limit) + Fill(sentences[1..], [], limit)
      else if current != [] && |current| + 1 + |sentence| > limit then [current] + Fill(sentences[1..], sentence, limit)
      else Fill(sentences[1..], Glued(current, " ", sentence), limit)
  }

  function SplitPiece(piece: string, limit: Limit): seq<string>
  {
    if |piece| <= limit then [piece] else Fill(Split(SentenceEnd, piece), [], limit)
  }

  /** Every part of every paragraph, in order. */
  function Parts(paragraphs: seq<string>, limit: Limit): seq<string>
    decreases |paragraphs|
  {
    if paragraphs == [] then []
    else (if Strip(paragraphs[0]) == [] then [] else SplitPiece(Strip(paragraphs[0]), limit)) + Parts(paragraphs[1..], limit)
  }

  /** The part loop of `chunk_script`. */
  function Gather(parts: seq<string>, current: string, limit: Limit): seq<string>
    decreases |parts|
  {
    if parts == [] then EmitStripped(current)
    else if current != [] && |current| + 2 + |parts[0]| > limit then EmitStripped(current) + Gather(parts[1..], parts[0], limit)
    else Gather(parts[1..], Glued(current, "\n\n", parts[0]), limit)
  }

  function Pieces(text: string, limit: Limit): seq<string>
  {
    Gather(Parts(Split(TwoNewlines, text), limit), [], limit)
  }

  // --------------------------------------------------------- lost and too long

  lemma EmitKeepsInk(current: string)
    ensures InkOf(Emit(current)) == Ink(current) == InkOf(EmitStripped(current))
  {
    StripKeepsInk(current);
    InkOfOne(current);
    InkOfOne(Strip(current));
  }

  lemma GluedKeepsInk(current: string, sep: string, part: string)
    requires Blank(sep)
    ensures Ink(Glued(current, sep, part)) == Ink(current) + Ink(part)
  {
    InkConcat(current + sep, part);
    InkConcat(current, sep);
    BlankHasNoInk(sep);
  }

  lemma {:induction false} FillKeepsInk(sentences: seq<string>, current: string, limit: Limit)
    ensures InkOf(Fill(sentences, current, limit)) == Ink(current) + InkOf(sentences)
    decreases |sentences|
  {
    hide Ink, Concat, Slices, Blank, Emit, Glued, InkOf;
    EmitKeepsInk(current);
    EmptyHasNoInk();
    NoInk();
    if sentences != [] {
      var sentence, rest := sentences[0], sentences[1..];
      HeadInk(sentences);
      if |sentence| > limit {
        FillKeepsInk(rest, [], limit);
        SlicesKeepInk(sentence, limit);
        InkOfAppend(Emit(current), Slices(sentence, limit));
        InkOfAppend(Emit(current) + Slices(sentence, limit), Fill(rest, [], limit));
      } else if current != [] && |current| + 1 + |sentence| > limit {
        FillKeepsInk(rest, sentence, limit);
        InkOfOne(current);
        InkOfAppend([current], Fill(rest, sentence, limit));
      } else {
        SpaceIsBlank();
        GluedKeepsInk(current, " ", sentence);
        FillKeepsInk(rest, Glued(current, " ", sentence), limit);
      }
    }
  }

  lemma NoInk()
    ensures Ink([]) == []
  {
  }

  lemma HeadInk(parts: seq<string>)
    requires parts != []
    ensures InkOf(parts) == Ink(parts[0]) + InkOf(parts[1..])
  {
    assert parts == [parts[0]] + parts[1..];
    InkOfAppend([parts[0]], parts[1..]);
    InkOfOne(parts[0]);
  }

  lemma SlicesKeepInk(s: string, size: Limit)
    ensures InkOf(Slices(s, size)) == Ink(s)
  {
    SlicesAreExact(s, size);
  }

  lemma {:induction false} FillRespectsLimit(sentences: seq<string>, current: string, limit: Limit)
    requires |current| <= limit
    ensures AllWithin(Fill(sentences, current, limit), limit)
    decreases |sentences|
  {
    hide Slices;
    if sentences != [] {
      var sentence, rest := sentences[0], sentences[1..];
      if |sentence| > limit {
        FillRespectsLimit(rest, [], limit);
        SlicesAreExact(sentence, limit);
      } else if current != [] && |current| + 1 + |sentence| > limit {
        FillRespectsLimit(rest, sentence, limit);
      } else {
        FillRespectsLimit(rest, Glued(current, " ", sentence), limit);
      }
    }
  }

  lemma SpaceIsBlank()
    ensures Blank(" ") && Blank("\n\n")
  {
  }

  lemma SplitPieceIsExact(piece: string, limit: Limit)
    ensures InkOf(SplitPiece(piece, limit)) == Ink(piece)
    ensures AllWithin(SplitPiece(piece, limit), limit)
  {
    hide Split, Fill;
    if |piece| <= limit {
      InkOfOne(piece);
    } else {
      SplitKeepsInk(SentenceEnd, piece);
      NoInk();
      FillKeepsInk(Split(SentenceEnd, piece), [], limit);
      FillRespectsLimit(Split(SentenceEnd, piece), [], limit);
    }
  }

  lemma {:induction false} PartsAreExact(paragraphs: seq<string>, limit: Limit)
    ensures InkOf(Parts(paragraphs, limit)) == InkOf(paragraphs)
    ensures AllWithin(Parts(paragraphs, limit), limit)
    decreases |paragraphs|
  {
    hide Ink, Concat, SplitPiece, Strip;
    EmptyHasNoInk();
    if paragraphs != [] {
      var piece := Strip(paragraphs[0]);
      StripKeepsInk(paragraphs[0]);
      assert paragraphs == [paragraphs[0]] + paragraphs[1..];
      InkOfAppend([paragraphs[0]], paragraphs[1..]);
      InkOfOne(paragraphs[0]);
      PartsAreExact(paragraphs[1..], limit);
      if piece == [] {
        EmitKeepsInk([]);
        InkOfOne([]);
        assert Ink(piece) == [];
        assert [] + Parts(paragraphs[1..], limit) == Parts(paragraphs[1..], limit);
      } else {
        SplitPieceIsExact(piece, limit);
        InkOfAppend(SplitPiece(piece, limit), Parts(paragraphs[1..], limit));
      }
    }
  }

  lemma {:induction false} GatherIsExact(parts: seq<string>, current: string, limit: Limit)
    requires |current| <= limit && AllWithin(parts, limit)
    ensures InkOf(Gather(parts, current, limit)) == Ink(current) + InkOf(parts)
    ensures AllWithin(Gather(parts, current, limit), limit)
    decreases |parts|
  {
    hide Ink, Concat, Strip, Blank;
    EmitKeepsInk(current);
    EmptyHasNoInk();
    StripKeepsInk(current);
    if parts != [] {
      var part, rest := parts[0], parts[1..];
      assert parts == [part] + rest;
      InkOfAppend([part], rest);
      InkOfOne(part);
      if current != [] && |current| + 2 + |part| > limit {
        GatherIsExact(rest, part, limit);
        InkOfAppend(EmitStripped(current), Gather(rest, part, limit));
      } else {
        SpaceIsBlank();
        GluedKeepsInk(current, "\n\n", part);
        GatherIsExact(rest, Glued(current, "\n\n", part), limit);
      }
    }
  }

  /**
   For every script and every positive cap: no piece exceeds the cap, and the pieces in
   order hold every non-whitespace character of the script, once and in order.
   */
  lemma {:induction false} GatheredBeginAndEndInInk(parts: seq<string>, current: string, limit: Limit)
    ensures forall piece | piece in Gather(parts, current, limit) ::
              piece != [] && !IsSpace(piece[0]) && !IsSpace(piece[|piece| - 1])
    decreases |parts|
  {
    hide Strip, IsSpace, Glued;
    StripEnds(current);
    if parts != [] {
      GatheredBeginAndEndInInk(parts[1..], parts[0], limit);
      GatheredBeginAndEndInInk(parts[1..], Glued(current, "\n\n", parts[0]), limit);
    }
  }

  /** Nothing silent is spoken: every piece holds something, and begins and ends with it. */
  lemma PiecesBeginAndEndInInk(text: string, limit: Limit)
    ensures forall piece | piece in Pieces(text, limit) ::
              piece != [] && !IsSpace(piece[0]) && !IsSpace(piece[|piece| - 1])
  {
    GatheredBeginAndEndInInk(Parts(Split(TwoNewlines, text), limit), [], limit);
  }

  lemma PiecesAreExact(text: string, limit: Limit)
    ensures AllWithin(Pieces(text, limit), limit)
    ensures InkOf(Pieces(text, limit)) == Ink(text)
  {
    hide Split, Parts, Gather;
    SplitKeepsInk(TwoNewlines, text);
    PartsAreExact(Split(TwoNewlines, text), limit);
    GatherIsExact(Parts(Split(TwoNewlines, text), limit), [], limit);
  }

  // -------------------------------------------------------- what is never split

  /** Begins and ends with something other than whitespace. */
  predicate Trim(s: string) {
    s != [] && !IsSpace(s[0]) && !IsSpace(s[|s| - 1])
  }

  lemma {:induction false} StripLeftKeepsWhole(unit: string, s: string, i: int)
    requires Trim(unit) && StandsAt(unit, s, i)
    ensures Within(unit, StripLeft(s))
    decreases |s|
  {
    if IsSpace(s[0]) {
      assert s[i..i + |unit|][0] == s[i];
      assert s[1..][i - 1..i - 1 + |unit|] == unit;
      StripLeftKeepsWhole(unit, s[1..], i - 1);
    }
  }

  lemma {:induction false} StripRightKeepsWhole(unit: string, s: string, i: int)
    requires Trim(unit) && StandsAt(unit, s, i)
    ensures Within(unit, StripRight(s))
    decreases |s|
  {
    if IsSpace(s[|s| - 1]) {
      assert s[i..i + |unit|][|unit| - 1] == s[i + |unit| - 1];
      assert s[..|s| - 1][i..i + |unit|] == unit;
      StripRightKeepsWhole(unit, s[..|s| - 1], i);
    }
  }

  lemma EmittedWhole(unit: string, current: string, rest: seq<string>)
    requires Trim(unit) && Within(unit, current)
    ensures KeptWhole(unit, EmitStripped(current)) && KeptWhole(unit, EmitStripped(current) + rest)
  {
    var i: nat :| i <= |current| && StandsAt(unit, current, i);
    StripLeftKeepsWhole(unit, current, i);
    var left := StripLeft(current);
    var k: nat :| k <= |left| && StandsAt(unit, left, k);
    StripRightKeepsWhole(unit, left, k);
    assert Strip(current) in EmitStripped(current) + rest;
  }

  lemma GluedWhole(unit: string, current: string, sep: string, part: string)
    ensures Within(unit, current) ==> Within(unit, Glued(current, sep, part))
    ensures unit == part ==> Within(unit, Glued(current, sep, part))
  {
    var whole := Glued(current, sep, part);
    if Within(unit, current) {
      var i: nat :| i <= |current| && StandsAt(unit, current, i);
      assert whole[i..i + |unit|] == current[i..i + |unit|];
      assert StandsAt(unit, whole, i);
    }
    if unit == part {
      assert StandsAt(unit, whole, |whole| - |part|);
    }
  }

  lemma {:induction false} GatherKeepsWhole(parts: seq<string>, current: string, limit: Limit, unit: string)
    requires Trim(unit) && (unit in parts || Within(unit, current))
    ensures KeptWhole(unit, Gather(parts, current, limit))
    decreases |parts|
  {
    hide Within, EmitStripped, Strip, Trim;
    if parts == [] {
      EmittedWhole(unit, current, []);
    } else {
      var part, rest := parts[0], parts[1..];
      if current != [] && |current| + 2 + |part| > limit {
        if Within(unit, current) {
          EmittedWhole(unit, current, Gather(rest, part, limit));
        } else {
          GluedWhole(unit, [], "\n\n", part);
          GatherKeepsWhole(rest, part, limit, unit);
          KeptInEither(unit, EmitStripped(current), Gather(rest, part, limit));
        }
      } else {
        GluedWhole(unit, current, "\n\n", part);
        GatherKeepsWhole(rest, Glued(current, "\n\n", part), limit, unit);
      }
    }
  }

  lemma {:induction false} PartsHoldFittingParagraphs(paragraphs: seq<string>, limit: Limit, paragraph: string)
    requires paragraph in Stripped(paragraphs) && |paragraph| <= limit
    ensures paragraph in Parts(paragraphs, limit) && Trim(paragraph)
    decreases |paragraphs|
  {
    var first := Strip(paragraphs[0]);
    if first == paragraph && first != [] {
      LeftEndIsInk(paragraphs[0]);
      StripRightEnds(StripLeft(paragraphs[0]));
    } else {
      PartsHoldFittingParagraphs(paragraphs[1..], limit, paragraph);
    }
  }

  lemma {:induction false} StripRightEnds(s: string)
    ensures StripRight(s) <= s && (StripRight(s) != [] ==> !IsSpace(StripRight(s)[|StripRight(s)| - 1]))
    decreases |s|
  {
    if s != [] && IsSpace(s[|s| - 1]) { StripRightEnds(s[..|s| - 1]); }
  }

  /** A paragraph within the cap is never cut: one piece holds it entire, whether or not it is the only one. */
  lemma ParagraphsAreSpokenWhole(text: string, limit: Limit, paragraph: string)
    requires paragraph in Stripped(Split(TwoNewlines, text)) && |paragraph| <= limit
    ensures KeptWhole(paragraph, Pieces(text, limit))
  {
    hide Split, Stripped, Parts, Gather, Trim;
    PartsHoldFittingParagraphs(Split(TwoNewlines, text), limit, paragraph);
    GatherKeepsWhole(Parts(Split(TwoNewlines, text), limit), [], limit, paragraph);
  }

  // ------------------------------------------------------------------ the loops

  lemma FillHead(sentences: seq<string>, current: string, limit: Limit)
    requires sentences != []
    ensures Fill(sentences, current, limit) ==
      if |sentences[0]| > limit then Emit(current) + Slices(sentences[0], limit) + Fill(sentences[1..], [], limit)
      else if current != [] && |current| + 1 + |sentences[0]| > limit then [current] + Fill(sentences[1..], sentences[0], limit)
      else Fill(sentences[1..], Glued(current, " ", sentences[0]), limit)
  {
    hide Emit, Slices, Glued;
  }

  /** One turn of the sentence loop, with the pieces finished so far in front. */
  lemma FillTurn(sentences: seq<string>, i: nat, done: seq<string>, current: string, limit: Limit)
    requires i < |sentences|
    ensures var flushed := if current == [] then done else done + [current];
      done + Fill(sentences[i..], current, limit) ==
      if |sentences[i]| > limit then flushed + Slices(sentences[i], limit) + Fill(sentences[i + 1..], [], limit)
      else if current != [] && |current| + 1 + |sentences[i]| > limit then flushed + Fill(sentences[i + 1..], sentences[i], limit)
      else done + Fill(sentences[i + 1..], Glued(current, " ", sentences[i]), limit)
  {
    hide Slices, Glued, Fill;
    FillHead(sentences[i..], current, limit);
    assert sentences[i..][0] == sentences[i] && sentences[i..][1..] == sentences[i + 1..];
    assert done + [] == done;
  }

  method SplitPieceLoop(piece: string, maxChars: Limit) returns (out: seq<string>)
    ensures out == SplitPiece(piece, maxChars)
  {
    hide Split;
    if |piece| <= maxChars {
      return [piece];
    }
    var sentences := Split(SentenceEnd, piece);
    out := [];
    var current := [];
    for i := 0 to |sentences|
      invariant Fill(sentences, [], maxChars) == out + Fill(sentences[i..], current, maxChars)
    {
      hide Fill;
      var sentence := sentences[i];
      FillTurn(sentences, i, out, current, maxChars);
      if |sentence| > maxChars {
        if current != [] {
          out := out + [current];
          current := [];
        }
        var slices := SliceLoop(sentence, maxChars);
        out := out + slices;
        continue;
      }
      if current != [] && |current| + 1 + |sentence| > maxChars {
        out := out + [current];
        current := sentence;
      } else {
        current := if current != [] then current + " " + sentence else sentence;
      }
    }
    assert out + [] == out;
    if current != [] {
      out := out + [current];
    }
  }

  /** One turn of the part loop. */
  lemma GatherTurn(parts: seq<string>, rest: seq<string>, j: nat, done: seq<string>, current: string, limit: Limit)
    requires j < |parts|
    ensures done + Gather(parts[j..] + rest, current, limit) ==
      if current != [] && |current| + 2 + |parts[j]| > limit
      then done + EmitStripped(current) + Gather(parts[j + 1..] + rest, parts[j], limit)
      else done + Gather(parts[j + 1..] + rest, Glued(current, "\n\n", parts[j]), limit)
  {
    hide EmitStripped, Glued;
    assert (parts[j..] + rest)[0] == parts[j] && (parts[j..] + rest)[1..] == parts[j + 1..] + rest;
  }

  lemma PartsTurn(paragraphs: seq<string>, i: nat, limit: Limit)
    requires i < |paragraphs|
    ensures Parts(paragraphs[i..], limit) ==
      (if Strip(paragraphs[i]) == [] then [] else SplitPiece(Strip(paragraphs[i]), limit)) + Parts(paragraphs[i + 1..], limit)
  {
    assert paragraphs[i..][1..] == paragraphs[i + 1..];
  }

  method Flush(chunks: seq<string>, current: string) returns (more: seq<string>)
    ensures more == chunks + EmitStripped(current)
  {
    more := chunks;
    if Strip(current) != [] {
      more := more + [Strip(current)];
    } else {
      assert chunks + [] == chunks;
    }
  }

  /** `None` stands for the `ValueError` raised on a cap that is not positive. */
  method ChunkScript(text: string, maxChars: int) returns (result: Option<seq<string>>)
    ensures result == if maxChars <= 0 then None else Some(Pieces(text, maxChars))
  {
    hide Split, Strip, SplitPiece, EmitStripped, Gather, Parts;
    if maxChars <= 0 {
      return None;
    }
    var chunks: seq<string>, current: string := [], [];
    var paragraphs := Split(TwoNewlines, text);
    ghost var whole := Parts(paragraphs, maxChars);
    assert paragraphs[0..] == paragraphs;
    for i := 0 to |paragraphs|
      invariant Gather(whole, [], maxChars) == chunks + Gather(Parts(paragraphs[i..], maxChars), current, maxChars)
    {
      PartsTurn(paragraphs, i, maxChars);
      ghost var rest := Parts(paragraphs[i + 1..], maxChars);
      var piece := Strip(paragraphs[i]);
      assert [] + rest == rest;
      if piece == [] {
        continue;
      }
      var parts := SplitPieceLoop(piece, maxChars);
      assert parts[0..] == parts;
      for j := 0 to |parts|
        invariant Gather(whole, [], maxChars) == chunks + Gather(parts[j..] + rest, current, maxChars)
      {
        var part := parts[j];
        GatherTurn(parts, rest, j, chunks, current, maxChars);
        if current != [] && |current| + 2 + |part| > maxChars {
          chunks := Flush(chunks, current);
          current := [];
        }
        current := if current != [] then current + "\n\n" + part else part;
      }
      assert parts[|parts|..] + rest == rest;
    }
    GatherEnds(paragraphs, current, maxChars);
    chunks := Flush(chunks, current);
    return Some(chunks);
  }

  lemma GatherEnds(paragraphs: seq<string>, current: string, limit: Limit)
    ensures Gather(Parts(paragraphs[|paragraphs|..], limit), current, limit) == EmitStripped(current)
  {
  }
}
