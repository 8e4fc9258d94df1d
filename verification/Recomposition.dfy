/** The word page's render-time walk: stored transcription against already decided units. */
module Recomposition {
  import opened Wrappers
  import opened Inventory
  import opened Alignment
  import opened Tokenisation

  datatype Segment = Phoneme(symbol: string) | Mark(text: char)

  function MarkSegments(marks: string): seq<Segment> {
    seq(|marks|, i requires 0 <= i < |marks| => Mark(marks[i]))
  }

  /** The segments of an aligned transcription. */
  function Segments(symbols: seq<string>, marks: seq<string>): seq<Segment>
    requires |marks| == |symbols| + 1
  {
    if symbols == [] then MarkSegments(marks[0])
    else MarkSegments(marks[0]) + [Phoneme(symbols[0])] + Segments(symbols[1..], marks[1..])
  }

  function Compose(text: string, symbols: seq<string>): Option<seq<Segment>> {
    var aligned := Align(text, symbols, PermittedMarks);
    if text == "" || symbols == [] || aligned.None? then None else Some(Segments(symbols, aligned.value))
  }

  function TextOf(segments: seq<Segment>): string {
    if segments == [] then ""
    else (match segments[0] case Phoneme(s) => s case Mark(c) => [c]) + TextOf(segments[1..])
  }

  function PhonemesOf(segments: seq<Segment>): seq<string> {
    if segments == [] then []
    else (match segments[0] case Phoneme(s) => [s] case Mark(_) => []) + PhonemesOf(segments[1..])
  }

  /** One step of the walk, seen from the segments: a mark in front. */
  lemma MarkInFront(c: char, symbols: seq<string>, marks: seq<string>)
    requires |marks| == |symbols| + 1
    ensures Segments(symbols, MarkFront(c, marks)) == [Mark(c)] + Segments(symbols, marks)
  {
    assert MarkFront(c, marks)[1..] == marks[1..];
    assert MarkSegments([c] + marks[0]) == [Mark(c)] + MarkSegments(marks[0]);
  }

  lemma UnitInFront(symbols: seq<string>, marks: seq<string>)
    requires symbols != [] && |marks| == |symbols|
    ensures Segments(symbols, [""] + marks) == [Phoneme(symbols[0])] + Segments(symbols[1..], marks)
  {
    assert ([""] + marks)[1..] == marks;
    assert MarkSegments("") == [];
  }

  /** What the walk still has to produce from `cursor` and `next` on. */
  function Remaining(text: string, symbols: seq<string>): Option<seq<Segment>> {
    var aligned := Align(text, symbols, PermittedMarks);
    if aligned.None? then None else Some(Segments(symbols, aligned.value))
  }

  lemma RemainingStep(text: string, symbols: seq<string>)
    requires text != ""
    ensures Remaining(text, symbols) ==
            if symbols != [] && symbols[0] <= text then
              Prepend([Phoneme(symbols[0])], Remaining(text[|symbols[0]|..], symbols[1..]))
            else if IsPermittedMark(text[0]) then Prepend([Mark(text[0])], Remaining(text[1..], symbols))
            else None
  {
    if symbols != [] && symbols[0] <= text {
      var rest := Align(text[|symbols[0]|..], symbols[1..], PermittedMarks);
      if rest.Some? {
        UnitInFront(symbols, rest.value);
      }
    } else if IsPermittedMark(text[0]) {
      var rest := Align(text[1..], symbols, PermittedMarks);
      if rest.Some? {
        MarkInFront(text[0], symbols, rest.value);
      }
    }
  }

  method ComposeTranscriptionSegments(text: string, symbols: seq<string>) returns (result: Option<seq<Segment>>)
    requires AllSymbols(symbols)
    ensures result == Compose(text, symbols)
  {
    if text == "" || symbols == [] {
      return None;
    }
    var segments: seq<Segment> := [];
    var cursor, next := 0, 0;
    PrependAssociates([], [], Remaining(text, symbols));
    assert text[0..] == text && symbols[0..] == symbols;
    while cursor < |text|
      invariant cursor <= |text| && next <= |symbols|
      invariant Remaining(text, symbols) == Prepend(segments, Remaining(text[cursor..], symbols[next..]))
      decreases |text| - cursor
    {
      ghost var suffix, left := text[cursor..], symbols[next..];
      RemainingStep(suffix, left);
      if next < |symbols| && symbols[next] <= text[cursor..] {
        assert IsSymbol(symbols[next]);
        assert suffix[|symbols[next]|..] == text[cursor + |symbols[next]|..] && left[1..] == symbols[next + 1..];
        PrependAssociates(segments, [Phoneme(symbols[next])], Remaining(suffix[|symbols[next]|..], left[1..]));
        segments := segments + [Phoneme(symbols[next])];
        cursor := cursor + |symbols[next]|;
        next := next + 1;
        continue;
      }
      if IsPermittedMark(text[cursor]) {
        assert suffix[1..] == text[cursor + 1..];
        PrependAssociates(segments, [Mark(text[cursor])], Remaining(suffix[1..], left));
        segments := segments + [Mark(text[cursor])];
        cursor := cursor + 1;
        continue;
      }
      return None;
    }
    assert text[cursor..] == "";
    assert next == |symbols| ==> symbols[next..] == [] && Segments([], [""]) == [] && segments + [] == segments;
    return if next == |symbols| then Some(segments) else None;
  }

  lemma {:induction false} TextOfMarks(marks: string, rest: seq<Segment>)
    ensures TextOf(MarkSegments(marks) + rest) == marks + TextOf(rest)
    ensures PhonemesOf(MarkSegments(marks) + rest) == PhonemesOf(rest)
  {
    if marks == "" {
      assert MarkSegments(marks) + rest == rest;
    } else {
      TextOfMarks(marks[1..], rest);
      var segments := MarkSegments(marks) + rest;
      assert segments[1..] == MarkSegments(marks[1..]) + rest && segments[0] == Mark(marks[0]);
      assert TextOf(segments) == [marks[0]] + TextOf(segments[1..]);
      assert PhonemesOf(segments) == [] + PhonemesOf(segments[1..]);
      Regroup([marks[0]], marks[1..], TextOf(rest));
      assert [marks[0]] + marks[1..] == marks;
    }
  }

  lemma {:induction false} SegmentsSpellTheText(symbols: seq<string>, marks: seq<string>)
    requires |marks| == |symbols| + 1
    ensures TextOf(Segments(symbols, marks)) == Render(symbols, marks)
    ensures PhonemesOf(Segments(symbols, marks)) == symbols
  {
    if symbols == [] {
      TextOfMarks(marks[0], []);
      assert MarkSegments(marks[0]) + [] == MarkSegments(marks[0]);
    } else {
      var rest := Segments(symbols[1..], marks[1..]);
      SegmentsSpellTheText(symbols[1..], marks[1..]);
      TextOfMarks(marks[0], [Phoneme(symbols[0])] + rest);
      assert MarkSegments(marks[0]) + [Phoneme(symbols[0])] + rest == MarkSegments(marks[0]) + ([Phoneme(symbols[0])] + rest);
      assert ([Phoneme(symbols[0])] + rest)[1..] == rest;
    }
  }

  lemma {:induction false} SegmentsHoldOnlyMarks(symbols: seq<string>, marks: seq<string>, segment: Segment)
    requires |marks| == |symbols| + 1 && OnlyMarks(PermittedMarks, marks)
    requires segment in Segments(symbols, marks) && segment.Mark?
    ensures IsPermittedMark(segment.text)
  {
    if segment in MarkSegments(marks[0]) {
      var i :| 0 <= i < |marks[0]| && MarkSegments(marks[0])[i] == segment;
      assert IsMarkString(PermittedMarks, marks[0]);
    } else {
      SegmentsHoldOnlyMarks(symbols[1..], marks[1..], segment);
    }
  }

  /** Every composition spells the whole text, uses up every unit in order, and adds nothing but permitted marks. */
  lemma CompositionIsFaithful(text: string, symbols: seq<string>)
    requires Compose(text, symbols).Some?
    ensures var segments := Compose(text, symbols).value;
            TextOf(segments) == text && PhonemesOf(segments) == symbols &&
            forall s :: s in segments && s.Mark? ==> IsPermittedMark(s.text)
  {
    var marks := Align(text, symbols, PermittedMarks).value;
    AlignSound(text, symbols, PermittedMarks);
    SegmentsSpellTheText(symbols, marks);
    forall s | s in Segments(symbols, marks) && s.Mark? ensures IsPermittedMark(s.text) {
      SegmentsHoldOnlyMarks(symbols, marks, s);
    }
  }

  /** A tokenised form recomposes on its own units, except when it holds no unit at all: then nothing is composed. */
  lemma TokenisedFormsRecompose(form: string, inventory: Inventory)
    requires WellFormed(inventory) && Tokenise(form, inventory).Some?
    ensures var units := Tokenise(form, inventory).value;
            Compose(form, units).Some? <==> units != []
  {
    TokeniseIsMunch(form, inventory);
  }
}
