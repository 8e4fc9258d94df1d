/**
 * One transcription walked against one ordered list of symbols.
 *
 * Four walkers of the program do this walk with their own loops: the tokeniser,
 * the stress locator, the separator writer and the word page's recomposer. Here
 * it is defined once: a transcription that aligns is the symbols interleaved with
 * the strings of marks between them.
 */
module Alignment {
  import opened Wrappers
  import opened Inventory

  /** Which marks a walker tolerates between symbols. */
  datatype Tolerance = StressOnly | PermittedMarks

  predicate Tolerates(tolerance: Tolerance, c: char) {
    match tolerance
    case StressOnly => IsStressMark(c)
    case PermittedMarks => IsPermittedMark(c)
  }

  /** `marks[i]` precedes symbol `i`; the last entry trails the last symbol. */
  function Render(symbols: seq<string>, marks: seq<string>): string
    requires |marks| == |symbols| + 1
  {
    if symbols == [] then marks[0]
    else marks[0] + symbols[0] + Render(symbols[1..], marks[1..])
  }

  predicate IsMarkString(tolerance: Tolerance, mark: string) {
    forall j :: 0 <= j < |mark| ==> Tolerates(tolerance, mark[j])
  }

  predicate OnlyMarks(tolerance: Tolerance, marks: seq<string>) {
    forall i :: 0 <= i < |marks| ==> IsMarkString(tolerance, marks[i])
  }

  /** One more mark in front of the first symbol. */
  function MarkFront(c: char, marks: seq<string>): (r: seq<string>)
    requires marks != []
    ensures |r| == |marks|
  {
    [[c] + marks[0]] + marks[1..]
  }

  /** The walk: a symbol prefix consumes the symbol, a tolerated mark is kept, anything else fails. */
  function Align(text: string, symbols: seq<string>, tolerance: Tolerance): (r: Option<seq<string>>)
    ensures r.Some? ==> |r.value| == |symbols| + 1
    decreases |text| + |symbols|
  {
    if text == "" then
      if symbols == [] then Some([""]) else None
    else if symbols != [] && symbols[0] <= text then
      var rest := Align(text[|symbols[0]|..], symbols[1..], tolerance);
      if rest.None? then None else Some([""] + rest.value)
    else if Tolerates(tolerance, text[0]) then
      var rest := Align(text[1..], symbols, tolerance);
      if rest.None? then None else Some(MarkFront(text[0], rest.value))
    else None
  }

  lemma RenderUnitFront(symbols: seq<string>, rest: seq<string>, tolerance: Tolerance)
    requires symbols != [] && |rest| == |symbols|
    ensures Render(symbols, [""] + rest) == symbols[0] + Render(symbols[1..], rest)
    ensures OnlyMarks(tolerance, rest) ==> OnlyMarks(tolerance, [""] + rest)
  {
    assert ([""] + rest)[1..] == rest;
    assert IsMarkString(tolerance, "");
  }

  lemma RenderMarkFront(c: char, symbols: seq<string>, marks: seq<string>, tolerance: Tolerance)
    requires |marks| == |symbols| + 1
    ensures Render(symbols, MarkFront(c, marks)) == [c] + Render(symbols, marks)
    ensures OnlyMarks(tolerance, marks) && Tolerates(tolerance, c) ==> OnlyMarks(tolerance, MarkFront(c, marks))
  {
    var longer := MarkFront(c, marks);
    assert longer[1..] == marks[1..];
    if OnlyMarks(tolerance, marks) && Tolerates(tolerance, c) {
      assert IsMarkString(tolerance, marks[0]);
      assert IsMarkString(tolerance, [c] + marks[0]);
      assert forall i :: 0 < i < |marks| ==> longer[i] == marks[i] && IsMarkString(tolerance, marks[i]);
    }
  }

  /** What the walk accepts, printed again, is the text it walked. */
  lemma {:induction false} AlignSound(text: string, symbols: seq<string>, tolerance: Tolerance)
    requires Align(text, symbols, tolerance).Some?
    ensures var marks := Align(text, symbols, tolerance).value;
            OnlyMarks(tolerance, marks) && Render(symbols, marks) == text
    decreases |text| + |symbols|
  {
    if text == "" {
      assert IsMarkString(tolerance, "");
    } else if symbols != [] && symbols[0] <= text {
      var rest := text[|symbols[0]|..];
      AlignSound(rest, symbols[1..], tolerance);
      RenderUnitFront(symbols, Align(rest, symbols[1..], tolerance).value, tolerance);
      assert symbols[0] + rest == text;
    } else {
      AlignSound(text[1..], symbols, tolerance);
      RenderMarkFront(text[0], symbols, Align(text[1..], symbols, tolerance).value, tolerance);
    }
  }

  /** A non-empty first mark, taken apart. */
  lemma TakeMark(marks: seq<string>, tolerance: Tolerance) returns (c: char, rest: seq<string>)
    requires marks != [] && marks[0] != ""
    ensures c == marks[0][0] && |rest| == |marks| && rest[0] == marks[0][1..] && rest[1..] == marks[1..]
    ensures marks == MarkFront(c, rest)
    ensures OnlyMarks(tolerance, marks) ==> OnlyMarks(tolerance, rest) && Tolerates(tolerance, c)
  {
    c, rest := marks[0][0], [marks[0][1..]] + marks[1..];
    assert [c] + rest[0] == marks[0];
    if OnlyMarks(tolerance, marks) {
      assert IsMarkString(tolerance, marks[0]);
      assert IsMarkString(tolerance, rest[0]);
      assert forall i :: 0 < i < |marks| ==> rest[i] == marks[i] && IsMarkString(tolerance, marks[i]);
    }
  }

  lemma SymbolIsNoMark(symbol: string, tolerance: Tolerance, text: string)
    requires IsSymbol(symbol) && text != "" && Tolerates(tolerance, text[0])
    ensures !(symbol <= text)
  {
    assert IsSymbolChar(symbol[0]);
  }

  /** Printing and walking are inverse: a rendered text aligns to exactly the marks it was rendered from. */
  lemma {:induction false} AlignRender(symbols: seq<string>, marks: seq<string>, tolerance: Tolerance)
    requires AllSymbols(symbols) && |marks| == |symbols| + 1 && OnlyMarks(tolerance, marks)
    ensures Align(Render(symbols, marks), symbols, tolerance) == Some(marks)
    decreases |symbols|, |marks[0]|
  {
    var text := Render(symbols, marks);
    if marks[0] != "" {
      var c, rest := TakeMark(marks, tolerance);
      RenderMarkFront(c, symbols, rest, tolerance);
      AlignRender(symbols, rest, tolerance);
      if symbols != [] {
        SymbolIsNoMark(symbols[0], tolerance, text);
      }
      assert text[1..] == Render(symbols, rest);
    } else if symbols != [] {
      var rest := marks[1..];
      AlignRender(symbols[1..], rest, tolerance);
      assert [""] + rest == marks;
      RenderUnitFront(symbols, rest, tolerance);
      assert IsSymbol(symbols[0]);
      assert text[|symbols[0]|..] == Render(symbols[1..], rest);
    } else {
      assert marks == [""];
    }
  }
}
