/** The written syllable breakdown: cutting a divided transcription into pieces, and deciding which division is stored. */
module Breakdown {
  import opened Wrappers
  import opened Inventory
  import opened Alignment
  import opened SourceProfile
  import opened Syllabification
  import opened Separators
  import opened SeparatorLaws
  import opened ProposedDivision

  const MIDDLE_DOT: char := '·'

  function Flush(current: string): seq<string> {
    if current == "" then [] else [current]
  }

  /** Cut at every `.`, and before every stress mark that does not already begin a piece. */
  function Pieces(current: string, text: string): seq<string>
    decreases |text|
  {
    if text == "" then Flush(current)
    else if text[0] == '.' then Flush(current) + Pieces("", text[1..])
    else if IsStressMark(text[0]) && current != "" then [current] + Pieces([text[0]], text[1..])
    else Pieces(current + [text[0]], text[1..])
  }

  predicate IsBlankText(s: string) {
    forall i :: 0 <= i < |s| ==> IsBlank(s[i])
  }

  function DropBlank(pieces: seq<string>): seq<string> {
    if pieces == [] then []
    else (if IsBlankText(pieces[0]) then [] else [pieces[0]]) + DropBlank(pieces[1..])
  }

  function JoinPieces(pieces: seq<string>): string {
    if pieces == [] then ""
    else if |pieces| == 1 then pieces[0]
    else pieces[0] + [MIDDLE_DOT] + JoinPieces(pieces[1..])
  }

  function DeriveBreakdown(ipa: string): string {
    JoinPieces(DropBlank(Pieces("", ipa)))
  }

  /** The pieces from `start` on; past the end there are none. */
  ghost function Uncut(ipa: string, start: nat): seq<string>
    requires start <= |ipa| + 1
  {
    if start > |ipa| then [] else Pieces("", ipa[start..])
  }

  /** One chunk between separators, character by character. */
  method CutChunk(ipa: string, start: nat, end: nat) returns (units: seq<string>)
    requires start <= end <= |ipa| && forall i :: start <= i < end ==> ipa[i] != '.'
    requires end == |ipa| || ipa[end] == '.'
    ensures Uncut(ipa, start) == units + Uncut(ipa, end + 1)
  {
    units := [];
    var current := "";
    NothingAdded(Pieces("", ipa[start..]));
    for i := start to end
      invariant Pieces("", ipa[start..]) == units + Pieces(current, ipa[i..])
    {
      assert ipa[i..][1..] == ipa[i + 1..];
      if IsStressMark(ipa[i]) && current != "" {
        Regroup(units, [current], Pieces([ipa[i]], ipa[i + 1..]));
        units := units + [current];
        current := [ipa[i]];
      } else {
        current := current + [ipa[i]];
      }
    }
    assert end < |ipa| ==> ipa[end..][1..] == ipa[end + 1..];
    assert end == |ipa| ==> ipa[end..] == "";
    Regroup(units, Flush(current), Uncut(ipa, end + 1));
    NothingAdded(units);
    NothingAdded(units + Flush(current));
    if current != "" {
      units := units + [current];
    }
  }

  method DeriveSyllableBreakdown(ipa: string) returns (breakdown: string)
    ensures breakdown == DeriveBreakdown(ipa)
  {
    var units: seq<string> := [];
    var start := 0;
    assert ipa[0..] == ipa;
    NothingAdded(Pieces("", ipa));
    while start <= |ipa|
      invariant 0 <= start <= |ipa| + 1
      invariant Pieces("", ipa) == units + Uncut(ipa, start)
      decreases |ipa| + 1 - start
    {
      var end := IndexOf(ipa, '.', start);
      var chunk := CutChunk(ipa, start, end);
      Regroup(units, chunk, Uncut(ipa, end + 1));
      units := units + chunk;
      start := end + 1;
    }
    NothingAdded(units);
    breakdown := JoinPieces(DropBlank(units));
  }

  // Pieces and the printer's spans

  function StripStress(s: string): string {
    if s == "" then "" else (if IsStressMark(s[0]) then "" else [s[0]]) + StripStress(s[1..])
  }

  function StripAll(pieces: seq<string>): (r: seq<string>)
    ensures |r| == |pieces|
  {
    seq(|pieces|, i requires 0 <= i < |pieces| => StripStress(pieces[i]))
  }

  /** The units between neighbouring boundaries, spelled out; `symbols[0]` is unit `k` and `current` the span begun before it. */
  function SpanTexts(current: string, symbols: seq<string>, k: nat, boundaries: set<nat>): seq<string>
    decreases |symbols|
  {
    if symbols == [] then [current]
    else if k > 0 && k in boundaries then [current] + SpanTexts(symbols[0], symbols[1..], k + 1, boundaries)
    else SpanTexts(current + symbols[0], symbols[1..], k + 1, boundaries)
  }

  /** How many stress marks directly follow another. */
  function ExtraMarks(marks: seq<string>): nat {
    if marks == [] then 0 else (if |marks[0]| > 0 then |marks[0]| - 1 else 0) + ExtraMarks(marks[1..])
  }

  lemma {:induction false} StripJoins(a: string, b: string)
    ensures StripStress(a + b) == StripStress(a) + StripStress(b)
  {
    if a == "" {
      assert a + b == b;
    } else {
      assert (a + b)[1..] == a[1..] + b;
      StripJoins(a[1..], b);
    }
  }

  lemma {:induction false} StripSymbol(s: string)
    requires forall i :: 0 <= i < |s| ==> !IsPermittedMark(s[i])
    ensures StripStress(s) == s
  {
    if s != "" {
      StripSymbol(s[1..]);
    }
  }

  lemma {:induction false} StripMarks(s: string)
    requires IsMarkString(StressOnly, s)
    ensures StripStress(s) == ""
  {
    if s != "" {
      assert Tolerates(StressOnly, s[0]);
      assert IsMarkString(StressOnly, s[1..]);
      StripMarks(s[1..]);
    }
  }

  lemma {:induction false} PiecesThroughSymbol(current: string, s: string, rest: string)
    requires forall i :: 0 <= i < |s| ==> !IsPermittedMark(s[i])
    ensures Pieces(current, s + rest) == Pieces(current + s, rest)
    decreases |s|
  {
    if s == "" {
      assert s + rest == rest && current + s == current;
    } else {
      assert (s + rest)[1..] == s[1..] + rest;
      PiecesThroughSymbol(current + [s[0]], s[1..], rest);
      assert current + [s[0]] + s[1..] == current + s;
    }
  }

  /** Every mark of a run but the last becomes a piece of its own. */
  lemma {:induction false} PiecesThroughMarks(current: string, m: string, rest: string)
    requires m != "" && IsMarkString(StressOnly, m)
    ensures exists lone: seq<string> :: |lone| == |m| - 1 &&
              Pieces(current, m + rest) == Flush(current) + (lone + Pieces([m[|m| - 1]], rest))
    decreases |m|
  {
    assert Tolerates(StressOnly, m[0]);
    assert (m + rest)[1..] == m[1..] + rest && (m + rest)[0] == m[0];
    assert "" + [m[0]] == [m[0]];
    NothingAdded(Pieces([m[0]], m[1..] + rest));
    assert Pieces(current, m + rest) == Flush(current) + Pieces([m[0]], m[1..] + rest);
    if |m| == 1 {
      assert m[1..] + rest == rest && m == [m[0]];
      NothingAdded(Pieces([m[0]], rest));
      var none: seq<string> := [];
      assert |none| == |m| - 1;
    } else {
      assert IsMarkString(StressOnly, m[1..]);
      PiecesThroughMarks([m[0]], m[1..], rest);
      var lone: seq<string> :| |lone| == |m| - 2 &&
        Pieces([m[0]], m[1..] + rest) == Flush([m[0]]) + (lone + Pieces([m[1..][|m| - 2]], rest));
      Regroup([[m[0]]], lone, Pieces([m[|m| - 1]], rest));
      assert |[[m[0]]] + lone| == |m| - 1;
    }
  }

  /** The state the cutter is in, and what the printer has still to write, agree on the pieces to come. */
  ghost predicate Agrees(pieces: seq<string>, spans: seq<string>, extra: nat) {
    |pieces| == |spans| + extra && (extra == 0 ==> StripAll(pieces) == spans)
  }

  /** `marks` and `separators` cut exactly at the boundaries, never both at one place, and nothing trails the last unit. */
  ghost predicate CutsAt(marks: seq<string>, k: nat, separators: set<nat>, boundaries: set<nat>) {
    marks != [] && marks[|marks| - 1] == "" && 0 !in separators &&
    forall i :: 0 <= i < |marks| - 1 ==>
      (k + i in separators ==> marks[i] == "") &&
      (k + i > 0 ==> (k + i in boundaries <==> k + i in separators || marks[i] != ""))
  }

  lemma AgreesAfterCut(current: string, pieces: seq<string>, spans: seq<string>, extra: nat, lone: seq<string>)
    requires current != "" && Agrees(pieces, spans, extra)
    ensures Agrees([current] + (lone + pieces), [StripStress(current)] + spans, extra + |lone|)
  {
    if extra + |lone| == 0 {
      assert lone == [] && lone + pieces == pieces;
      assert StripAll([current] + pieces) == [StripStress(current)] + StripAll(pieces);
    }
  }

  lemma {:induction false} PiecesAreSpans(current: string, symbols: seq<string>, marks: seq<string>, k: nat,
                                           separators: set<nat>, boundaries: set<nat>)
    requires AllSymbols(symbols) && |marks| == |symbols| + 1 && OnlyMarks(StressOnly, marks)
    requires CutsAt(marks, k, separators, boundaries)
    requires symbols == [] ==> k > 0
    requires if k == 0 then current == "" else StripStress(current) != ""
    ensures Agrees(Pieces(current, RenderSeparated(symbols, marks, k, separators)),
                   SpanTexts(StripStress(current), symbols, k, boundaries), ExtraMarks(marks))
    decreases |symbols|
  {
    if symbols == [] {
      assert marks[0] == "" && current != "";
      assert StripAll([current]) == [StripStress(current)];
      assert ExtraMarks(marks) == 0 + ExtraMarks([]);
    } else {
      PieceStep(current, symbols, marks, k, separators, boundaries);
    }
  }

  lemma {:induction false} PieceStep(current: string, symbols: seq<string>, marks: seq<string>, k: nat,
                                      separators: set<nat>, boundaries: set<nat>)
    requires symbols != []
    requires AllSymbols(symbols) && |marks| == |symbols| + 1 && OnlyMarks(StressOnly, marks)
    requires CutsAt(marks, k, separators, boundaries)
    requires if k == 0 then current == "" else StripStress(current) != ""
    ensures Agrees(Pieces(current, RenderSeparated(symbols, marks, k, separators)),
                   SpanTexts(StripStress(current), symbols, k, boundaries), ExtraMarks(marks))
    decreases |symbols|, 0
  {
    var s, m := symbols[0], marks[0];
    var tail := RenderSeparated(symbols[1..], marks[1..], k + 1, separators);
    // `begun` is the piece the symbol joins.
    var begun := if k in separators then "" else if m != "" then [m[|m| - 1]] else current;
    assert IsMarkString(StressOnly, m);
    CutsLater(marks, k, separators, boundaries);
    SeparatedHead(symbols, marks, k, separators);
    SymbolJoins(begun, s, tail);
    PiecesAreSpans(begun + s, symbols[1..], marks[1..], k + 1, separators, boundaries);
    var spans := SpanTexts(StripStress(begun) + s, symbols[1..], k + 1, boundaries);
    var extra := ExtraMarks(marks[1..]);
    assert k + 0 in separators ==> m == "";
    assert k > 0 ==> (k + 0 in boundaries <==> k in separators || m != "");
    if k in separators {
      assert StripStress(begun) + s == s;
      CutAtDot(current, s, tail, spans, extra);
    } else if m != "" {
      StripMarks(begun);
      assert StripStress(begun) + s == s && (k == 0 ==> StripStress(current) + s == s);
      NothingAdded(spans);
      CutAtMarks(current, m, s + tail, spans, extra, k > 0);
    }
  }

  /** What the printer writes up to and including one unit. */
  lemma SeparatedHead(symbols: seq<string>, marks: seq<string>, k: nat, separators: set<nat>)
    requires symbols != [] && |marks| == |symbols| + 1 && (k in separators ==> marks[0] == "")
    ensures var rest := symbols[0] + RenderSeparated(symbols[1..], marks[1..], k + 1, separators);
            RenderSeparated(symbols, marks, k, separators) ==
            if k in separators then "." + rest else if marks[0] != "" then marks[0] + rest else rest
  {
    var m, s, tail := marks[0], symbols[0], RenderSeparated(symbols[1..], marks[1..], k + 1, separators);
    var dot := if k in separators then "." else "";
    assert m + dot + s + tail == (m + dot) + (s + tail);
    assert m + "" == m && "" + dot == dot && "" + (s + tail) == s + tail;
  }

  lemma SymbolJoins(begun: string, s: string, tail: string)
    requires IsSymbol(s)
    ensures StripStress(begun + s) == StripStress(begun) + s && StripStress(begun + s) != ""
    ensures Pieces(begun, s + tail) == Pieces(begun + s, tail)
  {
    assert forall i :: 0 <= i < |s| ==> IsSymbolChar(s[i]);
    StripSymbol(s);
    StripJoins(begun, s);
    PiecesThroughSymbol(begun, s, tail);
  }

  lemma CutAtDot(current: string, s: string, tail: string, spans: seq<string>, extra: nat)
    requires current != "" && Agrees(Pieces("", s + tail), spans, extra)
    ensures Agrees(Pieces(current, "." + (s + tail)), [StripStress(current)] + spans, extra)
  {
    assert ("." + (s + tail))[1..] == s + tail;
    NothingAdded(Pieces("", s + tail));
    AgreesAfterCut(current, Pieces("", s + tail), spans, extra, []);
  }

  lemma CutAtMarks(current: string, m: string, rest: string, spans: seq<string>, extra: nat, cuts: bool)
    requires m != "" && IsMarkString(StressOnly, m) && (cuts <==> current != "")
    requires Agrees(Pieces([m[|m| - 1]], rest), spans, extra)
    ensures Agrees(Pieces(current, m + rest), (if cuts then [StripStress(current)] else []) + spans, extra + |m| - 1)
  {
    var pieces := Pieces([m[|m| - 1]], rest);
    PiecesThroughMarks(current, m, rest);
    var lone: seq<string> :| |lone| == |m| - 1 && Pieces(current, m + rest) == Flush(current) + (lone + pieces);
    if cuts {
      AgreesAfterCut(current, pieces, spans, extra, lone);
    } else {
      NothingAdded(lone + pieces);
      NothingAdded(spans);
      if |lone| == 0 {
        NothingAdded(pieces);
        assert lone == [];
      }
    }
  }

  lemma CutsLater(marks: seq<string>, k: nat, separators: set<nat>, boundaries: set<nat>)
    requires |marks| > 1 && CutsAt(marks, k, separators, boundaries)
    requires OnlyMarks(StressOnly, marks)
    ensures CutsAt(marks[1..], k + 1, separators, boundaries) && OnlyMarks(StressOnly, marks[1..])
  {
    var later := marks[1..];
    forall i | 0 <= i < |later| - 1
      ensures (k + 1 + i in separators ==> later[i] == "") &&
              (k + 1 + i > 0 ==> (k + 1 + i in boundaries <==> k + 1 + i in separators || later[i] != ""))
    {
      assert later[i] == marks[i + 1];
    }
  }

  // The theorem about a stored breakdown

  predicate AdjacentStress(text: string) {
    |text| >= 2 && ((IsStressMark(text[0]) && IsStressMark(text[1])) || AdjacentStress(text[1..]))
  }

  lemma {:induction false} AdjacentInside(a: string, b: string, c: string)
    requires AdjacentStress(b)
    ensures AdjacentStress(a + b + c)
    decreases |a|, |b|
  {
    var text := a + b + c;
    if a != "" {
      AdjacentInside(a[1..], b, c);
      assert text[1..] == a[1..] + b + c;
    } else if IsStressMark(b[0]) && IsStressMark(b[1]) {
      assert text[0] == b[0] && text[1] == b[1];
    } else {
      AdjacentInside("", b[1..], c);
      assert text[1..] == "" + b[1..] + c;
    }
  }

  lemma {:induction false} AdjacentInRun(m: string)
    requires IsMarkString(StressOnly, m)
    ensures AdjacentStress(m) <==> |m| > 1
  {
    assert |m| >= 2 ==> Tolerates(StressOnly, m[0]) && Tolerates(StressOnly, m[1]);
  }

  /** A text that opens with a symbol holds adjacent stress exactly when what follows the symbol does. */
  lemma {:induction false} AdjacentPastSymbol(s: string, rest: string)
    requires s != "" && forall i :: 0 <= i < |s| ==> !IsPermittedMark(s[i])
    ensures AdjacentStress(s + rest) <==> AdjacentStress(rest)
  {
    var text := s + rest;
    assert text[1..] == s[1..] + rest && text[0] == s[0];
    if |s| > 1 {
      AdjacentPastSymbol(s[1..], rest);
    } else {
      assert s[1..] + rest == rest;
    }
  }

  lemma {:induction false} ExtraMarksAreAdjacent(symbols: seq<string>, marks: seq<string>)
    requires AllSymbols(symbols) && |marks| == |symbols| + 1 && OnlyMarks(StressOnly, marks)
    ensures ExtraMarks(marks) == 0 <==> !AdjacentStress(Render(symbols, marks))
    decreases |symbols|
  {
    var m := marks[0];
    assert IsMarkString(StressOnly, m);
    AdjacentInRun(m);
    if symbols == [] {
      assert marks[1..] == [];
    } else {
      assert OnlyMarks(StressOnly, marks[1..]);
      ExtraMarksAreAdjacent(symbols[1..], marks[1..]);
      assert IsSymbol(symbols[0]) && forall i :: 0 <= i < |symbols[0]| ==> IsSymbolChar(symbols[0][i]);
      var rest := symbols[0] + Render(symbols[1..], marks[1..]);
      AdjacentPastSymbol(symbols[0], Render(symbols[1..], marks[1..]));
      assert Render(symbols, marks) == m + rest;
      if |m| > 1 {
        AdjacentInside("", m, rest);
        assert "" + m + rest == m + rest;
      } else if |m| == 1 {
        assert (m + rest)[1..] == rest && (m + rest)[1] == rest[0] == symbols[0][0];
      } else {
        assert m + rest == rest;
      }
    }
  }

  /**
   * For a transcription the printer divided, the pieces of the breakdown, stress marks removed, are the units between
   * the printer's boundaries, span by span, exactly when no two stress marks of the transcription are adjacent.
   */
  lemma BreakdownFollowsDivision(tables: Phonotactics, text: string, units: seq<Unit>)
    requires AllSymbols(Symbols(units)) && InsertSyllableMarks(tables, text, units).Some?
    ensures var stressed := StressOnsets(text, units).value;
            StripAll(Pieces("", InsertSyllableMarks(tables, text, units).value)) ==
              SpanTexts("", Symbols(units), 0, {0} + ToSet(Starts(tables, units, stressed)) + stressed)
            <==> !AdjacentStress(text)
  {
    var symbols := Symbols(units);
    var marks := Align(text, symbols, StressOnly).value;
    var stressed := StressOnsets(text, units).value;
    var starts := Starts(tables, units, stressed);
    AlignSound(text, symbols, StressOnly);
    InsertionSucceedsExactlyWhen(tables, text, units);
    PrinterCuts(units, marks, starts, stressed);
    PiecesAreSpans("", symbols, marks, 0, SeparatorIndices(starts, stressed), {0} + ToSet(starts) + stressed);
    ExtraMarksAreAdjacent(symbols, marks);
  }

  lemma PrinterCuts(units: seq<Unit>, marks: seq<string>, starts: seq<nat>, stressed: set<nat>)
    requires |marks| == |units| + 1 && stressed == MarkedIndices(marks, 0) && units != []
    requires StressFits(units, stressed)
    ensures CutsAt(marks, 0, SeparatorIndices(starts, stressed), {0} + ToSet(starts) + stressed)
  {
    forall i: nat | i < |marks|
      ensures i in stressed <==> i > 0 && marks[i] != ""
    {
      MarkedIndicesAre(marks, 0, i);
    }
    assert |units| !in stressed;
  }

  predicate BeginsVisibly(s: string) {
    s != "" && !IsBlank(s[0])
  }

  lemma {:induction false} SpansAreVisible(current: string, symbols: seq<string>, k: nat, boundaries: set<nat>)
    requires AllSymbols(symbols) && (BeginsVisibly(current) || (current == "" && k == 0 && symbols != []))
    ensures forall i :: 0 <= i < |SpanTexts(current, symbols, k, boundaries)| ==>
              BeginsVisibly(SpanTexts(current, symbols, k, boundaries)[i])
    decreases |symbols|
  {
    if symbols != [] {
      assert IsSymbol(symbols[0]) && IsSymbolChar(symbols[0][0]);
      SpansAreVisible(if k > 0 && k in boundaries then symbols[0] else current + symbols[0], symbols[1..], k + 1, boundaries);
    }
  }

  lemma {:induction false} VisibleUnderStress(s: string)
    requires BeginsVisibly(StripStress(s))
    ensures !IsBlankText(s)
  {
    assert !IsBlank(PRIMARY_STRESS) && !IsBlank(SECONDARY_STRESS);
  }

  lemma {:induction false} NothingIsBlank(pieces: seq<string>)
    requires forall i :: 0 <= i < |pieces| ==> !IsBlankText(pieces[i])
    ensures DropBlank(pieces) == pieces
  {
    if pieces != [] {
      NothingIsBlank(pieces[1..]);
    }
  }

  /** Without adjacent stress no piece is dropped: the stored breakdown is the pieces, joined. */
  lemma BreakdownKeepsEveryPiece(tables: Phonotactics, text: string, units: seq<Unit>)
    requires AllSymbols(Symbols(units)) && InsertSyllableMarks(tables, text, units).Some? && !AdjacentStress(text)
    ensures var divided := InsertSyllableMarks(tables, text, units).value;
            DeriveBreakdown(divided) == JoinPieces(Pieces("", divided))
  {
    BreakdownFollowsDivision(tables, text, units);
    var pieces := Pieces("", InsertSyllableMarks(tables, text, units).value);
    var stressed := StressOnsets(text, units).value;
    SpansAreVisible("", Symbols(units), 0, {0} + ToSet(Starts(tables, units, stressed)) + stressed);
    forall i | 0 <= i < |pieces| ensures !IsBlankText(pieces[i]) {
      assert StripAll(pieces)[i] == StripStress(pieces[i]);
      VisibleUnderStress(pieces[i]);
    }
    NothingIsBlank(pieces);
  }

  // Which division is stored

  datatype Review = Pending | AdoptReference | KeepAlgorithm | Ambiguous

  datatype Override = Override(reviewStatus: Review, proposed: Option<string>)

  datatype Source = FromSource | Curated | HeldDefect | FromOverride | OverrideRefused | OverrideUnreviewed | Inferred | Unchanged

  datatype Plan = Plan(source: Source, breakdown: string)

  predicate Reviewed(override: Override) {
    override.reviewStatus in {AdoptReference, KeepAlgorithm} && override.proposed.Some? && override.proposed.value != ""
  }

  /** The layer that decides when nothing was curated, and the breakdown it wants. */
  ghost function Target(tables: Phonotactics, text: string, derived: string, units: seq<Unit>,
                        override: Option<Override>, sourceDefect: bool): Plan
  {
    if sourceDefect then Plan(HeldDefect, derived)
    else if override.Some? then
      var marked := if Reviewed(override.value) then ApplyProposed(text, units, override.value.proposed.value) else None;
      if marked.Some? then Plan(FromOverride, DeriveBreakdown(marked.value))
      else Plan(if Reviewed(override.value) then OverrideRefused else OverrideUnreviewed, derived)
    else
      var marked := InsertSyllableMarks(tables, text, units);
      if marked.Some? then Plan(Inferred, DeriveBreakdown(marked.value)) else Plan(Unchanged, derived)
  }

  ghost function PlanFor(tables: Phonotactics, text: string, stored: string, derived: string, units: seq<Unit>,
                         override: Option<Override>, sourceDefect: bool): Plan
  {
    var target := Target(tables, text, derived, units, override, sourceDefect);
    if '.' in text then Plan(FromSource, stored)
    else if stored != derived && stored != target.breakdown then Plan(Curated, stored)
    else target
  }

  method PlanSyllableBreakdown(tables: Phonotactics, text: string, stored: string, derived: string, units: seq<Unit>,
                               override: Option<Override>, sourceDefect: bool) returns (plan: Plan)
    requires AllSymbols(Symbols(units))
    ensures plan == PlanFor(tables, text, stored, derived, units, override, sourceDefect)
  {
    if '.' in text {
      return Plan(FromSource, stored);
    }
    var source := Unchanged;
    var target := derived;
    if sourceDefect {
      source := HeldDefect;
    } else if override.Some? {
      var reviewed := Reviewed(override.value);
      var marked: Option<string> := None;
      if reviewed {
        marked := ApplyProposedDivision(text, units, override.value.proposed.value);
      }
      if marked.Some? {
        source := FromOverride;
        target := DeriveSyllableBreakdown(marked.value);
      } else {
        source := if reviewed then OverrideRefused else OverrideUnreviewed;
      }
    } else {
      var marked := InsertMarks(tables, text, units);
      if marked.Some? {
        source := Inferred;
        target := DeriveSyllableBreakdown(marked.value);
      }
    }
    if stored != derived && stored != target {
      return Plan(Curated, stored);
    }
    return Plan(source, target);
  }

  /** Planning again over what was planned gives the same plan, from the same layer; curation is never overwritten. */
  lemma PlanIsIdempotent(tables: Phonotactics, text: string, stored: string, derived: string, units: seq<Unit>,
                         override: Option<Override>, sourceDefect: bool)
    ensures var first := PlanFor(tables, text, stored, derived, units, override, sourceDefect);
            PlanFor(tables, text, first.breakdown, derived, units, override, sourceDefect) == first
  {
  }

  /** A reviewed row that keeps the algorithm's printed division stores what the algorithm alone would. */
  lemma KeptAlgorithmPlansTheSame(tables: Phonotactics, text: string, stored: string, derived: string, units: seq<Unit>)
    requires AllSymbols(Symbols(units)) && InsertSyllableMarks(tables, text, units).Some?
    ensures var printed := Marked(Symbols(units), Starts(tables, units, StressOnsets(text, units).value), 0);
            PlanFor(tables, text, stored, derived, units, Some(Override(KeepAlgorithm, Some(printed))), false).breakdown
            == PlanFor(tables, text, stored, derived, units, None, false).breakdown
  {
    var printed := Marked(Symbols(units), Starts(tables, units, StressOnsets(text, units).value), 0);
    KeepAlgorithmIsTheAlgorithm(tables, text, units);
    assert IsSymbol(Symbols(units)[0]);
    KeptTargetsTheSame(tables, text, derived, units, printed);
  }

  lemma KeptTargetsTheSame(tables: Phonotactics, text: string, derived: string, units: seq<Unit>, printed: string)
    requires InsertSyllableMarks(tables, text, units).Some? && printed != ""
    requires ApplyProposed(text, units, printed) == InsertSyllableMarks(tables, text, units)
    ensures Target(tables, text, derived, units, Some(Override(KeepAlgorithm, Some(printed))), false).breakdown
            == Target(tables, text, derived, units, None, false).breakdown
  {
  }
}
