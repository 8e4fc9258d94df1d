/** What inserting separators keeps, and exactly when it inserts any. */
module SeparatorLaws {
  import opened Wrappers
  import opened Inventory
  import opened Alignment
  import opened Tokenisation
  import opened Syllabification
  import opened Separators

  function WithDots(marks: seq<string>, k: nat, separators: set<nat>): (r: seq<string>)
    ensures |r| == |marks|
  {
    seq(|marks|, i requires 0 <= i < |marks| =>
      if i < |marks| - 1 && k + i in separators then marks[i] + "." else marks[i])
  }

  lemma {:induction false} SeparatedIsRendered(symbols: seq<string>, marks: seq<string>, k: nat, separators: set<nat>)
    requires |marks| == |symbols| + 1
    ensures RenderSeparated(symbols, marks, k, separators) == Render(symbols, WithDots(marks, k, separators))
  {
    if symbols != [] {
      SeparatedIsRendered(symbols[1..], marks[1..], k + 1, separators);
      assert WithDots(marks, k, separators)[1..] == WithDots(marks[1..], k + 1, separators);
    }
  }

  function DropDots(text: string): string {
    if text == "" then "" else (if text[0] == '.' then "" else [text[0]]) + DropDots(text[1..])
  }

  lemma {:induction false} DropDotsJoins(a: string, b: string)
    ensures DropDots(a + b) == DropDots(a) + DropDots(b)
  {
    if a == "" {
      assert a + b == b;
    } else {
      assert (a + b)[1..] == a[1..] + b;
      DropDotsJoins(a[1..], b);
    }
  }

  lemma {:induction false} NoDots(text: string)
    requires '.' !in text
    ensures DropDots(text) == text
  {
    if text != "" {
      NoDots(text[1..]);
    }
  }

  lemma DropDotsFromPieces(mark: string, dot: string, symbol: string, rest: string)
    requires '.' !in mark && '.' !in symbol && (dot == "" || dot == ".")
    ensures DropDots(mark + dot + symbol + rest) == mark + symbol + DropDots(rest)
  {
    NoDots(mark);
    NoDots(symbol);
    DropDotsJoins(mark + dot + symbol, rest);
    DropDotsJoins(mark + dot, symbol);
    DropDotsJoins(mark, dot);
    assert mark + "" == mark;
  }

  lemma {:induction false} DropDotsFromSeparated(symbols: seq<string>, marks: seq<string>, k: nat, separators: set<nat>)
    requires AllSymbols(symbols) && |marks| == |symbols| + 1 && OnlyMarks(StressOnly, marks)
    ensures DropDots(RenderSeparated(symbols, marks, k, separators)) == Render(symbols, marks)
    decreases |symbols|
  {
    assert IsMarkString(StressOnly, marks[0]);
    if symbols == [] {
      NoDots(marks[0]);
    } else {
      assert '.' !in symbols[0] by { assert IsSymbol(symbols[0]); }
      DropDotsFromSeparated(symbols[1..], marks[1..], k + 1, separators);
      DropDotsFromPieces(marks[0], if k in separators then "." else "", symbols[0],
                         RenderSeparated(symbols[1..], marks[1..], k + 1, separators));
    }
  }

  /** Separator insertion is conservative: without its separators, the result is the stored transcription again. */
  lemma InsertionOnlyAddsSeparators(tables: Phonotactics, text: string, units: seq<Unit>)
    requires AllSymbols(Symbols(units)) && InsertSyllableMarks(tables, text, units).Some?
    ensures DropDots(InsertSyllableMarks(tables, text, units).value) == text
  {
    var symbols := Symbols(units);
    var marks := Align(text, symbols, StressOnly).value;
    AlignSound(text, symbols, StressOnly);
    DropDotsFromSeparated(symbols, marks, 0,
      SeparatorIndices(Starts(tables, units, StressOnsets(text, units).value), StressOnsets(text, units).value));
  }

  /** A written separator never changes what the tokeniser reads: the same longest-match units come back. */
  lemma InsertionKeepsUnits(tables: Phonotactics, text: string, units: seq<Unit>, inventory: Inventory)
    requires WellFormed(inventory) && Tokenise(text, inventory) == Some(Symbols(units))
    requires InsertSyllableMarks(tables, text, units).Some?
    ensures Tokenise(InsertSyllableMarks(tables, text, units).value, inventory) == Some(Symbols(units))
  {
    var symbols := Symbols(units);
    var marks := Align(text, symbols, StressOnly).value;
    var stressed := StressOnsets(text, units).value;
    AlignSound(text, symbols, StressOnly);
    DotsKeepUnits(symbols, marks, SeparatorIndices(Starts(tables, units, stressed), stressed), inventory);
  }

  lemma DotsKeepUnits(symbols: seq<string>, marks: seq<string>, separators: set<nat>, inventory: Inventory)
    requires WellFormed(inventory) && |marks| == |symbols| + 1 && OnlyMarks(StressOnly, marks)
    requires Tokenise(Render(symbols, marks), inventory) == Some(symbols)
    ensures Tokenise(RenderSeparated(symbols, marks, 0, separators), inventory) == Some(symbols)
  {
    TokeniseIsMunch(Render(symbols, marks), inventory);
    AlignRender(symbols, marks, PermittedMarks);
    SeparatedIsRendered(symbols, marks, 0, separators);
    var more := WithDots(marks, 0, separators);
    DotsAreMarks(marks, separators);
    MunchSurvivesMarks(symbols, marks, more, inventory);
    MunchIsTokenise(symbols, more, inventory);
  }

  lemma DotsAreMarks(marks: seq<string>, separators: set<nat>)
    requires OnlyMarks(StressOnly, marks)
    ensures OnlyMarks(PermittedMarks, marks) && OnlyMarks(PermittedMarks, WithDots(marks, 0, separators))
    ensures AddsMarks(marks, WithDots(marks, 0, separators))
  {
    forall i | 0 <= i < |marks|
      ensures IsMarkString(PermittedMarks, marks[i]) && IsMarkString(PermittedMarks, marks[i] + ".")
    {
      assert IsMarkString(StressOnly, marks[i]);
    }
  }

  // Exactly when separators are written

  /** The stress marks agree with a division: after the first nucleus, up to the last, one to a gap. */
  ghost predicate StressFits(units: seq<Unit>, stressed: set<nat>) {
    (forall s :: s in stressed ==> exists i, j :: 0 <= i < s <= j < |units| && IsNucleus(units[i]) && IsNucleus(units[j])) &&
    forall a: nat, b: nat, s: nat, t: nat :: Gap(units, a, b) && s in stressed && t in stressed && a < s <= b && a < t <= b ==> s == t
  }

  ghost predicate SomeGapOpens(tables: Phonotactics, units: seq<Unit>, stressed: set<nat>) {
    exists a: nat, b: nat :: Gap(units, a, b) && LastStressed(stressed, a, b).None? && GapBoundary(tables, units, a, b, stressed).Some?
  }

  lemma InAGap(units: seq<Unit>, i: nat, s: nat, j: nat) returns (a: nat, b: nat)
    requires i < s <= j < |units| && IsNucleus(units[i]) && IsNucleus(units[j])
    ensures Gap(units, a, b) && a < s <= b
  {
    b := NextNucleus(units, s);
    NextNucleusIsNext(units, s);
    a := s - 1;
    while !IsNucleus(units[a])
      invariant i <= a < s
      invariant forall k :: a < k < b ==> !IsNucleus(units[k])
      decreases a
    {
      a := a - 1;
    }
  }

  lemma StressIsTheStart(tables: Phonotactics, units: seq<Unit>, stressed: set<nat>, a: nat, b: nat, s: nat)
    requires StressFits(units, stressed) && Gap(units, a, b) && a < s <= b && s in stressed
    ensures GapBoundary(tables, units, a, b, stressed) == Some(s)
  {
    LastStressedIsLast(stressed, a, b);
  }

  /** `c` is the boundary of the gap `(a, b]`. */
  ghost predicate Opens(tables: Phonotactics, units: seq<Unit>, stressed: set<nat>, a: nat, b: nat, c: nat) {
    Gap(units, a, b) && GapBoundary(tables, units, a, b, stressed) == Some(c)
  }

  lemma BoundaryOpensAGap(tables: Phonotactics, units: seq<Unit>, stressed: set<nat>, c: nat) returns (a: nat, b: nat)
    requires units != [] && StressFits(units, stressed) && c > 0
    requires c in stressed || c in Starts(tables, units, stressed)
    ensures Opens(tables, units, stressed, a, b, c)
  {
    if c in stressed {
      var i, j :| 0 <= i < c <= j < |units| && IsNucleus(units[i]) && IsNucleus(units[j]);
      a, b := InAGap(units, i, c, j);
      StressIsTheStart(tables, units, stressed, a, b, c);
    } else {
      DivisionLaw(tables, units, stressed);
      a, b :| Gap(units, a, b) && GapBoundary(tables, units, a, b, stressed) == Some(c);
    }
  }

  /** Fitting stress leaves exactly one boundary in every divided gap, so every span keeps its own nucleus. */
  lemma FittingStressSpans(tables: Phonotactics, units: seq<Unit>, stressed: set<nat>)
    requires units != [] && StressFits(units, stressed) && exists i :: 0 <= i < |units| && IsNucleus(units[i])
    ensures EverySpanNucleated(units, {0} + ToSet(Starts(tables, units, stressed)) + stressed)
  {
    var all := {0} + ToSet(Starts(tables, units, stressed)) + stressed;
    forall c | c in all ensures SpanNucleated(units, all, c) {
      var end := SpanLeadsTo(tables, units, stressed, c);
      forall d | d in all ensures !(c < d <= end) {
        NothingBetween(tables, units, stressed, c, end, d);
      }
    }
  }

  /** The first nucleus from a boundary on. */
  lemma SpanLeadsTo(tables: Phonotactics, units: seq<Unit>, stressed: set<nat>, c: nat) returns (end: nat)
    requires units != [] && StressFits(units, stressed) && exists i :: 0 <= i < |units| && IsNucleus(units[i])
    requires c == 0 || c in stressed || c in Starts(tables, units, stressed)
    ensures c <= end < |units| && IsNucleus(units[end]) && LeadsTo(tables, units, stressed, c, end)
  {
    if c == 0 {
      end := NextNucleus(units, 0);
      NextNucleusIsNext(units, 0);
    } else {
      var a, b := BoundaryOpensAGap(tables, units, stressed, c);
      end := b;
    }
  }

  ghost predicate LeadsTo(tables: Phonotactics, units: seq<Unit>, stressed: set<nat>, c: nat, end: nat) {
    if c == 0 then forall k :: 0 <= k < end && k < |units| ==> !IsNucleus(units[k])
    else exists a :: Opens(tables, units, stressed, a, end, c)
  }

  /** Up to the nucleus a boundary leads to there is no second boundary. */
  lemma NothingBetween(tables: Phonotactics, units: seq<Unit>, stressed: set<nat>, c: nat, end: nat, d: nat)
    requires units != [] && StressFits(units, stressed)
    requires d == 0 || d in stressed || d in Starts(tables, units, stressed)
    requires LeadsTo(tables, units, stressed, c, end)
    ensures !(c < d <= end)
  {
    if d > 0 {
      var p, q := BoundaryOpensAGap(tables, units, stressed, d);
      OneBoundaryBefore(tables, units, stressed, c, end, d, p, q);
    }
  }

  lemma OneBoundaryBefore(tables: Phonotactics, units: seq<Unit>, stressed: set<nat>, c: nat, end: nat, d: nat, p: nat, q: nat)
    requires Opens(tables, units, stressed, p, q, d)
    requires LeadsTo(tables, units, stressed, c, end)
    ensures !(c < d <= end)
  {
    if c == 0 {
      assert IsNucleus(units[p]);
    } else {
      var a :| Opens(tables, units, stressed, a, end, c);
      if c < d <= end {
        GapsAreDisjoint(units, a, end, p, q, d);
      }
    }
  }

  /** A nucleus in the span that starts at `c`, with no boundary between. */
  lemma OwnNucleus(units: seq<Unit>, all: set<nat>, c: nat) returns (i: nat)
    requires EverySpanNucleated(units, all) && c in all
    ensures c <= i < |units| && IsNucleus(units[i]) && forall d :: d in all ==> !(c < d <= i)
  {
    assert SpanNucleated(units, all, c);
    i :| c <= i < |units| && IsNucleus(units[i]) && forall d :: d in all ==> !(c < d <= i);
  }

  lemma SpansFitStress(tables: Phonotactics, units: seq<Unit>, starts: seq<nat>, stressed: set<nat>)
    requires 0 !in stressed && EverySpanNucleated(units, {0} + ToSet(starts) + stressed)
    ensures StressFits(units, stressed)
  {
    var all := {0} + ToSet(starts) + stressed;
    var first := OwnNucleus(units, all, 0);
    forall s | s in stressed
      ensures exists i, j :: 0 <= i < s <= j < |units| && IsNucleus(units[i]) && IsNucleus(units[j])
    {
      var j := OwnNucleus(units, all, s);
      assert first < s;
    }
    forall a: nat, b: nat, s: nat, t: nat | Gap(units, a, b) && s in stressed && t in stressed && a < s <= b && a < t <= b
      ensures s == t
    {
      var i := OwnNucleus(units, all, if s < t then s else t);
    }
  }

  /**
   * Separators are written exactly when the marks align to the units, every stress onset lies after the first
   * nucleus and not after the last, no gap between neighbouring nuclei holds two onsets, and some gap without
   * stress yields a boundary.
   */
  lemma InsertionSucceedsExactlyWhen(tables: Phonotactics, text: string, units: seq<Unit>)
    requires AllSymbols(Symbols(units)) && units != [] && text != "" && '.' !in text
    ensures InsertSyllableMarks(tables, text, units).Some? <==>
            StressOnsets(text, units).Some? &&
            StressFits(units, StressOnsets(text, units).value) &&
            SomeGapOpens(tables, units, StressOnsets(text, units).value)
  {
    if StressOnsets(text, units).Some? {
      var stressed := StressOnsets(text, units).value;
      MarkedIndicesAre(Align(text, Symbols(units), StressOnly).value, 0, 0);
      WritableExactlyWhen(tables, units, stressed);
    }
  }

  lemma SeparatorsNeedAnOpenGap(tables: Phonotactics, units: seq<Unit>, stressed: set<nat>)
    requires units != [] && SeparatorIndices(Starts(tables, units, stressed), stressed) != {}
    ensures SomeGapOpens(tables, units, stressed)
  {
    DivisionLaw(tables, units, stressed);
    var k :| k in SeparatorIndices(Starts(tables, units, stressed), stressed);
    assert DividesSomeGap(tables, units, stressed, 0, k);
    var a: nat, b: nat :| Gap(units, a, b) && GapBoundary(tables, units, a, b, stressed) == Some(k);
    assert LastStressed(stressed, a, b).None?;
  }

  lemma OpenGapsGiveSeparators(tables: Phonotactics, units: seq<Unit>, stressed: set<nat>)
    requires units != [] && SomeGapOpens(tables, units, stressed)
    ensures SeparatorIndices(Starts(tables, units, stressed), stressed) != {}
    ensures exists i :: 0 <= i < |units| && IsNucleus(units[i])
  {
    var a: nat, b: nat :| Gap(units, a, b) && LastStressed(stressed, a, b).None? && GapBoundary(tables, units, a, b, stressed).Some?;
    var k := GapBoundary(tables, units, a, b, stressed).value;
    LastStressedIsLast(stressed, a, b);
    OneStartPerGap(tables, units, stressed, a, b);
    assert k in SeparatorIndices(Starts(tables, units, stressed), stressed);
    assert IsNucleus(units[a]);
  }

  lemma WritableExactlyWhen(tables: Phonotactics, units: seq<Unit>, stressed: set<nat>)
    requires units != [] && 0 !in stressed
    ensures var starts := Starts(tables, units, stressed);
            EverySpanNucleated(units, {0} + ToSet(starts) + stressed) && SeparatorIndices(starts, stressed) != {} <==>
            StressFits(units, stressed) && SomeGapOpens(tables, units, stressed)
  {
    var starts := Starts(tables, units, stressed);
    if EverySpanNucleated(units, {0} + ToSet(starts) + stressed) && SeparatorIndices(starts, stressed) != {} {
      SpansFitStress(tables, units, starts, stressed);
      SeparatorsNeedAnOpenGap(tables, units, stressed);
    }
    if StressFits(units, stressed) && SomeGapOpens(tables, units, stressed) {
      OpenGapsGiveSeparators(tables, units, stressed);
      FittingStressSpans(tables, units, stressed);
    }
  }
}
