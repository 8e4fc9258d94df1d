/** Locating stress, writing separators, and reading a reviewed division back. */
module Separators {
  import opened Wrappers
  import opened Inventory
  import opened Alignment
  import opened Syllabification

  // Stress onsets

  /** Unit indices past the first that some mark precedes; `marks[0]` precedes unit `k`. */
  function MarkedIndices(marks: seq<string>, k: nat): set<nat> {
    if marks == [] then {}
    else (if marks[0] != "" && k > 0 then {k} else {}) + MarkedIndices(marks[1..], k + 1)
  }

  lemma {:induction false} MarkedIndicesAre(marks: seq<string>, k: nat, i: nat)
    ensures i in MarkedIndices(marks, k) <==> k <= i < k + |marks| && i > 0 && marks[i - k] != ""
    decreases |marks|
  {
    if marks != [] {
      MarkedIndicesAre(marks[1..], k + 1, i);
    }
  }

  function OnsetsFrom(text: string, symbols: seq<string>, k: nat): Option<set<nat>> {
    match Align(text, symbols, StressOnly)
    case None => None
    case Some(marks) => Some(MarkedIndices(marks, k))
  }

  function StressOnsets(text: string, units: seq<Unit>): Option<set<nat>> {
    OnsetsFrom(text, Symbols(units), 0)
  }

  function Also(some: set<nat>, more: Option<set<nat>>): Option<set<nat>> {
    match more case None => None case Some(s) => Some(some + s)
  }

  lemma OnsetsStep(text: string, symbols: seq<string>, k: nat)
    requires text != ""
    ensures OnsetsFrom(text, symbols, k) ==
            if symbols != [] && symbols[0] <= text then OnsetsFrom(text[|symbols[0]|..], symbols[1..], k + 1)
            else if IsStressMark(text[0]) then Also(if k > 0 then {k} else {}, OnsetsFrom(text[1..], symbols, k))
            else None
  {
    if symbols != [] && symbols[0] <= text {
      var rest := Align(text[|symbols[0]|..], symbols[1..], StressOnly);
      if rest.Some? {
        assert ([""] + rest.value)[1..] == rest.value;
        assert {} + MarkedIndices(rest.value, k + 1) == MarkedIndices(rest.value, k + 1);
      }
    } else if IsStressMark(text[0]) {
      var rest := Align(text[1..], symbols, StressOnly);
      if rest.Some? {
        var marks := MarkFront(text[0], rest.value);
        assert marks[1..] == rest.value[1..];
        var here: set<nat> := if k > 0 then {k} else {};
        assert MarkedIndices(marks, k) == here + MarkedIndices(rest.value, k);
      }
    }
  }

  lemma AlsoAssociates(some: set<nat>, more: set<nat>, rest: Option<set<nat>>)
    ensures Also(some, Also(more, rest)) == Also(some + more, rest)
    ensures Also({}, rest) == rest
  {
    if rest.Some? {
      assert some + (more + rest.value) == (some + more) + rest.value;
      assert {} + rest.value == rest.value;
    }
  }

  /** What the walk has collected, with what is still ahead of it. */
  ghost function Passing(text: string, symbols: seq<string>, onsets: set<nat>, cursor: nat, next: nat): Option<set<nat>>
    requires cursor <= |text| && next <= |symbols|
  {
    Also(onsets, OnsetsFrom(text[cursor..], symbols[next..], next))
  }

  lemma UnitPassed(text: string, symbols: seq<string>, onsets: set<nat>, cursor: nat, next: nat)
    requires cursor < |text| && next < |symbols| && IsSymbol(symbols[next]) && symbols[next] <= text[cursor..]
    ensures Passing(text, symbols, onsets, cursor, next) ==
            Passing(text, symbols, onsets, cursor + |symbols[next]|, next + 1)
  {
    OnsetsStep(text[cursor..], symbols[next..], next);
    assert text[cursor..][|symbols[next]|..] == text[cursor + |symbols[next]|..];
    assert symbols[next..][1..] == symbols[next + 1..];
  }

  lemma StressPassed(text: string, symbols: seq<string>, onsets: set<nat>, cursor: nat, next: nat)
    requires cursor < |text| && next <= |symbols| && IsStressMark(text[cursor])
    requires next < |symbols| ==> !(symbols[next] <= text[cursor..])
    ensures Passing(text, symbols, onsets, cursor, next) ==
            Passing(text, symbols, if next > 0 then onsets + {next} else onsets, cursor + 1, next)
  {
    OnsetsStep(text[cursor..], symbols[next..], next);
    assert text[cursor..][1..] == text[cursor + 1..];
    AlsoAssociates(onsets, if next > 0 then {next} else {}, OnsetsFrom(text[cursor + 1..], symbols[next..], next));
    assert onsets + {} == onsets;
  }

  method SourceStressOnsets(text: string, units: seq<Unit>) returns (result: Option<set<nat>>)
    requires AllSymbols(Symbols(units))
    ensures result == StressOnsets(text, units)
  {
    ghost var symbols := Symbols(units);
    var onsets: set<nat> := {};
    var cursor, next := 0, 0;
    assert text[0..] == text && symbols[0..] == symbols;
    AlsoAssociates({}, {}, StressOnsets(text, units));
    while cursor < |text|
      invariant cursor <= |text| && next <= |units|
      invariant StressOnsets(text, units) == Passing(text, symbols, onsets, cursor, next)
      decreases |text| - cursor
    {
      if next < |units| && units[next].symbol <= text[cursor..] {
        assert IsSymbol(symbols[next]);
        UnitPassed(text, symbols, onsets, cursor, next);
        cursor := cursor + |units[next].symbol|;
        next := next + 1;
      } else if IsStressMark(text[cursor]) {
        StressPassed(text, symbols, onsets, cursor, next);
        if next > 0 {
          onsets := onsets + {next};
        }
        cursor := cursor + 1;
      } else {
        OnsetsStep(text[cursor..], symbols[next..], next);
        return None;
      }
    }
    assert text[cursor..] == "";
    assert next == |units| ==> symbols[next..] == [] && MarkedIndices([""], next) == {};
    return if next == |units| then Some(onsets) else None;
  }

  // Writing separators

  /** The transcription with `.` before each unit in `separators`; `marks[0]` precedes unit `k`. */
  function RenderSeparated(symbols: seq<string>, marks: seq<string>, k: nat, separators: set<nat>): string
    requires |marks| == |symbols| + 1
    decreases |symbols|
  {
    if symbols == [] then marks[0]
    else
      marks[0] + (if k in separators then "." else "") + symbols[0]
      + RenderSeparated(symbols[1..], marks[1..], k + 1, separators)
  }

  /** Every stretch between neighbouring boundaries holds a nucleus. */
  ghost predicate EverySpanNucleated(units: seq<Unit>, boundaries: set<nat>) {
    forall b :: b in boundaries ==> SpanNucleated(units, boundaries, b)
  }

  ghost predicate SpanNucleated(units: seq<Unit>, boundaries: set<nat>, b: nat) {
    exists i :: b <= i < |units| && IsNucleus(units[i]) && forall c :: c in boundaries ==> !(b < c <= i)
  }

  function ToSet(s: seq<nat>): set<nat> {
    set k | k in s
  }

  function SeparatorIndices(starts: seq<nat>, stressed: set<nat>): set<nat> {
    set k | k in starts && k > 0 && k !in stressed
  }

  ghost function WriteSeparators(text: string, units: seq<Unit>, starts: seq<nat>, stressed: set<nat>): Option<string>
    requires Align(text, Symbols(units), StressOnly).Some?
  {
    var separators := SeparatorIndices(starts, stressed);
    if !EverySpanNucleated(units, {0} + ToSet(starts) + stressed) || separators == {} then None
    else Some(RenderSeparated(Symbols(units), Align(text, Symbols(units), StressOnly).value, 0, separators))
  }

  ghost function InsertSyllableMarks(tables: Phonotactics, text: string, units: seq<Unit>): Option<string> {
    var stressed := StressOnsets(text, units);
    if text == "" || '.' in text || units == [] || stressed.None? then None
    else WriteSeparators(text, units, Starts(tables, units, stressed.value), stressed.value)
  }

  method HasNucleus(units: seq<Unit>, lo: nat, hi: nat) returns (found: bool)
    ensures found <==> exists i :: lo <= i < hi && i < |units| && IsNucleus(units[i])
  {
    found := false;
    var i := lo;
    while i < hi && i < |units|
      invariant lo <= i && (i == lo || i <= hi)
      invariant found <==> exists j :: lo <= j < i && j < |units| && IsNucleus(units[j])
      decreases |units| - i
    {
      if IsNucleus(units[i]) {
        found := true;
      }
      i := i + 1;
    }
  }

  /** The boundary set, deduplicated and sorted. */
  method SortBoundaries(boundaries: set<nat>, n: nat) returns (sorted: seq<nat>)
    requires forall b :: b in boundaries ==> b <= n
    ensures Ascending(sorted) && forall k :: k in sorted <==> k in boundaries
  {
    sorted := [];
    for i := 0 to n + 1
      invariant forall k :: k in sorted <==> k in boundaries && k < i
      invariant Ascending(sorted)
    {
      if i in boundaries {
        assert forall j :: 0 <= j < |sorted| ==> sorted[j] in sorted;
        sorted := sorted + [i];
      }
    }
  }

  /** Span by span: each must hold a nucleus. */
  method CheckSpans(units: seq<Unit>, boundaries: set<nat>) returns (ok: bool)
    requires forall b :: b in boundaries ==> b <= |units|
    ensures ok <==> EverySpanNucleated(units, boundaries)
  {
    var sorted := SortBoundaries(boundaries, |units|);
    for b := 0 to |sorted|
      invariant forall k :: 0 <= k < b ==> SpanNucleated(units, boundaries, sorted[k])
    {
      var end := if b + 1 < |sorted| then sorted[b + 1] else |units|;
      var found := HasNucleus(units, sorted[b], end);
      NextBoundary(units, boundaries, sorted, b);
      if !found {
        assert sorted[b] in sorted;
        return false;
      }
    }
    forall b | b in boundaries ensures SpanNucleated(units, boundaries, b) {
      assert b in sorted;
    }
    return true;
  }

  lemma NextBoundary(units: seq<Unit>, boundaries: set<nat>, sorted: seq<nat>, b: nat)
    requires b < |sorted| && Ascending(sorted) && forall k :: k in sorted <==> k in boundaries
    requires forall k :: k in boundaries ==> k <= |units|
    ensures var end := if b + 1 < |sorted| then sorted[b + 1] else |units|;
            SpanNucleated(units, boundaries, sorted[b]) <==> exists i :: sorted[b] <= i < end && i < |units| && IsNucleus(units[i])
  {
    var end := if b + 1 < |sorted| then sorted[b + 1] else |units|;
    if SpanNucleated(units, boundaries, sorted[b]) {
      var i :| sorted[b] <= i < |units| && IsNucleus(units[i]) && forall c :: c in boundaries ==> !(sorted[b] < c <= i);
      assert b + 1 < |sorted| ==> sorted[b + 1] in boundaries;
      assert i < end;
    }
    if exists i :: sorted[b] <= i < end && i < |units| && IsNucleus(units[i]) {
      var i :| sorted[b] <= i < end && i < |units| && IsNucleus(units[i]);
      forall c | c in boundaries ensures !(sorted[b] < c <= i) {
        var k :| 0 <= k < |sorted| && sorted[k] == c;
        assert k > b ==> k == b + 1 || sorted[b + 1] < sorted[k];
      }
    }
  }

  /** What the second walk still has to write from unit `k` on. */
  function Unwritten(text: string, symbols: seq<string>, k: nat, separators: set<nat>): Option<string> {
    match Align(text, symbols, StressOnly)
    case None => None
    case Some(marks) => Some(RenderSeparated(symbols, marks, k, separators))
  }

  lemma RenderStep(text: string, symbols: seq<string>, k: nat, separators: set<nat>)
    requires text != "" && Unwritten(text, symbols, k, separators).Some?
    ensures var consumes := symbols != [] && symbols[0] <= text;
            var rest := if consumes then Unwritten(text[|symbols[0]|..], symbols[1..], k + 1, separators)
                        else Unwritten(text[1..], symbols, k, separators);
            var written := if consumes then (if k in separators then "." else "") + symbols[0] else [text[0]];
            rest.Some? && Unwritten(text, symbols, k, separators).value == written + rest.value
  {
    if symbols != [] && symbols[0] <= text {
      var rest := Align(text[|symbols[0]|..], symbols[1..], StressOnly);
      assert ([""] + rest.value)[1..] == rest.value;
    } else {
      var rest := Align(text[1..], symbols, StressOnly);
      var marks := MarkFront(text[0], rest.value);
      assert marks[1..] == rest.value[1..];
    }
  }

  /** What is printed, followed by what is still to be written, is the whole. */
  ghost predicate Printed(text: string, symbols: seq<string>, separators: set<nat>, out: string, cursor: nat, next: nat)
    requires cursor <= |text| && next <= |symbols|
  {
    var rest := Unwritten(text[cursor..], symbols[next..], next, separators);
    rest.Some? && Unwritten(text, symbols, 0, separators) == Some(out + rest.value)
  }

  lemma NothingPrinted(text: string, symbols: seq<string>, separators: set<nat>)
    requires Unwritten(text, symbols, 0, separators).Some?
    ensures Printed(text, symbols, separators, "", 0, 0)
  {
    assert text[0..] == text && symbols[0..] == symbols;
    NothingAdded(Unwritten(text, symbols, 0, separators).value);
  }

  lemma UnitPrinted(text: string, symbols: seq<string>, separators: set<nat>, out: string, cursor: nat, next: nat)
    requires cursor < |text| && next < |symbols| && IsSymbol(symbols[next]) && symbols[next] <= text[cursor..]
    requires Printed(text, symbols, separators, out, cursor, next)
    ensures Printed(text, symbols, separators, (if next in separators then out + "." else out) + symbols[next],
                    cursor + |symbols[next]|, next + 1)
  {
    RenderStep(text[cursor..], symbols[next..], next, separators);
    assert text[cursor..][|symbols[next]|..] == text[cursor + |symbols[next]|..];
    assert symbols[next..][1..] == symbols[next + 1..];
    var dot := if next in separators then "." else "";
    var rest := Unwritten(text[cursor + |symbols[next]|..], symbols[next + 1..], next + 1, separators).value;
    Regroup(out, dot + symbols[next], rest);
    assert out + (dot + symbols[next]) == (if next in separators then out + "." else out) + symbols[next];
  }

  lemma MarkPrinted(text: string, symbols: seq<string>, separators: set<nat>, out: string, cursor: nat, next: nat)
    requires cursor < |text| && next <= |symbols| && (next < |symbols| ==> !(symbols[next] <= text[cursor..]))
    requires Printed(text, symbols, separators, out, cursor, next)
    ensures Printed(text, symbols, separators, out + [text[cursor]], cursor + 1, next)
  {
    RenderStep(text[cursor..], symbols[next..], next, separators);
    assert text[cursor..][1..] == text[cursor + 1..];
    Regroup(out, [text[cursor]], Unwritten(text[cursor + 1..], symbols[next..], next, separators).value);
  }

  lemma AllPrinted(text: string, symbols: seq<string>, separators: set<nat>, out: string, next: nat)
    requires next <= |symbols| && Printed(text, symbols, separators, out, |text|, next)
    ensures Unwritten(text, symbols, 0, separators) == Some(out)
  {
    assert text[|text|..] == "" && symbols[next..] == [];
    assert Unwritten("", [], next, separators) == Some("");
    NothingAdded(out);
  }

  /** The second walk: the same alignment, copying marks and writing separators before units. */
  method PrintSeparated(text: string, units: seq<Unit>, separators: set<nat>) returns (out: string)
    requires AllSymbols(Symbols(units)) && Align(text, Symbols(units), StressOnly).Some?
    ensures Some(out) == Unwritten(text, Symbols(units), 0, separators)
  {
    ghost var symbols := Symbols(units);
    out := "";
    var cursor, next := 0, 0;
    NothingPrinted(text, symbols, separators);
    while cursor < |text|
      invariant cursor <= |text| && next <= |units|
      invariant Printed(text, symbols, separators, out, cursor, next)
      decreases |text| - cursor
    {
      if next < |units| && units[next].symbol <= text[cursor..] {
        assert IsSymbol(symbols[next]);
        UnitPrinted(text, symbols, separators, out, cursor, next);
        if next in separators {
          out := out + ".";
        }
        out := out + units[next].symbol;
        cursor := cursor + |units[next].symbol|;
        next := next + 1;
      } else {
        MarkPrinted(text, symbols, separators, out, cursor, next);
        out := out + [text[cursor]];
        cursor := cursor + 1;
      }
    }
    AllPrinted(text, symbols, separators, out, next);
  }

  method WriteSeparatorsAt(text: string, units: seq<Unit>, starts: seq<nat>, stressed: set<nat>) returns (result: Option<string>)
    requires AllSymbols(Symbols(units)) && StressOnsets(text, units) == Some(stressed)
    requires forall k :: k in starts ==> k < |units|
    ensures result == WriteSeparators(text, units, starts, stressed)
  {
    forall b | b in {0} + ToSet(starts) + stressed ensures b <= |units| {
      if b in stressed {
        MarkedIndicesAre(Align(text, Symbols(units), StressOnly).value, 0, b);
      }
    }
    var ok := CheckSpans(units, {0} + ToSet(starts) + stressed);
    if !ok {
      return None;
    }
    var separators := SeparatorIndices(starts, stressed);
    if separators == {} {
      return None;
    }
    var out := PrintSeparated(text, units, separators);
    return Some(out);
  }

  method InsertMarks(tables: Phonotactics, text: string, units: seq<Unit>) returns (result: Option<string>)
    requires AllSymbols(Symbols(units))
    ensures result == InsertSyllableMarks(tables, text, units)
  {
    if text == "" || '.' in text || |units| == 0 {
      return None;
    }
    var stressed := SourceStressOnsets(text, units);
    if stressed.None? {
      return None;
    }
    var starts := Syllabify(tables, units, stressed.value);
    DivisionLaw(tables, units, stressed.value);
    result := WriteSeparatorsAt(text, units, starts, stressed.value);
  }
}
