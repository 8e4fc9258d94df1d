/** The reviewed-division notation: its printer, its parser, and applying a proposal to a transcription. */
module ProposedDivision {
  import opened Wrappers
  import opened Inventory
  import opened Tokenisation
  import opened Syllabification
  import opened Separators
  import opened SeparatorLaws

  /** Unit symbols with `.` before every start past the first; `symbols[0]` is unit `k`. */
  function Marked(symbols: seq<string>, starts: seq<nat>, k: nat): string {
    if symbols == [] then ""
    else (if k in starts && k > 0 then "." else "") + symbols[0] + Marked(symbols[1..], starts, k + 1)
  }

  predicate Dotted(proposal: string, k: nat) {
    k > 0 && proposal != "" && proposal[0] == '.'
  }

  function AfterDot(proposal: string, k: nat): string {
    if Dotted(proposal, k) then proposal[1..] else proposal
  }

  function StartIf(dotted: bool, k: nat): seq<nat> {
    if dotted then [k] else []
  }

  /** The starts past the first that a proposal states, from unit `k` on; nothing when it spells other units. */
  function ParseFrom(symbols: seq<string>, proposal: string, k: nat): Option<seq<nat>> {
    if symbols == [] then if proposal == "" then Some([]) else None
    else if !(symbols[0] <= AfterDot(proposal, k)) then None
    else Prepend<nat>(StartIf(Dotted(proposal, k), k), ParseFrom(symbols[1..], AfterDot(proposal, k)[|symbols[0]|..], k + 1))
  }

  function ParseDivision(symbols: seq<string>, proposal: string): Option<seq<nat>> {
    Prepend<nat>([0], ParseFrom(symbols, proposal, 0))
  }

  /** A proposal is applied when it spells the units and keeps every boundary the stress marks state. */
  ghost function ApplyProposed(text: string, units: seq<Unit>, proposal: string): Option<string> {
    var stressed := StressOnsets(text, units);
    var starts := ParseDivision(Symbols(units), proposal);
    if '.' in text || units == [] || stressed.None? || starts.None? || !(stressed.value <= ToSet(starts.value)) then None
    else WriteSeparators(text, units, starts.value, stressed.value)
  }

  /** The walk from `cursor` and `index` on, with the starts found so far. */
  function Reading(symbols: seq<string>, proposal: string, starts: seq<nat>, cursor: nat, index: nat): Option<seq<nat>>
    requires index <= |symbols| && cursor <= |proposal|
  {
    Prepend<nat>(starts, ParseFrom(symbols[index..], proposal[cursor..], index))
  }

  lemma ReadStep(symbols: seq<string>, proposal: string, starts: seq<nat>, cursor: nat, index: nat, at: nat, more: seq<nat>)
    requires index < |symbols| && cursor <= at <= |proposal|
    requires if index > 0 && cursor < |proposal| && proposal[cursor] == '.' then at == cursor + 1 && more == starts + [index]
             else at == cursor && more == starts
    ensures Reading(symbols, proposal, starts, cursor, index) ==
            if symbols[index] <= proposal[at..] then Reading(symbols, proposal, more, at + |symbols[index]|, index + 1)
            else None
  {
    var suffix := proposal[cursor..];
    var dotted := Dotted(suffix, index);
    assert symbols[index..][1..] == symbols[index + 1..];
    assert AfterDot(suffix, index) == proposal[at..];
    assert more == starts + StartIf(dotted, index);
    if symbols[index] <= proposal[at..] {
      assert proposal[at..][|symbols[index]|..] == proposal[at + |symbols[index]|..];
      PrependAssociates<nat>(starts, StartIf(dotted, index),
                        ParseFrom(symbols[index + 1..], proposal[at + |symbols[index]|..], index + 1));
    }
  }

  lemma ReadEnd(symbols: seq<string>, proposal: string, starts: seq<nat>, cursor: nat)
    requires cursor <= |proposal|
    ensures Reading(symbols, proposal, starts, cursor, |symbols|) == if cursor == |proposal| then Some(starts) else None
  {
    assert symbols[|symbols|..] == [] && starts + [] == starts;
  }

  lemma ReadBegin(symbols: seq<string>, proposal: string)
    ensures ParseDivision(symbols, proposal) == Reading(symbols, proposal, [0], 0, 0)
  {
    assert proposal[0..] == proposal && symbols[0..] == symbols;
  }

  /** One unit more: the reading goes on from `after`, or fails. */
  ghost predicate ReadsOn(symbols: seq<string>, proposal: string, starts: seq<nat>, cursor: nat, index: nat, dotted: bool,
                          ok: bool, after: nat)
    requires index < |symbols| && cursor <= |proposal| && after <= |proposal|
  {
    Reading(symbols, proposal, starts, cursor, index) ==
    if ok then Reading(symbols, proposal, if dotted then starts + [index] else starts, after, index + 1) else None
  }

  lemma UnitRead(symbols: seq<string>, proposal: string, starts: seq<nat>, cursor: nat, index: nat, dotted: bool, at: nat,
                 ok: bool, after: nat)
    requires index < |symbols| && cursor <= |proposal|
    requires dotted <==> cursor < |proposal| && proposal[cursor] == '.' && index > 0
    requires at == (if dotted then cursor + 1 else cursor) && (ok <==> symbols[index] <= proposal[at..])
    requires after == if ok then at + |symbols[index]| else at
    ensures after <= |proposal| && ReadsOn(symbols, proposal, starts, cursor, index, dotted, ok, after)
  {
    ReadStep(symbols, proposal, starts, cursor, index, at, if dotted then starts + [index] else starts);
  }

  method ReadUnit(symbols: seq<string>, proposal: string, ghost starts: seq<nat>, cursor: nat, index: nat)
    returns (dotted: bool, ok: bool, after: nat)
    requires index < |symbols| && cursor <= |proposal|
    ensures after <= |proposal| && ReadsOn(symbols, proposal, starts, cursor, index, dotted, ok, after)
  {
    dotted := cursor < |proposal| && proposal[cursor] == '.' && index > 0;
    var at := if dotted then cursor + 1 else cursor;
    ok := symbols[index] <= proposal[at..];
    after := if ok then at + |symbols[index]| else at;
    UnitRead(symbols, proposal, starts, cursor, index, dotted, at, ok, after);
  }

  /** The cursor walk over a proposal. */
  method ReadDivision(symbols: seq<string>, proposal: string) returns (result: Option<seq<nat>>)
    ensures result == ParseDivision(symbols, proposal)
  {
    var starts: seq<nat> := [0];
    var cursor: nat := 0;
    ReadBegin(symbols, proposal);
    for index := 0 to |symbols|
      invariant cursor <= |proposal|
      invariant ParseDivision(symbols, proposal) == Reading(symbols, proposal, starts, cursor, index)
    {
      var dotted, ok, after := ReadUnit(symbols, proposal, starts, cursor, index);
      if !ok {
        return None;
      }
      if dotted {
        starts := starts + [index];
      }
      cursor := after;
    }
    ReadEnd(symbols, proposal, starts, cursor);
    return if cursor == |proposal| then Some(starts) else None;
  }

  method ApplyProposedDivision(text: string, units: seq<Unit>, proposal: string) returns (result: Option<string>)
    requires AllSymbols(Symbols(units))
    ensures result == ApplyProposed(text, units, proposal)
  {
    if '.' in text || |units| == 0 {
      return None;
    }
    var stressed := SourceStressOnsets(text, units);
    if stressed.None? {
      return None;
    }
    var starts := ReadDivision(Symbols(units), proposal);
    StartsAreUnits(units, proposal);
    if starts.None? || !(stressed.value <= ToSet(starts.value)) {
      return None;
    }
    result := WriteSeparatorsAt(text, units, starts.value, stressed.value);
  }

  lemma {:induction false} AscendingUnique(s: seq<nat>, t: seq<nat>)
    requires Ascending(s) && Ascending(t) && forall k :: k in s <==> k in t
    ensures s == t
  {
    assert s != [] ==> s[0] in s;
    assert t != [] ==> t[0] in t;
    if s != [] && t != [] {
      assert s[0] in t && t[0] in s;
      forall k ensures k in s[1..] <==> k in t[1..] {
        assert k in s[1..] <==> k in s && k != s[0];
        assert k in t[1..] <==> k in t && k != t[0];
      }
      AscendingUnique(s[1..], t[1..]);
    }
  }

  lemma DottedHead(symbol: string, dotted: bool, tail: string, k: nat)
    requires IsSymbol(symbol) && (dotted ==> k > 0)
    ensures var proposal := (if dotted then "." else "") + symbol + tail;
            (Dotted(proposal, k) <==> dotted) && symbol <= AfterDot(proposal, k) && AfterDot(proposal, k)[|symbol|..] == tail
  {
    var proposal := (if dotted then "." else "") + symbol + tail;
    assert IsSymbolChar(symbol[0]);
    assert proposal[0] == if dotted then '.' else symbol[0];
    assert AfterDot(proposal, k) == symbol + tail;
  }

  lemma ParseHead(symbols: seq<string>, starts: seq<nat>, k: nat, rest: seq<nat>)
    requires AllSymbols(symbols) && symbols != []
    requires ParseFrom(symbols[1..], Marked(symbols[1..], starts, k + 1), k + 1) == Some(rest)
    ensures ParseFrom(symbols, Marked(symbols, starts, k), k) == Some(StartIf(k in starts && k > 0, k) + rest)
  {
    DottedHead(symbols[0], k in starts && k > 0, Marked(symbols[1..], starts, k + 1), k);
  }

  /** The starts past 0 among the `n` units from `k` on. */
  ghost predicate AreStarts(parsed: seq<nat>, starts: seq<nat>, k: nat, n: nat) {
    forall i :: i in parsed <==> i in starts && i > 0 && k <= i < k + n
  }

  lemma StartsJoin(rest: seq<nat>, starts: seq<nat>, k: nat, n: nat)
    requires n > 0 && Ascending(rest) && AreStarts(rest, starts, k + 1, n - 1)
    ensures var parsed := StartIf(k in starts && k > 0, k) + rest;
            Ascending(parsed) && AreStarts(parsed, starts, k, n)
  {
    AscendingJoin(StartIf(k in starts && k > 0, k), rest, k);
  }

  /** Reading a printed division gives back exactly the starts it was printed from. */
  lemma {:induction false} ParseReadsMarked(symbols: seq<string>, starts: seq<nat>, k: nat)
    requires AllSymbols(symbols)
    ensures var parsed := ParseFrom(symbols, Marked(symbols, starts, k), k);
            parsed.Some? && Ascending(parsed.value) && AreStarts(parsed.value, starts, k, |symbols|)
    decreases |symbols|
  {
    if symbols != [] {
      ParseReadsMarked(symbols[1..], starts, k + 1);
      var rest := ParseFrom(symbols[1..], Marked(symbols[1..], starts, k + 1), k + 1).value;
      ParseHead(symbols, starts, k, rest);
      StartsJoin(rest, starts, k, |symbols|);
    }
  }

  /** Conversely, printing what was read gives back the proposal, character for character. */
  lemma {:induction false} MarkedPrintsParsed(symbols: seq<string>, proposal: string, k: nat, starts: seq<nat>)
    requires ParseFrom(symbols, proposal, k).Some?
    requires forall i: nat :: k <= i < k + |symbols| && i > 0 ==> (i in starts <==> i in ParseFrom(symbols, proposal, k).value)
    ensures Marked(symbols, starts, k) == proposal
    decreases |symbols|
  {
    if symbols != [] {
      var rest := AfterDot(proposal, k)[|symbols[0]|..];
      var tail := ParseFrom(symbols[1..], rest, k + 1);
      ParsedAreLater(symbols[1..], rest, k + 1);
      assert ParseFrom(symbols, proposal, k).value == StartIf(Dotted(proposal, k), k) + tail.value;
      MarkedPrintsParsed(symbols[1..], rest, k + 1, starts);
      Reassemble(proposal, symbols[0], k);
      assert k > 0 ==> (k in starts <==> Dotted(proposal, k));
    }
  }

  lemma Reassemble(proposal: string, symbol: string, k: nat)
    requires symbol <= AfterDot(proposal, k)
    ensures proposal == (if Dotted(proposal, k) then "." else "") + symbol + AfterDot(proposal, k)[|symbol|..]
  {
    assert AfterDot(proposal, k) == symbol + AfterDot(proposal, k)[|symbol|..];
  }

  lemma {:induction false} ParsedAreLater(symbols: seq<string>, proposal: string, k: nat)
    requires ParseFrom(symbols, proposal, k).Some?
    ensures forall i :: i in ParseFrom(symbols, proposal, k).value ==> k <= i < k + |symbols|
    decreases |symbols|
  {
    if symbols != [] {
      ParsedAreLater(symbols[1..], AfterDot(proposal, k)[|symbols[0]|..], k + 1);
    }
  }

  lemma StartsAreUnits(units: seq<Unit>, proposal: string)
    requires units != []
    ensures var starts := ParseDivision(Symbols(units), proposal);
            starts.Some? ==> forall k :: k in starts.value ==> k < |units|
  {
    if ParseFrom(Symbols(units), proposal, 0).Some? {
      ParsedAreLater(Symbols(units), proposal, 0);
    }
  }

  /** The two notations are in bijection: a proposal is readable exactly when it is the printed form of its starts. */
  lemma NotationIsExact(symbols: seq<string>, starts: seq<nat>, proposal: string)
    requires AllSymbols(symbols) && starts != [] && starts[0] == 0 && Ascending(starts)
    requires forall k :: k in starts ==> k == 0 || k < |symbols|
    ensures ParseDivision(symbols, proposal) == Some(starts) <==> Marked(symbols, starts, 0) == proposal
  {
    ParseReadsMarked(symbols, starts, 0);
    var parsed := ParseFrom(symbols, Marked(symbols, starts, 0), 0).value;
    AscendingJoin([0], parsed, 0);
    assert forall i: nat :: i in [0] + parsed <==> i == 0 || i in parsed;
    AscendingUnique([0] + parsed, starts);
    if ParseDivision(symbols, proposal) == Some(starts) {
      MarkedPrintsParsed(symbols, proposal, 0, starts);
    }
  }

  /**
   * Printing the algorithm's own division and reading it back changes nothing: a reviewed row that keeps the
   * algorithm writes exactly what the algorithm writes.
   */
  lemma KeepAlgorithmIsTheAlgorithm(tables: Phonotactics, text: string, units: seq<Unit>)
    requires AllSymbols(Symbols(units)) && InsertSyllableMarks(tables, text, units).Some?
    ensures ApplyProposed(text, units, Marked(Symbols(units), Starts(tables, units, StressOnsets(text, units).value), 0))
            == InsertSyllableMarks(tables, text, units)
  {
    var stressed := StressOnsets(text, units).value;
    var starts := Starts(tables, units, stressed);
    DivisionLaw(tables, units, stressed);
    NotationIsExact(Symbols(units), starts, Marked(Symbols(units), starts, 0));
    InsertionSucceedsExactlyWhen(tables, text, units);
    forall s | s in stressed ensures s in starts {
      StressIsAStart(tables, units, stressed, s);
    }
  }

  lemma StressIsAStart(tables: Phonotactics, units: seq<Unit>, stressed: set<nat>, s: nat)
    requires units != [] && StressFits(units, stressed) && s in stressed
    ensures s in Starts(tables, units, stressed)
  {
    var i, j :| 0 <= i < s <= j < |units| && IsNucleus(units[i]) && IsNucleus(units[j]);
    var a, b := InAGap(units, i, s, j);
    StressIsTheStart(tables, units, stressed, a, b, s);
    OneStartPerGap(tables, units, stressed, a, b);
  }
}
