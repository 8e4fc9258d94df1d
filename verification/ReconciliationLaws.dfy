/** What reconciling a word leaves: its canonical forms, once each, and exactly when the primary flag among them. */
module ReconciliationLaws {
  import E = Entries
  import L = Loading
  import opened FixedPoint
  import opened Inventory
  import opened Reconciliation
  import opened SourceProfile
  import opened Takeovers
  import opened Tokenisation
  import opened Wrappers

  lemma RowLeft(rows: map<nat, Row>, d: seq<Decision>, j: nat)
    requires IsLeft(rows, d) && j < |d|
    ensures j in rows <==> d[j].canonical.Some? && !Yields(d, j, |d|)
    ensures j in rows ==> rows[j] == Row(d[j].canonical.value, Inherits(d, j))
  {
    assert Lookup(rows, j) == RowAt(d, |d|, j);
  }

  ghost predicate HoldsForm(rows: map<nat, Row>, form: string) {
    exists j :: j in rows && rows[j].ipa == form
  }

  ghost predicate HadForm(d: seq<Decision>, form: string) {
    exists j: nat :: j < |d| && d[j].canonical == Some(form)
  }

  /** The unique keys hold, and the transcriptions left are the canonical forms there were, each on one row. */
  lemma FormsAreLeftOnce(rows: map<nat, Row>, d: seq<Decision>)
    requires Sound(d) && IsLeft(rows, d)
    ensures UniqueKeys(rows)
    ensures forall form :: HoldsForm(rows, form) <==> HadForm(d, form)
  {
    forall j, k | j in rows && k in rows && rows[j].ipa == rows[k].ipa ensures j == k {
      RowLeft(rows, d, j);
      RowLeft(rows, d, k);
      StandingRowsDiffer(d, j, k);
    }
    forall j, k | j in rows && k in rows && rows[j].primary && rows[k].primary ensures j == k {
      RowLeft(rows, d, j);
      RowLeft(rows, d, k);
      OneInheritor(d, j, k);
    }
    forall form ensures HoldsForm(rows, form) <==> HadForm(d, form) {
      if j :| j in rows && rows[j].ipa == form { RowLeft(rows, d, j); }
      if j: nat :| j < |d| && d[j].canonical == Some(form) {
        var h := EveryFormIsKept(d, j);
        RowLeft(rows, d, h);
        assert h in rows && rows[h].ipa == form;
      }
    }
  }

  lemma OneInheritor(d: seq<Decision>, j: nat, k: nat)
    requires Sound(d) && j < |d| && k < |d| && Inherits(d, j) && Inherits(d, k)
    requires d[j].canonical.Some? && d[k].canonical.Some? && !Yields(d, j, |d|) && !Yields(d, k, |d|)
    ensures j == k
  {
    var p := Ancestor(d, j);
    var q := Ancestor(d, k);
    assert Same(d, j, p) && Same(d, k, q) && p == q;
    StandingRowsDiffer(d, j, k);
  }

  lemma Ancestor(d: seq<Decision>, j: nat) returns (p: nat)
    requires j < |d| && d[j].canonical.Some? && Inherits(d, j)
    ensures p < |d| && d[p].primary && Same(d, j, p)
  {
    if d[j].primary { return j; }
    p :| p < |d| && Heir(d, p, j) && d[p].primary;
  }

  /** Reconciling never empties a word: one that is not left alone keeps a row for each form, and there is one. */
  lemma WordKeepsARow(rows: map<nat, Row>, d: seq<Decision>, j: nat)
    requires IsLeft(rows, d) && j < |d| && d[j].canonical.Some?
    ensures rows != map[]
  {
    var h := EveryFormIsKept(d, j);
    RowLeft(rows, d, h);
  }

  /**
   * A primary row is left exactly when there was one that tokenises and that was not taken over by a row taken over
   * in its turn. A flag that has moved once does not move again.
   */
  lemma FlagIsLeftExactlyWhen(rows: map<nat, Row>, d: seq<Decision>)
    requires Sound(d) && IsLeft(rows, d)
    ensures (exists j :: j in rows && rows[j].primary) <==>
            exists p: nat :: p < |d| && d[p].primary && d[p].canonical.Some? && !TakenOverTwice(d, p)
  {
    if j :| j in rows && rows[j].primary {
      RowLeft(rows, d, j);
      var p := Ancestor(d, j);
      PrimaryIsKeptExactlyWhen(d, p, j);
    }
    if p: nat :| p < |d| && d[p].primary && d[p].canonical.Some? && !TakenOverTwice(d, p) {
      var h := EveryFormIsKept(d, p);
      RowLeft(rows, d, h);
      PrimaryIsKeptExactlyWhen(d, p, h);
    }
  }

  /** With at most two rows to a form: no collision, and the flag is left whenever its row tokenises, on that row's form. */
  lemma PairsKeepTheFlag(rows: map<nat, Row>, d: seq<Decision>, p: nat)
    requires Sound(d) && IsLeft(rows, d) && Pairwise(d)
    requires p < |d| && d[p].primary && d[p].canonical.Some?
    ensures forall c: nat :: c < |d| ==> !TwoAhead(d, c)
    ensures exists j :: j in rows && rows[j] == Row(d[p].canonical.value, true)
  {
    PairsAreSafe(d);
    var h := EveryFormIsKept(d, p);
    RowLeft(rows, d, h);
    PrimaryIsKeptExactlyWhen(d, p, h);
    assert h in rows;
  }

  /** What is left is canonical throughout. */
  lemma RowsLeftAreCanonical(rows: map<nat, Row>, list: seq<Row>, inventory: Inventory, j: nat)
    requires WellFormed(inventory) && IsLeft(rows, Decide(list, inventory)) && j in rows
    ensures CanonicalForm(rows[j].ipa, inventory) == Some(rows[j].ipa)
  {
    RowLeft(rows, Decide(list, inventory), j);
    var forms := TokeniseTranscription(list[j].ipa, inventory).value;
    CanonicalFormsAreFixedPoints(list[j].ipa, inventory, forms[0]);
  }

  /** A word whose rows are canonical already is left as it is, so a second run changes nothing. */
  lemma CanonicalWordIsUntouched(list: seq<Row>, inventory: Inventory)
    requires UniqueKeys(Listed(list))
    requires forall j: nat :: j < |list| ==> CanonicalForm(list[j].ipa, inventory) == Some(list[j].ipa)
    ensures var d := Decide(list, inventory); IsLeft(Listed(list), d) && forall c: nat :: c < |d| ==> !TwoAhead(d, c)
  {
    var d := Decide(list, inventory);
    forall j: nat, k: nat | j < |d| && k < |d| && Same(d, j, k) ensures j == k {
      assert j in Listed(list) && k in Listed(list);
    }
    forall j: nat | j < |d| ensures Lookup(Listed(list), j) == RowAt(d, |d|, j) && !TwoAhead(d, j) {
      OnlyOfItsForm(d, j);
    }
  }

  /** What a loaded entry stores of each row that reconciling looks at. */
  function RowsOf(entry: seq<L.Pronunciation>): seq<Row> {
    seq(|entry|, i requires 0 <= i < |entry| => Row(entry[i].ipa, entry[i].primary))
  }

  lemma EntryFormsAreCanonical(sources: seq<string>, curated: bool, overrides: map<string, E.Curation>,
                               inventory: Inventory, i: nat)
    requires WellFormed(inventory) && i < |E.NormalisedEntry(sources, curated, overrides, inventory)|
    ensures var ipa := E.NormalisedEntry(sources, curated, overrides, inventory)[i].ipa;
            CanonicalForm(ipa, inventory) == Some(ipa)
  {
    var accepted := E.Deduplicated(sources, inventory);
    E.EveryFormOnce(sources, inventory);
    E.OrderedKeepsForms(accepted, curated);
    var a := E.Ordered(accepted, curated)[i];
    E.SourceGivesForm(sources, inventory, a);
    CanonicalFormsAreFixedPoints(a.source, inventory, TokeniseTranscription(a.source, inventory).value[0]);
  }

  /** Ingestion leaves nothing for reconciliation: an entry as normalised is a word reconciling does not touch. */
  lemma LoadedEntriesNeedNoReconciling(sources: seq<string>, curated: bool, overrides: map<string, E.Curation>,
                                       inventory: Inventory)
    requires WellFormed(inventory)
    ensures var list := RowsOf(E.NormalisedEntry(sources, curated, overrides, inventory));
            var d := Decide(list, inventory);
            UniqueKeys(Listed(list)) && IsLeft(Listed(list), d) && forall c: nat :: c < |d| ==> !TwoAhead(d, c)
  {
    var entry := E.NormalisedEntry(sources, curated, overrides, inventory);
    E.NormalisedIsAnEntry(sources, curated, overrides, inventory);
    EntryKeysAreUnique(entry);
    forall j: nat | j < |entry| ensures CanonicalForm(entry[j].ipa, inventory) == Some(entry[j].ipa) {
      EntryFormsAreCanonical(sources, curated, overrides, inventory, j);
    }
    CanonicalWordIsUntouched(RowsOf(entry), inventory);
  }

  lemma EntryKeysAreUnique(entry: seq<L.Pronunciation>)
    requires L.Entry(entry)
    ensures UniqueKeys(Listed(RowsOf(entry)))
  {
    var rows := Listed(RowsOf(entry));
    assert forall j: nat :: j < |entry| ==> rows[j] == Row(entry[j].ipa, entry[j].primary);
  }

  lemma OnlyOfItsForm(d: seq<Decision>, j: nat)
    requires j < |d| && IsCanonical(d[j])
    requires forall x: nat, y: nat :: x < |d| && y < |d| && Same(d, x, y) ==> x == y
    ensures RowAt(d, |d|, j) == Some(Row(d[j].ipa, d[j].primary)) && !TwoAhead(d, j)
  {
    assert forall x: nat :: x < |d| ==> !Outranks(d, x, j) && !Outranks(d, j, x);
  }

  // Three spellings of one vowel

  predicate SpellsNurse(raw: string) {
    raw == "ɜr" || raw == "ɜɹː" || raw == "ɝ"
  }

  lemma NothingMoreToResolve(text: string)
    requires Canonical(text)
    ensures ReplaceAll(text, "ː", "") == text && ReplaceAll(text, "ɔʊ\U{032F}", "oʊ") == text
    ensures ReplaceAll(text, "\U{032F}", "") == text && ExpandSyllabics(text) == text && ReplaceAll(text, "(ɹ)", "ɹ") == text
  {
    LiteralPassIdle(text, "ː", "", 0);
    LiteralPassIdle(text, "ɔʊ\U{032F}", "oʊ", 2);
    LiteralPassIdle(text, "\U{032F}", "", 0);
    SyllabicPassIdle(text);
    LiteralPassIdle(text, "(ɹ)", "ɹ", 0);
  }

  lemma RhoticIsTurned()
    ensures ResolveNotation("ɜr") == "ɜɹ"
  {
    LiteralPassIdle("ɜr", "\U{0361}", "", 0);
    LiteralPassIdle("ɜr", "g", "ɡ", 0);
    assert ReplaceAll("ɜr", "r", "ɹ") == "ɜɹ";
    NothingMoreToResolve("ɜɹ");
  }

  lemma {:induction false} LengthIsDropped(text: string)
    requires 'ː' !in text
    ensures ReplaceAll(text + "ː", "ː", "") == text
  {
    if text == "" {
      assert (text + "ː")[1..] == "";
    } else {
      LengthIsDropped(text[1..]);
      assert text[0] in text && (text + "ː")[0] == text[0] && (text + "ː")[1..] == text[1..] + "ː";
      assert !("ː" <= text + "ː");
    }
  }

  lemma LengthIsResolved(raw: string)
    requires raw == "ɜɹ" + "ː"
    ensures ResolveNotation(raw) == "ɜɹ"
  {
    LiteralPassIdle(raw, "\U{0361}", "", 0);
    LiteralPassIdle(raw, "g", "ɡ", 0);
    LiteralPassIdle(raw, "r", "ɹ", 0);
    LengthIsDropped("ɜɹ");
    NothingMoreToResolve("ɜɹ");
  }

  lemma NurseIsMerged(text: string, merged: string)
    requires (text == "ɜɹ" || text == merged) && merged == "ɝ"
    ensures MergeRhotics(text) == merged
  {
    if text != merged {
      assert text[2..] == "" && Fires(text, NURSE);
    }
    assert Settled(merged, NURSE) && Settled(merged, SCHWA) && Settled(merged, FORCE);
    SettledIsFixed(merged, NURSE);
    SettledIsFixed(merged, SCHWA);
    SettledIsFixed(merged, FORCE);
  }

  lemma OneForm(raw: string, text: string, merged: string)
    requires ResolveNotation(raw) == text && '(' !in text && MergeRhotics(text) == merged
    ensures CanonicalForms(raw) == [merged]
  {
    SingleForm(text);
  }

  lemma SymbolTokenises(symbol: string, inventory: Inventory)
    requires WellFormed(inventory) && symbol in inventory.symbols
    ensures Tokenise(symbol, inventory) == Some([symbol])
  {
    assert IsSymbol(symbol) && IsSymbolChar(symbol[0]);
    WidestIsLongest(symbol, symbol, inventory);
    assert symbol[|symbol|..] == "" && [symbol] + [] == [symbol];
  }

  lemma SymbolIsCanonical(raw: string, symbol: string, inventory: Inventory)
    requires WellFormed(inventory) && symbol in inventory.symbols && CanonicalForms(raw) == [symbol]
    ensures CanonicalForm(raw, inventory) == Some(symbol)
  {
    SymbolTokenises(symbol, inventory);
    assert forall i :: 0 <= i < |symbol| ==> IsSymbolChar(symbol[i]);
    AcceptAlone(Form(symbol, [symbol]), inventory);
  }

  lemma NurseForm(raw: string, nurse: string, inventory: Inventory)
    requires WellFormed(inventory) && nurse in inventory.symbols && nurse == "ɝ" && SpellsNurse(raw)
    ensures CanonicalForm(raw, inventory) == Some(nurse)
  {
    var text := ResolveNotation(raw);
    if raw == "ɜr" {
      RhoticIsTurned();
    } else if raw == "ɜɹː" {
      LengthIsResolved(raw);
    } else {
      NotationResolved(raw);
    }
    NurseIsMerged(text, nurse);
    OneForm(raw, text, nurse);
    SymbolIsCanonical(raw, nurse, inventory);
  }

  /** Three rows of one form, the first of them primary. */
  predicate OfOneForm(d: seq<Decision>, a: string, b: string, c: string, form: string) {
    |d| == 3 && d[0] == Decision(a, true, Some(form)) && d[1] == Decision(b, false, Some(form)) &&
    d[2] == Decision(c, false, Some(form))
  }

  lemma SharedForm(a: string, b: string, c: string, form: string, inventory: Inventory)
    requires CanonicalForm(a, inventory) == CanonicalForm(b, inventory) == CanonicalForm(c, inventory) == Some(form)
    ensures OfOneForm(Decide([Row(a, true), Row(b, false), Row(c, false)], inventory), a, b, c, form)
  {
  }

  lemma RenameMeetsTheLast(d: seq<Decision>, a: string, b: string, form: string)
    requires OfOneForm(d, a, b, form, form) && a != b && a != form && b != form
    ensures Sound(d) && TwoAhead(d, 2)
  {
    assert Same(d, 0, 2) && Same(d, 1, 2);
  }

  lemma FlagIsDroppedOnTheWay(d: seq<Decision>, form: string, a: string, b: string)
    requires OfOneForm(d, form, a, b, form) && a != b && a != form && b != form
    ensures Sound(d) && TakenOverTwice(d, 0) && forall c: nat :: c < 3 ==> !TwoAhead(d, c)
  {
    assert First(d, 0) == 0 && First(d, 1) == 0 && First(d, 2) == 0;
    assert Outranks(d, 1, 0) && Outranks(d, 2, 1);
  }

  lemma NoFlagIsLeft(d: seq<Decision>)
    requires Sound(d) && |d| == 3 && TakenOverTwice(d, 0) && !d[1].primary && !d[2].primary
    ensures forall rows: map<nat, Row>, j :: IsLeft(rows, d) && j in rows ==> !rows[j].primary
  {
    forall rows: map<nat, Row>, j | IsLeft(rows, d) && j in rows ensures !rows[j].primary {
      FlagIsLeftExactlyWhen(rows, d);
    }
  }

  /**
   * Three spellings of one vowel are enough for both failures, under any inventory that has it: with the canonical
   * spelling last a rename runs into it, with the canonical spelling first its flag is dropped.
   */
  lemma ThreeRowsCanFail(inventory: Inventory)
    requires WellFormed(inventory) && "ɝ" in inventory.symbols
    ensures var late := Decide([Row("ɜr", true), Row("ɜɹː", false), Row("ɝ", false)], inventory);
            Sound(late) && TwoAhead(late, 2)
    ensures var early := Decide([Row("ɝ", true), Row("ɜr", false), Row("ɜɹː", false)], inventory);
            Sound(early) && TakenOverTwice(early, 0) && (forall c: nat :: c < 3 ==> !TwoAhead(early, c)) &&
            forall rows: map<nat, Row>, j :: IsLeft(rows, early) && j in rows ==> !rows[j].primary
  {
    var a, b, form := "ɜr", "ɜɹː", "ɝ";
    assert |a| == 2 && |b| == 3 && |form| == 1;
    var late, early := [Row(a, true), Row(b, false), Row(form, false)], [Row(form, true), Row(a, false), Row(b, false)];
    NurseForm(a, form, inventory);
    NurseForm(b, form, inventory);
    NurseForm(form, form, inventory);
    SharedForm(a, b, form, form, inventory);
    RenameMeetsTheLast(Decide(late, inventory), a, b, form);
    SharedForm(form, a, b, form, inventory);
    FlagIsDroppedOnTheWay(Decide(early, inventory), form, a, b);
    NoFlagIsLeft(Decide(early, inventory));
  }
}
