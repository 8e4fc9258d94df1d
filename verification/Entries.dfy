/** Normalising one raw entry into the pronunciations to store, and the gate that decides whether they may be loaded. */
module Entries {
  import B = Breakdown
  import opened FixedPoint
  import opened Inventory
  import opened Loading
  import opened Sorting
  import opened SourceProfile
  import opened Wrappers

  const MAX_PRONUNCIATIONS_PER_WORD: nat := 4

  /** A transcription accepted for a word: its canonical form, and the upstream notation it came from. */
  datatype Accepted = Accepted(canonical: string, source: string)

  /** What a maintainer recorded for one transcription. */
  datatype Curation = Curation(breakdown: Option<string>, gloss: Option<string>)

  function SplitAtDots(current: string, text: string): seq<string>
    decreases |text|
  {
    if text == "" then [current]
    else if text[0] == B.MIDDLE_DOT then [current] + SplitAtDots("", text[1..])
    else SplitAtDots(current + [text[0]], text[1..])
  }

  function SyllableCount(breakdown: string): nat {
    |B.DropBlank(SplitAtDots("", breakdown))|
  }

  /** More than one syllable must say which is stressed. */
  predicate ShowsStress(breakdown: string) {
    SyllableCount(breakdown) > 1 ==> PRIMARY_STRESS in breakdown
  }

  /** The canonical form stored for a source transcription, unless it does not tokenise or has lost its stress. */
  function Admit(source: string, inventory: Inventory): Option<string> {
    match TokeniseTranscription(source, inventory)
    case None => None
    case Some(forms) => if forms != [] && ShowsStress(B.DeriveBreakdown(forms[0].ipa)) then Some(forms[0].ipa) else None
  }

  function FormsOf(accepted: seq<Accepted>): seq<string> {
    seq(|accepted|, i requires 0 <= i < |accepted| => accepted[i].canonical)
  }

  function AddForm(accepted: seq<Accepted>, source: string, form: Option<string>): seq<Accepted> {
    if form.None? || form.value in FormsOf(accepted) then accepted else accepted + [Accepted(form.value, source)]
  }

  /** Each admitted form once, under the source that first gave it. */
  function Deduplicated(sources: seq<string>, inventory: Inventory): seq<Accepted> {
    if sources == [] then []
    else
      var n := |sources| - 1;
      AddForm(Deduplicated(sources[..n], inventory), sources[n], Admit(sources[n], inventory))
  }

  predicate Dotted(a: Accepted) {
    SEPARATOR in a.canonical
  }

  function DottedFirst(): (Accepted, Accepted) -> bool {
    (x, y) => Dotted(x) || !Dotted(y)
  }

  function Ordered(accepted: seq<Accepted>, curated: bool): seq<Accepted> {
    if curated then accepted else Sort(DottedFirst(), accepted)
  }

  function Recorded(overrides: map<string, Curation>, a: Accepted): Curation {
    if a.canonical in overrides then overrides[a.canonical]
    else if a.source in overrides then overrides[a.source]
    else Curation(None, None)
  }

  function Shown(overrides: map<string, Curation>, a: Accepted): string {
    match Recorded(overrides, a).breakdown case None => B.DeriveBreakdown(a.canonical) case Some(given) => given
  }

  function Pronounced(overrides: map<string, Curation>, a: Accepted, index: nat): Pronunciation {
    Pronunciation(a.canonical, Shown(overrides, a), Recorded(overrides, a).gloss, index == 0, index, UNATTRIBUTED)
  }

  function RowsFor(overrides: map<string, Curation>, ordered: seq<Accepted>): seq<Pronunciation> {
    seq(|ordered|, i requires 0 <= i < |ordered| => Pronounced(overrides, ordered[i], i))
  }

  function NormalisedEntry(sources: seq<string>, curated: bool, overrides: map<string, Curation>, inventory: Inventory)
    : seq<Pronunciation>
  {
    RowsFor(overrides, Ordered(Deduplicated(sources, inventory), curated))
  }

  method AdmitSource(source: string, inventory: Inventory) returns (form: Option<string>)
    ensures form == Admit(source, inventory)
  {
    var result := TokenizeTranscription(source, inventory);
    NeverEmpty(source, inventory);
    if result.None? { return None; }
    var canonical := result.value[0].ipa;
    var provisional := B.DeriveSyllableBreakdown(canonical);
    if SyllableCount(provisional) > 1 && PRIMARY_STRESS !in provisional { return None; }
    return Some(canonical);
  }

  method Deduplicate(sources: seq<string>, inventory: Inventory) returns (deduped: seq<Accepted>)
    ensures deduped == Deduplicated(sources, inventory)
  {
    var seen: set<string> := {};
    deduped := [];
    for i: nat := 0 to |sources|
      invariant deduped == Deduplicated(sources[..i], inventory)
      invariant forall form :: form in seen <==> form in FormsOf(deduped)
    {
      assert sources[..i + 1][..i] == sources[..i];
      var form := AdmitSource(sources[i], inventory);
      if form.Some? && form.value !in seen {
        FormsOfMore(deduped, Accepted(form.value, sources[i]));
        seen := seen + {form.value};
        deduped := deduped + [Accepted(form.value, sources[i])];
      }
    }
    assert sources[..|sources|] == sources;
  }

  lemma FormsOfMore(accepted: seq<Accepted>, a: Accepted)
    ensures FormsOf(accepted + [a]) == FormsOf(accepted) + [a.canonical]
  {
  }

  method ShownBreakdown(overrides: map<string, Curation>, a: Accepted) returns (breakdown: string)
    ensures breakdown == Shown(overrides, a)
  {
    match Recorded(overrides, a).breakdown
    case None => breakdown := B.DeriveSyllableBreakdown(a.canonical);
    case Some(given) => breakdown := given;
  }

  method BuildRows(overrides: map<string, Curation>, ordered: seq<Accepted>) returns (entry: seq<Pronunciation>)
    ensures entry == RowsFor(overrides, ordered)
  {
    entry := [];
    for i: nat := 0 to |ordered|
      invariant entry == RowsFor(overrides, ordered)[..i]
    {
      var breakdown := ShownBreakdown(overrides, ordered[i]);
      entry := entry + [Pronunciation(ordered[i].canonical, breakdown, Recorded(overrides, ordered[i]).gloss, i == 0, i,
                                      UNATTRIBUTED)];
    }
  }

  /** `sources` are the selected transcriptions, without slashes and complete, in upstream or curated order. */
  method NormaliseEntry(sources: seq<string>, curated: bool, overrides: map<string, Curation>, inventory: Inventory)
    returns (entry: seq<Pronunciation>)
    ensures entry == NormalisedEntry(sources, curated, overrides, inventory)
  {
    var deduped := Deduplicate(sources, inventory);
    var ordered := Ordered(deduped, curated);
    entry := BuildRows(overrides, ordered);
  }

  // The gate.

  /** A normalised word: an empty string stands for what upstream did not give. */
  datatype Normalised = Normalised(headword: string, sourceUrl: string, licence: string, retrievedAt: string,
                                   rejections: seq<string>, rows: seq<Pronunciation>)

  datatype Problem = CarriedOver(rejection: string) | NoHeadword | NoAttribution | NoRows | TooMany
                   | PrimaryCount(found: nat) | NotDense | PrimaryNotFirst | EmptyTranscription | EmptyBreakdown(ipa: string)
                   | NoStress(ipa: string)

  function Primaries(entry: seq<Pronunciation>): seq<Pronunciation> {
    Filter((p: Pronunciation) => p.primary, entry)
  }

  predicate Presentable(p: Pronunciation) {
    p.ipa != "" && p.breakdown != "" && ShowsStress(p.breakdown)
  }

  /** What an entry must be for its pronunciations to load. */
  predicate Loadable(entry: seq<Pronunciation>) {
    1 <= |entry| <= MAX_PRONUNCIATIONS_PER_WORD &&
    (forall i: nat :: i < |entry| ==> entry[i].order == i && (entry[i].primary <==> i == 0)) &&
    forall i: nat :: i < |entry| ==> Presentable(entry[i])
  }

  /** What a word must be to load. */
  predicate Ready(word: Normalised) {
    word.rejections == [] && word.headword != "" && word.sourceUrl != "" && word.licence != "" && word.retrievedAt != "" &&
    Loadable(word.rows)
  }

  method ValidateEntry(word: Normalised) returns (problems: seq<Problem>)
    ensures problems == [] <==> Ready(word)
    ensures forall rejection :: rejection in word.rejections ==> CarriedOver(rejection) in problems
  {
    var carried := seq(|word.rejections|, i requires 0 <= i < |word.rejections| => CarriedOver(word.rejections[i]));
    problems := carried;
    if word.headword == "" { problems := problems + [NoHeadword]; }
    if word.sourceUrl == "" || word.licence == "" || word.retrievedAt == "" { problems := problems + [NoAttribution]; }
    var found := ValidateRows(word.rows);
    problems := problems + found;
    forall rejection | rejection in word.rejections ensures CarriedOver(rejection) in problems {
      var i :| 0 <= i < |word.rejections| && word.rejections[i] == rejection;
      assert problems[i] == CarriedOver(rejection);
    }
  }

  method ValidateRows(entry: seq<Pronunciation>) returns (problems: seq<Problem>)
    ensures problems == [] <==> Loadable(entry)
  {
    problems := [];
    if |entry| == 0 { problems := problems + [NoRows]; }
    if |entry| > MAX_PRONUNCIATIONS_PER_WORD { problems := problems + [TooMany]; }
    var primaries := Primaries(entry);
    if |primaries| != 1 { problems := problems + [PrimaryCount(|primaries|)]; }
    var dense := forall i: nat :: i < |entry| ==> entry[i].order == i;
    if !dense { problems := problems + [NotDense]; }
    if |primaries| == 1 && primaries[0].order != 0 { problems := problems + [PrimaryNotFirst]; }
    ghost var shape := problems;
    for i: nat := 0 to |entry|
      invariant problems == [] <==> shape == [] && forall j: nat :: j < i ==> Presentable(entry[j])
    {
      if entry[i].ipa == "" { problems := problems + [EmptyTranscription]; }
      if entry[i].breakdown == "" { problems := problems + [EmptyBreakdown(entry[i].ipa)]; }
      if SyllableCount(entry[i].breakdown) > 1 && PRIMARY_STRESS !in entry[i].breakdown {
        problems := problems + [NoStress(entry[i].ipa)];
      }
    }
    if dense { OnePrimaryFirst(entry); }
  }

  lemma {:induction false} OnlyTheFirst(entry: seq<Pronunciation>)
    requires entry != [] && forall i: nat :: i < |entry| ==> (entry[i].primary <==> i == 0)
    ensures Primaries(entry) == [entry[0]]
    decreases |entry|
  {
    var init := entry[..|entry| - 1];
    if init != [] {
      OnlyTheFirst(init);
      assert init[0] == entry[0];
      NothingAdded(Primaries(init));
    } else {
      NothingAdded([entry[0]]);
      assert Primaries(init) == [];
    }
  }

  /** One primary, at order nought among dense orders, is the first row and no other. */
  lemma OnePrimaryFirst(entry: seq<Pronunciation>)
    requires forall i: nat :: i < |entry| ==> entry[i].order == i
    ensures |Primaries(entry)| == 1 && Primaries(entry)[0].order == 0 <==>
            entry != [] && forall i: nat :: i < |entry| ==> (entry[i].primary <==> i == 0)
  {
    var primaries := Primaries(entry);
    if |primaries| == 1 && primaries[0].order == 0 {
      FilterMembers((p: Pronunciation) => p.primary, entry);
      assert primaries[0] in primaries;
      forall i: nat | i < |entry| ensures entry[i].primary <==> i == 0 {
        assert entry[i].primary <==> entry[i] in primaries;
        var k :| 0 <= k < |entry| && entry[k] == primaries[0];
      }
    }
    if entry != [] && forall i: nat :: i < |entry| ==> (entry[i].primary <==> i == 0) {
      OnlyTheFirst(entry);
    }
  }

  // What normalising guarantees.

  ghost predicate DistinctForms(accepted: seq<Accepted>) {
    forall i, j :: 0 <= i < j < |accepted| ==> accepted[i].canonical != accepted[j].canonical
  }

  /** What becomes of each source, in order. */
  function Admissions(sources: seq<string>, inventory: Inventory): seq<Option<string>> {
    if sources == [] then []
    else Admissions(sources[..|sources| - 1], inventory) + [Admit(sources[|sources| - 1], inventory)]
  }

  lemma AddFormKeeps(accepted: seq<Accepted>, source: string, added: Option<string>)
    requires DistinctForms(accepted)
    ensures DistinctForms(AddForm(accepted, source, added))
    ensures forall form :: form in FormsOf(AddForm(accepted, source, added)) <==> form in FormsOf(accepted) || added == Some(form)
  {
    if added.Some? {
      FormsOfMore(accepted, Accepted(added.value, source));
      assert forall i :: 0 <= i < |accepted| ==> FormsOf(accepted)[i] == accepted[i].canonical;
    }
  }

  /** Every admitted form is there, once, and nothing else. */
  lemma {:induction false} EveryFormOnce(sources: seq<string>, inventory: Inventory)
    ensures DistinctForms(Deduplicated(sources, inventory))
    ensures forall form :: form in FormsOf(Deduplicated(sources, inventory)) <==> Some(form) in Admissions(sources, inventory)
  {
    if sources != [] {
      var n := |sources| - 1;
      EveryFormOnce(sources[..n], inventory);
      AddFormKeeps(Deduplicated(sources[..n], inventory), sources[n], Admit(sources[n], inventory));
    }
  }

  /** A form is canonical: admitting it again gives it back. */
  lemma AdmittedFormsAreCanonical(source: string, inventory: Inventory)
    requires WellFormed(inventory) && Admit(source, inventory).Some?
    ensures Admit(Admit(source, inventory).value, inventory) == Admit(source, inventory)
  {
    CanonicalFormsAreFixedPoints(source, inventory, TokeniseTranscription(source, inventory).value[0]);
  }

  function Undotted(): Accepted -> bool {
    a => !Dotted(a)
  }

  function WithDots(): Accepted -> bool {
    a => Dotted(a)
  }

  lemma {:induction false} InsertDotted(dotted: seq<Accepted>, plain: seq<Accepted>, x: Accepted)
    requires Dotted(x)
    requires forall a :: a in dotted ==> Dotted(a)
    requires forall a :: a in plain ==> !Dotted(a)
    ensures Insert(DottedFirst(), dotted + plain, x) == (dotted + [x]) + plain
    decreases |plain|
  {
    var all := dotted + plain;
    if plain == [] {
      assert all == dotted;
      assert (dotted + [x]) + plain == dotted + [x];
      assert dotted != [] ==> dotted[|dotted| - 1] in dotted;
      assert dotted == [] ==> dotted + [x] == [x];
    } else {
      var init, last := plain[..|plain| - 1], plain[|plain| - 1];
      InsertDotted(dotted, init, x);
      assert all[..|all| - 1] == dotted + init && all[|all| - 1] == last;
      assert last in plain;
      assert plain == init + [last];
      Regroup(dotted + [x], init, [last]);
    }
  }

  /** Ordering is stable: the dotted forms in their order, then the others in theirs. */
  lemma {:induction false} DottedComeFirst(accepted: seq<Accepted>)
    ensures Sort(DottedFirst(), accepted) == Filter(WithDots(), accepted) + Filter(Undotted(), accepted)
  {
    if accepted != [] {
      var init, last := accepted[..|accepted| - 1], accepted[|accepted| - 1];
      DottedComeFirst(init);
      FilterMembers(WithDots(), init);
      FilterMembers(Undotted(), init);
      var dotted, plain := Filter(WithDots(), init), Filter(Undotted(), init);
      if Dotted(last) {
        InsertDotted(dotted, plain, last);
        NothingAdded(plain);
      } else {
        Regroup(dotted, plain, [last]);
        NothingAdded(dotted);
        assert dotted + plain == [] || DottedFirst()((dotted + plain)[|dotted + plain| - 1], last);
        assert dotted + plain == [] ==> (dotted + plain) + [last] == [last];
      }
    }
  }

  lemma {:induction false} FilterKeepsDistinct(p: Accepted -> bool, accepted: seq<Accepted>)
    requires DistinctForms(accepted)
    ensures DistinctForms(Filter(p, accepted))
  {
    if accepted != [] {
      var init, last := accepted[..|accepted| - 1], accepted[|accepted| - 1];
      FilterKeepsDistinct(p, init);
      FilterMembers(p, init);
      forall i | 0 <= i < |Filter(p, init)| ensures Filter(p, init)[i].canonical != last.canonical {
        assert Filter(p, init)[i] in init;
        var k :| 0 <= k < |init| && init[k] == Filter(p, init)[i];
        assert accepted[k].canonical != accepted[|accepted| - 1].canonical;
      }
    }
  }

  lemma OrderedKeepsForms(accepted: seq<Accepted>, curated: bool)
    requires DistinctForms(accepted)
    ensures DistinctForms(Ordered(accepted, curated))
    ensures forall a :: a in Ordered(accepted, curated) <==> a in accepted
    ensures |Ordered(accepted, curated)| == |accepted|
  {
    if !curated {
      SortSorts(DottedFirst(), accepted);
      assert |multiset(Sort(DottedFirst(), accepted))| == |multiset(accepted)|;
      DottedComeFirst(accepted);
      FilterKeepsDistinct(WithDots(), accepted);
      FilterKeepsDistinct(Undotted(), accepted);
      FilterMembers(WithDots(), accepted);
      FilterMembers(Undotted(), accepted);
      var dotted, plain := Filter(WithDots(), accepted), Filter(Undotted(), accepted);
      forall i, j | 0 <= i < |dotted| && 0 <= j < |plain| ensures dotted[i].canonical != plain[j].canonical {
        assert dotted[i] in dotted && plain[j] in plain;
      }
    }
  }

  /** Whatever was selected, the rows are ready to load over any others: places from nought, one primary, no form twice. */
  lemma NormalisedIsAnEntry(sources: seq<string>, curated: bool, overrides: map<string, Curation>, inventory: Inventory)
    ensures Entry(NormalisedEntry(sources, curated, overrides, inventory))
  {
    EveryFormOnce(sources, inventory);
    OrderedKeepsForms(Deduplicated(sources, inventory), curated);
    var ordered := Ordered(Deduplicated(sources, inventory), curated);
    assert forall i, j :: 0 <= i < j < |ordered| ==> ordered[i].canonical != ordered[j].canonical;
  }

  /** The source recorded for a form is one that gives it. */
  lemma {:induction false} SourceGivesForm(sources: seq<string>, inventory: Inventory, a: Accepted)
    requires a in Deduplicated(sources, inventory)
    ensures Admit(a.source, inventory) == Some(a.canonical)
  {
    var n := |sources| - 1;
    if a in Deduplicated(sources[..n], inventory) {
      SourceGivesForm(sources[..n], inventory, a);
    }
  }

  lemma {:induction false} AcceptedShowStress(sources: seq<string>, inventory: Inventory, a: Accepted)
    requires a in Deduplicated(sources, inventory)
    ensures ShowsStress(B.DeriveBreakdown(a.canonical))
  {
    var n := |sources| - 1;
    if a in Deduplicated(sources[..n], inventory) {
      AcceptedShowStress(sources[..n], inventory, a);
    }
  }

  lemma PresentableExactlyWhen(sources: seq<string>, overrides: map<string, Curation>, inventory: Inventory, a: Accepted,
                               index: nat)
    requires a in Deduplicated(sources, inventory)
    ensures Presentable(Pronounced(overrides, a, index)) <==> Sayable(overrides, a)
  {
    AcceptedShowStress(sources, inventory, a);
  }

  /** Neither blank nor, if a maintainer gave its breakdown, silent about stress. */
  predicate Sayable(overrides: map<string, Curation>, a: Accepted) {
    a.canonical != "" && Shown(overrides, a) != "" &&
    (Recorded(overrides, a).breakdown.Some? ==> ShowsStress(Shown(overrides, a)))
  }

  /**
   * The gate lets a normalised entry through exactly when there are one to four rows, none of them blank, and every
   * breakdown a maintainer supplied shows its stress: a derived one always does.
   */
  lemma NormalisedLoadsExactlyWhen(sources: seq<string>, curated: bool, overrides: map<string, Curation>,
                                   inventory: Inventory)
    ensures var accepted := Deduplicated(sources, inventory);
            Loadable(NormalisedEntry(sources, curated, overrides, inventory)) <==>
            1 <= |accepted| <= MAX_PRONUNCIATIONS_PER_WORD && forall a :: a in accepted ==> Sayable(overrides, a)
  {
    var accepted := Deduplicated(sources, inventory);
    EveryFormOnce(sources, inventory);
    OrderedKeepsForms(accepted, curated);
    var ordered := Ordered(accepted, curated);
    forall i: nat | i < |ordered| ensures Presentable(RowsFor(overrides, ordered)[i]) <==> Sayable(overrides, ordered[i]) {
      PresentableExactlyWhen(sources, overrides, inventory, ordered[i], i);
    }
    EveryRow(overrides, accepted, ordered);
  }

  lemma EveryRow(overrides: map<string, Curation>, accepted: seq<Accepted>, ordered: seq<Accepted>)
    requires |ordered| == |accepted| && forall a :: a in ordered <==> a in accepted
    requires forall i: nat :: i < |ordered| ==>
               (Presentable(RowsFor(overrides, ordered)[i]) <==> Sayable(overrides, ordered[i]))
    ensures Loadable(RowsFor(overrides, ordered)) <==>
            1 <= |accepted| <= MAX_PRONUNCIATIONS_PER_WORD && forall a :: a in accepted ==> Sayable(overrides, a)
  {
    var rows := RowsFor(overrides, ordered);
    assert forall i: nat :: i < |rows| ==> rows[i].order == i && (rows[i].primary <==> i == 0);
    if Loadable(rows) {
      forall a | a in accepted ensures Sayable(overrides, a) {
        var i: nat :| i < |ordered| && ordered[i] == a;
        assert Presentable(rows[i]);
      }
    }
    if forall a :: a in accepted ==> Sayable(overrides, a) {
      forall i: nat | i < |rows| ensures Presentable(rows[i]) {
        assert ordered[i] in accepted;
      }
    }
  }
}
