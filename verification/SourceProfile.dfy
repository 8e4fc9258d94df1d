/**
 * The source profile: rewrite passes that turn an upstream transcription into canonical forms.
 * Unicode normalisation is taken as the identity.
 */
module SourceProfile {
  import opened Wrappers
  import opened Inventory
  import opened Tokenisation

  /** Replace every occurrence of a literal pattern, leftmost first. */
  function ReplaceAll(text: string, pattern: string, to: string): string
    requires pattern != ""
  {
    if text == "" then ""
    else if pattern <= text then to + ReplaceAll(text[|pattern|..], pattern, to)
    else [text[0]] + ReplaceAll(text[1..], pattern, to)
  }

  /** A syllabic consonant is schwa plus that consonant. */
  function ExpandSyllabics(text: string): string {
    if text == "" then ""
    else if |text| >= 2 && text[0] in "lmnɫ" && text[1] == '\U{0329}' then ['ə', text[0]] + ExpandSyllabics(text[2..])
    else [text[0]] + ExpandSyllabics(text[1..])
  }

  function ResolveNotation(raw: string): string {
    var noTies := ReplaceAll(raw, "\U{0361}", "");
    var scriptG := ReplaceAll(noTies, "g", "ɡ");
    var turnedR := ReplaceAll(scriptG, "r", "ɹ");
    var noLength := ReplaceAll(turnedR, "ː", "");
    var goat := ReplaceAll(noLength, "ɔʊ\U{032F}", "oʊ");
    var noOffglide := ReplaceAll(goat, "\U{032F}", "");
    var syllabics := ExpandSyllabics(noOffglide);
    ReplaceAll(syllabics, "(ɹ)", "ɹ")
  }

  /** The first position of `c` at or after `from`, or the length when there is none. */
  function IndexOf(text: string, c: char, from: nat): (i: nat)
    requires from <= |text|
    ensures from <= i <= |text| && (i < |text| ==> text[i] == c)
    ensures forall j :: from <= j < i ==> text[j] != c
    decreases |text| - from
  {
    if from == |text| || text[from] == c then from else IndexOf(text, c, from + 1)
  }

  /** The leftmost bracketed segment kept, then dropped; a form without one stays as it is. */
  function ExpandOne(form: string): (forms: seq<string>)
    ensures forms != []
  {
    var open := IndexOf(form, '(', 0);
    var close := IndexOf(form, ')', open);
    if close == |form| then [form]
    else [form[..open] + form[open + 1..close] + form[close + 1..], form[..open] + form[close + 1..]]
  }

  function ExpandEach(forms: seq<string>): (expanded: seq<string>)
    ensures forms != [] ==> expanded != []
  {
    if forms == [] then [] else ExpandOne(forms[0]) + ExpandEach(forms[1..])
  }

  predicate HasOptional(forms: seq<string>) {
    exists form :: form in forms && '(' in form
  }

  /** The forms after so many rounds; a round changes nothing once no optional segment is left. */
  function ExpandRounds(input: string, rounds: nat): (forms: seq<string>)
    ensures forms != []
  {
    if rounds == 0 then [input] else ExpandEach(ExpandRounds(input, rounds - 1))
  }

  lemma {:induction false} NothingToExpand(forms: seq<string>)
    requires !HasOptional(forms)
    ensures ExpandEach(forms) == forms
  {
    if forms != [] {
      assert forms[0] in forms;
      assert ExpandOne(forms[0]) == [forms[0]];
      forall form | form in forms[1..] ensures '(' !in form {
        assert form in forms;
      }
      NothingToExpand(forms[1..]);
    }
  }

  lemma {:induction false} NoFurtherRounds(input: string, done: nat, rounds: nat)
    requires done <= rounds && !HasOptional(ExpandRounds(input, done))
    ensures ExpandRounds(input, rounds) == ExpandRounds(input, done)
  {
    if done < rounds {
      NoFurtherRounds(input, done, rounds - 1);
      IdleRound(input, rounds - 1, ExpandRounds(input, done));
    }
  }

  lemma IdleRound(input: string, rounds: nat, forms: seq<string>)
    requires ExpandRounds(input, rounds) == forms && !HasOptional(forms)
    ensures ExpandRounds(input, rounds + 1) == forms
  {
    NothingToExpand(forms);
  }

  /** First occurrences, in order. */
  function Distinct(forms: seq<string>): seq<string> {
    if forms == [] then []
    else
      var before := Distinct(forms[..|forms| - 1]);
      if forms[|forms| - 1] in before then before else before + [forms[|forms| - 1]]
  }

  const VOWELISH := "iɪɛæʌəɑɔʊuɝɚeaoɜɒɐʉø"

  predicate IsVowelish(c: char) {
    c in VOWELISH
  }

  /** A rewrite of `from` + `ɹ`; a guarded one fires only where the `ɹ` is not prevocalic. */
  datatype RhoticRule = RhoticRule(from: char, guarded: bool, to: string)

  const NURSE := RhoticRule('ɜ', true, "ɝ")
  const SCHWA := RhoticRule('ə', true, "ɚ")
  const FORCE := RhoticRule('o', false, "ɔɹ")

  predicate Fires(text: string, rule: RhoticRule) {
    |text| >= 2 && text[0] == rule.from && text[1] == 'ɹ' &&
    (rule.guarded && |text| > 2 ==> !IsVowelish(text[2]))
  }

  function Rewrite(text: string, rule: RhoticRule): string {
    if text == "" then ""
    else if Fires(text, rule) then rule.to + Rewrite(text[2..], rule)
    else [text[0]] + Rewrite(text[1..], rule)
  }

  function MergeRhotics(form: string): string {
    Rewrite(Rewrite(Rewrite(form, NURSE), SCHWA), FORCE)
  }

  function MergeEach(forms: seq<string>): (r: seq<string>)
    ensures |r| == |forms| && forall i :: 0 <= i < |r| ==> r[i] == MergeRhotics(forms[i])
  {
    seq(|forms|, i requires 0 <= i < |forms| => MergeRhotics(forms[i]))
  }

  function CanonicalForms(raw: string): seq<string> {
    Distinct(MergeEach(Distinct(ExpandRounds(ResolveNotation(raw), 4))))
  }

  lemma {:induction false} ExpandEachAppends(forms: seq<string>, last: string)
    ensures ExpandEach(forms + [last]) == ExpandEach(forms) + ExpandOne(last)
  {
    if forms == [] {
      assert ExpandEach([last]) == ExpandOne(last) + ExpandEach([]);
    } else {
      assert (forms + [last])[1..] == forms[1..] + [last];
      ExpandEachAppends(forms[1..], last);
    }
  }

  method Split(form: string) returns (forms: seq<string>)
    ensures forms == ExpandOne(form)
  {
    var open := IndexOf(form, '(', 0);
    var close := IndexOf(form, ')', open);
    if close == |form| { return [form]; }
    return [form[..open] + form[open + 1..close] + form[close + 1..], form[..open] + form[close + 1..]];
  }

  method ExpandOnce(forms: seq<string>) returns (next: seq<string>)
    ensures next == ExpandEach(forms)
  {
    next := [];
    for i := 0 to |forms|
      invariant next == ExpandEach(forms[..i])
    {
      assert forms[..i + 1] == forms[..i] + [forms[i]];
      ExpandEachAppends(forms[..i], forms[i]);
      var split := Split(forms[i]);
      next := next + split;
    }
    assert forms[..|forms|] == forms;
  }

  /** Bounded: four rounds, each splitting every form on its leftmost optional segment. */
  method ExpandOptionalSegments(input: string) returns (forms: seq<string>)
    ensures forms == Distinct(ExpandRounds(input, 4))
  {
    forms := [input];
    var guard := 0;
    while guard < 4 && HasOptional(forms)
      invariant 0 <= guard <= 4 && forms == ExpandRounds(input, guard)
    {
      forms := ExpandOnce(forms);
      guard := guard + 1;
    }
    if guard < 4 { NoFurtherRounds(input, guard, 4); }
    forms := Distinct(forms);
  }

  method MergeAll(expanded: seq<string>) returns (canonical: seq<string>)
    ensures canonical == MergeEach(expanded)
  {
    canonical := [];
    for i := 0 to |expanded|
      invariant |canonical| == i && forall j :: 0 <= j < i ==> canonical[j] == MergeRhotics(expanded[j])
    {
      var out := Rewrite(expanded[i], NURSE);
      out := Rewrite(out, SCHWA);
      out := Rewrite(out, FORCE);
      canonical := canonical + [out];
    }
  }

  /** The passes in the program's order, each reassigning the string. */
  method NormaliseSource(raw: string) returns (forms: seq<string>)
    ensures forms == CanonicalForms(raw)
  {
    var value := ReplaceAll(raw, "\U{0361}", "");
    value := ReplaceAll(value, "g", "ɡ");
    value := ReplaceAll(value, "r", "ɹ");
    value := ReplaceAll(value, "ː", "");
    value := ReplaceAll(value, "ɔʊ\U{032F}", "oʊ");
    value := ReplaceAll(value, "\U{032F}", "");
    value := ExpandSyllabics(value);
    value := ReplaceAll(value, "(ɹ)", "ɹ");
    var expanded := ExpandOptionalSegments(value);
    var canonical := MergeAll(expanded);
    forms := Distinct(canonical);
  }

  datatype Form = Form(ipa: string, units: seq<string>)

  function TokeniseAll(forms: seq<string>, inventory: Inventory): Option<seq<Form>> {
    if forms == [] then Some([])
    else if '(' in forms[0] || ')' in forms[0] then None
    else
      var units := Tokenise(forms[0], inventory);
      if units.None? then None
      else
        Prepend([Form(forms[0], units.value)], TokeniseAll(forms[1..], inventory))
  }

  /** The whole source row, or nothing: one bad realisation rejects them all. */
  function TokeniseTranscription(raw: string, inventory: Inventory): Option<seq<Form>> {
    TokeniseAll(CanonicalForms(raw), inventory)
  }

  method TokenizeTranscription(raw: string, inventory: Inventory) returns (result: Option<seq<Form>>)
    ensures result == TokeniseTranscription(raw, inventory)
  {
    var forms := NormaliseSource(raw);
    var tokenised: seq<Form> := [];
    PrependAssociates([], [], TokeniseAll(forms, inventory));
    assert forms[0..] == forms;
    for i := 0 to |forms|
      invariant TokeniseAll(forms, inventory) == Prepend(tokenised, TokeniseAll(forms[i..], inventory))
    {
      assert forms[i..][1..] == forms[i + 1..];
      if '(' in forms[i] || ')' in forms[i] {
        return None;
      }
      var ok, units, offending, offset := TokenizeForm(forms[i], inventory);
      if !ok {
        return None;
      }
      PrependAssociates(tokenised, [Form(forms[i], units)], TokeniseAll(forms[i + 1..], inventory));
      tokenised := tokenised + [Form(forms[i], units)];
    }
    assert tokenised + [] == tokenised;
    return Some(tokenised);
  }
}
