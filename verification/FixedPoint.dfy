/** An accepted canonical form is its own canonical form, through every rewrite pass and guard. */
module FixedPoint {
  import opened Wrappers
  import opened Inventory
  import opened Tokenisation
  import opened SourceProfile

  predicate Canonical(text: string) {
    forall i :: 0 <= i < |text| ==> !IsSourceNotation(text[i])
  }

  lemma {:induction false} TokenisedIsCanonical(text: string, inventory: Inventory)
    requires WellFormed(inventory) && Tokenise(text, inventory).Some?
    ensures Canonical(text)
  {
    if text != "" {
      if IsPermittedMark(text[0]) {
        TokenisedIsCanonical(text[1..], inventory);
        assert text == [text[0]] + text[1..];
      } else {
        var w := LongestMatch(text, inventory);
        LongestIsWidest(text, inventory);
        TokenisedIsCanonical(text[w..], inventory);
        assert text == text[..w] + text[w..];
        forall i | 0 <= i < w ensures !IsSourceNotation(text[i]) {
          assert IsSymbolChar(text[..w][i]);
        }
      }
    }
  }

  /** A literal pass does nothing when some character of its pattern is not there. */
  lemma {:induction false} LiteralPassIdle(text: string, pattern: string, to: string, k: nat)
    requires k < |pattern| && pattern[k] !in text
    ensures ReplaceAll(text, pattern, to) == text
  {
    if text != "" {
      if |text| > k {
        assert text[k] in text;
      }
      LiteralPassIdle(text[1..], pattern, to, k);
    }
  }

  lemma {:induction false} SyllabicPassIdle(text: string)
    requires '\U{0329}' !in text
    ensures ExpandSyllabics(text) == text
  {
    if text != "" {
      assert |text| >= 2 ==> text[1] in text;
      SyllabicPassIdle(text[1..]);
    }
  }

  lemma NotationResolved(text: string)
    requires Canonical(text)
    ensures ResolveNotation(text) == text
  {
    LiteralPassIdle(text, "\U{0361}", "", 0);
    LiteralPassIdle(text, "g", "ɡ", 0);
    LiteralPassIdle(text, "r", "ɹ", 0);
    LiteralPassIdle(text, "ː", "", 0);
    LiteralPassIdle(text, "ɔʊ\U{032F}", "oʊ", 2);
    LiteralPassIdle(text, "\U{032F}", "", 0);
    SyllabicPassIdle(text);
    LiteralPassIdle(text, "(ɹ)", "ɹ", 0);
  }

  /** The rule fires nowhere in the text. */
  predicate Settled(text: string, rule: RhoticRule) {
    text == "" || (!Fires(text, rule) && Settled(text[1..], rule))
  }

  /** One of the three merges the profile makes. */
  predicate IsMerge(rule: RhoticRule) {
    rule in {NURSE, SCHWA, FORCE}
  }

  lemma {:induction false} SettledIsFixed(text: string, rule: RhoticRule)
    requires Settled(text, rule)
    ensures Rewrite(text, rule) == text
  {
    if text != "" {
      SettledIsFixed(text[1..], rule);
    }
  }

  /** A rewrite leaves emptiness, the leading `ɹ` and the vowel quality of the first character as they were. */
  lemma RewriteHead(text: string, rule: RhoticRule)
    requires IsMerge(rule)
    ensures (Rewrite(text, rule) == "") == (text == "")
    ensures text != "" ==> IsVowelish(Rewrite(text, rule)[0]) == IsVowelish(text[0])
    ensures text != "" ==> (Rewrite(text, rule)[0] == 'ɹ') == (text[0] == 'ɹ')
  {
  }

  lemma HeadStaysQuiet(text: string, rule: RhoticRule, other: RhoticRule)
    requires IsMerge(rule) && IsMerge(other)
    requires text != "" && !Fires(text, rule) && !Fires(text, other)
    ensures !Fires([text[0]] + Rewrite(text[1..], rule), other)
  {
    RewriteHead(text[1..], rule);
    if |text| >= 2 && text[1] == 'ɹ' {
      RewriteHead(text[2..], rule);
      assert text[1..][1..] == text[2..];
      assert Rewrite(text[1..], rule) == ['ɹ'] + Rewrite(text[2..], rule);
    }
  }

  lemma SettledBehind(c: char, rest: string, other: RhoticRule)
    requires c != other.from && Settled(rest, other)
    ensures Settled([c] + rest, other)
  {
    assert ([c] + rest)[1..] == rest;
  }

  /** No merge writes a letter that another merge could begin with. */
  lemma MergedSettles(rule: RhoticRule, rest: string, other: RhoticRule)
    requires IsMerge(rule) && IsMerge(other) && Settled(rest, other)
    ensures Settled(rule.to + rest, other)
  {
    if rule == FORCE {
      SettledBehind('ɹ', rest, other);
      SettledBehind('ɔ', ['ɹ'] + rest, other);
      assert rule.to + rest == ['ɔ'] + (['ɹ'] + rest);
    } else {
      SettledBehind(rule.to[0], rest, other);
      assert rule.to + rest == [rule.to[0]] + rest;
    }
  }

  /** What one pass removed or never saw, no later pass brings back. */
  lemma {:induction false} RewriteSettles(text: string, rule: RhoticRule, other: RhoticRule)
    requires IsMerge(rule) && IsMerge(other)
    requires rule == other || Settled(text, other)
    ensures Settled(Rewrite(text, rule), other)
  {
    if text == "" {
    } else if Fires(text, rule) {
      RewriteSettles(text[2..], rule, other);
      MergedSettles(rule, Rewrite(text[2..], rule), other);
    } else {
      RewriteSettles(text[1..], rule, other);
      var rest := Rewrite(text[1..], rule);
      var result := [text[0]] + rest;
      assert result[1..] == rest;
      HeadStaysQuiet(text, rule, other);
    }
  }

  lemma MergesSettle(form: string)
    ensures MergeRhotics(MergeRhotics(form)) == MergeRhotics(form)
  {
    var a := Rewrite(form, NURSE);
    var b := Rewrite(a, SCHWA);
    var c := Rewrite(b, FORCE);
    RewriteSettles(form, NURSE, NURSE);
    RewriteSettles(a, SCHWA, SCHWA);
    RewriteSettles(a, SCHWA, NURSE);
    RewriteSettles(b, FORCE, FORCE);
    RewriteSettles(b, FORCE, SCHWA);
    RewriteSettles(b, FORCE, NURSE);
    SettledIsFixed(c, NURSE);
    SettledIsFixed(c, SCHWA);
    SettledIsFixed(c, FORCE);
  }

  lemma {:induction false} DistinctKeeps(forms: seq<string>, x: string)
    ensures x in Distinct(forms) <==> x in forms
  {
    if forms != [] {
      DistinctKeeps(forms[..|forms| - 1], x);
      assert forms == forms[..|forms| - 1] + [forms[|forms| - 1]];
    }
  }

  lemma {:induction false} AcceptedForm(forms: seq<string>, inventory: Inventory, k: nat)
    requires TokeniseAll(forms, inventory).Some? && k < |TokeniseAll(forms, inventory).value|
    ensures |TokeniseAll(forms, inventory).value| == |forms|
    ensures var form := TokeniseAll(forms, inventory).value[k];
            form.ipa == forms[k] && '(' !in form.ipa && ')' !in form.ipa &&
            Tokenise(form.ipa, inventory) == Some(form.units)
    decreases |forms|
  {
    if |forms| > 1 {
      AcceptedForm(forms[1..], inventory, if k > 0 then k - 1 else 0);
    }
  }

  lemma SingleForm(text: string)
    requires '(' !in text
    ensures Distinct(ExpandRounds(text, 4)) == [text]
    ensures Distinct(MergeEach([text])) == [MergeRhotics(text)]
  {
    assert !HasOptional(ExpandRounds(text, 0));
    NoFurtherRounds(text, 0, 4);
    assert [text][..0] == [];
    assert MergeEach([text]) == [MergeRhotics(text)];
    assert [MergeRhotics(text)][..0] == [];
  }

  /**
   * Re-running the whole profile and the tokeniser on any form an accepted transcription produced
   * accepts with exactly that one form and the same units.
   */
  lemma CanonicalFormsAreFixedPoints(raw: string, inventory: Inventory, form: Form)
    requires WellFormed(inventory)
    requires TokeniseTranscription(raw, inventory).Some? && form in TokeniseTranscription(raw, inventory).value
    ensures TokeniseTranscription(form.ipa, inventory) == Some([form])
  {
    AcceptedFormFacts(CanonicalForms(raw), inventory, form);
    TokenisedIsCanonical(form.ipa, inventory);
    MergedAlready(raw, form.ipa);
    CanonicalFormIsItsOwn(form.ipa);
    AcceptAlone(form, inventory);
  }

  lemma AcceptedFormFacts(forms: seq<string>, inventory: Inventory, form: Form)
    requires TokeniseAll(forms, inventory).Some? && form in TokeniseAll(forms, inventory).value
    ensures form.ipa in forms && '(' !in form.ipa && ')' !in form.ipa
    ensures Tokenise(form.ipa, inventory) == Some(form.units)
  {
    var accepted := TokeniseAll(forms, inventory).value;
    var k :| 0 <= k < |accepted| && accepted[k] == form;
    AcceptedForm(forms, inventory, k);
  }

  lemma AcceptAlone(form: Form, inventory: Inventory)
    requires '(' !in form.ipa && ')' !in form.ipa && Tokenise(form.ipa, inventory) == Some(form.units)
    ensures TokeniseAll([form.ipa], inventory) == Some([form])
  {
    assert [form.ipa][1..] == [] && [form] + [] == [form];
  }

  lemma MergedAlready(raw: string, ipa: string)
    requires ipa in CanonicalForms(raw)
    ensures MergeRhotics(ipa) == ipa
  {
    var expanded := Distinct(ExpandRounds(ResolveNotation(raw), 4));
    var merged := MergeEach(expanded);
    DistinctKeeps(merged, ipa);
    var j :| 0 <= j < |merged| && merged[j] == ipa;
    MergesSettle(expanded[j]);
  }

  lemma CanonicalFormIsItsOwn(ipa: string)
    requires Canonical(ipa) && '(' !in ipa && MergeRhotics(ipa) == ipa
    ensures CanonicalForms(ipa) == [ipa]
  {
    NotationResolved(ipa);
    SingleForm(ipa);
  }

  /** A source row never vanishes: normalisation always yields at least one form. */
  lemma {:induction false} NeverEmpty(raw: string, inventory: Inventory)
    ensures CanonicalForms(raw) != []
    ensures TokeniseTranscription(raw, inventory).Some? ==> TokeniseTranscription(raw, inventory).value != []
  {
    var expanded := ExpandRounds(ResolveNotation(raw), 4);
    DistinctKeeps(expanded, expanded[0]);
    var merged := MergeEach(Distinct(expanded));
    assert merged != [];
    DistinctKeeps(merged, merged[0]);
  }
}
