/** Forms that hold no unit at all: which of them pass the loading gate, though none can be composed for display. */
module MarkForms {
  import B = Breakdown
  import opened Entries
  import opened FixedPoint
  import opened Inventory
  import opened Recomposition
  import opened SourceProfile
  import opened Tokenisation
  import opened Wrappers

  predicate OnlyMarks(text: string) {
    forall i :: 0 <= i < |text| ==> IsPermittedMark(text[i])
  }

  function StressMarks(text: string): nat {
    if text == "" then 0 else (if IsStressMark(text[0]) then 1 else 0) + StressMarks(text[1..])
  }

  lemma {:induction false} NoUnitsMeansMarks(text: string, inventory: Inventory)
    requires WellFormed(inventory)
    ensures Tokenise(text, inventory) == Some([]) <==> OnlyMarks(text)
  {
    if text != "" && IsPermittedMark(text[0]) {
      NoUnitsMeansMarks(text[1..], inventory);
      assert OnlyMarks(text[1..]) ==> forall i :: 0 < i < |text| ==> text[i] == text[1..][i - 1];
      assert OnlyMarks(text) ==> forall i :: 0 <= i < |text| - 1 ==> text[1..][i] == text[i + 1];
    }
  }

  lemma {:induction false} MarksHoldNoRhotic(text: string, rule: RhoticRule)
    requires OnlyMarks(text) && !IsPermittedMark(rule.from)
    ensures Settled(text, rule)
  {
    if text != "" { MarksHoldNoRhotic(text[1..], rule); }
  }

  /** Such a form is canonical already. */
  lemma MarksAreCanonical(text: string, inventory: Inventory)
    requires WellFormed(inventory) && OnlyMarks(text)
    ensures TokeniseTranscription(text, inventory) == Some([Form(text, [])])
  {
    NoUnitsMeansMarks(text, inventory);
    TokenisedIsCanonical(text, inventory);
    MarksHoldNoRhotic(text, NURSE);
    MarksHoldNoRhotic(text, SCHWA);
    MarksHoldNoRhotic(text, FORCE);
    SettledIsFixed(text, NURSE);
    SettledIsFixed(text, SCHWA);
    SettledIsFixed(text, FORCE);
    CanonicalFormIsItsOwn(text);
    AcceptAlone(Form(text, []), inventory);
  }

  ghost predicate LoneMarks(pieces: seq<string>) {
    forall i :: 0 <= i < |pieces| ==> |pieces[i]| == 1 && IsStressMark(pieces[i][0])
  }

  /** Every stress mark is a piece of its own. */
  lemma {:induction false} PiecesOfMarks(current: string, text: string)
    requires OnlyMarks(text) && (current == "" || (|current| == 1 && IsStressMark(current[0])))
    ensures LoneMarks(B.Pieces(current, text))
    ensures |B.Pieces(current, text)| == |current| + StressMarks(text)
    ensures [PRIMARY_STRESS] in B.Pieces(current, text) <==> current == [PRIMARY_STRESS] || PRIMARY_STRESS in text
    decreases |text|
  {
    if text != "" {
      var rest := text[1..];
      assert text == [text[0]] + rest;
      assert OnlyMarks(rest);
      if text[0] == '.' {
        PiecesOfMarks("", rest);
        assert B.Pieces(current, text) == B.Flush(current) + B.Pieces("", rest);
      } else {
        PiecesOfMarks([text[0]], rest);
        NothingAdded([text[0]]);
        NothingAdded(B.Pieces([text[0]], rest));
        assert B.Pieces(current, text) == B.Flush(current) + B.Pieces([text[0]], rest);
      }
    }
  }

  lemma {:induction false} SplitPast(current: string, s: string, rest: string)
    requires B.MIDDLE_DOT !in s
    ensures SplitAtDots(current, s + rest) == SplitAtDots(current + s, rest)
    decreases |s|
  {
    if s == "" {
      NothingAdded(rest);
      NothingAdded(current);
    } else {
      assert (s + rest)[0] == s[0] && (s + rest)[1..] == s[1..] + rest;
      SplitPast(current + [s[0]], s[1..], rest);
      assert (current + [s[0]]) + s[1..] == current + s;
    }
  }

  /** Splitting what was joined gives the pieces back. */
  lemma {:induction false} SplitJoined(pieces: seq<string>)
    requires pieces != [] && forall i :: 0 <= i < |pieces| ==> B.MIDDLE_DOT !in pieces[i]
    ensures SplitAtDots("", B.JoinPieces(pieces)) == pieces
  {
    var first := pieces[0];
    NothingAdded(first);
    if |pieces| == 1 {
      SplitPast("", first, "");
      assert pieces == [first];
    } else {
      var rest := B.JoinPieces(pieces[1..]);
      SplitJoined(pieces[1..]);
      SplitPast("", first, [B.MIDDLE_DOT] + rest);
      assert first + ([B.MIDDLE_DOT] + rest) == first + [B.MIDDLE_DOT] + rest;
      assert ([B.MIDDLE_DOT] + rest)[1..] == rest;
    }
  }

  lemma {:induction false} JoinedHolds(pieces: seq<string>, c: char)
    requires c != B.MIDDLE_DOT
    ensures c in B.JoinPieces(pieces) <==> exists i :: 0 <= i < |pieces| && c in pieces[i]
  {
    if |pieces| > 1 {
      JoinedHolds(pieces[1..], c);
      assert forall i :: 0 < i < |pieces| ==> pieces[i] == pieces[1..][i - 1];
    }
  }

  lemma NothingCounted()
    ensures B.JoinPieces([]) == "" && SyllableCount("") == 0
  {
    assert SplitAtDots("", "") == [""];
  }

  lemma CountSplit(text: string, pieces: seq<string>)
    requires LoneMarks(pieces) && SplitAtDots("", text) == pieces
    ensures SyllableCount(text) == |pieces|
  {
    B.NothingIsBlank(pieces);
  }

  lemma CountJoined(pieces: seq<string>)
    requires LoneMarks(pieces)
    ensures SyllableCount(B.JoinPieces(pieces)) == |pieces|
  {
    if pieces == [] {
      NothingCounted();
    } else {
      SplitJoined(pieces);
      CountSplit(B.JoinPieces(pieces), pieces);
    }
  }

  lemma StressJoined(pieces: seq<string>)
    requires LoneMarks(pieces)
    ensures PRIMARY_STRESS in B.JoinPieces(pieces) <==> [PRIMARY_STRESS] in pieces
  {
    JoinedHolds(pieces, PRIMARY_STRESS);
    forall i | 0 <= i < |pieces| ensures PRIMARY_STRESS in pieces[i] <==> pieces[i] == [PRIMARY_STRESS] {
    }
  }

  /** The breakdown has a syllable for every stress mark, and shows primary stress exactly when the form does. */
  lemma BreakdownOfMarks(text: string)
    requires OnlyMarks(text)
    ensures B.DeriveBreakdown(text) == "" <==> StressMarks(text) == 0
    ensures SyllableCount(B.DeriveBreakdown(text)) == StressMarks(text)
    ensures PRIMARY_STRESS in B.DeriveBreakdown(text) <==> PRIMARY_STRESS in text
  {
    var pieces := B.Pieces("", text);
    PiecesOfMarks("", text);
    B.NothingIsBlank(pieces);
    NothingCounted();
    CountJoined(pieces);
    StressJoined(pieces);
  }

  lemma OneSource(text: string, inventory: Inventory)
    requires TokeniseTranscription(text, inventory) == Some([Form(text, [])])
    ensures Deduplicated([text], inventory) ==
            if ShowsStress(B.DeriveBreakdown(text)) then [Accepted(text, text)] else []
  {
    assert [text][..0] == [];
    assert Deduplicated([text], inventory) == AddForm([], text, Admit(text, inventory));
    assert FormsOf([]) == [];
  }

  /**
   * A form without a unit is never composed, and yet it loads, on its own, exactly when it holds one stress mark, or
   * several with a primary one among them.
   */
  lemma UnitlessFormsLoadExactlyWhen(text: string, curated: bool, inventory: Inventory)
    requires WellFormed(inventory) && Tokenise(text, inventory) == Some([])
    ensures Compose(text, []) == None
    ensures Loadable(NormalisedEntry([text], curated, map[], inventory)) <==>
            StressMarks(text) == 1 || (StressMarks(text) > 1 && PRIMARY_STRESS in text)
  {
    NoUnitsMeansMarks(text, inventory);
    MarksAreCanonical(text, inventory);
    BreakdownOfMarks(text);
    OneSource(text, inventory);
    NormalisedLoadsExactlyWhen([text], curated, map[], inventory);
    SayableWhen(text);
  }

  lemma SayableWhen(text: string)
    requires OnlyMarks(text)
    ensures Sayable(map[], Accepted(text, text)) <==> StressMarks(text) > 0
  {
    BreakdownOfMarks(text);
  }

  /** A stress mark alone passes every gate and is then not displayed. */
  lemma AStressMarkAloneLoads(inventory: Inventory)
    requires WellFormed(inventory)
    ensures Tokenise("ˈ", inventory) == Some([]) && Compose("ˈ", []) == None
    ensures Loadable(NormalisedEntry(["ˈ"], true, map[], inventory))
  {
    NoUnitsMeansMarks("ˈ", inventory);
    UnitlessFormsLoadExactlyWhen("ˈ", true, inventory);
  }
}
