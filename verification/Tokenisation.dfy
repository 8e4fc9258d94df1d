/** Longest-match tokenisation of one canonical form. */
module Tokenisation {
  import opened Wrappers
  import opened Inventory
  import opened Alignment

  /** The widest symbol, at most `width` characters long, that `text` starts with; 0 when there is none. */
  function LongestUpTo(text: string, inventory: Inventory, width: nat): (w: nat)
    requires width <= |text|
    ensures w <= width
    ensures w > 0 ==> text[..w] in inventory.symbols
  {
    if width == 0 then 0
    else if text[..width] in inventory.symbols then width
    else LongestUpTo(text, inventory, width - 1)
  }

  lemma {:induction false} LongestUpToIsMaximal(text: string, inventory: Inventory, width: nat, s: string)
    requires width <= |text| && s in inventory.symbols && s <= text && |s| <= width
    ensures |s| <= LongestUpTo(text, inventory, width)
  {
    if width > 0 && text[..width] !in inventory.symbols {
      assert text[..|s|] == s;
      LongestUpToIsMaximal(text, inventory, width - 1, s);
    }
  }

  function LongestMatch(text: string, inventory: Inventory): (w: nat)
    ensures w <= |text|
  {
    LongestUpTo(text, inventory, if inventory.maxLength < |text| then inventory.maxLength else |text|)
  }

  function Tokenise(text: string, inventory: Inventory): Option<seq<string>> {
    if text == "" then Some([])
    else if IsPermittedMark(text[0]) then Tokenise(text[1..], inventory)
    else
      var w := LongestMatch(text, inventory);
      if w == 0 then None
      else
        Prepend([text[..w]], Tokenise(text[w..], inventory))
  }

  function Prepend<T>(units: seq<T>, rest: Option<seq<T>>): Option<seq<T>> {
    if rest.None? then None else Some(units + rest.value)
  }

  lemma PrependAssociates<T>(units: seq<T>, more: seq<T>, rest: Option<seq<T>>)
    ensures Prepend(units, Prepend(more, rest)) == Prepend(units + more, rest)
    ensures Prepend([], rest) == rest
  {
    if rest.Some? {
      assert units + (more + rest.value) == (units + more) + rest.value;
      assert [] + rest.value == rest.value;
    }
  }

  /** The inner scan: the widest candidate first. */
  method MatchAt(form: string, index: nat, inventory: Inventory) returns (matched: Option<string>)
    requires index < |form|
    ensures var w := LongestMatch(form[index..], inventory);
            matched == if w == 0 then None else Some(form[index..index + w])
  {
    var start := if inventory.maxLength < |form| - index then inventory.maxLength else |form| - index;
    var width := start;
    while width >= 1
      invariant 0 <= width <= start
      invariant LongestMatch(form[index..], inventory) == LongestUpTo(form[index..], inventory, width)
    {
      var candidate := form[index..index + width];
      assert candidate == form[index..][..width];
      if candidate in inventory.symbols {
        return Some(candidate);
      }
      width := width - 1;
    }
    return None;
  }

  /** The seed-time scan. A rejection reports the first character no symbol and no mark explains. */
  method TokenizeForm(form: string, inventory: Inventory)
    returns (ok: bool, units: seq<string>, offending: Option<char>, offset: nat)
    ensures ok <==> Tokenise(form, inventory).Some?
    ensures ok ==> Some(units) == Tokenise(form, inventory)
    ensures !ok ==> offset < |form| && offending == Some(form[offset]) && !IsPermittedMark(form[offset])
    ensures !ok ==> LongestMatch(form[offset..], inventory) == 0
  {
    units := [];
    var index := 0;
    assert form[0..] == form;
    PrependAssociates([], [], Tokenise(form, inventory));
    while index < |form|
      invariant index <= |form|
      invariant Tokenise(form, inventory) == Prepend(units, Tokenise(form[index..], inventory))
      decreases |form| - index
    {
      ghost var text := form[index..];
      if IsPermittedMark(form[index]) {
        assert text[1..] == form[index + 1..];
        index := index + 1;
        continue;
      }
      var matched := MatchAt(form, index, inventory);
      if matched.None? {
        return false, units, Some(form[index]), index;
      }
      ghost var rest := Tokenise(text[|matched.value|..], inventory);
      assert text[|matched.value|..] == form[index + |matched.value|..];
      assert text[..|matched.value|] == matched.value;
      PrependAssociates(units, [matched.value], rest);
      units := units + [matched.value];
      index := index + |matched.value|;
    }
    assert form[index..] == "";
    assert units + [] == units;
    return true, units, None, |form|;
  }

  /** `unit` starts `text` and no longer symbol of the inventory does. */
  ghost predicate Widest(unit: string, text: string, inventory: Inventory) {
    unit in inventory.symbols && unit <= text &&
    forall s :: s in inventory.symbols && s <= text ==> |s| <= |unit|
  }

  /** Reference definition: at every unit's position no longer symbol of the inventory fits. */
  ghost predicate Munched(units: seq<string>, marks: seq<string>, inventory: Inventory)
    requires |marks| == |units| + 1
  {
    units == [] ||
    (Widest(units[0], units[0] + Render(units[1..], marks[1..]), inventory) &&
     Munched(units[1..], marks[1..], inventory))
  }

  lemma LongestIsWidest(text: string, inventory: Inventory)
    requires WellFormed(inventory)
    ensures var w := LongestMatch(text, inventory);
            w > 0 ==> Widest(text[..w], text, inventory) && IsSymbol(text[..w])
  {
    var w := LongestMatch(text, inventory);
    var bound := if inventory.maxLength < |text| then inventory.maxLength else |text|;
    forall s | s in inventory.symbols && s <= text
      ensures |s| <= w
    {
      LongestUpToIsMaximal(text, inventory, bound, s);
    }
  }

  lemma WidestIsLongest(unit: string, text: string, inventory: Inventory)
    requires WellFormed(inventory) && Widest(unit, text, inventory)
    ensures LongestMatch(text, inventory) == |unit| && text[..|unit|] == unit
    ensures IsSymbol(unit)
  {
    LongestIsWidest(text, inventory);
    assert |unit| <= inventory.maxLength && |unit| <= |text|;
    LongestUpToIsMaximal(text, inventory, if inventory.maxLength < |text| then inventory.maxLength else |text|, unit);
  }

  lemma {:induction false} TokeniseIsMunch(text: string, inventory: Inventory)
    requires WellFormed(inventory) && Tokenise(text, inventory).Some?
    ensures var units := Tokenise(text, inventory).value;
            AllSymbols(units) && Align(text, units, PermittedMarks).Some? &&
            Munched(units, Align(text, units, PermittedMarks).value, inventory)
  {
    var units := Tokenise(text, inventory).value;
    if text == "" {
    } else if IsPermittedMark(text[0]) {
      TokeniseIsMunch(text[1..], inventory);
      MunchAfterMark(text, units, inventory);
    } else {
      var w := LongestMatch(text, inventory);
      LongestIsWidest(text, inventory);
      TokeniseIsMunch(text[w..], inventory);
      var rest := Tokenise(text[w..], inventory).value;
      assert units == [text[..w]] + rest && units[1..] == rest;
      MunchAfterUnit(text, units, inventory);
    }
  }

  lemma MunchAfterMark(text: string, units: seq<string>, inventory: Inventory)
    requires text != "" && IsPermittedMark(text[0]) && AllSymbols(units)
    requires Align(text[1..], units, PermittedMarks).Some?
    requires Munched(units, Align(text[1..], units, PermittedMarks).value, inventory)
    ensures Align(text, units, PermittedMarks).Some?
    ensures Munched(units, Align(text, units, PermittedMarks).value, inventory)
  {
    var marks := Align(text[1..], units, PermittedMarks).value;
    if units != [] {
      assert IsSymbol(units[0]);
      SymbolIsNoMark(units[0], PermittedMarks, text);
    }
    assert MarkFront(text[0], marks)[1..] == marks[1..];
    assert Align(text, units, PermittedMarks) == Some(MarkFront(text[0], marks));
  }

  lemma MunchAfterUnit(text: string, units: seq<string>, inventory: Inventory)
    requires units != [] && AllSymbols(units) && Widest(units[0], text, inventory)
    requires var rest := Align(text[|units[0]|..], units[1..], PermittedMarks);
             rest.Some? && Munched(units[1..], rest.value, inventory)
    ensures Align(text, units, PermittedMarks).Some?
    ensures Munched(units, Align(text, units, PermittedMarks).value, inventory)
  {
    var tail := text[|units[0]|..];
    var marks := Align(tail, units[1..], PermittedMarks).value;
    assert IsSymbol(units[0]);
    var longer := [""] + marks;
    assert longer[1..] == marks;
    assert Align(text, units, PermittedMarks) == Some(longer);
    AlignSound(tail, units[1..], PermittedMarks);
    assert text == units[0] + Render(units[1..], marks);
  }

  lemma {:induction false} MunchIsTokenise(units: seq<string>, marks: seq<string>, inventory: Inventory)
    requires WellFormed(inventory) && |marks| == |units| + 1 && OnlyMarks(PermittedMarks, marks)
    requires Munched(units, marks, inventory)
    ensures Tokenise(Render(units, marks), inventory) == Some(units)
    decreases |units|, |marks[0]|
  {
    if marks[0] != "" {
      var c, rest := TakeMark(marks, PermittedMarks);
      RenderMarkFront(c, units, rest, PermittedMarks);
      MunchedIgnoresFirstMark(units, marks, rest, inventory);
      MunchIsTokenise(units, rest, inventory);
      TokeniseMark(c, Render(units, rest), inventory);
    } else if units != [] {
      MunchIsTokenise(units[1..], marks[1..], inventory);
      TokeniseUnit(units, marks, inventory);
    }
  }

  lemma MunchedIgnoresFirstMark(units: seq<string>, marks: seq<string>, others: seq<string>, inventory: Inventory)
    requires |marks| == |units| + 1 && |others| == |marks| && others[1..] == marks[1..]
    requires Munched(units, marks, inventory)
    ensures Munched(units, others, inventory)
  {
  }

  lemma TokeniseMark(c: char, rest: string, inventory: Inventory)
    requires IsPermittedMark(c)
    ensures Tokenise([c] + rest, inventory) == Tokenise(rest, inventory)
  {
    assert ([c] + rest)[1..] == rest;
  }

  lemma TokeniseUnit(units: seq<string>, marks: seq<string>, inventory: Inventory)
    requires WellFormed(inventory) && units != [] && |marks| == |units| + 1 && marks[0] == ""
    requires Widest(units[0], units[0] + Render(units[1..], marks[1..]), inventory)
    requires Tokenise(Render(units[1..], marks[1..]), inventory) == Some(units[1..])
    ensures Tokenise(Render(units, marks), inventory) == Some(units)
  {
    var unit, rest := units[0], Render(units[1..], marks[1..]);
    var text := unit + rest;
    assert [""] + marks[1..] == marks;
    RenderUnitFront(units, marks[1..], PermittedMarks);
    WidestIsLongest(unit, text, inventory);
    assert text[|unit|..] == rest;
    assert IsSymbolChar(text[0]) by { assert text[0] == unit[0]; }
    assert [unit] + units[1..] == units;
  }

  /**
   * The tokeniser is maximal munch: it accepts a text with units `units` exactly when the text is those
   * units with permitted marks between them and no unit could have been longer where it stands.
   */
  lemma TokeniseCharacterised(text: string, units: seq<string>, inventory: Inventory)
    requires WellFormed(inventory)
    ensures Tokenise(text, inventory) == Some(units) <==>
            exists marks: seq<string> :: |marks| == |units| + 1 && OnlyMarks(PermittedMarks, marks) &&
                                         Render(units, marks) == text && Munched(units, marks, inventory)
  {
    if Tokenise(text, inventory) == Some(units) {
      TokeniseIsMunch(text, inventory);
      AlignSound(text, units, PermittedMarks);
    }
    forall marks: seq<string> | |marks| == |units| + 1 && OnlyMarks(PermittedMarks, marks) &&
                                Render(units, marks) == text && Munched(units, marks, inventory)
      ensures Tokenise(text, inventory) == Some(units)
    {
      MunchIsTokenise(units, marks, inventory);
    }
  }

  /** `more` is `marks` with further marks written in. */
  ghost predicate AddsMarks(marks: seq<string>, more: seq<string>)
  {
    |marks| == |more| && forall i :: 0 <= i < |marks| ==> more[i] == "" ==> marks[i] == ""
  }

  lemma {:induction false} MarkFreePrefix(units: seq<string>, marks: seq<string>, more: seq<string>, s: string)
    requires |marks| == |units| + 1 && AddsMarks(marks, more) && OnlyMarks(PermittedMarks, more)
    requires forall i :: 0 <= i < |s| ==> !IsPermittedMark(s[i])
    requires s <= Render(units, more)
    ensures s <= Render(units, marks)
    decreases |units|
  {
    if more[0] != "" {
      assert IsMarkString(PermittedMarks, more[0]);
      assert Tolerates(PermittedMarks, more[0][0]);
      assert Render(units, more)[0] == more[0][0];
      assert s == "";
    } else if units != [] {
      var u, tailMore := units[0], Render(units[1..], more[1..]);
      assert Render(units, more) == u + tailMore;
      assert Render(units, marks) == u + Render(units[1..], marks[1..]);
      assert AddsMarks(marks[1..], more[1..]) && OnlyMarks(PermittedMarks, more[1..]);
      if |s| > |u| {
        WiderThanPrefix(u, tailMore, s);
        MarkFreePrefix(units[1..], marks[1..], more[1..], s[|u|..]);
      } else {
        assert s == u[..|s|];
      }
    }
  }

  lemma WiderThanPrefix(u: string, tail: string, s: string)
    requires s <= u + tail && |s| > |u|
    ensures s == u + s[|u|..] && s[|u|..] <= tail
  {
    assert (u + tail)[..|s|] == s;
    assert tail[..|s| - |u|] == s[|u|..];
    assert s[..|u|] == u;
  }

  /** A symbol that still fits once marks are written in fitted before. */
  lemma FitsWithoutMarks(units: seq<string>, marks: seq<string>, more: seq<string>, u: string, s: string)
    requires |marks| == |units| + 1 && AddsMarks(marks, more) && OnlyMarks(PermittedMarks, more)
    requires IsSymbol(s) && s <= u + Render(units, more)
    ensures s <= u + Render(units, marks)
  {
    if |s| > |u| {
      WiderThanPrefix(u, Render(units, more), s);
      assert forall i :: 0 <= i < |s| ==> IsSymbolChar(s[i]);
      MarkFreePrefix(units, marks, more, s[|u|..]);
    } else {
      assert s == u[..|s|];
    }
  }

  /** Writing marks between the units of a munched text leaves it munched: a mark only shortens what can match. */
  lemma {:induction false} MunchSurvivesMarks(units: seq<string>, marks: seq<string>, more: seq<string>, inventory: Inventory)
    requires WellFormed(inventory) && |marks| == |units| + 1
    requires AddsMarks(marks, more) && OnlyMarks(PermittedMarks, more)
    requires Munched(units, marks, inventory)
    ensures Munched(units, more, inventory)
    decreases |units|
  {
    if units != [] {
      assert AddsMarks(marks[1..], more[1..]) && OnlyMarks(PermittedMarks, more[1..]);
      MunchSurvivesMarks(units[1..], marks[1..], more[1..], inventory);
      WidestSurvivesMarks(units[1..], marks[1..], more[1..], units[0], inventory);
    }
  }

  lemma WidestSurvivesMarks(units: seq<string>, marks: seq<string>, more: seq<string>, u: string, inventory: Inventory)
    requires WellFormed(inventory) && |marks| == |units| + 1
    requires AddsMarks(marks, more) && OnlyMarks(PermittedMarks, more)
    requires Widest(u, u + Render(units, marks), inventory)
    ensures Widest(u, u + Render(units, more), inventory)
  {
    forall s | s in inventory.symbols && s <= u + Render(units, more)
      ensures |s| <= |u|
    {
      FitsWithoutMarks(units, marks, more, u, s);
    }
  }
}
