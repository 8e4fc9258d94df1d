/** Optimal String Alignment: the three-row loop, the recurrence it computes, and the edit scripts it minimises over. */
module Osa {
  import opened Wrappers

  function Min(x: nat, y: nat): nat {
    if x < y then x else y
  }

  /** The last two letters of the prefixes are each other's, swapped. */
  predicate Transposed(a: string, b: string, i: nat, j: nat)
    requires i <= |a| && j <= |b|
  {
    i > 1 && j > 1 && a[i - 1] == b[j - 2] && a[i - 2] == b[j - 1]
  }

  /** Edit distance between prefixes, with the adjacent swap among the edits or, as in plain Levenshtein, without. */
  function Recurrence(swaps: bool, a: string, b: string, i: nat, j: nat): nat
    requires i <= |a| && j <= |b|
    decreases i + j
  {
    if i == 0 then j
    else if j == 0 then i
    else
      var best := Min(Min(Recurrence(swaps, a, b, i, j - 1) + 1, Recurrence(swaps, a, b, i - 1, j) + 1),
                      Recurrence(swaps, a, b, i - 1, j - 1) + if a[i - 1] == b[j - 1] then 0 else 1);
      if swaps && Transposed(a, b, i, j) then Min(best, Recurrence(swaps, a, b, i - 2, j - 2) + 1) else best
  }

  /** The distance between the first `i` letters of `a` and the first `j` letters of `b`. */
  function Distance(a: string, b: string, i: nat, j: nat): nat
    requires i <= |a| && j <= |b|
  {
    Recurrence(true, a, b, i, j)
  }

  function Levenshtein(a: string, b: string, i: nat, j: nat): nat
    requires i <= |a| && j <= |b|
  {
    Recurrence(false, a, b, i, j)
  }

  function OsaDistance(a: string, b: string): nat {
    Distance(a, b, |a|, |b|)
  }

  ghost predicate RowHolds(row: array<nat>, a: string, b: string, i: nat, n: nat)
    requires i <= |a| && n <= |b| + 1
    reads row
  {
    row.Length == |b| + 1 && forall j: nat :: j < n ==> row[j] == Distance(a, b, i, j)
  }

  function PlainBest(a: string, b: string, i: nat, j: nat): nat
    requires 0 < i <= |a| && 0 < j <= |b|
  {
    Min(Min(Distance(a, b, i, j - 1) + 1, Distance(a, b, i - 1, j) + 1),
        Distance(a, b, i - 1, j - 1) + if a[i - 1] == b[j - 1] then 0 else 1)
  }

  lemma PlainCell(a: string, b: string, i: nat, j: nat)
    requires 0 < i <= |a| && 0 < j <= |b| && !Transposed(a, b, i, j)
    ensures Distance(a, b, i, j) == PlainBest(a, b, i, j)
  {
  }

  lemma SwapCell(a: string, b: string, i: nat, j: nat)
    requires 0 < i <= |a| && 0 < j <= |b| && Transposed(a, b, i, j)
    ensures Distance(a, b, i, j) == Min(PlainBest(a, b, i, j), Distance(a, b, i - 2, j - 2) + 1)
  {
  }

  /** Fills the row for one more letter of `a` from the two rows above it. */
  method FillRow(a: string, b: string, i: nat, twoAgo: array<nat>, previous: array<nat>, current: array<nat>)
    requires 0 < i <= |a| && current.Length == |b| + 1 && current != previous && current != twoAgo
    requires RowHolds(previous, a, b, i - 1, |b| + 1)
    requires twoAgo.Length == |b| + 1 && (i > 1 ==> RowHolds(twoAgo, a, b, i - 2, |b| + 1))
    modifies current
    ensures RowHolds(current, a, b, i, |b| + 1)
  {
    current[0] := i;
    for j: nat := 1 to |b| + 1
      invariant RowHolds(current, a, b, i, j)
    {
      var substitutionCost := if a[i - 1] == b[j - 1] then 0 else 1;
      var best := Min(Min(current[j - 1] + 1, previous[j] + 1), previous[j - 1] + substitutionCost);
      if i > 1 && j > 1 && a[i - 1] == b[j - 2] && a[i - 2] == b[j - 1] {
        best := Min(best, twoAgo[j - 2] + 1);
        SwapCell(a, b, i, j);
      } else {
        PlainCell(a, b, i, j);
      }
      current[j] := best;
    }
  }

  /** Three rows, rotated: only the two above the one being filled are ever read. */
  method OptimalStringAlignment(a: string, b: string) returns (d: nat)
    ensures d == OsaDistance(a, b)
  {
    if a == b {
      ZeroExactlyWhenEqual(a, b, |a|, |b|);
      return 0;
    }
    if |a| == 0 { return |b|; }
    if |b| == 0 { return |a|; }
    var width := |b| + 1;
    var twoAgo := new nat[width](_ => 0);
    var previous := new nat[width];
    var current := new nat[width];
    for j: nat := 0 to width
      invariant forall k: nat :: k < j ==> previous[k] == k
    {
      previous[j] := j;
    }
    for i: nat := 1 to |a| + 1
      invariant fresh(twoAgo) && fresh(previous) && fresh(current)
      invariant twoAgo != previous && previous != current && current != twoAgo
      invariant twoAgo.Length == current.Length == width
      invariant RowHolds(previous, a, b, i - 1, width)
      invariant i > 1 ==> RowHolds(twoAgo, a, b, i - 2, width)
    {
      FillRow(a, b, i, twoAgo, previous, current);
      var rotated := twoAgo;
      twoAgo := previous;
      previous := current;
      current := rotated;
    }
    return previous[|b|];
  }

  // Edit scripts: what the number counts.

  datatype Edit = Keep(c: char) | Replace(was: char, becomes: char) | Insert(c: char) | Delete(c: char)
                | Swap(first: char, second: char)

  function Reads(e: Edit): string {
    match e
    case Keep(c) => [c]
    case Replace(x, _) => [x]
    case Insert(_) => []
    case Delete(c) => [c]
    case Swap(x, y) => [x, y]
  }

  function Writes(e: Edit): string {
    match e
    case Keep(c) => [c]
    case Replace(_, y) => [y]
    case Insert(c) => [c]
    case Delete(_) => []
    case Swap(x, y) => [y, x]
  }

  /** The edits made, last on the outside. */
  datatype Script = Untouched | After(before: Script, edit: Edit)

  function Source(script: Script): string {
    match script case Untouched => [] case After(before, e) => Source(before) + Reads(e)
  }

  function Target(script: Script): string {
    match script case Untouched => [] case After(before, e) => Target(before) + Writes(e)
  }

  /** Everything but keeping a letter costs one. No letter is edited twice, which is the restriction in the name. */
  function Price(e: Edit): nat {
    if e.Keep? then 0 else 1
  }

  function Cost(script: Script): nat {
    match script case Untouched => 0 case After(before, e) => Cost(before) + Price(e)
  }

  ghost predicate Turns(script: Script, a: string, b: string) {
    Source(script) == a && Target(script) == b
  }

  lemma MinimumIsAttained(a: string, b: string, i: nat, j: nat)
    requires 0 < i <= |a| && 0 < j <= |b|
    ensures || Distance(a, b, i, j) == Distance(a, b, i, j - 1) + 1
            || Distance(a, b, i, j) == Distance(a, b, i - 1, j) + 1
            || Distance(a, b, i, j) == Distance(a, b, i - 1, j - 1) + (if a[i - 1] == b[j - 1] then 0 else 1)
            || (Transposed(a, b, i, j) && Distance(a, b, i, j) == Distance(a, b, i - 2, j - 2) + 1)
  {
  }

  /** The edit can be the last one to have been made on the two prefixes. */
  predicate EndsBoth(a: string, b: string, i: nat, j: nat, e: Edit)
    requires i <= |a| && j <= |b|
  {
    match e
    case Keep(c) => i > 0 && j > 0 && a[i - 1] == c == b[j - 1]
    case Replace(x, y) => i > 0 && j > 0 && a[i - 1] == x && b[j - 1] == y
    case Insert(c) => j > 0 && b[j - 1] == c
    case Delete(c) => i > 0 && a[i - 1] == c
    case Swap(x, y) => i > 1 && j > 1 && a[i - 2] == b[j - 1] == x && a[i - 1] == b[j - 2] == y
  }

  /** The first `i` letters end in `tail`. */
  ghost predicate EndsIn(s: string, i: nat, tail: string)
    requires i <= |s|
  {
    |tail| <= i && forall k :: 0 <= k < |tail| ==> s[i - |tail| + k] == tail[k]
  }

  lemma EndsBothExactlyWhen(a: string, b: string, i: nat, j: nat, e: Edit)
    requires i <= |a| && j <= |b|
    ensures EndsBoth(a, b, i, j, e) <==> EndsIn(a, i, Reads(e)) && EndsIn(b, j, Writes(e))
  {
    match e
    case Keep(c) => EndsInOne(a, i, c); EndsInOne(b, j, c);
    case Replace(x, y) => EndsInOne(a, i, x); EndsInOne(b, j, y);
    case Insert(c) => EndsInOne(b, j, c);
    case Delete(c) => EndsInOne(a, i, c);
    case Swap(x, y) => EndsInTwo(a, i, x, y); EndsInTwo(b, j, y, x);
  }

  lemma EndsInOne(s: string, i: nat, x: char)
    requires i <= |s|
    ensures EndsIn(s, i, [x]) <==> i > 0 && s[i - 1] == x
  {
    if EndsIn(s, i, [x]) { assert s[i - 1 + 0] == [x][0]; }
  }

  lemma EndsInTwo(s: string, i: nat, x: char, y: char)
    requires i <= |s|
    ensures EndsIn(s, i, [x, y]) <==> i > 1 && s[i - 2] == x && s[i - 1] == y
  {
    if EndsIn(s, i, [x, y]) {
      assert s[i - 2 + 0] == [x, y][0] && s[i - 2 + 1] == [x, y][1];
    }
  }

  lemma JoinPrefix(s: string, i: nat, tail: string)
    requires i <= |s| && EndsIn(s, i, tail)
    ensures s[..i] == s[..i - |tail|] + tail
  {
  }

  lemma OneEditFurther(before: Script, a: string, b: string, i: nat, j: nat, e: Edit)
    requires i <= |a| && j <= |b| && EndsBoth(a, b, i, j, e)
    requires Turns(before, a[..i - |Reads(e)|], b[..j - |Writes(e)|])
    ensures Turns(After(before, e), a[..i], b[..j])
  {
    EndsBothExactlyWhen(a, b, i, j, e);
    JoinPrefix(a, i, Reads(e));
    JoinPrefix(b, j, Writes(e));
  }

  lemma BorderCost(a: string, b: string, i: nat, j: nat)
    requires i <= |a| && j <= |b| && (i == 0 || j == 0)
    ensures Distance(a, b, i, j) == i + j
  {
  }

  function DiagonalEdit(a: string, b: string, i: nat, j: nat): (e: Edit)
    requires 0 < i <= |a| && 0 < j <= |b|
    ensures EndsBoth(a, b, i, j, e) && |Reads(e)| == |Writes(e)| == 1
    ensures Price(e) == if a[i - 1] == b[j - 1] then 0 else 1
  {
    if a[i - 1] == b[j - 1] then Keep(a[i - 1]) else Replace(a[i - 1], b[j - 1])
  }

  /** The edit that led to the minimum. */
  lemma CheapestLastEdit(a: string, b: string, i: nat, j: nat) returns (e: Edit)
    requires i <= |a| && j <= |b| && i + j > 0
    ensures EndsBoth(a, b, i, j, e) && |Reads(e)| <= i && |Writes(e)| <= j && |Reads(e)| + |Writes(e)| > 0
    ensures Distance(a, b, i, j) == Distance(a, b, i - |Reads(e)|, j - |Writes(e)|) + Price(e)
  {
    if i == 0 {
      BorderCost(a, b, 0, j);
      BorderCost(a, b, 0, j - 1);
      return Insert(b[j - 1]);
    }
    if j == 0 {
      BorderCost(a, b, i, 0);
      BorderCost(a, b, i - 1, 0);
      return Delete(a[i - 1]);
    }
    MinimumIsAttained(a, b, i, j);
    var d := Distance(a, b, i, j);
    if d == Distance(a, b, i, j - 1) + 1 { return Insert(b[j - 1]); }
    if d == Distance(a, b, i - 1, j) + 1 { return Delete(a[i - 1]); }
    if d == Distance(a, b, i - 1, j - 1) + (if a[i - 1] == b[j - 1] then 0 else 1) {
      return DiagonalEdit(a, b, i, j);
    }
    return Swap(a[i - 2], a[i - 1]);
  }

  lemma {:induction false} SomeScriptCostsThis(a: string, b: string, i: nat, j: nat) returns (script: Script)
    requires i <= |a| && j <= |b|
    ensures Turns(script, a[..i], b[..j]) && Cost(script) == Distance(a, b, i, j)
    decreases i + j
  {
    script := Untouched;
    if i + j > 0 {
      var e := CheapestLastEdit(a, b, i, j);
      var before := SomeScriptCostsThis(a, b, i - |Reads(e)|, j - |Writes(e)|);
      OneEditFurther(before, a, b, i, j, e);
      script := After(before, e);
    }
  }

  /** One edit, whatever it is, never gains more than its price. */
  lemma LastEditPays(a: string, b: string, i: nat, j: nat, e: Edit)
    requires i <= |a| && j <= |b| && EndsBoth(a, b, i, j, e)
    ensures Distance(a, b, i, j) <= Distance(a, b, i - |Reads(e)|, j - |Writes(e)|) + Price(e)
  {
  }

  lemma SplitPrefix(s: string, i: nat, front: string, back: string)
    requires i <= |s| && s[..i] == front + back
    ensures EndsIn(s, i, back) && s[..i - |back|] == front
  {
    assert s[..i - |back|] == s[..i][..i - |back|];
    forall k | 0 <= k < |back| ensures s[i - |back| + k] == back[k] {
      assert s[i - |back| + k] == s[..i][i - |back| + k];
    }
  }

  lemma LastEditShows(before: Script, a: string, b: string, i: nat, j: nat, e: Edit)
    requires i <= |a| && j <= |b| && Turns(After(before, e), a[..i], b[..j])
    ensures EndsBoth(a, b, i, j, e) && |Reads(e)| <= i && |Writes(e)| <= j
    ensures Turns(before, a[..i - |Reads(e)|], b[..j - |Writes(e)|])
  {
    SplitPrefix(a, i, Source(before), Reads(e));
    SplitPrefix(b, j, Target(before), Writes(e));
    EndsBothExactlyWhen(a, b, i, j, e);
  }

  lemma {:induction false} NoScriptIsCheaper(a: string, b: string, i: nat, j: nat, script: Script)
    requires i <= |a| && j <= |b| && Turns(script, a[..i], b[..j])
    ensures Distance(a, b, i, j) <= Cost(script)
    decreases script
  {
    match script
    case Untouched =>
    case After(before, e) =>
      LastEditShows(before, a, b, i, j, e);
      NoScriptIsCheaper(a, b, i - |Reads(e)|, j - |Writes(e)|, before);
      LastEditPays(a, b, i, j, e);
  }

  /** The distance is the least cost of any restricted edit script, and is reached. */
  lemma DistanceIsCheapestScript(a: string, b: string) returns (script: Script)
    ensures Turns(script, a, b) && Cost(script) == OsaDistance(a, b)
    ensures forall other :: Turns(other, a, b) ==> OsaDistance(a, b) <= Cost(other)
  {
    assert a[..|a|] == a && b[..|b|] == b;
    script := SomeScriptCostsThis(a, b, |a|, |b|);
    forall other | Turns(other, a, b) ensures OsaDistance(a, b) <= Cost(other) {
      NoScriptIsCheaper(a, b, |a|, |b|, other);
    }
  }

  function Undo(e: Edit): Edit {
    match e
    case Keep(c) => Keep(c)
    case Replace(x, y) => Replace(y, x)
    case Insert(c) => Delete(c)
    case Delete(c) => Insert(c)
    case Swap(x, y) => Swap(y, x)
  }

  function Mirror(script: Script): Script {
    match script case Untouched => Untouched case After(before, e) => After(Mirror(before), Undo(e))
  }

  lemma {:induction false} MirrorTurnsBack(script: Script)
    ensures Source(Mirror(script)) == Target(script) && Target(Mirror(script)) == Source(script)
    ensures Cost(Mirror(script)) == Cost(script)
  {
    match script
    case Untouched =>
    case After(before, e) => MirrorTurnsBack(before);
  }

  lemma DistanceIsSymmetric(a: string, b: string)
    ensures OsaDistance(a, b) == OsaDistance(b, a)
  {
    var there := DistanceIsCheapestScript(a, b);
    var back := DistanceIsCheapestScript(b, a);
    MirrorTurnsBack(there);
    MirrorTurnsBack(back);
    assert Turns(Mirror(there), b, a) && Turns(Mirror(back), a, b);
  }

  lemma {:induction false} ZeroExactlyWhenEqual(a: string, b: string, i: nat, j: nat)
    requires i <= |a| && j <= |b|
    ensures Distance(a, b, i, j) == 0 <==> a[..i] == b[..j]
    decreases i + j
  {
    if i == 0 || j == 0 {
      assert |a[..i]| == i && |b[..j]| == j;
    } else {
      ZeroExactlyWhenEqual(a, b, i - 1, j - 1);
      assert a[..i] == a[..i - 1] + [a[i - 1]] && b[..j] == b[..j - 1] + [b[j - 1]];
    }
  }

  /** No more than the longer string, no less than the difference of the lengths. */
  lemma {:induction false} LengthBounds(a: string, b: string, i: nat, j: nat)
    requires i <= |a| && j <= |b|
    ensures i - j <= Distance(a, b, i, j) && j - i <= Distance(a, b, i, j)
    ensures Distance(a, b, i, j) <= if i < j then j else i
    decreases i + j
  {
    if i > 0 && j > 0 {
      LengthBounds(a, b, i, j - 1);
      LengthBounds(a, b, i - 1, j);
      LengthBounds(a, b, i - 1, j - 1);
      if Transposed(a, b, i, j) { LengthBounds(a, b, i - 2, j - 2); }
    }
  }

  lemma {:induction false} NeverMoreThanLevenshtein(a: string, b: string, i: nat, j: nat)
    requires i <= |a| && j <= |b|
    ensures Distance(a, b, i, j) <= Levenshtein(a, b, i, j)
    decreases i + j
  {
    if i > 0 && j > 0 {
      NeverMoreThanLevenshtein(a, b, i, j - 1);
      NeverMoreThanLevenshtein(a, b, i - 1, j);
      NeverMoreThanLevenshtein(a, b, i - 1, j - 1);
    }
  }

  lemma LevenshteinSteps(a: string, b: string, i: nat, j: nat)
    requires 0 < i <= |a| && 0 < j <= |b|
    ensures Levenshtein(a, b, i, j) <= Levenshtein(a, b, i, j - 1) + 1
    ensures Levenshtein(a, b, i, j) <= Levenshtein(a, b, i - 1, j) + 1
    ensures Levenshtein(a, b, i, j) <= Levenshtein(a, b, i - 1, j - 1) + if a[i - 1] == b[j - 1] then 0 else 1
  {
  }

  /** A swap stands for at most two of the edits plain Levenshtein has. */
  lemma {:induction false} AtLeastHalfOfLevenshtein(a: string, b: string, i: nat, j: nat)
    requires i <= |a| && j <= |b|
    ensures Levenshtein(a, b, i, j) <= 2 * Distance(a, b, i, j)
    decreases i + j
  {
    if i > 0 && j > 0 {
      MinimumIsAttained(a, b, i, j);
      LevenshteinSteps(a, b, i, j);
      AtLeastHalfOfLevenshtein(a, b, i, j - 1);
      AtLeastHalfOfLevenshtein(a, b, i - 1, j);
      AtLeastHalfOfLevenshtein(a, b, i - 1, j - 1);
      if Transposed(a, b, i, j) {
        LevenshteinSteps(a, b, i - 1, j - 1);
        AtLeastHalfOfLevenshtein(a, b, i - 2, j - 2);
      }
    }
  }

  /** Leaves a further stretch of letters as it is. */
  function Keeping(script: Script, s: string): Script {
    if s == [] then script else After(Keeping(script, s[..|s| - 1]), Keep(s[|s| - 1]))
  }

  lemma {:induction false} KeepingKeeps(script: Script, s: string)
    ensures Source(Keeping(script, s)) == Source(script) + s && Target(Keeping(script, s)) == Target(script) + s
    ensures Cost(Keeping(script, s)) == Cost(script)
    decreases |s|
  {
    if s == [] {
      NothingAdded(Source(script));
      NothingAdded(Target(script));
    } else {
      var init, last := s[..|s| - 1], s[|s| - 1];
      KeepingKeeps(script, init);
      Regroup(Source(script), init, [last]);
      Regroup(Target(script), init, [last]);
      assert s == init + [last];
    }
  }

  /** Swapping two adjacent, different letters anywhere in a word is one edit. */
  lemma AdjacentSwapIsOneEdit(front: string, x: char, y: char, back: string)
    requires x != y
    ensures OsaDistance((front + [x, y]) + back, (front + [y, x]) + back) == 1
  {
    var a, b := (front + [x, y]) + back, (front + [y, x]) + back;
    var kept := Keeping(Untouched, front);
    KeepingKeeps(Untouched, front);
    NothingAdded(front);
    KeepingKeeps(After(kept, Swap(x, y)), back);
    assert Turns(Keeping(After(kept, Swap(x, y)), back), a, b);
    var cheapest := DistanceIsCheapestScript(a, b);
    assert a[|front|] != b[|front|];
    assert a[..|a|] == a && b[..|b|] == b;
    ZeroExactlyWhenEqual(a, b, |a|, |b|);
  }

  /** The restriction costs the triangle inequality: "ca" to "ac" to "abc" is two edits, "ca" to "abc" is three. */
  lemma NotAMetric()
    ensures OsaDistance("ca", "ac") + OsaDistance("ac", "abc") < OsaDistance("ca", "abc")
  {
    OneSwap();
    OneInsertion();
    ThreeEdits();
  }

  lemma OneSwap()
    ensures Distance("ca", "ac", 2, 2) <= 1
  {
    LastEditPays("ca", "ac", 2, 2, Swap('c', 'a'));
  }

  lemma OneInsertion()
    ensures Distance("ac", "abc", 2, 3) <= 1
  {
    var a, b := "ac", "abc";
    LastEditPays(a, b, 1, 1, Keep('a'));
    LastEditPays(a, b, 1, 2, Insert('b'));
    LastEditPays(a, b, 2, 3, Keep('c'));
  }

  lemma ThreeEdits()
    ensures Distance("ca", "abc", 2, 3) == 3
  {
    var a, b := "ca", "abc";
    assert a[0] == 'c' && a[1] == 'a' && b[0] == 'a' && b[1] == 'b' && b[2] == 'c';
    assert Distance(a, b, 1, 1) == 1;
    assert Distance(a, b, 1, 2) == 2;
    assert Distance(a, b, 1, 3) == 2;
    assert Distance(a, b, 2, 1) == 1;
    assert Distance(a, b, 2, 2) == 2;
    assert Distance(a, b, 2, 3) == 3;
  }
}
