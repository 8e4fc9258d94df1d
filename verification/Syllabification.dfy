/** Where syllables begin in an ordered list of canonical units: maximal onset, with the source's stress marks fixed. */
module Syllabification {
  import opened Wrappers
  import opened Inventory

  /** The tables the division consults. Every law below holds whatever they say. */
  datatype Phonotactics = Phonotactics(twoConsonants: set<string>, threeConsonants: set<string>, checkedVowels: set<string>)

  const EN_US := Phonotactics(
    {"pl", "pɹ", "bl", "bɹ", "tɹ", "dɹ", "kl", "kɹ", "ɡl", "ɡɹ",
     "fl", "fɹ", "θɹ", "ʃɹ", "vɹ",
     "pj", "bj", "tw", "dw", "kw", "ɡw", "kj", "fj", "vj", "mj", "nj", "hj", "lj", "sj", "θj",
     "sp", "st", "sk", "sl", "sm", "sn", "sw", "sf",
     "ʃm", "ʃl", "ʃn", "ʃp", "ʃt", "ʃv"},
    {"spl", "spɹ", "spj", "stɹ", "stj", "skɹ", "skw", "skj"},
    {"ɪ", "ɛ", "æ", "ʌ", "ʊ"})

  predicate IsLegalOnset(tables: Phonotactics, cluster: seq<string>) {
    match |cluster|
    case 0 => true
    case 1 => cluster[0] != "ŋ"
    case 2 => cluster[0] + cluster[1] in tables.twoConsonants
    case 3 => cluster[0] + cluster[1] + cluster[2] in tables.threeConsonants
    case _ => false
  }

  /** The last `n` consonants of the cluster. */
  function Onset(cluster: seq<string>, n: nat): seq<string>
    requires n <= |cluster|
  {
    cluster[|cluster| - n..]
  }

  /** The longest legal suffix of `cluster`, at most `size` consonants long. */
  function LongestOnset(tables: Phonotactics, cluster: seq<string>, size: nat): (take: nat)
    requires size <= |cluster|
    ensures take <= size
  {
    if size == 0 then 0
    else if IsLegalOnset(tables, Onset(cluster, size)) then size
    else LongestOnset(tables, cluster, size - 1)
  }

  /** How much of the cluster the next syllable may claim: a checked vowel keeps a coda, and so does a post-vocalic `ɹ`. */
  function OnsetCap(tables: Phonotactics, nucleus: string, cluster: seq<string>): (cap: nat)
    requires |cluster| > 0
    ensures cap <= |cluster|
  {
    if nucleus in tables.checkedVowels || cluster[0] == "ɹ" then |cluster| - 1 else |cluster|
  }

  /** The last stressed index in `(a, b]`. */
  function LastStressed(stressed: set<nat>, a: nat, b: nat): (r: Option<nat>)
    requires a <= b
    ensures r.Some? ==> a < r.value <= b && r.value in stressed
  {
    if a == b then None else if b in stressed then Some(b) else LastStressed(stressed, a, b - 1)
  }

  lemma {:induction false} LastStressedIsLast(stressed: set<nat>, a: nat, b: nat)
    requires a <= b
    ensures var last := LastStressed(stressed, a, b);
            forall k: nat :: (if last.Some? then last.value else a) < k <= b ==> k !in stressed
  {
    if a < b && b !in stressed {
      LastStressedIsLast(stressed, a, b - 1);
    }
  }

  function Cluster(units: seq<Unit>, a: nat, b: nat): seq<string>
    requires a < b <= |units|
  {
    Symbols(units[a + 1..b])
  }

  /** Where the gap between the neighbouring nuclei `a` and `b` is divided, if it is. */
  function GapBoundary(tables: Phonotactics, units: seq<Unit>, a: nat, b: nat, stressed: set<nat>): (r: Option<nat>)
    requires a < b < |units|
    ensures r.Some? ==> a < r.value <= b
  {
    var fixed := LastStressed(stressed, a, b);
    var cluster := Cluster(units, a, b);
    if fixed.Some? then fixed
    else if |cluster| == 0 then if units[b].category == CentralRhotic then None else Some(b)
    else
      var cap := OnsetCap(tables, units[a].symbol, cluster);
      Some(b - LongestOnset(tables, cluster, if cap < 3 then cap else 3))
  }

  function NextNucleus(units: seq<Unit>, i: nat): (n: nat)
    requires i <= |units|
    ensures i <= n <= |units| && (n < |units| ==> IsNucleus(units[n]))
    decreases |units| - i
  {
    if i == |units| || IsNucleus(units[i]) then i else NextNucleus(units, i + 1)
  }

  lemma {:induction false} NextNucleusIsNext(units: seq<Unit>, i: nat)
    requires i <= |units|
    ensures forall k :: i <= k < NextNucleus(units, i) ==> !IsNucleus(units[k])
    decreases |units| - i
  {
    if i < |units| && !IsNucleus(units[i]) {
      NextNucleusIsNext(units, i + 1);
    }
  }

  function Boundary(tables: Phonotactics, units: seq<Unit>, a: nat, b: nat, stressed: set<nat>): seq<nat>
    requires a < b < |units|
  {
    match GapBoundary(tables, units, a, b, stressed)
    case Some(k) => [k]
    case None => []
  }

  /** The boundaries after nucleus `a`, gap by gap. */
  function StartsAfter(tables: Phonotactics, units: seq<Unit>, stressed: set<nat>, a: nat): seq<nat>
    requires a < |units|
    decreases |units| - a
  {
    var b := NextNucleus(units, a + 1);
    if b == |units| then [] else Boundary(tables, units, a, b, stressed) + StartsAfter(tables, units, stressed, b)
  }

  function Starts(tables: Phonotactics, units: seq<Unit>, stressed: set<nat>): seq<nat> {
    if units == [] then []
    else
      var first := NextNucleus(units, 0);
      [0] + if first == |units| then [] else StartsAfter(tables, units, stressed, first)
  }

  lemma StartsUnfold(tables: Phonotactics, units: seq<Unit>, stressed: set<nat>, a: nat, b: nat, before: seq<nat>, after: seq<nat>)
    requires a < b < |units| && NextNucleus(units, a + 1) == b
    requires after == before + Boundary(tables, units, a, b, stressed)
    ensures before + StartsAfter(tables, units, stressed, a) == after + StartsAfter(tables, units, stressed, b)
  {
    var head, tail := Boundary(tables, units, a, b, stressed), StartsAfter(tables, units, stressed, b);
    Regroup(before, head, tail);
  }

  /** The nuclei at or after `i`, in order. */
  function NucleiFrom(units: seq<Unit>, i: nat): seq<nat>
    requires i <= |units|
    decreases |units| - i
  {
    var b := NextNucleus(units, i);
    if b == |units| then [] else [b] + NucleiFrom(units, b + 1)
  }

  /** Each nucleus is followed by the next one found from the unit after it. */
  lemma {:induction false} NucleiLinked(units: seq<Unit>, i: nat, n: nat)
    requires i <= |units| && n < |NucleiFrom(units, i)|
    ensures var s := NucleiFrom(units, i);
            s[n] < |units| && s[0] == NextNucleus(units, i) &&
            NextNucleus(units, s[n] + 1) == if n + 1 < |s| then s[n + 1] else |units|
    decreases n
  {
    if n > 0 {
      NucleiLinked(units, NextNucleus(units, i) + 1, n - 1);
    }
  }

  lemma NucleiUnfold(units: seq<Unit>, i: nat, before: seq<nat>, after: seq<nat>)
    requires i < |units| && after == if IsNucleus(units[i]) then before + [i] else before
    ensures before + NucleiFrom(units, i) == after + NucleiFrom(units, i + 1)
  {
    if IsNucleus(units[i]) {
      Regroup(before, [i], NucleiFrom(units, i + 1));
    } else {
      assert NucleiFrom(units, i) == NucleiFrom(units, i + 1);
    }
  }

  method FindNuclei(units: seq<Unit>) returns (nuclei: seq<nat>)
    ensures nuclei == NucleiFrom(units, 0)
  {
    nuclei := [];
    NothingAdded(NucleiFrom(units, 0));
    for index := 0 to |units|
      invariant NucleiFrom(units, 0) == nuclei + NucleiFrom(units, index)
    {
      ghost var before := nuclei;
      if IsNucleus(units[index]) {
        nuclei := nuclei + [index];
      }
      NucleiUnfold(units, index, before, nuclei);
    }
    NothingAdded(nuclei);
  }

  /** The source's stress mark decides a gap outright; a later one overwrites an earlier one. */
  method FindFixed(stressed: set<nat>, a: nat, b: nat) returns (fixed: Option<nat>)
    requires a < b
    ensures fixed == LastStressed(stressed, a, b)
  {
    fixed := None;
    for index := a + 1 to b + 1
      invariant fixed == LastStressed(stressed, a, index - 1)
    {
      if index in stressed {
        fixed := Some(index);
      }
    }
  }

  method FindOnset(tables: Phonotactics, cluster: seq<string>, maximumOnset: nat) returns (take: nat)
    requires maximumOnset <= |cluster|
    ensures take == LongestOnset(tables, cluster, if maximumOnset < 3 then maximumOnset else 3)
  {
    take := 0;
    var size := if maximumOnset < 3 then maximumOnset else 3;
    ghost var top := size;
    while size >= 1
      invariant 0 <= size <= top && take == 0
      invariant LongestOnset(tables, cluster, top) == LongestOnset(tables, cluster, size)
    {
      if IsLegalOnset(tables, Onset(cluster, size)) {
        take := size;
        break;
      }
      size := size - 1;
    }
  }

  method CapOnset(tables: Phonotactics, nucleus: string, cluster: seq<string>) returns (maximumOnset: nat)
    requires |cluster| > 0
    ensures maximumOnset == OnsetCap(tables, nucleus, cluster)
  {
    maximumOnset := if nucleus in tables.checkedVowels then |cluster| - 1 else |cluster|;
    if cluster[0] == "ɹ" && maximumOnset > |cluster| - 1 {
      maximumOnset := |cluster| - 1;
    }
  }

  /** One gap's division. */
  method DivideGap(tables: Phonotactics, units: seq<Unit>, a: nat, b: nat, stressed: set<nat>) returns (start: Option<nat>)
    requires a < b < |units|
    ensures start == GapBoundary(tables, units, a, b, stressed)
  {
    var fixed := FindFixed(stressed, a, b);
    if fixed.Some? {
      return fixed;
    }
    var cluster := Cluster(units, a, b);
    if |cluster| == 0 {
      return if units[b].category != CentralRhotic then Some(b) else None;
    }
    var maximumOnset := CapOnset(tables, units[a].symbol, cluster);
    var take := FindOnset(tables, cluster, maximumOnset);
    return Some(b - take);
  }

  lemma StartsEnd(tables: Phonotactics, units: seq<Unit>, stressed: set<nat>, a: nat)
    requires a < |units| && NextNucleus(units, a + 1) == |units|
    ensures StartsAfter(tables, units, stressed, a) == []
  {
  }

  method Syllabify(tables: Phonotactics, units: seq<Unit>, stressed: set<nat>) returns (starts: seq<nat>)
    ensures starts == Starts(tables, units, stressed)
  {
    if |units| == 0 {
      return [];
    }
    var nuclei := FindNuclei(units);
    starts := [0];
    if |nuclei| == 0 {
      NothingAdded(starts);
      return;
    }
    forall n: nat | n < |nuclei| ensures Link(units, nuclei, n) {
      NucleiLinked(units, 0, n);
    }
    NucleiLinked(units, 0, 0);
    starts := DivideGaps(tables, units, nuclei, stressed);
  }

  /** What is divided so far, with what is still to come after the nucleus at `a`. */
  ghost function Dividing(tables: Phonotactics, units: seq<Unit>, stressed: set<nat>, starts: seq<nat>, a: nat): seq<nat>
    requires a < |units|
  {
    starts + StartsAfter(tables, units, stressed, a)
  }

  lemma DividingEnds(tables: Phonotactics, units: seq<Unit>, stressed: set<nat>, starts: seq<nat>, a: nat)
    requires a < |units| && NextNucleus(units, a + 1) == |units|
    ensures Dividing(tables, units, stressed, starts, a) == starts
  {
    StartsEnd(tables, units, stressed, a);
    NothingAdded(starts);
  }

  predicate Link(units: seq<Unit>, nuclei: seq<nat>, n: nat)
    requires n < |nuclei|
  {
    nuclei[n] < |units| && NextNucleus(units, nuclei[n] + 1) == if n + 1 < |nuclei| then nuclei[n + 1] else |units|
  }

  /** Each nucleus is followed by the next of the list, the last by none. */
  ghost predicate Linked(units: seq<Unit>, nuclei: seq<nat>) {
    forall n: nat :: n < |nuclei| ==> Link(units, nuclei, n)
  }

  /** One gap after another, for a word with at least one nucleus. */
  method DivideGaps(tables: Phonotactics, units: seq<Unit>, nuclei: seq<nat>, stressed: set<nat>) returns (starts: seq<nat>)
    requires |nuclei| > 0 && Linked(units, nuclei) && Link(units, nuclei, 0)
    ensures starts == [0] + StartsAfter(tables, units, stressed, nuclei[0])
  {
    starts := [0];
    var n := 0;
    ghost var whole := Dividing(tables, units, stressed, [0], nuclei[0]);
    while n < |nuclei| - 1
      invariant 0 <= n < |nuclei| && Link(units, nuclei, n)
      invariant whole == Dividing(tables, units, stressed, starts, nuclei[n])
      decreases |nuclei| - n
    {
      assert Link(units, nuclei, n + 1);
      starts := DivideNext(tables, units, nuclei[n], nuclei[n + 1], stressed, starts);
      n := n + 1;
    }
    DividingEnds(tables, units, stressed, starts, nuclei[n]);
  }

  method DivideNext(tables: Phonotactics, units: seq<Unit>, a: nat, b: nat, stressed: set<nat>, starts: seq<nat>)
    returns (more: seq<nat>)
    requires a < b < |units| && NextNucleus(units, a + 1) == b
    ensures Dividing(tables, units, stressed, starts, a) == Dividing(tables, units, stressed, more, b)
  {
    var boundary := DivideGap(tables, units, a, b, stressed);
    more := starts;
    if boundary.Some? {
      more := more + [boundary.value];
    }
    assert more == starts + Boundary(tables, units, a, b, stressed);
    StartsUnfold(tables, units, stressed, a, b, starts, more);
  }

  // The division's laws

  /** Two nuclei with nothing but consonants between them. */
  ghost predicate Gap(units: seq<Unit>, a: nat, b: nat) {
    a < b < |units| && IsNucleus(units[a]) && IsNucleus(units[b]) && forall i :: a < i < b ==> !IsNucleus(units[i])
  }

  ghost predicate Ascending(s: seq<nat>) {
    forall i, j :: 0 <= i < j < |s| ==> s[i] < s[j]
  }

  lemma AscendingJoin(s: seq<nat>, t: seq<nat>, middle: nat)
    requires Ascending(s) && Ascending(t)
    requires (forall k :: k in s ==> k <= middle) && (forall k :: k in t ==> middle < k)
    ensures Ascending(s + t)
  {
    assert forall i :: 0 <= i < |s| ==> s[i] in s;
    assert forall i :: 0 <= i < |t| ==> t[i] in t;
  }

  /** `k` is the division of some gap that begins at or after `from`. */
  ghost predicate DividesSomeGap(tables: Phonotactics, units: seq<Unit>, stressed: set<nat>, from: nat, k: nat) {
    exists a: nat, b: nat :: from <= a && Gap(units, a, b) && GapBoundary(tables, units, a, b, stressed) == Some(k)
  }

  lemma {:induction false} StartsAfterLaw(tables: Phonotactics, units: seq<Unit>, stressed: set<nat>, a: nat)
    requires a < |units| && IsNucleus(units[a])
    ensures var s := StartsAfter(tables, units, stressed, a);
            Ascending(s) && forall k: nat :: k in s <==> DividesSomeGap(tables, units, stressed, a, k)
    ensures forall k :: k in StartsAfter(tables, units, stressed, a) ==> a < k < |units|
    decreases |units| - a
  {
    var s := StartsAfter(tables, units, stressed, a);
    var b := NextNucleus(units, a + 1);
    NextNucleusIsNext(units, a + 1);
    if b == |units| {
      assert forall c: nat, d: nat :: Gap(units, c, d) ==> c < a;
    } else {
      StartsAfterLaw(tables, units, stressed, b);
      assert Gap(units, a, b);
      var head, tail := Boundary(tables, units, a, b, stressed), StartsAfter(tables, units, stressed, b);
      AscendingJoin(head, tail, b);
      forall k: nat | DividesSomeGap(tables, units, stressed, a, k)
        ensures k in s
      {
        var c: nat, d: nat :| a <= c && Gap(units, c, d) && GapBoundary(tables, units, c, d, stressed) == Some(k);
        if c == a {
          SameGap(units, a, b, d);
          assert k in head;
        } else {
          assert b <= c;
          assert DividesSomeGap(tables, units, stressed, b, k);
          assert k in tail;
        }
      }
      forall k | k in s
        ensures DividesSomeGap(tables, units, stressed, a, k)
      {
        if k in tail {
          assert DividesSomeGap(tables, units, stressed, b, k);
        }
      }
    }
  }

  lemma SameGap(units: seq<Unit>, a: nat, b: nat, d: nat)
    requires Gap(units, a, b) && Gap(units, a, d)
    ensures b == d
  {
  }

  /**
   * The division begins at 0 and ascends strictly; past 0 it holds exactly the divisions of the gaps between
   * neighbouring nuclei, each inside its own gap.
   */
  lemma DivisionLaw(tables: Phonotactics, units: seq<Unit>, stressed: set<nat>)
    requires units != []
    ensures var s := Starts(tables, units, stressed);
            s != [] && s[0] == 0 && Ascending(s) && (forall k :: k in s ==> k < |units|) &&
            forall k: nat :: k > 0 ==> (k in s <==> DividesSomeGap(tables, units, stressed, 0, k))
  {
    var first := NextNucleus(units, 0);
    NextNucleusIsNext(units, 0);
    if first < |units| {
      StartsAfterLaw(tables, units, stressed, first);
      AscendingJoin([0], StartsAfter(tables, units, stressed, first), 0);
      forall k: nat ensures DividesSomeGap(tables, units, stressed, first, k) <==> DividesSomeGap(tables, units, stressed, 0, k) {
        if DividesSomeGap(tables, units, stressed, 0, k) {
          var a: nat, b: nat :| Gap(units, a, b) && GapBoundary(tables, units, a, b, stressed) == Some(k);
          assert first <= a;
        }
      }
    } else {
      assert forall a: nat, b: nat :: !Gap(units, a, b);
    }
  }

  /** A gap is left whole only in hiatus before an unstressed central rhotic; otherwise one start falls in it, and only one. */
  lemma OneStartPerGap(tables: Phonotactics, units: seq<Unit>, stressed: set<nat>, a: nat, b: nat)
    requires Gap(units, a, b)
    ensures var whole := b == a + 1 && units[b].category == CentralRhotic && b !in stressed;
            forall k: nat :: a < k <= b ==>
              (k in Starts(tables, units, stressed) <==> !whole && GapBoundary(tables, units, a, b, stressed) == Some(k))
    ensures GapBoundary(tables, units, a, b, stressed).None? <==> b == a + 1 && units[b].category == CentralRhotic && b !in stressed
  {
    DivisionLaw(tables, units, stressed);
    forall k: nat | a < k <= b && DividesSomeGap(tables, units, stressed, 0, k)
      ensures GapBoundary(tables, units, a, b, stressed) == Some(k)
    {
      var c: nat, d: nat :| Gap(units, c, d) && GapBoundary(tables, units, c, d, stressed) == Some(k);
      GapsAreDisjoint(units, a, b, c, d, k);
    }
    assert GapBoundary(tables, units, a, b, stressed).Some? ==>
           DividesSomeGap(tables, units, stressed, 0, GapBoundary(tables, units, a, b, stressed).value);
  }

  lemma GapsAreDisjoint(units: seq<Unit>, a: nat, b: nat, c: nat, d: nat, k: nat)
    requires Gap(units, a, b) && Gap(units, c, d) && a < k <= b && c < k <= d
    ensures a == c && b == d
  {
    assert IsNucleus(units[a]) && IsNucleus(units[b]) && IsNucleus(units[c]) && IsNucleus(units[d]);
  }

  /** Two nuclei share a syllable only when every unit after the first, up to the second, is an unstressed central rhotic. */
  lemma {:induction false} SharedSyllable(tables: Phonotactics, units: seq<Unit>, stressed: set<nat>, p: nat, q: nat)
    requires p < q < |units| && IsNucleus(units[p]) && IsNucleus(units[q])
    ensures (forall k :: p < k <= q ==> k !in Starts(tables, units, stressed)) <==>
            (forall k :: p < k <= q ==> units[k].category == CentralRhotic && k !in stressed)
    decreases q - p
  {
    var b := NextNucleus(units, p + 1);
    NextNucleusIsNext(units, p + 1);
    assert b <= q;
    assert Gap(units, p, b);
    OneStartPerGap(tables, units, stressed, p, b);
    if b < q {
      SharedSyllable(tables, units, stressed, b, q);
    }
    if forall k :: p < k <= q ==> units[k].category == CentralRhotic && k !in stressed {
      assert IsNucleus(units[p + 1]);
      assert b == p + 1;
    }
    if GapBoundary(tables, units, p, b, stressed).Some? {
      var k := GapBoundary(tables, units, p, b, stressed).value;
      assert k in Starts(tables, units, stressed) && p < k <= q;
    }
  }

  lemma {:induction false} LongestOnsetIsMaximal(tables: Phonotactics, cluster: seq<string>, size: nat)
    requires size <= |cluster|
    ensures var take := LongestOnset(tables, cluster, size);
            IsLegalOnset(tables, Onset(cluster, take)) &&
            forall n: nat :: take < n <= size ==> !IsLegalOnset(tables, Onset(cluster, n))
  {
    if size > 0 && !IsLegalOnset(tables, Onset(cluster, size)) {
      LongestOnsetIsMaximal(tables, cluster, size - 1);
    }
  }

  /**
   * In an unstressed gap that holds consonants, the next syllable takes the longest legal onset its caps allow,
   * of any length: looking no further than three consonants loses nothing.
   */
  lemma OnsetIsMaximal(tables: Phonotactics, units: seq<Unit>, stressed: set<nat>, a: nat, b: nat)
    requires Gap(units, a, b) && a + 1 < b && LastStressed(stressed, a, b).None?
    ensures var cluster := Cluster(units, a, b);
            var cap := OnsetCap(tables, units[a].symbol, cluster);
            GapBoundary(tables, units, a, b, stressed).Some? &&
            var take := b - GapBoundary(tables, units, a, b, stressed).value;
            0 <= take <= cap && IsLegalOnset(tables, Onset(cluster, take)) &&
            forall n: nat :: take < n <= cap ==> !IsLegalOnset(tables, Onset(cluster, n))
  {
    var cluster := Cluster(units, a, b);
    var cap := OnsetCap(tables, units[a].symbol, cluster);
    var top := if cap < 3 then cap else 3;
    LongestOnsetIsMaximal(tables, cluster, top);
    forall n: nat | top < n <= cap ensures !IsLegalOnset(tables, Onset(cluster, n)) {
      assert |Onset(cluster, n)| > 3;
    }
  }

  /** A syllable after a checked vowel, or after a vowel and `ɹ`, never starts at the first consonant of the gap. */
  lemma CodaIsKept(tables: Phonotactics, units: seq<Unit>, stressed: set<nat>, a: nat, b: nat)
    requires Gap(units, a, b) && a + 1 < b && LastStressed(stressed, a, b).None?
    requires units[a].symbol in tables.checkedVowels || units[a + 1].symbol == "ɹ"
    ensures a + 1 !in Starts(tables, units, stressed)
  {
    OneStartPerGap(tables, units, stressed, a, b);
    OnsetIsMaximal(tables, units, stressed, a, b);
    assert Cluster(units, a, b)[0] == units[a + 1].symbol;
  }

  /** One consonant between two vowels opens the second syllable, unless a cap keeps it back or it can open none. */
  lemma OneConsonant(tables: Phonotactics, units: seq<Unit>, stressed: set<nat>, a: nat)
    requires Gap(units, a, a + 2) && LastStressed(stressed, a, a + 2).None?
    ensures var keeps := units[a].symbol in tables.checkedVowels || units[a + 1].symbol == "ɹ" || units[a + 1].symbol == "ŋ";
            GapBoundary(tables, units, a, a + 2, stressed) == Some(if keeps then a + 2 else a + 1)
  {
    assert Cluster(units, a, a + 2) == [units[a + 1].symbol];
    OnsetOfOne(tables, units[a].symbol, units[a + 1].symbol);
  }

  lemma OnsetOfOne(tables: Phonotactics, nucleus: string, c: string)
    ensures OnsetCap(tables, nucleus, [c]) == if nucleus in tables.checkedVowels || c == "ɹ" then 0 else 1
    ensures LongestOnset(tables, [c], 0) == 0
    ensures LongestOnset(tables, [c], 1) == if c == "ŋ" then 0 else 1
  {
    assert Onset([c], 1) == [c];
  }

  /** The en-US divisions the program's comments promise: `wɔ.tɚ`, `lɛt.ɚ` and `ɔɹ.əndʒ`. */
  lemma EnglishExamples(units: seq<Unit>, stressed: set<nat>, a: nat)
    requires Gap(units, a, a + 2) && LastStressed(stressed, a, a + 2).None?
    ensures var boundary := GapBoundary(EN_US, units, a, a + 2, stressed);
            (units[a].symbol == "ɔ" && units[a + 1].symbol == "t" ==> boundary == Some(a + 1)) &&
            (units[a].symbol == "ɛ" && units[a + 1].symbol == "t" ==> boundary == Some(a + 2)) &&
            (units[a].symbol == "ɔ" && units[a + 1].symbol == "ɹ" ==> boundary == Some(a + 2))
  {
    OneConsonant(EN_US, units, stressed, a);
    assert "ɔ"[0] == 'ɔ' && "t"[0] == 't';
  }
}
