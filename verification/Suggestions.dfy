/**
 * Fuzzy headword suggestions. Scores are held in quarters, so every one is a whole number. Double Metaphone and the
 * collation of slugs are parameters.
 */
module Suggestions {
  import opened Osa
  import opened Sorting
  import opened Wrappers

  datatype Keys = Keys(primary: string, alternate: string)

  datatype Headword = Headword(normalized: string, display: string, rank: Option<int>)

  datatype Suggestion = Suggestion(slug: string, display: string, score: int, rank: int)

  const MAX_ACCEPTABLE_SCORE := 10
  const LENGTH_TOLERANCE := 3
  const EXACT_BONUS := 6
  const PARTIAL_BONUS := 3
  const UNRANKED_FREQUENCY: int := 9007199254740991

  function PhoneticBonus(left: Keys, right: Keys): int {
    if left.primary != "" && left.primary == right.primary then EXACT_BONUS
    else if (left.primary != "" && (left.primary == right.alternate || left.alternate == right.primary)) ||
            (left.alternate != "" && left.alternate == right.alternate) then PARTIAL_BONUS
    else 0
  }

  function LengthGap(s: string, t: string): nat {
    if |s| < |t| then |t| - |s| else |s| - |t|
  }

  predicate Related(metaphone: string -> Keys, slug: string, h: Headword)
    requires slug != ""
  {
    (h.normalized != "" && h.normalized[0] == slug[0]) || PhoneticBonus(metaphone(slug), metaphone(h.normalized)) > 0
  }

  predicate IsCandidate(metaphone: string -> Keys, slug: string, h: Headword)
    requires slug != ""
  {
    LengthGap(h.normalized, slug) <= LENGTH_TOLERANCE && Related(metaphone, slug, h)
  }

  function Score(metaphone: string -> Keys, slug: string, h: Headword): int {
    4 * OsaDistance(slug, h.normalized) - PhoneticBonus(metaphone(slug), metaphone(h.normalized))
  }

  function Scored(metaphone: string -> Keys, slug: string, h: Headword): Suggestion {
    Suggestion(h.normalized, h.display, Score(metaphone, slug, h),
               match h.rank case None => UNRANKED_FREQUENCY case Some(rank) => rank)
  }

  /** Closest first, then most frequent, then by slug. */
  predicate NoFurther(collates: (string, string) -> bool, x: Suggestion, y: Suggestion) {
    x.score < y.score || (x.score == y.score && (x.rank < y.rank || (x.rank == y.rank && collates(x.slug, y.slug))))
  }

  function Order(collates: (string, string) -> bool): (Suggestion, Suggestion) -> bool {
    (x, y) => NoFurther(collates, x, y)
  }

  function Map<T, U>(f: T -> U, xs: seq<T>): seq<U> {
    seq(|xs|, i requires 0 <= i < |xs| => f(xs[i]))
  }

  function Take<T>(n: nat, xs: seq<T>): seq<T> {
    if n < |xs| then xs[..n] else xs
  }

  lemma TakeSplits<T>(n: nat, xs: seq<T>)
    ensures |Take(n, xs)| == (if n < |xs| then n else |xs|) && Take(n, xs) + xs[|Take(n, xs)|..] == xs
  {
  }

  /** The suggestions worth showing among the headwords that pass `kept`, in the order of the list. */
  function Acceptable(metaphone: string -> Keys, slug: string, kept: Headword -> bool, headwords: seq<Headword>)
    : seq<Suggestion>
  {
    Filter((s: Suggestion) => s.score <= MAX_ACCEPTABLE_SCORE, Map(h => Scored(metaphone, slug, h), Filter(kept, headwords)))
  }

  function Candidate(metaphone: string -> Keys, slug: string): Headword -> bool
    requires slug != ""
  {
    h => IsCandidate(metaphone, slug, h)
  }

  function RankSuggestions(metaphone: string -> Keys, collates: (string, string) -> bool, slug: string,
                           headwords: seq<Headword>, limit: nat): seq<Suggestion> {
    if slug == "" || headwords == [] then []
    else Take(limit, Sort(Order(collates), Acceptable(metaphone, slug, Candidate(metaphone, slug), headwords)))
  }

  lemma OrderIsTotal(collates: (string, string) -> bool)
    requires TotalPreorder(collates)
    ensures TotalPreorder(Order(collates))
  {
    forall x, y ensures NoFurther(collates, x, y) || NoFurther(collates, y, x) {
      assert collates(x.slug, y.slug) || collates(y.slug, x.slug);
    }
  }

  /** A headword is among the listed ones when it was kept and scores well enough, and nothing else is. */
  lemma AcceptableMembers(metaphone: string -> Keys, slug: string, kept: Headword -> bool, headwords: seq<Headword>,
                          s: Suggestion)
    ensures s in Acceptable(metaphone, slug, kept, headwords) <==>
            exists h :: h in headwords && kept(h) && Scored(metaphone, slug, h) == s && s.score <= MAX_ACCEPTABLE_SCORE
  {
    var passed := Filter(kept, headwords);
    FilterMembers(kept, headwords);
    var all := Map(h => Scored(metaphone, slug, h), passed);
    FilterMembers((s: Suggestion) => s.score <= MAX_ACCEPTABLE_SCORE, all);
    if h :| h in headwords && kept(h) && Scored(metaphone, slug, h) == s {
      assert h in passed;
      var i :| 0 <= i < |passed| && passed[i] == h;
      assert all[i] == s;
    }
    if s in all {
      var i :| 0 <= i < |all| && all[i] == s;
      assert passed[i] in headwords;
    }
  }

  /**
   * The result is the head of one sorted listing of every candidate that scores 2.5 or better: as long as `limit`
   * allows, and nothing left out comes before anything shown.
   */
  lemma ShowsTheClosest(metaphone: string -> Keys, collates: (string, string) -> bool, slug: string,
                        headwords: seq<Headword>, limit: nat) returns (rest: seq<Suggestion>)
    requires TotalPreorder(collates) && slug != ""
    ensures var shown := RankSuggestions(metaphone, collates, slug, headwords, limit);
            var all := Acceptable(metaphone, slug, Candidate(metaphone, slug), headwords);
            Sorted(Order(collates), shown + rest) && multiset(shown + rest) == multiset(all) &&
            |shown| == if limit < |all| then limit else |all|
  {
    var all := Acceptable(metaphone, slug, Candidate(metaphone, slug), headwords);
    var listing := Sort(Order(collates), all);
    OrderIsTotal(collates);
    SortSorts(Order(collates), all);
    assert |multiset(listing)| == |listing| && |multiset(all)| == |all|;
    TakeSplits(limit, listing);
    rest := listing[|Take(limit, listing)|..];
    if headwords == [] {
      assert all == [];
      assert rest == [];
    }
  }

  function RemoveAt<T>(xs: seq<T>, k: nat): seq<T>
    requires k < |xs|
  {
    xs[..k] + xs[k + 1..]
  }

  lemma MapWithout<T, U>(f: T -> U, xs: seq<T>, k: nat)
    requires k < |xs|
    ensures multiset(RemoveAt(xs, k)) == multiset(xs) - multiset{xs[k]}
    ensures multiset(Map(f, xs)) == multiset(Map(f, RemoveAt(xs, k))) + multiset{f(xs[k])}
  {
    assert xs == xs[..k] + [xs[k]] + xs[k + 1..];
    assert Map(f, xs) == Map(f, xs[..k]) + [f(xs[k])] + Map(f, xs[k + 1..]);
    assert Map(f, RemoveAt(xs, k)) == Map(f, xs[..k]) + Map(f, xs[k + 1..]);
  }

  lemma {:induction false} MapSameElements<T, U>(f: T -> U, xs: seq<T>, ys: seq<T>)
    requires multiset(xs) == multiset(ys)
    ensures multiset(Map(f, xs)) == multiset(Map(f, ys))
    decreases |xs|
  {
    assert |multiset(xs)| == |xs| && |multiset(ys)| == |ys|;
    if xs != [] {
      assert xs[0] in multiset(ys);
      var k :| 0 <= k < |ys| && ys[k] == xs[0];
      MapWithout(f, xs, 0);
      MapWithout(f, ys, k);
      MapSameElements(f, RemoveAt(xs, 0), RemoveAt(ys, k));
    }
  }

  /** No headword is listed twice, and the collation tells the slugs of different headwords apart. */
  ghost predicate SlugsAreDistinct(collates: (string, string) -> bool, headwords: seq<Headword>) {
    forall g, h :: (g in headwords && h in headwords && collates(g.normalized, h.normalized) &&
                    collates(h.normalized, g.normalized)) ==> g == h
  }

  lemma AcceptableSameElements(metaphone: string -> Keys, slug: string, kept: Headword -> bool,
                               headwords: seq<Headword>, shuffled: seq<Headword>)
    requires multiset(headwords) == multiset(shuffled)
    ensures multiset(Acceptable(metaphone, slug, kept, headwords)) == multiset(Acceptable(metaphone, slug, kept, shuffled))
  {
    var f := h => Scored(metaphone, slug, h);
    FilterSameElements(kept, headwords, shuffled);
    MapSameElements(f, Filter(kept, headwords), Filter(kept, shuffled));
    FilterSameElements((s: Suggestion) => s.score <= MAX_ACCEPTABLE_SCORE,
                       Map(f, Filter(kept, headwords)), Map(f, Filter(kept, shuffled)));
  }

  /** What sorting makes of the same elements in another order. */
  lemma SortForgetsOrder<T(!new)>(le: (T, T) -> bool, xs: seq<T>, ys: seq<T>)
    requires TotalPreorder(le) && Separates(le, xs) && multiset(xs) == multiset(ys)
    ensures Sort(le, xs) == Sort(le, ys)
  {
    SortSorts(le, xs);
    SortSorts(le, ys);
    forall x | x in Sort(le, xs) ensures x in xs {
      assert x in multiset(xs);
    }
    SortedUnique(le, Sort(le, xs), Sort(le, ys));
  }

  /** The suggestions do not depend on the order the headwords happen to be cached in. */
  lemma OrderOfHeadwordsIsIrrelevant(metaphone: string -> Keys, collates: (string, string) -> bool, slug: string,
                                     headwords: seq<Headword>, shuffled: seq<Headword>, limit: nat)
    requires TotalPreorder(collates) && SlugsAreDistinct(collates, headwords)
    requires multiset(headwords) == multiset(shuffled)
    ensures RankSuggestions(metaphone, collates, slug, headwords, limit) ==
            RankSuggestions(metaphone, collates, slug, shuffled, limit)
  {
    assert |multiset(headwords)| == |headwords| && |multiset(shuffled)| == |shuffled|;
    if slug != "" {
      var kept := Candidate(metaphone, slug);
      OrderIsTotal(collates);
      AcceptableSeparated(metaphone, collates, slug, headwords);
      AcceptableSameElements(metaphone, slug, kept, headwords, shuffled);
      SortForgetsOrder(Order(collates), Acceptable(metaphone, slug, kept, headwords),
                       Acceptable(metaphone, slug, kept, shuffled));
    }
  }

  lemma AcceptableSeparated(metaphone: string -> Keys, collates: (string, string) -> bool, slug: string,
                            headwords: seq<Headword>)
    requires slug != "" && SlugsAreDistinct(collates, headwords)
    ensures Separates(Order(collates), Acceptable(metaphone, slug, Candidate(metaphone, slug), headwords))
  {
    var kept := Candidate(metaphone, slug);
    var all := Acceptable(metaphone, slug, kept, headwords);
    forall x, y | x in all && y in all && NoFurther(collates, x, y) && NoFurther(collates, y, x) ensures x == y {
      AcceptableMembers(metaphone, slug, kept, headwords, x);
      AcceptableMembers(metaphone, slug, kept, headwords, y);
    }
  }

  // The length prefilter.

  /** Exactly four letters apart, all four of them insertions or deletions, and sounding the same. */
  predicate OnTheBoundary(metaphone: string -> Keys, slug: string, h: Headword) {
    LengthGap(h.normalized, slug) == 4 && OsaDistance(slug, h.normalized) == 4 &&
    PhoneticBonus(metaphone(slug), metaphone(h.normalized)) == EXACT_BONUS
  }

  /**
   * The prefilter on length never drops a headword that scores below 2.5. It can drop one that scores exactly 2.5,
   * which the later cut would have let through, and these are precisely the ones.
   */
  lemma PrefilterDropsOnlyTheBoundary(metaphone: string -> Keys, slug: string, h: Headword)
    ensures LengthGap(h.normalized, slug) > LENGTH_TOLERANCE && Score(metaphone, slug, h) <= MAX_ACCEPTABLE_SCORE <==>
            OnTheBoundary(metaphone, slug, h)
    ensures LengthGap(h.normalized, slug) > LENGTH_TOLERANCE ==> Score(metaphone, slug, h) >= MAX_ACCEPTABLE_SCORE
  {
    LengthBounds(slug, h.normalized, |slug|, |h.normalized|);
  }

  function AnyLength(metaphone: string -> Keys, slug: string): Headword -> bool
    requires slug != ""
  {
    h => Related(metaphone, slug, h)
  }

  /** The same listing without the prefilter on length: exactly when no related headword lies on that boundary. */
  lemma PrefilterIsHarmlessExactlyWhen(metaphone: string -> Keys, slug: string, headwords: seq<Headword>)
    requires slug != ""
    ensures Acceptable(metaphone, slug, Candidate(metaphone, slug), headwords) ==
            Acceptable(metaphone, slug, AnyLength(metaphone, slug), headwords) <==>
            forall h :: h in headwords ==> !OnTheBoundary(metaphone, slug, h)
  {
    if h :| h in headwords && OnTheBoundary(metaphone, slug, h) {
      BoundaryIsLost(metaphone, slug, headwords, h);
    } else {
      SameWithoutPrefilter(metaphone, slug, headwords);
    }
  }

  lemma AcceptableAppends(metaphone: string -> Keys, slug: string, kept: Headword -> bool, headwords: seq<Headword>)
    requires headwords != []
    ensures var last := headwords[|headwords| - 1];
            Acceptable(metaphone, slug, kept, headwords) ==
            Acceptable(metaphone, slug, kept, headwords[..|headwords| - 1]) +
              if kept(last) && Score(metaphone, slug, last) <= MAX_ACCEPTABLE_SCORE then [Scored(metaphone, slug, last)]
              else []
  {
    var last := headwords[|headwords| - 1];
    var f := h => Scored(metaphone, slug, h);
    var passed := Filter(kept, headwords[..|headwords| - 1]);
    if kept(last) {
      assert Map(f, passed + [last]) == Map(f, passed) + [f(last)];
      FilterAppends((s: Suggestion) => s.score <= MAX_ACCEPTABLE_SCORE, Map(f, passed), f(last));
    } else {
      NothingAdded(passed);
      NothingAdded(Acceptable(metaphone, slug, kept, headwords[..|headwords| - 1]));
    }
  }

  lemma {:induction false} SameWithoutPrefilter(metaphone: string -> Keys, slug: string, headwords: seq<Headword>)
    requires slug != "" && forall h :: h in headwords ==> !OnTheBoundary(metaphone, slug, h)
    ensures Acceptable(metaphone, slug, Candidate(metaphone, slug), headwords) ==
            Acceptable(metaphone, slug, AnyLength(metaphone, slug), headwords)
  {
    if headwords != [] {
      SameWithoutPrefilter(metaphone, slug, headwords[..|headwords| - 1]);
      AcceptableAppends(metaphone, slug, Candidate(metaphone, slug), headwords);
      AcceptableAppends(metaphone, slug, AnyLength(metaphone, slug), headwords);
      PrefilterDropsOnlyTheBoundary(metaphone, slug, headwords[|headwords| - 1]);
    }
  }

  lemma BoundaryIsLost(metaphone: string -> Keys, slug: string, headwords: seq<Headword>, h: Headword)
    requires slug != "" && h in headwords && OnTheBoundary(metaphone, slug, h)
    ensures Acceptable(metaphone, slug, Candidate(metaphone, slug), headwords) !=
            Acceptable(metaphone, slug, AnyLength(metaphone, slug), headwords)
  {
    AcceptableMembers(metaphone, slug, AnyLength(metaphone, slug), headwords, Scored(metaphone, slug, h));
    AcceptableMembers(metaphone, slug, Candidate(metaphone, slug), headwords, Scored(metaphone, slug, h));
    assert Scored(metaphone, slug, h) in Acceptable(metaphone, slug, AnyLength(metaphone, slug), headwords);
  }

  /** Such words exist: "a" and "aeiou" share the one key "A", since Double Metaphone writes a vowel only at the front. */
  lemma AWordOnTheBoundary(metaphone: string -> Keys)
    requires metaphone("a") == metaphone("aeiou") == Keys("A", "A")
    ensures OnTheBoundary(metaphone, "a", Headword("aeiou", "aeiou", None))
  {
    FourInsertions();
  }

  lemma FourInsertions()
    ensures OsaDistance("a", "aeiou") == 4
  {
    LengthBounds("a", "aeiou", 1, 5);
    LastEditPays("a", "aeiou", 1, 5, Insert('u'));
    LastEditPays("a", "aeiou", 1, 4, Insert('o'));
    LastEditPays("a", "aeiou", 1, 3, Insert('i'));
    LastEditPays("a", "aeiou", 1, 2, Insert('e'));
    LastEditPays("a", "aeiou", 1, 1, Keep('a'));
  }
}
