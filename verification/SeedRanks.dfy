/**
 * Ranking the inventory by frequency, and re-seeding the phoneme table so that no statement ever meets a rank still
 * held by another row.
 */
module SeedRanks {
  import opened Sorting
  import opened Wrappers

  datatype Unit = Unit(symbol: string, canonicalOrder: nat)

  /** A unit with how often it occurs in the corpus. */
  datatype Counted = Counted(symbol: string, occurrences: nat, canonicalOrder: nat)

  datatype Ranked = Ranked(symbol: string, rank: nat, occurrences: nat)

  type Ranks = map<string, int>

  /** The inventory as loaded: symbols and canonical orders without repeats, the orders running from 1 to their number. */
  ghost predicate Inventory(units: seq<Unit>) {
    (forall i, j :: 0 <= i < |units| && 0 <= j < |units| && units[i].symbol == units[j].symbol ==> i == j) &&
    (forall i, j :: 0 <= i < |units| && 0 <= j < |units| && units[i].canonicalOrder == units[j].canonicalOrder ==> i == j) &&
    forall i :: 0 <= i < |units| ==> 1 <= units[i].canonicalOrder <= |units|
  }

  function CountOf(counts: map<string, nat>, symbol: string): nat {
    if symbol in counts then counts[symbol] else 0
  }

  function WithCounts(units: seq<Unit>, counts: map<string, nat>): seq<Counted> {
    seq(|units|, i requires 0 <= i < |units| =>
      Counted(units[i].symbol, CountOf(counts, units[i].symbol), units[i].canonicalOrder))
  }

  /** More frequent first; equal counts in canonical order. */
  function MoreFrequent(): (Counted, Counted) -> bool {
    (x: Counted, y: Counted) =>
      x.occurrences > y.occurrences || (x.occurrences == y.occurrences && x.canonicalOrder <= y.canonicalOrder)
  }

  function DeriveFrequencyRanks(units: seq<Unit>, counts: map<string, nat>): seq<Ranked> {
    var sorted := Sort(MoreFrequent(), WithCounts(units, counts));
    seq(|sorted|, i requires 0 <= i < |sorted| => Ranked(sorted[i].symbol, i + 1, sorted[i].occurrences))
  }

  // The ranking itself.

  lemma MoreFrequentIsTotal()
    ensures TotalPreorder(MoreFrequent())
  {
  }

  lemma {:induction false} NoRepeats<T>(xs: seq<T>)
    requires forall i, j :: 0 <= i < j < |xs| ==> xs[i] != xs[j]
    ensures forall x :: multiset(xs)[x] <= 1
  {
    if xs != [] {
      NoRepeats(xs[..|xs| - 1]);
      WithoutLast(xs);
      assert xs[|xs| - 1] !in xs[..|xs| - 1];
    }
  }

  lemma CountedTwice<T>(xs: seq<T>, i: nat, j: nat)
    requires i < j < |xs| && xs[i] == xs[j]
    ensures multiset(xs)[xs[i]] >= 2
  {
    assert xs == xs[..j] + ([xs[j]] + xs[j + 1..]);
    assert xs[i] == xs[..j][i];
  }

  ghost predicate DistinctSymbols(xs: seq<Counted>) {
    forall i, j :: 0 <= i < j < |xs| ==> xs[i].symbol != xs[j].symbol
  }

  /** Rearranging keeps symbols apart. */
  lemma RearrangedSymbols(xs: seq<Counted>, ys: seq<Counted>)
    requires multiset(xs) == multiset(ys) && DistinctSymbols(xs)
    ensures DistinctSymbols(ys) && |xs| == |ys| && forall y :: y in ys <==> y in xs
  {
    assert |multiset(xs)| == |xs| && |multiset(ys)| == |ys|;
    assert forall y :: (y in ys <==> y in multiset(ys)) && (y in xs <==> y in multiset(xs));
    NoRepeats(xs);
    forall i, j | 0 <= i < j < |ys| ensures ys[i].symbol != ys[j].symbol {
      assert ys[i] in xs && ys[j] in xs;
      if ys[i] == ys[j] { CountedTwice(ys, i, j); }
    }
  }

  lemma SortedCounts(units: seq<Unit>, counts: map<string, nat>) returns (sorted: seq<Counted>)
    requires Inventory(units)
    ensures sorted == Sort(MoreFrequent(), WithCounts(units, counts)) && Sorted(MoreFrequent(), sorted)
    ensures |sorted| == |units| && DistinctSymbols(sorted)
    ensures forall c :: c in sorted <==> c in WithCounts(units, counts)
  {
    sorted := Sort(MoreFrequent(), WithCounts(units, counts));
    MoreFrequentIsTotal();
    SortSorts(MoreFrequent(), WithCounts(units, counts));
    RearrangedSymbols(WithCounts(units, counts), sorted);
  }

  /** The place of a unit in the ranking. */
  lemma UnitIsRanked(units: seq<Unit>, counts: map<string, nat>, u: nat) returns (k: nat)
    requires Inventory(units) && u < |units|
    ensures k < |DeriveFrequencyRanks(units, counts)|
    ensures Sort(MoreFrequent(), WithCounts(units, counts))[k] ==
            Counted(units[u].symbol, CountOf(counts, units[u].symbol), units[u].canonicalOrder)
    ensures DeriveFrequencyRanks(units, counts)[k] == Ranked(units[u].symbol, k + 1, CountOf(counts, units[u].symbol))
  {
    var sorted := SortedCounts(units, counts);
    assert WithCounts(units, counts)[u] in sorted;
    k :| 0 <= k < |sorted| && sorted[k] == WithCounts(units, counts)[u];
  }

  function RanksBySymbol(ranked: seq<Ranked>): map<string, nat> {
    if ranked == [] then map[]
    else RanksBySymbol(ranked[..|ranked| - 1])[ranked[|ranked| - 1].symbol := ranked[|ranked| - 1].rank]
  }

  lemma {:induction false} LookedUpRank(ranked: seq<Ranked>, k: nat)
    requires forall i, j :: 0 <= i < j < |ranked| ==> ranked[i].symbol != ranked[j].symbol
    requires k < |ranked|
    ensures ranked[k].symbol in RanksBySymbol(ranked) && RanksBySymbol(ranked)[ranked[k].symbol] == ranked[k].rank
    decreases |ranked|
  {
    if k < |ranked| - 1 {
      LookedUpRank(ranked[..|ranked| - 1], k);
      assert ranked[k].symbol != ranked[|ranked| - 1].symbol;
    }
  }

  function RankOf(units: seq<Unit>, counts: map<string, nat>, symbol: string): int {
    var ranks := RanksBySymbol(DeriveFrequencyRanks(units, counts));
    if symbol in ranks then ranks[symbol] else 0
  }

  lemma RankIsPlace(units: seq<Unit>, counts: map<string, nat>, u: nat) returns (k: nat)
    requires Inventory(units) && u < |units|
    ensures k < |units| && RankOf(units, counts, units[u].symbol) == k + 1
    ensures |Sort(MoreFrequent(), WithCounts(units, counts))| == |units|
    ensures Sort(MoreFrequent(), WithCounts(units, counts))[k] ==
            Counted(units[u].symbol, CountOf(counts, units[u].symbol), units[u].canonicalOrder)
  {
    var sorted := SortedCounts(units, counts);
    k := UnitIsRanked(units, counts, u);
    LookedUpRank(DeriveFrequencyRanks(units, counts), k);
  }

  /** Every rank from 1 to the number of units is taken, by one unit each. */
  lemma RanksAreABijection(units: seq<Unit>, counts: map<string, nat>)
    requires Inventory(units)
    ensures forall u :: 0 <= u < |units| ==> 1 <= RankOf(units, counts, units[u].symbol) <= |units|
    ensures forall u, v :: (0 <= u < |units| && 0 <= v < |units| &&
                            RankOf(units, counts, units[u].symbol) == RankOf(units, counts, units[v].symbol)) ==> u == v
    ensures forall rank :: 1 <= rank <= |units| ==> Taken(units, counts, rank)
  {
    forall u | 0 <= u < |units| ensures 1 <= RankOf(units, counts, units[u].symbol) <= |units| {
      var k := RankIsPlace(units, counts, u);
    }
    forall u, v | 0 <= u < |units| && 0 <= v < |units| &&
                  RankOf(units, counts, units[u].symbol) == RankOf(units, counts, units[v].symbol) ensures u == v {
      var k := RankIsPlace(units, counts, u);
      var l := RankIsPlace(units, counts, v);
    }
    forall rank | 1 <= rank <= |units| ensures Taken(units, counts, rank) {
      RankIsTaken(units, counts, rank);
    }
  }

  ghost predicate Taken(units: seq<Unit>, counts: map<string, nat>, rank: int) {
    exists u :: 0 <= u < |units| && RankOf(units, counts, units[u].symbol) == rank
  }

  lemma RankIsTaken(units: seq<Unit>, counts: map<string, nat>, rank: int)
    requires Inventory(units) && 1 <= rank <= |units|
    ensures Taken(units, counts, rank)
  {
    var sorted := SortedCounts(units, counts);
    assert sorted[rank - 1] in WithCounts(units, counts);
    var u :| 0 <= u < |units| && WithCounts(units, counts)[u] == sorted[rank - 1];
    var k := RankIsPlace(units, counts, u);
    assert sorted[k].symbol == sorted[rank - 1].symbol;
  }

  /** A unit ranks above another exactly when it is more frequent, or as frequent and earlier in canonical order. */
  lemma RankFollowsFrequency(units: seq<Unit>, counts: map<string, nat>, u: nat, v: nat)
    requires Inventory(units) && u < |units| && v < |units| && u != v
    ensures var a, b := CountOf(counts, units[u].symbol), CountOf(counts, units[v].symbol);
            RankOf(units, counts, units[u].symbol) < RankOf(units, counts, units[v].symbol) <==>
            a > b || (a == b && units[u].canonicalOrder < units[v].canonicalOrder)
  {
    var sorted := SortedCounts(units, counts);
    var k := RankIsPlace(units, counts, u);
    var l := RankIsPlace(units, counts, v);
    assert units[u].canonicalOrder != units[v].canonicalOrder;
    if k < l { assert MoreFrequent()(sorted[k], sorted[l]); }
    if l < k { assert MoreFrequent()(sorted[l], sorted[k]); }
  }

  // Re-seeding.

  ghost predicate DistinctRanks(ranks: Ranks) {
    forall s, t {:trigger ranks[s], ranks[t]} :: s in ranks && t in ranks && ranks[s] == ranks[t] ==> s == t
  }

  /** The ranks stored so far are those of an earlier seeding. */
  ghost predicate StoredRanks(ranks: Ranks, n: nat) {
    DistinctRanks(ranks) && forall s :: s in ranks ==> 1 <= ranks[s] <= n
  }

  function Opposite(ranks: Ranks): Ranks {
    map s | s in ranks :: if ranks[s] > 0 then -ranks[s] else ranks[s]
  }

  /** The rows a statement writing this rank for this symbol would duplicate. */
  function Claimants(ranks: Ranks, symbol: string, rank: int): set<string> {
    set s | s in ranks && (s == symbol || ranks[s] == rank)
  }

  function ParkingRank(unit: Unit, n: nat): int {
    -(unit.canonicalOrder + n)
  }

  predicate IsUnit(units: seq<Unit>, n: nat, symbol: string)
    requires n <= |units|
  {
    exists u :: 0 <= u < n && units[u].symbol == symbol
  }

  predicate Held(ranks: Ranks, rank: int) {
    exists t :: t in ranks && ranks[t] == rank
  }

  ghost predicate SignFree(ranks: Ranks, s: string)
    requires s in ranks
  {
    ranks[s] > 0 ==> !Held(ranks, -ranks[s])
  }

  /** No row holds the negative of a positive rank another row holds. */
  ghost predicate SignsApart(ranks: Ranks) {
    forall s :: s in ranks ==> SignFree(ranks, s)
  }

  lemma SignsApartExactlyWhen(ranks: Ranks)
    requires DistinctRanks(ranks)
    ensures SignsApart(ranks) <==> DistinctRanks(Opposite(ranks))
  {
    var parked := Opposite(ranks);
    if SignsApart(ranks) {
      forall s, t | s in parked && t in parked && parked[s] == parked[t] ensures s == t {
        OppositesApart(ranks, s, t);
      }
    } else {
      var s :| s in ranks && !SignFree(ranks, s);
      var t :| t in ranks && ranks[t] == -ranks[s];
      assert parked[s] == parked[t] && s != t;
    }
  }

  lemma OppositesApart(ranks: Ranks, s: string, t: string)
    requires DistinctRanks(ranks) && SignsApart(ranks) && s in ranks && t in ranks && Opposite(ranks)[s] == Opposite(ranks)[t]
    ensures s == t
  {
    assert SignFree(ranks, s) && SignFree(ranks, t);
    assert Held(ranks, ranks[s]) && Held(ranks, ranks[t]);
  }

  /** The ranks while some rows still wait to be visited. */
  function Flipped(before: Ranks, waiting: set<string>): Ranks {
    map s | s in before :: if s in waiting || before[s] <= 0 then before[s] else -before[s]
  }

  /** Whatever was visited before, a row meets its negative exactly when the negative was there from the start. */
  lemma HeldAllAlong(before: Ranks, waiting: set<string>, s: string)
    requires DistinctRanks(before) && s in before && s in waiting && before[s] > 0
    ensures Held(Flipped(before, waiting), -before[s]) <==> !SignFree(before, s)
  {
    if t :| t in before && before[t] == -before[s] {
      assert Flipped(before, waiting)[t] == -before[s];
    }
    forall t | t in before && Flipped(before, waiting)[t] == -before[s] ensures before[t] == -before[s] {
      assert t != s;
    }
  }

  /** The statement so far: the rows visited have changed sign, and none of them met its negative. */
  ghost predicate Visited(before: Ranks, waiting: set<string>, ranks: Ranks) {
    waiting <= before.Keys && ranks == Flipped(before, waiting) &&
    forall s :: s in before && s !in waiting ==> SignFree(before, s)
  }

  lemma NothingVisited(before: Ranks)
    ensures Visited(before, before.Keys, before)
  {
  }

  lemma MeetsItsNegative(before: Ranks, waiting: set<string>, ranks: Ranks, s: string)
    requires DistinctRanks(before) && Visited(before, waiting, ranks) && s in waiting
    requires ranks[s] > 0 && Held(ranks, -ranks[s])
    ensures !SignsApart(before)
  {
    HeldAllAlong(before, waiting, s);
  }

  lemma TurnOne(before: Ranks, waiting: set<string>, ranks: Ranks, s: string)
    requires DistinctRanks(before) && Visited(before, waiting, ranks) && s in waiting
    requires ranks[s] > 0 && !Held(ranks, -ranks[s])
    ensures Visited(before, waiting - {s}, ranks[s := -ranks[s]])
  {
    HeldAllAlong(before, waiting, s);
    assert Flipped(before, waiting - {s}) == Flipped(before, waiting)[s := -before[s]];
  }

  lemma PassOne(before: Ranks, waiting: set<string>, ranks: Ranks, s: string)
    requires Visited(before, waiting, ranks) && s in waiting && ranks[s] <= 0
    ensures Visited(before, waiting - {s}, ranks)
  {
    assert Flipped(before, waiting - {s}) == Flipped(before, waiting);
  }

  lemma AllVisited(before: Ranks, ranks: Ranks)
    requires DistinctRanks(before) && Visited(before, {}, ranks)
    ensures SignsApart(before) && ranks == Opposite(before) && DistinctRanks(ranks)
  {
    SignsApartExactlyWhen(before);
  }

  /** Nobody who has not moved yet, other than the unit itself, stands where unit `i` is to be parked. */
  ghost predicate PlaceIsFree(units: seq<Unit>, parked: Ranks, i: nat)
    requires i < |units|
  {
    forall t :: t in parked && t != units[i].symbol && !IsUnit(units, i, t) ==> parked[t] != ParkingRank(units[i], |units|)
  }

  /** What has to hold of the stored ranks for a seeding to meet no rank held by another row. */
  ghost predicate SeedingIsSafe(units: seq<Unit>, ranks: Ranks) {
    SignsApart(ranks) && forall i: nat :: i < |units| ==> PlaceIsFree(units, Opposite(ranks), i)
  }

  /** The first `i` units stand where they are parked, and every other row is where it was. */
  ghost predicate Moved(units: seq<Unit>, parked: Ranks, ranks: Ranks, i: nat)
    requires i <= |units|
  {
    (forall u :: 0 <= u < i ==> units[u].symbol in ranks && ranks[units[u].symbol] == ParkingRank(units[u], |units|)) &&
    (forall s :: s in ranks && !IsUnit(units, i, s) ==> s in parked && ranks[s] == parked[s]) &&
    forall s :: s in parked && !IsUnit(units, i, s) ==> s in ranks
  }

  /** Parking a unit duplicates its own row alone, or none, exactly when its place is free. */
  lemma OwnRowAloneExactlyWhen(units: seq<Unit>, parked: Ranks, ranks: Ranks, i: nat)
    requires Inventory(units) && i < |units| && Moved(units, parked, ranks, i)
    ensures Claimants(ranks, units[i].symbol, ParkingRank(units[i], |units|)) <= {units[i].symbol} <==>
            PlaceIsFree(units, parked, i)
  {
    var symbol, rank := units[i].symbol, ParkingRank(units[i], |units|);
    forall s | s in ranks && IsUnit(units, i, s) ensures ranks[s] != rank {
      var u :| 0 <= u < i && units[u].symbol == s;
      assert units[u].canonicalOrder != units[i].canonicalOrder;
    }
    if !PlaceIsFree(units, parked, i) {
      var t :| t in parked && t != symbol && !IsUnit(units, i, t) && parked[t] == rank;
      assert t in Claimants(ranks, symbol, rank);
    }
  }

  lemma OneMoreMoved(units: seq<Unit>, parked: Ranks, ranks: Ranks, i: nat)
    requires Inventory(units) && i < |units| && Moved(units, parked, ranks, i)
    ensures Moved(units, parked, ranks[units[i].symbol := ParkingRank(units[i], |units|)], i + 1)
  {
    var after := ranks[units[i].symbol := ParkingRank(units[i], |units|)];
    forall s | !IsUnit(units, i + 1, s) ensures s != units[i].symbol && !IsUnit(units, i, s) {
      assert units[i].symbol != s;
    }
  }

  /** Ranks an earlier seeding of as many units left are safe to seed over. */
  lemma SeededRanksAreSafe(units: seq<Unit>, ranks: Ranks)
    requires Inventory(units) && StoredRanks(ranks, |units|)
    ensures SeedingIsSafe(units, ranks)
  {
  }

  /** A place just beyond the inventory is not safe, unless its holder is the first unit. */
  lemma ShrinkingIsNotSafe(units: seq<Unit>, ranks: Ranks, symbol: string)
    requires units != [] && units[0].canonicalOrder == 1
    requires symbol in ranks && symbol != units[0].symbol && ranks[symbol] == |units| + 1
    ensures !SeedingIsSafe(units, ranks)
  {
    assert !IsUnit(units, 0, symbol);
    assert !PlaceIsFree(units, Opposite(ranks), 0);
  }

  function Upto(n: nat): (s: set<int>)
    ensures |s| == n
    ensures forall k :: k in s <==> 1 <= k <= n
  {
    if n == 0 then {} else Upto(n - 1) + {n}
  }

  function Orders(units: seq<Unit>, n: nat): set<int>
    requires n <= |units|
  {
    set u | 0 <= u < n :: units[u].canonicalOrder
  }

  lemma {:induction false} AsManyOrders(units: seq<Unit>, n: nat)
    requires Inventory(units) && n <= |units|
    ensures |Orders(units, n)| == n
  {
    if n > 0 {
      AsManyOrders(units, n - 1);
      assert Orders(units, n) == Orders(units, n - 1) + {units[n - 1].canonicalOrder};
      assert units[n - 1].canonicalOrder !in Orders(units, n - 1);
    }
  }

  lemma SubsetOfItsSize<T>(s: set<T>, t: set<T>)
    requires s <= t && |s| == |t|
    ensures s == t
  {
    assert |t - s| == 0;
  }

  /** Every order up to the number of units is some unit's. */
  lemma OrderIsTaken(units: seq<Unit>, order: nat) returns (u: nat)
    requires Inventory(units) && 1 <= order <= |units|
    ensures u < |units| && units[u].canonicalOrder == order
  {
    AsManyOrders(units, |units|);
    SubsetOfItsSize(Orders(units, |units|), Upto(|units|));
    assert order in Orders(units, |units|);
    u :| 0 <= u < |units| && units[u].canonicalOrder == order;
  }

  /** Rows the inventory has dropped are harmless exactly when none is ranked within one inventory beyond its end. */
  lemma DroppedRowsAreSafeExactlyWhen(units: seq<Unit>, ranks: Ranks)
    requires Inventory(units) && forall s :: s in ranks ==> ranks[s] > 0
    requires forall s :: s in ranks && ranks[s] > |units| ==> !IsUnit(units, |units|, s)
    ensures SeedingIsSafe(units, ranks) <==> forall s :: s in ranks ==> !(|units| < ranks[s] <= 2 * |units|)
  {
    if s :| s in ranks && |units| < ranks[s] <= 2 * |units| {
      var u := OrderIsTaken(units, ranks[s] - |units|);
      assert !IsUnit(units, u, s) && s != units[u].symbol;
      assert !PlaceIsFree(units, Opposite(ranks), u);
    }
  }

  /** The outcome of INSERT … ON DUPLICATE KEY UPDATE: some duplicated row claims it, or there is none. */
  ghost predicate Upserted(before: Ranks, symbol: string, rank: int, ok: bool, after: Ranks) {
    if Claimants(before, symbol, rank) == {} then ok && after == before[symbol := rank]
    else exists s :: s in Claimants(before, symbol, rank) && Written(before, s, rank, ok, after)
  }

  /** Row `s` takes the rank, unless another has it. */
  ghost predicate Written(before: Ranks, s: string, rank: int, ok: bool, after: Ranks) {
    (ok <==> forall t :: t in before && t != s ==> before[t] != rank) &&
    after == if ok then before[s := rank] else before
  }

  /** A statement meant for a row of its own is not refused, and writes that row. */
  lemma WritesItsOwn(before: Ranks, symbol: string, rank: int, ok: bool, after: Ranks)
    requires Claimants(before, symbol, rank) <= {symbol} && Upserted(before, symbol, rank, ok, after)
    ensures ok && after == before[symbol := rank]
  {
    forall t | t in before && t != symbol ensures before[t] != rank {
      assert t !in Claimants(before, symbol, rank);
    }
  }

  /** Whoever claims it, either the symbol's own row takes the rank or nothing changes. */
  lemma WritesItsOwnOrNothing(before: Ranks, symbol: string, rank: int, ok: bool, after: Ranks)
    requires DistinctRanks(before) && Upserted(before, symbol, rank, ok, after)
    ensures after == before || after == before[symbol := rank]
  {
    if Claimants(before, symbol, rank) != {} {
      var s :| s in Claimants(before, symbol, rank) && Written(before, s, rank, ok, after);
      assert s != symbol ==> before[s := rank] == before;
    }
  }

  lemma SafeMove(units: seq<Unit>, before: Ranks, was: Ranks, i: nat, ok: bool, ranks: Ranks)
    requires Inventory(units) && SeedingIsSafe(units, before) && i < |units| && Moved(units, Opposite(before), was, i)
    requires Upserted(was, units[i].symbol, ParkingRank(units[i], |units|), ok, ranks)
    ensures ok && units[i].symbol in ranks && Moved(units, Opposite(before), ranks, i + 1)
  {
    OwnRowAloneExactlyWhen(units, Opposite(before), was, i);
    WritesItsOwn(was, units[i].symbol, ParkingRank(units[i], |units|), ok, ranks);
    OneMoreMoved(units, Opposite(before), was, i);
  }

  /** No rank above nought, every unit up to `i` there, and rows that are no unit where they were. */
  ghost predicate Vacated(units: seq<Unit>, parked: Ranks, ranks: Ranks, i: nat)
    requires i <= |units|
  {
    (forall u :: 0 <= u < i ==> units[u].symbol in ranks) &&
    (forall s :: s in ranks ==> ranks[s] <= 0) &&
    (forall s :: s in ranks && !IsUnit(units, |units|, s) ==> s in parked && ranks[s] == parked[s]) &&
    forall s :: s in parked ==> s in ranks
  }

  lemma StaysVacated(units: seq<Unit>, parked: Ranks, was: Ranks, i: nat, ok: bool, ranks: Ranks)
    requires i < |units| && DistinctRanks(was) && Vacated(units, parked, was, i)
    requires Upserted(was, units[i].symbol, ParkingRank(units[i], |units|), ok, ranks) && units[i].symbol in ranks
    ensures Vacated(units, parked, ranks, i + 1)
  {
    WritesItsOwnOrNothing(was, units[i].symbol, ParkingRank(units[i], |units|), ok, ranks);
    assert IsUnit(units, |units|, units[i].symbol);
  }

  /** The first `i` units have their ranks, no other row has a rank above nought, and what is no unit stands parked. */
  ghost predicate Ranking(units: seq<Unit>, counts: map<string, nat>, parked: Ranks, ranks: Ranks, i: nat)
    requires i <= |units|
  {
    (forall u :: 0 <= u < |units| ==> units[u].symbol in ranks && RankedSoFar(units, counts, u, i, ranks[units[u].symbol])) &&
    (forall s :: s in ranks && !IsUnit(units, |units|, s) ==> s in parked && ranks[s] == parked[s] <= 0) &&
    forall s :: s in parked ==> s in ranks
  }

  predicate RankedSoFar(units: seq<Unit>, counts: map<string, nat>, u: nat, i: nat, rank: int)
    requires u < |units|
  {
    if u < i then rank == RankOf(units, counts, units[u].symbol) else rank <= 0
  }

  lemma NobodyElseIsRankedThere(units: seq<Unit>, counts: map<string, nat>, parked: Ranks, ranks: Ranks, i: nat)
    requires Inventory(units) && i < |units| && Ranking(units, counts, parked, ranks, i)
    ensures forall t :: t in ranks && t != units[i].symbol ==> ranks[t] != RankOf(units, counts, units[i].symbol)
  {
    RanksAreABijection(units, counts);
    forall t | t in ranks && t != units[i].symbol ensures ranks[t] != RankOf(units, counts, units[i].symbol) {
      if u :| 0 <= u < |units| && units[u].symbol == t {
        assert RankedSoFar(units, counts, u, i, ranks[t]);
      }
    }
  }

  lemma StillRanked(units: seq<Unit>, counts: map<string, nat>, ranks: Ranks, i: nat, u: nat)
    requires Inventory(units) && i < |units| && u < |units| && units[u].symbol in ranks
    requires RankedSoFar(units, counts, u, i, ranks[units[u].symbol])
    ensures RankedSoFar(units, counts, u, i + 1, ranks[units[i].symbol := RankOf(units, counts, units[i].symbol)][units[u].symbol])
  {
    assert units[u].symbol == units[i].symbol ==> u == i;
  }

  lemma OneMoreRanked(units: seq<Unit>, counts: map<string, nat>, parked: Ranks, ranks: Ranks, i: nat)
    requires Inventory(units) && i < |units| && Ranking(units, counts, parked, ranks, i)
    ensures Ranking(units, counts, parked, ranks[units[i].symbol := RankOf(units, counts, units[i].symbol)], i + 1)
  {
    var after := ranks[units[i].symbol := RankOf(units, counts, units[i].symbol)];
    assert IsUnit(units, |units|, units[i].symbol);
    forall u | 0 <= u < |units| ensures RankedSoFar(units, counts, u, i + 1, after[units[u].symbol]) {
      StillRanked(units, counts, ranks, i, u);
    }
  }

  lemma RankIsFree(units: seq<Unit>, counts: map<string, nat>, parked: Ranks, ranks: Ranks, i: nat)
    requires Inventory(units) && i < |units| && Ranking(units, counts, parked, ranks, i)
    ensures var rank, bySymbol := RankOf(units, counts, units[i].symbol), RanksBySymbol(DeriveFrequencyRanks(units, counts));
            units[i].symbol in bySymbol && bySymbol[units[i].symbol] == rank && units[i].symbol in ranks &&
            (forall t :: t in ranks && t != units[i].symbol ==> ranks[t] != rank) &&
            Ranking(units, counts, parked, ranks[units[i].symbol := rank], i + 1)
  {
    NobodyElseIsRankedThere(units, counts, parked, ranks, i);
    OneMoreRanked(units, counts, parked, ranks, i);
    var k := RankIsPlace(units, counts, i);
  }

  class PhonemeTable {
    var ranks: Ranks

    constructor ()
      ensures ranks == map[]
    {
      ranks := map[];
    }

    /** One row of the statement. */
    method ParkRow(s: string, ghost before: Ranks, ghost waiting: set<string>) returns (ok: bool)
      requires DistinctRanks(before) && Visited(before, waiting, ranks) && s in waiting
      modifies this
      ensures if ok then Visited(before, waiting - {s}, ranks) else !SignsApart(before)
    {
      if ranks[s] > 0 {
        if Held(ranks, -ranks[s]) {
          MeetsItsNegative(before, waiting, ranks, s);
          return false;
        }
        TurnOne(before, waiting, ranks, s);
        ranks := ranks[s := -ranks[s]];
      } else {
        PassOne(before, waiting, ranks, s);
      }
      return true;
    }

    /**
     * One UPDATE; the unique key is checked row by row, in whatever order the rows are visited, and a duplicate met on
     * the way undoes the statement.
     */
    method ParkFrequencyRanks() returns (ok: bool)
      requires DistinctRanks(ranks)
      modifies this
      ensures ok <==> SignsApart(old(ranks))
      ensures DistinctRanks(ranks) && ranks == if ok then Opposite(old(ranks)) else old(ranks)
    {
      var before, waiting := ranks, ranks.Keys;
      NothingVisited(before);
      while waiting != {}
        invariant Visited(before, waiting, ranks)
        decreases waiting
      {
        var s :| s in waiting;
        ok := ParkRow(s, before, waiting);
        if !ok {
          ranks := before;
          return;
        }
        waiting := waiting - {s};
      }
      AllVisited(before, ranks);
      return true;
    }

    /** INSERT … ON DUPLICATE KEY UPDATE: any row duplicated may claim the update, which is refused if another then has the rank. */
    method UpsertPhoneme(symbol: string, rank: int) returns (ok: bool)
      requires DistinctRanks(ranks)
      modifies this
      ensures DistinctRanks(ranks) && Upserted(old(ranks), symbol, rank, ok, ranks)
    {
      var claimants := Claimants(ranks, symbol, rank);
      if claimants == {} {
        forall s | s in ranks ensures ranks[s] != rank { assert s !in claimants; }
        ranks := ranks[symbol := rank];
        return true;
      }
      var s :| s in claimants;
      ok := forall t :: t in ranks && t != s ==> ranks[t] != rank;
      assert Written(ranks, s, rank, ok, if ok then ranks[s := rank] else ranks);
      if ok { ranks := ranks[s := rank]; }
    }

    /** Refused when another row holds the rank; a symbol without a row is left alone. */
    method SetFrequencyRank(symbol: string, rank: int) returns (ok: bool)
      requires DistinctRanks(ranks)
      modifies this
      ensures DistinctRanks(ranks)
      ensures ok <==> symbol in old(ranks) ==> forall t :: t in old(ranks) && t != symbol ==> old(ranks)[t] != rank
      ensures ranks == if ok && symbol in old(ranks) then old(ranks)[symbol := rank] else old(ranks)
    {
      ok := symbol in ranks ==> forall t :: t in ranks && t != symbol ==> ranks[t] != rank;
      if ok && symbol in ranks { ranks := ranks[symbol := rank]; }
    }

    /**
     * One transaction: a refused statement, or a unit not found after its upsert, undoes it. Whatever claims each
     * statement, a seeding that goes through leaves every unit at its rank; over safe ranks it always goes through.
     */
    method SeedPhonemes(units: seq<Unit>, counts: map<string, nat>) returns (ok: bool)
      requires Inventory(units) && DistinctRanks(ranks)
      modifies this
      ensures DistinctRanks(ranks)
      ensures SeedingIsSafe(units, old(ranks)) ==> ok
      ensures if ok then Ranking(units, counts, Opposite(old(ranks)), ranks, |units|) else ranks == old(ranks)
    {
      var before := ranks;
      ok := ParkFrequencyRanks();
      if !ok { return; }
      ok := MoveUnits(units, before);
      if !ok {
        ranks := before;
        return;
      }
      RankUnits(units, counts, Opposite(before));
    }

    /** Every rank above nought is free by now, so none of these statements is refused. */
    method RankUnits(units: seq<Unit>, counts: map<string, nat>, ghost parked: Ranks)
      requires Inventory(units) && DistinctRanks(ranks) && Ranking(units, counts, parked, ranks, 0)
      modifies this
      ensures DistinctRanks(ranks) && Ranking(units, counts, parked, ranks, |units|)
    {
      var rankBySymbol := RanksBySymbol(DeriveFrequencyRanks(units, counts));
      for i := 0 to |units|
        invariant DistinctRanks(ranks) && Ranking(units, counts, parked, ranks, i)
      {
        RankIsFree(units, counts, parked, ranks, i);
        var ok := SetFrequencyRank(units[i].symbol, rankBySymbol[units[i].symbol]);
        assert ok;
      }
    }

    /** Every unit is upserted at its parking rank and then looked up. */
    method MoveUnits(units: seq<Unit>, ghost before: Ranks) returns (ok: bool)
      requires Inventory(units) && DistinctRanks(ranks) && ranks == Opposite(before)
      modifies this
      ensures DistinctRanks(ranks)
      ensures SeedingIsSafe(units, before) ==> ok && Moved(units, Opposite(before), ranks, |units|)
      ensures ok ==> Vacated(units, Opposite(before), ranks, |units|)
    {
      ghost var parked := ranks;
      for i := 0 to |units|
        invariant DistinctRanks(ranks) && Vacated(units, parked, ranks, i)
        invariant SeedingIsSafe(units, before) ==> Moved(units, parked, ranks, i)
      {
        ghost var was := ranks;
        ok := UpsertPhoneme(units[i].symbol, ParkingRank(units[i], |units|));
        if SeedingIsSafe(units, before) { SafeMove(units, before, was, i, ok, ranks); }
        if !ok || units[i].symbol !in ranks { return false; }
        StaysVacated(units, parked, was, i, ok, ranks);
      }
      ok := true;
    }
  }

  /** Where every row is a unit's, a seeding leaves the units at their ranks and nothing else. */
  lemma OnlyUnitsRanked(units: seq<Unit>, counts: map<string, nat>, parked: Ranks, ranks: Ranks, s: string)
    requires Inventory(units) && Ranking(units, counts, parked, ranks, |units|)
    requires forall t :: t in parked ==> IsUnit(units, |units|, t)
    ensures s in ranks <==> IsUnit(units, |units|, s)
    ensures s in ranks ==> ranks[s] == RankOf(units, counts, s)
  {
    if u :| 0 <= u < |units| && units[u].symbol == s {
      assert RankedSoFar(units, counts, u, |units|, ranks[s]);
    }
  }

  lemma SeededRanksStand(units: seq<Unit>, counts: map<string, nat>, parked: Ranks, ranks: Ranks)
    requires Inventory(units) && DistinctRanks(ranks) && Ranking(units, counts, parked, ranks, |units|)
    requires forall t :: t in parked ==> IsUnit(units, |units|, t)
    ensures StoredRanks(ranks, |units|)
  {
    RanksAreABijection(units, counts);
    forall s | s in ranks ensures 1 <= ranks[s] <= |units| {
      OnlyUnitsRanked(units, counts, parked, ranks, s);
      var u :| 0 <= u < |units| && units[u].symbol == s;
    }
  }

  lemma SameRanks(units: seq<Unit>, counts: map<string, nat>, parked: Ranks, ranks: Ranks, parkedAgain: Ranks, again: Ranks)
    requires Inventory(units) && Ranking(units, counts, parked, ranks, |units|)
    requires Ranking(units, counts, parkedAgain, again, |units|)
    requires forall t :: t in parked || t in parkedAgain ==> IsUnit(units, |units|, t)
    ensures again == ranks
  {
    forall s ensures (s in again <==> s in ranks) && (s in ranks ==> again[s] == ranks[s]) {
      OnlyUnitsRanked(units, counts, parked, ranks, s);
      OnlyUnitsRanked(units, counts, parkedAgain, again, s);
    }
  }

  /** Seeding again, from the ranks a seeding left, goes through and leaves them as they are while the counts stand. */
  lemma SeededRanksCanBeSeededAgain(units: seq<Unit>, counts: map<string, nat>, before: Ranks, ranks: Ranks, again: Ranks)
    requires Inventory(units) && DistinctRanks(ranks) && forall s :: s in before ==> IsUnit(units, |units|, s)
    requires Ranking(units, counts, Opposite(before), ranks, |units|)
    ensures SeedingIsSafe(units, ranks)
    ensures Ranking(units, counts, Opposite(ranks), again, |units|) ==> again == ranks
  {
    SeededRanksStand(units, counts, Opposite(before), ranks);
    SeededRanksAreSafe(units, ranks);
    forall s | s in ranks ensures IsUnit(units, |units|, s) {
      OnlyUnitsRanked(units, counts, Opposite(before), ranks, s);
    }
    if Ranking(units, counts, Opposite(ranks), again, |units|) {
      SameRanks(units, counts, Opposite(before), ranks, Opposite(ranks), again);
    }
  }
}
