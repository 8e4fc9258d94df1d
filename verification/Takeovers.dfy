/**
 * Reconciling the pronunciations of one word: which row gives way to which. Rows are numbered in display order, and
 * the number stands for the row's id.
 */
module Takeovers {
  import opened Wrappers

  /** A stored row, and the first canonical form of its transcription when it tokenises. */
  datatype Decision = Decision(ipa: string, primary: bool, canonical: Option<string>)

  datatype Row = Row(ipa: string, primary: bool)

  predicate Same(d: seq<Decision>, j: nat, k: nat)
    requires j < |d| && k < |d|
  {
    d[j].canonical.Some? && d[j].canonical == d[k].canonical
  }

  predicate IsCanonical(row: Decision) {
    row.canonical == Some(row.ipa)
  }

  /** The stored rows obey their unique keys, and what a form canonicalises to is its own canonical form. */
  ghost predicate Sound(d: seq<Decision>) {
    (forall j: nat, k: nat :: j < |d| && k < |d| && d[j].ipa == d[k].ipa ==> j == k) &&
    (forall j: nat, k: nat :: j < |d| && k < |d| && d[j].primary && d[k].primary ==> j == k) &&
    forall j: nat, k: nat :: j < |d| && k < |d| && d[j].canonical == Some(d[k].ipa) ==> d[k].canonical == d[j].canonical
  }

  /** The first row at or after `k` with the canonical form of row `j`. */
  function FirstFrom(d: seq<Decision>, k: nat, j: nat): (r: nat)
    requires k <= j < |d| && d[j].canonical.Some?
    ensures k <= r <= j && Same(d, r, j)
    ensures forall x: nat :: k <= x < r ==> !Same(d, x, j)
    decreases j - k
  {
    if Same(d, k, j) then k else FirstFrom(d, k + 1, j)
  }

  function First(d: seq<Decision>, j: nat): nat
    requires j < |d| && d[j].canonical.Some?
  {
    FirstFrom(d, 0, j)
  }

  /** Row `j` is the second of its form, and the first, being out of form, takes it over before its turn comes. */
  predicate Overtaken(d: seq<Decision>, j: nat)
    requires j < |d| && d[j].canonical.Some?
  {
    var first := First(d, j);
    first < j && !IsCanonical(d[first]) && FirstFrom(d, first + 1, j) == j
  }

  /** Among rows of one form, the lower rank gives way to the higher. */
  function Rank(d: seq<Decision>, j: nat): int
    requires j < |d| && d[j].canonical.Some?
  {
    if Overtaken(d, j) then -1 else j
  }

  predicate Outranks(d: seq<Decision>, x: nat, j: nat)
    requires x < |d| && j < |d|
  {
    Same(d, x, j) && Rank(d, j) < Rank(d, x)
  }

  /** Row `j` has been taken over once the first `i` rows have had their turn. */
  ghost predicate Yields(d: seq<Decision>, j: nat, i: nat)
    requires j < |d| && i <= |d|
  {
    exists x: nat :: x < i && Outranks(d, x, j)
  }

  /** Row `x` is the one that takes `s` over. */
  ghost predicate Heir(d: seq<Decision>, s: nat, x: nat)
    requires s < |d| && x < |d|
  {
    Outranks(d, x, s) && forall z: nat :: z < |d| && Outranks(d, z, s) ==> z == x || Outranks(d, z, x)
  }

  ghost predicate Inherits(d: seq<Decision>, x: nat)
    requires x < |d|
  {
    d[x].primary || exists s: nat :: s < |d| && Heir(d, s, x) && d[s].primary
  }

  /** What is stored of row `j` once the first `i` rows have had their turn. */
  ghost function RowAt(d: seq<Decision>, i: nat, j: nat): Option<Row>
    requires i <= |d| && j < |d|
  {
    if Yields(d, j, i) then None
    else if i <= j then Some(Row(d[j].ipa, d[j].primary))
    else match d[j].canonical
      case None => None
      case Some(form) => Some(Row(form, Inherits(d, j)))
  }

  /** Row `c` is canonical and at least two rows of its form come before it. */
  predicate TwoAhead(d: seq<Decision>, c: nat)
    requires c < |d|
  {
    IsCanonical(d[c]) && First(d, c) < c && FirstFrom(d, First(d, c) + 1, c) < c
  }

  ghost predicate NoneAhead(d: seq<Decision>, i: nat) {
    forall c: nat :: c < |d| && TwoAhead(d, c) ==> First(d, c) >= i
  }

  lemma OneFirst(d: seq<Decision>, j: nat, k: nat)
    requires j < |d| && k < |d| && Same(d, j, k)
    ensures First(d, j) == First(d, k)
  {
    var a, b := First(d, j), First(d, k);
    assert a < b ==> Same(d, a, k);
    assert b < a ==> Same(d, b, j);
  }

  lemma OnlyTheFirstOvertakes(d: seq<Decision>, j: nat, k: nat)
    requires j < k < |d| && Same(d, j, k) && Overtaken(d, k)
    ensures First(d, k) == j
  {
    assert FirstFrom(d, 0, k) <= j;
  }

  /** The ranks of rows of one form are all different. */
  lemma Comparable(d: seq<Decision>, j: nat, k: nat)
    requires j < |d| && k < |d| && Same(d, j, k)
    ensures j == k || Outranks(d, j, k) || Outranks(d, k, j)
  {
    OneFirst(d, j, k);
    if j < k && Overtaken(d, k) { OnlyTheFirstOvertakes(d, j, k); }
    if k < j && Overtaken(d, j) { OnlyTheFirstOvertakes(d, k, j); }
  }

  lemma FirstIsNotOvertaken(d: seq<Decision>, j: nat)
    requires j < |d| && d[j].canonical.Some?
    ensures Rank(d, First(d, j)) == First(d, j)
  {
    OneFirst(d, First(d, j), j);
  }

  /** A row whose turn comes has not been taken over before it unless the first of its form has overtaken it. */
  lemma TurnComes(d: seq<Decision>, i: nat)
    requires i < |d| && d[i].canonical.Some?
    ensures Yields(d, i, i) <==> Overtaken(d, i)
  {
    if Overtaken(d, i) {
      FirstIsNotOvertaken(d, i);
      assert Outranks(d, First(d, i), i);
    }
  }

  /** Of the rows of one form among the first `k`, the one that outranks the others. */
  lemma {:induction false} Holder(d: seq<Decision>, k: nat, i: nat) returns (h: nat)
    requires i < |d| && d[i].canonical.Some? && First(d, i) < k <= |d|
    ensures h < k && Same(d, h, i) && !Yields(d, h, k)
    ensures forall x: nat :: x < k && Same(d, x, i) && x != h ==> Outranks(d, h, x) && Yields(d, x, k)
    decreases k
  {
    var last := k - 1;
    if First(d, i) == last {
      h := last;
      forall x: nat | x < k && Same(d, x, i) ensures x == h {
        OneFirst(d, x, i);
      }
    } else {
      h := Holder(d, last, i);
      if Same(d, last, i) && Outranks(d, last, h) {
        h := last;
      }
    }
    forall x: nat | x < k && Same(d, x, i) && x != h ensures Outranks(d, h, x) && Yields(d, x, k) {
      Comparable(d, x, h);
    }
    assert forall x: nat :: x < k && Same(d, x, h) ==> Same(d, x, i);
  }

  lemma OneMoreTurn(d: seq<Decision>, i: nat, j: nat)
    requires i < |d| && j < |d|
    ensures Yields(d, j, i + 1) <==> Yields(d, j, i) || Outranks(d, i, j)
  {
  }

  // What each turn does.

  /** A canonical row that keeps its turn is the first of its form, and takes nothing over. */
  lemma CanonicalGoesFirst(d: seq<Decision>, i: nat)
    requires Sound(d) && i < |d| && IsCanonical(d[i]) && !Yields(d, i, i) && NoneAhead(d, i)
    ensures First(d, i) == i
    ensures forall j: nat :: j < |d| ==> !Outranks(d, i, j)
  {
    var first := First(d, i);
    TurnComes(d, i);
    assert d[first].ipa == d[i].ipa ==> first == i;
    assert TwoAhead(d, i) ==> first >= i;
    forall j: nat | j < |d| && Same(d, i, j) ensures Rank(d, j) >= i {
      OneFirst(d, i, j);
    }
  }

  /** Refused, overtaken, or canonical already: the turn of such a row takes nothing over. */
  lemma IdleTurn(d: seq<Decision>, i: nat, j: nat)
    requires Sound(d) && i < |d| && j < |d| && NoneAhead(d, i)
    requires d[i].canonical.None? || Yields(d, i, i) || IsCanonical(d[i])
    ensures Yields(d, j, i + 1) <==> Yields(d, j, i)
  {
    OneMoreTurn(d, i, j);
    if d[i].canonical.Some? {
      TurnComes(d, i);
      if !Yields(d, i, i) { CanonicalGoesFirst(d, i); }
    }
  }

  lemma IdleTurnRows(d: seq<Decision>, i: nat, j: nat)
    requires Sound(d) && i < |d| && j < |d| && NoneAhead(d, i)
    requires d[i].canonical.None? || Yields(d, i, i) || IsCanonical(d[i])
    ensures RowAt(d, i + 1, j) == if j == i && d[i].canonical.None? then None else RowAt(d, i, j)
  {
    IdleTurn(d, i, j);
    if j == i && d[i].canonical.Some? && !Yields(d, i, i) {
      CanonicalGoesFirst(d, i);
      assert Inherits(d, i) == d[i].primary;
    }
  }

  lemma FirstStands(d: seq<Decision>, c: nat)
    requires Sound(d) && c < |d| && TwoAhead(d, c)
    ensures Moves(d, First(d, c))
  {
    var first := First(d, c);
    FirstIsNotOvertaken(d, c);
    TurnComes(d, first);
    assert d[first].ipa != d[c].ipa;
  }

  lemma IdleTurnAhead(d: seq<Decision>, i: nat)
    requires Sound(d) && i < |d| && NoneAhead(d, i)
    requires d[i].canonical.None? || Yields(d, i, i) || IsCanonical(d[i])
    ensures NoneAhead(d, i + 1)
  {
    forall c: nat | c < |d| && TwoAhead(d, c) ensures First(d, c) != i {
      FirstStands(d, c);
    }
  }

  /** The first other row of the form still standing, as the search by result finds it. */
  ghost predicate IsSibling(d: seq<Decision>, i: nat, s: nat)
    requires i < |d| && s < |d|
  {
    s != i && Same(d, s, i) && !Yields(d, s, i) &&
    forall x: nat :: x < s && x != i && Same(d, x, i) ==> Yields(d, x, i)
  }

  ghost predicate Alone(d: seq<Decision>, i: nat)
    requires i < |d|
  {
    forall x: nat :: x < |d| && x != i && Same(d, x, i) ==> Yields(d, x, i)
  }

  /** The row that takes its turn out of form. */
  ghost predicate Moves(d: seq<Decision>, i: nat)
    requires i < |d|
  {
    d[i].canonical.Some? && !IsCanonical(d[i]) && !Yields(d, i, i)
  }

  lemma NobodyBefore(d: seq<Decision>, i: nat, j: nat)
    requires i < |d| && j < |d| && Same(d, j, i) && First(d, i) == i
    ensures !Yields(d, j, i)
  {
    forall x: nat | x < i ensures !Same(d, x, j) {
      assert !Same(d, x, i);
    }
  }

  /** The sibling is outranked, by nobody lower than the row that takes it over, and every other such row is gone. */
  lemma SiblingGivesWay(d: seq<Decision>, i: nat, s: nat)
    requires Sound(d) && i < |d| && s < |d| && Moves(d, i) && IsSibling(d, i, s)
    ensures Outranks(d, i, s)
    ensures forall j: nat :: j < |d| && j != s && Outranks(d, i, j) ==> Yields(d, j, i) && Outranks(d, s, j)
    ensures First(d, i) < i ==> s < i
    ensures First(d, i) == i ==> i < s && FirstFrom(d, i + 1, s) == s
  {
    TurnComes(d, i);
    OneFirst(d, s, i);
    if First(d, i) < i {
      var h := Holder(d, i, i);
      assert s <= h;
      assert s == h;
      forall j: nat | j < |d| && j != s && Outranks(d, i, j) ensures Yields(d, j, i) && Outranks(d, s, j) {
        OneFirst(d, i, j);
      }
    } else {
      var second := FirstFrom(d, i + 1, s);
      NobodyBefore(d, i, second);
      assert second == s;
      forall j: nat | j < |d| && Outranks(d, i, j) ensures j == s {
        OneFirst(d, i, j);
        Comparable(d, j, s);
      }
    }
  }

  /** Row `i` takes its sibling over: the sibling goes, and row `i` holds the form, and the flag if either was primary. */
  lemma TakeoverTurn(d: seq<Decision>, i: nat, s: nat, j: nat)
    requires Sound(d) && i < |d| && s < |d| && j < |d| && Moves(d, i) && IsSibling(d, i, s)
    ensures Yields(d, j, i + 1) <==> j == s || Yields(d, j, i)
    ensures RowAt(d, i + 1, j) ==
            if j == s then None
            else if j == i then Some(Row(d[i].canonical.value, d[i].primary || d[s].primary))
            else RowAt(d, i, j)
  {
    SiblingGivesWay(d, i, s);
    OneMoreTurn(d, i, j);
    if j == i {
      HeirIsSibling(d, i, s);
    }
  }

  lemma HeirIsSibling(d: seq<Decision>, i: nat, s: nat)
    requires Sound(d) && i < |d| && s < |d| && Moves(d, i) && IsSibling(d, i, s)
    ensures Heir(d, s, i) && forall p: nat :: p < |d| && Heir(d, p, i) ==> p == s
    ensures Inherits(d, i) <==> d[i].primary || d[s].primary
  {
    SiblingGivesWay(d, i, s);
    forall z: nat | z < |d| && Outranks(d, z, s) && z != i ensures Outranks(d, z, i) {
      Comparable(d, z, i);
    }
    forall p: nat | p < |d| && p != s && Outranks(d, i, p) ensures !Heir(d, p, i) {
      assert Outranks(d, s, p) && !Outranks(d, s, i);
    }
  }

  /** With no sibling, row `i` only changes its transcription. */
  lemma RenameTurn(d: seq<Decision>, i: nat, j: nat)
    requires Sound(d) && i < |d| && j < |d| && Moves(d, i) && Alone(d, i)
    ensures Yields(d, j, i + 1) <==> Yields(d, j, i)
    ensures RowAt(d, i + 1, j) ==
            if j == i then Some(Row(d[i].canonical.value, d[i].primary)) else RowAt(d, i, j)
  {
    AloneTakesNothing(d, i);
    OneMoreTurn(d, i, j);
  }

  lemma AloneTakesNothing(d: seq<Decision>, i: nat)
    requires i < |d| && Moves(d, i) && Alone(d, i)
    ensures forall j: nat :: j < |d| ==> !Outranks(d, i, j)
  {
    if First(d, i) < i {
      var h := Holder(d, i, i);
    } else {
      forall j: nat | j < |d| ensures !Outranks(d, i, j) {
        if Same(d, j, i) { NobodyBefore(d, i, j); }
      }
    }
  }

  /** The rename collides exactly with a canonical row that has two rows of its form ahead, row `i` the first of them. */
  lemma RenameCollides(d: seq<Decision>, i: nat, s: nat, k: nat)
    requires Sound(d) && i < |d| && s < |d| && k < |d| && Moves(d, i) && IsSibling(d, i, s) && NoneAhead(d, i)
    requires k != i && k != s
    ensures RowAt(d, i, k).Some? && RowAt(d, i, k).value.ipa == d[i].canonical.value <==>
            TwoAhead(d, k) && First(d, k) == i
  {
    SiblingGivesWay(d, i, s);
    if RowAt(d, i, k).Some? && RowAt(d, i, k).value.ipa == d[i].canonical.value {
      StandingHolder(d, i, s, k);
    }
    if TwoAhead(d, k) && First(d, k) == i {
      OneFirst(d, i, k);
      NobodyBefore(d, i, k);
    }
  }

  lemma StandingHolder(d: seq<Decision>, i: nat, s: nat, k: nat)
    requires Sound(d) && i < |d| && s < |d| && k < |d| && Moves(d, i) && IsSibling(d, i, s) && NoneAhead(d, i)
    requires k != i && k != s
    requires RowAt(d, i, k).Some? && RowAt(d, i, k).value.ipa == d[i].canonical.value
    ensures TwoAhead(d, k) && First(d, k) == i
  {
    SiblingGivesWay(d, i, s);
    assert Same(d, k, i);
    OneFirst(d, k, i);
    if First(d, i) < i {
      var h := Holder(d, i, i);
      assert k > i && IsCanonical(d[k]);
      assert Same(d, i, k);
    } else {
      assert forall x: nat :: x < i ==> !Same(d, x, i);
      assert k > i && IsCanonical(d[k]);
      assert s < k;
      assert Same(d, s, k);
    }
  }

  lemma AloneNeverCollides(d: seq<Decision>, i: nat, k: nat)
    requires Sound(d) && i < |d| && k < |d| && k != i && Moves(d, i) && Alone(d, i)
    ensures RowAt(d, i, k).Some? ==> RowAt(d, i, k).value.ipa != d[i].canonical.value
  {
    assert Same(d, k, i) ==> Yields(d, k, i);
  }

  lemma MovedAhead(d: seq<Decision>, i: nat)
    requires i < |d| && NoneAhead(d, i) && forall c: nat :: c < |d| && TwoAhead(d, c) ==> First(d, c) != i
    ensures NoneAhead(d, i + 1)
  {
  }

  // What is left at the end.

  /** Rows left standing have different canonical forms. */
  lemma StandingRowsDiffer(d: seq<Decision>, j: nat, k: nat)
    requires j < |d| && k < |d| && Same(d, j, k) && !Yields(d, j, |d|) && !Yields(d, k, |d|)
    ensures j == k
  {
    Comparable(d, j, k);
  }

  /** Every form keeps a row. */
  lemma EveryFormIsKept(d: seq<Decision>, j: nat) returns (h: nat)
    requires j < |d| && d[j].canonical.Some?
    ensures h < |d| && Same(d, h, j) && !Yields(d, h, |d|)
  {
    h := Holder(d, |d|, j);
  }

  /** Row `p` is taken over by a row that is then taken over itself. */
  ghost predicate TakenOverTwice(d: seq<Decision>, p: nat)
    requires p < |d|
  {
    exists x: nat, y: nat :: x < |d| && y < |d| && Outranks(d, x, p) && Outranks(d, y, x)
  }

  /** The one row left standing of the form of a primary row is primary, unless the flag was taken over and then dropped. */
  lemma PrimaryIsKeptExactlyWhen(d: seq<Decision>, p: nat, h: nat)
    requires Sound(d) && p < |d| && h < |d| && d[p].primary && Same(d, h, p) && !Yields(d, h, |d|)
    ensures Inherits(d, h) <==> !TakenOverTwice(d, p)
  {
    if h == p {
      assert forall x: nat :: x < |d| ==> !Outranks(d, x, p);
    } else {
      Comparable(d, h, p);
      HeirExactlyWhen(d, p, h);
      assert Inherits(d, h) <==> Heir(d, p, h);
    }
  }

  lemma HeirExactlyWhen(d: seq<Decision>, p: nat, h: nat)
    requires p < |d| && h < |d| && Outranks(d, h, p) && !Yields(d, h, |d|)
    ensures Heir(d, p, h) <==> !TakenOverTwice(d, p)
  {
    assert forall z: nat :: z < |d| ==> !Outranks(d, z, h);
    forall z: nat | z < |d| && Outranks(d, z, p) && z != h ensures Outranks(d, h, z) {
      Comparable(d, z, h);
    }
  }

  /** At most two rows share any canonical form. */
  ghost predicate Pairwise(d: seq<Decision>) {
    forall a: nat, b: nat, c: nat :: a < b < c < |d| ==> !(Same(d, a, b) && Same(d, b, c))
  }

  lemma TwoAheadMakesThree(d: seq<Decision>, c: nat)
    requires c < |d| && TwoAhead(d, c)
    ensures !Pairwise(d)
  {
    var a := First(d, c);
    var b := FirstFrom(d, a + 1, c);
    assert Same(d, a, b) && Same(d, b, c);
  }

  lemma TakenOverTwiceMakesThree(d: seq<Decision>, p: nat)
    requires p < |d| && TakenOverTwice(d, p)
    ensures !Pairwise(d)
  {
    var x: nat, y: nat :| x < |d| && y < |d| && Outranks(d, x, p) && Outranks(d, y, x);
    ThreeOfAForm(d, p, x, y);
  }

  /** With at most two rows to a form nothing collides and no flag is dropped. */
  lemma PairsAreSafe(d: seq<Decision>)
    requires Pairwise(d)
    ensures forall c: nat :: c < |d| ==> !TwoAhead(d, c)
    ensures forall p: nat :: p < |d| ==> !TakenOverTwice(d, p)
  {
    forall c: nat | c < |d| ensures !TwoAhead(d, c) {
      if TwoAhead(d, c) { TwoAheadMakesThree(d, c); }
    }
    forall p: nat | p < |d| ensures !TakenOverTwice(d, p) {
      if TakenOverTwice(d, p) { TakenOverTwiceMakesThree(d, p); }
    }
  }

  lemma ThreeOfAForm(d: seq<Decision>, p: nat, x: nat, y: nat)
    requires p < |d| && x < |d| && y < |d| && p != x && x != y && y != p && Same(d, p, x) && Same(d, x, y)
    ensures !Pairwise(d)
  {
    var low := if p < x && p < y then p else if x < y then x else y;
    var high := if p > x && p > y then p else if x > y then x else y;
    var mid := p + x + y - low - high;
    assert Same(d, low, mid) && Same(d, mid, high);
  }
}
