/**
 * Reconciling a word's pronunciations in place, one statement at a time, under the unique keys of their table. No
 * transaction wraps the statements: what ran before a refused one stays.
 */
module Reconciliation {
  import opened FixedPoint
  import opened Inventory
  import opened SourceProfile
  import opened Takeovers
  import opened Wrappers

  datatype Outcome = Reconciled | Blocked | Collided

  datatype Result = Tokenised(form: string) | Refused | Consumed

  function Listed(list: seq<Row>): map<nat, Row> {
    map i: nat | i < |list| :: list[i]
  }

  ghost predicate UniqueKeys(rows: map<nat, Row>) {
    (forall j, k :: j in rows && k in rows && rows[j].ipa == rows[k].ipa ==> j == k) &&
    forall j, k :: j in rows && k in rows && rows[j].primary && rows[k].primary ==> j == k
  }

  function CanonicalForm(ipa: string, inventory: Inventory): Option<string> {
    match TokeniseTranscription(ipa, inventory)
    case None => None
    case Some(forms) => if forms == [] then None else Some(forms[0].ipa)
  }

  function Decide(list: seq<Row>, inventory: Inventory): (d: seq<Decision>) {
    seq(|list|, i requires 0 <= i < |list| =>
      Decision(list[i].ipa, list[i].primary, CanonicalForm(list[i].ipa, inventory)))
  }

  /** The canonical form of a canonical form is itself, so the decisions are sound whatever the word. */
  lemma DecisionsAreSound(list: seq<Row>, inventory: Inventory)
    requires WellFormed(inventory) && UniqueKeys(Listed(list))
    ensures Sound(Decide(list, inventory))
  {
    var d := Decide(list, inventory);
    forall j: nat, k: nat | j < |d| && k < |d| && d[j].canonical == Some(d[k].ipa) ensures d[k].canonical == d[j].canonical {
      var forms := TokeniseTranscription(list[j].ipa, inventory).value;
      CanonicalFormsAreFixedPoints(list[j].ipa, inventory, forms[0]);
    }
    forall j: nat, k: nat | j < |d| && k < |d| && (d[j].ipa == d[k].ipa || (d[j].primary && d[k].primary)) ensures j == k {
      assert j in Listed(list) && k in Listed(list);
    }
  }

  ghost function ResultAt(d: seq<Decision>, i: nat, j: nat): Result
    requires i <= |d| && j < |d|
  {
    match d[j].canonical
    case None => Refused
    case Some(form) => if Yields(d, j, i) then Consumed else Tokenised(form)
  }

  function Lookup(rows: map<nat, Row>, j: nat): Option<Row> {
    if j in rows then Some(rows[j]) else None
  }

  /** The table and the results are as they should be once the first `i` rows have had their turn. */
  ghost predicate Holds(d: seq<Decision>, i: nat, rows: map<nat, Row>, results: seq<Result>)
    requires i <= |d|
  {
    |results| == |d| && (forall j :: j in rows ==> j < |d|) &&
    (forall j: nat :: j < |d| ==> Lookup(rows, j) == RowAt(d, i, j)) &&
    forall j: nat :: j < |d| ==> results[j] == ResultAt(d, i, j)
  }

  /** The first row other than `i` whose result is the form. */
  function FindSibling(results: seq<Result>, i: nat, form: string, from: nat): (s: Option<nat>)
    requires from <= |results|
    ensures s.Some? ==> from <= s.value < |results| && s.value != i && results[s.value] == Tokenised(form)
    ensures s.Some? ==> forall x: nat :: from <= x < s.value && x != i ==> results[x] != Tokenised(form)
    ensures s.None? ==> forall x: nat :: from <= x < |results| && x != i ==> results[x] != Tokenised(form)
    decreases |results| - from
  {
    if from == |results| then None
    else if from != i && results[from] == Tokenised(form) then Some(from)
    else FindSibling(results, i, form, from + 1)
  }

  lemma Starts(list: seq<Row>, inventory: Inventory)
    ensures var d, results := Decide(list, inventory), FirstResults(list, inventory);
            Holds(d, 0, Listed(list), results) && NoneAhead(d, 0) &&
            ((forall j: nat :: j < |d| ==> results[j].Refused?) <==> forall j: nat :: j < |d| ==> d[j].canonical.None?)
  {
    var d, results := Decide(list, inventory), FirstResults(list, inventory);
    forall j: nat | j < |d|
      ensures results[j] == ResultAt(d, 0, j) && (results[j].Refused? <==> d[j].canonical.None?) &&
              Lookup(Listed(list), j) == RowAt(d, 0, j)
    {
      assert d[j].canonical == CanonicalForm(list[j].ipa, inventory);
    }
  }

  ghost predicate Matches(d: seq<Decision>, list: seq<Row>) {
    |d| == |list| && forall j: nat :: j < |d| ==> d[j].ipa == list[j].ipa && d[j].primary == list[j].primary
  }

  /** The table as a run that neither blocked nor collided leaves it. */
  ghost predicate IsLeft(rows: map<nat, Row>, d: seq<Decision>) {
    (forall j :: j in rows ==> j < |d|) && forall j: nat :: j < |d| ==> Lookup(rows, j) == RowAt(d, |d|, j)
  }

  // What each turn leaves behind.

  lemma IdleHolds(d: seq<Decision>, i: nat, rows: map<nat, Row>, results: seq<Result>)
    requires Sound(d) && i < |d| && Holds(d, i, rows, results) && NoneAhead(d, i)
    requires d[i].canonical.None? || Yields(d, i, i) || IsCanonical(d[i])
    ensures Holds(d, i + 1, if d[i].canonical.None? then rows - {i} else rows, results)
    ensures NoneAhead(d, i + 1)
  {
    var after := if d[i].canonical.None? then rows - {i} else rows;
    forall j: nat | j < |d| ensures Lookup(after, j) == RowAt(d, i + 1, j) && results[j] == ResultAt(d, i + 1, j) {
      IdleTurn(d, i, j);
      IdleTurnRows(d, i, j);
      assert Lookup(rows, j) == RowAt(d, i, j);
    }
    IdleTurnAhead(d, i);
  }

  lemma SiblingFound(d: seq<Decision>, i: nat, rows: map<nat, Row>, results: seq<Result>, form: string)
    requires i < |d| && Holds(d, i, rows, results) && results[i] == Tokenised(form)
    ensures var s := FindSibling(results, i, form, 0);
            d[i].canonical == Some(form) && !Yields(d, i, i) &&
            (s.Some? ==> IsSibling(d, i, s.value)) && (s.None? ==> Alone(d, i))
  {
    var s := FindSibling(results, i, form, 0);
    forall x: nat | x < |d| ensures results[x] == Tokenised(form) <==> Same(d, x, i) && !Yields(d, x, i) {
      assert results[x] == ResultAt(d, i, x);
    }
    if s.None? {
      forall x: nat | x < |d| && x != i && Same(d, x, i) ensures Yields(d, x, i) {
        assert results[x] != Tokenised(form);
      }
    } else {
      forall x: nat | x < s.value && x != i && Same(d, x, i) ensures Yields(d, x, i) {
        assert results[x] != Tokenised(form);
      }
    }
  }

  lemma RenameHolds(d: seq<Decision>, i: nat, rows: map<nat, Row>, results: seq<Result>, form: string)
    requires Sound(d) && i < |d| && Holds(d, i, rows, results) && NoneAhead(d, i)
    requires Moves(d, i) && Alone(d, i) && d[i].canonical == Some(form)
    ensures i in rows && forall k :: k in rows && k != i ==> rows[k].ipa != form
    ensures Holds(d, i + 1, rows[i := rows[i].(ipa := form)], results) && NoneAhead(d, i + 1)
  {
    assert Lookup(rows, i) == RowAt(d, i, i);
    forall k | k in rows && k != i ensures rows[k].ipa != form {
      AloneNeverCollides(d, i, k);
      assert Lookup(rows, k) == RowAt(d, i, k);
    }
    var after := rows[i := rows[i].(ipa := form)];
    forall j: nat | j < |d| ensures Lookup(after, j) == RowAt(d, i + 1, j) && results[j] == ResultAt(d, i + 1, j) {
      RenameTurn(d, i, j);
      assert Lookup(rows, j) == RowAt(d, i, j);
    }
    forall c: nat | c < |d| && TwoAhead(d, c) ensures First(d, c) != i {
      if First(d, c) == i {
        OneFirst(d, i, c);
        NobodyBefore(d, i, c);
      }
    }
    MovedAhead(d, i);
  }

  lemma MergeHolds(d: seq<Decision>, i: nat, s: nat, rows: map<nat, Row>, results: seq<Result>)
    requires Sound(d) && i < |d| && s < |d| && Holds(d, i, rows, results) && Moves(d, i) && IsSibling(d, i, s)
    ensures i in rows && s in rows
    ensures rows[i] == Row(d[i].ipa, d[i].primary)
    ensures Holds(d, i + 1, (rows - {s})[i := Row(d[i].canonical.value, d[i].primary || d[s].primary)], results[s := Consumed])
  {
    assert Lookup(rows, i) == RowAt(d, i, i) && Lookup(rows, s) == RowAt(d, i, s);
    var after := (rows - {s})[i := Row(d[i].canonical.value, d[i].primary || d[s].primary)];
    var marked := results[s := Consumed];
    forall j: nat | j < |d| ensures Lookup(after, j) == RowAt(d, i + 1, j) && marked[j] == ResultAt(d, i + 1, j) {
      TakeoverTurn(d, i, s, j);
      assert Lookup(rows, j) == RowAt(d, i, j);
    }
    assert forall j :: j in after ==> j < |d|;
  }

  /** The rename is refused exactly when row `i` is the first of two rows ahead of a canonical one. */
  lemma MergeCollides(d: seq<Decision>, i: nat, s: nat, rows: map<nat, Row>, results: seq<Result>)
    requires Sound(d) && i < |d| && s < |d| && Holds(d, i, rows, results) && NoneAhead(d, i)
    requires Moves(d, i) && IsSibling(d, i, s)
    ensures (forall k :: k in rows - {s} && k != i ==> rows[k].ipa != d[i].canonical.value) <==>
            forall c: nat :: c < |d| && TwoAhead(d, c) ==> First(d, c) != i
  {
    forall k: nat | k < |d| && k != i && k != s
      ensures k in rows && rows[k].ipa == d[i].canonical.value <==> TwoAhead(d, k) && First(d, k) == i
    {
      RenameCollides(d, i, s, k);
      assert Lookup(rows, k) == RowAt(d, i, k);
    }
    SiblingGivesWay(d, i, s);
    forall c: nat | c < |d| && TwoAhead(d, c) && First(d, c) == i ensures c != s && c != i {
      OneFirst(d, i, c);
    }
  }

  /** Nobody else has the flag of a sibling still standing. */
  lemma FlagIsFree(d: seq<Decision>, i: nat, s: nat, rows: map<nat, Row>, results: seq<Result>)
    requires Sound(d) && i < |d| && s < |d| && Holds(d, i, rows, results) && IsSibling(d, i, s) && d[s].primary
    ensures forall k :: k in rows && k != s ==> !rows[k].primary
  {
    forall k | k in rows && k != s ensures !rows[k].primary {
      assert Lookup(rows, k) == RowAt(d, i, k);
      assert k < i ==> !Heir(d, s, k);
    }
  }

  function FirstResult(canonical: Option<string>): Result {
    match canonical case None => Refused case Some(form) => Tokenised(form)
  }

  method DecideOne(ipa: string, inventory: Inventory) returns (result: Result)
    ensures result == FirstResult(CanonicalForm(ipa, inventory))
  {
    var tokenised := TokenizeTranscription(ipa, inventory);
    NeverEmpty(ipa, inventory);
    match tokenised
    case None => return Refused;
    case Some(forms) => return Tokenised(forms[0].ipa);
  }

  function FirstResults(list: seq<Row>, inventory: Inventory): seq<Result> {
    seq(|list|, i requires 0 <= i < |list| => FirstResult(CanonicalForm(list[i].ipa, inventory)))
  }

  lemma OneMoreResult(list: seq<Row>, inventory: Inventory, i: nat, result: Result)
    requires i < |list| && result == FirstResult(CanonicalForm(list[i].ipa, inventory))
    ensures FirstResults(list, inventory)[..i] + [result] == FirstResults(list, inventory)[..i + 1]
  {
    TakeOneMore(FirstResults(list, inventory), i, result);
  }

  lemma TakeOneMore(results: seq<Result>, i: nat, result: Result)
    requires i < |results| && results[i] == result
    ensures results[..i] + [result] == results[..i + 1]
  {
  }

  /** Every row is decided before anything is written. */
  method DecideAll(list: seq<Row>, inventory: Inventory) returns (results: seq<Result>)
    ensures results == FirstResults(list, inventory)
  {
    results := [];
    for i: nat := 0 to |list|
      invariant results == FirstResults(list, inventory)[..i]
    {
      var result := DecideOne(list[i].ipa, inventory);
      OneMoreResult(list, inventory, i, result);
      results := results + [result];
    }
  }

  lemma NobodyIsAhead(d: seq<Decision>)
    requires forall j: nat :: j < |d| ==> d[j].canonical.None?
    ensures forall c: nat :: c < |d| ==> !TwoAhead(d, c)
  {
  }

  class Pronunciations {
    var rows: map<nat, Row>

    constructor (list: seq<Row>)
      ensures rows == Listed(list)
    {
      rows := Listed(list);
    }

    method DeleteById(id: nat)
      modifies this
      ensures rows == old(rows) - {id}
    {
      rows := rows - {id};
    }

    /** Refused by UNIQUE (word_id, ipa_transcription) when another row holds the transcription. */
    method UpdateTranscription(id: nat, ipa: string) returns (ok: bool)
      requires id in rows
      modifies this
      ensures ok <==> forall k :: k in old(rows) && k != id ==> old(rows)[k].ipa != ipa
      ensures rows == if ok then old(rows)[id := old(rows)[id].(ipa := ipa)] else old(rows)
    {
      ok := forall k :: k in rows && k != id ==> rows[k].ipa != ipa;
      if ok { rows := rows[id := rows[id].(ipa := ipa)]; }
    }

    /** Refused by UNIQUE (word_id, is_primary_flag) when another row is primary. */
    method SetPrimary(id: nat) returns (ok: bool)
      requires id in rows
      modifies this
      ensures ok <==> forall k :: k in old(rows) && k != id ==> !old(rows)[k].primary
      ensures rows == if ok then old(rows)[id := old(rows)[id].(primary := true)] else old(rows)
    {
      ok := forall k :: k in rows && k != id ==> !rows[k].primary;
      if ok { rows := rows[id := rows[id].(primary := true)]; }
    }

    /** The sibling goes, row `i` takes its form, and with it the flag. */
    method Merge(ghost d: seq<Decision>, i: nat, s: nat, form: string, inherits: bool, ghost results: seq<Result>)
      returns (ok: bool)
      requires Sound(d) && i < |d| && Holds(d, i, rows, results) && NoneAhead(d, i) && Moves(d, i)
      requires d[i].canonical == Some(form) && s < |d| && IsSibling(d, i, s)
      requires inherits == (d[s].primary && !d[i].primary)
      modifies this
      ensures ok ==> Holds(d, i + 1, rows, results[s := Consumed]) && NoneAhead(d, i + 1)
      ensures !ok ==> exists c: nat :: c < |d| && TwoAhead(d, c)
      ensures rows != map[] && s !in rows
    {
      MergeHolds(d, i, s, rows, results);
      MergeCollides(d, i, s, rows, results);
      if inherits { FlagIsFree(d, i, s, rows, results); }
      DeleteById(s);
      ok := UpdateTranscription(i, form);
      if ok {
        MovedAhead(d, i);
        if inherits { ok := SetPrimary(i); }
      }
      assert i in rows;
    }

    /** One row's turn in the loop. */
    method TakeTurn(ghost d: seq<Decision>, i: nat, list: seq<Row>, results: seq<Result>)
      returns (ok: bool, after: seq<Result>)
      requires Sound(d) && i < |d| && Matches(d, list) && Holds(d, i, rows, results) && NoneAhead(d, i)
      modifies this
      ensures ok ==> Holds(d, i + 1, rows, after) && NoneAhead(d, i + 1)
      ensures !ok ==> rows != map[] && exists c: nat :: c < |d| && TwoAhead(d, c)
    {
      ok, after := true, results;
      assert results[i] == ResultAt(d, i, i);
      match results[i]
      case Consumed =>
        IdleHolds(d, i, rows, results);
      case Refused =>
        IdleHolds(d, i, rows, results);
        DeleteById(i);
      case Tokenised(form) =>
        SiblingFound(d, i, rows, results, form);
        if form == list[i].ipa {
          IdleHolds(d, i, rows, results);
        } else {
          var sibling := FindSibling(results, i, form, 0);
          match sibling
          case Some(s) =>
            ok := Merge(d, i, s, form, list[s].primary && !list[i].primary, results);
            after := results[s := Consumed];
          case None =>
            RenameHolds(d, i, rows, results, form);
            ok := UpdateTranscription(i, form);
        }
    }

    /** Every row takes its turn, in display order. */
    method Apply(ghost d: seq<Decision>, list: seq<Row>, decided: seq<Result>) returns (outcome: Outcome)
      requires Sound(d) && Matches(d, list) && Holds(d, 0, rows, decided) && NoneAhead(d, 0)
      modifies this
      ensures outcome != Blocked && (outcome == Collided <==> exists c: nat :: c < |d| && TwoAhead(d, c))
      ensures outcome == Reconciled ==> IsLeft(rows, d)
      ensures outcome == Collided ==> rows != map[]
    {
      var results := decided;
      for i: nat := 0 to |list|
        invariant Holds(d, i, rows, results) && NoneAhead(d, i)
      {
        var ok, after := TakeTurn(d, i, list, results);
        if !ok { return Collided; }
        results := after;
      }
      return Reconciled;
    }

    /** When no row tokenises the word is blocked, and nothing is written. */
    method ApplyUnlessBlocked(ghost d: seq<Decision>, list: seq<Row>, results: seq<Result>) returns (outcome: Outcome)
      requires Sound(d) && Matches(d, list) && Holds(d, 0, rows, results) && NoneAhead(d, 0)
      requires (forall j: nat :: j < |d| ==> results[j].Refused?) <==> forall j: nat :: j < |d| ==> d[j].canonical.None?
      modifies this
      ensures outcome == Blocked <==> forall j: nat :: j < |d| ==> d[j].canonical.None?
      ensures outcome == Collided <==> exists c: nat :: c < |d| && TwoAhead(d, c)
      ensures outcome == Blocked ==> rows == old(rows)
      ensures outcome == Reconciled ==> IsLeft(rows, d)
      ensures outcome == Collided ==> rows != map[]
    {
      if forall j: nat :: j < |results| ==> results[j].Refused? {
        NobodyIsAhead(d);
        return Blocked;
      }
      outcome := Apply(d, list, results);
    }

    /** One word. The rows are read once; everything after works from that reading. */
    method Reconcile(list: seq<Row>, inventory: Inventory) returns (outcome: Outcome)
      requires WellFormed(inventory) && rows == Listed(list) && UniqueKeys(rows)
      modifies this
      ensures var d := Decide(list, inventory);
              (outcome == Blocked <==> forall j: nat :: j < |d| ==> d[j].canonical.None?) &&
              (outcome == Collided <==> exists c: nat :: c < |d| && TwoAhead(d, c)) &&
              (outcome == Blocked ==> rows == old(rows)) && (outcome == Reconciled ==> IsLeft(rows, d)) &&
              (outcome == Collided ==> rows != map[])
    {
      ghost var d := Decide(list, inventory);
      DecisionsAreSound(list, inventory);
      var results := DecideAll(list, inventory);
      Starts(list, inventory);
      outcome := ApplyUnlessBlocked(d, list, results);
    }
  }
}
