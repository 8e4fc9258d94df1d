/**
 * Loading one validated entry over the rows a word already has. Every statement runs under the unique keys of
 * word_pronunciations, and an upsert may be claimed by any row it duplicates, not only by the one it is meant for.
 */
module Loading {
  import opened Wrappers

  datatype Attribution = Attribution(kind: string, reference: Option<string>, licence: Option<string>)

  datatype Pronunciation = Pronunciation(ipa: string, breakdown: string, gloss: Option<string>, primary: bool, order: int,
                                         source: Attribution)

  type Rows = map<nat, Pronunciation>

  const UNATTRIBUTED := Attribution("wiktionary", None, None)
  const PARKING_PLACES: nat := 30000

  /** The two cannot both be stored: same transcription, same place, or both primary. */
  predicate Clash(p: Pronunciation, q: Pronunciation) {
    p.ipa == q.ipa || p.order == q.order || (p.primary && q.primary)
  }

  ghost predicate UniqueKeys(rows: Rows) {
    forall a, b {:trigger Clash(rows[a], rows[b])} :: a in rows && b in rows && a != b ==> !Clash(rows[a], rows[b])
  }

  /** The rows a new row would duplicate on some unique key. */
  function Duplicates(rows: Rows, p: Pronunciation): set<nat> {
    set id | id in rows && Clash(rows[id], p)
  }

  /** Row `id` claims the update meant for `p`: refused when the row would then duplicate another. */
  predicate Updated(before: Rows, p: Pronunciation, id: nat, ok: bool, after: Rows)
    requires id in before
  {
    var q := p.(ipa := before[id].ipa);
    ok == (Duplicates(before, q) <= {id}) && after == if ok then before[id := q] else before
  }

  /** Some row that `p` duplicates claims its update. */
  ghost predicate Claimed(before: Rows, p: Pronunciation, ok: bool, after: Rows) {
    exists id :: id in Duplicates(before, p) && Updated(before, p, id, ok, after)
  }

  /** INSERT … ON DUPLICATE KEY UPDATE: a new row, or some duplicated row's update, which may be refused. */
  ghost predicate Upserted(before: Rows, next: nat, p: Pronunciation, ok: bool, after: Rows, nextAfter: nat) {
    if Duplicates(before, p) == {} then ok && after == before[next := p] && nextAfter == next + 1
    else nextAfter == next && Claimed(before, p, ok, after)
  }

  // Parking: out of the way of every place an entry can ask for.

  function ParkedOrder(id: nat): int {
    -(id % PARKING_PLACES) - 1
  }

  /** Clearing a row's keys also resets whatever the statement does not carry over. */
  function Parked(id: nat, row: Pronunciation): Pronunciation {
    row.(primary := false, order := ParkedOrder(id), source := UNATTRIBUTED)
  }

  function ParkedRows(before: Rows, done: set<nat>): Rows {
    map id | id in before :: if id in done then Parked(id, before[id]) else before[id]
  }

  ghost predicate DistinctPlaces(rows: Rows) {
    forall a, b :: a in rows && b in rows && a % PARKING_PLACES == b % PARKING_PLACES ==> a == b
  }

  /** The ids of all the rows, each once. */
  ghost predicate Lists(existing: seq<nat>, rows: Rows) {
    (forall id :: id in existing <==> id in rows) && forall i, j :: 0 <= i < j < |existing| ==> existing[i] != existing[j]
  }

  /** What every completed load leaves. */
  ghost predicate Placed(rows: Rows) {
    forall id :: id in rows ==> rows[id].order >= 0
  }

  function Before(existing: seq<nat>, j: nat): set<nat>
    requires j <= |existing|
  {
    set i | 0 <= i < j :: existing[i]
  }

  /** Nothing parked so far stands where `id` is to be parked, and nothing still to be parked stands there either. */
  ghost predicate Clear(before: Rows, done: set<nat>, id: nat) {
    (forall other :: other in before && other in done ==> ParkedOrder(other) != ParkedOrder(id)) &&
    forall other :: other in before && other !in done && other != id ==> before[other].order != ParkedOrder(id)
  }

  /** A statement that parks a row duplicates that row alone exactly when its place is clear. */
  lemma OwnRowAloneExactlyWhen(before: Rows, done: set<nat>, id: nat)
    requires UniqueKeys(before) && id in before && id !in done
    ensures Duplicates(ParkedRows(before, done), Parked(id, before[id])) == {id} <==> Clear(before, done, id)
    ensures ParkedRows(before, done)[id := Parked(id, before[id])] == ParkedRows(before, done + {id})
  {
    var rows, p := ParkedRows(before, done), Parked(id, before[id]);
    forall other | other in before && other != id
      ensures Clash(rows[other], p) <==> rows[other].order == p.order
    {
      assert !Clash(before[other], before[id]);
    }
    assert id in Duplicates(rows, p);
    if Clear(before, done, id) {
      assert forall other :: other in rows && other != id ==> !Clash(rows[other], p);
    } else {
      var other :| other in before && other != id && rows[other].order == ParkedOrder(id);
      assert other in Duplicates(rows, p);
    }
  }

  lemma DistinctPlacesAreClear(rows: Rows, done: set<nat>, id: nat)
    requires DistinctPlaces(rows) && Placed(rows) && id in rows && id !in done
    ensures Clear(rows, done, id)
  {
    forall other | other in rows && other in done ensures ParkedOrder(other) != ParkedOrder(id) {
      assert other % PARKING_PLACES != id % PARKING_PLACES;
    }
  }

  /** Taken in this order, every row's place is clear when its turn comes. */
  ghost predicate SafeParking(existing: seq<nat>, before: Rows) {
    forall j: nat :: j < |existing| ==> Clear(before, Before(existing, j), existing[j])
  }

  /**
   * Over the rows a completed load leaves, in whatever order: no two ids may agree modulo the number of places. Every
   * place parked at fits a SMALLINT and lies below every place in use.
   */
  lemma CompletedLoadsParkSafelyExactlyWhen(existing: seq<nat>, rows: Rows)
    requires Placed(rows) && Lists(existing, rows)
    ensures SafeParking(existing, rows) <==> DistinctPlaces(rows)
    ensures forall id: nat :: -0x8000 <= ParkedOrder(id) < 0
  {
    if DistinctPlaces(rows) {
      forall j: nat | j < |existing| ensures Clear(rows, Before(existing, j), existing[j]) {
        DistinctPlacesAreClear(rows, Before(existing, j), existing[j]);
      }
    } else {
      var a, b :| a in rows && b in rows && a % PARKING_PLACES == b % PARKING_PLACES && a != b;
      var i: nat :| i < |existing| && existing[i] == a;
      var j: nat :| j < |existing| && existing[j] == b;
      if i < j { SharedPlaceIsNotClear(existing, rows, i, j); } else { SharedPlaceIsNotClear(existing, rows, j, i); }
    }
  }

  /** Rows as a completed load may leave them, ids 30000 apart: the second cannot be parked. */
  lemma IdsApartByThePlaces(first: string, second: string)
    requires first != second
    ensures var rows := map[1 := Pronunciation(first, first, None, true, 0, UNATTRIBUTED),
                            30001 := Pronunciation(second, second, None, false, 1, UNATTRIBUTED)];
            UniqueKeys(rows) && Placed(rows) && Lists([1, 30001], rows) && !SafeParking([1, 30001], rows)
  {
    var rows := map[1 := Pronunciation(first, first, None, true, 0, UNATTRIBUTED),
                    30001 := Pronunciation(second, second, None, false, 1, UNATTRIBUTED)];
    assert Lists([1, 30001], rows);
    assert ParkedOrder(30001) == ParkedOrder(1);
    SharedPlaceIsNotClear([1, 30001], rows, 0, 1);
  }

  lemma SharedPlaceIsNotClear(existing: seq<nat>, rows: Rows, i: nat, j: nat)
    requires Lists(existing, rows) && i < j < |existing| && ParkedOrder(existing[i]) == ParkedOrder(existing[j])
    ensures !SafeParking(existing, rows)
  {
    assert existing[i] in Before(existing, j) && existing[i] in rows;
    assert !Clear(rows, Before(existing, j), existing[j]);
  }

  // The entry.

  /** What validation leaves of an entry: one primary, at the front, and places counted from nought. */
  ghost predicate Entry(entry: seq<Pronunciation>) {
    (forall j: nat :: j < |entry| ==> entry[j].order == j && (entry[j].primary <==> j == 0)) &&
    forall j: nat, k: nat :: j < |entry| && k < |entry| && entry[j].ipa == entry[k].ipa ==> j == k
  }

  ghost predicate Says(entry: seq<Pronunciation>, n: nat, ipa: string)
    requires n <= |entry|
  {
    exists j: nat :: j < n && entry[j].ipa == ipa
  }

  ghost predicate Stored(rows: Rows, p: Pronunciation) {
    exists id :: id in rows && rows[id] == p
  }

  lemma StoredAt(rows: Rows, p: Pronunciation) returns (id: nat)
    requires Stored(rows, p)
    ensures id in rows && rows[id] == p
  {
    id :| id in rows && rows[id] == p;
  }

  /** The parked rows with the first `n` of the entry written over them. */
  ghost predicate Written(parked: Rows, next: nat, entry: seq<Pronunciation>, n: nat, rows: Rows, nextId: nat)
    requires n <= |entry|
  {
    UniqueKeys(rows) && next <= nextId &&
    (forall j: nat :: j < n ==> Stored(rows, entry[j])) &&
    (forall id :: id in rows ==> WrittenRow(parked, entry, n, id, rows[id]) && id < nextId) &&
    (forall id :: id in rows && id !in parked ==> next <= id) &&
    forall id :: id in parked ==> id in rows && rows[id].ipa == parked[id].ipa
  }

  ghost predicate WrittenRow(parked: Rows, entry: seq<Pronunciation>, n: nat, id: nat, row: Pronunciation)
    requires n <= |entry|
  {
    row in entry[..n] || (id in parked && row == parked[id] && !Says(entry, n, row.ipa))
  }

  ghost predicate AllParked(rows: Rows) {
    forall id :: id in rows ==> rows[id].order < 0 && !rows[id].primary
  }

  /** Writing the next of the entry duplicates the row with its transcription, if there is one, and no other. */
  lemma WritingHitsItsOwnRow(parked: Rows, next: nat, entry: seq<Pronunciation>, n: nat, rows: Rows, nextId: nat, id: nat)
    requires Entry(entry) && n < |entry| && AllParked(parked) && Written(parked, next, entry, n, rows, nextId) && id in rows
    ensures Clash(rows[id], entry[n]) <==> rows[id].ipa == entry[n].ipa
    ensures rows[id].ipa == entry[n].ipa ==> id in parked
  {
    assert WrittenRow(parked, entry, n, id, rows[id]);
    if rows[id] in entry[..n] {
      var j: nat :| j < n && entry[j] == rows[id];
    }
  }

  lemma WriteOver(parked: Rows, next: nat, entry: seq<Pronunciation>, n: nat, rows: Rows, nextId: nat, id: nat)
    requires Entry(entry) && n < |entry| && AllParked(parked) && Written(parked, next, entry, n, rows, nextId)
    requires id in rows && rows[id].ipa == entry[n].ipa
    ensures Duplicates(rows, entry[n]) == {id}
    ensures Written(parked, next, entry, n + 1, rows[id := entry[n]], nextId)
  {
    forall other | other in rows && rows[other].ipa == entry[n].ipa ensures other == id {
      assert Clash(rows[other], rows[id]);
    }
    OthersDoNotClash(parked, next, entry, n, rows, nextId, id);
    WrittenOnce(parked, next, entry, n, rows, nextId, id);
  }

  lemma OthersDoNotClash(parked: Rows, next: nat, entry: seq<Pronunciation>, n: nat, rows: Rows, nextId: nat, id: nat)
    requires Entry(entry) && n < |entry| && AllParked(parked) && Written(parked, next, entry, n, rows, nextId)
    requires forall other :: other in rows && rows[other].ipa == entry[n].ipa ==> other == id
    ensures forall other :: other in rows && other != id ==> !Clash(rows[other], entry[n])
    ensures UniqueKeys(rows[id := entry[n]])
  {
    forall other | other in rows && other != id ensures !Clash(rows[other], entry[n]) {
      WritingHitsItsOwnRow(parked, next, entry, n, rows, nextId, other);
    }
  }

  /** What one more row written does to the picture, whether over a parked row or under a new id. */
  lemma WrittenOnce(parked: Rows, next: nat, entry: seq<Pronunciation>, n: nat, rows: Rows, nextId: nat, id: nat)
    requires Entry(entry) && n < |entry| && AllParked(parked) && Written(parked, next, entry, n, rows, nextId)
    requires forall other :: other in rows && rows[other].ipa == entry[n].ipa ==> other == id
    requires id in rows ==> rows[id].ipa == entry[n].ipa
    requires id !in rows ==> id == nextId
    requires UniqueKeys(rows[id := entry[n]])
    ensures Written(parked, next, entry, n + 1, rows[id := entry[n]], if id in rows then nextId else nextId + 1)
  {
    var after := rows[id := entry[n]];
    assert entry[..n + 1] == entry[..n] + [entry[n]];
    forall j: nat | j < n + 1 ensures Stored(after, entry[j]) {
      if j < n {
        var at := StoredAt(rows, entry[j]);
        assert at != id && after[at] == entry[j];
      } else {
        assert after[id] == entry[n];
      }
    }
    forall other | other in after ensures WrittenRow(parked, entry, n + 1, other, after[other]) {
      if other != id {
        assert WrittenRow(parked, entry, n, other, rows[other]);
      }
    }
  }

  lemma WriteNew(parked: Rows, next: nat, entry: seq<Pronunciation>, n: nat, rows: Rows, nextId: nat)
    requires Entry(entry) && n < |entry| && AllParked(parked) && Written(parked, next, entry, n, rows, nextId)
    requires forall other :: other in rows ==> rows[other].ipa != entry[n].ipa
    ensures Duplicates(rows, entry[n]) == {}
    ensures Written(parked, next, entry, n + 1, rows[nextId := entry[n]], nextId + 1)
  {
    OthersDoNotClash(parked, next, entry, n, rows, nextId, nextId);
    WrittenOnce(parked, next, entry, n, rows, nextId, nextId);
  }

  lemma WriteStep(parked: Rows, next: nat, entry: seq<Pronunciation>, n: nat, rows: Rows, nextId: nat)
    requires Entry(entry) && n < |entry| && AllParked(parked) && Written(parked, next, entry, n, rows, nextId)
    ensures var hit := Duplicates(rows, entry[n]);
            if hit == {} then Written(parked, next, entry, n + 1, rows[nextId := entry[n]], nextId + 1)
            else forall id :: id in hit ==>
              (hit == {id} && rows[id].ipa == entry[n].ipa && Written(parked, next, entry, n + 1, rows[id := entry[n]], nextId))
  {
    if id :| id in rows && rows[id].ipa == entry[n].ipa {
      WriteOver(parked, next, entry, n, rows, nextId, id);
    } else {
      WriteNew(parked, next, entry, n, rows, nextId);
    }
  }

  lemma WriteSucceeds(parked: Rows, next: nat, entry: seq<Pronunciation>, n: nat, rows: Rows, nextId: nat,
                      ok: bool, after: Rows, nextAfter: nat)
    requires Entry(entry) && n < |entry| && AllParked(parked) && Written(parked, next, entry, n, rows, nextId)
    requires Upserted(rows, nextId, entry[n], ok, after, nextAfter)
    ensures ok && Written(parked, next, entry, n + 1, after, nextAfter)
  {
    WriteStep(parked, next, entry, n, rows, nextId);
    if Duplicates(rows, entry[n]) != {} {
      var id :| id in Duplicates(rows, entry[n]) && Updated(rows, entry[n], id, ok, after);
      assert entry[n].(ipa := rows[id].ipa) == entry[n];
    }
  }

  function Transcriptions(entry: seq<Pronunciation>): set<string> {
    set p | p in entry :: p.ipa
  }

  function Dropped(rows: Rows, keep: set<string>): set<nat> {
    set id | id in rows && rows[id].ipa !in keep
  }

  /** The outcome of a load, as a relation between the rows before and after. */
  ghost predicate Loads(before: Rows, next: nat, entry: seq<Pronunciation>, after: Rows) {
    UniqueKeys(after) &&
    (forall j: nat :: j < |entry| ==> Stored(after, entry[j])) &&
    (forall id :: id in after ==> after[id] in entry) &&
    (forall id :: id in before ==> (id in after <==> Says(entry, |entry|, before[id].ipa))) &&
    (forall id :: id in before && id in after ==> after[id].ipa == before[id].ipa) &&
    forall id :: id in after && id !in before ==> next <= id
  }

  lemma NothingWritten(before: Rows, next: nat, entry: seq<Pronunciation>)
    requires UniqueKeys(ParkedRows(before, before.Keys)) && forall id :: id in before ==> id < next
    ensures Written(ParkedRows(before, before.Keys), next, entry, 0, ParkedRows(before, before.Keys), next)
    ensures AllParked(ParkedRows(before, before.Keys))
  {
  }

  /** Deleting the rows whose transcription the entry no longer has leaves exactly the entry. */
  lemma DroppingLeavesTheEntry(before: Rows, next: nat, entry: seq<Pronunciation>, rows: Rows, nextId: nat, after: Rows)
    requires Written(ParkedRows(before, before.Keys), next, entry, |entry|, rows, nextId)
    requires forall id :: id in after <==> id in rows && !(id in before && !Says(entry, |entry|, before[id].ipa))
    requires forall id :: id in after ==> after[id] == rows[id]
    ensures Loads(before, next, entry, after)
  {
    var parked := ParkedRows(before, before.Keys);
    forall id | id in after ensures after[id] in entry {
      assert WrittenRow(parked, entry, |entry|, id, rows[id]);
      assert entry[..|entry|] == entry;
    }
    forall j: nat | j < |entry| ensures Stored(after, entry[j]) {
      var at := StoredAt(rows, entry[j]);
      assert at in before ==> before[at].ipa == entry[j].ipa;
      assert at in after;
    }
  }

  lemma WithoutBoth(rows: Rows, a: set<nat>, b: set<nat>)
    ensures (rows - a) - b == rows - (a + b)
  {
  }

  lemma TranscriptionsAreSaid(entry: seq<Pronunciation>)
    ensures forall ipa :: ipa in Transcriptions(entry) <==> Says(entry, |entry|, ipa)
  {
    forall ipa ensures ipa in Transcriptions(entry) <==> Says(entry, |entry|, ipa) {
      if j: nat :| j < |entry| && entry[j].ipa == ipa { assert entry[j] in entry; }
    }
  }

  // What a load amounts to.

  lemma RowOf(rows: Rows, entry: seq<Pronunciation>, id: nat) returns (j: nat)
    requires id in rows && rows[id] in entry
    ensures j < |entry| && entry[j] == rows[id]
  {
    j :| j < |entry| && entry[j] == rows[id];
  }

  /** As many rows as the entry has, one of them primary and at the front. */
  lemma OnePrimaryAtTheFront(before: Rows, next: nat, entry: seq<Pronunciation>, after: Rows)
    requires Entry(entry) && entry != [] && Loads(before, next, entry, after)
    ensures Placed(after) && forall id :: id in after ==> (after[id].primary <==> after[id].order == 0)
    ensures exists id :: id in after && after[id].primary && after[id] == entry[0]
    ensures |after| == |entry|
  {
    forall id | id in after ensures after[id].order >= 0 && (after[id].primary <==> after[id].order == 0) {
      var j := RowOf(after, entry, id);
    }
    assert Stored(after, entry[0]);
    AsManyRows(entry, after);
  }

  lemma LastRow(entry: seq<Pronunciation>, after: Rows, last: nat)
    requires Entry(entry) && entry != [] && UniqueKeys(after) && last in after && after[last] == entry[|entry| - 1]
    requires forall j: nat :: j < |entry| ==> Stored(after, entry[j])
    requires forall id :: id in after ==> after[id] in entry
    ensures var init, rest := entry[..|entry| - 1], after - {last};
            Entry(init) && UniqueKeys(rest) && (forall j: nat :: j < |init| ==> Stored(rest, init[j])) &&
            forall id :: id in rest ==> rest[id] in init
  {
    var n := |entry| - 1;
    var init, rest := entry[..n], after - {last};
    forall j: nat | j < n ensures Stored(rest, init[j]) {
      var at := StoredAt(after, entry[j]);
      assert at in rest && rest[at] == init[j];
    }
    forall id | id in rest ensures rest[id] in init {
      var j := RowOf(after, entry, id);
      assert !Clash(after[id], after[last]);
      assert init[j] == rest[id];
    }
  }

  lemma OneFewer(rows: Rows, id: nat)
    requires id in rows
    ensures |rows| == |rows - {id}| + 1
  {
    assert rows == (rows - {id})[id := rows[id]];
  }

  lemma AsManyRows(entry: seq<Pronunciation>, after: Rows)
    requires Entry(entry) && UniqueKeys(after)
    requires forall j: nat :: j < |entry| ==> Stored(after, entry[j])
    requires forall id :: id in after ==> after[id] in entry
    ensures |after| == |entry|
    decreases |entry|
  {
    if entry == [] {
      assert after == map[];
    } else {
      var last := StoredAt(after, entry[|entry| - 1]);
      LastRow(entry, after, last);
      AsManyRows(entry[..|entry| - 1], after - {last});
      OneFewer(after, last);
    }
  }

  lemma RowStays(before: Rows, next: nat, entry: seq<Pronunciation>, once: Rows, nextOnce: nat, twice: Rows, id: nat)
    requires Entry(entry) && Loads(before, next, entry, once) && Loads(once, nextOnce, entry, twice) && id in once
    ensures id in twice && twice[id] == once[id]
  {
    var j := RowOf(once, entry, id);
    assert Says(entry, |entry|, once[id].ipa);
    var k := RowOf(twice, entry, id);
  }

  /** Loading the same entry again changes nothing, ids included. */
  lemma ReloadIsNoOp(before: Rows, next: nat, entry: seq<Pronunciation>, once: Rows, nextOnce: nat, twice: Rows)
    requires Entry(entry) && Loads(before, next, entry, once) && Loads(once, nextOnce, entry, twice)
    ensures twice == once
  {
    forall id | id in once ensures id in twice && twice[id] == once[id] {
      RowStays(before, next, entry, once, nextOnce, twice, id);
    }
    forall id | id in twice ensures id in once {
      var j := RowOf(twice, entry, id);
      var at := StoredAt(once, entry[j]);
      RowStays(before, next, entry, once, nextOnce, twice, at);
      assert Clash(twice[at], twice[id]);
    }
  }

  /** The same rows under the same transcriptions, wherever they stand. */
  ghost predicate Relabelled(before: Rows, rows: Rows) {
    rows.Keys == before.Keys && forall id :: id in before ==> rows[id].ipa == before[id].ipa
  }

  /** Row `id` still stands where it stood, which is not where it was to be parked. */
  ghost predicate Misplaced(before: Rows, rows: Rows, id: nat) {
    id in before && id in rows && rows[id].order == before[id].order != ParkedOrder(id)
  }

  ghost predicate ClearSoFar(existing: seq<nat>, before: Rows, i: nat)
    requires i <= |existing|
  {
    forall j: nat :: j < i ==> Clear(before, Before(existing, j), existing[j])
  }

  lemma BeforeAnything(existing: seq<nat>, before: Rows)
    ensures Before(existing, 0) == {} && ParkedRows(before, {}) == before
  {
  }

  lemma KeepsLabels(before: Rows, was: Rows, id: nat, ok: bool, rows: Rows)
    requires Relabelled(before, was) && id in before && Claimed(was, Parked(id, before[id]), ok, rows)
    ensures Relabelled(before, rows)
  {
  }

  lemma ParksItsOwn(before: Rows, done: set<nat>, id: nat, ok: bool, rows: Rows)
    requires UniqueKeys(before) && id in before && id !in done && Clear(before, done, id)
    requires Claimed(ParkedRows(before, done), Parked(id, before[id]), ok, rows)
    ensures ok && rows == ParkedRows(before, done + {id})
  {
    OwnRowAloneExactlyWhen(before, done, id);
    assert Parked(id, before[id]).(ipa := before[id].ipa) == Parked(id, before[id]);
  }

  /** A place that is not clear: refused, or claimed by the row that stands there. */
  lemma MissesItsOwn(before: Rows, done: set<nat>, id: nat, ok: bool, rows: Rows)
    requires UniqueKeys(ParkedRows(before, done)) && id in before && id !in done && !Clear(before, done, id)
    requires Claimed(ParkedRows(before, done), Parked(id, before[id]), ok, rows)
    ensures Misplaced(before, rows, id)
  {
    var was, p := ParkedRows(before, done), Parked(id, before[id]);
    var other :| other in before && other != id && was[other].order == ParkedOrder(id);
    assert !Clash(was[other], was[id]);
    assert other in Duplicates(was, p) && p.(ipa := was[id].ipa) == p;
  }

  /** Once missed, a row keeps its place: whatever else claims it does so by that very place. */
  lemma StaysMissed(before: Rows, was: Rows, id: nat, ok: bool, rows: Rows, missed: nat)
    requires UniqueKeys(before) && Relabelled(before, was) && id in before && missed != id && Misplaced(before, was, missed)
    requires Claimed(was, Parked(id, before[id]), ok, rows)
    ensures Misplaced(before, rows, missed)
  {
    assert !Clash(before[missed], before[id]);
  }

  /** After `i` statements: all parked so far, or some row missed. */
  ghost predicate Parking(existing: seq<nat>, before: Rows, i: nat, missed: Option<nat>, rows: Rows)
    requires i <= |existing|
  {
    Relabelled(before, rows) &&
    match missed
    case None => rows == ParkedRows(before, Before(existing, i)) && ClearSoFar(existing, before, i)
    case Some(m) => Misplaced(before, rows, m) && !SafeParking(existing, before) && m in Before(existing, i)
  }

  lemma NowBefore(existing: seq<nat>, i: nat)
    requires i < |existing| && forall j, k :: 0 <= j < k < |existing| ==> existing[j] != existing[k]
    ensures Before(existing, i + 1) == Before(existing, i) + {existing[i]} && existing[i] !in Before(existing, i)
  {
  }

  lemma StillMissed(existing: seq<nat>, before: Rows, i: nat, missed: nat, was: Rows, ok: bool, rows: Rows)
    requires UniqueKeys(before) && Lists(existing, before) && i < |existing| && Parking(existing, before, i, Some(missed), was)
    requires Claimed(was, Parked(existing[i], before[existing[i]]), ok, rows)
    ensures Parking(existing, before, i + 1, Some(missed), rows)
  {
    NowBefore(existing, i);
    KeepsLabels(before, was, existing[i], ok, rows);
    StaysMissed(before, was, existing[i], ok, rows, missed);
  }

  lemma OneMoreParked(existing: seq<nat>, before: Rows, i: nat, was: Rows, ok: bool, rows: Rows)
    requires UniqueKeys(before) && Lists(existing, before) && i < |existing| && Parking(existing, before, i, None, was)
    requires Claimed(was, Parked(existing[i], before[existing[i]]), ok, rows)
    requires Clear(before, Before(existing, i), existing[i])
    ensures ok && Parking(existing, before, i + 1, None, rows)
  {
    NowBefore(existing, i);
    KeepsLabels(before, was, existing[i], ok, rows);
    ParksItsOwn(before, Before(existing, i), existing[i], ok, rows);
  }

  lemma FirstMissed(existing: seq<nat>, before: Rows, i: nat, was: Rows, ok: bool, rows: Rows)
    requires UniqueKeys(was) && Lists(existing, before) && i < |existing| && Parking(existing, before, i, None, was)
    requires Claimed(was, Parked(existing[i], before[existing[i]]), ok, rows)
    requires !Clear(before, Before(existing, i), existing[i])
    ensures Parking(existing, before, i + 1, Some(existing[i]), rows)
  {
    NowBefore(existing, i);
    KeepsLabels(before, was, existing[i], ok, rows);
    MissesItsOwn(before, Before(existing, i), existing[i], ok, rows);
  }

  lemma ParkingStep(existing: seq<nat>, before: Rows, i: nat, missed: Option<nat>, was: Rows, ok: bool, rows: Rows)
      returns (now: Option<nat>)
    requires UniqueKeys(before) && UniqueKeys(was) && Lists(existing, before) && i < |existing|
    requires Parking(existing, before, i, missed, was) && Claimed(was, Parked(existing[i], before[existing[i]]), ok, rows)
    ensures Parking(existing, before, i + 1, now, rows) && (now == None ==> ok)
  {
    if missed.Some? {
      StillMissed(existing, before, i, missed.value, was, ok, rows);
      now := missed;
    } else if Clear(before, Before(existing, i), existing[i]) {
      OneMoreParked(existing, before, i, was, ok, rows);
      now := None;
    } else {
      FirstMissed(existing, before, i, was, ok, rows);
      now := Some(existing[i]);
    }
  }

  lemma ParkingDone(existing: seq<nat>, before: Rows, missed: Option<nat>, rows: Rows)
    requires Lists(existing, before) && Parking(existing, before, |existing|, missed, rows)
    ensures rows == ParkedRows(before, before.Keys) <==> SafeParking(existing, before)
  {
    assert Before(existing, |existing|) == before.Keys by {
      forall id | id in before ensures id in Before(existing, |existing|) {
        var i: nat :| i < |existing| && existing[i] == id;
      }
    }
  }

  class PronunciationTable {
    var rows: Rows
    var nextId: nat

    ghost predicate Valid()
      reads this
    {
      UniqueKeys(rows) && forall id :: id in rows ==> id < nextId
    }

    constructor ()
      ensures Valid() && rows == map[]
    {
      rows, nextId := map[], 0;
    }

    /**
     * INSERT … ON DUPLICATE KEY UPDATE. Any duplicate row may claim the update, which writes everything but the
     * transcription; an update that would itself duplicate another row is refused.
     */
    method Upsert(p: Pronunciation) returns (ok: bool)
      requires Valid()
      modifies this
      ensures Valid()
      ensures Upserted(old(rows), old(nextId), p, ok, rows, nextId)
      ensures old(rows).Keys <= rows.Keys
    {
      var hit := Duplicates(rows, p);
      if hit == {} {
        forall id | id in rows ensures !Clash(rows[id], p) { assert id !in hit; }
        rows, nextId := rows[nextId := p], nextId + 1;
        return true;
      }
      var id :| id in hit;
      var q := p.(ipa := rows[id].ipa);
      ok := Duplicates(rows, q) <= {id};
      if ok {
        forall other | other in rows && other != id ensures !Clash(rows[other], q) {
          assert other !in Duplicates(rows, q);
        }
        rows := rows[id := q];
      }
    }

    method DeleteById(id: nat) returns (removed: nat)
      requires Valid()
      modifies this
      ensures Valid() && rows == old(rows) - {id} && nextId == old(nextId)
      ensures removed == if id in old(rows) then 1 else 0
    {
      removed := if id in rows then 1 else 0;
      rows := rows - {id};
    }

    /**
     * Parks the rows in the order listed, each as it was read. Every row ends parked in its own place exactly when
     * that is safe; a place that is not clear has the statement refused or claimed by the row that stands there.
     */
    method Park(existing: seq<nat>) returns (ok: bool)
      requires Valid() && Lists(existing, rows)
      modifies this
      ensures Valid() && nextId == old(nextId) && rows.Keys == old(rows).Keys
      ensures (ok && rows == ParkedRows(old(rows), old(rows).Keys)) <==> SafeParking(existing, old(rows))
    {
      var snapshot := rows;
      ghost var missed: Option<nat> := None;
      BeforeAnything(existing, snapshot);
      for i := 0 to |existing|
        invariant Valid() && nextId == old(nextId) && Parking(existing, snapshot, i, missed, rows)
      {
        var id := existing[i];
        ghost var was := rows;
        assert id in Duplicates(was, Parked(id, snapshot[id]));
        ok := Upsert(Parked(id, snapshot[id]));
        missed := ParkingStep(existing, snapshot, i, missed, was, ok, rows);
        if !ok { return; }
      }
      ParkingDone(existing, snapshot, missed, rows);
      ok := true;
    }

    /** Parked rows are out of the way of every statement; over rows that are not, one may be refused. */
    method Write(entry: seq<Pronunciation>) returns (ok: bool)
      requires Valid() && Entry(entry)
      modifies this
      ensures Valid() && old(rows).Keys <= rows.Keys && old(nextId) <= nextId
      ensures AllParked(old(rows)) ==> ok && Written(old(rows), old(nextId), entry, |entry|, rows, nextId)
    {
      for n := 0 to |entry|
        invariant Valid() && old(rows).Keys <= rows.Keys && old(nextId) <= nextId
        invariant AllParked(old(rows)) ==> Written(old(rows), old(nextId), entry, n, rows, nextId)
      {
        ghost var was, nextWas := rows, nextId;
        ok := Upsert(entry[n]);
        if AllParked(old(rows)) { WriteSucceeds(old(rows), old(nextId), entry, n, was, nextWas, ok, rows, nextId); }
        if !ok { return; }
      }
      ok := true;
    }

    method Drop(existing: seq<nat>, snapshot: Rows, keep: set<string>) returns (removed: nat)
      requires Valid() && snapshot.Keys <= rows.Keys && Lists(existing, snapshot)
      modifies this
      ensures Valid() && nextId == old(nextId)
      ensures rows == old(rows) - Dropped(snapshot, keep) && removed == |Dropped(snapshot, keep)|
    {
      removed := 0;
      ghost var dropped: set<nat> := {};
      for i := 0 to |existing|
        invariant Valid() && nextId == old(nextId) && rows == old(rows) - dropped && removed == |dropped|
        invariant dropped <= Dropped(snapshot, keep)
        invariant forall j :: 0 <= j < i ==> (existing[j] in dropped <==> snapshot[existing[j]].ipa !in keep)
        invariant forall j :: i <= j < |existing| ==> existing[j] !in dropped
      {
        var id := existing[i];
        if snapshot[id].ipa !in keep {
          WithoutBoth(old(rows), dropped, {id});
          var gone := DeleteById(id);
          removed := removed + gone;
          dropped := dropped + {id};
        }
      }
      assert dropped == Dropped(snapshot, keep);
    }

    /**
     * One transaction over the ids the word's rows are read under: a refused statement undoes it. Where parking is
     * safe nothing is refused, and the rows become the entry's.
     */
    method LoadEntry(existing: seq<nat>, entry: seq<Pronunciation>) returns (removed: Option<nat>)
      requires Valid() && Entry(entry) && Lists(existing, rows)
      modifies this
      ensures Valid() && (removed == None ==> rows == old(rows))
      ensures SafeParking(existing, old(rows)) ==>
                removed == Some(|Dropped(old(rows), Transcriptions(entry))|) && Loads(old(rows), old(nextId), entry, rows)
    {
      var snapshot := rows;
      var ok := Park(existing);
      if ok {
        ghost var parked := rows;
        if SafeParking(existing, snapshot) { NothingWritten(snapshot, nextId, entry); }
        ok := Write(entry);
        if ok {
          ghost var written := rows;
          var dropped := Drop(existing, snapshot, Transcriptions(entry));
          if SafeParking(existing, snapshot) {
            TranscriptionsAreSaid(entry);
            DroppingLeavesTheEntry(snapshot, old(nextId), entry, written, nextId, rows);
          }
          return Some(dropped);
        }
      }
      rows := snapshot;
      return None;
    }
  }
}
