/** The store behind learner progress: each method is one transaction of the program, over tables it updates in place. */
module ProgressStore {
  import opened Wrappers
  import opened Sorting
  import opened Sm2
  import opened Progress
  import opened ProgressLaws

  function TargetOf(drift: Drift): Target {
    match drift case Missing(t, _) => t case Mismatch(t, _, _) => t case Unexplained(t, _) => t
  }

  /** A replay in listing order: the last state event of each target wins. */
  method DeriveExpectedStates(events: seq<Event>) returns (expected: map<Target, Row>)
    ensures expected == DeriveExpected(events)
  {
    expected := map[];
    for i := 0 to |events|
      invariant expected == DeriveExpected(events[..i])
    {
      var event := events[i];
      assert events[..i + 1][..i] == events[..i];
      if !IsStateEvent(event.kind) {
        continue;
      }
      expected := expected[event.target := Row(StateOf(event.kind), event.id)];
    }
    assert events[..|events|] == events;
  }

  /** At most one entry to a target. */
  ghost predicate OneToATarget(drift: seq<Drift>) {
    forall i, j :: 0 <= i < j < |drift| ==> TargetOf(drift[i]) != TargetOf(drift[j])
  }

  lemma OneMoreEntry(drift: seq<Drift>, entry: Drift)
    requires OneToATarget(drift) && forall d :: d in drift ==> TargetOf(d) != TargetOf(entry)
    ensures OneToATarget(drift + [entry])
  {
  }

  /** The entries for what is expected. */
  method DiffExpected(expected: map<Target, Row>, live: map<Target, Row>) returns (drift: seq<Drift>)
    ensures forall d :: d in drift <==> d in Diff(expected, live) && !d.Unexplained?
    ensures OneToATarget(drift)
  {
    drift := [];
    var wanted := expected.Keys;
    while wanted != {}
      invariant wanted <= expected.Keys && OneToATarget(drift)
      invariant forall d :: d in drift <==> d in Diff(expected, live) && !d.Unexplained? && TargetOf(d) !in wanted
    {
      var t :| t in wanted;
      if t !in live {
        OneMoreEntry(drift, Missing(t, expected[t]));
        drift := drift + [Missing(t, expected[t])];
      } else if live[t] != expected[t] {
        OneMoreEntry(drift, Mismatch(t, expected[t], live[t]));
        drift := drift + [Mismatch(t, expected[t], live[t])];
      }
      wanted := wanted - {t};
    }
  }

  method DiffStates(expected: map<Target, Row>, live: map<Target, Row>) returns (drift: seq<Drift>)
    ensures forall d :: d in drift <==> d in Diff(expected, live)
    ensures OneToATarget(drift)
  {
    drift := DiffExpected(expected, live);
    var held := live.Keys;
    while held != {}
      invariant held <= live.Keys && OneToATarget(drift)
      invariant forall d :: d in drift <==> d in Diff(expected, live) && (d.Unexplained? ==> TargetOf(d) !in held)
    {
      var t :| t in held;
      if t !in expected {
        OneMoreEntry(drift, Unexplained(t, live[t]));
        drift := drift + [Unexplained(t, live[t])];
      }
      held := held - {t};
    }
  }

  lemma SameLookups<K, V>(m: map<K, V>, n: map<K, V>)
    requires forall k :: Lookup(m, k) == Lookup(n, k)
    ensures m == n
  {
    assert forall k :: (k in m <==> Lookup(m, k).Some?) && (k in n <==> Lookup(n, k).Some?);
    assert forall k :: k in m ==> Lookup(m, k) == Some(m[k]) && Lookup(n, k) == Some(n[k]);
  }

  /** The entries a repair writes. */
  function Repairs(entries: seq<Drift>): nat {
    if entries == [] then 0 else Repairs(entries[..|entries| - 1]) + if entries[|entries| - 1].Unexplained? then 0 else 1
  }

  /** Repairing one owner says nothing about another. */
  lemma OthersDriftIsUnchanged(db: Db, owner: Owner, other: Owner)
    requires owner != other
    ensures DriftOf(Repaired(db, owner), other) == DriftOf(db, other)
  {
    var after := Repaired(db, owner);
    forall t ensures Lookup(LiveRows(after, other), t) == Lookup(LiveRows(db, other), t) {
      RepairedRow(db, owner, other, t);
      assert Lookup(LiveRows(db, other), t) == Lookup(db.rows, RowKey(other, t));
      assert Lookup(LiveRows(after, other), t) == Lookup(after.rows, RowKey(other, t));
    }
    SameLookups(LiveRows(after, other), LiveRows(db, other));
  }

  /** The entries of a whole report that a repairing run writes. */
  function RepairsListed(drift: seq<(Owner, Drift)>): nat {
    if drift == [] then 0
    else RepairsListed(drift[..|drift| - 1]) + if drift[|drift| - 1].1.Unexplained? then 0 else 1
  }

  lemma {:induction false} RepairsListedJoin(drift: seq<(Owner, Drift)>, more: seq<(Owner, Drift)>)
    ensures RepairsListed(drift + more) == RepairsListed(drift) + RepairsListed(more)
  {
    if more == [] {
      NothingAdded(drift);
    } else {
      RepairsListedJoin(drift, more[..|more| - 1]);
      assert (drift + more)[..|drift + more| - 1] == drift + more[..|more| - 1];
    }
  }

  method WithOwner(owner: Owner, entries: seq<Drift>) returns (pairs: seq<(Owner, Drift)>)
    ensures forall o, d :: (o, d) in pairs <==> o == owner && d in entries
    ensures RepairsListed(pairs) == Repairs(entries)
  {
    pairs := [];
    for i := 0 to |entries|
      invariant forall o, d :: (o, d) in pairs <==> o == owner && d in entries[..i]
      invariant RepairsListed(pairs) == Repairs(entries[..i])
    {
      assert entries[..i + 1] == entries[..i] + [entries[i]];
      assert (pairs + [(owner, entries[i])])[..|pairs|] == pairs;
      pairs := pairs + [(owner, entries[i])];
    }
    assert entries[..|entries|] == entries;
  }

  /** An owner the query does not list has neither events nor rows, and so no drift. */
  lemma UnlistedOwnersHaveNoDrift(db: Db, owner: Owner)
    requires owner !in ListedOwners(db)
    ensures DriftOf(db, owner) == {}
  {
    forall e | e in db.log ensures !StateEvents(db.bindings, owner)(e) {
      BelongsIsResolution(db.bindings, e, owner);
      assert IsStateEvent(e.kind) ==> Resolve(db.bindings, e.owner) in ListedOwners(db);
    }
    FilterNone(StateEvents(db.bindings, owner), db.log);
    forall k | k in db.rows ensures k.owner != owner {
      assert k.owner in ListedOwners(db);
    }
    assert LiveRows(db, owner) == map[];
  }

  function UnexplainedIn(drift: set<Drift>): set<Drift> {
    set d | d in drift && d.Unexplained?
  }

  ghost function DriftsOf(db: Db): Owner -> set<Drift> {
    o => DriftOf(db, o)
  }

  /** The report so far: the drift of the owners done. */
  ghost predicate Reported(before: Owner -> set<Drift>, done: set<Owner>, drift: seq<(Owner, Drift)>) {
    forall o, d :: (o, d) in drift <==> o in done && d in before(o)
  }

  /** A repairing run has settled the owners done, and no run has touched the others. */
  ghost predicate SettledFor(before: Owner -> set<Drift>, done: set<Owner>, now: Owner -> set<Drift>) {
    forall o :: now(o) == if o in done then UnexplainedIn(before(o)) else before(o)
  }

  lemma SettledFurther(before: Owner -> set<Drift>, done: set<Owner>, was: Owner -> set<Drift>, now: Owner -> set<Drift>,
                       owner: Owner)
    requires SettledFor(before, done, was) && owner !in done
    requires now(owner) == UnexplainedIn(was(owner)) && forall o :: o != owner ==> now(o) == was(o)
    ensures SettledFor(before, done + {owner}, now)
  {
  }

  lemma ReportedFurther(before: Owner -> set<Drift>, done: set<Owner>, drift: seq<(Owner, Drift)>, owner: Owner,
                        entries: seq<Drift>, pairs: seq<(Owner, Drift)>)
    requires Reported(before, done, drift) && (forall d :: d in entries <==> d in before(owner))
    requires forall o, d :: (o, d) in pairs <==> o == owner && d in entries
    ensures Reported(before, done + {owner}, drift + pairs)
  {
  }

  lemma UnlistedHaveNone(db: Db)
    ensures forall o :: o !in ListedOwners(db) ==> DriftsOf(db)(o) == {}
  {
    forall o | o !in ListedOwners(db) ensures DriftsOf(db)(o) == {} {
      UnlistedOwnersHaveNoDrift(db, o);
    }
  }

  lemma EveryOwnerSettled(before: Owner -> set<Drift>, done: set<Owner>, now: Owner -> set<Drift>)
    requires SettledFor(before, done, now) && forall o :: o !in done ==> before(o) == {}
    ensures forall o :: now(o) == UnexplainedIn(before(o))
  {
  }

  lemma EveryOwnerReported(before: Owner -> set<Drift>, done: set<Owner>, drift: seq<(Owner, Drift)>)
    requires Reported(before, done, drift) && forall o :: o !in done ==> before(o) == {}
    ensures forall o, d :: (o, d) in drift <==> d in before(o)
  {
  }

  datatype Report = Report(drift: seq<(Owner, Drift)>, repaired: nat)

  /** The tables and the report of a run that has done some owners: only a repairing one has changed rows. */
  ghost predicate Reconciled(start: Db, done: set<Owner>, apply: bool, db: Db, report: Report) {
    db == start.(rows := db.rows) && (!apply ==> db.rows == start.rows) &&
    (apply ==> SettledFor(DriftsOf(start), done, DriftsOf(db))) &&
    Reported(DriftsOf(start), done, report.drift) && Counted(report, apply)
  }

  /** A repairing run counts what it wrote. */
  ghost predicate Counted(report: Report, apply: bool) {
    report.repaired == if apply then RepairsListed(report.drift) else 0
  }

  lemma CountedFurther(report: Report, apply: bool, pairs: seq<(Owner, Drift)>, count: nat)
    requires Counted(report, apply) && count == if apply then RepairsListed(pairs) else 0
    ensures Counted(Report(report.drift + pairs, report.repaired + count), apply)
  {
    RepairsListedJoin(report.drift, pairs);
  }

  lemma OwnerReconciled(start: Db, done: set<Owner>, apply: bool, db: Db, report: Report, owner: Owner, entries: seq<Drift>,
                        pairs: seq<(Owner, Drift)>, count: nat)
    requires Reconciled(start, done, apply, db, report) && owner !in done
    requires forall d :: d in entries <==> d in DriftOf(db, owner)
    requires forall o, d :: (o, d) in pairs <==> o == owner && d in entries
    requires count == if apply then RepairsListed(pairs) else 0
    ensures Reconciled(start, done + {owner}, apply, if apply then Repaired(db, owner) else db,
                       Report(report.drift + pairs, report.repaired + count))
  {
    CountedFurther(report, apply, pairs, count);
    assert DriftsOf(db)(owner) == DriftsOf(start)(owner);
    ReportedFurther(DriftsOf(start), done, report.drift, owner, entries, pairs);
    if apply {
      RepairConverges(db, owner);
      forall o | o != owner ensures DriftsOf(Repaired(db, owner))(o) == DriftsOf(db)(o) {
        OthersDriftIsUnchanged(db, owner, o);
      }
      SettledFurther(DriftsOf(start), done, DriftsOf(db), DriftsOf(Repaired(db, owner)), owner);
    }
  }

  function FirstOf(owners: seq<Owner>, i: nat): set<Owner>
    requires i <= |owners|
  {
    set j | 0 <= j < i :: owners[j]
  }

  lemma OneMoreOf(owners: seq<Owner>, i: nat)
    requires i < |owners| && forall i, j :: 0 <= i < j < |owners| ==> owners[i] != owners[j]
    ensures owners[i] !in FirstOf(owners, i) && FirstOf(owners, i + 1) == FirstOf(owners, i) + {owners[i]}
  {
  }

  lemma EveryOwnerDone(start: Db, owners: seq<Owner>, apply: bool, db: Db, report: Report)
    requires Reconciled(start, FirstOf(owners, |owners|), apply, db, report)
    requires forall o :: o in owners <==> o in ListedOwners(start)
    ensures forall o, d :: (o, d) in report.drift <==> d in DriftsOf(start)(o)
    ensures apply ==> forall o :: DriftsOf(db)(o) == UnexplainedIn(DriftsOf(start)(o))
  {
    var done := FirstOf(owners, |owners|);
    assert done == ListedOwners(start);
    UnlistedHaveNone(start);
    if apply { EveryOwnerSettled(DriftsOf(start), done, DriftsOf(db)); }
    EveryOwnerReported(DriftsOf(start), done, report.drift);
  }

  /** `written` holds the states of every word but those still to write, over `reviews`. */
  ghost predicate WrittenFor(reviews: map<ReviewKey, Schedule>, user: UserId, states: map<WordId, Schedule>, left: set<WordId>,
                             written: map<ReviewKey, Schedule>)
  {
    forall k :: Lookup(written, k) ==
      (if k.owner == User(user) && k.word in states && k.word !in left then Some(states[k.word]) else Lookup(reviews, k))
  }

  /** Fold the answers, oldest first, into one state for each word. */
  method ReplayEvents(events: seq<Event>) returns (byWord: map<WordId, Schedule>)
    ensures byWord == ReplayAll(events)
  {
    byWord := map[];
    for i := 0 to |events|
      invariant byWord == ReplayAll(events[..i])
    {
      assert events[..i + 1][..i] == events[..i];
      var event := events[i];
      if event.kind.PracticeAttempt? {
        var state := if event.target.id in byWord then byWord[event.target.id].state else INITIAL;
        byWord := byWord[event.target.id := Schedule(Review(state, event.kind.quality), event.at)];
      }
    }
    assert events[..|events|] == events;
  }

  /** One upsert a word; the first state its columns cannot hold stops them all. */
  method WriteStates(reviews: map<ReviewKey, Schedule>, user: UserId, states: map<WordId, Schedule>)
    returns (ok: bool, written: map<ReviewKey, Schedule>)
    ensures ok <==> forall w :: w in states ==> Storable(states[w])
    ensures ok ==> WrittenFor(reviews, user, states, {}, written)
  {
    var words := states.Keys;
    written := reviews;
    while words != {}
      invariant words <= states.Keys
      invariant forall w :: w in states && w !in words ==> Storable(states[w])
      invariant WrittenFor(reviews, user, states, words, written)
    {
      var w :| w in words;
      if !Storable(states[w]) {
        return false, reviews;
      }
      written := written[ReviewKey(User(user), w) := states[w]];
      words := words - {w};
    }
    return true, written;
  }

  /** What an answer does to the tables, whether it is accepted or not. */
  lemma RecordedOnce(db: Db, owner: Owner, turn: Turn, word: WordId, rating: Rating, now: int, id: nat)
    ensures var (after, accepted) := ApplyAnswer(db, owner, turn, word, rating, now, id);
            (turn in db.attempts ==> !accepted) && (!accepted ==> after == db) &&
            (accepted ==> after.attempts.Keys == db.attempts.Keys + {turn} && |after.log| == |db.log| + 1) &&
            (accepted ==> ReviewKey(owner, word) in after.reviews && Storable(after.reviews[ReviewKey(owner, word)]))
  {
  }

  /**
   * What an action means: a refused one leaves every table, one that changes nothing leaves log and rows, and any other
   * adds one event of the owner written for. What is reported as done is what the owner's row then shows, and every
   * projection stays in agreement with the log.
   */
  ghost predicate SavedOrLeft(db: Db, after: Db, outcome: Outcome, viewer: Viewer, target: Target, now: int, id: nat) {
    (!outcome.Done? ==> after == db) && (after.log == db.log ==> after.rows == db.rows) &&
    after.bindings == db.bindings && after.reviews == db.reviews && after.attempts == db.attempts &&
    (after.log != db.log ==>
       |after.log| == |db.log| + 1 && after.log[..|db.log|] == db.log &&
       after.log[|db.log|].owner == WriteOwner(db, viewer) && after.log[|db.log|].target == target) &&
    (Consistent(db) && Fresh(db.log, now, id) ==>
       Consistent(after) && (outcome.Done? ==> CurrentState(after, WriteOwner(db, viewer), target) == outcome.state))
  }

  lemma SavesOrLeaves(db: Db, viewer: Viewer, target: Target, found: bool, action: Action, now: int, id: nat)
    ensures var (after, outcome) := ApplySave(db, viewer, target, found, action, now, id);
            SavedOrLeft(db, after, outcome, viewer, target, now, id)
  {
    if Consistent(db) && Fresh(db.log, now, id) {
      SaveKeepsConsistency(db, viewer, target, found, action, now, id);
      SaveShows(db, viewer, target, found, action, now, id);
    }
  }

  /** The state reported is the state stored. */
  lemma SaveShows(db: Db, viewer: Viewer, target: Target, found: bool, action: Action, now: int, id: nat)
    requires Consistent(db) && Fresh(db.log, now, id)
    ensures var (after, outcome) := ApplySave(db, viewer, target, found, action, now, id);
            outcome.Done? ==> CurrentState(after, WriteOwner(db, viewer), target) == outcome.state
  {
    var (after, outcome) := ApplySave(db, viewer, target, found, action, now, id);
    if after.log != db.log {
      FreshEventWins(db, WriteOwner(db, viewer), target, Row(outcome.state, id), now);
    }
  }

  class Store {
    var log: seq<Event>
    var bindings: map<AnonymousId, UserId>
    var profiles: set<AnonymousId>
    var rows: map<RowKey, Row>
    var reviews: map<ReviewKey, Schedule>
    var attempts: map<Turn, Rating>

    ghost function Tables(): Db
      reads this
    {
      Db(log, bindings, profiles, rows, reviews, attempts)
    }

    constructor ()
      ensures Tables() == EMPTY
    {
      log, bindings, profiles, rows, reviews, attempts := [], map[], {}, map[], map[], map[];
    }

    /** Write what each entry wants; an unexplained one wants nothing. */
    method RepairEntries(owner: Owner, entries: seq<Drift>) returns (repaired: nat)
      requires forall d :: d in entries ==> d in DriftOf(Tables(), owner)
      modifies this`rows
      ensures RepairedSoFar(old(Tables()), owner, DeriveExpected(StateListing(old(Tables()), owner)), Settled(entries), rows)
      ensures repaired == Repairs(entries)
    {
      ghost var before := Tables();
      ghost var expected := DeriveExpected(StateListing(before, owner));
      repaired := 0;
      assert Settled(entries[..0]) == {};
      for i := 0 to |entries|
        invariant repaired == Repairs(entries[..i])
        invariant RepairedSoFar(before, owner, expected, Settled(entries[..i]), rows)
      {
        SettledAppends(entries, i);
        assert entries[..i + 1][..i] == entries[..i];
        if entries[i].Unexplained? {
          continue;
        }
        EntryWants(before, owner, entries[i]);
        ghost var earlier := rows;
        rows := rows[RowKey(owner, entries[i].target) := entries[i].want];
        OneMoreRepair(before, owner, expected, Settled(entries[..i]), earlier, entries[i].target);
        repaired := repaired + 1;
      }
      assert entries[..|entries|] == entries;
    }

    /** Compare the rows with the log, and set every row that differs; a row without an event behind it stays. */
    method RecomputeOwnerStates(owner: Owner) returns (entries: seq<Drift>, repaired: nat)
      modifies this`rows
      ensures Tables() == Repaired(old(Tables()), owner)
      ensures forall d :: d in entries <==> d in DriftOf(old(Tables()), owner)
      ensures repaired == Repairs(entries)
    {
      ghost var before := Tables();
      var db := Db(log, bindings, profiles, rows, reviews, attempts);
      var expected := DeriveExpectedStates(StateListing(db, owner));
      entries := DiffStates(expected, LiveRows(db, owner));
      repaired := RepairEntries(owner, entries);
      RepairDone(before, owner, expected, entries, rows);
    }

    /** The owner query: each owner once, in whatever order the database gives them. */
    method ListReconciliationOwners() returns (owners: seq<Owner>)
      ensures forall o :: o in owners <==> o in ListedOwners(Tables())
      ensures forall i, j :: 0 <= i < j < |owners| ==> owners[i] != owners[j]
    {
      owners := [];
      var left := ListedOwners(Db(log, bindings, profiles, rows, reviews, attempts));
      while left != {}
        invariant left <= ListedOwners(Tables())
        invariant forall o :: o in owners <==> o in ListedOwners(Tables()) && o !in left
        invariant forall i, j :: 0 <= i < j < |owners| ==> owners[i] != owners[j]
      {
        var owner :| owner in left;
        owners := owners + [owner];
        left := left - {owner};
      }
    }

    /** One owner of the job: repaired, or only compared. */
    method ReconcileOwner(owner: Owner, apply: bool) returns (entries: seq<Drift>, repaired: nat)
      modifies this`rows
      ensures Tables() == if apply then Repaired(old(Tables()), owner) else old(Tables())
      ensures forall d :: d in entries <==> d in DriftOf(old(Tables()), owner)
      ensures repaired == if apply then Repairs(entries) else 0
    {
      if apply {
        entries, repaired := RecomputeOwnerStates(owner);
      } else {
        var db := Db(log, bindings, profiles, rows, reviews, attempts);
        var expected := DeriveExpectedStates(StateListing(db, owner));
        entries := DiffStates(expected, LiveRows(db, owner));
        repaired := 0;
      }
    }

    /** One turn of the job's loop: an owner not yet done, added to the report. */
    method ReconcileNext(owner: Owner, apply: bool, report: Report, ghost start: Db, ghost done: set<Owner>)
        returns (more: Report)
      requires Reconciled(start, done, apply, Tables(), report) && owner !in done
      modifies this`rows
      ensures Reconciled(start, done + {owner}, apply, Tables(), more)
    {
      ghost var current := Tables();
      var entries, count := ReconcileOwner(owner, apply);
      var pairs := WithOwner(owner, entries);
      more := Report(report.drift + pairs, report.repaired + count);
      OwnerReconciled(start, done, apply, current, report, owner, entries, pairs, count);
    }

    /**
     * The job: every listed owner in turn, its own transaction each. Both modes report the whole drift; a repairing run
     * leaves, for every owner there is, only what no event explains, and counts what it wrote.
     */
    method ReconcileSaveState(apply: bool) returns (report: Report)
      modifies this`rows
      ensures Tables() == old(Tables()).(rows := rows) && (!apply ==> rows == old(rows))
      ensures forall o, d :: (o, d) in report.drift <==> d in DriftsOf(old(Tables()))(o)
      ensures apply ==> forall o :: DriftsOf(Tables())(o) == UnexplainedIn(DriftsOf(old(Tables()))(o))
      ensures Counted(report, apply)
    {
      ghost var start := Tables();
      var owners := ListReconciliationOwners();
      report := Report([], 0);
      for i := 0 to |owners|
        invariant Reconciled(start, FirstOf(owners, i), apply, Tables(), report)
      {
        OneMoreOf(owners, i);
        report := ReconcileNext(owners[i], apply, report, start, FirstOf(owners, i));
      }
      EveryOwnerDone(start, owners, apply, Tables(), report);
    }

    /** The statements of the transaction, undone on conflict. */
    method SaveTransaction(viewer: Viewer, target: Target, targetExists: bool, action: Action, now: int, id: nat)
      returns (outcome: Outcome)
      modifies this
      ensures (Tables(), outcome) == ApplySave(old(Tables()), viewer, target, targetExists, action, now, id)
    {
      if !targetExists {
        return NotFound;
      }
      var owner: Owner;
      var touched := profiles;
      if viewer.userId.Some? {
        owner := User(viewer.userId.value);
      } else {
        profiles := profiles + {viewer.anonymousId};
        owner := if viewer.anonymousId in bindings then User(bindings[viewer.anonymousId]) else Anonymous(viewer.anonymousId);
      }
      var key := RowKey(owner, target);
      var current := if key in rows then rows[key].state else Unsaved;
      match Decide(current, action)
      case Refused =>
        profiles := touched;
        return Conflict;
      case NoChange =>
        return Done(current);
      case Write(kind, next) =>
        log := log + [Event(id, owner, target, kind, now)];
        if key !in rows || id > rows[key].lastEventId {
          rows := rows[key := Row(next, id)];
        }
        return Done(next);
    }

    /**
     * Save, unsave or tag: the event and its projection together, or neither. Whatever is reported as done is the state
     * the owner's row then shows, and every projection stays in agreement with the log.
     */
    method ApplySaveAction(viewer: Viewer, target: Target, targetExists: bool, action: Action, now: int, id: nat)
      returns (outcome: Outcome)
      modifies this
      ensures (Tables(), outcome) == ApplySave(old(Tables()), viewer, target, targetExists, action, now, id)
      ensures SavedOrLeft(old(Tables()), Tables(), outcome, viewer, target, now, id)
    {
      SavesOrLeaves(Tables(), viewer, target, targetExists, action, now, id);
      outcome := SaveTransaction(viewer, target, targetExists, action, now, id);
    }

    /** Replay the account's answers and write each word's state; false when some state does not fit its columns. */
    method RecomputeAccountSm2States(user: UserId) returns (ok: bool)
      modifies this`reviews
      ensures ok <==> RebuildFits(old(Tables()), user)
      ensures ok ==> Tables() == Rebuilt(old(Tables()), user)
      ensures !ok ==> Tables() == old(Tables())
    {
      ghost var before := Tables();
      var events := PracticeListing(Db(log, bindings, profiles, rows, reviews, attempts), user);
      var byWord := ReplayEvents(events);
      var written;
      ok, written := WriteStates(reviews, user, byWord);
      if ok {
        SameLookups(written, Rebuilt(before, user).reviews);
        reviews := written;
      }
    }

    /** Bind a carried identity once and rebuild both derivations; any failure undoes the binding too. */
    method MergeAnonymousIdentity(user: UserId, carried: Option<AnonymousId>) returns (linked: bool, retire: bool)
      modifies this
      ensures Tables() == ApplyLink(old(Tables()), user, carried)
      ensures retire <==> carried.Some? && carried.value in old(profiles) && carried.value in bindings
      ensures linked ==> carried.Some? && carried.value !in old(bindings) && Lookup(bindings, carried.value) == Some(user)
    {
      if carried.None? || carried.value !in profiles {
        return false, false;
      }
      if carried.value in bindings {
        return false, true;
      }
      var boundBefore, rowsBefore := bindings, rows;
      bindings := bindings[carried.value := user];
      var entries, count := RecomputeOwnerStates(User(user));
      assert PracticeListing(Tables(), user) == PracticeListing(Bound(old(Tables()), user, carried.value), user);
      var ok := RecomputeAccountSm2States(user);
      if !ok {
        bindings, rows := boundBefore, rowsBefore;
        return false, false;
      }
      return true, true;
    }

    /**
     * One answered turn: attempt, event and schedule together, or nothing at all. A turn is accepted once, and what is
     * accepted keeps every projection in agreement with the log.
     */
    method RecordAnswer(owner: Owner, turn: Turn, word: WordId, rating: Rating, now: int, id: nat) returns (accepted: bool)
      modifies this
      ensures (Tables(), accepted) == ApplyAnswer(old(Tables()), owner, turn, word, rating, now, id)
      ensures turn in old(attempts) ==> !accepted
      ensures !accepted ==> Tables() == old(Tables())
      ensures accepted ==> attempts.Keys == old(attempts).Keys + {turn} && |log| == |old(log)| + 1
      ensures accepted ==> ReviewKey(owner, word) in reviews && Storable(reviews[ReviewKey(owner, word)])
      ensures Consistent(old(Tables())) && Fresh(old(log), now, id) && IsResolved(old(bindings), owner) ==> Consistent(Tables())
    {
      ghost var db := Tables();
      RecordedOnce(db, owner, turn, word, rating, now, id);
      if Consistent(db) && Fresh(log, now, id) && IsResolved(bindings, owner) {
        AnswerKeepsConsistency(db, owner, turn, word, rating, now, id);
      }
      if turn in attempts {
        return false;
      }
      var key := ReviewKey(owner, word);
      var before := if key in reviews then reviews[key].state else INITIAL;
      var after := Schedule(Review(before, QualityOf(rating)), now);
      if !Storable(after) {
        return false;
      }
      attempts := attempts[turn := rating];
      log := log + [Event(id, owner, Target(Word, word), PracticeAttempt(QualityOf(rating)), now)];
      reviews := reviews[key := after];
      return true;
    }
  }

  /** The targets whose entries call for a repair. */
  ghost function Settled(entries: seq<Drift>): set<Target> {
    set d | d in entries && !d.Unexplained? :: d.target
  }

  lemma SettledAppends(entries: seq<Drift>, i: nat)
    requires i < |entries|
    ensures Settled(entries[..i + 1]) == Settled(entries[..i]) + if entries[i].Unexplained? then {} else {entries[i].target}
  {
    assert entries[..i + 1] == entries[..i] + [entries[i]];
  }

  lemma EntryWants(db: Db, owner: Owner, entry: Drift)
    requires entry in DriftOf(db, owner) && !entry.Unexplained?
    ensures var expected := DeriveExpected(StateListing(db, owner));
            entry.target in expected && entry.want == expected[entry.target]
  {
  }

  ghost predicate RepairedSoFar(before: Db, owner: Owner, expected: map<Target, Row>, settled: set<Target>, rows: map<RowKey, Row>) {
    forall k :: Lookup(rows, k) ==
      (if k.owner == owner && k.target in expected && k.target in settled then Some(expected[k.target])
       else Lookup(before.rows, k))
  }

  lemma OneMoreRepair(before: Db, owner: Owner, expected: map<Target, Row>, settled: set<Target>,
                      rows: map<RowKey, Row>, target: Target)
    requires RepairedSoFar(before, owner, expected, settled, rows) && target in expected
    ensures RepairedSoFar(before, owner, expected, settled + {target}, rows[RowKey(owner, target) := expected[target]])
  {
    forall k
      ensures Lookup(rows[RowKey(owner, target) := expected[target]], k) ==
              (if k.owner == owner && k.target in expected && k.target in settled + {target} then Some(expected[k.target])
               else Lookup(before.rows, k))
    {
      assert Lookup(rows, k) == (if k.owner == owner && k.target in expected && k.target in settled then Some(expected[k.target])
                                 else Lookup(before.rows, k));
    }
  }

  lemma RepairDone(before: Db, owner: Owner, expected: map<Target, Row>, entries: seq<Drift>, rows: map<RowKey, Row>)
    requires expected == DeriveExpected(StateListing(before, owner))
    requires forall d :: d in entries <==> d in DriftOf(before, owner)
    requires RepairedSoFar(before, owner, expected, Settled(entries), rows)
    ensures rows == Repaired(before, owner).rows
  {
    forall k ensures Lookup(rows, k) == Lookup(Repaired(before, owner).rows, k) {
      RepairedRow(before, owner, k.owner, k.target);
      if k.owner == owner && k.target in expected && k.target !in Settled(entries) {
        UnsettledIsRight(before, owner, entries, k.target);
      }
    }
    SameLookups(rows, Repaired(before, owner).rows);
  }

  /** A row that is absent, or not what the log asks for, is listed as drift. */
  lemma DriftIsListed(db: Db, owner: Owner, target: Target)
    requires target in DeriveExpected(StateListing(db, owner))
    ensures var want := DeriveExpected(StateListing(db, owner))[target];
            match Lookup(db.rows, RowKey(owner, target))
            case None => Missing(target, want) in DriftOf(db, owner)
            case Some(have) => have == want || Mismatch(target, want, have) in DriftOf(db, owner)
  {
    assert Lookup(LiveRows(db, owner), target) == Lookup(db.rows, RowKey(owner, target));
  }

  /** A target no entry repairs already holds the row the log asks for. */
  lemma UnsettledIsRight(before: Db, owner: Owner, entries: seq<Drift>, target: Target)
    requires forall d :: d in entries <==> d in DriftOf(before, owner)
    requires var expected := DeriveExpected(StateListing(before, owner)); target in expected && target !in Settled(entries)
    ensures Lookup(before.rows, RowKey(owner, target)) == Some(DeriveExpected(StateListing(before, owner))[target])
  {
    DriftIsListed(before, owner, target);
    assert forall d :: d in entries && !d.Unexplained? ==> d.target in Settled(entries);
  }
}
