/** The derived rows agree with the log in every reachable state, across merges and repairs. */
module ProgressLaws {
  import opened Wrappers
  import opened Sorting
  import opened Sm2
  import opened Progress

  // Reference definitions, straight off the log

  /** The row the latest qualifying event of the log asks for. */
  function Latest(log: seq<Event>, bindings: map<AnonymousId, UserId>, owner: Owner, target: Target): Option<Row> {
    if log == [] then None
    else
      var e := log[|log| - 1];
      if IsStateEvent(e.kind) && Belongs(bindings, e, owner) && e.target == target then Some(Row(StateOf(e.kind), e.id))
      else Latest(log[..|log| - 1], bindings, owner, target)
  }

  predicate IsAnswer(bindings: map<AnonymousId, UserId>, e: Event, owner: Owner, word: WordId) {
    e.kind.PracticeAttempt? && e.target == Target(Word, word) && Belongs(bindings, e, owner)
  }

  /** The answers an owner gave one word, in order. */
  function Answers(log: seq<Event>, bindings: map<AnonymousId, UserId>, owner: Owner, word: WordId): seq<Answer> {
    if log == [] then []
    else
      var e := log[|log| - 1];
      Answers(log[..|log| - 1], bindings, owner, word) +
        if IsAnswer(bindings, e, owner, word) then [Answer(e.kind.quality, e.at)] else []
  }

  ghost predicate LogOrdered(log: seq<Event>) {
    forall i, j :: 0 <= i < j < |log| ==> log[i].id < log[j].id && log[i].at <= log[j].at
  }

  ghost predicate RowsCurrent(db: Db, owner: Owner) {
    forall t :: Lookup(db.rows, RowKey(owner, t)) == Latest(db.log, db.bindings, owner, t)
  }

  ghost predicate ReviewsCurrent(db: Db, owner: Owner) {
    forall w :: Lookup(db.reviews, ReviewKey(owner, w)) == Scheduled(Answers(db.log, db.bindings, owner, w))
  }

  ghost predicate Consistent(db: Db) {
    LogOrdered(db.log) &&
    forall owner :: IsResolved(db.bindings, owner) ==> RowsCurrent(db, owner) && ReviewsCurrent(db, owner)
  }

  // Replaying a sorted listing is reading the log

  lemma EventLeIsTotal()
    ensures TotalPreorder(EventLe)
  {
  }

  lemma {:induction false} PickedInOrder(log: seq<Event>, p: Event -> bool, target: Target)
    requires LogOrdered(log) && forall e :: p(e) ==> e.target == target
    ensures Sorted(EventLe, Filter(p, log)) && Separates(EventLe, Filter(p, log))
  {
    FilterMembers(p, log);
    forall e, f | e in Filter(p, log) && f in Filter(p, log) && EventLe(e, f) && EventLe(f, e)
      ensures e == f
    {
      var i, j :| 0 <= i < |log| && 0 <= j < |log| && log[i] == e && log[j] == f;
    }
    PickedSorted(log, p, target);
  }

  lemma {:induction false} PickedSorted(log: seq<Event>, p: Event -> bool, target: Target)
    requires LogOrdered(log) && forall e :: p(e) ==> e.target == target
    ensures Sorted(EventLe, Filter(p, log))
  {
    if log != [] {
      var init, last := log[..|log| - 1], log[|log| - 1];
      PickedSorted(init, p, target);
      FilterMembers(p, init);
      if p(last) {
        forall e | e in Filter(p, init) ensures EventLe(e, last) {
          var i :| 0 <= i < |init| && init[i] == e;
          assert log[i] == e;
        }
      }
    }
  }

  function About(target: Target): Event -> bool {
    (e: Event) => e.target == target
  }

  function Both(p: Event -> bool, target: Target): Event -> bool {
    (e: Event) => p(e) && e.target == target
  }

  /** What a sorted listing holds for one target is what the log holds for it, in the log's order. */
  lemma ListingByTarget(log: seq<Event>, p: Event -> bool, target: Target)
    requires LogOrdered(log)
    ensures Filter(About(target), Sort(EventLe, Filter(p, log))) == Filter(Both(p, target), log)
  {
    FilterTwice(p, About(target), Both(p, target), log);
    PickedInOrder(log, Both(p, target), target);
    EventLeIsTotal();
    SortedThenFiltered(EventLe, About(target), Filter(p, log));
  }

  lemma ListingMembers(log: seq<Event>, p: Event -> bool)
    ensures forall i :: 0 <= i < |Sort(EventLe, Filter(p, log))| ==> p(Sort(EventLe, Filter(p, log))[i])
  {
    EventLeIsTotal();
    SortSorts(EventLe, Filter(p, log));
    FilterMembers(p, log);
    var sorted := Sort(EventLe, Filter(p, log));
    forall i | 0 <= i < |sorted| ensures p(sorted[i]) {
      assert sorted[i] in multiset(Filter(p, log));
    }
  }

  function LastRow(events: seq<Event>): Option<Row> {
    if events == [] || !IsStateEvent(events[|events| - 1].kind) then None
    else Some(Row(StateOf(events[|events| - 1].kind), events[|events| - 1].id))
  }

  /** For one target, what a listing derives depends only on the listing's events for that target. */
  lemma {:induction false} DerivedFromTarget(events: seq<Event>, target: Target)
    requires forall i :: 0 <= i < |events| ==> IsStateEvent(events[i].kind)
    ensures Lookup(DeriveExpected(events), target) == LastRow(Filter(About(target), events))
  {
    if events != [] {
      DerivedFromTarget(events[..|events| - 1], target);
    }
  }

  lemma {:induction false} LatestIsLastPicked(log: seq<Event>, bindings: map<AnonymousId, UserId>, owner: Owner, target: Target)
    ensures Latest(log, bindings, owner, target) == LastRow(Filter(Both(StateEvents(bindings, owner), target), log))
  {
    if log != [] {
      LatestIsLastPicked(log[..|log| - 1], bindings, owner, target);
    }
  }

  /** Reconciliation's replay of the sorted listing reads off exactly the latest event of every target. */
  lemma DerivedIsLatest(db: Db, owner: Owner, target: Target)
    requires LogOrdered(db.log)
    ensures Lookup(DeriveExpected(StateListing(db, owner)), target) == Latest(db.log, db.bindings, owner, target)
  {
    var p := StateEvents(db.bindings, owner);
    ListingByTarget(db.log, p, target);
    ListingMembers(db.log, p);
    DerivedFromTarget(StateListing(db, owner), target);
    LatestIsLastPicked(db.log, db.bindings, owner, target);
  }

  lemma {:induction false} ReplayedFromTarget(events: seq<Event>, word: WordId)
    requires forall i :: 0 <= i < |events| ==> events[i].kind.PracticeAttempt? && events[i].target.kind.Word?
    ensures Lookup(ReplayAll(events), word) == Scheduled(AnswersIn(Filter(About(Target(Word, word)), events)))
  {
    if events != [] {
      var init, e := events[..|events| - 1], events[|events| - 1];
      ReplayedFromTarget(init, word);
      var own := Filter(About(Target(Word, word)), init);
      if e.target.id == word {
        assert e.target == Target(Word, word);
        assert (own + [e])[..|own|] == own;
        ScheduledAppends(AnswersIn(own), Answer(e.kind.quality, e.at));
      } else {
        NothingAdded(own);
      }
    }
  }

  function AnswersIn(events: seq<Event>): seq<Answer> {
    if events == [] then []
    else
      var e := events[|events| - 1];
      AnswersIn(events[..|events| - 1]) + if e.kind.PracticeAttempt? then [Answer(e.kind.quality, e.at)] else []
  }

  lemma {:induction false} AnswersArePicked(log: seq<Event>, bindings: map<AnonymousId, UserId>, owner: Owner, word: WordId)
    ensures Answers(log, bindings, owner, word) ==
            AnswersIn(Filter(Both(PracticeEvents(bindings, owner), Target(Word, word)), log))
  {
    if log != [] {
      var init, e := log[..|log| - 1], log[|log| - 1];
      AnswersArePicked(init, bindings, owner, word);
      var own := Filter(Both(PracticeEvents(bindings, owner), Target(Word, word)), init);
      assert (own + [e])[..|own|] == own;
      NothingAdded(own);
      NothingAdded(Answers(init, bindings, owner, word));
    }
  }

  /** The merge's replay of the sorted listing schedules every word as its answers, in order, would. */
  lemma ReplayIsSchedule(db: Db, user: UserId, word: WordId)
    requires LogOrdered(db.log)
    ensures Lookup(ReplayAll(PracticeListing(db, user)), word) == Scheduled(Answers(db.log, db.bindings, User(user), word))
  {
    var p := PracticeEvents(db.bindings, User(user));
    ListingByTarget(db.log, p, Target(Word, word));
    ListingMembers(db.log, p);
    ReplayedFromTarget(PracticeListing(db, user), word);
    AnswersArePicked(db.log, db.bindings, User(user), word);
  }

  // One appended event

  lemma LatestAppends(log: seq<Event>, bindings: map<AnonymousId, UserId>, owner: Owner, target: Target, e: Event)
    ensures Latest(log + [e], bindings, owner, target) ==
            if IsStateEvent(e.kind) && Belongs(bindings, e, owner) && e.target == target then Some(Row(StateOf(e.kind), e.id))
            else Latest(log, bindings, owner, target)
  {
    assert (log + [e])[..|log|] == log;
  }

  lemma AnswersAppend(log: seq<Event>, bindings: map<AnonymousId, UserId>, owner: Owner, word: WordId, e: Event)
    ensures Answers(log + [e], bindings, owner, word) ==
            Answers(log, bindings, owner, word) +
              if IsAnswer(bindings, e, owner, word) then [Answer(e.kind.quality, e.at)] else []
  {
    assert (log + [e])[..|log|] == log;
  }

  lemma {:induction false} LatestComesFromLog(log: seq<Event>, bindings: map<AnonymousId, UserId>, owner: Owner, target: Target)
    requires Latest(log, bindings, owner, target).Some?
    ensures exists i :: 0 <= i < |log| && log[i].id == Latest(log, bindings, owner, target).value.lastEventId
  {
    var n := |log| - 1;
    var init, e := log[..n], log[n];
    if !(IsStateEvent(e.kind) && Belongs(bindings, e, owner) && e.target == target) {
      LatestComesFromLog(init, bindings, owner, target);
      var i :| 0 <= i < |init| && init[i].id == Latest(init, bindings, owner, target).value.lastEventId;
      assert log[i] == init[i];
    } else {
      assert log[n].id == Latest(log, bindings, owner, target).value.lastEventId;
    }
  }

  /** A fresh event always wins the forward-only upsert. */
  lemma FreshEventWins(db: Db, owner: Owner, target: Target, row: Row, now: int)
    requires RowsCurrent(db, owner) && Fresh(db.log, now, row.lastEventId)
    ensures Upsert(db.rows, RowKey(owner, target), row) == db.rows[RowKey(owner, target) := row]
  {
    if RowKey(owner, target) in db.rows {
      assert Lookup(db.rows, RowKey(owner, target)) == Latest(db.log, db.bindings, owner, target);
      LatestComesFromLog(db.log, db.bindings, owner, target);
    }
  }

  lemma OrderedAppends(log: seq<Event>, e: Event)
    requires LogOrdered(log) && Fresh(log, e.at, e.id)
    ensures LogOrdered(log + [e])
  {
  }

  lemma SaveKeepsConsistency(db: Db, viewer: Viewer, target: Target, found: bool, action: Action, now: int, id: nat)
    requires Consistent(db) && Fresh(db.log, now, id)
    ensures Consistent(ApplySave(db, viewer, target, found, action, now, id).0)
  {
    var owner := WriteOwner(db, viewer);
    var after := ApplySave(db, viewer, target, found, action, now, id).0;
    if after.log != db.log {
      var decision := Decide(CurrentState(db, owner, target), action);
      var e := Event(id, owner, target, decision.kind, now);
      assert after.log == db.log + [e];
      FreshEventWins(db, owner, target, Row(decision.next, id), now);
      OrderedAppends(db.log, e);
      forall o | IsResolved(db.bindings, o) ensures RowsCurrent(after, o) && ReviewsCurrent(after, o) {
        SavedRows(db, after, e, o);
        ReviewsUntouched(db, after, o, e);
      }
    } else {
      SameTables(db, after);
    }
  }

  /** The written target's row follows the new event; no other row moves. */
  lemma SavedRows(db: Db, after: Db, e: Event, o: Owner)
    requires RowsCurrent(db, o) && IsResolved(db.bindings, o) && IsResolved(db.bindings, e.owner)
    requires IsStateEvent(e.kind) && after.log == db.log + [e] && after.bindings == db.bindings
    requires after.rows == db.rows[RowKey(e.owner, e.target) := Row(StateOf(e.kind), e.id)]
    ensures RowsCurrent(after, o)
  {
    forall t ensures Lookup(after.rows, RowKey(o, t)) == Latest(after.log, after.bindings, o, t) {
      LatestAppends(db.log, db.bindings, o, t, e);
      assert Lookup(db.rows, RowKey(o, t)) == Latest(db.log, db.bindings, o, t);
    }
  }

  lemma SameTables(db: Db, after: Db)
    requires Consistent(db) && after.log == db.log && after.bindings == db.bindings
    requires after.rows == db.rows && after.reviews == db.reviews
    ensures Consistent(after)
  {
    forall o | IsResolved(db.bindings, o) ensures RowsCurrent(after, o) && ReviewsCurrent(after, o) {
      assert RowsCurrent(db, o) && ReviewsCurrent(db, o);
    }
  }

  lemma ReviewsUntouched(db: Db, after: Db, owner: Owner, e: Event)
    requires ReviewsCurrent(db, owner) && after.reviews == db.reviews && after.bindings == db.bindings
    requires after.log == db.log + [e] && !e.kind.PracticeAttempt?
    ensures ReviewsCurrent(after, owner)
  {
    forall w ensures Lookup(after.reviews, ReviewKey(owner, w)) == Scheduled(Answers(after.log, after.bindings, owner, w)) {
      AnswersAppend(db.log, db.bindings, owner, w, e);
      NothingAdded(Answers(db.log, db.bindings, owner, w));
      assert Lookup(db.reviews, ReviewKey(owner, w)) == Scheduled(Answers(db.log, db.bindings, owner, w));
    }
  }

  lemma RowsUntouched(db: Db, after: Db, owner: Owner, e: Event)
    requires RowsCurrent(db, owner) && after.rows == db.rows && after.bindings == db.bindings
    requires after.log == db.log + [e] && !IsStateEvent(e.kind)
    ensures RowsCurrent(after, owner)
  {
    forall t ensures Lookup(after.rows, RowKey(owner, t)) == Latest(after.log, after.bindings, owner, t) {
      LatestAppends(db.log, db.bindings, owner, t, e);
      assert Lookup(db.rows, RowKey(owner, t)) == Latest(db.log, db.bindings, owner, t);
    }
  }

  lemma PassiveKeepsConsistency(db: Db, e: Event)
    requires Consistent(db) && Fresh(db.log, e.at, e.id) && !IsStateEvent(e.kind) && !e.kind.PracticeAttempt?
    ensures Consistent(db.(log := db.log + [e]))
  {
    var after := db.(log := db.log + [e]);
    OrderedAppends(db.log, e);
    forall o | IsResolved(db.bindings, o) ensures RowsCurrent(after, o) && ReviewsCurrent(after, o) {
      RowsUntouched(db, after, o, e);
      ReviewsUntouched(db, after, o, e);
    }
  }

  lemma AnswerKeepsConsistency(db: Db, owner: Owner, turn: Turn, word: WordId, rating: Rating, now: int, id: nat)
    requires Consistent(db) && Fresh(db.log, now, id) && IsResolved(db.bindings, owner)
    ensures Consistent(ApplyAnswer(db, owner, turn, word, rating, now, id).0)
  {
    var (after, accepted) := ApplyAnswer(db, owner, turn, word, rating, now, id);
    if accepted {
      var e := Event(id, owner, Target(Word, word), PracticeAttempt(QualityOf(rating)), now);
      OrderedAppends(db.log, e);
      forall o | IsResolved(db.bindings, o) ensures RowsCurrent(after, o) && ReviewsCurrent(after, o) {
        RowsUntouched(db, after, o, e);
        AnsweredReviews(db, after, owner, word, QualityOf(rating), e, o);
      }
    }
  }

  /** The answered word's schedule is extended by one review; no other is touched. */
  lemma AnsweredReviews(db: Db, after: Db, owner: Owner, word: WordId, q: Quality, e: Event, o: Owner)
    requires ReviewsCurrent(db, o) && IsResolved(db.bindings, owner) && IsResolved(db.bindings, o)
    requires e.owner == owner && e.target == Target(Word, word) && e.kind == PracticeAttempt(q)
    requires after.log == db.log + [e] && after.bindings == db.bindings
    requires var key := ReviewKey(owner, word);
             after.reviews == db.reviews[key := Reviewed(Lookup(db.reviews, key), Answer(q, e.at))]
    ensures ReviewsCurrent(after, o)
  {
    forall w ensures Lookup(after.reviews, ReviewKey(o, w)) == Scheduled(Answers(after.log, after.bindings, o, w)) {
      AnswersExtended(db.log, db.bindings, owner, word, q, e, o, w);
      var answers := Answers(db.log, db.bindings, o, w);
      if ReviewKey(o, w) == ReviewKey(owner, word) {
        ScheduledAppends(answers, Answer(q, e.at));
      }
    }
  }

  lemma AnswersExtended(log: seq<Event>, bindings: map<AnonymousId, UserId>, owner: Owner, word: WordId, q: Quality, e: Event,
                        o: Owner, w: WordId)
    requires IsResolved(bindings, owner) && IsResolved(bindings, o)
    requires e.owner == owner && e.target == Target(Word, word) && e.kind == PracticeAttempt(q)
    ensures Answers(log + [e], bindings, o, w) ==
            if ReviewKey(o, w) == ReviewKey(owner, word) then Answers(log, bindings, o, w) + [Answer(q, e.at)]
            else Answers(log, bindings, o, w)
  {
    AnswersAppend(log, bindings, o, w, e);
    NothingAdded(Answers(log, bindings, o, w));
  }

  // Binding an identity

  lemma {:induction false} LatestUnderBindings(log: seq<Event>, b: map<AnonymousId, UserId>, b': map<AnonymousId, UserId>,
                                                owner: Owner, target: Target)
    requires forall i :: 0 <= i < |log| ==> Belongs(b, log[i], owner) ==> Belongs(b', log[i], owner)
    ensures Latest(log, b, owner, target).Some? ==> Latest(log, b', owner, target).Some?
    ensures (forall i :: 0 <= i < |log| ==> Belongs(b', log[i], owner) ==> Belongs(b, log[i], owner)) ==>
            Latest(log, b', owner, target) == Latest(log, b, owner, target)
  {
    if log != [] {
      LatestUnderBindings(log[..|log| - 1], b, b', owner, target);
    }
  }

  lemma {:induction false} AnswersUnderBindings(log: seq<Event>, b: map<AnonymousId, UserId>, b': map<AnonymousId, UserId>,
                                                 owner: Owner, word: WordId)
    requires forall i :: 0 <= i < |log| ==> Belongs(b, log[i], owner) ==> Belongs(b', log[i], owner)
    ensures Answers(log, b, owner, word) != [] ==> Answers(log, b', owner, word) != []
    ensures (forall i :: 0 <= i < |log| ==> Belongs(b', log[i], owner) ==> Belongs(b, log[i], owner)) ==>
            Answers(log, b', owner, word) == Answers(log, b, owner, word)
  {
    if log != [] {
      AnswersUnderBindings(log[..|log| - 1], b, b', owner, word);
    }
  }

  /** Repairing an owner whose rows all have events behind them makes every row current. */
  lemma RepairMakesCurrent(db: Db, owner: Owner)
    requires LogOrdered(db.log)
    requires forall t :: RowKey(owner, t) in db.rows ==> Latest(db.log, db.bindings, owner, t).Some?
    ensures RowsCurrent(Repaired(db, owner), owner)
  {
    forall t ensures Lookup(Repaired(db, owner).rows, RowKey(owner, t)) == Latest(db.log, db.bindings, owner, t) {
      DerivedIsLatest(db, owner, t);
    }
  }

  lemma RebuildMakesCurrent(db: Db, user: UserId)
    requires LogOrdered(db.log)
    requires forall w :: ReviewKey(User(user), w) in db.reviews ==> Answers(db.log, db.bindings, User(user), w) != []
    ensures ReviewsCurrent(Rebuilt(db, user), User(user))
  {
    forall w
      ensures Lookup(Rebuilt(db, user).reviews, ReviewKey(User(user), w)) ==
              Scheduled(Answers(db.log, db.bindings, User(user), w))
    {
      ReplayIsSchedule(db, user, w);
    }
  }

  lemma LinkedAccountIsCurrent(db: Db, user: UserId, a: AnonymousId)
    requires Consistent(db) && a !in db.bindings
    ensures var after := Rebuilt(Repaired(Bound(db, user, a), User(user)), user);
            RowsCurrent(after, User(user)) && ReviewsCurrent(after, User(user))
  {
    var bound := Bound(db, user, a);
    var owner := User(user);
    assert RowsCurrent(db, owner) && ReviewsCurrent(db, owner);
    forall t | RowKey(owner, t) in bound.rows ensures Latest(bound.log, bound.bindings, owner, t).Some? {
      assert Lookup(db.rows, RowKey(owner, t)) == Latest(db.log, db.bindings, owner, t);
      LatestUnderBindings(db.log, db.bindings, bound.bindings, owner, t);
    }
    RepairMakesCurrent(bound, owner);
    var repaired := Repaired(bound, owner);
    forall w | ReviewKey(owner, w) in repaired.reviews ensures Answers(repaired.log, repaired.bindings, owner, w) != [] {
      assert Lookup(db.reviews, ReviewKey(owner, w)) == Scheduled(Answers(db.log, db.bindings, owner, w));
      AnswersUnderBindings(db.log, db.bindings, bound.bindings, owner, w);
    }
    RebuildMakesCurrent(repaired, user);
    assert RowsCurrent(Rebuilt(repaired, user), owner) by {
      forall t ensures Lookup(Rebuilt(repaired, user).rows, RowKey(owner, t)) == Latest(db.log, bound.bindings, owner, t) {
        assert Lookup(repaired.rows, RowKey(owner, t)) == Latest(repaired.log, repaired.bindings, owner, t);
      }
    }
  }

  lemma RepairedRow(db: Db, owner: Owner, o: Owner, target: Target)
    ensures var expected := DeriveExpected(StateListing(db, owner));
            Lookup(Repaired(db, owner).rows, RowKey(o, target)) ==
            if o == owner && target in expected then Some(expected[target]) else Lookup(db.rows, RowKey(o, target))
  {
  }

  lemma RebuiltReview(db: Db, user: UserId, o: Owner, word: WordId)
    ensures var states := ReplayAll(PracticeListing(db, user));
            Lookup(Rebuilt(db, user).reviews, ReviewKey(o, word)) ==
            if o == User(user) && word in states then Some(states[word]) else Lookup(db.reviews, ReviewKey(o, word))
  {
  }

  lemma OthersKeepTheirEvents(b: map<AnonymousId, UserId>, a: AnonymousId, user: UserId, owner: Owner, e: Event)
    requires a !in b && owner != User(user) && IsResolved(b[a := user], owner)
    ensures Belongs(b[a := user], e, owner) <==> Belongs(b, e, owner)
    ensures IsResolved(b, owner)
  {
  }

  lemma LinkLeavesOthersCurrent(db: Db, user: UserId, a: AnonymousId, owner: Owner)
    requires Consistent(db) && a !in db.bindings
    requires IsResolved(Bound(db, user, a).bindings, owner) && owner != User(user)
    ensures var after := Rebuilt(Repaired(Bound(db, user, a), User(user)), user);
            RowsCurrent(after, owner) && ReviewsCurrent(after, owner)
  {
    var bound := Bound(db, user, a);
    var repaired := Repaired(bound, User(user));
    var after := Rebuilt(repaired, user);
    forall e ensures (Belongs(bound.bindings, e, owner) <==> Belongs(db.bindings, e, owner)) && IsResolved(db.bindings, owner) {
      OthersKeepTheirEvents(db.bindings, a, user, owner, e);
    }
    OthersKeepTheirEvents(db.bindings, a, user, owner, Event(0, owner, Target(Word, 0), Save, 0));
    forall t ensures Lookup(after.rows, RowKey(owner, t)) == Lookup(db.rows, RowKey(owner, t)) {
      RepairedRow(bound, User(user), owner, t);
    }
    forall w ensures Lookup(after.reviews, ReviewKey(owner, w)) == Lookup(db.reviews, ReviewKey(owner, w)) {
      RebuiltReview(repaired, user, owner, w);
    }
    OthersStayCurrent(db, after, owner);
  }

  lemma OthersStayCurrent(db: Db, after: Db, owner: Owner)
    requires RowsCurrent(db, owner) && ReviewsCurrent(db, owner) && after.log == db.log
    requires forall e :: Belongs(after.bindings, e, owner) <==> Belongs(db.bindings, e, owner)
    requires forall t :: Lookup(after.rows, RowKey(owner, t)) == Lookup(db.rows, RowKey(owner, t))
    requires forall w :: Lookup(after.reviews, ReviewKey(owner, w)) == Lookup(db.reviews, ReviewKey(owner, w))
    ensures RowsCurrent(after, owner) && ReviewsCurrent(after, owner)
  {
    forall t ensures Lookup(after.rows, RowKey(owner, t)) == Latest(after.log, after.bindings, owner, t) {
      LatestUnderBindings(db.log, db.bindings, after.bindings, owner, t);
    }
    forall w ensures Lookup(after.reviews, ReviewKey(owner, w)) == Scheduled(Answers(after.log, after.bindings, owner, w)) {
      AnswersUnderBindings(db.log, db.bindings, after.bindings, owner, w);
    }
  }

  lemma LinkKeepsConsistency(db: Db, user: UserId, carried: Option<AnonymousId>)
    requires Consistent(db)
    ensures Consistent(ApplyLink(db, user, carried))
  {
    var after := ApplyLink(db, user, carried);
    if after != db {
      var a := carried.value;
      LinkedAccountIsCurrent(db, user, a);
      forall o | IsResolved(after.bindings, o) ensures RowsCurrent(after, o) && ReviewsCurrent(after, o) {
        if o != User(user) {
          LinkLeavesOthersCurrent(db, user, a, o);
        }
      }
    }
  }

  // Reconciliation

  /** In a consistent state reconciling any owner, resolved or retired, changes nothing. */
  lemma NothingToRepair(db: Db, owner: Owner)
    requires Consistent(db)
    ensures Repaired(db, owner) == db
  {
    var expected := DeriveExpected(StateListing(db, owner));
    forall t | t in expected ensures Lookup(db.rows, RowKey(owner, t)) == Some(expected[t]) {
      ExpectedIsHeld(db, owner, t);
    }
    OverrideIdle(db.rows, owner, expected);
  }

  lemma OverrideIdle(rows: map<RowKey, Row>, owner: Owner, expected: map<Target, Row>)
    requires forall t :: t in expected ==> Lookup(rows, RowKey(owner, t)) == Some(expected[t])
    ensures rows + (map t | t in expected :: RowKey(owner, t) := expected[t]) == rows
  {
  }

  lemma ExpectedIsHeld(db: Db, owner: Owner, target: Target)
    requires Consistent(db) && target in DeriveExpected(StateListing(db, owner))
    ensures Lookup(db.rows, RowKey(owner, target)) == Some(DeriveExpected(StateListing(db, owner))[target])
  {
    DerivedIsLatest(db, owner, target);
    BoundHasNoEvents(db, owner, target);
    assert RowsCurrent(db, owner);
    assert Lookup(db.rows, RowKey(owner, target)) == Latest(db.log, db.bindings, owner, target);
  }

  lemma {:induction false} BoundHasNoEvents(db: Db, owner: Owner, target: Target)
    ensures !IsResolved(db.bindings, owner) ==> Latest(db.log, db.bindings, owner, target).None?
    decreases |db.log|
  {
    if db.log != [] {
      BoundHasNoEvents(db.(log := db.log[..|db.log| - 1]), owner, target);
      BelongsIsResolution(db.bindings, db.log[|db.log| - 1], owner);
    }
  }

  /** From any rows at all, one repair leaves nothing missing or mismatched, and invents nothing. */
  lemma RepairConverges(db: Db, owner: Owner)
    ensures DriftOf(Repaired(db, owner), owner) == set d | d in DriftOf(db, owner) && d.Unexplained?
  {
    var expected := DeriveExpected(StateListing(db, owner));
    var live, repaired := LiveRows(db, owner), LiveRows(Repaired(db, owner), owner);
    assert StateListing(Repaired(db, owner), owner) == StateListing(db, owner);
    forall t ensures Lookup(repaired, t) == if t in expected then Some(expected[t]) else Lookup(live, t) {
      RepairedRow(db, owner, owner, t);
      assert Lookup(repaired, t) == Lookup(Repaired(db, owner).rows, RowKey(owner, t));
      assert Lookup(live, t) == Lookup(db.rows, RowKey(owner, t));
    }
    OnlyUnexplainedLeft(expected, live, repaired);
  }

  lemma OnlyUnexplainedLeft(expected: map<Target, Row>, live: map<Target, Row>, repaired: map<Target, Row>)
    requires forall t :: Lookup(repaired, t) == if t in expected then Some(expected[t]) else Lookup(live, t)
    ensures Diff(expected, repaired) == set d | d in Diff(expected, live) && d.Unexplained?
  {
    forall t
      ensures t in expected ==> t in repaired && repaired[t] == expected[t]
      ensures t !in expected ==> (t in repaired <==> t in live) && (t in live ==> repaired[t] == live[t])
    {
      assert Lookup(repaired, t) == if t in expected then Some(expected[t]) else Lookup(live, t);
    }
    var left := set t | t in repaired && t !in expected :: Unexplained(t, repaired[t]);
    var kept := set t | t in live && t !in expected :: Unexplained(t, live[t]);
    assert Diff(expected, repaired) == left;
    assert left == kept;
  }

  lemma OverrideTwice<K, V>(m: map<K, V>, n: map<K, V>)
    ensures (m + n) + n == m + n
  {
  }

  /** A second repair finds nothing to write. */
  lemma RepairIsIdempotent(db: Db, owner: Owner)
    ensures Repaired(Repaired(db, owner), owner) == Repaired(db, owner)
  {
    assert StateListing(Repaired(db, owner), owner) == StateListing(db, owner);
    OverrideTwice(db.rows, RowsOf(owner, DeriveExpected(StateListing(db, owner))));
  }

  // Every run

  lemma StepKeepsConsistency(db: Db, step: Step)
    requires Consistent(db) && Enabled(db, step)
    ensures Consistent(Next(db, step))
  {
    match step
    case SaveStep(viewer, target, found, action, now, id) => SaveKeepsConsistency(db, viewer, target, found, action, now, id);
    case PassiveStep(owner, target, kind, now, id) => PassiveKeepsConsistency(db, Event(id, owner, target, kind, now));
    case AnswerStep(owner, turn, word, rating, now, id) => AnswerKeepsConsistency(db, owner, turn, word, rating, now, id);
    case LinkStep(user, carried) => LinkKeepsConsistency(db, user, carried);
    case ReconcileStep(owner) => NothingToRepair(db, owner);
  }

  lemma {:induction false} RunKeepsConsistency(db: Db, run: seq<Step>)
    requires Consistent(db) && ValidRun(db, run)
    ensures Consistent(Exec(db, run))
    decreases |run|
  {
    if run != [] {
      StepKeepsConsistency(db, run[0]);
      RunKeepsConsistency(Next(db, run[0]), run[1..]);
    }
  }

  lemma EveryRunIsConsistent(run: seq<Step>)
    requires ValidRun(EMPTY, run)
    ensures Consistent(Exec(EMPTY, run))
  {
    assert Consistent(EMPTY);
    RunKeepsConsistency(EMPTY, run);
  }

  /**
   * In every reachable state reconciliation finds no drift for any resolved owner, and for a bound identity
   * reports exactly the rows it left behind, each as unexplained.
   */
  lemma NoDriftInAnyRun(run: seq<Step>, owner: Owner)
    requires ValidRun(EMPTY, run)
    ensures var db := Exec(EMPTY, run);
            DriftOf(db, owner) ==
            if IsResolved(db.bindings, owner) then {}
            else set t | t in LiveRows(db, owner) :: Unexplained(t, LiveRows(db, owner)[t])
  {
    var db := Exec(EMPTY, run);
    EveryRunIsConsistent(run);
    var expected, live := DeriveExpected(StateListing(db, owner)), LiveRows(db, owner);
    forall t ensures Lookup(expected, t) == Latest(db.log, db.bindings, owner, t) {
      DerivedIsLatest(db, owner, t);
    }
    if IsResolved(db.bindings, owner) {
      assert RowsCurrent(db, owner);
      forall t ensures Lookup(live, t) == Lookup(expected, t) {
        assert Lookup(db.rows, RowKey(owner, t)) == Latest(db.log, db.bindings, owner, t);
        assert Lookup(expected, t) == Latest(db.log, db.bindings, owner, t);
        assert t in live <==> RowKey(owner, t) in db.rows;
      }
      SameMaps(expected, live);
    } else {
      forall t ensures t !in expected {
        BoundHasNoEvents(db, owner, t);
        assert Lookup(expected, t) == Latest(db.log, db.bindings, owner, t);
      }
    }
  }

  lemma SameMaps(expected: map<Target, Row>, live: map<Target, Row>)
    requires forall t :: Lookup(live, t) == Lookup(expected, t)
    ensures Diff(expected, live) == {}
  {
    forall t ensures (t in live <==> t in expected) && (t in live ==> live[t] == expected[t]) {
      assert Lookup(live, t) == Lookup(expected, t);
    }
  }

  /**
   * In every reachable state an account's, and an unbound identity's, schedule for a word is SM-2 replayed from the
   * start over that owner's answers in order: what live answering maintained is what a merge would rebuild.
   */
  lemma SchedulesAreReplays(run: seq<Step>, owner: Owner, word: WordId)
    requires ValidRun(EMPTY, run)
    ensures var db := Exec(EMPTY, run);
            IsResolved(db.bindings, owner) ==>
              Lookup(db.reviews, ReviewKey(owner, word)) == Scheduled(Answers(db.log, db.bindings, owner, word))
  {
    EveryRunIsConsistent(run);
    var db := Exec(EMPTY, run);
    if IsResolved(db.bindings, owner) {
      assert ReviewsCurrent(db, owner);
    }
  }
}
