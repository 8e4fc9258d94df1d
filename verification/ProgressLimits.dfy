/** What the consistency of learner progress rests on, each assumption with the exact point where it matters. */
module ProgressLimits {
  import opened Wrappers
  import opened Sorting
  import opened Sm2
  import opened Progress
  import opened ProgressLaws

  /** A request that went through, sent again, finds the state it asked for and writes nothing. */
  lemma SavingTwiceIsSavingOnce(db: Db, viewer: Viewer, target: Target, found: bool, action: Action, now: int,
                                id: nat, later: int, id': nat)
    requires Consistent(db) && Fresh(db.log, now, id)
    ensures var (once, outcome) := ApplySave(db, viewer, target, found, action, now, id);
            ApplySave(once, viewer, target, found, action, later, id') == (once, outcome)
    ensures var (once, outcome) := ApplySave(db, viewer, target, found, action, now, id);
            outcome.Done? ==> CurrentState(once, WriteOwner(once, viewer), target) == outcome.state
  {
    var owner := WriteOwner(db, viewer);
    var (once, outcome) := ApplySave(db, viewer, target, found, action, now, id);
    var decision := Decide(CurrentState(db, owner, target), action);
    if found && decision.Write? {
      FreshEventWins(db, owner, target, Row(decision.next, id), now);
    }
    assert db.profiles + {viewer.anonymousId} + {viewer.anonymousId} == db.profiles + {viewer.anonymousId};
  }

  // The clock

  /** Every event of the owner and target happened no later than `now`. */
  ghost predicate NothingLater(db: Db, owner: Owner, target: Target, now: int) {
    forall i :: 0 <= i < |db.log| && Both(StateEvents(db.bindings, owner), target)(db.log[i]) ==> db.log[i].at <= now
  }

  lemma LastOfSorted(events: seq<Event>, f: Event)
    requires Sorted(EventLe, events) && f in events
    ensures events != [] && events[|events| - 1] in events && EventLe(f, events[|events| - 1])
  {
    EventLeIsTotal();
    var i :| 0 <= i < |events| && events[i] == f;
    assert EventLe(f, f);
  }

  lemma TargetListing(db: Db, owner: Owner, target: Target)
    ensures var own := Filter(About(target), StateListing(db, owner));
            Sorted(EventLe, own) &&
            (forall f :: f in own <==> f in db.log && Both(StateEvents(db.bindings, owner), target)(f)) &&
            Lookup(DeriveExpected(StateListing(db, owner)), target) == LastRow(own)
  {
    var p := StateEvents(db.bindings, owner);
    EventLeIsTotal();
    SortSorts(EventLe, Filter(p, db.log));
    FilterMembers(p, db.log);
    var listing := StateListing(db, owner);
    FilterSorted(EventLe, About(target), listing);
    FilterMembers(About(target), listing);
    assert forall f :: f in listing <==> f in multiset(Filter(p, db.log));
    ListingMembers(db.log, p);
    DerivedFromTarget(listing, target);
  }

  /**
   * A write leaves its own row in agreement with the log exactly when no event of that owner and target carries a
   * later time: the live path orders by id, the replay by time, and a clock that ran back sets them against each other.
   */
  lemma WriteAgreesExactlyWhenClockDid(db: Db, owner: Owner, target: Target, kind: EventKind, now: int, id: nat)
    requires IsResolved(db.bindings, owner) && IsStateEvent(kind)
    requires forall i :: 0 <= i < |db.log| ==> db.log[i].id < id
    ensures var after := db.(log := db.log + [Event(id, owner, target, kind, now)]);
            Lookup(DeriveExpected(StateListing(after, owner)), target) == Some(Row(StateOf(kind), id))
            <==> NothingLater(db, owner, target, now)
  {
    var e := Event(id, owner, target, kind, now);
    var after := db.(log := db.log + [e]);
    var own := Filter(About(target), StateListing(after, owner));
    TargetListing(after, owner, target);
    OwnListing(db, owner, target, e, own);
    LastOfSorted(own, e);
    var last := own[|own| - 1];
    assert IsStateEvent(last.kind);
    if NothingLater(db, owner, target, now) {
      assert last != e ==> last.at <= now && last.id < id;
    } else {
      var i :| 0 <= i < |db.log| && Both(StateEvents(db.bindings, owner), target)(db.log[i]) && db.log[i].at > now;
      LastOfSorted(own, db.log[i]);
      assert last != e;
    }
  }

  lemma OwnListing(db: Db, owner: Owner, target: Target, e: Event, own: seq<Event>)
    requires IsResolved(db.bindings, owner) && IsStateEvent(e.kind) && e.owner == owner && e.target == target
    requires forall i :: 0 <= i < |db.log| ==> db.log[i].id < e.id
    requires forall f :: f in own <==> f in db.log + [e] && Both(StateEvents(db.bindings, owner), target)(f)
    ensures e in own
    ensures forall f :: f in own ==> IsStateEvent(f.kind) && f.target == target && (f != e ==> f.id < e.id)
    ensures forall i :: 0 <= i < |db.log| && Both(StateEvents(db.bindings, owner), target)(db.log[i]) ==> db.log[i] in own
    ensures NothingLater(db, owner, target, e.at) ==> forall f :: f in own ==> f.at <= e.at
  {
    assert e in db.log + [e];
    assert Both(StateEvents(db.bindings, owner), target)(e);
    forall f | f in own
      ensures IsStateEvent(f.kind) && f.target == target && (f != e ==> f.id < e.id)
      ensures NothingLater(db, owner, target, e.at) ==> f.at <= e.at
    {
      assert f == e || f in db.log;
    }
    forall i | 0 <= i < |db.log| && Both(StateEvents(db.bindings, owner), target)(db.log[i]) ensures db.log[i] in own {
      assert db.log[i] in db.log;
    }
  }

  // Retired identities

  lemma ReviewIsAChange(s: State, q: Quality)
    requires Reachable(s) && (q == 5 || q == 2)
    ensures Review(s, q) == s <==> q == 2 && s == State(0, MINIMUM_EASE, 1)
  {
  }

  /** An answer moves the schedule, except a wrong one to a word at the bottom of the scale, at the very same time. */
  lemma AnswerIsAChange(answers: seq<Answer>, answer: Answer)
    requires answer.quality == 5 || answer.quality == 2
    ensures Some(Reviewed(Scheduled(answers), answer)) == Scheduled(answers) <==>
            answer.quality == 2 && Scheduled(answers) == Some(Schedule(State(0, MINIMUM_EASE, 1), answer.at))
  {
    if answers != [] {
      ScheduledIsReplay(answers);
      EveryHistoryIsReachable(QualitiesIn(answers));
      ReviewIsAChange(Replay(QualitiesIn(answers)), answer.quality);
    }
  }

  /**
   * An accepted answer keeps every schedule a replay exactly when the answering identity is not bound, save for one
   * wrong answer to a word the account already holds at the bottom of the scale, last reviewed at that very time.
   */
  lemma AnswerAgreesExactlyWhenUnbound(db: Db, owner: Owner, turn: Turn, word: WordId, rating: Rating, now: int, id: nat)
    requires Consistent(db) && Fresh(db.log, now, id)
    requires ApplyAnswer(db, owner, turn, word, rating, now, id).1
    ensures Consistent(ApplyAnswer(db, owner, turn, word, rating, now, id).0) <==>
            IsResolved(db.bindings, owner) ||
            (rating == Wrong && Lookup(db.reviews, ReviewKey(Resolve(db.bindings, owner), word)) ==
                                Some(Schedule(State(0, MINIMUM_EASE, 1), now)))
  {
    var after := ApplyAnswer(db, owner, turn, word, rating, now, id).0;
    if IsResolved(db.bindings, owner) {
      AnswerKeepsConsistency(db, owner, turn, word, rating, now, id);
    } else {
      var q := QualityOf(rating);
      var e := Event(id, owner, Target(Word, word), PracticeAttempt(q), now);
      OrderedAppends(db.log, e);
      RetiredAnswerElsewhere(db, after, owner, e);
      RetiredAnswerHere(db, after, owner, word, q, e);
    }
  }

  /** What the answer leaves alone: all rows, and every schedule but the account's for that word. */
  lemma RetiredAnswerElsewhere(db: Db, after: Db, owner: Owner, e: Event)
    requires Consistent(db) && !IsResolved(db.bindings, owner) && after.bindings == db.bindings && after.rows == db.rows
    requires e.owner == owner && e.kind.PracticeAttempt? && e.target.kind.Word? && after.log == db.log + [e]
    requires forall o, w :: IsResolved(db.bindings, o) ==>
               Lookup(after.reviews, ReviewKey(o, w)) == Lookup(db.reviews, ReviewKey(o, w))
    ensures forall o :: IsResolved(db.bindings, o) ==> RowsCurrent(after, o)
    ensures forall o, w :: IsResolved(db.bindings, o) && !(o == Resolve(db.bindings, owner) && w == e.target.id) ==>
              Lookup(after.reviews, ReviewKey(o, w)) == Scheduled(Answers(after.log, after.bindings, o, w))
  {
    forall o | IsResolved(db.bindings, o) ensures RowsCurrent(after, o) {
      RowsUntouched(db, after, o, e);
    }
    forall o, w | IsResolved(db.bindings, o) && !(o == Resolve(db.bindings, owner) && w == e.target.id)
      ensures Lookup(after.reviews, ReviewKey(o, w)) == Scheduled(Answers(after.log, after.bindings, o, w))
    {
      NotExtended(db.log, db.bindings, owner, e, o, w);
      assert ReviewsCurrent(db, o);
      assert Lookup(db.reviews, ReviewKey(o, w)) == Scheduled(Answers(db.log, db.bindings, o, w));
    }
  }

  lemma NotExtended(log: seq<Event>, bindings: map<AnonymousId, UserId>, owner: Owner, e: Event, o: Owner, w: WordId)
    requires e.owner == owner && IsResolved(bindings, o) && !(o == Resolve(bindings, owner) && w == e.target.id)
    ensures Answers(log + [e], bindings, o, w) == Answers(log, bindings, o, w)
  {
    AnswersAppend(log, bindings, o, w, e);
    BelongsIsResolution(bindings, e, o);
    NothingAdded(Answers(log, bindings, o, w));
  }

  lemma RetiredAnswerHere(db: Db, after: Db, owner: Owner, word: WordId, q: Quality, e: Event)
    requires Consistent(db) && !IsResolved(db.bindings, owner) && after.bindings == db.bindings && after.rows == db.rows
    requires e.owner == owner && e.kind == PracticeAttempt(q) && e.target == Target(Word, word) && after.log == db.log + [e]
    requires (q == 5 || q == 2) && LogOrdered(after.log)
    requires forall o, w :: IsResolved(db.bindings, o) ==>
               Lookup(after.reviews, ReviewKey(o, w)) == Lookup(db.reviews, ReviewKey(o, w))
    requires forall o :: IsResolved(db.bindings, o) ==> RowsCurrent(after, o)
    requires forall o, w :: IsResolved(db.bindings, o) && !(o == Resolve(db.bindings, owner) && w == word) ==>
               Lookup(after.reviews, ReviewKey(o, w)) == Scheduled(Answers(after.log, after.bindings, o, w))
    ensures Consistent(after) <==>
            q == 2 && Lookup(db.reviews, ReviewKey(Resolve(db.bindings, owner), word)) ==
                      Some(Schedule(State(0, MINIMUM_EASE, 1), e.at))
  {
    var account := Resolve(db.bindings, owner);
    var before := Answers(db.log, db.bindings, account, word);
    assert IsResolved(db.bindings, account);
    AnswersAppend(db.log, db.bindings, account, word, e);
    ScheduledAppends(before, Answer(q, e.at));
    AnswerIsAChange(before, Answer(q, e.at));
    assert ReviewsCurrent(db, account);
    var have, want := Lookup(after.reviews, ReviewKey(account, word)), Scheduled(Answers(after.log, after.bindings, account, word));
    assert have == Lookup(db.reviews, ReviewKey(account, word)) == Scheduled(before);
    assert want == Some(Reviewed(Scheduled(before), Answer(q, e.at)));
    if Consistent(after) {
      assert ReviewsCurrent(after, account);
      assert have == want;
    }
    if have == want {
      forall o | IsResolved(after.bindings, o) ensures RowsCurrent(after, o) && ReviewsCurrent(after, o) {
      }
    }
  }

  // What a merge can hold

  /** The account's schedule for a word as a merge would rebuild it. */
  function Merged(db: Db, user: UserId, a: AnonymousId, word: WordId): Option<Schedule> {
    Scheduled(Answers(db.log, Bound(db, user, a).bindings, User(user), word))
  }

  /**
   * A merge is refused, binding and all, exactly when for some word the two identities' answers together make a
   * schedule its columns cannot hold.
   */
  lemma MergeIsRefusedExactlyWhen(db: Db, user: UserId, a: AnonymousId)
    requires LogOrdered(db.log) && a !in db.bindings && a in db.profiles
    ensures ApplyLink(db, user, Some(a)) == db <==>
            exists w :: Merged(db, user, a, w).Some? && !Storable(Merged(db, user, a, w).value)
  {
    var bound := Bound(db, user, a);
    var states := ReplayAll(PracticeListing(bound, user));
    forall w ensures Lookup(states, w) == Merged(db, user, a, w) {
      ReplayIsSchedule(bound, user, w);
    }
    if RebuildFits(bound, user) {
      assert a in ApplyLink(db, user, Some(a)).bindings;
      forall w | Merged(db, user, a, w).Some? ensures Storable(Merged(db, user, a, w).value) {
        assert Lookup(states, w) == Merged(db, user, a, w);
      }
    } else {
      var w :| w in states && !Storable(states[w]);
      assert Lookup(states, w) == Merged(db, user, a, w);
    }
  }

  lemma {:induction false} QualitiesInAre(answers: seq<Answer>)
    ensures |QualitiesIn(answers)| == |answers|
    ensures (forall i :: 0 <= i < |answers| ==> answers[i].quality == 5) ==> QualitiesIn(answers) == Rights(|answers|)
  {
    if answers != [] {
      QualitiesInAre(answers[..|answers| - 1]);
      assert Rights(|answers|) == Rights(|answers| - 1) + [5];
    }
  }

  predicate AllRight(answers: seq<Answer>) {
    forall i :: 0 <= i < |answers| ==> answers[i].quality == 5
  }

  ghost predicate OthersFit(db: Db, user: UserId, a: AnonymousId, word: WordId) {
    forall w :: w != word && Merged(db, user, a, w).Some? ==> Storable(Merged(db, user, a, w).value)
  }

  /** Where both identities have answered a word right every time and no other word is in the way: 14 answers refuse it. */
  lemma RightsMergeExactlyWhen(db: Db, user: UserId, a: AnonymousId, word: WordId)
    requires LogOrdered(db.log) && a !in db.bindings && a in db.profiles && OthersFit(db, user, a, word)
    requires var merged := Answers(db.log, Bound(db, user, a).bindings, User(user), word);
             merged != [] && AllRight(merged) && 0 <= merged[|merged| - 1].at <= LATEST_REVIEW
    ensures ApplyLink(db, user, Some(a)) == db <==>
            |Answers(db.log, Bound(db, user, a).bindings, User(user), word)| >= 14
  {
    var merged := Answers(db.log, Bound(db, user, a).bindings, User(user), word);
    ScheduledIsReplay(merged);
    QualitiesInAre(merged);
    RightsOutgrowTheirColumns(|merged|, merged[|merged| - 1].at);
    OneWordDecides(db, user, a, word);
  }

  lemma OneWordDecides(db: Db, user: UserId, a: AnonymousId, word: WordId)
    requires LogOrdered(db.log) && a !in db.bindings && a in db.profiles && OthersFit(db, user, a, word)
    ensures ApplyLink(db, user, Some(a)) == db <==>
            Merged(db, user, a, word).Some? && !Storable(Merged(db, user, a, word).value)
  {
    MergeIsRefusedExactlyWhen(db, user, a);
  }

  /**
   * A refused merge is not refused for good. After one more accepted answer of either identity, the next merge is
   * refused exactly when the joined answers with that one added still make a schedule that does not fit.
   */
  lemma NextMergeIsRefusedExactlyWhen(db: Db, user: UserId, a: AnonymousId, owner: Owner, turn: Turn, word: WordId,
                                      rating: Rating, now: int, id: nat)
    requires LogOrdered(db.log) && Fresh(db.log, now, id) && a !in db.bindings && a in db.profiles
    requires OthersFit(db, user, a, word) && owner in {User(user), Anonymous(a)}
    requires ApplyAnswer(db, owner, turn, word, rating, now, id).1
    ensures var after := ApplyAnswer(db, owner, turn, word, rating, now, id).0;
            var joined := Reviewed(Merged(db, user, a, word), Answer(QualityOf(rating), now));
            Merged(after, user, a, word) == Some(joined) &&
            (ApplyLink(after, user, Some(a)) == after <==> !Storable(joined)) &&
            (ApplyLink(after, user, Some(a)) != after <==> a in ApplyLink(after, user, Some(a)).bindings)
  {
    var after := ApplyAnswer(db, owner, turn, word, rating, now, id).0;
    var e := Event(id, owner, Target(Word, word), PracticeAttempt(QualityOf(rating)), now);
    OrderedAppends(db.log, e);
    forall w ensures Merged(after, user, a, w) == if w == word then Some(Reviewed(Merged(db, user, a, word),
                                                  Answer(QualityOf(rating), now))) else Merged(db, user, a, w) {
      MergedExtended(db, user, a, owner, word, QualityOf(rating), e, after, w);
    }
    OneWordDecides(after, user, a, word);
  }

  lemma MergedExtended(db: Db, user: UserId, a: AnonymousId, owner: Owner, word: WordId, q: Quality, e: Event, after: Db,
                       w: WordId)
    requires a !in db.bindings && owner in {User(user), Anonymous(a)}
    requires e.owner == owner && e.target == Target(Word, word) && e.kind == PracticeAttempt(q)
    requires after.log == db.log + [e] && after.bindings == db.bindings
    ensures Merged(after, user, a, w) ==
            if w == word then Some(Reviewed(Merged(db, user, a, word), Answer(q, e.at))) else Merged(db, user, a, w)
  {
    var b := Bound(db, user, a).bindings;
    var before := Answers(db.log, b, User(user), w);
    AnswersAppend(db.log, b, User(user), w, e);
    BelongsIsResolution(b, e, User(user));
    if w == word {
      ScheduledAppends(before, Answer(q, e.at));
    } else {
      NothingAdded(before);
    }
  }
}
