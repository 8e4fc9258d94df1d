/**
 * Two histories that are stored without trouble and cannot be stored together. The runs that lead to a refused merge, and
 * out of it, answer a word only when practice lists it as due, each time in a session of its own.
 */
module ProgressMerges {
  import opened Wrappers
  import opened Sm2
  import opened Progress
  import opened ProgressLaws
  import opened ProgressLimits

  // Practice as it is served

  /** The condition of the due query: the word is saved, and was never reviewed or is due again. */
  predicate IsDue(db: Db, owner: Owner, word: WordId, now: int) {
    CurrentState(db, owner, Target(Word, word)) != Unsaved &&
    (ReviewKey(owner, word) in db.reviews ==> DueAt(db.reviews[ReviewKey(owner, word)]) <= now)
  }

  ghost predicate NewSession(db: Db, session: nat) {
    forall turn :: turn in db.attempts ==> turn.session != session
  }

  /** An answer is to the first turn of a new session, over a word that is due. */
  ghost predicate Served(db: Db, step: Step) {
    match step
    case AnswerStep(owner, turn, word, _, now, _) => turn.turnSeq == 0 && NewSession(db, turn.session) && IsDue(db, owner, word, now)
    case _ => true
  }

  ghost predicate AllServed(db: Db, run: seq<Step>)
    requires ValidRun(db, run)
    decreases |run|
  {
    run == [] || (Served(db, run[0]) && AllServed(Next(db, run[0]), run[1..]))
  }

  ghost predicate ServedRun(db: Db, run: seq<Step>) {
    ValidRun(db, run) && AllServed(db, run)
  }

  lemma ServedAlone(db: Db, step: Step)
    requires Enabled(db, step) && Served(db, step)
    ensures ServedRun(db, [step]) && Exec(db, [step]) == Next(db, step)
  {
    assert [step][1..] == [];
  }

  lemma {:induction false} OneRunAfterAnother(db: Db, run: seq<Step>, more: seq<Step>)
    requires ServedRun(db, run) && ServedRun(Exec(db, run), more)
    ensures ServedRun(db, run + more) && Exec(db, run + more) == Exec(Exec(db, run), more)
    decreases |run|
  {
    if run == [] {
      NothingAdded(more);
    } else {
      OneRunAfterAnother(Next(db, run[0]), run[1..], more);
      FirstThenRest(db, run, more);
    }
  }

  lemma FirstThenRest(db: Db, run: seq<Step>, more: seq<Step>)
    requires run != [] && Enabled(db, run[0]) && Served(db, run[0]) && ServedRun(Next(db, run[0]), run[1..] + more)
    ensures ServedRun(db, run + more) && Exec(db, run + more) == Exec(Next(db, run[0]), run[1..] + more)
  {
    assert (run + more)[0] == run[0] && (run + more)[1..] == run[1..] + more;
  }

  lemma OneMoreStep(db: Db, run: seq<Step>, step: Step)
    requires ServedRun(db, run) && Enabled(Exec(db, run), step) && Served(Exec(db, run), step)
    ensures ServedRun(db, run + [step]) && Exec(db, run + [step]) == Next(Exec(db, run), step)
  {
    ServedAlone(Exec(db, run), step);
    OneRunAfterAnother(db, run, [step]);
  }

  // A word answered right whenever it is due

  function Last(start: int, times: seq<int>, k: nat): int
    requires k <= |times|
  {
    if k == 0 then start else times[k - 1]
  }

  /** From `start` on, no answer is earlier than the one before it or than that one has the word due, or later than 4417. */
  ghost predicate Spaced(start: int, times: seq<int>) {
    0 <= start && |times| <= 13 && forall k: nat :: k < |times| ==> NoEarlier(start, times, k)
  }

  predicate NoEarlier(start: int, times: seq<int>, k: nat)
    requires k < |times|
  {
    0 <= start <= times[k] <= LATEST_REVIEW && Last(start, times, k) <= times[k] &&
    (k > 0 ==> NextDueAt(times[k - 1], Replay(Rights(k)).interval) <= times[k])
  }

  /** Who practises which word, in sessions numbered from `session` on, its events numbered from `id` on. */
  datatype Practice = Practice(owner: Owner, word: WordId, session: nat, id: nat)

  function RightEvent(p: Practice, k: nat, at: int): Event {
    Event(p.id + k, p.owner, Target(Word, p.word), PracticeAttempt(5), at)
  }

  function RightStep(p: Practice, k: nat, at: int): Step {
    AnswerStep(p.owner, Turn(p.session + k, 0), p.word, Right, at, p.id + k)
  }

  function RightEvents(p: Practice, times: seq<int>, k: nat): seq<Event>
    requires k <= |times|
  {
    if k == 0 then [] else RightEvents(p, times, k - 1) + [RightEvent(p, k - 1, times[k - 1])]
  }

  /** Each right answer in a session of its own. */
  function RightSteps(p: Practice, times: seq<int>, k: nat): seq<Step>
    requires k <= |times|
  {
    if k == 0 then [] else RightSteps(p, times, k - 1) + [RightStep(p, k - 1, times[k - 1])]
  }

  ghost predicate Ready(db: Db, p: Practice, start: int) {
    IsResolved(db.bindings, p.owner) && Fresh(db.log, start, p.id) && ReviewKey(p.owner, p.word) !in db.reviews &&
    CurrentState(db, p.owner, Target(Word, p.word)) != Unsaved &&
    forall turn :: turn in db.attempts ==> turn.session < p.session
  }

  function RightSchedule(times: seq<int>, k: nat): Option<Schedule>
    requires k <= |times|
  {
    if k == 0 then None else Some(Schedule(Replay(Rights(k)), times[k - 1]))
  }

  /** What `k` accepted answers have done to the tables. */
  ghost predicate Followed(before: Db, after: Db, p: Practice, start: int, times: seq<int>, k: nat)
    requires k <= |times|
  {
    after.log == before.log + RightEvents(p, times, k) && Fresh(after.log, Last(start, times, k), p.id + k) &&
    after.bindings == before.bindings && after.profiles == before.profiles && after.rows == before.rows &&
    Lookup(after.reviews, ReviewKey(p.owner, p.word)) == RightSchedule(times, k) &&
    (forall key :: key != ReviewKey(p.owner, p.word) ==> Lookup(after.reviews, key) == Lookup(before.reviews, key)) &&
    forall turn :: turn in after.attempts ==> turn.session < p.session + k
  }

  lemma {:induction false} RightsAreAccepted(db: Db, p: Practice, start: int, times: seq<int>, k: nat)
    requires Ready(db, p, start) && Spaced(start, times) && k <= |times|
    ensures ServedRun(db, RightSteps(p, times, k)) && Followed(db, Exec(db, RightSteps(p, times, k)), p, start, times, k)
  {
    if k == 0 {
      NothingAdded(db.log);
    } else {
      RightsAreAccepted(db, p, start, times, k - 1);
      AcceptedOnceMore(db, RightSteps(p, times, k - 1), p, start, times, k - 1);
    }
  }

  lemma AcceptedOnceMore(db: Db, run: seq<Step>, p: Practice, start: int, times: seq<int>, k: nat)
    requires Ready(db, p, start) && Spaced(start, times) && k < |times|
    requires ServedRun(db, run) && Followed(db, Exec(db, run), p, start, times, k)
    ensures ServedRun(db, run + [RightStep(p, k, times[k])])
    ensures Followed(db, Exec(db, run + [RightStep(p, k, times[k])]), p, start, times, k + 1)
  {
    var last, step := Exec(db, run), RightStep(p, k, times[k]);
    NextIsServed(db, last, p, start, times, k);
    OneMoreRight(db, last, p, start, times, k);
    OneMoreStep(db, run, step);
  }

  lemma NextIsServed(db: Db, last: Db, p: Practice, start: int, times: seq<int>, k: nat)
    requires Ready(db, p, start) && Spaced(start, times) && k < |times| && Followed(db, last, p, start, times, k)
    ensures Enabled(last, RightStep(p, k, times[k])) && Served(last, RightStep(p, k, times[k]))
  {
    assert NoEarlier(start, times, k);
  }

  lemma OneMoreRight(db: Db, last: Db, p: Practice, start: int, times: seq<int>, k: nat)
    requires Spaced(start, times) && k < |times| && Followed(db, last, p, start, times, k)
    ensures Followed(db, Next(last, RightStep(p, k, times[k])), p, start, times, k + 1)
  {
    assert NoEarlier(start, times, k);
    var before := Lookup(last.reviews, ReviewKey(p.owner, p.word));
    OneMoreReview(before, times, k);
    Accepted(last, p, k, times[k], Reviewed(before, Answer(5, times[k])));
    FollowedByOne(db, last, Next(last, RightStep(p, k, times[k])), p, start, times, k);
  }

  lemma OneMoreReview(before: Option<Schedule>, times: seq<int>, k: nat)
    requires k < |times| <= 13 && 0 <= times[k] <= LATEST_REVIEW && before == RightSchedule(times, k)
    ensures Some(Reviewed(before, Answer(5, times[k]))) == RightSchedule(times, k + 1)
    ensures Storable(Reviewed(before, Answer(5, times[k])))
  {
    ReplayAppends(Rights(k), 5);
    assert Rights(k) + [5] == Rights(k + 1);
    RightsOutgrowTheirColumns(k + 1, times[k]);
  }

  lemma Accepted(last: Db, p: Practice, k: nat, at: int, next: Schedule)
    requires Turn(p.session + k, 0) !in last.attempts && Storable(next)
    requires next == Reviewed(Lookup(last.reviews, ReviewKey(p.owner, p.word)), Answer(5, at))
    ensures Next(last, RightStep(p, k, at)) ==
            last.(attempts := last.attempts[Turn(p.session + k, 0) := Right], log := last.log + [RightEvent(p, k, at)],
                  reviews := last.reviews[ReviewKey(p.owner, p.word) := next])
  {
  }

  lemma FollowedByOne(db: Db, last: Db, after: Db, p: Practice, start: int, times: seq<int>, k: nat)
    requires k < |times| && Followed(db, last, p, start, times, k) && Last(start, times, k) <= times[k]
    requires after.log == last.log + [RightEvent(p, k, times[k])] && after.bindings == last.bindings
    requires after.profiles == last.profiles && after.rows == last.rows
    requires after.attempts == last.attempts[Turn(p.session + k, 0) := Right]
    requires RightSchedule(times, k + 1).Some?
    requires after.reviews == last.reviews[ReviewKey(p.owner, p.word) := RightSchedule(times, k + 1).value]
    ensures Followed(db, after, p, start, times, k + 1)
  {
    Regroup(db.log, RightEvents(p, times, k), [RightEvent(p, k, times[k])]);
    FreshAfter(last.log, RightEvent(p, k, times[k]), Last(start, times, k));
  }

  lemma FreshAfter(log: seq<Event>, e: Event, before: int)
    requires Fresh(log, before, e.id) && before <= e.at
    ensures Fresh(log + [e], e.at, e.id + 1)
  {
  }

  // The answers in the log

  function RightAnswers(times: seq<int>, k: nat): seq<Answer>
    requires k <= |times|
  {
    if k == 0 then [] else RightAnswers(times, k - 1) + [Answer(5, times[k - 1])]
  }

  lemma {:induction false} RightAnswersAreRight(times: seq<int>, k: nat)
    requires k <= |times|
    ensures |RightAnswers(times, k)| == k
    ensures forall i :: 0 <= i < k ==> RightAnswers(times, k)[i] == Answer(5, times[i])
  {
    if k > 0 { RightAnswersAreRight(times, k - 1); }
  }

  lemma {:induction false} AnswersInEvents(log: seq<Event>, b: map<AnonymousId, UserId>, account: Owner, p: Practice,
                                           times: seq<int>, k: nat)
    requires IsResolved(b, account) && Resolve(b, p.owner) == account && k <= |times|
    ensures Answers(log + RightEvents(p, times, k), b, account, p.word) ==
            Answers(log, b, account, p.word) + RightAnswers(times, k)
  {
    if k == 0 {
      NothingAdded(log);
      NothingAdded(Answers(log, b, account, p.word));
    } else {
      var e := RightEvent(p, k - 1, times[k - 1]);
      AnswersInEvents(log, b, account, p, times, k - 1);
      Regroup(log, RightEvents(p, times, k - 1), [e]);
      AnswersAppend(log + RightEvents(p, times, k - 1), b, account, p.word, e);
      BelongsIsResolution(b, e, account);
      Regroup(Answers(log, b, account, p.word), RightAnswers(times, k - 1), [Answer(5, times[k - 1])]);
    }
  }

  lemma {:induction false} NoOtherAnswers(log: seq<Event>, b: map<AnonymousId, UserId>, account: Owner, p: Practice,
                                          times: seq<int>, k: nat, other: WordId)
    requires other != p.word && k <= |times|
    ensures Answers(log + RightEvents(p, times, k), b, account, other) == Answers(log, b, account, other)
  {
    if k == 0 {
      NothingAdded(log);
    } else {
      var e := RightEvent(p, k - 1, times[k - 1]);
      NoOtherAnswers(log, b, account, p, times, k - 1, other);
      Regroup(log, RightEvents(p, times, k - 1), [e]);
      AnswersAppend(log + RightEvents(p, times, k - 1), b, account, other, e);
      NothingAdded(Answers(log, b, account, other));
    }
  }

  // Two histories

  /** The word is saved by both, then practised signed out, then practised on the account. */
  datatype Story = Story(user: UserId, a: AnonymousId, word: WordId, start: int, theirs: seq<int>, mine: seq<int>) {
    function Saves(): seq<Step> {
      [SaveStep(Viewer(None, a), Target(Word, word), true, DoSave, start, 0)] +
      [SaveStep(Viewer(Some(user), a), Target(Word, word), true, DoSave, start, 1)]
    }

    function SignedOut(): Practice {
      Practice(Anonymous(a), word, 0, 2)
    }

    function SignedIn(): Practice {
      Practice(User(user), word, |theirs|, |theirs| + 2)
    }

    function Run(): seq<Step> {
      Saves() + (RightSteps(SignedOut(), theirs, |theirs|) + RightSteps(SignedIn(), mine, |mine|))
    }

    /** Each practised 1 to 13 times, whenever due, the account once the other was done. */
    ghost predicate Told() {
      theirs != [] && mine != [] && Spaced(start, theirs) && Spaced(Half(), mine)
    }

    /** When the signed-out half ends. */
    function Half(): int {
      Last(start, theirs, |theirs|)
    }
  }

  function JoinedAnswers(s: Story): seq<Answer> {
    RightAnswers(s.theirs, |s.theirs|) + RightAnswers(s.mine, |s.mine|)
  }

  lemma JoinedAreRight(s: Story)
    requires s.mine != []
    ensures var joined := JoinedAnswers(s);
            |joined| == |s.theirs| + |s.mine| && AllRight(joined) &&
            joined[|joined| - 1] == Answer(5, s.mine[|s.mine| - 1])
  {
    RightAnswersAreRight(s.theirs, |s.theirs|);
    RightAnswersAreRight(s.mine, |s.mine|);
  }

  /** Both identities have the word saved, and nobody has answered anything. */
  ghost predicate JustSaved(s: Story, first: Db) {
    first.bindings == map[] && s.a in first.profiles && first.reviews == map[] && first.attempts == map[] &&
    CurrentState(first, Anonymous(s.a), Target(Word, s.word)) != Unsaved &&
    CurrentState(first, User(s.user), Target(Word, s.word)) != Unsaved &&
    |first.log| == 2 && !first.log[0].kind.PracticeAttempt? && !first.log[1].kind.PracticeAttempt? &&
    Fresh(first.log, s.start, 2)
  }

  lemma SavedByBoth(s: Story) returns (first: Db)
    ensures ServedRun(EMPTY, s.Saves()) && Exec(EMPTY, s.Saves()) == first && JustSaved(s, first)
  {
    var one := SaveStep(Viewer(None, s.a), Target(Word, s.word), true, DoSave, s.start, 0);
    var two := SaveStep(Viewer(Some(s.user), s.a), Target(Word, s.word), true, DoSave, s.start, 1);
    ServedAlone(EMPTY, one);
    var saved := Next(EMPTY, one);
    ServedAlone(saved, two);
    OneRunAfterAnother(EMPTY, [one], [two]);
    first := Next(saved, two);
  }

  /** The states the run passes through: saved, practised signed out, practised on the account. */
  lemma StoryRuns(s: Story) returns (first: Db, middle: Db, db: Db)
    requires s.Told()
    ensures ServedRun(EMPTY, s.Run()) && Exec(EMPTY, s.Run()) == db && JustSaved(s, first)
    ensures Followed(first, middle, s.SignedOut(), s.start, s.theirs, |s.theirs|)
    ensures Followed(middle, db, s.SignedIn(), s.Half(), s.mine, |s.mine|)
  {
    first := SavedByBoth(s);
    var theirs, mine := RightSteps(s.SignedOut(), s.theirs, |s.theirs|), RightSteps(s.SignedIn(), s.mine, |s.mine|);
    RightsAreAccepted(first, s.SignedOut(), s.start, s.theirs, |s.theirs|);
    middle := Exec(first, theirs);
    StillUnanswered(s, first, middle);
    RightsAreAccepted(middle, s.SignedIn(), s.Half(), s.mine, |s.mine|);
    db := Exec(middle, mine);
    ThreeRuns(EMPTY, s.Saves(), theirs, mine);
  }

  lemma StillUnanswered(s: Story, first: Db, middle: Db)
    requires JustSaved(s, first) && Followed(first, middle, s.SignedOut(), s.start, s.theirs, |s.theirs|)
    ensures Ready(middle, s.SignedIn(), s.Half())
  {
    var key := ReviewKey(User(s.user), s.word);
    assert Lookup(middle.reviews, key) == Lookup(first.reviews, key);
  }

  lemma ThreeRuns(db: Db, a: seq<Step>, b: seq<Step>, c: seq<Step>)
    requires ServedRun(db, a) && ServedRun(Exec(db, a), b) && ServedRun(Exec(Exec(db, a), b), c)
    ensures ServedRun(db, a + (b + c)) && Exec(db, a + (b + c)) == Exec(Exec(Exec(db, a), b), c)
  {
    OneRunAfterAnother(Exec(db, a), b, c);
    OneRunAfterAnother(db, a, b + c);
  }

  /** On the account's side of the bindings the log holds both histories, in order, and nothing else. */
  lemma MergedAnswers(s: Story, b: map<AnonymousId, UserId>, first: seq<Event>, middle: seq<Event>, log: seq<Event>)
    requires |first| == 2 && !first[0].kind.PracticeAttempt? && !first[1].kind.PracticeAttempt? && s.a in b && b[s.a] == s.user
    requires middle == first + RightEvents(s.SignedOut(), s.theirs, |s.theirs|) && log == middle + RightEvents(s.SignedIn(), s.mine, |s.mine|)
    ensures Answers(log, b, User(s.user), s.word) == JoinedAnswers(s)
  {
    NoneInSaves(first, b, User(s.user), s.word);
    AnswersInEvents(first, b, User(s.user), s.SignedOut(), s.theirs, |s.theirs|);
    AnswersInEvents(middle, b, User(s.user), s.SignedIn(), s.mine, |s.mine|);
    NothingAdded(RightAnswers(s.theirs, |s.theirs|));
  }

  lemma OtherWordsHaveNone(s: Story, b: map<AnonymousId, UserId>, first: seq<Event>, middle: seq<Event>, log: seq<Event>,
                           w: WordId)
    requires |first| == 2 && !first[0].kind.PracticeAttempt? && !first[1].kind.PracticeAttempt? && w != s.word
    requires middle == first + RightEvents(s.SignedOut(), s.theirs, |s.theirs|) && log == middle + RightEvents(s.SignedIn(), s.mine, |s.mine|)
    ensures Answers(log, b, User(s.user), w) == []
  {
    NoneInSaves(first, b, User(s.user), w);
    NoOtherAnswers(first, b, User(s.user), s.SignedOut(), s.theirs, |s.theirs|, w);
    NoOtherAnswers(middle, b, User(s.user), s.SignedIn(), s.mine, |s.mine|, w);
  }

  lemma NoneInSaves(log: seq<Event>, b: map<AnonymousId, UserId>, account: Owner, w: WordId)
    requires |log| == 2 && !log[0].kind.PracticeAttempt? && !log[1].kind.PracticeAttempt?
    ensures Answers(log, b, account, w) == []
  {
    assert log == ([] + [log[0]]) + [log[1]];
    AnswersAppend([], b, account, w, log[0]);
    AnswersAppend([] + [log[0]], b, account, w, log[1]);
  }

  lemma StoryMerges(s: Story, first: Db, middle: Db, db: Db)
    requires s.Told() && JustSaved(s, first) && LogOrdered(db.log)
    requires Followed(first, middle, s.SignedOut(), s.start, s.theirs, |s.theirs|)
    requires Followed(middle, db, s.SignedIn(), s.Half(), s.mine, |s.mine|)
    ensures s.a in db.profiles && s.a !in db.bindings && OthersFit(db, s.user, s.a, s.word)
    ensures Answers(db.log, Bound(db, s.user, s.a).bindings, User(s.user), s.word) ==
            JoinedAnswers(s)
    ensures ApplyLink(db, s.user, Some(s.a)) == db <==> |s.theirs| + |s.mine| >= 14
  {
    var b := Bound(db, s.user, s.a).bindings;
    MergedAnswers(s, b, first.log, middle.log, db.log);
    forall w | w != s.word ensures Merged(db, s.user, s.a, w).None? {
      OtherWordsHaveNone(s, b, first.log, middle.log, db.log, w);
    }
    JoinedAreRight(s);
    assert NoEarlier(s.Half(), s.mine, |s.mine| - 1);
    RightsMergeExactlyWhen(db, s.user, s.a, s.word);
  }

  /**
   * Reachable states whose merge is refused. Both histories, of up to 13 right answers each, are stored; the merge that
   * would join them is refused exactly when they make 14 between them.
   */
  lemma StoredApartNotTogether(s: Story)
    requires s.Told()
    ensures ServedRun(EMPTY, s.Run()) &&
            var db := Exec(EMPTY, s.Run());
            s.a in db.profiles && s.a !in db.bindings &&
            Lookup(db.reviews, ReviewKey(Anonymous(s.a), s.word)) == RightSchedule(s.theirs, |s.theirs|) &&
            Lookup(db.reviews, ReviewKey(User(s.user), s.word)) == RightSchedule(s.mine, |s.mine|) &&
            (ApplyLink(db, s.user, Some(s.a)) == db <==> |s.theirs| + |s.mine| >= 14)
  {
    var first, middle, db := StoryRuns(s);
    EveryRunIsConsistent(s.Run());
    StoryMerges(s, first, middle, db);
    assert Lookup(db.reviews, ReviewKey(Anonymous(s.a), s.word)) == Lookup(middle.reviews, ReviewKey(Anonymous(s.a), s.word));
  }

  /** Right answers on the days a word answered right every time is due, seven of them. */
  function SevenDays(first: nat): seq<int> {
    [first * DAY, (first + 1) * DAY, (first + 7) * DAY, (first + 23) * DAY, (first + 68) * DAY, (first + 199) * DAY,
     (first + 592) * DAY]
  }

  lemma DueInDays(day: nat, interval: nat)
    ensures NextDueAt(day * DAY, interval) == (day + interval) * DAY
  {
    assert day * DAY + interval * DAY == 1000 * ((day + interval) * 86400);
  }

  lemma SevenDaysAreSpaced(first: nat, start: int)
    requires 0 <= start <= first * DAY && first <= 800000
    ensures Spaced(start, SevenDays(first))
  {
    var times := SevenDays(first);
    DueInDays(first, 1);
    DueInDays(first + 1, 6);
    DueInDays(first + 7, 16);
    DueInDays(first + 23, 45);
    DueInDays(first + 68, 131);
    DueInDays(first + 199, 393);
    forall j: nat | j < 7 ensures NoEarlier(start, times, j) {
      RightIntervals(j);
    }
  }

  /** Seven right answers on each side, one side after the other, are refused together. */
  lemma SevenAndSeven(user: UserId, a: AnonymousId, word: WordId)
    ensures var s := Story(user, a, word, 0, SevenDays(0), SevenDays(600));
            ServedRun(EMPTY, s.Run()) && ApplyLink(Exec(EMPTY, s.Run()), user, Some(a)) == Exec(EMPTY, s.Run())
  {
    var s := Story(user, a, word, 0, SevenDays(0), SevenDays(600));
    SevenDaysAreSpaced(0, 0);
    SevenDaysAreSpaced(600, 592 * DAY);
    StoredApartNotTogether(s);
  }

  // Out of a refusal

  function WrongStep(s: Story, now: int): Step {
    AnswerStep(User(s.user), Turn(|s.theirs| + |s.mine|, 0), s.word, Wrong, now, |s.theirs| + |s.mine| + 2)
  }

  /** The merge attempted, refused, and then the account's next answer, wrong. */
  function Reopening(s: Story, now: int): seq<Step> {
    [LinkStep(s.user, Some(s.a))] + [WrongStep(s, now)]
  }

  /** One wrong answer, whenever the word is next due, resets the joined schedule too: the merge goes through. */
  lemma AWrongAnswerReopens(s: Story, now: int)
    requires s.Told() && |s.theirs| + |s.mine| >= 14 && s.mine[|s.mine| - 1] <= now <= LATEST_REVIEW
    requires NextDueAt(s.mine[|s.mine| - 1], Replay(Rights(|s.mine|)).interval) <= now
    ensures ServedRun(EMPTY, s.Run() + Reopening(s, now)) &&
            var db := Exec(EMPTY, s.Run() + Reopening(s, now));
            s.a !in db.bindings && s.a in ApplyLink(db, s.user, Some(s.a)).bindings
  {
    var first, middle, db := StoryRuns(s);
    EveryRunIsConsistent(s.Run());
    StoryMerges(s, first, middle, db);
    StillSaved(s, first, middle, db);
    WrongIsServed(s, middle, db, now);
    ServedAfterRefusal(s, db, now);
    OneRunAfterAnother(EMPTY, s.Run(), Reopening(s, now));
    WrongIsAccepted(s, middle, db, now);
    JoinedIsReplay(s, db);
    WrongIsApplied(s, db, now);
    NextMergeBinds(db, s.user, s.a, s.word, |s.theirs| + |s.mine|, now, Next(db, WrongStep(s, now)));
  }

  lemma StillSaved(s: Story, first: Db, middle: Db, db: Db)
    requires JustSaved(s, first) && Followed(first, middle, s.SignedOut(), s.start, s.theirs, |s.theirs|)
    requires Followed(middle, db, s.SignedIn(), s.Half(), s.mine, |s.mine|)
    ensures CurrentState(db, User(s.user), Target(Word, s.word)) != Unsaved
  {
  }

  lemma WrongIsServed(s: Story, middle: Db, db: Db, now: int)
    requires s.mine != [] && Followed(middle, db, s.SignedIn(), s.Half(), s.mine, |s.mine|)
    requires CurrentState(db, User(s.user), Target(Word, s.word)) != Unsaved && s.mine[|s.mine| - 1] <= now
    requires NextDueAt(s.mine[|s.mine| - 1], Replay(Rights(|s.mine|)).interval) <= now
    ensures Enabled(db, WrongStep(s, now)) && Served(db, WrongStep(s, now))
  {
  }

  lemma ServedAfterRefusal(s: Story, db: Db, now: int)
    requires ApplyLink(db, s.user, Some(s.a)) == db && Enabled(db, WrongStep(s, now)) && Served(db, WrongStep(s, now))
    ensures ServedRun(db, Reopening(s, now)) && Exec(db, Reopening(s, now)) == Next(db, WrongStep(s, now))
  {
    ServedAlone(db, LinkStep(s.user, Some(s.a)));
    OneMoreStep(db, [LinkStep(s.user, Some(s.a))], WrongStep(s, now));
  }

  lemma WrongIsApplied(s: Story, db: Db, now: int)
    ensures var n := |s.theirs| + |s.mine|;
            Next(db, WrongStep(s, now)) == ApplyAnswer(db, User(s.user), Turn(n, 0), s.word, Wrong, now, n + 2).0
  {
  }

  /** The joined answers make the schedule of `n` right ones. */
  ghost predicate MergedInto(db: Db, user: UserId, a: AnonymousId, word: WordId, n: nat) {
    Merged(db, user, a, word).Some? && Merged(db, user, a, word).value.state == Replay(Rights(n))
  }

  lemma WrongIsAccepted(s: Story, middle: Db, db: Db, now: int)
    requires s.Told() && Enabled(db, WrongStep(s, now)) && Served(db, WrongStep(s, now)) && now <= LATEST_REVIEW
    requires Followed(middle, db, s.SignedIn(), s.Half(), s.mine, |s.mine|)
    ensures AnswerIsAccepted(db, s.user, s.word, |s.theirs| + |s.mine|, now)
  {
    LapseAfterRights(|s.mine|, Lookup(db.reviews, ReviewKey(User(s.user), s.word)), now);
  }

  ghost predicate AnswerIsAccepted(db: Db, user: UserId, word: WordId, n: nat, now: int) {
    Fresh(db.log, now, n + 2) && ApplyAnswer(db, User(user), Turn(n, 0), word, Wrong, now, n + 2).1
  }

  /** A wrong answer accepted on the account after up to 26 right ones between the two. */
  lemma NextMergeBinds(db: Db, user: UserId, a: AnonymousId, word: WordId, n: nat, now: int, after: Db)
    requires LogOrdered(db.log) && a in db.profiles && a !in db.bindings && OthersFit(db, user, a, word)
    requires AnswerIsAccepted(db, user, word, n, now) && n <= 26 && now <= LATEST_REVIEW
    requires MergedInto(db, user, a, word, n) && after == ApplyAnswer(db, User(user), Turn(n, 0), word, Wrong, now, n + 2).0
    ensures a !in after.bindings && a in ApplyLink(after, user, Some(a)).bindings
  {
    LapseAfterRights(n, Merged(db, user, a, word), now);
    NextMergeIsRefusedExactlyWhen(db, user, a, User(user), Turn(n, 0), word, Wrong, now, n + 2);
  }

  lemma JoinedIsReplay(s: Story, db: Db)
    requires s.mine != []
    requires Answers(db.log, Bound(db, s.user, s.a).bindings, User(s.user), s.word) == JoinedAnswers(s)
    ensures MergedInto(db, s.user, s.a, s.word, |s.theirs| + |s.mine|)
  {
    JoinedAreRight(s);
    ScheduledIsReplay(JoinedAnswers(s));
    QualitiesInAre(JoinedAnswers(s));
  }

  lemma LapseAfterRights(n: nat, before: Option<Schedule>, now: int)
    requires n <= 26 && before.Some? && before.value.state == Replay(Rights(n)) && now <= LATEST_REVIEW
    ensures Storable(Reviewed(before, Answer(2, now)))
  {
    InitialRights(n);
    LapseFitsExactlyWhen(before, now);
  }
}
