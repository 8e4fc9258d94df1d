/** SM-2 scheduling, with ease held in thousandths: what one review does, and what whole histories can reach. */
module Sm2 {
  import opened Wrappers

  datatype State = State(repetitions: nat, ease: nat, interval: nat)

  const INITIAL := State(0, 2500, 0)
  const MINIMUM_EASE: nat := 1300

  type Quality = q: int | 0 <= q <= 5 witness 5

  datatype Rating = Right | Wrong

  function QualityOf(rating: Rating): Quality {
    match rating case Right => 5 case Wrong => 2
  }

  /** To the nearest whole number, halves up, from thousandths. */
  function Round(thousandths: nat): nat {
    (thousandths + 500) / 1000
  }

  /** The change in ease a review brings, before the floor. */
  function EaseStep(quality: Quality): int {
    var lapse := 5 - quality;
    100 - lapse * (80 + lapse * 20)
  }

  function Review(state: State, quality: Quality): State {
    var ease := state.ease + EaseStep(quality);
    var floored: nat := if ease < MINIMUM_EASE then MINIMUM_EASE else ease;
    if quality >= 3 then
      State(state.repetitions + 1, floored,
            if state.repetitions == 0 then 1 else if state.repetitions == 1 then 6 else Round(state.interval * state.ease))
    else State(0, floored, 1)
  }

  /** A quality outside 0 to 5 is refused. */
  function ApplySm2Review(state: State, quality: int): Option<State> {
    if 0 <= quality <= 5 then Some(Review(state, quality)) else None
  }

  /** The state after a history of answers to one word, from the state of a word never practised. */
  function Replay(qualities: seq<Quality>): State {
    if qualities == [] then INITIAL else Review(Replay(qualities[..|qualities| - 1]), qualities[|qualities| - 1])
  }

  lemma ReplayAppends(qualities: seq<Quality>, q: Quality)
    ensures Replay(qualities + [q]) == Review(Replay(qualities), q)
  {
    assert (qualities + [q])[..|qualities|] == qualities;
  }

  function Rights(n: nat): seq<Quality> {
    seq(n, i => 5)
  }

  /** What every reachable state satisfies: the ease floor, and the first two intervals fixed by the repetition count. */
  predicate Reachable(s: State) {
    s.ease >= MINIMUM_EASE && (s.repetitions == 1 ==> s.interval == 1) && (s.repetitions == 2 ==> s.interval == 6) &&
    (s.repetitions > 2 ==> s.interval > 6)
  }

  /** A review is refused exactly outside 0 to 5, and otherwise leads from a reachable state to a reachable state. */
  lemma ReviewsStayReachable(s: State, quality: int)
    requires Reachable(s)
    ensures ApplySm2Review(s, quality).None? <==> quality < 0 || quality > 5
    ensures ApplySm2Review(s, quality).Some? ==> Reachable(ApplySm2Review(s, quality).value)
  {
    if s.repetitions >= 2 && 3 <= quality <= 5 {
      IntervalGrows(s, quality);
    }
  }

  lemma {:induction false} EveryHistoryIsReachable(qualities: seq<Quality>)
    ensures Reachable(Replay(qualities))
  {
    if qualities != [] {
      EveryHistoryIsReachable(qualities[..|qualities| - 1]);
      ReviewsStayReachable(Replay(qualities[..|qualities| - 1]), qualities[|qualities| - 1]);
    }
  }

  /** Rounding a product from thousandths loses at most half. */
  lemma RoundedProduct(interval: nat, ease: nat)
    requires ease >= MINIMUM_EASE && interval >= 6
    ensures Round(interval * ease) > interval
    ensures 10 * Round(interval * ease) >= 13 * interval - 5
  {
    var product := interval * ease;
    assert product >= interval * MINIMUM_EASE;
    assert 1000 * Round(product) > product - 500;
  }

  /** From the second right answer on, each further one strictly lengthens the interval, by at least three tenths less rounding. */
  lemma IntervalGrows(s: State, q: Quality)
    requires Reachable(s) && s.repetitions >= 2 && q >= 3
    ensures Review(s, q).interval > s.interval
    ensures 10 * Review(s, q).interval >= 13 * s.interval - 5
  {
    RoundedProduct(s.interval, s.ease);
  }

  /** After `n` right answers and nothing else, ease has risen by exactly a tenth each time. */
  lemma {:induction false} InitialRights(n: nat)
    ensures Replay(Rights(n)).ease == 2500 + 100 * n && Replay(Rights(n)).repetitions == n
  {
    if n > 0 {
      InitialRights(n - 1);
      assert Rights(n)[..n - 1] == Rights(n - 1);
    }
  }

  function QualitiesOf(answers: seq<Rating>): seq<Quality> {
    if answers == [] then [] else QualitiesOf(answers[..|answers| - 1]) + [QualityOf(answers[|answers| - 1])]
  }

  function CountOf(answers: seq<Rating>, rating: Rating): nat {
    if answers == [] then 0
    else CountOf(answers[..|answers| - 1], rating) + if answers[|answers| - 1] == rating then 1 else 0
  }

  /** A tenth up for every right answer, 0.32 down for every wrong one. */
  function Balance(answers: seq<Rating>): int {
    2500 + 100 * CountOf(answers, Right) - 320 * CountOf(answers, Wrong)
  }

  predicate NeverBelowFloor(answers: seq<Rating>) {
    Balance(answers) >= MINIMUM_EASE && (answers == [] || NeverBelowFloor(answers[..|answers| - 1]))
  }

  /** Ease is the balance of the answers exactly while that never fell below the floor, and above it ever after. */
  lemma {:induction false} EaseIsTheBalance(answers: seq<Rating>)
    ensures Replay(QualitiesOf(answers)).ease >= Balance(answers)
    ensures Replay(QualitiesOf(answers)).ease == Balance(answers) <==> NeverBelowFloor(answers)
  {
    if answers != [] {
      var init, last := answers[..|answers| - 1], answers[|answers| - 1];
      EaseIsTheBalance(init);
      ReplayAppends(QualitiesOf(init), QualityOf(last));
    }
  }

  function Power(base: nat, n: nat): nat {
    if n == 0 then 1 else base * Power(base, n - 1)
  }

  /** `more` right answers on end, of quality 3 or better, after a history. */
  predicate Streak(more: seq<Quality>) {
    forall i :: 0 <= i < |more| ==> more[i] >= 3
  }

  /**
   * A streak grows the interval geometrically: with the offset 5/3 that rounding can cost, by at least 1.3 a step.
   */
  lemma {:induction false} StreakGrowsGeometrically(history: seq<Quality>, more: seq<Quality>)
    requires Replay(history).repetitions >= 2 && Streak(more)
    ensures Replay(history + more).repetitions == Replay(history).repetitions + |more|
    ensures Power(10, |more|) * (3 * Replay(history + more).interval - 5) >= Power(13, |more|) * (3 * Replay(history).interval - 5)
  {
    if more == [] {
      assert history + more == history;
    } else {
      var n := |more| - 1;
      var init, q := more[..n], more[n];
      StreakGrowsGeometrically(history, init);
      assert history + more == (history + init) + [q];
      ReplayAppends(history + init, q);
      var s := Replay(history + init);
      EveryHistoryIsReachable(history + init);
      IntervalGrows(s, q);
      GrowthStep(Power(10, n), Power(13, n), 3 * Replay(history).interval - 5, s.interval, Review(s, q).interval);
    }
  }

  lemma GrowthStep(p: nat, r: nat, start: int, before: nat, after: nat)
    requires p * (3 * before - 5) >= r * start && 10 * after >= 13 * before - 5
    ensures 10 * p * (3 * after - 5) >= 13 * r * start
  {
    assert 10 * (3 * after - 5) >= 13 * (3 * before - 5);
    assert p * (10 * (3 * after - 5)) >= p * (13 * (3 * before - 5));
  }

  // What is stored

  /** Times are in milliseconds since 1970, UTC. */
  const DAY: nat := 86400000

  /** 9999-12-31 23:59:59, the last second a DATETIME holds. */
  const LAST_INSTANT: int := 253402300799000

  /** The end of the year 4417, from which 13 right answers still leave a due date that a DATETIME holds. */
  const LATEST_REVIEW: int := 77243241599999

  datatype Answer = Answer(quality: Quality, at: int)

  datatype Schedule = Schedule(state: State, reviewedAt: int)

  /** Whole days after the review, cut to the second. */
  function NextDueAt(reviewedAt: int, interval: nat): int {
    (reviewedAt + interval * DAY) / 1000 * 1000
  }

  /** DECIMAL(4,3), INT and INT. */
  predicate FitsColumns(s: State) {
    s.ease <= 9999 && s.repetitions <= 0x7FFF_FFFF && s.interval <= 0x7FFF_FFFF
  }

  function DueAt(s: Schedule): int {
    NextDueAt(s.reviewedAt, s.state.interval)
  }

  /** The row, its due date included, can be written. */
  predicate Storable(s: Schedule) {
    FitsColumns(s.state) && DueAt(s) <= LAST_INSTANT
  }

  /** A wrong answer brings a schedule back within its columns, unless ease or the next day is already beyond them. */
  lemma LapseFitsExactlyWhen(before: Option<Schedule>, at: int)
    ensures Storable(Reviewed(before, Answer(2, at))) <==>
            (before.Some? ==> before.value.state.ease <= 10319) && NextDueAt(at, 1) <= LAST_INSTANT
  {
  }

  function Reviewed(before: Option<Schedule>, answer: Answer): Schedule {
    Schedule(Review(if before.None? then INITIAL else before.value.state, answer.quality), answer.at)
  }

  /** The schedule a history of timed answers leaves. */
  function Scheduled(answers: seq<Answer>): Option<Schedule> {
    if answers == [] then None
    else Some(Reviewed(Scheduled(answers[..|answers| - 1]), answers[|answers| - 1]))
  }

  lemma ScheduledAppends(answers: seq<Answer>, answer: Answer)
    ensures Scheduled(answers + [answer]) == Some(Reviewed(Scheduled(answers), answer))
  {
    assert (answers + [answer])[..|answers|] == answers;
  }

  function QualitiesIn(answers: seq<Answer>): seq<Quality> {
    if answers == [] then [] else QualitiesIn(answers[..|answers| - 1]) + [answers[|answers| - 1].quality]
  }

  /** A schedule is SM-2 replayed from the start, last reviewed at the last answer. */
  lemma {:induction false} ScheduledIsReplay(answers: seq<Answer>)
    requires answers != []
    ensures Scheduled(answers) == Some(Schedule(Replay(QualitiesIn(answers)), answers[|answers| - 1].at))
  {
    var init, last := answers[..|answers| - 1], answers[|answers| - 1];
    if init != [] { ScheduledIsReplay(init); }
    ReplayAppends(QualitiesIn(init), last.quality);
  }

  // When the columns give out

  /** The intervals of a word answered right every time. */
  const RIGHT_INTERVALS: seq<nat> :=
    [0, 1, 6, 16, 45, 131, 393, 1218, 3898, 12863, 43734, 153069, 551048, 2038878, 7747736, 30216170, 120864680,
     495545188, 2081289790, 8949546097]

  lemma NextInterval(n: nat)
    requires 2 <= n < 19
    ensures Round(RIGHT_INTERVALS[n] * (2500 + 100 * n)) == RIGHT_INTERVALS[n + 1]
  {
    if n == 2 {} else if n == 3 {} else if n == 4 {} else if n == 5 {} else if n == 6 {} else if n == 7 {}
    else if n == 8 {} else if n == 9 {} else if n == 10 {} else if n == 11 {} else if n == 12 {} else if n == 13 {}
    else if n == 14 {} else if n == 15 {} else if n == 16 {} else if n == 17 {} else {}
  }

  lemma {:induction false} RightIntervals(n: nat)
    requires n < 20
    ensures Replay(Rights(n)) == State(n, 2500 + 100 * n, RIGHT_INTERVALS[n])
  {
    if n > 0 {
      RightIntervals(n - 1);
      assert Rights(n)[..n - 1] == Rights(n - 1);
      assert Replay(Rights(n)) == Review(Replay(Rights(n - 1)), 5);
      NextRight(n - 1);
    }
  }

  lemma NextRight(n: nat)
    requires n < 19
    ensures Review(State(n, 2500 + 100 * n, RIGHT_INTERVALS[n]), 5) == State(n + 1, 2600 + 100 * n, RIGHT_INTERVALS[n + 1])
  {
    if n >= 2 { NextInterval(n); }
  }

  lemma {:induction false} LaterIntervals(n: nat, m: nat)
    requires 2 <= n <= m
    ensures Replay(Rights(m)).interval >= Replay(Rights(n)).interval
  {
    if n < m {
      LaterIntervals(n, m - 1);
      InitialRights(m - 1);
      EveryHistoryIsReachable(Rights(m - 1));
      IntervalGrows(Replay(Rights(m - 1)), 5);
      assert Rights(m)[..m - 1] == Rights(m - 1);
    }
  }

  lemma RightIntervalFits(n: nat, most: nat, k: nat)
    requires 2 <= k < 19 && RIGHT_INTERVALS[k] <= most < RIGHT_INTERVALS[k + 1]
    ensures Replay(Rights(n)).interval <= most <==> n <= k
  {
    RightIntervals(k);
    RightIntervals(k + 1);
    if n > k {
      LaterIntervals(k + 1, n);
    } else if n >= 2 {
      LaterIntervals(n, k);
    } else {
      RightIntervals(n);
    }
  }

  /**
   * Nothing caps a word answered right every time, and each column gives out at its own answer: the due date at the
   * 14th, for any review up to the year 4417, the interval at the 19th, ease at the 75th. So the row can be written
   * exactly up to the 13th.
   */
  lemma RightsOutgrowTheirColumns(n: nat, at: int)
    requires 0 <= at <= LATEST_REVIEW
    ensures Replay(Rights(n)).ease <= 9999 <==> n < 75
    ensures FitsColumns(Replay(Rights(n))) <==> n < 19
    ensures Storable(Schedule(Replay(Rights(n)), at)) <==> n < 14
  {
    InitialRights(n);
    RightIntervalFits(n, 0x7FFF_FFFF, 18);
    RightIntervalFits(n, 2038878, 13);
    RightIntervalFits(n, 2932896, 13);
  }
}
