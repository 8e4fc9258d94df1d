/**
 * One practice session under concurrent requests: attempts are committed to the database, the live queue is saved
 * afterwards and separately, and either may be followed by a failure, a lost queue or a sweep.
 */
module PracticeSession {
  import opened Wrappers
  import opened Sm2
  import opened PracticeQueue

  datatype Attempt = Attempt(word: nat, rating: Rating)

  datatype Status = Active | Completed | TimedOut | Abandoned

  /** How far a request to answer `turnSeq` has come: seen the session active, loaded the queue, committed the attempt. */
  datatype Request =
    | Checked(turnSeq: nat, rating: Rating)
    | Loaded(rating: Rating, queue: Queue)
    | Committed(rating: Rating, queue: Queue)

  datatype Session = Session(
    due: seq<Entry>,
    launched: bool,
    attempts: map<nat, Attempt>,
    stored: Option<Queue>,
    status: Status,
    totalAttempts: nat,
    correctCount: nat,
    requests: map<nat, Request>)

  function Started(due: seq<Entry>): Session {
    Session(due, false, map[], None, Active, 0, 0, map[])
  }

  function RightTurns(attempts: map<nat, Attempt>): set<nat> {
    set t | t in attempts && attempts[t].rating == Right
  }

  /** Only an active session is finalised, from the attempts recorded by then. */
  function Finalise(s: Session, status: Status): Session {
    if s.status == Active then s.(status := status, totalAttempts := |s.attempts|, correctCount := |RightTurns(s.attempts)|) else s
  }

  function Forget(s: Session, id: nat): Session {
    s.(requests := s.requests - {id})
  }

  datatype Step =
    | Open(draw: Draw, saved: bool)
    | Check(id: nat, turnSeq: nat, rating: Rating)
    | Load(id: nat, reachable: bool)
    | Commit(id: nat, stored: bool)
    | Publish(id: nat, reinsertion: Draw, deferral: Draw, saved: bool)
    | Enter(idle: bool, reachable: bool)
    | Sweep
    | LoseQueue
    | Crash(id: nat)

  /** The first queue is saved once the session row exists; if that fails the session is abandoned at once. */
  function OpenStep(s: Session, draw: Draw, saved: bool): Session {
    if s.launched then s
    else if saved then s.(launched := true, stored := Some(ChooseServed(CreateQueue(s.due), draw)))
    else Finalise(s.(launched := true), Abandoned)
  }

  function CheckStep(s: Session, id: nat, turnSeq: nat, rating: Rating): Session {
    if s.status == Active && id !in s.requests then s.(requests := s.requests[id := Checked(turnSeq, rating)]) else s
  }

  function LoadStep(s: Session, id: nat, reachable: bool): Session {
    if id !in s.requests || !s.requests[id].Checked? then s
    else if !reachable || s.stored.None? || IsFinished(s.stored.value) then Forget(Finalise(s, Abandoned), id)
    else if s.requests[id].turnSeq != s.stored.value.turnSeq then Forget(s, id)
    else s.(requests := s.requests[id := Loaded(s.requests[id].rating, s.stored.value)])
  }

  /** The transaction: the unique key on session and turn refuses a second answer; a failed transaction writes nothing. */
  function CommitStep(s: Session, id: nat, stored: bool): Session {
    if id !in s.requests || !s.requests[id].Loaded? || IsFinished(s.requests[id].queue) then s
    else
      var queue, rating := s.requests[id].queue, s.requests[id].rating;
      if queue.turnSeq in s.attempts || !stored then Forget(s, id)
      else
        s.(attempts := s.attempts[queue.turnSeq := Attempt(queue.entries[queue.position].word, rating)],
           requests := s.requests[id := Committed(rating, queue)])
  }

  /**
   * After the commit: the next queue replaces the stored one, or a finished one completes the session. When that write
   * fails, whichever it was, the session is abandoned.
   */
  function PublishStep(s: Session, id: nat, reinsertion: Draw, deferral: Draw, saved: bool): Session {
    if id !in s.requests || !s.requests[id].Committed? then s
    else
      var advanced := Advance(s.requests[id].queue, s.requests[id].rating, reinsertion);
      var done := Forget(s, id);
      if !saved then Finalise(done, Abandoned)
      else if IsFinished(advanced) then Finalise(done, Completed)
      else done.(stored := Some(ChooseServed(advanced, deferral)))
  }

  /** Returning to practice times out an idle session, ends one whose queue is gone or finished, and resumes any other. */
  function EnterStep(s: Session, idle: bool, reachable: bool): Session {
    if idle then Finalise(s, TimedOut)
    else if !reachable || s.stored.None? || IsFinished(s.stored.value) then Finalise(s, Abandoned)
    else s
  }

  function Next(s: Session, step: Step): Session {
    match step
    case Open(draw, saved) => OpenStep(s, draw, saved)
    case Check(id, turnSeq, rating) => CheckStep(s, id, turnSeq, rating)
    case Load(id, reachable) => LoadStep(s, id, reachable)
    case Commit(id, stored) => CommitStep(s, id, stored)
    case Publish(id, reinsertion, deferral, saved) => PublishStep(s, id, reinsertion, deferral, saved)
    case Enter(idle, reachable) => EnterStep(s, idle, reachable)
    case Sweep => Finalise(s, TimedOut)
    case LoseQueue => s.(stored := None)
    case Crash(id) => Forget(s, id)
  }

  function Exec(s: Session, steps: seq<Step>): Session
    decreases |steps|
  {
    if steps == [] then s else Exec(Next(s, steps[0]), steps[1..])
  }

  // What a queue in circulation says about the attempts recorded so far

  function Words(entries: seq<Entry>): multiset<nat> {
    if entries == [] then multiset{} else Words(entries[..|entries| - 1]) + multiset{entries[|entries| - 1].word}
  }

  /** The words answered with `rating` in turns before `n`. */
  function Answered(attempts: map<nat, Attempt>, n: nat, rating: Rating): multiset<nat>
    requires forall t: nat :: t < n ==> t in attempts
  {
    if n == 0 then multiset{}
    else Answered(attempts, n - 1, rating) + if attempts[n - 1].rating == rating then multiset{attempts[n - 1].word} else multiset{}
  }

  ghost predicate Contiguous(attempts: map<nat, Attempt>, n: nat) {
    forall t: nat :: t in attempts <==> t < n
  }

  /** The queue's answered prefix is the record, and its words are the due words and one more for each wrong answer. */
  ghost predicate Faithful(queue: Queue, due: seq<Entry>, attempts: map<nat, Attempt>, n: nat)
    requires Contiguous(attempts, n)
  {
    queue.turnSeq == queue.position <= n && queue.position <= |queue.entries| &&
    (forall t: nat :: t < queue.position ==> attempts[t].word == queue.entries[t].word) &&
    Words(queue.entries) == Words(due) + Answered(attempts, queue.position, Wrong)
  }

  /** A committed request is about to publish, and nobody else holds a queue for the turn after it. */
  ghost predicate Settled(s: Session, n: nat) {
    (s.stored.Some? ==> s.stored.value.turnSeq < n) &&
    (forall id :: id in s.requests && s.requests[id].Loaded? ==> s.requests[id].queue.turnSeq < n)
  }

  ghost predicate RequestHolds(s: Session, n: nat, id: nat)
    requires id in s.requests && Contiguous(s.attempts, n)
  {
    match s.requests[id]
    case Checked(_, _) => true
    case Loaded(_, queue) => Faithful(queue, s.due, s.attempts, n) && !IsFinished(queue)
    case Committed(rating, queue) =>
      Faithful(queue, s.due, s.attempts, n) && !IsFinished(queue) && queue.turnSeq + 1 == n && Settled(s, n) &&
      s.attempts[queue.turnSeq] == Attempt(queue.entries[queue.position].word, rating) &&
      forall other :: other in s.requests && s.requests[other].Committed? ==> other == id
  }

  /** A completed session's record: every due word answered right exactly once, and the counts to match. */
  ghost predicate Exact(s: Session, n: nat)
    requires Contiguous(s.attempts, n)
  {
    Settled(s, n) && (forall id :: id in s.requests ==> !s.requests[id].Committed?) &&
    Answered(s.attempts, n, Right) == Words(s.due) &&
    s.totalAttempts == n && s.correctCount == |s.due| && n == |s.due| + |Answered(s.attempts, n, Wrong)|
  }

  ghost predicate Inv(s: Session) {
    var n := |s.attempts|;
    Contiguous(s.attempts, n) &&
    (!s.launched ==> n == 0 && s.stored.None? && s.status != Completed && forall id :: id in s.requests ==> s.requests[id].Checked?) &&
    (s.stored.Some? ==> Faithful(s.stored.value, s.due, s.attempts, n)) &&
    (forall id :: id in s.requests ==> RequestHolds(s, n, id)) &&
    (s.status == Completed ==> Exact(s, n))
  }
}
