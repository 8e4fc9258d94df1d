/**
 * The service over one session's row, attempts and live queue, updated in place. A request's stages are methods of
 * their own, since other requests may come between them; a whole request is the method that runs them in turn.
 */
module PracticeService {
  import opened Wrappers
  import opened Sm2
  import opened PracticeQueue
  import opened PracticeSession
  import opened PracticeLaws

  /** What the learner is shown: the next turn, a summary, nothing new, a fresh start, or an error. */
  datatype Reply = NextTurn | Complete | Stale | Restart | Failed

  ghost predicate ServesNext(s: Session, queue: Queue) {
    var n := |s.attempts|;
    Contiguous(s.attempts, n) && Faithful(queue, s.due, s.attempts, n) && queue.turnSeq == n && !IsFinished(queue)
  }

  ghost predicate ExactSummary(s: Session) {
    var n := |s.attempts|;
    Contiguous(s.attempts, n) && Answered(s.attempts, n, Right) == Words(s.due) &&
    s.correctCount == |s.due| && s.totalAttempts == n == |s.due| + |Answered(s.attempts, n, Wrong)|
  }

  /** What is published serves the turn after the record, or closes an exact one. */
  lemma PublishedMeans(s: Session, id: nat, reinsertion: Draw, deferral: Draw)
    requires Inv(s) && id in s.requests && s.requests[id].Committed?
    ensures var after := PublishStep(s, id, reinsertion, deferral, true);
            if IsFinished(Advance(s.requests[id].queue, s.requests[id].rating, reinsertion)) then
              s.status == Active ==> ExactSummary(after)
            else after.stored.Some? && ServesNext(after, after.stored.value)
  {
    PublishKeeps(s, id, reinsertion, deferral, true);
    var advanced := Advance(s.requests[id].queue, s.requests[id].rating, reinsertion);
    assert RequestHolds(s, |s.attempts|, id);
    ServingReorders(advanced, deferral);
  }

  class LiveSession {
    const due: seq<Entry>
    var launched: bool
    var attempts: map<nat, Attempt>
    var stored: Option<Queue>
    var status: Status
    var totalAttempts: nat
    var correctCount: nat
    var requests: map<nat, Request>

    ghost function Snapshot(): Session
      reads this
    {
      Session(due, launched, attempts, stored, status, totalAttempts, correctCount, requests)
    }

    ghost predicate Valid()
      reads this
    {
      Inv(Snapshot())
    }

    /** A queue from which the next turn of the record is to be served, its words the due ones and the wrong ones again. */
    ghost predicate Serves(queue: Queue)
      reads this
    {
      ServesNext(Snapshot(), queue)
    }

    /** Every due word answered right, and the row says how many attempts that took. */
    ghost predicate SummaryIsExact()
      reads this
    {
      ExactSummary(Snapshot())
    }

    /** The counts are those of the attempts recorded. */
    predicate CountsAttempts()
      reads this
    {
      totalAttempts == |attempts| && correctCount == |RightTurns(attempts)|
    }

    constructor (due: seq<Entry>)
      ensures Snapshot() == Started(due) && Valid()
    {
      this.due := due;
      launched, attempts, stored := false, map[], None;
      status, totalAttempts, correctCount, requests := Active, 0, 0, map[];
      new;
    }

    /**
     * Only an active session is finalised, its counts those of the attempts at this moment; a second finalisation
     * changes nothing.
     */
    method FinaliseSession(next: Status) returns (finalised: bool)
      modifies this`status, this`totalAttempts, this`correctCount
      ensures Snapshot() == Finalise(old(Snapshot()), next)
      ensures finalised <==> old(status) == Active
      ensures finalised ==> status == next && CountsAttempts()
      ensures !finalised ==> Snapshot() == old(Snapshot())
      ensures old(Valid()) && next != Completed ==> Valid()
    {
      if Inv(Snapshot()) && next != Completed { FinaliseKeeps(Snapshot(), next); }
      if status != Active {
        return false;
      }
      status := next;
      totalAttempts := |attempts|;
      correctCount := |RightTurns(attempts)|;
      return true;
    }

    /** The due words are queued, or the session is over before its first turn. */
    method Open(draw: Draw, saved: bool)
      requires Valid() && !launched
      modifies this
      ensures Valid() && Snapshot() == OpenStep(old(Snapshot()), draw, saved)
      ensures attempts == map[]
      ensures saved ==> stored.Some? && multiset(stored.value.entries) == multiset(due) && stored.value.position == 0
      ensures saved && due != [] ==> Serves(stored.value)
      ensures !saved ==> status != Active && stored.None?
    {
      OpenKeeps(Snapshot(), draw, saved);
      ServingReorders(CreateQueue(due), draw);
      launched := true;
      if saved {
        stored := Some(ChooseServed(CreateQueue(due), draw));
      } else {
        var _ := FinaliseSession(Abandoned);
      }
    }

    /** A session that is over takes no further request; one that is active takes it and nothing else changes. */
    method CheckAnswer(id: nat, turnSeq: nat, rating: Rating) returns (active: bool)
      requires Valid() && id !in requests
      modifies this`requests
      ensures Valid() && Snapshot() == CheckStep(old(Snapshot()), id, turnSeq, rating)
      ensures active <==> status == Active
      ensures requests == if active then old(requests)[id := Checked(turnSeq, rating)] else old(requests)
    {
      CheckKeeps(Snapshot(), id, turnSeq, rating);
      active := status == Active;
      if active {
        requests := requests[id := Checked(turnSeq, rating)];
      }
    }

    /**
     * The request goes on exactly with the turn the live queue is at. Otherwise it ends here, with no attempt recorded:
     * a stale one leaves the session as it was, and one that finds no queue ends the session.
     */
    method LoadTurn(id: nat, reachable: bool) returns (reply: Option<Reply>)
      requires Valid() && id in requests && requests[id].Checked?
      modifies this
      ensures Valid() && Snapshot() == LoadStep(old(Snapshot()), id, reachable)
      ensures attempts == old(attempts) && stored == old(stored)
      ensures reply.None? ==> stored.Some? && requests == old(requests)[id := Loaded(old(requests)[id].rating, stored.value)]
      ensures reply.None? ==> status == old(status) && stored.value.turnSeq == old(requests)[id].turnSeq <= |attempts|
      ensures reply.Some? ==> requests == old(requests) - {id}
      ensures reply.Some? ==> reply == Some(if reachable && stored.Some? && !IsFinished(stored.value) then Stale else Restart)
      ensures reply == Some(Stale) ==> status == old(status) && totalAttempts == old(totalAttempts) && correctCount == old(correctCount)
      ensures reply == Some(Restart) ==> status != Active && (old(status) == Active ==> status == Abandoned && CountsAttempts())
    {
      LoadKeeps(Snapshot(), id, reachable);
      if !reachable || stored.None? || IsFinished(stored.value) {
        var _ := FinaliseSession(Abandoned);
        requests := requests - {id};
        return Some(Restart);
      } else if requests[id].turnSeq != stored.value.turnSeq {
        requests := requests - {id};
        return Some(Stale);
      } else {
        requests := requests[id := Loaded(requests[id].rating, stored.value)];
        return None;
      }
    }

    /**
     * At most one answer is recorded for a turn, and a failed transaction records none: what is accepted is the next
     * turn of the record, for the word the queue served, and every earlier attempt stays.
     */
    method CommitTurn(id: nat, committed: bool) returns (accepted: bool)
      requires Valid() && id in requests && requests[id].Loaded?
      modifies this`attempts, this`requests
      ensures Valid() && Snapshot() == CommitStep(old(Snapshot()), id, committed)
      ensures accepted <==> committed && old(requests)[id].queue.turnSeq !in old(attempts)
      ensures accepted ==> old(requests)[id].queue.turnSeq == |old(attempts)| && |attempts| == |old(attempts)| + 1
      ensures accepted ==> requests == old(requests)[id := Committed(old(requests)[id].rating, old(requests)[id].queue)]
      ensures !accepted ==> attempts == old(attempts) && requests == old(requests) - {id}
      ensures forall t :: t in old(attempts) ==> t in attempts && attempts[t] == old(attempts)[t]
    {
      CommitKeeps(Snapshot(), id, committed);
      var queue, rating := requests[id].queue, requests[id].rating;
      AcceptedIsNext(attempts, queue.turnSeq, Attempt(queue.entries[queue.position].word, rating));
      if queue.turnSeq in attempts || !committed {
        requests := requests - {id};
        return false;
      }
      attempts := attempts[queue.turnSeq := Attempt(queue.entries[queue.position].word, rating)];
      requests := requests[id := Committed(rating, queue)];
      return true;
    }

    /** The write after the commit, and what the learner is told of it. */
    method WriteAdvanced(id: nat, reinsertion: Draw, deferral: Draw, saved: bool) returns (reply: Reply)
      requires id in requests && requests[id].Committed? && !IsFinished(requests[id].queue)
      modifies this
      ensures Snapshot() == PublishStep(old(Snapshot()), id, reinsertion, deferral, saved)
      ensures reply == if !saved then Restart
                       else if IsFinished(Advance(old(requests)[id].queue, old(requests)[id].rating, reinsertion)) then Complete
                       else NextTurn
    {
      var advanced := Advance(requests[id].queue, requests[id].rating, reinsertion);
      requests := requests - {id};
      if !saved {
        var _ := FinaliseSession(Abandoned);
        return Restart;
      } else if IsFinished(advanced) {
        var _ := FinaliseSession(Completed);
        return Complete;
      } else {
        stored := Some(ChooseServed(advanced, deferral));
        return NextTurn;
      }
    }

    /**
     * After a commit either the learner is served the next turn of the record, or every due word has been answered
     * right and the row says so, or the queue or the row could not be written and the session is over; the record is not
     * touched.
     */
    method PublishTurn(id: nat, reinsertion: Draw, deferral: Draw, saved: bool) returns (reply: Reply)
      requires Valid() && id in requests && requests[id].Committed?
      modifies this
      ensures Valid() && Snapshot() == PublishStep(old(Snapshot()), id, reinsertion, deferral, saved)
      ensures attempts == old(attempts) && requests == old(requests) - {id}
      ensures reply == NextTurn || reply == Complete || reply == Restart
      ensures reply == Restart <==> !saved
      ensures reply == NextTurn ==> status == old(status) && stored.Some? && Serves(stored.value)
      ensures reply == Complete ==> status != Active && (old(status) == Active ==> status == Completed && SummaryIsExact())
      ensures reply == Restart ==> status != Active && (old(status) == Active ==> status == Abandoned && CountsAttempts())
      ensures reply != NextTurn ==> stored == old(stored)
    {
      ghost var s := Snapshot();
      assert RequestHolds(s, |s.attempts|, id);
      PublishKeeps(s, id, reinsertion, deferral, saved);
      PublishedMeans(s, id, reinsertion, deferral);
      reply := WriteAdvanced(id, reinsertion, deferral, saved);
    }

    /**
     * A whole request with nothing between its stages. What the learner is told is what happened: a stale or failed
     * answer recorded nothing and changed nothing, a next turn recorded one attempt and serves the turn after it, a
     * summary comes with every due word answered right, a fresh start with the session over.
     */
    method AnswerTurn(id: nat, turnSeq: nat, rating: Rating, reachable: bool, committed: bool, reinsertion: Draw,
                      deferral: Draw, saved: bool) returns (reply: Reply)
      requires Valid() && id !in requests
      modifies this
      ensures Valid() && requests == old(requests)
      ensures reply == Stale || reply == Failed ==> Snapshot() == old(Snapshot())
      ensures reply == NextTurn || reply == Complete ==> turnSeq == |old(attempts)| && |attempts| == |old(attempts)| + 1
      ensures reply == NextTurn ==> status == Active && stored.Some? && Serves(stored.value)
      ensures reply == Complete ==> status == Completed && SummaryIsExact()
      ensures reply == Restart ==> old(status) == Active && status == Abandoned && CountsAttempts()
      ensures forall t :: t in old(attempts) ==> t in attempts && attempts[t] == old(attempts)[t]
    {
      ghost var others := requests;
      var active := CheckAnswer(id, turnSeq, rating);
      if !active { return Stale; }
      LastWordStands(others, id, requests[id], requests[id]);
      var ended := LoadTurn(id, reachable);
      if ended.Some? { return ended.value; }
      LastWordStands(others, id, Checked(turnSeq, rating), requests[id]);
      ghost var loaded := requests[id];
      var accepted := CommitTurn(id, committed);
      if !accepted { return if committed then Stale else Failed; }
      LastWordStands(others, id, loaded, requests[id]);
      reply := PublishTurn(id, reinsertion, deferral, saved);
    }

    /**
     * Returning to practice shows the turn a live queue is at, unchanged, times out a session left idle, and ends one
     * whose queue is gone.
     */
    method EnterAgain(idle: bool, reachable: bool) returns (turn: Option<Queue>)
      requires Valid() && status == Active
      modifies this
      ensures Valid() && Snapshot() == EnterStep(old(Snapshot()), idle, reachable)
      ensures turn.Some? <==> !idle && reachable && stored.Some? && !IsFinished(stored.value)
      ensures turn.Some? ==> turn == stored && Snapshot() == old(Snapshot())
      ensures turn.None? ==> status == (if idle then TimedOut else Abandoned) && CountsAttempts() && attempts == old(attempts)
    {
      if idle {
        var _ := FinaliseSession(TimedOut);
        return None;
      }
      if !reachable || stored.None? || IsFinished(stored.value) {
        var _ := FinaliseSession(Abandoned);
        return None;
      }
      return stored;
    }
  }

  /** A request replaced leaves no trace of what it was, and one gone none at all. */
  lemma LastWordStands(requests: map<nat, Request>, id: nat, was: Request, becomes: Request)
    requires id !in requests
    ensures requests[id := was][id := becomes] == requests[id := becomes]
    ensures requests[id := becomes] - {id} == requests
  {
  }

  lemma AcceptedIsNext(attempts: map<nat, Attempt>, turn: nat, attempt: Attempt)
    ensures turn !in attempts ==> |attempts[turn := attempt]| == |attempts| + 1
  {
  }
}
