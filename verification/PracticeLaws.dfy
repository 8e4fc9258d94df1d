/** Every reachable practice session keeps its record exact, whatever the interleaving of commits and queue saves. */
module PracticeLaws {
  import opened Wrappers
  import opened Sm2
  import opened PracticeQueue
  import opened PracticeSession

  // Words of a queue

  lemma {:induction false} WordsAppend(a: seq<Entry>, b: seq<Entry>)
    ensures Words(a + b) == Words(a) + Words(b)
  {
    if b == [] {
      assert a + b == a;
    } else {
      var init, last := b[..|b| - 1], b[|b| - 1];
      WordsAppend(a, init);
      assert (a + b)[..|a + b| - 1] == a + init && (a + b)[|a + b| - 1] == last;
    }
  }

  lemma WordsOne(x: Entry)
    ensures Words([x]) == multiset{x.word}
  {
    assert [x][..0] == [];
  }

  lemma {:induction false} WordsCount(entries: seq<Entry>)
    ensures |Words(entries)| == |entries|
  {
    if entries != [] {
      WordsCount(entries[..|entries| - 1]);
    }
  }

  lemma WordsInsert(s: seq<Entry>, i: nat, x: Entry)
    requires i <= |s|
    ensures Words(InsertAt(s, i, x)) == Words(s) + multiset{x.word}
  {
    var a, b := s[..i], s[i..];
    assert s == a + b;
    WordsAppend(a, b);
    WordsAppend(a + [x], b);
    WordsAppend(a, [x]);
    WordsOne(x);
    Reorder(Words(a), Words(b), multiset{x.word});
  }

  lemma Reorder(a: multiset<nat>, b: multiset<nat>, c: multiset<nat>)
    ensures (a + c) + b == (a + b) + c
  {
  }

  lemma WordsRemove(s: seq<Entry>, i: nat)
    requires i < |s|
    ensures Words(RemoveAt(s, i)) + multiset{s[i].word} == Words(s)
  {
    WordsInsert(RemoveAt(s, i), i, s[i]);
    PutBack(s, i);
  }

  lemma PutBack<T>(s: seq<T>, i: nat)
    requires i < |s|
    ensures InsertAt(RemoveAt(s, i), i, s[i]) == s
  {
    assert RemoveAt(s, i)[..i] == s[..i] && RemoveAt(s, i)[i..] == s[i + 1..];
  }

  lemma ServedWords(queue: Queue, draw: Draw)
    ensures Words(ChooseServed(queue, draw).entries) == Words(queue.entries)
  {
    var entries := queue.entries;
    if ChooseServed(queue, draw) != queue {
      var k := FirstUnlearned(entries, queue.position + 1);
      WordsRemove(entries, k);
      WordsInsert(RemoveAt(entries, k), queue.position, entries[k]);
    }
  }

  // The record

  lemma {:induction false} AnsweredAgrees(a: map<nat, Attempt>, b: map<nat, Attempt>, n: nat, rating: Rating)
    requires forall t: nat :: t < n ==> t in a && t in b && a[t] == b[t]
    ensures Answered(a, n, rating) == Answered(b, n, rating)
  {
    if n > 0 {
      AnsweredAgrees(a, b, n - 1, rating);
    }
  }

  /** The served prefix of a faithful queue is what was answered, right and wrong together. */
  lemma {:induction false} PrefixIsAnswered(entries: seq<Entry>, attempts: map<nat, Attempt>, p: nat)
    requires p <= |entries| && forall t: nat :: t < p ==> t in attempts && attempts[t].word == entries[t].word
    ensures Words(entries[..p]) == Answered(attempts, p, Right) + Answered(attempts, p, Wrong)
  {
    if p > 0 {
      PrefixIsAnswered(entries, attempts, p - 1);
      WordsLast(entries, p - 1);
      AnsweredLast(attempts, p - 1);
    }
  }

  lemma WordsLast(entries: seq<Entry>, p: nat)
    requires p < |entries|
    ensures Words(entries[..p + 1]) == Words(entries[..p]) + multiset{entries[p].word}
  {
    assert entries[..p + 1][..p] == entries[..p];
  }

  /** Whichever way a turn was answered, its word counts once. */
  lemma AnsweredLast(attempts: map<nat, Attempt>, n: nat)
    requires forall t: nat :: t <= n ==> t in attempts
    ensures Answered(attempts, n + 1, Right) + Answered(attempts, n + 1, Wrong) ==
            (Answered(attempts, n, Right) + Answered(attempts, n, Wrong)) + multiset{attempts[n].word}
  {
    Reorder(Answered(attempts, n, Right), Answered(attempts, n, Wrong), multiset{attempts[n].word});
  }

  function RightsBefore(attempts: map<nat, Attempt>, n: nat): set<nat> {
    set t | t in RightTurns(attempts) && t < n
  }

  lemma RightsStep(attempts: map<nat, Attempt>, n: nat)
    requires n in attempts
    ensures |RightsBefore(attempts, n + 1)| == |RightsBefore(attempts, n)| + if attempts[n].rating == Right then 1 else 0
  {
    var before := RightsBefore(attempts, n);
    if attempts[n].rating == Right {
      assert RightsBefore(attempts, n + 1) == before + {n} && n !in before;
    } else {
      assert RightsBefore(attempts, n + 1) == before;
    }
  }

  lemma {:induction false} RightsAreCounted(attempts: map<nat, Attempt>, n: nat)
    requires forall t: nat :: t < n ==> t in attempts
    ensures |RightsBefore(attempts, n)| == |Answered(attempts, n, Right)|
  {
    if n == 0 {
      assert RightsBefore(attempts, 0) == {};
    } else {
      RightsAreCounted(attempts, n - 1);
      RightsStep(attempts, n - 1);
    }
  }

  /** A recorded attempt never changes what an earlier queue says. */
  lemma FaithfulLater(queue: Queue, due: seq<Entry>, attempts: map<nat, Attempt>, n: nat, attempt: Attempt)
    requires Contiguous(attempts, n) && Faithful(queue, due, attempts, n)
    ensures Contiguous(attempts[n := attempt], n + 1) && Faithful(queue, due, attempts[n := attempt], n + 1)
  {
    AnsweredAgrees(attempts, attempts[n := attempt], queue.position, Wrong);
  }

  lemma ServedFaithful(queue: Queue, draw: Draw, due: seq<Entry>, attempts: map<nat, Attempt>, n: nat)
    requires Contiguous(attempts, n) && Faithful(queue, due, attempts, n)
    ensures Faithful(ChooseServed(queue, draw), due, attempts, n)
  {
    var served := ChooseServed(queue, draw);
    ServingReorders(queue, draw);
    ServedWords(queue, draw);
    forall t: nat | t < served.position ensures attempts[t].word == served.entries[t].word {
      SamePrefix(served.entries, queue.entries, queue.position, t);
    }
  }

  /** Advancing past a recorded answer gives a queue faithful to the record with that answer. */
  lemma AdvancedFaithful(queue: Queue, rating: Rating, draw: Draw, due: seq<Entry>, attempts: map<nat, Attempt>, n: nat)
    requires Contiguous(attempts, n) && Faithful(queue, due, attempts, n) && !IsFinished(queue) && queue.turnSeq < n
    requires attempts[queue.turnSeq] == Attempt(queue.entries[queue.position].word, rating)
    ensures Faithful(Advance(queue, rating, draw), due, attempts, n)
  {
    AdvancedShape(queue, rating, draw);
    AdvancedWords(queue, rating, draw, due, attempts, n);
    FaithfulOnceMore(queue, Advance(queue, rating, draw), due, attempts, n);
  }

  lemma FaithfulOnceMore(queue: Queue, after: Queue, due: seq<Entry>, attempts: map<nat, Attempt>, n: nat)
    requires Contiguous(attempts, n) && Faithful(queue, due, attempts, n) && !IsFinished(queue) && queue.turnSeq < n
    requires attempts[queue.turnSeq].word == queue.entries[queue.position].word
    requires after.position == queue.position + 1 && after.turnSeq == queue.turnSeq + 1
    requires |after.entries| >= |queue.entries| && after.entries[..after.position] == queue.entries[..after.position]
    requires Words(after.entries) == Words(due) + Answered(attempts, after.position, Wrong)
    ensures Faithful(after, due, attempts, n)
  {
    AdvancedPrefix(queue.entries, after.entries, attempts, queue.position);
  }

  lemma AdvancedShape(queue: Queue, rating: Rating, draw: Draw)
    requires !IsFinished(queue)
    ensures var after := Advance(queue, rating, draw);
            after.position == queue.position + 1 && after.turnSeq == queue.turnSeq + 1 &&
            |after.entries| >= |queue.entries| && after.entries[..after.position] == queue.entries[..after.position]
  {
    AdvanceCounts(queue, rating, draw);
  }

  lemma AdvancedPrefix(entries: seq<Entry>, after: seq<Entry>, attempts: map<nat, Attempt>, p: nat)
    requires p < |entries| && p < |after| && after[..p + 1] == entries[..p + 1]
    requires forall t: nat :: t <= p ==> t in attempts && attempts[t].word == entries[t].word
    ensures forall t: nat :: t <= p ==> attempts[t].word == after[t].word
  {
    forall t: nat | t <= p ensures after[t] == entries[t] {
      SamePrefix(after, entries, p + 1, t);
    }
  }

  lemma SamePrefix(a: seq<Entry>, b: seq<Entry>, n: nat, t: nat)
    requires t < n <= |a| && n <= |b| && a[..n] == b[..n]
    ensures a[t] == b[t]
  {
    assert a[..n][t] == b[..n][t];
  }

  lemma AdvancedWords(queue: Queue, rating: Rating, draw: Draw, due: seq<Entry>, attempts: map<nat, Attempt>, n: nat)
    requires Contiguous(attempts, n) && queue.turnSeq == queue.position < n && !IsFinished(queue)
    requires attempts[queue.turnSeq] == Attempt(queue.entries[queue.position].word, rating)
    requires Words(queue.entries) == Words(due) + Answered(attempts, queue.position, Wrong)
    ensures Words(Advance(queue, rating, draw).entries) == Words(due) + Answered(attempts, queue.position + 1, Wrong)
  {
    if rating == Wrong {
      WordsInsert(queue.entries, ReinsertionIndex(queue, draw), queue.entries[queue.position]);
    }
  }

  lemma WholeIsAnswered(entries: seq<Entry>, attempts: map<nat, Attempt>, n: nat)
    requires n == |entries| && forall t: nat :: t < n ==> t in attempts && attempts[t].word == entries[t].word
    ensures Words(entries) == Answered(attempts, n, Right) + Answered(attempts, n, Wrong)
  {
    PrefixIsAnswered(entries, attempts, n);
    assert entries[..n] == entries;
  }

  /** A finished faithful queue is a record in which the due words were each answered right, once per appearance. */
  lemma FinishedIsExact(queue: Queue, due: seq<Entry>, attempts: map<nat, Attempt>, n: nat)
    requires Contiguous(attempts, n) && Faithful(queue, due, attempts, n) && IsFinished(queue) && queue.position == n
    ensures Answered(attempts, n, Right) == Words(due)
    ensures |RightTurns(attempts)| == |due| && n == |due| + |Answered(attempts, n, Wrong)|
  {
    var right, wrong := Answered(attempts, n, Right), Answered(attempts, n, Wrong);
    WholeIsAnswered(queue.entries, attempts, n);
    SumCancels(right, Words(due), wrong);
    FinishedCounts(queue.entries, due, attempts, n);
  }

  lemma FinishedCounts(entries: seq<Entry>, due: seq<Entry>, attempts: map<nat, Attempt>, n: nat)
    requires Contiguous(attempts, n) && |entries| == n && Words(entries) == Words(due) + Answered(attempts, n, Wrong)
    requires Answered(attempts, n, Right) == Words(due)
    ensures |RightTurns(attempts)| == |due| && n == |due| + |Answered(attempts, n, Wrong)|
  {
    RightsAreCounted(attempts, n);
    assert RightsBefore(attempts, n) == RightTurns(attempts);
    WordsCount(due);
    WordsCount(entries);
  }

  lemma SumCancels(a: multiset<nat>, b: multiset<nat>, c: multiset<nat>)
    requires a + c == b + c
    ensures a == b
  {
    assert (a + c) - c == a && (b + c) - c == b;
  }

  // The steps

  lemma FinaliseKeeps(s: Session, status: Status)
    requires Inv(s) && status != Completed
    ensures Inv(Finalise(s, status))
  {
    var after := Finalise(s, status);
    assert forall id :: id in after.requests ==> RequestHolds(s, |s.attempts|, id);
    forall id | id in after.requests ensures RequestHolds(after, |after.attempts|, id) {
      SameRequest(s, after, id);
    }
  }

  /** What a request claims depends on the record, the due words and the requests' queues alone. */
  lemma SameRequest(s: Session, after: Session, id: nat)
    requires after.due == s.due && after.attempts == s.attempts && id in after.requests && id in s.requests
    requires after.requests[id] == s.requests[id]
    requires forall o :: o in after.requests ==> o in s.requests && after.requests[o] == s.requests[o]
    requires after.stored.None? || after.stored == s.stored
    requires Contiguous(s.attempts, |s.attempts|) && RequestHolds(s, |s.attempts|, id)
    ensures RequestHolds(after, |s.attempts|, id)
  {
  }

  lemma ForgetKeeps(s: Session, id: nat)
    requires Inv(s)
    ensures Inv(Forget(s, id))
  {
    var after := Forget(s, id);
    forall o | o in after.requests ensures RequestHolds(after, |after.attempts|, o) {
      SameRequest(s, after, o);
    }
  }

  lemma LoseKeeps(s: Session)
    requires Inv(s)
    ensures Inv(s.(stored := None))
  {
    var after := s.(stored := None);
    forall o | o in after.requests ensures RequestHolds(after, |after.attempts|, o) {
      SameRequest(s, after, o);
    }
  }

  lemma OpenKeeps(s: Session, draw: Draw, saved: bool)
    requires Inv(s)
    ensures Inv(OpenStep(s, draw, saved))
  {
    if !s.launched {
      if saved {
        ServedFaithful(CreateQueue(s.due), draw, s.due, s.attempts, 0);
        ServingReorders(CreateQueue(s.due), draw);
      } else {
        var launched := s.(launched := true);
        forall o | o in launched.requests ensures RequestHolds(launched, |launched.attempts|, o) {
          SameRequest(s, launched, o);
        }
        FinaliseKeeps(launched, Abandoned);
      }
    }
  }

  lemma CheckKeeps(s: Session, id: nat, turnSeq: nat, rating: Rating)
    requires Inv(s)
    ensures Inv(CheckStep(s, id, turnSeq, rating))
  {
    var after := CheckStep(s, id, turnSeq, rating);
    forall o | o in after.requests ensures RequestHolds(after, |after.attempts|, o) {
      if o in s.requests {
        assert RequestHolds(s, |s.attempts|, o);
      }
    }
  }

  lemma LoadKeeps(s: Session, id: nat, reachable: bool)
    requires Inv(s)
    ensures Inv(LoadStep(s, id, reachable))
  {
    var after := LoadStep(s, id, reachable);
    if id in s.requests && s.requests[id].Checked? {
      if !reachable || s.stored.None? || IsFinished(s.stored.value) {
        FinaliseKeeps(s, Abandoned);
        ForgetKeeps(Finalise(s, Abandoned), id);
      } else if s.requests[id].turnSeq != s.stored.value.turnSeq {
        ForgetKeeps(s, id);
      } else {
        LoadedHolds(s, after, id);
      }
    }
  }

  lemma LoadedHolds(s: Session, after: Session, id: nat)
    requires Inv(s) && id in s.requests && s.requests[id].Checked? && s.stored.Some? && !IsFinished(s.stored.value)
    requires after == s.(requests := s.requests[id := Loaded(s.requests[id].rating, s.stored.value)])
    ensures Inv(after)
  {
    var n := |s.attempts|;
    forall o | o in after.requests ensures RequestHolds(after, n, o) {
      if o != id {
        assert RequestHolds(s, n, o);
        if s.requests[o].Committed? {
          assert Settled(s, n);
        }
      }
    }
  }

  lemma CommitKeeps(s: Session, id: nat, stored: bool)
    requires Inv(s)
    ensures Inv(CommitStep(s, id, stored))
  {
    if id in s.requests && s.requests[id].Loaded? && !IsFinished(s.requests[id].queue) {
      if s.requests[id].queue.turnSeq in s.attempts || !stored {
        ForgetKeeps(s, id);
      } else {
        CommittedHolds(s, id);
      }
    }
  }

  /** An accepted answer is always the next turn of the record, and leaves no other queue at that turn's successor. */
  lemma CommittedHolds(s: Session, id: nat)
    requires Inv(s) && id in s.requests && s.requests[id].Loaded? && s.requests[id].queue.turnSeq !in s.attempts
    ensures Inv(CommitStep(s, id, true))
  {
    var n, queue, after := |s.attempts|, s.requests[id].queue, CommitStep(s, id, true);
    assert RequestHolds(s, n, id);
    assert queue.turnSeq == n;
    var attempt := Attempt(queue.entries[queue.position].word, s.requests[id].rating);
    assert after.attempts == s.attempts[n := attempt] && |after.attempts| == n + 1;
    forall o | o in s.requests ensures !s.requests[o].Committed? {
      assert RequestHolds(s, n, o);
    }
    if s.stored.Some? {
      FaithfulLater(s.stored.value, s.due, s.attempts, n, attempt);
    }
    FaithfulLater(queue, s.due, s.attempts, n, attempt);
    forall o | o in after.requests
      ensures RequestHolds(s, n, o)
      ensures !after.requests[o].Checked? ==> Faithful(after.requests[o].queue, s.due, after.attempts, n + 1)
    {
      assert RequestHolds(s, n, o);
      if !after.requests[o].Checked? {
        FaithfulLater(after.requests[o].queue, s.due, s.attempts, n, attempt);
      }
    }
    assert Settled(after, n + 1);
    forall o | o in after.requests ensures RequestHolds(after, n + 1, o) {
    }
    assert s.status != Completed;
  }

  lemma PublishKeeps(s: Session, id: nat, reinsertion: Draw, deferral: Draw, saved: bool)
    requires Inv(s)
    ensures Inv(PublishStep(s, id, reinsertion, deferral, saved))
  {
    if id in s.requests && s.requests[id].Committed? {
      var n, queue, rating := |s.attempts|, s.requests[id].queue, s.requests[id].rating;
      assert RequestHolds(s, n, id);
      var advanced := Advance(queue, rating, reinsertion);
      AdvanceCounts(queue, rating, reinsertion);
      AdvancedFaithful(queue, rating, reinsertion, s.due, s.attempts, n);
      ForgetKeeps(s, id);
      var done := Forget(s, id);
      if !saved {
        FinaliseKeeps(done, Abandoned);
      } else if IsFinished(advanced) {
        FinishedIsExact(advanced, s.due, s.attempts, n);
        CompletedHolds(s, id);
      } else {
        ServedFaithful(advanced, deferral, s.due, s.attempts, n);
        SavedHolds(s, id, ChooseServed(advanced, deferral));
      }
    }
  }

  lemma CompletedHolds(s: Session, id: nat)
    requires Inv(s) && id in s.requests && s.requests[id].Committed?
    requires Answered(s.attempts, |s.attempts|, Right) == Words(s.due)
    requires |RightTurns(s.attempts)| == |s.due| && |s.attempts| == |s.due| + |Answered(s.attempts, |s.attempts|, Wrong)|
    ensures Inv(Finalise(Forget(s, id), Completed))
  {
    var n, after := |s.attempts|, Finalise(Forget(s, id), Completed);
    assert RequestHolds(s, n, id);
    forall o | o in after.requests ensures RequestHolds(after, n, o) && !after.requests[o].Committed? {
      assert RequestHolds(s, n, o);
    }
  }

  lemma SavedHolds(s: Session, id: nat, queue: Queue)
    requires Inv(s) && id in s.requests && s.requests[id].Committed?
    requires Faithful(queue, s.due, s.attempts, |s.attempts|)
    ensures Inv(Forget(s, id).(stored := Some(queue)))
  {
    var n, after := |s.attempts|, Forget(s, id).(stored := Some(queue));
    assert RequestHolds(s, n, id);
    forall o | o in after.requests ensures RequestHolds(after, n, o) {
      assert RequestHolds(s, n, o);
    }
  }

  lemma StepKeeps(s: Session, step: Step)
    requires Inv(s)
    ensures Inv(Next(s, step))
  {
    match step
    case Open(draw, saved) => OpenKeeps(s, draw, saved);
    case Check(id, turnSeq, rating) => CheckKeeps(s, id, turnSeq, rating);
    case Load(id, reachable) => LoadKeeps(s, id, reachable);
    case Commit(id, stored) => CommitKeeps(s, id, stored);
    case Publish(id, reinsertion, deferral, saved) => PublishKeeps(s, id, reinsertion, deferral, saved);
    case Enter(idle, reachable) => FinaliseKeeps(s, if idle then TimedOut else Abandoned);
    case Sweep => FinaliseKeeps(s, TimedOut);
    case LoseQueue => LoseKeeps(s);
    case Crash(id) => ForgetKeeps(s, id);
  }

  lemma StepKeepsDue(s: Session, step: Step)
    ensures Next(s, step).due == s.due
  {
  }

  lemma {:induction false} RunKeeps(s: Session, steps: seq<Step>)
    requires Inv(s)
    ensures Inv(Exec(s, steps)) && Exec(s, steps).due == s.due
    decreases |steps|
  {
    if steps != [] {
      StepKeeps(s, steps[0]);
      StepKeepsDue(s, steps[0]);
      RunKeeps(Next(s, steps[0]), steps[1..]);
    }
  }

  /**
   * Whatever requests, failures, lost queues, re-entries and sweeps interleave, a completed session answered every due
   * word right exactly once, and its counts are the due words and the due words plus the wrong answers.
   */
  lemma CompletedSessionsAreExact(due: seq<Entry>, steps: seq<Step>)
    requires Exec(Started(due), steps).status == Completed
    ensures var s := Exec(Started(due), steps);
            var n := |s.attempts|;
            Contiguous(s.attempts, n) &&
            Answered(s.attempts, n, Right) == Words(due) && s.correctCount == |due| &&
            s.totalAttempts == n == |due| + |Answered(s.attempts, n, Wrong)|
  {
    RunKeeps(Started(due), steps);
  }

  /** In every reachable session the turns answered are an unbroken run from 0, and any queue in circulation agrees with them. */
  lemma QueuesFollowTheRecord(due: seq<Entry>, steps: seq<Step>)
    ensures var s := Exec(Started(due), steps);
            var n := |s.attempts|;
            Contiguous(s.attempts, n) && (s.stored.Some? ==> Faithful(s.stored.value, due, s.attempts, n)) &&
            forall id :: id in s.requests && !s.requests[id].Checked? ==> Faithful(s.requests[id].queue, due, s.attempts, n)
  {
    RunKeeps(Started(due), steps);
    var s := Exec(Started(due), steps);
    forall id | id in s.requests ensures RequestHolds(s, |s.attempts|, id) {
    }
  }

  /** A recorded attempt is never overwritten, and once a session is final nothing about its record changes its status or counts. */
  lemma RecordIsAppendOnly(s: Session, step: Step, t: nat)
    ensures t in s.attempts ==> t in Next(s, step).attempts && Next(s, step).attempts[t] == s.attempts[t]
    ensures s.status != Active ==>
              var after := Next(s, step);
              (after.status, after.totalAttempts, after.correctCount) == (s.status, s.totalAttempts, s.correctCount)
  {
  }
}
