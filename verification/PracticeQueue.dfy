/** The live practice queue: serving, deferral and reinsertion. A random draw is any number in [0, 1). */
module PracticeQueue {
  import opened Wrappers
  import opened Sm2

  datatype WordTag = SavedWord | LearningWord | LearnedWord

  datatype Entry = Entry(word: nat, tag: WordTag)

  datatype Queue = Queue(entries: seq<Entry>, position: nat, turnSeq: nat)

  type Draw = r: real | 0.0 <= r < 1.0

  const REINSERT_MIN_AHEAD: nat := 3
  const REINSERT_MAX_AHEAD: nat := 7

  function CreateQueue(due: seq<Entry>): Queue {
    Queue(due, 0, 0)
  }

  predicate IsFinished(queue: Queue) {
    queue.position >= |queue.entries|
  }

  function RemoveAt<T>(s: seq<T>, i: nat): seq<T>
    requires i < |s|
  {
    s[..i] + s[i + 1..]
  }

  function InsertAt<T>(s: seq<T>, i: nat, x: T): seq<T>
    requires i <= |s|
  {
    s[..i] + [x] + s[i..]
  }

  /** The first entry at or after `i` that is not tagged learned; the length when there is none. */
  function FirstUnlearned(entries: seq<Entry>, i: nat): (k: nat)
    requires i <= |entries|
    ensures i <= k <= |entries| && (k < |entries| ==> entries[k].tag != LearnedWord)
    ensures forall j :: i <= j < k ==> entries[j].tag == LearnedWord
    decreases |entries| - i
  {
    if i == |entries| || entries[i].tag != LearnedWord then i else FirstUnlearned(entries, i + 1)
  }

  /** With even odds a learned word at the head lets the first unlearned one behind it go first. */
  function ChooseServed(queue: Queue, draw: Draw): Queue {
    if IsFinished(queue) || queue.entries[queue.position].tag != LearnedWord then queue
    else
      var alternative := FirstUnlearned(queue.entries, queue.position + 1);
      if alternative == |queue.entries| || draw >= 0.5 then queue
      else
        queue.(entries := InsertAt(RemoveAt(queue.entries, alternative), queue.position, queue.entries[alternative]))
  }

  function ReinsertionIndex(queue: Queue, draw: Draw): (index: nat)
    requires !IsFinished(queue)
    ensures queue.position < index <= |queue.entries|
  {
    var remaining := |queue.entries| - (queue.position + 1);
    if remaining < REINSERT_MIN_AHEAD then |queue.entries|
    else
      var spread := (draw * (REINSERT_MAX_AHEAD - REINSERT_MIN_AHEAD + 1) as real).Floor;
      var index := queue.position + REINSERT_MIN_AHEAD + spread;
      if index < |queue.entries| then index else |queue.entries|
  }

  function Advance(queue: Queue, rating: Rating, draw: Draw): Queue {
    if IsFinished(queue) then queue
    else
      Queue(if rating == Wrong then InsertAt(queue.entries, ReinsertionIndex(queue, draw), queue.entries[queue.position])
            else queue.entries,
            queue.position + 1, queue.turnSeq + 1)
  }

  lemma RemoveThenInsert<T>(s: seq<T>, i: nat, j: nat)
    requires i < |s| && j < |s|
    ensures multiset(InsertAt(RemoveAt(s, i), j, s[i])) == multiset(s)
  {
    var removed := RemoveAt(s, i);
    assert s == s[..i] + [s[i]] + s[i + 1..];
    assert removed == removed[..j] + removed[j..];
    assert multiset(removed) + multiset{s[i]} == multiset(s);
  }

  /** The answered prefix, the words and the length are never touched by serving; only what is served may change. */
  lemma ServingReorders(queue: Queue, draw: Draw)
    ensures var served := ChooseServed(queue, draw);
            served.position == queue.position && served.turnSeq == queue.turnSeq &&
            |served.entries| == |queue.entries| && multiset(served.entries) == multiset(queue.entries) &&
            (queue.position <= |queue.entries| ==> served.entries[..queue.position] == queue.entries[..queue.position])
  {
    var served := ChooseServed(queue, draw);
    if served != queue {
      var entries, p := queue.entries, queue.position;
      var k := FirstUnlearned(entries, p + 1);
      var removed := RemoveAt(entries, k);
      RemoveThenInsert(entries, k, p);
      assert removed[..p] == entries[..p];
    }
  }

  /** A deferral serves an unlearned word and puts the deferred one in the very next slot, the rest in their order. */
  lemma DeferralServesNext(queue: Queue, draw: Draw)
    requires ChooseServed(queue, draw) != queue
    ensures var served, p := ChooseServed(queue, draw), queue.position;
            p + 1 < |served.entries| && served.entries[p].tag != LearnedWord && served.entries[p + 1] == queue.entries[p] &&
            RemoveAt(served.entries, p)[p..] == RemoveAt(queue.entries, FirstUnlearned(queue.entries, p + 1))[p..]
  {
    var entries, p := queue.entries, queue.position;
    var k := FirstUnlearned(entries, p + 1);
    var removed := RemoveAt(entries, k);
    assert removed[p] == entries[p];
    var served := ChooseServed(queue, draw).entries;
    assert served == removed[..p] + [entries[k]] + removed[p..];
    assert RemoveAt(served, p)[p..] == removed[p..];
  }

  /** A wrong word comes back three to seven turns later, at the tail when fewer than three slots remain, never sooner. */
  lemma WrongWordReturns(queue: Queue, draw: Draw)
    requires !IsFinished(queue)
    ensures var after, p := Advance(queue, Wrong, draw), queue.position;
            var index := ReinsertionIndex(queue, draw);
            |after.entries| == |queue.entries| + 1 && after.entries[index] == queue.entries[p] &&
            (if p + 3 < |queue.entries| then p + 3 <= index <= p + 7 else index == |queue.entries|)
  {
    var product := draw * 5.0;
    assert 0.0 <= product < 5.0;
    assert 0 <= product.Floor <= 4;
  }

  /** The slots still to serve drop by one on a right answer and stay as many on a wrong one; what was served stays served. */
  lemma AdvanceCounts(queue: Queue, rating: Rating, draw: Draw)
    requires !IsFinished(queue)
    ensures var after := Advance(queue, rating, draw);
            |after.entries| - after.position == |queue.entries| - queue.position - (if rating == Right then 1 else 0) &&
            after.position == queue.position + 1 && after.turnSeq == queue.turnSeq + 1 &&
            after.entries[..after.position] == queue.entries[..after.position] &&
            multiset(after.entries) ==
              multiset(queue.entries) + (if rating == Wrong then multiset{queue.entries[queue.position]} else multiset{})
  {
    if rating == Wrong {
      var index := ReinsertionIndex(queue, draw);
      assert queue.entries == queue.entries[..index] + queue.entries[index..];
    }
  }
}
