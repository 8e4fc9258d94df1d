/**
 * Learner progress: an append-only log, the rows derived from it, and identities bound to accounts.
 * Each transaction is one step; what a failed transaction wrote is undone.
 */
module Progress {
  import opened Wrappers
  import opened Sorting
  import opened Sm2

  type UserId = nat
  type AnonymousId = nat
  type WordId = nat

  datatype Owner = User(userId: UserId) | Anonymous(anonymousId: AnonymousId)

  datatype TargetKind = Word | Phoneme
  datatype Target = Target(kind: TargetKind, id: nat)

  datatype SaveState = Unsaved | Saved | Learning | Learned
  datatype Tag = TagLearning | TagLearned

  datatype EventKind =
    | Save | Unsave | TagChange(tag: Option<Tag>)
    | AudioListenWord | AudioListenPhoneme | PracticeAttempt(quality: Quality) | WordEncounter

  /** `at` is in milliseconds since 1970, UTC. */
  datatype Event = Event(id: nat, owner: Owner, target: Target, kind: EventKind, at: int)

  datatype Row = Row(state: SaveState, lastEventId: nat)
  datatype RowKey = RowKey(owner: Owner, target: Target)
  datatype ReviewKey = ReviewKey(owner: Owner, word: WordId)
  datatype Turn = Turn(session: nat, turnSeq: nat)

  /** The tables. Every map is a table under its unique key. */
  datatype Db = Db(
    log: seq<Event>,
    bindings: map<AnonymousId, UserId>,
    profiles: set<AnonymousId>,
    rows: map<RowKey, Row>,
    reviews: map<ReviewKey, Schedule>,
    attempts: map<Turn, Rating>)

  const EMPTY := Db([], map[], {}, map[], map[], map[])

  function Lookup<K, V>(m: map<K, V>, k: K): Option<V> {
    if k in m then Some(m[k]) else None
  }

  // Owners and their events

  function Resolve(bindings: map<AnonymousId, UserId>, owner: Owner): Owner {
    if owner.Anonymous? && owner.anonymousId in bindings then User(bindings[owner.anonymousId]) else owner
  }

  /** The owner stands for itself: an account, or an identity bound to none. */
  predicate IsResolved(bindings: map<AnonymousId, UserId>, owner: Owner) {
    Resolve(bindings, owner) == owner
  }

  /** The listing condition of the reconciliation queries, account and identity case by case. */
  predicate Belongs(bindings: map<AnonymousId, UserId>, event: Event, owner: Owner) {
    match owner
    case User(u) => event.owner == User(u) || (event.owner.Anonymous? && Lookup(bindings, event.owner.anonymousId) == Some(u))
    case Anonymous(a) => event.owner == Anonymous(a) && Lookup(bindings, a).None?
  }

  lemma BelongsIsResolution(bindings: map<AnonymousId, UserId>, event: Event, owner: Owner)
    ensures Belongs(bindings, event, owner) <==> Resolve(bindings, event.owner) == owner && IsResolved(bindings, owner)
  {
  }

  predicate IsStateEvent(kind: EventKind) {
    kind.Save? || kind.Unsave? || kind.TagChange?
  }

  function TagState(tag: Option<Tag>): SaveState {
    match tag case None => Saved case Some(TagLearning) => Learning case Some(TagLearned) => Learned
  }

  function StateOf(kind: EventKind): SaveState
    requires IsStateEvent(kind)
  {
    match kind case Save => Saved case Unsave => Unsaved case TagChange(tag) => TagState(tag)
  }

  /** Target, then time, then id: the order of the listings. */
  predicate EventLe(e: Event, f: Event) {
    if e.target.kind != f.target.kind then e.target.kind.Word?
    else if e.target.id != f.target.id then e.target.id < f.target.id
    else if e.at != f.at then e.at < f.at
    else e.id <= f.id
  }

  /** The state events of an owner, whatever their target. */
  function StateEvents(bindings: map<AnonymousId, UserId>, owner: Owner): Event -> bool {
    (e: Event) => IsStateEvent(e.kind) && Belongs(bindings, e, owner)
  }

  function PracticeEvents(bindings: map<AnonymousId, UserId>, owner: Owner): Event -> bool {
    (e: Event) => e.kind.PracticeAttempt? && e.target.kind.Word? && Belongs(bindings, e, owner)
  }

  function StateListing(db: Db, owner: Owner): seq<Event> {
    Sort(EventLe, Filter(StateEvents(db.bindings, owner), db.log))
  }

  function PracticeListing(db: Db, user: UserId): seq<Event> {
    Sort(EventLe, Filter(PracticeEvents(db.bindings, User(user)), db.log))
  }

  /** Replay a listing into states: for each target the last event of the listing decides. */
  function DeriveExpected(events: seq<Event>): map<Target, Row> {
    if events == [] then map[]
    else
      var before, e := DeriveExpected(events[..|events| - 1]), events[|events| - 1];
      if IsStateEvent(e.kind) then before[e.target := Row(StateOf(e.kind), e.id)] else before
  }

  /** Replay practice answers, word by word, through the function live answers use. */
  function ReplayAll(events: seq<Event>): map<WordId, Schedule> {
    if events == [] then map[]
    else
      var before, e := ReplayAll(events[..|events| - 1]), events[|events| - 1];
      if e.kind.PracticeAttempt? then
        before[e.target.id := Reviewed(Lookup(before, e.target.id), Answer(e.kind.quality, e.at))]
      else before
  }

  function LiveRows(db: Db, owner: Owner): map<Target, Row> {
    map k | k in db.rows && k.owner == owner :: k.target := db.rows[k]
  }

  datatype Drift =
    | Missing(target: Target, want: Row)
    | Mismatch(target: Target, want: Row, have: Row)
    | Unexplained(target: Target, have: Row)

  function Diff(expected: map<Target, Row>, live: map<Target, Row>): set<Drift> {
    (set t | t in expected && t !in live :: Missing(t, expected[t])) +
    (set t | t in expected && t in live && live[t] != expected[t] :: Mismatch(t, expected[t], live[t])) +
    (set t | t in live && t !in expected :: Unexplained(t, live[t]))
  }

  function DriftOf(db: Db, owner: Owner): set<Drift> {
    Diff(DeriveExpected(StateListing(db, owner)), LiveRows(db, owner))
  }

  /** Every resolved owner of a state event, and every owner of a row. */
  function ListedOwners(db: Db): set<Owner> {
    (set e | e in db.log && IsStateEvent(e.kind) :: Resolve(db.bindings, e.owner)) + (set k | k in db.rows :: k.owner)
  }

  // The transactions

  datatype Action = DoSave | DoUnsave | DoTag(tag: Option<Tag>)

  datatype Decision = NoChange | Refused | Write(kind: EventKind, next: SaveState)

  function Decide(current: SaveState, action: Action): Decision {
    match action
    case DoSave => if current == Unsaved then Write(Save, Saved) else NoChange
    case DoUnsave => if current == Unsaved then NoChange else Write(Unsave, Unsaved)
    case DoTag(tag) =>
      if current == Unsaved then Refused
      else if TagState(tag) == current then NoChange else Write(TagChange(tag), TagState(tag))
  }

  datatype Viewer = Viewer(userId: Option<UserId>, anonymousId: AnonymousId)

  datatype Outcome = NotFound | Conflict | Done(state: SaveState)

  /** The forward-only upsert: a row already reflecting a later event is left alone. */
  function Upsert(rows: map<RowKey, Row>, key: RowKey, row: Row): map<RowKey, Row> {
    if key in rows && row.lastEventId <= rows[key].lastEventId then rows else rows[key := row]
  }

  function WriteOwner(db: Db, viewer: Viewer): Owner {
    if viewer.userId.Some? then User(viewer.userId.value) else Resolve(db.bindings, Anonymous(viewer.anonymousId))
  }

  function CurrentState(db: Db, owner: Owner, target: Target): SaveState {
    if RowKey(owner, target) in db.rows then db.rows[RowKey(owner, target)].state else Unsaved
  }

  function Touched(db: Db, viewer: Viewer): Db {
    if viewer.userId.Some? then db else db.(profiles := db.profiles + {viewer.anonymousId})
  }

  function ApplySave(db: Db, viewer: Viewer, target: Target, found: bool, action: Action, now: int, id: nat): (Db, Outcome) {
    var owner := WriteOwner(db, viewer);
    var current := CurrentState(db, owner, target);
    if !found then (db, NotFound)
    else
      match Decide(current, action)
      case Refused => (db, Conflict)
      case NoChange => (Touched(db, viewer), Done(current))
      case Write(kind, next) =>
        (Touched(db, viewer).(log := db.log + [Event(id, owner, target, kind, now)],
                              rows := Upsert(db.rows, RowKey(owner, target), Row(next, id))), Done(next))
  }

  /** One answered turn: a second answer to the turn, or a schedule its columns cannot hold, writes nothing. */
  function ApplyAnswer(db: Db, owner: Owner, turn: Turn, word: WordId, rating: Rating, now: int, id: nat): (Db, bool) {
    var after := Reviewed(Lookup(db.reviews, ReviewKey(owner, word)), Answer(QualityOf(rating), now));
    if turn in db.attempts || !Storable(after) then (db, false)
    else
      (db.(attempts := db.attempts[turn := rating],
           log := db.log + [Event(id, owner, Target(Word, word), PracticeAttempt(QualityOf(rating)), now)],
           reviews := db.reviews[ReviewKey(owner, word) := after]), true)
  }

  function RowsOf(owner: Owner, expected: map<Target, Row>): map<RowKey, Row> {
    map t | t in expected :: RowKey(owner, t) := expected[t]
  }

  function Repaired(db: Db, owner: Owner): Db {
    db.(rows := db.rows + RowsOf(owner, DeriveExpected(StateListing(db, owner))))
  }

  function ReviewsOf(user: UserId, states: map<WordId, Schedule>): map<ReviewKey, Schedule> {
    map w | w in states :: ReviewKey(User(user), w) := states[w]
  }

  function Rebuilt(db: Db, user: UserId): Db {
    db.(reviews := db.reviews + ReviewsOf(user, ReplayAll(PracticeListing(db, user))))
  }

  predicate RebuildFits(db: Db, user: UserId) {
    var states := ReplayAll(PracticeListing(db, user));
    forall w :: w in states ==> Storable(states[w])
  }

  function Bound(db: Db, user: UserId, anonymousId: AnonymousId): Db {
    db.(bindings := db.bindings[anonymousId := user])
  }

  /** The merge after sign-in: bind once, and rebuild both derivations under the new binding. */
  function ApplyLink(db: Db, user: UserId, carried: Option<AnonymousId>): Db {
    if carried.None? || carried.value !in db.profiles || carried.value in db.bindings then db
    else
      var bound := Bound(db, user, carried.value);
      if RebuildFits(bound, user) then Rebuilt(Repaired(bound, User(user)), user) else db
  }

  datatype Step =
    | SaveStep(viewer: Viewer, target: Target, found: bool, action: Action, now: int, id: nat)
    | PassiveStep(owner: Owner, target: Target, kind: EventKind, now: int, id: nat)
    | AnswerStep(owner: Owner, turn: Turn, word: WordId, rating: Rating, now: int, id: nat)
    | LinkStep(user: UserId, carried: Option<AnonymousId>)
    | ReconcileStep(owner: Owner)

  /** The clock never runs back, and a new event's id is larger than every id before it. */
  predicate Fresh(log: seq<Event>, now: int, id: nat) {
    forall i :: 0 <= i < |log| ==> log[i].at <= now && log[i].id < id
  }

  predicate Enabled(db: Db, step: Step) {
    match step
    case SaveStep(_, _, _, _, now, id) => Fresh(db.log, now, id)
    case PassiveStep(_, _, kind, now, id) => Fresh(db.log, now, id) && !IsStateEvent(kind) && !kind.PracticeAttempt?
    // A bound identity is retired: it is replaced before any answer could carry it.
    case AnswerStep(owner, _, _, _, now, id) => Fresh(db.log, now, id) && IsResolved(db.bindings, owner)
    case LinkStep(_, _) => true
    case ReconcileStep(_) => true
  }

  function Next(db: Db, step: Step): Db {
    match step
    case SaveStep(viewer, target, found, action, now, id) => ApplySave(db, viewer, target, found, action, now, id).0
    case PassiveStep(owner, target, kind, now, id) => db.(log := db.log + [Event(id, owner, target, kind, now)])
    case AnswerStep(owner, turn, word, rating, now, id) => ApplyAnswer(db, owner, turn, word, rating, now, id).0
    case LinkStep(user, carried) => ApplyLink(db, user, carried)
    case ReconcileStep(owner) => Repaired(db, owner)
  }

  predicate ValidRun(db: Db, run: seq<Step>)
    decreases |run|
  {
    run == [] || (Enabled(db, run[0]) && ValidRun(Next(db, run[0]), run[1..]))
  }

  function Exec(db: Db, run: seq<Step>): Db
    requires ValidRun(db, run)
    decreases |run|
  {
    if run == [] then db else Exec(Next(db, run[0]), run[1..])
  }
}
