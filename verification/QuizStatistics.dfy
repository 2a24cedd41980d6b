/**
  The quiz statistics report, computed once with a query per (learner, quiz) and once from a
  single batched query that is grouped in memory.
 */
module QuizStatistics {
  import opened Wrappers
  import opened Ordering
  import opened Rounding

  // ---------------------------------------------------------------- tables

  datatype User = User(id: string, fullName: string, email: string, role: string,
                       categoryScope: Option<string>, orgId: int)

  datatype Course = Course(id: string, name: string, orgId: int, categorySlug: string)

  datatype CourseModule = CourseModule(id: int, courseId: string, title: string, deleted: bool)

  /** A raw JSON value where an attempt limit is expected; Text carries what int() makes of the string. */
  datatype RawLimit = Null | Number(n: real) | Text(parsed: Option<int>) | Other

  datatype Settings = Settings(maxAttempts: Option<RawLimit>, attemptLimit: Option<RawLimit>, title: Option<string>)

  datatype Block = Block(id: int, moduleId: int, orgId: int, blockType: string, content: Option<string>,
                         settings: Settings, deleted: bool)

  datatype Payload = Payload(score: Option<real>, attemptNumber: Option<int>, passed: bool,
                             correct: Option<int>, total: Option<int>,
                             pointsAwarded: Option<real>, pointsTotal: Option<real>)

  datatype Event = Event(id: int, userId: string, orgId: int, courseId: Option<string>, blockId: Option<int>,
                         eventType: string, payload: Payload, createdAt: int)

  datatype Database = Database(users: seq<User>, courses: seq<Course>, modules: seq<CourseModule>,
                               blocks: seq<Block>, events: seq<Event>)

  /** The category asked about, the caller's organisation, and the database's collation of names. */
  datatype Query = Query(slug: string, orgId: int, collate: (string, string) -> bool)

  // ---------------------------------------------------------------- shared queries

  function Learners(db: Database, q: Query): seq<User> {
    SortBy(Filter(db.users, (u: User) => u.role == "learner" && u.categoryScope == Some(q.slug) && u.orgId == q.orgId),
           (u: User, v: User) => q.collate(u.fullName, v.fullName))
  }

  datatype Quiz = Quiz(block: Block, parent: CourseModule, course: Course)

  function FindModule(modules: seq<CourseModule>, id: int): Option<CourseModule> {
    if modules == [] then None
    else if modules[0].id == id then Some(modules[0]) else FindModule(modules[1..], id)
  }

  function FindCourse(courses: seq<Course>, id: string): Option<Course> {
    if courses == [] then None
    else if courses[0].id == id then Some(courses[0]) else FindCourse(courses[1..], id)
  }

  /** The row the two primary-key joins give a block, if it passes the filter. */
  function JoinRow(db: Database, q: Query, b: Block): Option<Quiz> {
    match FindModule(db.modules, b.moduleId)
    case None => None
    case Some(m) =>
      match FindCourse(db.courses, m.courseId)
      case None => None
      case Some(c) =>
        if && b.orgId == q.orgId && c.orgId == q.orgId && c.categorySlug == q.slug
           && (b.blockType == "quiz" || b.blockType == "native_quiz") && !b.deleted && !m.deleted
        then Some(Quiz(b, m, c)) else None
  }

  function QuizBlocks(db: Database, q: Query, blocks: seq<Block>): seq<Quiz> {
    if blocks == [] then []
    else
      var rest := QuizBlocks(db, q, blocks[1..]);
      match JoinRow(db, q, blocks[0])
      case None => rest
      case Some(quiz) => [quiz] + rest
  }

  predicate EventLe(a: Event, b: Event) {
    PairLe((a.createdAt, a.id), (b.createdAt, b.id))
  }

  function OwnEvent(q: Query, userId: string, courseId: string, blockId: int): Event -> bool {
    (e: Event) =>
      && e.userId == userId && e.orgId == q.orgId && e.courseId == Some(courseId)
      && e.blockId == Some(blockId) && e.eventType == "QUIZ_SUBMITTED"
  }

  /** The N+1 query: one learner's submissions for one quiz of one course, oldest first. */
  function EventsOf(db: Database, q: Query, userId: string, courseId: string, blockId: int): seq<Event> {
    SortBy(Filter(db.events, OwnEvent(q, userId, courseId, blockId)), EventLe)
  }

  function BatchEvent(q: Query, users: set<string>, courses: set<string>, blocks: set<int>): Event -> bool {
    (e: Event) =>
      && e.userId in users && e.orgId == q.orgId && e.courseId.Some? && e.courseId.value in courses
      && e.eventType == "QUIZ_SUBMITTED" && e.blockId.Some? && e.blockId.value in blocks
  }

  /** The batched query: the same columns tested for membership in the ids of the whole report. */
  function BatchEvents(db: Database, q: Query, users: set<string>, courses: set<string>, blocks: set<int>): seq<Event> {
    SortBy(Filter(db.events, BatchEvent(q, users, courses, blocks)), EventLe)
  }

  // ---------------------------------------------------------------- attempts and statistics

  datatype Attempt = Attempt(id: int, number: int, date: int, score: real, passed: bool,
                             correct: Option<int>, total: Option<int>,
                             pointsAwarded: Option<real>, pointsTotal: Option<real>)

  datatype Status = Completed | Attempted | NotStarted

  datatype Entry = Entry(courseId: string, courseName: string, moduleId: int, moduleTitle: string, blockId: int,
                         quizTitle: string, maxAttempts: Option<int>, attemptsUsed: nat,
                         attemptsRemaining: Option<int>, highestScore: real, latestScore: Option<real>,
                         bestAttempt: Option<Attempt>, averageScore: real, status: Status,
                         history: seq<Attempt>)

  datatype Row = Row(learnerId: string, fullName: string, email: string, attemptsUsed: nat,
                     attemptsRemaining: Option<int>, highestScore: real, latestScore: Option<real>,
                     bestAttempt: Option<Attempt>, averageScore: real, status: Status, quizzes: seq<Entry>)

  /** `index` counts from 1; a missing or zero attempt number falls back to it. */
  function AttemptOf(e: Event, index: int): Attempt {
    Attempt(e.id, if e.payload.attemptNumber.Some? && e.payload.attemptNumber.value != 0
                  then e.payload.attemptNumber.value else index,
            e.createdAt, if e.payload.score.Some? then e.payload.score.value else 0.0, e.payload.passed,
            e.payload.correct, e.payload.total, e.payload.pointsAwarded, e.payload.pointsTotal)
  }

  function History(events: seq<Event>): seq<Attempt> {
    seq(|events|, i requires 0 <= i < |events| => AttemptOf(events[i], i + 1))
  }

  /** max(..., key=score): the earliest of the best attempts. */
  function Best(attempts: seq<Attempt>): Option<Attempt> {
    if attempts == [] then None
    else
      var last := attempts[|attempts| - 1];
      match Best(attempts[..|attempts| - 1])
      case None => Some(last)
      case Some(best) => Some(if last.score > best.score then last else best)
  }

  /** max(values, default=0.0) */
  function MaxOf(values: seq<real>): real {
    if values == [] then 0.0
    else if |values| == 1 then values[0]
    else
      var rest := MaxOf(values[1..]);
      if values[0] >= rest then values[0] else rest
  }

  function SumOf(values: seq<real>): real {
    if values == [] then 0.0 else values[0] + SumOf(values[1..])
  }

  function Truncate(x: real): int { if x >= 0.0 then x.Floor else -((-x).Floor) }

  /** The first of the two settings that is present decides; anything int() rejects means no limit. */
  function AttemptLimit(s: Settings): Option<int> {
    var raw := if s.maxAttempts.Some? then s.maxAttempts.value
               else if s.attemptLimit.Some? then s.attemptLimit.value else Null;
    var n := match raw
      case Number(n) => Truncate(n)
      case Text(Some(n)) => n
      case _ => 0;
    if n > 0 then Some(n) else None
  }

  function Scores(attempts: seq<Attempt>): seq<real> {
    seq(|attempts|, i requires 0 <= i < |attempts| => attempts[i].score)
  }

  function Average(values: seq<real>): real {
    if values == [] then 0.0 else SumOf(values) / |values| as real
  }

  function EntryOf(quiz: Quiz, history: seq<Attempt>): Entry {
    var limit := AttemptLimit(quiz.block.settings);
    var settings := quiz.block.settings;
    Entry(quiz.course.id, quiz.course.name, quiz.parent.id, quiz.parent.title, quiz.block.id,
          if quiz.block.content.Some? && quiz.block.content.value != "" then quiz.block.content.value
          else if settings.title.Some? && settings.title.value != "" then settings.title.value else "Quiz",
          limit, |history|,
          if limit.None? then None else Some(if limit.value > |history| then limit.value - |history| else 0),
          Round2(MaxOf(Scores(history))),
          if history == [] then None else Some(Round2(history[|history| - 1].score)),
          Best(history), Round2(Average(Scores(history))),
          if exists a :: a in history && a.passed then Completed else if history != [] then Attempted else NotStarted,
          history)
  }

  function UsedTotal(entries: seq<Entry>): nat {
    if entries == [] then 0 else entries[0].attemptsUsed + UsedTotal(entries[1..])
  }

  /** None as soon as one quiz is unlimited. */
  function RemainingTotal(entries: seq<Entry>): Option<int> {
    if entries == [] then Some(0)
    else
      match (entries[0].attemptsRemaining, RemainingTotal(entries[1..]))
      case (Some(a), Some(b)) => Some(a + b)
      case _ => None
  }

  /** The highest scores of the quizzes that were attempted. */
  function AttemptedScores(entries: seq<Entry>): seq<real> {
    if entries == [] then []
    else (if entries[0].attemptsUsed > 0 then [entries[0].highestScore] else []) + AttemptedScores(entries[1..])
  }

  function LatestOf(entries: seq<Entry>): Option<real> {
    if entries == [] then None
    else if entries[|entries| - 1].latestScore.Some? then entries[|entries| - 1].latestScore
    else LatestOf(entries[..|entries| - 1])
  }

  function BestAttempts(entries: seq<Entry>): seq<Attempt> {
    if entries == [] then []
    else (if entries[0].bestAttempt.Some? then [entries[0].bestAttempt.value] else []) + BestAttempts(entries[1..])
  }

  function RowOf(u: User, entries: seq<Entry>): Row {
    var scores := AttemptedScores(entries);
    Row(u.id, u.fullName, u.email, UsedTotal(entries), RemainingTotal(entries),
        if scores == [] then 0.0 else Round2(MaxOf(scores)), LatestOf(entries), Best(BestAttempts(entries)),
        if scores == [] then 0.0 else Round2(Average(scores)),
        if exists e :: e in entries && e.status == Completed then Completed
        else if scores != [] then Attempted else NotStarted,
        entries)
  }

  // ---------------------------------------------------------------- the report, as a specification

  function ReportEntry(db: Database, q: Query, u: User, quiz: Quiz): Entry {
    EntryOf(quiz, History(EventsOf(db, q, u.id, quiz.course.id, quiz.block.id)))
  }

  function ReportEntries(db: Database, q: Query, u: User, quizzes: seq<Quiz>): seq<Entry> {
    if quizzes == [] then []
    else [ReportEntry(db, q, u, quizzes[0])] + ReportEntries(db, q, u, quizzes[1..])
  }

  function ReportRow(db: Database, q: Query, u: User): Row {
    RowOf(u, ReportEntries(db, q, u, QuizBlocks(db, q, db.blocks)))
  }

  function ReportRows(db: Database, q: Query, learners: seq<User>): seq<Row> {
    if learners == [] then [] else [ReportRow(db, q, learners[0])] + ReportRows(db, q, learners[1..])
  }

  function Report(db: Database, q: Query): seq<Row> {
    ReportRows(db, q, Learners(db, q))
  }

  ghost predicate PrimaryKeys(db: Database) {
    && (forall i, j :: 0 <= i < j < |db.blocks| ==> db.blocks[i].id != db.blocks[j].id)
    && (forall i, j :: 0 <= i < j < |db.events| ==> db.events[i].id != db.events[j].id)
  }

  // ---------------------------------------------------------------- the two implementations

  method BuildHistory(events: seq<Event>) returns (history: seq<Attempt>)
    ensures history == History(events)
  {
    history := [];
    for i := 0 to |events|
      invariant |history| == i
      invariant forall k :: 0 <= k < i ==> history[k] == AttemptOf(events[k], k + 1)
    {
      history := history + [AttemptOf(events[i], i + 1)];
    }
  }

  lemma AppendStep<T>(done: seq<T>, next: T, rest: seq<T>)
    ensures done + ([next] + rest) == (done + [next]) + rest
  {
  }

  lemma ReportEntriesStep(db: Database, q: Query, u: User, quizzes: seq<Quiz>, i: nat)
    requires i < |quizzes|
    ensures ReportEntries(db, q, u, quizzes[i..])
            == [ReportEntry(db, q, u, quizzes[i])] + ReportEntries(db, q, u, quizzes[i + 1..])
  {
    assert quizzes[i..][1..] == quizzes[i + 1..];
  }

  /** The inner loop of the N+1 form: a query for each quiz. */
  method QueriedEntries(db: Database, q: Query, u: User, quizzes: seq<Quiz>) returns (entries: seq<Entry>)
    ensures entries == ReportEntries(db, q, u, quizzes)
  {
    entries := [];
    for i := 0 to |quizzes|
      invariant entries + ReportEntries(db, q, u, quizzes[i..]) == ReportEntries(db, q, u, quizzes)
    {
      var history := BuildHistory(EventsOf(db, q, u.id, quizzes[i].course.id, quizzes[i].block.id));
      var entry := EntryOf(quizzes[i], history);
      ReportEntriesStep(db, q, u, quizzes, i);
      AppendStep(entries, entry, ReportEntries(db, q, u, quizzes[i + 1..]));
      entries := entries + [entry];
    }
  }

  lemma ReportRowsStep(db: Database, q: Query, learners: seq<User>, i: nat)
    requires i < |learners|
    ensures ReportRows(db, q, learners[i..]) == [ReportRow(db, q, learners[i])] + ReportRows(db, q, learners[i + 1..])
  {
    assert learners[i..][1..] == learners[i + 1..];
  }

  method QueriedRow(db: Database, q: Query, u: User, quizzes: seq<Quiz>) returns (row: Row)
    requires quizzes == QuizBlocks(db, q, db.blocks)
    ensures row == ReportRow(db, q, u)
  {
    var entries := QueriedEntries(db, q, u, quizzes);
    row := RowOf(u, entries);
  }

  method Original(db: Database, q: Query) returns (rows: seq<Row>)
    ensures rows == Report(db, q)
  {
    var learners := Learners(db, q);
    var quizzes := QuizBlocks(db, q, db.blocks);
    rows := [];
    for i := 0 to |learners|
      invariant rows + ReportRows(db, q, learners[i..]) == ReportRows(db, q, learners)
    {
      var row := QueriedRow(db, q, learners[i], quizzes);
      ReportRowsStep(db, q, learners, i);
      AppendStep(rows, row, ReportRows(db, q, learners[i + 1..]));
      rows := rows + [row];
    }
  }

  type GroupKey = (string, Option<int>, Option<string>)

  function KeyOf(e: Event): GroupKey { (e.userId, e.blockId, e.courseId) }

  function HasKey(key: GroupKey): Event -> bool { (e: Event) => KeyOf(e) == key }

  function Lookup(groups: map<GroupKey, seq<Event>>, key: GroupKey): seq<Event> {
    if key in groups then groups[key] else []
  }

  /** Fills the dictionary of events per (user, block, course) in one pass. */
  method GroupEvents(events: seq<Event>) returns (groups: map<GroupKey, seq<Event>>)
    ensures IsGroupingOf(groups, events)
  {
    groups := map[];
    for i := 0 to |events|
      invariant forall key :: Lookup(groups, key) == Filter(events[..i], HasKey(key))
    {
      var key := KeyOf(events[i]);
      ghost var before := groups;
      if key !in groups {
        groups := groups[key := []];
      }
      groups := groups[key := groups[key] + [events[i]]];
      assert events[..i + 1] == events[..i] + [events[i]];
      forall k ensures Lookup(groups, k) == Filter(events[..i + 1], HasKey(k)) {
        FilterAppend(events[..i], events[i], HasKey(k));
        assert Lookup(before, k) == Filter(events[..i], HasKey(k));
      }
    }
    assert events[..|events|] == events;
  }

  /** An insertion-ordered dictionary: writing a key that is present keeps its place. */
  type BlockInfo = seq<((int, string), Quiz)>

  function InfoKey(quiz: Quiz): (int, string) { (quiz.block.id, quiz.course.id) }

  function Put(info: BlockInfo, key: (int, string), quiz: Quiz): BlockInfo {
    if info == [] then [(key, quiz)]
    else if info[0].0 == key then [(key, quiz)] + info[1..]
    else [info[0]] + Put(info[1..], key, quiz)
  }

  lemma {:induction false} PutFresh(info: BlockInfo, key: (int, string), quiz: Quiz)
    requires forall i :: 0 <= i < |info| ==> info[i].0 != key
    ensures Put(info, key, quiz) == info + [(key, quiz)]
  {
    if info != [] {
      PutFresh(info[1..], key, quiz);
    }
  }

  ghost predicate DistinctKeys(quizzes: seq<Quiz>) {
    forall i, j :: 0 <= i < j < |quizzes| ==> InfoKey(quizzes[i]) != InfoKey(quizzes[j])
  }

  method BuildBlockInfo(quizzes: seq<Quiz>) returns (info: BlockInfo)
    requires DistinctKeys(quizzes)
    ensures IsInfoOf(info, quizzes)
  {
    info := [];
    for i := 0 to |quizzes|
      invariant |info| == i
      invariant forall k :: 0 <= k < i ==> info[k] == (InfoKey(quizzes[k]), quizzes[k])
    {
      PutFresh(info, InfoKey(quizzes[i]), quizzes[i]);
      info := Put(info, InfoKey(quizzes[i]), quizzes[i]);
    }
  }

  lemma {:induction false} QuizBlocksFacts(db: Database, q: Query, blocks: seq<Block>)
    requires forall i, j :: 0 <= i < j < |blocks| ==> blocks[i].id != blocks[j].id
    ensures DistinctKeys(QuizBlocks(db, q, blocks))
    ensures forall quiz :: quiz in QuizBlocks(db, q, blocks) ==> quiz.block in blocks
  {
    if blocks != [] {
      QuizBlocksFacts(db, q, blocks[1..]);
      var rest := QuizBlocks(db, q, blocks[1..]);
      forall i | 0 <= i < |rest| ensures rest[i].block.id != blocks[0].id {
        assert rest[i] in rest;
      }
    }
  }

  lemma EventOrder()
    ensures IsOrder(EventLe)
  {
  }

  /** The heart of the batching: a looked-up group is exactly the answer of the per-pair query. */
  lemma GroupIsQuery(db: Database, q: Query, users: set<string>, courses: set<string>, blocks: set<int>,
                     userId: string, courseId: string, blockId: int)
    requires userId in users && courseId in courses && blockId in blocks
    ensures Filter(BatchEvents(db, q, users, courses, blocks), HasKey((userId, Some(blockId), Some(courseId))))
            == EventsOf(db, q, userId, courseId, blockId)
  {
    var key := (userId, Some(blockId), Some(courseId));
    var broad, narrow := BatchEvent(q, users, courses, blocks), OwnEvent(q, userId, courseId, blockId);
    EventOrder();
    FilterSort(Filter(db.events, broad), EventLe, HasKey(key));
    FilterFilter(db.events, broad, HasKey(key), narrow);
  }

  function LookedUpEntry(info: ((int, string), Quiz), groups: map<GroupKey, seq<Event>>, u: User): Entry {
    EntryOf(info.1, History(Lookup(groups, (u.id, Some(info.0.0), Some(info.0.1)))))
  }

  function LookedUpEntries(info: BlockInfo, groups: map<GroupKey, seq<Event>>, u: User): seq<Entry> {
    if info == [] then [] else [LookedUpEntry(info[0], groups, u)] + LookedUpEntries(info[1..], groups, u)
  }

  function LookedUpRow(u: User, info: BlockInfo, groups: map<GroupKey, seq<Event>>): Row {
    RowOf(u, LookedUpEntries(info, groups, u))
  }

  function LookedUpRows(learners: seq<User>, info: BlockInfo, groups: map<GroupKey, seq<Event>>): seq<Row> {
    if learners == [] then []
    else [LookedUpRow(learners[0], info, groups)] + LookedUpRows(learners[1..], info, groups)
  }

  lemma LookedUpEntriesStep(info: BlockInfo, groups: map<GroupKey, seq<Event>>, u: User, i: nat)
    requires i < |info|
    ensures LookedUpEntries(info[i..], groups, u)
            == [LookedUpEntry(info[i], groups, u)] + LookedUpEntries(info[i + 1..], groups, u)
  {
    assert info[i..][1..] == info[i + 1..];
  }

  /** The inner loop of the batched form: a dictionary lookup for each quiz. */
  method GroupedEntries(info: BlockInfo, groups: map<GroupKey, seq<Event>>, u: User) returns (entries: seq<Entry>)
    ensures entries == LookedUpEntries(info, groups, u)
  {
    entries := [];
    for i := 0 to |info|
      invariant entries + LookedUpEntries(info[i..], groups, u) == LookedUpEntries(info, groups, u)
    {
      var ((blockId, courseId), quiz) := info[i];
      var history := BuildHistory(Lookup(groups, (u.id, Some(blockId), Some(courseId))));
      var entry := EntryOf(quiz, history);
      LookedUpEntriesStep(info, groups, u, i);
      AppendStep(entries, entry, LookedUpEntries(info[i + 1..], groups, u));
      entries := entries + [entry];
    }
  }

  lemma LookedUpRowsStep(learners: seq<User>, info: BlockInfo, groups: map<GroupKey, seq<Event>>, i: nat)
    requires i < |learners|
    ensures LookedUpRows(learners[i..], info, groups)
            == [LookedUpRow(learners[i], info, groups)] + LookedUpRows(learners[i + 1..], info, groups)
  {
    assert learners[i..][1..] == learners[i + 1..];
  }

  method GroupedRow(u: User, info: BlockInfo, groups: map<GroupKey, seq<Event>>) returns (row: Row)
    ensures row == LookedUpRow(u, info, groups)
  {
    var entries := GroupedEntries(info, groups, u);
    row := RowOf(u, entries);
  }

  method GroupedRows(learners: seq<User>, info: BlockInfo, groups: map<GroupKey, seq<Event>>)
    returns (rows: seq<Row>)
    ensures rows == LookedUpRows(learners, info, groups)
  {
    rows := [];
    for i := 0 to |learners|
      invariant rows + LookedUpRows(learners[i..], info, groups) == LookedUpRows(learners, info, groups)
    {
      var row := GroupedRow(learners[i], info, groups);
      LookedUpRowsStep(learners, info, groups, i);
      AppendStep(rows, row, LookedUpRows(learners[i + 1..], info, groups));
      rows := rows + [row];
    }
  }

  function UserIds(learners: seq<User>): set<string> { set u | u in learners :: u.id }

  function CourseIds(quizzes: seq<Quiz>): set<string> { set z | z in quizzes :: z.course.id }

  function BlockIds(quizzes: seq<Quiz>): set<int> { set z | z in quizzes :: z.block.id }

  function Batch(db: Database, q: Query, learners: seq<User>, quizzes: seq<Quiz>): seq<Event> {
    BatchEvents(db, q, UserIds(learners), CourseIds(quizzes), BlockIds(quizzes))
  }

  ghost predicate IsInfoOf(info: BlockInfo, quizzes: seq<Quiz>) {
    |info| == |quizzes| && forall i :: 0 <= i < |info| ==> info[i] == (InfoKey(quizzes[i]), quizzes[i])
  }

  ghost predicate IsGroupingOf(groups: map<GroupKey, seq<Event>>, events: seq<Event>) {
    forall key :: Lookup(groups, key) == Filter(events, HasKey(key))
  }

  lemma LookupIsQuery(db: Database, q: Query, learners: seq<User>, quizzes: seq<Quiz>,
                      groups: map<GroupKey, seq<Event>>, u: User, quiz: Quiz)
    requires u in learners && quiz in quizzes && IsGroupingOf(groups, Batch(db, q, learners, quizzes))
    ensures Lookup(groups, (u.id, Some(quiz.block.id), Some(quiz.course.id)))
            == EventsOf(db, q, u.id, quiz.course.id, quiz.block.id)
  {
    GroupIsQuery(db, q, UserIds(learners), CourseIds(quizzes), BlockIds(quizzes), u.id, quiz.course.id, quiz.block.id);
  }

  /** For one learner and any part of the quiz list, the lookups give the reported entries. */
  lemma {:induction false} LookupsAreReported(db: Database, q: Query, learners: seq<User>, all: seq<Quiz>,
                                              groups: map<GroupKey, seq<Event>>, u: User,
                                              quizzes: seq<Quiz>, info: BlockInfo)
    requires u in learners && IsGroupingOf(groups, Batch(db, q, learners, all))
    requires IsInfoOf(info, quizzes) && forall z :: z in quizzes ==> z in all
    ensures LookedUpEntries(info, groups, u) == ReportEntries(db, q, u, quizzes)
  {
    if quizzes != [] {
      LookupIsQuery(db, q, learners, all, groups, u, quizzes[0]);
      LookupsAreReported(db, q, learners, all, groups, u, quizzes[1..], info[1..]);
    }
  }

  lemma {:induction false} RowsAreReported(db: Database, q: Query, all: seq<User>, info: BlockInfo,
                                           groups: map<GroupKey, seq<Event>>, learners: seq<User>)
    requires IsInfoOf(info, QuizBlocks(db, q, db.blocks))
    requires IsGroupingOf(groups, Batch(db, q, all, QuizBlocks(db, q, db.blocks)))
    requires forall u :: u in learners ==> u in all
    ensures LookedUpRows(learners, info, groups) == ReportRows(db, q, learners)
  {
    if learners != [] {
      var quizzes := QuizBlocks(db, q, db.blocks);
      LookupsAreReported(db, q, all, quizzes, groups, learners[0], quizzes, info);
      RowsAreReported(db, q, all, info, groups, learners[1..]);
    }
  }

  /** Main result: on every database the batched form returns the very report of the N+1 form. */
  method Optimized(db: Database, q: Query) returns (rows: seq<Row>)
    requires PrimaryKeys(db)
    ensures rows == Report(db, q)
  {
    var learners := Learners(db, q);
    var quizzes := QuizBlocks(db, q, db.blocks);
    QuizBlocksFacts(db, q, db.blocks);
    var info := BuildBlockInfo(quizzes);
    var groups := GroupEvents(Batch(db, q, learners, quizzes));
    rows := GroupedRows(learners, info, groups);
    RowsAreReported(db, q, learners, info, groups, learners);
  }

  // ---------------------------------------------------------------- what the report says

  /** The query's answer is determined by the table: any ordered answer of the same rows is this one. */
  lemma EventsOfUnique(db: Database, q: Query, userId: string, courseId: string, blockId: int, answer: seq<Event>)
    requires PrimaryKeys(db)
    requires SortedBy(answer, EventLe)
    requires multiset(answer) == multiset(EventsOf(db, q, userId, courseId, blockId))
    ensures answer == EventsOf(db, q, userId, courseId, blockId)
  {
    var result := EventsOf(db, q, userId, courseId, blockId);
    var p := OwnEvent(q, userId, courseId, blockId);
    EventOrder();
    SortSorts(Filter(db.events, p), EventLe);
    FilterMembers(db.events, p);
    forall x | x in answer ensures x in db.events {
      assert x in multiset(result);
      assert x in multiset(Filter(db.events, p));
    }
    SortedUnique(answer, result, EventLe);
  }

  ghost predicate FirstMaximum(attempts: seq<Attempt>, i: int) {
    && 0 <= i < |attempts|
    && (forall j :: 0 <= j < |attempts| ==> attempts[j].score <= attempts[i].score)
    && (forall j :: 0 <= j < i ==> attempts[j].score < attempts[i].score)
  }

  lemma FirstMaximumAppend(front: seq<Attempt>, last: Attempt, i: int)
    requires FirstMaximum(front, i)
    ensures FirstMaximum(front + [last], if last.score > front[i].score then |front| else i)
  {
  }

  /** best_attempt is the first among the attempts of maximal score. */
  lemma {:induction false} BestIsFirstMaximum(attempts: seq<Attempt>)
    ensures Best(attempts).None? <==> attempts == []
    ensures attempts != [] ==> exists i :: FirstMaximum(attempts, i) && attempts[i] == Best(attempts).value
  {
    if |attempts| == 1 {
      assert FirstMaximum(attempts, 0);
    } else if |attempts| > 1 {
      var front, last := attempts[..|attempts| - 1], attempts[|attempts| - 1];
      assert attempts == front + [last];
      BestIsFirstMaximum(front);
      var i :| FirstMaximum(front, i) && front[i] == Best(front).value;
      FirstMaximumAppend(front, last, i);
    }
  }

  // ---------------------------------------------------------------- totals and maxima across quizzes

  predicate Listed(e: Event, quizzes: seq<Quiz>) {
    exists z :: z in quizzes && e.blockId == Some(z.block.id) && e.courseId == Some(z.course.id)
  }

  predicate SubmittedBy(e: Event, q: Query, userId: string) {
    e.userId == userId && e.orgId == q.orgId && e.eventType == "QUIZ_SUBMITTED"
  }

  function ListedBy(q: Query, userId: string, quizzes: seq<Quiz>): Event -> bool {
    (e: Event) => SubmittedBy(e, q, userId) && Listed(e, quizzes)
  }

  lemma SameSize(whole: seq<Event>, a: seq<Event>, b: seq<Event>)
    requires multiset(whole) == multiset(a) + multiset(b)
    ensures |whole| == |a| + |b|
  {
    assert |multiset(whole)| == |multiset(a)| + |multiset(b)|;
  }

  lemma SortKeepsLength(s: seq<Event>)
    ensures |SortBy(s, EventLe)| == |s|
  {
    assert |multiset(SortBy(s, EventLe))| == |multiset(s)|;
  }

  lemma FirstCounted(db: Database, q: Query, u: User, quizzes: seq<Quiz>)
    requires DistinctKeys(quizzes) && quizzes != []
    ensures |Filter(db.events, ListedBy(q, u.id, quizzes))|
            == |EventsOf(db, q, u.id, quizzes[0].course.id, quizzes[0].block.id)|
               + |Filter(db.events, ListedBy(q, u.id, quizzes[1..]))|
  {
    var z := quizzes[0];
    var first := OwnEvent(q, u.id, z.course.id, z.block.id);
    SortKeepsLength(Filter(db.events, first));
    forall e: Event
      ensures ListedBy(q, u.id, quizzes)(e) <==> first(e) || ListedBy(q, u.id, quizzes[1..])(e)
      ensures !(first(e) && ListedBy(q, u.id, quizzes[1..])(e))
    {
      ListedCons(e, quizzes);
    }
    FilterSplits(db.events, ListedBy(q, u.id, quizzes), first, ListedBy(q, u.id, quizzes[1..]));
    SameSize(Filter(db.events, ListedBy(q, u.id, quizzes)),
             Filter(db.events, first), Filter(db.events, ListedBy(q, u.id, quizzes[1..])));
  }

  lemma {:induction false} AttemptsCounted(db: Database, q: Query, u: User, quizzes: seq<Quiz>)
    requires DistinctKeys(quizzes)
    ensures UsedTotal(ReportEntries(db, q, u, quizzes)) == |Filter(db.events, ListedBy(q, u.id, quizzes))|
  {
    if quizzes == [] {
      FilterNothing(db.events, ListedBy(q, u.id, quizzes));
    } else {
      FirstCounted(db, q, u, quizzes);
      AttemptsCounted(db, q, u, quizzes[1..]);
    }
  }

  lemma ListedCons(e: Event, quizzes: seq<Quiz>)
    requires quizzes != [] && DistinctKeys(quizzes)
    ensures var z := quizzes[0];
            var first := e.blockId == Some(z.block.id) && e.courseId == Some(z.course.id);
            (Listed(e, quizzes) <==> first || Listed(e, quizzes[1..])) && !(first && Listed(e, quizzes[1..]))
  {
    assert quizzes == [quizzes[0]] + quizzes[1..];
    if Listed(e, quizzes[1..]) {
      var z :| z in quizzes[1..] && e.blockId == Some(z.block.id) && e.courseId == Some(z.course.id);
      var i :| 0 <= i < |quizzes[1..]| && quizzes[1..][i] == z;
      assert InfoKey(quizzes[0]) != InfoKey(quizzes[i + 1]);
    }
  }

  /** A learner's total counts each of their submissions to a quiz of the report exactly once. */
  lemma RowCountsSubmissions(db: Database, q: Query, u: User)
    requires PrimaryKeys(db)
    ensures ReportRow(db, q, u).attemptsUsed
            == |Filter(db.events, ListedBy(q, u.id, QuizBlocks(db, q, db.blocks)))|
  {
    QuizBlocksFacts(db, q, db.blocks);
    AttemptsCounted(db, q, u, QuizBlocks(db, q, db.blocks));
  }

  lemma {:induction false} BestScore(attempts: seq<Attempt>)
    requires attempts != []
    ensures MaxOf(Scores(attempts)) == Best(attempts).value.score
  {
    BestIsFirstMaximum(attempts);
    MaxIsUpperBound(Scores(attempts));
    var i :| FirstMaximum(attempts, i) && attempts[i] == Best(attempts).value;
    assert Scores(attempts)[i] == attempts[i].score;
    var k :| 0 <= k < |attempts| && Scores(attempts)[k] == MaxOf(Scores(attempts));
    assert attempts[k].score <= attempts[i].score;
  }

  lemma {:induction false} MaxIsUpperBound(values: seq<real>)
    requires values != []
    ensures forall j :: 0 <= j < |values| ==> values[j] <= MaxOf(values)
    ensures exists i :: 0 <= i < |values| && values[i] == MaxOf(values)
  {
    if |values| == 1 {
      assert values[0] == MaxOf(values);
    } else {
      MaxIsUpperBound(values[1..]);
      var i :| 0 <= i < |values[1..]| && values[1..][i] == MaxOf(values[1..]);
      assert values[if values[0] >= MaxOf(values[1..]) then 0 else i + 1] == MaxOf(values);
    }
  }

  function RoundAll(values: seq<real>): seq<real> {
    seq(|values|, i requires 0 <= i < |values| => Round2(values[i]))
  }

  /** Rounding and taking the maximum commute, because rounding is monotone. */
  lemma {:induction false} RoundMax(values: seq<real>)
    requires values != []
    ensures MaxOf(RoundAll(values)) == Round2(MaxOf(values))
  {
    Round2IsNearest();
    if |values| > 1 {
      RoundMax(values[1..]);
      assert RoundAll(values)[1..] == RoundAll(values[1..]);
      var rest := MaxOf(values[1..]);
      if values[0] >= rest {
        NearestIsMonotone(Round2, rest, values[0]);
      } else {
        NearestIsMonotone(Round2, values[0], rest);
      }
    }
  }

  ghost predicate FromHistory(e: Entry) {
    && e.attemptsUsed == |e.history|
    && e.highestScore == Round2(MaxOf(Scores(e.history)))
    && e.bestAttempt == Best(e.history)
  }

  lemma RoundCons(a: Attempt, rest: seq<Attempt>)
    ensures RoundAll(Scores([a] + rest)) == [Round2(a.score)] + RoundAll(Scores(rest))
  {
    assert Scores([a] + rest) == [a.score] + Scores(rest);
  }

  lemma {:induction false} AttemptedAreBest(entries: seq<Entry>)
    requires forall e :: e in entries ==> FromHistory(e)
    ensures AttemptedScores(entries) == RoundAll(Scores(BestAttempts(entries)))
  {
    if entries != [] {
      var e, rest := entries[0], entries[1..];
      AttemptedAreBest(rest);
      assert e in entries;
      BestIsFirstMaximum(e.history);
      if e.history != [] {
        BestScore(e.history);
        RoundCons(e.bestAttempt.value, BestAttempts(rest));
      }
    }
  }

  lemma {:induction false} EntriesFromHistory(db: Database, q: Query, u: User, quizzes: seq<Quiz>)
    ensures forall e :: e in ReportEntries(db, q, u, quizzes) ==> FromHistory(e)
  {
    if quizzes != [] {
      EntriesFromHistory(db, q, u, quizzes[1..]);
    }
  }

  /** Two separately computed columns agree: the highest score is the rounded score of the best attempt. */
  lemma HighestIsBestRounded(db: Database, q: Query, u: User)
    ensures var row := ReportRow(db, q, u);
            row.highestScore == if row.bestAttempt.Some? then Round2(row.bestAttempt.value.score) else 0.0
  {
    var entries := ReportEntries(db, q, u, QuizBlocks(db, q, db.blocks));
    var best := BestAttempts(entries);
    EntriesFromHistory(db, q, u, QuizBlocks(db, q, db.blocks));
    AttemptedAreBest(entries);
    BestIsFirstMaximum(best);
    if best != [] {
      RoundMax(Scores(best));
      BestScore(best);
      Round2IsNearest();
      var g := Round2(MaxOf(Scores(best)));
      NearestFixesGrid(Round2, g, g);
    }
  }

  lemma {:induction false} SumAtMostMax(values: seq<real>, bound: real)
    requires forall i :: 0 <= i < |values| ==> values[i] <= bound
    ensures SumOf(values) <= bound * |values| as real
  {
    if values != [] {
      SumAtMostMax(values[1..], bound);
    }
  }

  lemma AverageAtMostMax(values: seq<real>)
    requires values != []
    ensures Average(values) <= MaxOf(values)
  {
    MaxIsUpperBound(values);
    SumAtMostMax(values, MaxOf(values));
    QuotientBound(SumOf(values), |values| as real, MaxOf(values));
  }

  lemma QuotientBound(sum: real, n: real, bound: real)
    requires n > 0.0 && sum <= bound * n
    ensures sum / n <= bound
  {
  }

  /** How the columns of one quiz relate: no latest or average score exceeds the highest, and the attempts add up. */
  lemma EntryColumns(quiz: Quiz, history: seq<Attempt>)
    ensures var e := EntryOf(quiz, history);
            && (history != [] ==> e.averageScore <= e.highestScore && e.latestScore.Some?
                                  && e.latestScore.value <= e.highestScore)
            && (e.attemptsRemaining.None? <==> e.maxAttempts.None?)
            && (e.maxAttempts.Some? && e.attemptsUsed <= e.maxAttempts.value
                ==> e.attemptsUsed + e.attemptsRemaining.value == e.maxAttempts.value)
            && (e.maxAttempts.Some? && e.attemptsUsed >= e.maxAttempts.value ==> e.attemptsRemaining.value == 0)
  {
    if history != [] {
      var scores := Scores(history);
      Round2IsNearest();
      AverageAtMostMax(scores);
      MaxIsUpperBound(scores);
      assert scores[|history| - 1] <= MaxOf(scores);
      NearestIsMonotone(Round2, Average(scores), MaxOf(scores));
      NearestIsMonotone(Round2, history[|history| - 1].score, MaxOf(scores));
    }
  }

  // ---------------------------------------------------------------- history and status in terms of the events

  /** A history lists its events oldest first; events that carry no number of their own are numbered from 1. */
  lemma HistoryInOrder(db: Database, q: Query, userId: string, courseId: string, blockId: int)
    ensures var events := EventsOf(db, q, userId, courseId, blockId);
            var history := History(events);
            && |history| == |events|
            && (forall i, j :: 0 <= i < j < |history|
                               ==> PairLe((history[i].date, history[i].id), (history[j].date, history[j].id)))
            && (forall i :: 0 <= i < |history| ==>
                  history[i].number == match events[i].payload.attemptNumber
                                       case Some(n) => if n != 0 then n else i + 1
                                       case None => i + 1)
  {
    EventOrder();
    SortSorts(Filter(db.events, OwnEvent(q, userId, courseId, blockId)), EventLe);
  }

  predicate OfQuiz(e: Event, z: Quiz) { e.blockId == Some(z.block.id) && e.courseId == Some(z.course.id) }

  lemma ListedHead(e: Event, quizzes: seq<Quiz>)
    requires quizzes != []
    ensures Listed(e, quizzes) <==> OfQuiz(e, quizzes[0]) || Listed(e, quizzes[1..])
  {
    assert quizzes == [quizzes[0]] + quizzes[1..];
    assert quizzes[0] in quizzes;
    if Listed(e, quizzes[1..]) {
      var z :| z in quizzes[1..] && e.blockId == Some(z.block.id) && e.courseId == Some(z.course.id);
      assert z in quizzes;
    }
  }

  /** Some submission of the learner to one of these quizzes satisfies p. */
  ghost predicate SomeIn(db: Database, q: Query, u: User, quizzes: seq<Quiz>, p: Event -> bool) {
    exists e :: e in db.events && SubmittedBy(e, q, u.id) && Listed(e, quizzes) && p(e)
  }

  ghost predicate SomeOf(db: Database, q: Query, u: User, z: Quiz, p: Event -> bool) {
    exists e :: e in db.events && SubmittedBy(e, q, u.id) && OfQuiz(e, z) && p(e)
  }

  lemma SomeSplits(db: Database, q: Query, u: User, quizzes: seq<Quiz>, p: Event -> bool)
    requires quizzes != []
    ensures SomeIn(db, q, u, quizzes, p) <==> SomeOf(db, q, u, quizzes[0], p) || SomeIn(db, q, u, quizzes[1..], p)
  {
    forall e ensures Listed(e, quizzes) <==> OfQuiz(e, quizzes[0]) || Listed(e, quizzes[1..]) {
      ListedHead(e, quizzes);
    }
  }

  function Passed(): Event -> bool { (e: Event) => e.payload.passed }

  function Made(): Event -> bool { (e: Event) => true }

  lemma HistoryPassed(events: seq<Event>)
    ensures (exists a :: a in History(events) && a.passed) <==> exists e :: e in events && e.payload.passed
  {
    if e :| e in events && e.payload.passed {
      var i :| 0 <= i < |events| && events[i] == e;
      assert History(events)[i] in History(events);
    }
  }

  lemma OwnEvents(db: Database, q: Query, u: User, z: Quiz)
    ensures forall e :: e in EventsOf(db, q, u.id, z.course.id, z.block.id)
                        <==> e in db.events && SubmittedBy(e, q, u.id) && OfQuiz(e, z)
  {
    QueryMembers(db.events, OwnEvent(q, u.id, z.course.id, z.block.id), EventLe);
  }

  lemma EntryStatus(db: Database, q: Query, u: User, z: Quiz)
    ensures ReportEntry(db, q, u, z).status == Completed <==> SomeOf(db, q, u, z, Passed())
    ensures ReportEntry(db, q, u, z).attemptsUsed > 0 <==> SomeOf(db, q, u, z, Made())
  {
    var events := EventsOf(db, q, u.id, z.course.id, z.block.id);
    OwnEvents(db, q, u, z);
    HistoryPassed(events);
    assert events != [] ==> events[0] in events;
  }

  ghost predicate AnyCompleted(entries: seq<Entry>) {
    exists e :: e in entries && e.status == Completed
  }

  lemma AnyCompletedCons(e: Entry, rest: seq<Entry>)
    ensures AnyCompleted([e] + rest) <==> e.status == Completed || AnyCompleted(rest)
  {
    assert e in [e] + rest;
    assert forall x :: x in rest ==> x in [e] + rest;
  }

  lemma {:induction false} EntriesStatus(db: Database, q: Query, u: User, quizzes: seq<Quiz>)
    ensures AnyCompleted(ReportEntries(db, q, u, quizzes)) <==> SomeIn(db, q, u, quizzes, Passed())
    ensures AttemptedScores(ReportEntries(db, q, u, quizzes)) != [] <==> SomeIn(db, q, u, quizzes, Made())
  {
    if quizzes != [] {
      var entry, rest := ReportEntry(db, q, u, quizzes[0]), ReportEntries(db, q, u, quizzes[1..]);
      EntriesStatus(db, q, u, quizzes[1..]);
      EntryStatus(db, q, u, quizzes[0]);
      SomeSplits(db, q, u, quizzes, Passed());
      SomeSplits(db, q, u, quizzes, Made());
      AnyCompletedCons(entry, rest);
      assert ([entry] + rest)[1..] == rest;
    }
  }

  /** A learner's status says what their submissions to the report's quizzes say: some passed, some made, none. */
  lemma RowStatusIff(db: Database, q: Query, u: User)
    ensures var row, quizzes := ReportRow(db, q, u), QuizBlocks(db, q, db.blocks);
            && (row.status == Completed <==> SomeIn(db, q, u, quizzes, Passed()))
            && (row.status == NotStarted <==> !SomeIn(db, q, u, quizzes, Made()))
  {
    var quizzes := QuizBlocks(db, q, db.blocks);
    EntriesStatus(db, q, u, quizzes);
    assert SomeIn(db, q, u, quizzes, Passed()) ==> SomeIn(db, q, u, quizzes, Made());
  }
}
