/** What the quiz statistics report says, column by column, in terms of the tables and settings it is made from. */
module QuizReport {
  import opened Wrappers
  import opened Ordering
  import opened Rounding
  import opened QuizStatistics

  // ---------------------------------------------------------------- the attempt limit

  /** The integer that a setting gives: a number without its fraction, or a text that reads as one. */
  ghost predicate Whole(raw: RawLimit, n: int) {
    match raw
    case Number(x) => (x >= 0.0 ==> n as real <= x < n as real + 1.0) && (x < 0.0 ==> n as real - 1.0 < x <= n as real)
    case Text(parsed) => parsed == Some(n)
    case Null => false
    case Other => false
  }

  /** max_attempts decides whenever it is present, null included. */
  ghost predicate Decides(s: Settings, raw: RawLimit) {
    s.maxAttempts == Some(raw) || (s.maxAttempts == None && s.attemptLimit == Some(raw))
  }

  ghost predicate Limits(s: Settings, n: int) {
    n > 0 && exists raw :: Decides(s, raw) && Whole(raw, n)
  }

  lemma TruncateIs(x: real, n: int)
    ensures Truncate(x) == n <==> Whole(Number(x), n)
  {
  }

  /** A quiz is limited to n attempts exactly if n is positive and is what the deciding setting says. */
  lemma AttemptLimitIff(s: Settings, n: int)
    ensures AttemptLimit(s) == Some(n) <==> Limits(s, n)
  {
    if s.maxAttempts.Some? {
      DecidedLimit(s, s.maxAttempts.value, n);
    } else if s.attemptLimit.Some? {
      DecidedLimit(s, s.attemptLimit.value, n);
    }
  }

  lemma DecidedLimit(s: Settings, raw: RawLimit, n: int)
    requires Decides(s, raw)
    ensures AttemptLimit(s) == Some(n) <==> Limits(s, n)
  {
    if raw.Number? {
      TruncateIs(raw.n, n);
    }
    assert forall other :: Decides(s, other) ==> other == raw;
  }

  // ---------------------------------------------------------------- averages

  /** The total of the scores, adding the latest last. */
  function Total(attempts: seq<Attempt>): real {
    if attempts == [] then 0.0 else Total(attempts[..|attempts| - 1]) + attempts[|attempts| - 1].score
  }

  /** The average to two decimals of n values with this total; 0 for none. */
  ghost predicate IsAverage(shown: real, total: real, n: nat) {
    if n == 0 then shown == 0.0 else exists mean: real :: mean * n as real == total && Rounds(shown, mean)
  }

  lemma {:induction false} SumAppend(values: seq<real>, x: real)
    ensures SumOf(values + [x]) == SumOf(values) + x
  {
    if values != [] {
      assert (values + [x])[1..] == values[1..] + [x];
      SumAppend(values[1..], x);
    }
  }

  lemma {:induction false} TotalIsSum(attempts: seq<Attempt>)
    ensures SumOf(Scores(attempts)) == Total(attempts)
  {
    if attempts != [] {
      var front, last := attempts[..|attempts| - 1], attempts[|attempts| - 1];
      TotalIsSum(front);
      SumAppend(Scores(front), last.score);
      assert Scores(attempts) == Scores(front) + [last.score];
    }
  }

  lemma Quotient(sum: real, n: nat)
    requires n > 0
    ensures sum / n as real * n as real == sum
  {
  }

  lemma AverageIs(values: seq<real>)
    ensures IsAverage(if values == [] then 0.0 else Round2(Average(values)), SumOf(values), |values|)
  {
    if values != [] {
      Quotient(SumOf(values), |values|);
      Round2Iff(Round2(Average(values)), Average(values));
    }
  }

  lemma MeanOf(shown: real, total: real, n: nat) returns (mean: real)
    requires IsAverage(shown, total, n) && n > 0
    ensures mean * n as real == total && -0.005 <= shown - mean <= 0.005
  {
    mean :| mean * n as real == total && Rounds(shown, mean);
  }

  /** n times the average differs from the total by at most half a hundredth for each value. */
  ghost predicate NearTotal(shown: real, total: real, n: nat) {
    total - 0.005 * n as real <= shown * n as real <= total + 0.005 * n as real
  }

  lemma AverageNearTotal(shown: real, total: real, n: nat)
    requires IsAverage(shown, total, n) && n > 0
    ensures NearTotal(shown, total, n)
  {
    var mean := MeanOf(shown, total, n);
    TimesMean(shown, mean, n as real, total);
  }

  // ---------------------------------------------------------------- one quiz of one learner

  ghost predicate ShowsAttempt(a: Attempt, e: Event, place: nat) {
    && a.id == e.id && a.date == e.createdAt && a.passed == e.payload.passed
    && a.correct == e.payload.correct && a.total == e.payload.total
    && a.pointsAwarded == e.payload.pointsAwarded && a.pointsTotal == e.payload.pointsTotal
    && (e.payload.score.Some? ==> a.score == e.payload.score.value)
    && (e.payload.score.None? ==> a.score == 0.0)
    && (if e.payload.attemptNumber == None || e.payload.attemptNumber == Some(0) then a.number == place
        else Some(a.number) == e.payload.attemptNumber)
  }

  /** The first of the two titles that is not empty, "Quiz" if there is none. */
  ghost predicate IsTitle(shown: string, content: Option<string>, title: Option<string>) {
    && (content.Some? && content.value != "" ==> shown == content.value)
    && ((content == None || content == Some("")) ==>
          && (title.Some? && title.value != "" ==> shown == title.value)
          && (title == None || title == Some("") ==> shown == "Quiz"))
  }

  ghost predicate ShowsScores(e: Entry, history: seq<Attempt>) {
    && (history == [] ==> e.highestScore == 0.0 && e.latestScore == None && e.bestAttempt == None)
    && (history != [] ==>
          && e.latestScore.Some? && Rounds(e.latestScore.value, history[|history| - 1].score)
          && e.bestAttempt.Some? && Rounds(e.highestScore, e.bestAttempt.value.score)
          && exists i :: FirstMaximum(history, i) && e.bestAttempt == Some(history[i]))
    && IsAverage(e.averageScore, Total(history), |history|)
  }

  ghost predicate ShowsLimit(e: Entry, s: Settings, used: nat) {
    && (forall n :: e.maxAttempts == Some(n) <==> Limits(s, n))
    && e.attemptsUsed == used
    && (e.maxAttempts == None <==> e.attemptsRemaining == None)
    && (e.maxAttempts.Some? && used <= e.maxAttempts.value ==> e.attemptsRemaining == Some(e.maxAttempts.value - used))
    && (e.maxAttempts.Some? && used > e.maxAttempts.value ==> e.attemptsRemaining == Some(0))
  }

  /** The entry of a quiz with this history. */
  ghost predicate ShowsEntry(e: Entry, z: Quiz, history: seq<Attempt>) {
    && e.courseId == z.course.id && e.courseName == z.course.name
    && e.moduleId == z.parent.id && e.moduleTitle == z.parent.title
    && e.blockId == z.block.id && IsTitle(e.quizTitle, z.block.content, z.block.settings.title)
    && ShowsLimit(e, z.block.settings, |history|) && ShowsScores(e, history) && e.history == history
    && (e.status == Completed <==> exists a :: a in history && a.passed)
    && (e.status == NotStarted <==> history == [])
  }

  lemma ScoresShown(z: Quiz, history: seq<Attempt>)
    ensures ShowsScores(EntryOf(z, history), history)
  {
    AverageIs(Scores(history));
    TotalIsSum(history);
    BestIsFirstMaximum(history);
    ZeroRounds();
    if history != [] {
      BestScore(history);
      Round2Iff(Round2(MaxOf(Scores(history))), MaxOf(Scores(history)));
      Round2Iff(Round2(history[|history| - 1].score), history[|history| - 1].score);
    }
  }

  lemma ZeroRounds()
    ensures Round2(0.0) == 0.0
  {
  }

  lemma LimitShown(z: Quiz, history: seq<Attempt>)
    ensures ShowsLimit(EntryOf(z, history), z.block.settings, |history|)
  {
    forall n: int ensures AttemptLimit(z.block.settings) == Some(n) <==> Limits(z.block.settings, n) {
      AttemptLimitIff(z.block.settings, n);
    }
  }

  /** Every column of an entry, from the quiz and its history. */
  lemma EntryShown(z: Quiz, history: seq<Attempt>)
    ensures ShowsEntry(EntryOf(z, history), z, history)
  {
    LimitShown(z, history);
    ScoresShown(z, history);
  }

  /** The average of an entry, times the number of attempts, is their total but for the rounding. */
  lemma EntryAverage(e: Entry, history: seq<Attempt>)
    requires ShowsScores(e, history) && history != []
    ensures NearTotal(e.averageScore, Total(history), |history|)
  {
    AverageNearTotal(e.averageScore, Total(history), |history|);
  }

  // ---------------------------------------------------------------- the row of one learner

  function UsedOver(entries: seq<Entry>): nat {
    if entries == [] then 0 else UsedOver(entries[..|entries| - 1]) + entries[|entries| - 1].attemptsUsed
  }

  function RemainingOver(entries: seq<Entry>): int {
    if entries == [] then 0
    else
      var last := entries[|entries| - 1].attemptsRemaining;
      RemainingOver(entries[..|entries| - 1]) + if last.Some? then last.value else 0
  }

  /** How many quizzes were attempted, and the total of their highest scores. */
  function AttemptedOver(entries: seq<Entry>): (nat, real) {
    if entries == [] then (0, 0.0)
    else
      var (n, total) := AttemptedOver(entries[..|entries| - 1]);
      var last := entries[|entries| - 1];
      if last.attemptsUsed == 0 then (n, total) else (n + 1, total + last.highestScore)
  }

  lemma {:induction false} UsedAppend(entries: seq<Entry>, e: Entry)
    ensures UsedTotal(entries + [e]) == UsedTotal(entries) + e.attemptsUsed
  {
    if entries == [] {
      assert ([] + [e])[1..] == [];
    } else {
      assert (entries + [e])[1..] == entries[1..] + [e];
      UsedAppend(entries[1..], e);
    }
  }

  lemma {:induction false} RemainingAppend(entries: seq<Entry>, e: Entry)
    ensures var (a, b) := (RemainingTotal(entries), e.attemptsRemaining);
            RemainingTotal(entries + [e]) == if a.Some? && b.Some? then Some(a.value + b.value) else None
  {
    if entries == [] {
      assert ([] + [e])[1..] == [];
    } else {
      assert (entries + [e])[1..] == entries[1..] + [e];
      RemainingAppend(entries[1..], e);
    }
  }

  function Highest(e: Entry): seq<real> { if e.attemptsUsed > 0 then [e.highestScore] else [] }

  lemma Regroup<T>(a: seq<T>, b: seq<T>, c: seq<T>)
    ensures a + (b + c) == (a + b) + c
  {
  }

  lemma {:induction false} AttemptedAppend(entries: seq<Entry>, e: Entry)
    ensures AttemptedScores(entries + [e]) == AttemptedScores(entries) + Highest(e)
  {
    if entries == [] {
      assert ([] + [e])[1..] == [];
      assert AttemptedScores([e]) == Highest(e) + [];
    } else {
      assert (entries + [e])[1..] == entries[1..] + [e];
      AttemptedAppend(entries[1..], e);
      Regroup(Highest(entries[0]), AttemptedScores(entries[1..]), Highest(e));
    }
  }

  ghost predicate Unlimited(entries: seq<Entry>) { exists e :: e in entries && e.attemptsRemaining == None }

  lemma UnlimitedAppend(entries: seq<Entry>, e: Entry)
    ensures Unlimited(entries + [e]) <==> Unlimited(entries) || e.attemptsRemaining == None
  {
    assert e in entries + [e];
    assert forall x :: x in entries ==> x in entries + [e];
  }

  lemma {:induction false} TotalsAre(entries: seq<Entry>)
    ensures UsedTotal(entries) == UsedOver(entries)
    ensures RemainingTotal(entries) == if Unlimited(entries) then None else Some(RemainingOver(entries))
  {
    if entries != [] {
      var front, last := entries[..|entries| - 1], entries[|entries| - 1];
      assert entries == front + [last];
      TotalsAre(front);
      UsedAppend(front, last);
      RemainingAppend(front, last);
      UnlimitedAppend(front, last);
    }
  }

  lemma {:induction false} AttemptedAre(entries: seq<Entry>)
    ensures AttemptedOver(entries) == (|AttemptedScores(entries)|, SumOf(AttemptedScores(entries)))
  {
    if entries != [] {
      var front, last := entries[..|entries| - 1], entries[|entries| - 1];
      assert entries == front + [last];
      AttemptedAre(front);
      AttemptedAppend(front, last);
      if last.attemptsUsed > 0 {
        SumAppend(AttemptedScores(front), last.highestScore);
      } else {
        assert AttemptedScores(front) + [] == AttemptedScores(front);
      }
    }
  }

  /** The last quiz with a latest score. */
  ghost predicate LatestAt(entries: seq<Entry>, i: int) {
    && 0 <= i < |entries| && entries[i].latestScore != None
    && forall j :: i < j < |entries| ==> entries[j].latestScore == None
  }

  ghost predicate IsLatest(shown: Option<real>, entries: seq<Entry>) {
    || (shown == None && forall i :: 0 <= i < |entries| ==> entries[i].latestScore == None)
    || exists i :: LatestAt(entries, i) && shown == entries[i].latestScore
  }

  lemma LatestStep(front: seq<Entry>, last: Entry)
    requires IsLatest(LatestOf(front), front)
    ensures IsLatest(if last.latestScore == None then LatestOf(front) else last.latestScore, front + [last])
  {
    var entries := front + [last];
    if last.latestScore != None {
      assert LatestAt(entries, |front|);
    } else if i :| LatestAt(front, i) && LatestOf(front) == front[i].latestScore {
      assert LatestAt(entries, i);
    }
  }

  lemma {:induction false} LatestIs(entries: seq<Entry>)
    ensures IsLatest(LatestOf(entries), entries)
  {
    if entries != [] {
      var front, last := entries[..|entries| - 1], entries[|entries| - 1];
      assert entries == front + [last];
      LatestIs(front);
      LatestStep(front, last);
    }
  }

  /** x is the highest score shown for some attempted quiz. */
  ghost predicate Scored(entries: seq<Entry>, x: real) {
    exists e :: e in entries && e.attemptsUsed > 0 && e.highestScore == x
  }

  ghost predicate IsHighest(shown: real, entries: seq<Entry>) {
    && ((forall x :: !Scored(entries, x)) ==> shown == 0.0)
    && (forall x :: Scored(entries, x) ==> Scored(entries, shown) && x <= shown)
  }

  lemma {:induction false} AttemptedMembers(entries: seq<Entry>, x: real)
    ensures x in AttemptedScores(entries) <==> Scored(entries, x)
  {
    if entries != [] {
      AttemptedMembers(entries[1..], x);
      ScoredCons(entries, x);
    }
  }

  lemma ScoredCons(entries: seq<Entry>, x: real)
    requires entries != []
    ensures Scored(entries, x)
            <==> (entries[0].attemptsUsed > 0 && entries[0].highestScore == x) || Scored(entries[1..], x)
  {
    assert entries[0] in entries;
    assert forall e :: e in entries <==> e == entries[0] || e in entries[1..];
  }

  lemma MaxMembers(values: seq<real>)
    requires values != []
    ensures MaxOf(values) in values && forall x :: x in values ==> x <= MaxOf(values)
  {
    MaxIsUpperBound(values);
  }

  lemma HighestIs(entries: seq<Entry>)
    requires forall x :: Scored(entries, x) ==> Rounds(x, x)
    ensures var scores := AttemptedScores(entries);
            IsHighest(if scores == [] then 0.0 else Round2(MaxOf(scores)), entries)
  {
    var scores := AttemptedScores(entries);
    forall x ensures x in scores <==> Scored(entries, x) {
      AttemptedMembers(entries, x);
    }
    if scores != [] {
      MaxMembers(scores);
      Round2Iff(MaxOf(scores), MaxOf(scores));
    }
  }

  /** The first, among the quizzes' best attempts, of those with the highest score. */
  ghost predicate IsBest(shown: Option<Attempt>, entries: seq<Entry>) {
    || (shown == None && forall i :: 0 <= i < |entries| ==> entries[i].bestAttempt == None)
    || exists i :: FirstBest(entries, i) && shown == entries[i].bestAttempt
  }

  ghost predicate FirstBest(entries: seq<Entry>, i: int) {
    && 0 <= i < |entries| && entries[i].bestAttempt.Some?
    && (forall j :: 0 <= j < |entries| && entries[j].bestAttempt.Some?
                    ==> entries[j].bestAttempt.value.score <= entries[i].bestAttempt.value.score)
    && (forall j :: 0 <= j < i && entries[j].bestAttempt.Some?
                    ==> entries[j].bestAttempt.value.score < entries[i].bestAttempt.value.score)
  }

  function BestIn(e: Entry): seq<Attempt> { if e.bestAttempt.Some? then [e.bestAttempt.value] else [] }

  lemma {:induction false} BestAppend(entries: seq<Entry>, e: Entry)
    ensures BestAttempts(entries + [e]) == BestAttempts(entries) + BestIn(e)
  {
    if entries == [] {
      assert ([] + [e])[1..] == [];
      assert BestAttempts([e]) == BestIn(e) + [];
    } else {
      assert (entries + [e])[1..] == entries[1..] + [e];
      BestAppend(entries[1..], e);
      Regroup(BestIn(entries[0]), BestAttempts(entries[1..]), BestIn(e));
    }
  }

  lemma BestOfAppend(attempts: seq<Attempt>, last: Attempt)
    ensures Best(attempts + [last])
            == match Best(attempts)
               case None => Some(last)
               case Some(best) => Some(if last.score > best.score then last else best)
  {
    assert (attempts + [last])[..|attempts|] == attempts;
  }

  lemma FirstBestStep(front: seq<Entry>, last: Entry, i: int)
    requires FirstBest(front, i)
    ensures var best := front[i].bestAttempt.value;
            FirstBest(front + [last], if last.bestAttempt.Some? && last.bestAttempt.value.score > best.score
                                      then |front| else i)
  {
  }

  lemma BestJoins(front: seq<Entry>, last: Entry, shown: Option<Attempt>)
    requires IsBest(shown, front) && last.bestAttempt.Some?
    ensures IsBest(match shown
                   case None => last.bestAttempt
                   case Some(best) => if last.bestAttempt.value.score > best.score then last.bestAttempt else shown,
                   front + [last])
  {
    if i :| FirstBest(front, i) && shown == front[i].bestAttempt {
      FirstBestStep(front, last, i);
    } else {
      assert FirstBest(front + [last], |front|);
    }
  }

  lemma BestStays(front: seq<Entry>, last: Entry, shown: Option<Attempt>)
    requires IsBest(shown, front) && last.bestAttempt.None?
    ensures IsBest(shown, front + [last])
  {
    if i :| FirstBest(front, i) && shown == front[i].bestAttempt {
      FirstBestStep(front, last, i);
    }
  }

  lemma BestStep(front: seq<Entry>, last: Entry)
    requires IsBest(Best(BestAttempts(front)), front)
    ensures IsBest(Best(BestAttempts(front + [last])), front + [last])
  {
    var attempts := BestAttempts(front);
    BestAppend(front, last);
    if last.bestAttempt.Some? {
      BestOfAppend(attempts, last.bestAttempt.value);
      BestJoins(front, last, Best(attempts));
    } else {
      assert attempts + [] == attempts;
      BestStays(front, last, Best(attempts));
    }
  }

  lemma {:induction false} BestIs(entries: seq<Entry>)
    ensures IsBest(Best(BestAttempts(entries)), entries)
  {
    if entries != [] {
      var front, last := entries[..|entries| - 1], entries[|entries| - 1];
      assert entries == front + [last];
      BestIs(front);
      BestStep(front, last);
    }
  }

  /** The row of a learner with these entries. */
  ghost predicate ShowsRow(row: Row, u: User, entries: seq<Entry>) {
    && row.learnerId == u.id && row.fullName == u.fullName && row.email == u.email && row.quizzes == entries
    && row.attemptsUsed == UsedOver(entries)
    && row.attemptsRemaining == (if Unlimited(entries) then None else Some(RemainingOver(entries)))
    && IsHighest(row.highestScore, entries) && IsLatest(row.latestScore, entries) && IsBest(row.bestAttempt, entries)
    && IsAverage(row.averageScore, AttemptedOver(entries).1, AttemptedOver(entries).0)
    && (row.status == Completed <==> exists e :: e in entries && e.status == Completed)
    && (row.status == NotStarted <==> (forall e :: e in entries ==> e.attemptsUsed == 0 && e.status != Completed))
  }

  lemma {:induction false} AttemptedNone(entries: seq<Entry>)
    ensures AttemptedScores(entries) == [] <==> forall e :: e in entries ==> e.attemptsUsed == 0
  {
    if entries != [] {
      AttemptedNone(entries[1..]);
      assert forall e :: e in entries <==> e == entries[0] || e in entries[1..];
    }
  }

  /** Every column of a row, from the learner and the entries. */
  lemma RowShown(u: User, entries: seq<Entry>)
    requires forall x :: Scored(entries, x) ==> Rounds(x, x)
    ensures ShowsRow(RowOf(u, entries), u, entries)
  {
    TotalsAre(entries);
    AttemptedAre(entries);
    HighestIs(entries);
    LatestIs(entries);
    BestIs(entries);
    AverageIs(AttemptedScores(entries));
    AttemptedNone(entries);
  }

  /** And that of a row, times the number of attempted quizzes, is the total of their highest scores. */
  lemma RowAverage(row: Row, u: User, entries: seq<Entry>)
    requires ShowsRow(row, u, entries) && AttemptedOver(entries).0 > 0
    ensures NearTotal(row.averageScore, AttemptedOver(entries).1, AttemptedOver(entries).0)
  {
    AverageNearTotal(row.averageScore, AttemptedOver(entries).1, AttemptedOver(entries).0);
  }

  // ---------------------------------------------------------------- the whole report

  /** The submissions of a learner for a quiz, each once, oldest first. */
  ghost predicate AreSubmissions(db: Database, q: Query, u: User, z: Quiz, events: seq<Event>) {
    && (forall e :: e in events <==> && e in db.events && e.userId == u.id && e.orgId == q.orgId
                                     && e.courseId == Some(z.course.id) && e.blockId == Some(z.block.id)
                                     && e.eventType == "QUIZ_SUBMITTED")
    && (forall i, j :: 0 <= i < j < |events| ==> events[i].id != events[j].id)
    && (forall i, j :: 0 <= i < j < |events| ==>
          events[i].createdAt < events[j].createdAt
          || (events[i].createdAt == events[j].createdAt && events[i].id < events[j].id))
  }

  ghost predicate ShowsHistory(history: seq<Attempt>, events: seq<Event>) {
    |history| == |events| && forall i :: 0 <= i < |history| ==> ShowsAttempt(history[i], events[i], i + 1)
  }

  ghost predicate ShowsQuiz(db: Database, q: Query, u: User, z: Quiz, e: Entry) {
    && ShowsEntry(e, z, e.history)
    && exists events :: AreSubmissions(db, q, u, z, events) && ShowsHistory(e.history, events)
  }

  lemma SubmissionsAre(db: Database, q: Query, u: User, z: Quiz)
    requires PrimaryKeys(db)
    ensures AreSubmissions(db, q, u, z, EventsOf(db, q, u.id, z.course.id, z.block.id))
  {
    var p := OwnEvent(q, u.id, z.course.id, z.block.id);
    var events := EventsOf(db, q, u.id, z.course.id, z.block.id);
    EventOrder();
    SortSorts(Filter(db.events, p), EventLe);
    QueryMembers(db.events, p, EventLe);
    FilterKeepsDistinct(db.events, p);
    SortKeepsDistinct(Filter(db.events, p), EventLe);
    forall i, j | 0 <= i < j < |events| ensures events[i].id != events[j].id {
      assert events[i] in events && events[j] in events;
    }
  }

  lemma HistoryShown(events: seq<Event>)
    ensures ShowsHistory(History(events), events)
  {
  }

  lemma QuizShown(db: Database, q: Query, u: User, z: Quiz, e: Entry, events: seq<Event>)
    requires ShowsEntry(e, z, History(events)) && AreSubmissions(db, q, u, z, events)
    ensures ShowsQuiz(db, q, u, z, e)
  {
    HistoryShown(events);
    assert e.history == History(events);
  }

  lemma EntryReported(db: Database, q: Query, u: User, z: Quiz)
    requires PrimaryKeys(db)
    ensures ShowsQuiz(db, q, u, z, ReportEntry(db, q, u, z))
  {
    var events := EventsOf(db, q, u.id, z.course.id, z.block.id);
    SubmissionsAre(db, q, u, z);
    EntryShown(z, History(events));
    QuizShown(db, q, u, z, EntryOf(z, History(events)), events);
  }

  lemma {:induction false} EntryCount(db: Database, q: Query, u: User, quizzes: seq<Quiz>)
    ensures |ReportEntries(db, q, u, quizzes)| == |quizzes|
  {
    if quizzes != [] {
      EntryCount(db, q, u, quizzes[1..]);
    }
  }

  lemma {:induction false} EntryAt(db: Database, q: Query, u: User, quizzes: seq<Quiz>, i: nat)
    requires i < |quizzes| == |ReportEntries(db, q, u, quizzes)|
    ensures ReportEntries(db, q, u, quizzes)[i] == ReportEntry(db, q, u, quizzes[i])
  {
    if i > 0 {
      EntryCount(db, q, u, quizzes[1..]);
      EntryAt(db, q, u, quizzes[1..], i - 1);
    }
  }

  lemma {:induction false} RowCount(db: Database, q: Query, learners: seq<User>)
    ensures |ReportRows(db, q, learners)| == |learners|
  {
    if learners != [] {
      RowCount(db, q, learners[1..]);
    }
  }

  lemma {:induction false} RowAt(db: Database, q: Query, learners: seq<User>, k: nat)
    requires k < |learners| == |ReportRows(db, q, learners)|
    ensures ReportRows(db, q, learners)[k] == ReportRow(db, q, learners[k])
  {
    if k > 0 {
      RowCount(db, q, learners[1..]);
      RowAt(db, q, learners[1..], k - 1);
    }
  }

  lemma {:induction false} EntriesRounded(db: Database, q: Query, u: User, quizzes: seq<Quiz>, x: real)
    requires Scored(ReportEntries(db, q, u, quizzes), x)
    ensures Rounds(x, x)
  {
    var entries := ReportEntries(db, q, u, quizzes);
    ScoredCons(entries, x);
    if entries[0].attemptsUsed > 0 && entries[0].highestScore == x {
      RoundedRounds(MaxOf(Scores(entries[0].history)));
    } else {
      EntriesRounded(db, q, u, quizzes[1..], x);
    }
  }

  lemma RoundedRounds(x: real)
    ensures Rounds(Round2(x), Round2(x))
  {
    Round2Iff(Round2(x), x);
  }

  /** The row `row` shows the learner, and an entry for each quiz. */
  ghost predicate ShowsLearner(db: Database, q: Query, row: Row, u: User, quizzes: seq<Quiz>) {
    && ShowsRow(row, u, row.quizzes) && |row.quizzes| == |quizzes|
    && forall i :: 0 <= i < |quizzes| ==> ShowsQuiz(db, q, u, quizzes[i], row.quizzes[i])
  }

  lemma RowReported(db: Database, q: Query, u: User)
    requires PrimaryKeys(db)
    ensures ShowsLearner(db, q, ReportRow(db, q, u), u, QuizBlocks(db, q, db.blocks))
  {
    var quizzes := QuizBlocks(db, q, db.blocks);
    var entries := ReportEntries(db, q, u, quizzes);
    EntryCount(db, q, u, quizzes);
    forall i | 0 <= i < |quizzes| ensures ShowsQuiz(db, q, u, quizzes[i], entries[i]) {
      EntryAt(db, q, u, quizzes, i);
      EntryReported(db, q, u, quizzes[i]);
    }
    forall x | Scored(entries, x) ensures Rounds(x, x) {
      EntriesRounded(db, q, u, quizzes, x);
    }
    RowShown(u, entries);
  }

  ghost predicate JoinKeys(db: Database) {
    && (forall i, j :: 0 <= i < j < |db.modules| ==> db.modules[i].id != db.modules[j].id)
    && (forall i, j :: 0 <= i < j < |db.courses| ==> db.courses[i].id != db.courses[j].id)
  }

  /** A live quiz block with its live module and its course, of the organisation and the category. */
  ghost predicate Joins(db: Database, q: Query, z: Quiz) {
    && z.block in db.blocks && z.parent in db.modules && z.course in db.courses
    && z.block.moduleId == z.parent.id && z.parent.courseId == z.course.id
    && z.block.orgId == q.orgId && z.course.orgId == q.orgId && z.course.categorySlug == q.slug
    && (z.block.blockType == "quiz" || z.block.blockType == "native_quiz")
    && !z.block.deleted && !z.parent.deleted
  }

  lemma {:induction false} FindModuleIs(modules: seq<CourseModule>, id: int)
    requires forall i, j :: 0 <= i < j < |modules| ==> modules[i].id != modules[j].id
    ensures forall m :: FindModule(modules, id) == Some(m) <==> m in modules && m.id == id
  {
    if modules != [] {
      FindModuleIs(modules[1..], id);
      assert forall m :: m in modules <==> m == modules[0] || m in modules[1..];
    }
  }

  lemma {:induction false} FindCourseIs(courses: seq<Course>, id: string)
    requires forall i, j :: 0 <= i < j < |courses| ==> courses[i].id != courses[j].id
    ensures forall c :: FindCourse(courses, id) == Some(c) <==> c in courses && c.id == id
  {
    if courses != [] {
      FindCourseIs(courses[1..], id);
      assert forall c :: c in courses <==> c == courses[0] || c in courses[1..];
    }
  }

  lemma JoinRowIs(db: Database, q: Query, b: Block, z: Quiz)
    requires JoinKeys(db) && b in db.blocks
    ensures JoinRow(db, q, b) == Some(z) <==> Joins(db, q, z) && z.block == b
  {
    FindModuleIs(db.modules, b.moduleId);
    if FindModule(db.modules, b.moduleId).Some? {
      FindCourseIs(db.courses, FindModule(db.modules, b.moduleId).value.courseId);
    }
  }

  lemma {:induction false} JoinedFrom(db: Database, q: Query, blocks: seq<Block>, z: Quiz)
    requires JoinKeys(db) && forall b :: b in blocks ==> b in db.blocks
    ensures z in QuizBlocks(db, q, blocks) <==> Joins(db, q, z) && z.block in blocks
  {
    if blocks != [] {
      JoinedFrom(db, q, blocks[1..], z);
      JoinRowIs(db, q, blocks[0], z);
      assert z.block in blocks <==> z.block == blocks[0] || z.block in blocks[1..];
    }
  }

  /** The quizzes of the report: the joined rows, each once. */
  lemma QuizzesAre(db: Database, q: Query)
    requires PrimaryKeys(db) && JoinKeys(db)
    ensures forall z :: z in QuizBlocks(db, q, db.blocks) <==> Joins(db, q, z)
    ensures DistinctKeys(QuizBlocks(db, q, db.blocks))
  {
    forall z ensures z in QuizBlocks(db, q, db.blocks) <==> Joins(db, q, z) {
      JoinedFrom(db, q, db.blocks, z);
    }
    QuizBlocksFacts(db, q, db.blocks);
  }

  /** The learners of the report: those of the category and the organisation, each once, by name. */
  lemma LearnersAre(db: Database, q: Query)
    requires forall i, j :: 0 <= i < j < |db.users| ==> db.users[i].id != db.users[j].id
    ensures forall u :: u in Learners(db, q) <==> u in db.users && u.role == "learner"
                                                  && u.categoryScope == Some(q.slug) && u.orgId == q.orgId
    ensures NoDuplicates(Learners(db, q))
    ensures var us := Learners(db, q);
            (forall x, y :: q.collate(x, y) || q.collate(y, x))
            && (forall x, y, z :: q.collate(x, y) && q.collate(y, z) ==> q.collate(x, z))
            ==> forall i, j :: 0 <= i < j < |us| ==> q.collate(us[i].fullName, us[j].fullName)
  {
    var p := (u: User) => u.role == "learner" && u.categoryScope == Some(q.slug) && u.orgId == q.orgId;
    var le := (u: User, v: User) => q.collate(u.fullName, v.fullName);
    assert Learners(db, q) == SortBy(Filter(db.users, p), le);
    QueryMembers(db.users, p, le);
    FilterKeepsDistinct(db.users, p);
    SortKeepsDistinct(Filter(db.users, p), le);
    if (forall x, y :: q.collate(x, y) || q.collate(y, x))
       && (forall x, y, z :: q.collate(x, y) && q.collate(y, z) ==> q.collate(x, z)) {
      SortSorts(Filter(db.users, p), le);
    }
  }

  /**
    Main result: on every database the report has a row for each learner and in it an entry for each
    quiz, and every column of both, down to the attempts, is what the tables say.
   */
  lemma ReportShowsTables(db: Database, q: Query)
    requires PrimaryKeys(db)
    ensures var (rows, us) := (Report(db, q), Learners(db, q));
            |rows| == |us|
            && forall k :: 0 <= k < |us| ==> ShowsLearner(db, q, rows[k], us[k], QuizBlocks(db, q, db.blocks))
  {
    var us := Learners(db, q);
    RowCount(db, q, us);
    forall k | 0 <= k < |us|
      ensures ShowsLearner(db, q, Report(db, q)[k], us[k], QuizBlocks(db, q, db.blocks))
    {
      RowAt(db, q, us, k);
      RowReported(db, q, us[k]);
    }
  }
}
