/** What a compiled snapshot keeps of the tables it was compiled from. */
module SnapshotProperties {
  import opened Wrappers
  import opened Ordering
  import opened CourseSnapshot

  // ---------------------------------------------------------------- hydration

  ghost predicate VersionKeys(db: Database) {
    forall i, j :: 0 <= i < j < |db.versions| ==> db.versions[i].id != db.versions[j].id
  }

  /** A bank reference asks for its question_version_id, or for its version_id if it has none (or 0). */
  ghost predicate Asks(q: Question, id: int) {
    && q.Authored? && q.kind == Some("bank_reference") && id != 0
    && (q.questionVersionId == Some(id)
        || ((q.questionVersionId == None || q.questionVersionId == Some(0)) && q.versionId == Some(id)))
  }

  lemma AsksIff(q: Question)
    ensures forall id :: VersionRef(q) == Some(id) <==> Asks(q, id)
  {
  }

  /** The question either asks for no version, or for a published version of the same organisation. */
  ghost predicate Resolvable(db: Database, t: Target, q: Question) {
    forall id :: Asks(q, id) ==>
      exists v :: v in db.versions && v.id == id && v.orgId == t.orgId && v.status == "PUBLISHED"
  }

  lemma {:induction false} FindVersionFinds(versions: seq<QuestionVersion>, id: int, orgId: int)
    ensures FindVersion(versions, id, orgId).Some? ==>
              var v := FindVersion(versions, id, orgId).value;
              v in versions && v.id == id && v.orgId == orgId
    ensures FindVersion(versions, id, orgId).None? ==>
              forall v :: v in versions ==> !(v.id == id && v.orgId == orgId)
  {
    if versions != [] {
      FindVersionFinds(versions[1..], id, orgId);
    }
  }

  lemma HydrateSucceedsIff(db: Database, t: Target, q: Question)
    requires VersionKeys(db)
    ensures Hydrate(db, t, q).Ok? <==> Resolvable(db, t, q)
  {
    AsksIff(q);
    if VersionRef(q).Some? {
      FindVersionFinds(db.versions, VersionRef(q).value, t.orgId);
    }
  }

  /** Hydrating a list succeeds exactly when every bank reference in it resolves. */
  lemma {:induction false} HydrateAllSucceedsIff(db: Database, t: Target, qs: seq<Question>)
    requires VersionKeys(db)
    ensures HydrateAll(db, t, qs).Ok? <==> forall q :: q in qs ==> Resolvable(db, t, q)
  {
    if qs != [] {
      HydrateSucceedsIff(db, t, qs[0]);
      HydrateAllSucceedsIff(db, t, qs[1..]);
      assert qs[0] in qs && forall q :: q in qs ==> q == qs[0] || q in qs[1..];
    }
  }

  /** The content `c` is that of the question version `v`: its first correct answer, if any, is the correct option. */
  ghost predicate Carries(c: Hydration, v: QuestionVersion, now: string) {
    && c.questionId == v.questionId && c.versionId == v.id && c.questionType == v.questionType
    && c.text == v.text && c.points == v.points && c.hydratedAt == now
    && c.optionsJson == v.options && c.correctAnswerJson == v.correct
    && (v.options.Some? ==> c.options == v.options.value) && (v.options.None? ==> c.options == [])
    && (c.correctOptionId == None <==> v.correct == None || v.correct == Some([]))
    && (c.correctOptionId.Some? ==> c.correctOptionId.value == v.correct.value[0])
  }

  /** `h` is what `q` may become: the content of the version it asks for, or itself if it asks for none. */
  ghost predicate HydratesTo(db: Database, t: Target, q: Question, h: Question) {
    && ((forall id :: !Asks(q, id)) ==> h == q)
    && forall id :: Asks(q, id) ==>
         exists v :: && v in db.versions && v.id == id && v.orgId == t.orgId && v.status == "PUBLISHED"
                     && h.Hydrated? && Carries(h.content, v, t.now)
  }

  lemma HydrateKeepsShape(db: Database, t: Target, q: Question)
    requires Hydrate(db, t, q).Ok?
    ensures HydratesTo(db, t, q, Hydrate(db, t, q).value)
  {
    AsksIff(q);
    if VersionRef(q).Some? {
      FindVersionFinds(db.versions, VersionRef(q).value, t.orgId);
      var v := FindVersion(db.versions, VersionRef(q).value, t.orgId).value;
      assert v in db.versions && Carries(Hydrate(db, t, q).value.content, v, t.now);
    }
  }

  /** Hydration keeps length and order, and changes nothing but references. */
  lemma {:induction false} HydrationKeepsShape(db: Database, t: Target, qs: seq<Question>)
    requires HydrateAll(db, t, qs).Ok?
    ensures var hs := HydrateAll(db, t, qs).value;
            |hs| == |qs| && forall i :: 0 <= i < |qs| ==> HydratesTo(db, t, qs[i], hs[i])
  {
    if qs != [] {
      HydrateKeepsShape(db, t, qs[0]);
      HydrationKeepsShape(db, t, qs[1..]);
      var hs, rest := HydrateAll(db, t, qs).value, HydrateAll(db, t, qs[1..]).value;
      forall i | 0 <= i < |qs| ensures HydratesTo(db, t, qs[i], hs[i]) {
        if i > 0 {
          assert HydratesTo(db, t, qs[1..][i - 1], rest[i - 1]);
        }
      }
    }
  }

  /** A question that refers to nothing any more survives any later compilation unchanged. */
  lemma {:induction false} NothingToHydrate(db: Database, t: Target, qs: seq<Question>)
    requires forall q :: q in qs ==> VersionRef(q) == None
    ensures HydrateAll(db, t, qs) == Ok(qs)
  {
    if qs != [] {
      assert qs[0] in qs;
      NothingToHydrate(db, t, qs[1..]);
      assert [qs[0]] + qs[1..] == qs;
    }
  }

  /** Hydrated output contains no reference, so hydrating it again, against any database, is the identity. */
  lemma {:induction false} HydrationIdempotent(db: Database, t: Target, later: Database, again: Target,
                                               qs: seq<Question>)
    requires HydrateAll(db, t, qs).Ok?
    ensures HydrateAll(later, again, HydrateAll(db, t, qs).value) == Ok(HydrateAll(db, t, qs).value)
  {
    var hs := HydrateAll(db, t, qs).value;
    HydrationKeepsShape(db, t, qs);
    forall h | h in hs ensures VersionRef(h) == None {
      var i :| 0 <= i < |hs| && hs[i] == h;
      assert HydratesTo(db, t, qs[i], hs[i]);
      AsksIff(qs[i]);
      AsksIff(h);
    }
    NothingToHydrate(later, again, hs);
  }

  ghost predicate BlockResolvable(db: Database, t: Target, b: Block) {
    b.blockType == "quiz" && b.metadata.questions.Some? ==>
      forall q :: q in b.metadata.questions.value ==> Resolvable(db, t, q)
  }

  lemma {:induction false} NoFailureIff(db: Database, t: Target, bs: seq<Block>)
    requires VersionKeys(db)
    ensures FirstFailure(db, t, bs).None? <==> forall b :: b in bs ==> BlockResolvable(db, t, b)
  {
    if bs != [] {
      var b := bs[0];
      if b.blockType == "quiz" && b.metadata.questions.Some? {
        HydrateAllSucceedsIff(db, t, b.metadata.questions.value);
      }
      NoFailureIff(db, t, bs[1..]);
      assert bs[0] in bs && forall x :: x in bs ==> x == bs[0] || x in bs[1..];
    }
  }

  ghost predicate LiveUnitId(db: Database, t: Target, id: int) {
    exists u :: u in db.units && LiveUnit(t)(u) && u.id == id
  }

  /**
    A snapshot is produced exactly when the course exists and every live block of a live unit
    resolves, units that end up in no section included.
   */
  lemma CompileSucceedsIff(db: Database, t: Target)
    requires VersionKeys(db)
    ensures Compiled(db, t).Ok?
            <==> && (exists c :: c in db.courses && c.id == t.courseId && c.orgId == t.orgId)
                 && (forall b :: b in db.blocks && b.orgId == t.orgId && !b.deleted && LiveUnitId(db, t, b.unitId)
                                 ==> BlockResolvable(db, t, b))
  {
    NoFailureIff(db, t, BlockQuery(db, t));
    FindCourseFinds(db.courses, t);
    QueryMembers(db.blocks, LiveBlock(t, UnitIds(UnitQuery(db, t))), QueryBlockLe);
    QueryMembers(db.units, LiveUnit(t), QueryUnitLe(t));
    forall b: Block ensures b.unitId in UnitIds(UnitQuery(db, t)) <==> LiveUnitId(db, t, b.unitId) {
      if LiveUnitId(db, t, b.unitId) {
        var u :| u in db.units && LiveUnit(t)(u) && u.id == b.unitId;
        assert u in UnitQuery(db, t);
      }
    }
  }

  lemma {:induction false} FindCourseFinds(courses: seq<Course>, t: Target)
    ensures FindCourse(courses, t).Some? <==> exists c :: c in courses && c.id == t.courseId && c.orgId == t.orgId
  {
    if courses != [] {
      FindCourseFinds(courses[1..], t);
    }
  }

  // ---------------------------------------------------------------- conservation

  ghost predicate PrimaryKeys(db: Database) {
    && (forall i, j :: 0 <= i < j < |db.sections| ==> db.sections[i].id != db.sections[j].id)
    && (forall i, j :: 0 <= i < j < |db.units| ==> db.units[i].id != db.units[j].id)
  }

  function UnitsOf(sections: seq<SectionView>): seq<UnitView> {
    if sections == [] then [] else sections[0].units + UnitsOf(sections[1..])
  }

  function BlocksOf(units: seq<UnitView>): seq<BlockView> {
    if units == [] then [] else units[0].blocks + BlocksOf(units[1..])
  }

  /** The units of the given sections, section by section. */
  function UnitsOver(db: Database, t: Target, ss: seq<Section>): seq<Unit> {
    if ss == [] then [] else UnitsIn(db, t, Some(ss[0].id)) + UnitsOver(db, t, ss[1..])
  }

  function BlocksOver(db: Database, t: Target, us: seq<Unit>): seq<Block> {
    if us == [] then [] else BlocksIn(db, t, us[0].id) + BlocksOver(db, t, us[1..])
  }

  /** The unit rows behind the snapshot, in the order in which it lists them. */
  function ListedUnits(db: Database, t: Target): seq<Unit> {
    UnitsOver(db, t, SectionQuery(db, t)) + UnitsIn(db, t, None)
  }

  function InSections(t: Target, ids: set<int>): Unit -> bool {
    (u: Unit) => LiveUnit(t)(u) && u.sectionId.Some? && u.sectionId.value in ids
  }

  function SectionIds(ss: seq<Section>): set<int> { set s | s in ss :: s.id }

  /** A live unit that has no section, or whose section is live. */
  function Placed(t: Target, ids: set<int>): Unit -> bool {
    (u: Unit) => LiveUnit(t)(u) && (u.sectionId.None? || u.sectionId.value in ids)
  }

  function LiveSectionIds(db: Database, t: Target): set<int> {
    set s | s in db.sections && LiveSection(t)(s) :: s.id
  }

  function PlacedUnits(db: Database, t: Target): seq<Unit> {
    Filter(db.units, Placed(t, LiveSectionIds(db, t)))
  }

  /** The live blocks of placed units. */
  function PlacedBlocks(db: Database, t: Target): seq<Block> {
    Filter(db.blocks, LiveBlock(t, UnitIds(PlacedUnits(db, t))))
  }

  lemma {:induction false} UnitsOverConserve(db: Database, t: Target, ss: seq<Section>)
    requires forall i, j :: 0 <= i < j < |ss| ==> ss[i].id != ss[j].id
    ensures multiset(UnitsOver(db, t, ss)) == multiset(Filter(db.units, InSections(t, SectionIds(ss))))
  {
    if ss == [] {
      FilterNothing(db.units, InSections(t, SectionIds(ss)));
    } else {
      UnitsOverConserve(db, t, ss[1..]);
      SectionIdsCons(ss);
      FilterSplits(db.units, InSections(t, SectionIds(ss)), UnitIn(t, Some(ss[0].id)),
                   InSections(t, SectionIds(ss[1..])));
    }
  }

  lemma SectionIdsCons(ss: seq<Section>)
    requires ss != [] && forall i, j :: 0 <= i < j < |ss| ==> ss[i].id != ss[j].id
    ensures SectionIds(ss) == {ss[0].id} + SectionIds(ss[1..]) && ss[0].id !in SectionIds(ss[1..])
  {
    assert ss == [ss[0]] + ss[1..];
  }

  lemma {:induction false} BlocksOverConserve(db: Database, t: Target, us: seq<Unit>)
    requires forall i, j :: 0 <= i < j < |us| ==> us[i].id != us[j].id
    ensures multiset(BlocksOver(db, t, us)) == multiset(Filter(db.blocks, LiveBlock(t, UnitIds(us))))
  {
    if us == [] {
      FilterNothing(db.blocks, LiveBlock(t, UnitIds(us)));
    } else {
      BlocksOverConserve(db, t, us[1..]);
      UnitIdsCons(us);
      FilterSplits(db.blocks, LiveBlock(t, UnitIds(us)), BlockIn(t, us[0].id), LiveBlock(t, UnitIds(us[1..])));
    }
  }

  lemma UnitIdsCons(us: seq<Unit>)
    requires us != [] && forall i, j :: 0 <= i < j < |us| ==> us[i].id != us[j].id
    ensures UnitIds(us) == {us[0].id} + UnitIds(us[1..]) && us[0].id !in UnitIds(us[1..])
  {
    assert us == [us[0]] + us[1..];
  }

  lemma SectionQueryKeys(db: Database, t: Target)
    requires PrimaryKeys(db)
    ensures forall i, j :: 0 <= i < j < |SectionQuery(db, t)| ==> SectionQuery(db, t)[i].id != SectionQuery(db, t)[j].id
    ensures SectionIds(SectionQuery(db, t)) == LiveSectionIds(db, t)
  {
    var ss := SectionQuery(db, t);
    FilterKeepsDistinct(db.sections, LiveSection(t));
    SortKeepsDistinct(Filter(db.sections, LiveSection(t)), SectionLe);
    QueryMembers(db.sections, LiveSection(t), SectionLe);
    forall i, j | 0 <= i < j < |ss| ensures ss[i].id != ss[j].id {
      assert ss[i] in ss && ss[j] in ss;
    }
    forall x ensures x in SectionIds(ss) <==> x in LiveSectionIds(db, t) {
      if x in LiveSectionIds(db, t) {
        var s :| s in db.sections && LiveSection(t)(s) && s.id == x;
        assert s in ss;
      }
    }
  }

  /** Main result for units: the snapshot lists each placed live unit exactly once, and no other unit. */
  lemma UnitsConserved(db: Database, t: Target)
    requires PrimaryKeys(db)
    ensures UnitsOf(AllSections(db, t)) == UnitViews(db, t, ListedUnits(db, t))
    ensures multiset(ListedUnits(db, t)) == multiset(PlacedUnits(db, t))
    ensures NoDuplicates(PlacedUnits(db, t))
  {
    var ids := LiveSectionIds(db, t);
    SectionQueryKeys(db, t);
    UnitsOverConserve(db, t, SectionQuery(db, t));
    FilterSplits(db.units, Placed(t, ids), InSections(t, ids), UnitIn(t, None));
    FilterKeepsDistinct(db.units, Placed(t, ids));
    UnitsListed(db, t);
  }

  lemma UnitsListed(db: Database, t: Target)
    ensures UnitsOf(AllSections(db, t)) == UnitViews(db, t, ListedUnits(db, t))
  {
    var orphans := UnitViews(db, t, UnitsIn(db, t, None));
    UnitsOfSections(db, t, SectionQuery(db, t));
    UnitsOfConcat(SectionViews(db, t, SectionQuery(db, t)), Unassigned(orphans));
    UnitsOfUnassigned(orphans);
    UnitViewsConcat(db, t, UnitsOver(db, t, SectionQuery(db, t)), UnitsIn(db, t, None));
  }

  lemma UnitsOfUnassigned(units: seq<UnitView>)
    ensures UnitsOf(Unassigned(units)) == units
  {
    if units != [] {
      assert Unassigned(units)[1..] == [];
    }
  }

  lemma {:induction false} UnitsOfConcat(a: seq<SectionView>, b: seq<SectionView>)
    ensures UnitsOf(a + b) == UnitsOf(a) + UnitsOf(b)
  {
    if a == [] {
      assert a + b == b;
    } else {
      assert (a + b)[1..] == a[1..] + b;
      UnitsOfConcat(a[1..], b);
    }
  }

  lemma {:induction false} UnitViewsConcat(db: Database, t: Target, a: seq<Unit>, b: seq<Unit>)
    ensures UnitViews(db, t, a + b) == UnitViews(db, t, a) + UnitViews(db, t, b)
  {
    if a == [] {
      assert a + b == b;
    } else {
      assert (a + b)[1..] == a[1..] + b;
      UnitViewsConcat(db, t, a[1..], b);
    }
  }

  lemma {:induction false} UnitsOfSections(db: Database, t: Target, ss: seq<Section>)
    ensures UnitsOf(SectionViews(db, t, ss)) == UnitViews(db, t, UnitsOver(db, t, ss))
  {
    if ss != [] {
      UnitsOfSections(db, t, ss[1..]);
      UnitViewsConcat(db, t, UnitsIn(db, t, Some(ss[0].id)), UnitsOver(db, t, ss[1..]));
    }
  }

  lemma {:induction false} BlockViewsConcat(db: Database, t: Target, a: seq<Block>, b: seq<Block>)
    ensures BlockViews(db, t, a + b) == BlockViews(db, t, a) + BlockViews(db, t, b)
  {
    if a == [] {
      assert a + b == b;
    } else {
      assert (a + b)[1..] == a[1..] + b;
      BlockViewsConcat(db, t, a[1..], b);
    }
  }

  lemma {:induction false} BlocksOfUnits(db: Database, t: Target, us: seq<Unit>)
    ensures BlocksOf(UnitViews(db, t, us)) == BlockViews(db, t, BlocksOver(db, t, us))
  {
    if us != [] {
      BlocksOfUnits(db, t, us[1..]);
      BlockViewsConcat(db, t, BlocksIn(db, t, us[0].id), BlocksOver(db, t, us[1..]));
    }
  }

  lemma ListedUnitKeys(db: Database, t: Target)
    requires PrimaryKeys(db)
    ensures forall i, j :: 0 <= i < j < |ListedUnits(db, t)| ==> ListedUnits(db, t)[i].id != ListedUnits(db, t)[j].id
    ensures UnitIds(ListedUnits(db, t)) == UnitIds(PlacedUnits(db, t))
  {
    UnitsConserved(db, t);
    FilterMembers(db.units, Placed(t, LiveSectionIds(db, t)));
    PermutedKeys(db.units, ListedUnits(db, t), PlacedUnits(db, t));
  }

  lemma PermutedKeys(table: seq<Unit>, listed: seq<Unit>, placed: seq<Unit>)
    requires forall i, j :: 0 <= i < j < |table| ==> table[i].id != table[j].id
    requires multiset(listed) == multiset(placed) && NoDuplicates(placed) && forall u :: u in placed ==> u in table
    ensures forall i, j :: 0 <= i < j < |listed| ==> listed[i].id != listed[j].id
    ensures UnitIds(listed) == UnitIds(placed)
  {
    SameMembers(listed, placed);
    NoDuplicatesPermute(listed, placed);
    UnitRowsByKey(table, listed);
  }

  lemma UnitRowsByKey(table: seq<Unit>, us: seq<Unit>)
    requires forall i, j :: 0 <= i < j < |table| ==> table[i].id != table[j].id
    requires NoDuplicates(us) && forall u :: u in us ==> u in table
    ensures forall i, j :: 0 <= i < j < |us| ==> us[i].id != us[j].id
  {
    forall i, j | 0 <= i < j < |us| ensures us[i].id != us[j].id {
      assert us[i] in table && us[j] in table;
    }
  }

  lemma SameMembers<T(!new)>(a: seq<T>, b: seq<T>)
    requires multiset(a) == multiset(b)
    ensures forall x :: x in a <==> x in b
  {
    forall x ensures x in a <==> x in b {
      assert x in a <==> x in multiset(a);
      assert x in b <==> x in multiset(b);
    }
  }

  lemma {:induction false} OnceEach<T(!new)>(s: seq<T>, x: T)
    requires NoDuplicates(s)
    ensures multiset(s)[x] <= 1
  {
    if s != [] {
      OnceEach(s[1..], x);
      assert s == [s[0]] + s[1..];
      if x == s[0] {
        assert x !in s[1..];
        assert x !in multiset(s[1..]);
      }
    }
  }

  lemma NoDuplicatesPermute<T(!new)>(a: seq<T>, b: seq<T>)
    requires multiset(a) == multiset(b) && NoDuplicates(b)
    ensures NoDuplicates(a)
  {
    forall i, j | 0 <= i < j < |a| ensures a[i] != a[j] {
      OnceEach(b, a[i]);
      assert a == a[..j] + [a[j]] + a[j + 1..];
      assert a[..j][i] in multiset(a[..j]);
    }
  }

  /** Main result for blocks: each live block of a placed unit appears exactly once, and no other block. */
  lemma BlocksConserved(db: Database, t: Target)
    requires PrimaryKeys(db)
    ensures BlocksOf(UnitsOf(AllSections(db, t))) == BlockViews(db, t, BlocksOver(db, t, ListedUnits(db, t)))
    ensures multiset(BlocksOver(db, t, ListedUnits(db, t))) == multiset(PlacedBlocks(db, t))
  {
    UnitsListed(db, t);
    BlocksOfUnits(db, t, ListedUnits(db, t));
    ListedUnitKeys(db, t);
    BlocksOverConserve(db, t, ListedUnits(db, t));
  }

  // ---------------------------------------------------------------- the two summaries

  datatype Summary = Summary(sections: nat, units: nat, blocks: nat)

  function SumUnits(sections: seq<SectionView>): nat {
    if sections == [] then 0 else |sections[0].units| + SumUnits(sections[1..])
  }

  function SumUnitBlocks(units: seq<UnitView>): nat {
    if units == [] then 0 else |units[0].blocks| + SumUnitBlocks(units[1..])
  }

  function SumBlocks(sections: seq<SectionView>): nat {
    if sections == [] then 0 else SumUnitBlocks(sections[0].units) + SumBlocks(sections[1..])
  }

  /** PublishingRepository.snapshot_summary: sums of lengths; None stands for the empty dictionary. */
  function SummaryBySums(s: Option<Snapshot>): Option<Summary> {
    match s
    case None => None
    case Some(s) => Some(Summary(|s.sections|, SumUnits(s.sections), SumBlocks(s.sections)))
  }

  /** CourseVersion._snapshot_summary: lengths of flattened lists; a missing snapshot counts as empty. */
  function SummaryByLists(s: Option<Snapshot>): Summary {
    var sections := if s.Some? then s.value.sections else [];
    Summary(|sections|, |UnitsOf(sections)|, |BlocksOf(UnitsOf(sections))|)
  }

  lemma {:induction false} BlocksOfConcat(a: seq<UnitView>, b: seq<UnitView>)
    ensures BlocksOf(a + b) == BlocksOf(a) + BlocksOf(b)
  {
    if a == [] {
      assert a + b == b;
    } else {
      assert (a + b)[1..] == a[1..] + b;
      BlocksOfConcat(a[1..], b);
    }
  }

  lemma {:induction false} UnitBlocksSum(units: seq<UnitView>)
    ensures SumUnitBlocks(units) == |BlocksOf(units)|
  {
    if units != [] {
      UnitBlocksSum(units[1..]);
    }
  }

  lemma {:induction false} SumsAreLengths(sections: seq<SectionView>)
    ensures SumUnits(sections) == |UnitsOf(sections)|
    ensures SumBlocks(sections) == |BlocksOf(UnitsOf(sections))|
  {
    if sections != [] {
      SumsAreLengths(sections[1..]);
      UnitBlocksSum(sections[0].units);
      BlocksOfConcat(sections[0].units, UnitsOf(sections[1..]));
    }
  }

  /** The two summaries agree on every snapshot; only a missing one tells them apart. */
  lemma SummariesAgree(s: Option<Snapshot>)
    ensures SummaryBySums(s) == Some(SummaryByLists(s)) <==> s.Some?
  {
    if s.Some? {
      SumsAreLengths(s.value.sections);
    }
  }

  lemma {:induction false} ViewLengths(db: Database, t: Target, ss: seq<Section>, us: seq<Unit>, bs: seq<Block>)
    ensures |SectionViews(db, t, ss)| == |ss|
    ensures |UnitViews(db, t, us)| == |us|
    ensures |BlockViews(db, t, bs)| == |bs|
    decreases |ss| + |us| + |bs|
  {
    if ss != [] { ViewLengths(db, t, ss[1..], us, bs); }
    else if us != [] { ViewLengths(db, t, ss, us[1..], bs); }
    else if bs != [] { ViewLengths(db, t, ss, us, bs[1..]); }
  }

  lemma SameLength<T>(a: seq<T>, b: seq<T>)
    requires multiset(a) == multiset(b)
    ensures |a| == |b|
  {
    assert |multiset(a)| == |multiset(b)|;
  }

  /** On a compiled snapshot the summary counts rows of the tables. */
  lemma SummaryCountsRows(db: Database, t: Target)
    requires PrimaryKeys(db) && Compiled(db, t).Ok?
    ensures SummaryByLists(Some(Compiled(db, t).value))
            == Summary(|Filter(db.sections, LiveSection(t))| + (if UnitsIn(db, t, None) == [] then 0 else 1),
                       |PlacedUnits(db, t)|, |PlacedBlocks(db, t)|)
  {
    UnitsConserved(db, t);
    BlocksConserved(db, t);
    ViewLengths(db, t, SectionQuery(db, t), ListedUnits(db, t), BlocksOver(db, t, ListedUnits(db, t)));
    ViewLengths(db, t, [], UnitsIn(db, t, None), []);
    SameLength(ListedUnits(db, t), PlacedUnits(db, t));
    SameLength(BlocksOver(db, t, ListedUnits(db, t)), PlacedBlocks(db, t));
    SameLength(SectionQuery(db, t), Filter(db.sections, LiveSection(t)));
  }

  // ---------------------------------------------------------------- order

  ghost predicate UnitsInOrder(units: seq<UnitView>) {
    forall i, j :: 0 <= i < j < |units| ==>
      PairLe((units[i].sortOrder, units[i].id), (units[j].sortOrder, units[j].id))
  }

  ghost predicate BlocksInOrder(blocks: seq<BlockView>) {
    forall i, j :: 0 <= i < j < |blocks| ==>
      PairLe((blocks[i].sortOrder, blocks[i].id), (blocks[j].sortOrder, blocks[j].id))
  }

  lemma {:induction false} UnitViewAt(db: Database, t: Target, us: seq<Unit>, i: nat)
    requires i < |us|
    ensures |UnitViews(db, t, us)| == |us|
    ensures UnitViews(db, t, us)[i] == ViewUnit(us[i], BlockViews(db, t, BlocksIn(db, t, us[i].id)))
  {
    ViewLengths(db, t, [], us, []);
    if i > 0 {
      UnitViewAt(db, t, us[1..], i - 1);
    }
  }

  lemma {:induction false} BlockViewAt(db: Database, t: Target, bs: seq<Block>, i: nat)
    requires i < |bs|
    ensures |BlockViews(db, t, bs)| == |bs|
    ensures BlockViews(db, t, bs)[i].id == bs[i].id && BlockViews(db, t, bs)[i].sortOrder == bs[i].sortOrder
  {
    ViewLengths(db, t, [], [], bs);
    if i > 0 {
      BlockViewAt(db, t, bs[1..], i - 1);
    }
  }

  lemma BlocksOrdered(db: Database, t: Target, unitId: int)
    ensures BlocksInOrder(BlockViews(db, t, BlocksIn(db, t, unitId)))
  {
    var bs := BlocksIn(db, t, unitId);
    SnapshotOrders(t);
    SortSorts(Filter(db.blocks, BlockIn(t, unitId)), BlockLe);
    ViewLengths(db, t, [], [], bs);
    forall i, j | 0 <= i < j < |bs|
      ensures PairLe((BlockViews(db, t, bs)[i].sortOrder, BlockViews(db, t, bs)[i].id),
                     (BlockViews(db, t, bs)[j].sortOrder, BlockViews(db, t, bs)[j].id))
    {
      BlockViewAt(db, t, bs, i);
      BlockViewAt(db, t, bs, j);
    }
  }

  /** Within a section units stand by (sort_order, id), and within a unit blocks do. */
  lemma UnitsOrdered(db: Database, t: Target, sectionId: Option<int>)
    ensures var views := UnitViews(db, t, UnitsIn(db, t, sectionId));
            UnitsInOrder(views) && forall i :: 0 <= i < |views| ==> BlocksInOrder(views[i].blocks)
  {
    var us := UnitsIn(db, t, sectionId);
    SnapshotOrders(t);
    SortSorts(Filter(db.units, UnitIn(t, sectionId)), UnitLe);
    ViewLengths(db, t, [], us, []);
    forall i | 0 <= i < |us|
      ensures UnitViews(db, t, us)[i].id == us[i].id && UnitViews(db, t, us)[i].sortOrder == us[i].sortOrder
      ensures BlocksInOrder(UnitViews(db, t, us)[i].blocks)
    {
      UnitViewAt(db, t, us, i);
      BlocksOrdered(db, t, us[i].id);
    }
  }

  lemma {:induction false} SectionViewAt(db: Database, t: Target, ss: seq<Section>, i: nat)
    requires i < |ss|
    ensures |SectionViews(db, t, ss)| == |ss|
    ensures SectionViews(db, t, ss)[i] == SectionView(ss[i].id, ss[i].title, ss[i].sortOrder, Some(ss[i].minimumTime),
                                                      UnitViews(db, t, UnitsIn(db, t, Some(ss[i].id))))
  {
    ViewLengths(db, t, ss, [], []);
    if i > 0 {
      SectionViewAt(db, t, ss[1..], i - 1);
    }
  }

  ghost predicate SectionsInOrder(sections: seq<SectionView>) {
    forall i, j :: 0 <= i < j < |sections| ==>
      PairLe((sections[i].sortOrder, sections[i].id), (sections[j].sortOrder, sections[j].id))
  }

  lemma SectionsOrdered(db: Database, t: Target)
    ensures SectionsInOrder(SectionViews(db, t, SectionQuery(db, t)))
  {
    var ss := SectionQuery(db, t);
    SnapshotOrders(t);
    SortSorts(Filter(db.sections, LiveSection(t)), SectionLe);
    ViewLengths(db, t, ss, [], []);
    forall i | 0 <= i < |ss|
      ensures SectionViews(db, t, ss)[i].id == ss[i].id && SectionViews(db, t, ss)[i].sortOrder == ss[i].sortOrder
    {
      SectionViewAt(db, t, ss, i);
    }
  }

  /**
    The live sections of a snapshot stand by (sort_order, id), and every section, the collected one
    at the end included, lists its content in order.
   */
  lemma SnapshotInOrder(db: Database, t: Target)
    ensures forall k :: 0 <= k < |AllSections(db, t)| ==>
              var units := AllSections(db, t)[k].units;
              UnitsInOrder(units) && forall i :: 0 <= i < |units| ==> BlocksInOrder(units[i].blocks)
    ensures var n := |SectionQuery(db, t)|;
            n <= |AllSections(db, t)| && SectionsInOrder(AllSections(db, t)[..n])
  {
    var ss := SectionQuery(db, t);
    ViewLengths(db, t, ss, [], []);
    SectionsOrdered(db, t);
    assert AllSections(db, t)[..|ss|] == SectionViews(db, t, ss);
    forall k | 0 <= k < |AllSections(db, t)|
      ensures var units := AllSections(db, t)[k].units;
              UnitsInOrder(units) && forall i :: 0 <= i < |units| ==> BlocksInOrder(units[i].blocks)
    {
      if k < |ss| {
        SectionViewAt(db, t, ss, k);
        UnitsOrdered(db, t, Some(ss[k].id));
      } else {
        UnitsOrdered(db, t, None);
      }
    }
  }

  /**
    The whole section list is in that order exactly if nothing is collected or no live section comes
    after (9999, 0), the place of the collecting section.
   */
  lemma AllSectionsInOrderIff(db: Database, t: Target)
    ensures SectionsInOrder(AllSections(db, t))
            <==> UnitsIn(db, t, None) == []
                 || forall i :: 0 <= i < |SectionQuery(db, t)| ==>
                      PairLe((SectionQuery(db, t)[i].sortOrder, SectionQuery(db, t)[i].id), (9999, 0))
  {
    SectionsOrdered(db, t);
    var views := AllSectionsShape(db, t);
    CollectedLastIff(SectionQuery(db, t), views, AllSections(db, t));
  }

  /** The list holds a view of each live section, and at its end the collecting section if there is something in it. */
  lemma AllSectionsShape(db: Database, t: Target) returns (views: seq<SectionView>)
    ensures views == SectionViews(db, t, SectionQuery(db, t)) && ViewsOf(SectionQuery(db, t), views)
    ensures var all := AllSections(db, t);
            && views <= all && |all| == |views| + (if UnitsIn(db, t, None) == [] then 0 else 1)
            && (|all| > |views| ==> all[|views|].sortOrder == 9999 && all[|views|].id == 0)
  {
    var ss := SectionQuery(db, t);
    views := SectionViews(db, t, ss);
    ViewLengths(db, t, ss, [], []);
    ViewLengths(db, t, [], UnitsIn(db, t, None), []);
    forall i | 0 <= i < |ss| ensures views[i].id == ss[i].id && views[i].sortOrder == ss[i].sortOrder {
      SectionViewAt(db, t, ss, i);
    }
  }

  ghost predicate ViewsOf(ss: seq<Section>, views: seq<SectionView>) {
    |views| == |ss| && forall i :: 0 <= i < |ss| ==> views[i].id == ss[i].id && views[i].sortOrder == ss[i].sortOrder
  }

  /** A list in order stays so when the collecting section follows exactly if that one comes after all others. */
  lemma CollectedLastIff(ss: seq<Section>, views: seq<SectionView>, all: seq<SectionView>)
    requires ViewsOf(ss, views) && SectionsInOrder(views) && views <= all && |all| <= |views| + 1
    requires |all| > |views| ==> all[|views|].sortOrder == 9999 && all[|views|].id == 0
    ensures SectionsInOrder(all)
            <==> |all| == |views| || forall i :: 0 <= i < |ss| ==> PairLe((ss[i].sortOrder, ss[i].id), (9999, 0))
  {
  }
}
