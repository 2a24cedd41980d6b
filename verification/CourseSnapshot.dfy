/**
  Compiling a course into a snapshot: flat section, module, block and question-version tables
  become one nested document in which question-bank references are replaced by their content.
 */
module CourseSnapshot {
  import opened Wrappers
  import opened Ordering
  import Text

  // ---------------------------------------------------------------- tables and documents

  datatype Course = Course(id: string, orgId: int, name: string, status: string)

  datatype Section = Section(id: int, courseId: string, orgId: int, title: string, sortOrder: int,
                             minimumTime: int, deleted: bool)

  datatype Unit = Unit(id: int, courseId: string, orgId: int, sectionId: Option<int>, title: string,
                       unitType: string, status: string, contentUrl: Option<string>, sortOrder: int, deleted: bool)

  /** The content a published question version contributes to a quiz. */
  datatype Hydration = Hydration(id: string, text: string, options: seq<string>, correctOptionId: Option<string>,
                                 questionId: int, versionId: int, questionType: string,
                                 optionsJson: Option<seq<string>>, correctAnswerJson: Option<seq<string>>,
                                 points: int, hydratedAt: string)

  /** A question object of a quiz: written by an author, or the hydrated form, which has no "type" key. */
  datatype Question =
    | Authored(kind: Option<string>, questionVersionId: Option<int>, versionId: Option<int>,
               fields: map<string, string>)
    | Hydrated(content: Hydration)

  /** A block's metadata: its "questions" key if present, and the other keys. */
  datatype Settings = Settings(questions: Option<seq<Question>>, others: map<string, string>)

  datatype Block = Block(id: int, unitId: int, orgId: int, blockType: string, content: Option<string>,
                         mediaAssetId: Option<int>, sortOrder: int, metadata: Settings, deleted: bool)

  datatype QuestionVersion = QuestionVersion(id: int, questionId: int, orgId: int, status: string,
                                             questionType: string, text: string, options: Option<seq<string>>,
                                             correct: Option<seq<string>>, points: int)

  datatype Database = Database(courses: seq<Course>, sections: seq<Section>, units: seq<Unit>,
                               blocks: seq<Block>, versions: seq<QuestionVersion>)

  /** What to compile, when, and where the database sorts NULL. */
  datatype Target = Target(courseId: string, orgId: int, now: string, nullsFirst: bool)

  datatype BlockView = BlockView(id: int, unitId: int, blockType: string, content: Option<string>,
                                 mediaAssetId: Option<int>, sortOrder: int, settings: Settings, metadata: Settings)

  datatype UnitView = UnitView(id: int, sectionId: Option<int>, title: string, unitType: string, status: string,
                               contentUrl: Option<string>, sortOrder: int, blocks: seq<BlockView>)

  datatype SectionView = SectionView(id: int, title: string, sortOrder: int, minimumTime: Option<int>,
                                     units: seq<UnitView>)

  datatype Snapshot = Snapshot(courseId: string, courseName: string, courseStatus: string, capturedAt: string,
                               sections: seq<SectionView>)

  datatype Failure = CourseNotFound | VersionNotFound(id: int) | VersionNotPublished(id: int)

  // ---------------------------------------------------------------- hydration

  function Truthy(id: Option<int>): bool { id.Some? && id.value != 0 }

  /** The version a bank reference asks for; a bank reference without one is left as it is. */
  function VersionRef(q: Question): Option<int> {
    if q.Hydrated? || q.kind != Some("bank_reference") then None
    else if Truthy(q.questionVersionId) then q.questionVersionId
    else if Truthy(q.versionId) then q.versionId else None
  }

  function FindVersion(versions: seq<QuestionVersion>, id: int, orgId: int): Option<QuestionVersion> {
    if versions == [] then None
    else if versions[0].id == id && versions[0].orgId == orgId then Some(versions[0])
    else FindVersion(versions[1..], id, orgId)
  }

  function ContentOf(v: QuestionVersion, now: string): Hydration {
    var answers := if v.correct.Some? then v.correct.value else [];
    Hydration("qbank-" + Text.IntText(v.questionId) + "-v" + Text.IntText(v.id), v.text,
              if v.options.Some? then v.options.value else [],
              if answers == [] then None else Some(answers[0]),
              v.questionId, v.id, v.questionType, v.options, v.correct, v.points, now)
  }

  function Hydrate(db: Database, t: Target, q: Question): Result<Question, Failure> {
    match VersionRef(q)
    case None => Ok(q)
    case Some(id) =>
      match FindVersion(db.versions, id, t.orgId)
      case None => Err(VersionNotFound(id))
      case Some(v) =>
        if v.status != "PUBLISHED" then Err(VersionNotPublished(id)) else Ok(Hydrated(ContentOf(v, t.now)))
  }

  function HydrateAll(db: Database, t: Target, qs: seq<Question>): Result<seq<Question>, Failure> {
    if qs == [] then Ok([])
    else
      match Hydrate(db, t, qs[0])
      case Err(e) => Err(e)
      case Ok(q) => Prepend([q], HydrateAll(db, t, qs[1..]))
  }

  function Prepend(done: seq<Question>, rest: Result<seq<Question>, Failure>): Result<seq<Question>, Failure> {
    match rest
    case Err(e) => Err(e)
    case Ok(qs) => Ok(done + qs)
  }

  /** Only blocks of type "quiz" that have a "questions" key are rewritten. */
  function HydrateSettings(db: Database, t: Target, b: Block): Result<Settings, Failure> {
    if b.blockType == "quiz" && b.metadata.questions.Some? then
      match HydrateAll(db, t, b.metadata.questions.value)
      case Err(e) => Err(e)
      case Ok(qs) => Ok(b.metadata.(questions := Some(qs)))
    else Ok(b.metadata)
  }

  method HydrateQuestions(db: Database, t: Target, qs: seq<Question>) returns (r: Result<seq<Question>, Failure>)
    ensures r == HydrateAll(db, t, qs)
  {
    var hydrated := [];
    PrependNothing(HydrateAll(db, t, qs));
    assert qs[0..] == qs;
    for i := 0 to |qs|
      invariant HydrateAll(db, t, qs) == Prepend(hydrated, HydrateAll(db, t, qs[i..]))
    {
      HydrateAllStep(db, t, qs, i);
      match Hydrate(db, t, qs[i]) {
        case Err(e) => return Err(e);
        case Ok(q) =>
          PrependTwice(hydrated, q, HydrateAll(db, t, qs[i + 1..]));
          hydrated := hydrated + [q];
      }
    }
    assert hydrated + [] == hydrated;
    return Ok(hydrated);
  }

  lemma HydrateAllStep(db: Database, t: Target, qs: seq<Question>, i: nat)
    requires i < |qs|
    ensures HydrateAll(db, t, qs[i..])
            == match Hydrate(db, t, qs[i])
               case Err(e) => Err(e)
               case Ok(q) => Prepend([q], HydrateAll(db, t, qs[i + 1..]))
  {
    assert qs[i..][1..] == qs[i + 1..];
  }

  lemma PrependNothing(rest: Result<seq<Question>, Failure>)
    ensures Prepend([], rest) == rest
  {
    if rest.Ok? {
      assert [] + rest.value == rest.value;
    }
  }

  lemma PrependTwice(done: seq<Question>, q: Question, rest: Result<seq<Question>, Failure>)
    ensures Prepend(done, Prepend([q], rest)) == Prepend(done + [q], rest)
  {
    if rest.Ok? {
      assert done + ([q] + rest.value) == done + [q] + rest.value;
    }
  }

  // ---------------------------------------------------------------- the queries

  predicate SectionLe(a: Section, b: Section) { PairLe((a.sortOrder, a.id), (b.sortOrder, b.id)) }

  predicate UnitLe(a: Unit, b: Unit) { PairLe((a.sortOrder, a.id), (b.sortOrder, b.id)) }

  predicate BlockLe(a: Block, b: Block) { PairLe((a.sortOrder, a.id), (b.sortOrder, b.id)) }

  /** The module query orders by section first; where NULL goes is the database's choice. */
  predicate SectionIdLt(t: Target, a: Option<int>, b: Option<int>) {
    match (a, b)
    case (None, Some(_)) => t.nullsFirst
    case (Some(_), None) => !t.nullsFirst
    case (Some(x), Some(y)) => x < y
    case _ => false
  }

  function QueryUnitLe(t: Target): (Unit, Unit) -> bool {
    (a: Unit, b: Unit) => SectionIdLt(t, a.sectionId, b.sectionId) || (a.sectionId == b.sectionId && UnitLe(a, b))
  }

  predicate QueryBlockLe(a: Block, b: Block) {
    a.unitId < b.unitId || (a.unitId == b.unitId && BlockLe(a, b))
  }

  function LiveSection(t: Target): Section -> bool {
    (s: Section) => s.courseId == t.courseId && s.orgId == t.orgId && !s.deleted
  }

  function LiveUnit(t: Target): Unit -> bool {
    (u: Unit) => u.courseId == t.courseId && u.orgId == t.orgId && !u.deleted
  }

  function SectionQuery(db: Database, t: Target): seq<Section> {
    SortBy(Filter(db.sections, LiveSection(t)), SectionLe)
  }

  function UnitQuery(db: Database, t: Target): seq<Unit> {
    SortBy(Filter(db.units, LiveUnit(t)), QueryUnitLe(t))
  }

  function UnitIds(units: seq<Unit>): set<int> { set u | u in units :: u.id }

  function LiveBlock(t: Target, unitIds: set<int>): Block -> bool {
    (b: Block) => b.unitId in unitIds && b.orgId == t.orgId && !b.deleted
  }

  function BlockQuery(db: Database, t: Target): seq<Block> {
    SortBy(Filter(db.blocks, LiveBlock(t, UnitIds(UnitQuery(db, t)))), QueryBlockLe)
  }

  function FindCourse(courses: seq<Course>, t: Target): Option<Course> {
    if courses == [] then None
    else if courses[0].id == t.courseId && courses[0].orgId == t.orgId then Some(courses[0])
    else FindCourse(courses[1..], t)
  }

  // ---------------------------------------------------------------- what the snapshot should be

  /** The live units of a section (or of no section), by position. */
  function UnitsIn(db: Database, t: Target, sectionId: Option<int>): seq<Unit> {
    SortBy(Filter(db.units, UnitIn(t, sectionId)), UnitLe)
  }

  function UnitIn(t: Target, sectionId: Option<int>): Unit -> bool {
    (u: Unit) => LiveUnit(t)(u) && u.sectionId == sectionId
  }

  /** The live blocks of a unit, by position. */
  function BlocksIn(db: Database, t: Target, unitId: int): seq<Block> {
    SortBy(Filter(db.blocks, BlockIn(t, unitId)), BlockLe)
  }

  function BlockIn(t: Target, unitId: int): Block -> bool {
    (b: Block) => b.unitId == unitId && b.orgId == t.orgId && !b.deleted
  }

  function ViewBlock(b: Block, settings: Settings): BlockView {
    BlockView(b.id, b.unitId, b.blockType, b.content, b.mediaAssetId, b.sortOrder, settings, settings)
  }

  function BlockViewOf(db: Database, t: Target, b: Block): BlockView {
    match HydrateSettings(db, t, b)
    case Ok(settings) => ViewBlock(b, settings)
    case Err(_) => ViewBlock(b, b.metadata)
  }

  function BlockViews(db: Database, t: Target, bs: seq<Block>): seq<BlockView> {
    if bs == [] then [] else [BlockViewOf(db, t, bs[0])] + BlockViews(db, t, bs[1..])
  }

  function ViewUnit(u: Unit, blocks: seq<BlockView>): UnitView {
    UnitView(u.id, u.sectionId, u.title, u.unitType, u.status, u.contentUrl, u.sortOrder, blocks)
  }

  function UnitViews(db: Database, t: Target, us: seq<Unit>): seq<UnitView> {
    if us == [] then []
    else [ViewUnit(us[0], BlockViews(db, t, BlocksIn(db, t, us[0].id)))] + UnitViews(db, t, us[1..])
  }

  function SectionViews(db: Database, t: Target, ss: seq<Section>): seq<SectionView> {
    if ss == [] then []
    else
      [SectionView(ss[0].id, ss[0].title, ss[0].sortOrder, Some(ss[0].minimumTime),
                   UnitViews(db, t, UnitsIn(db, t, Some(ss[0].id))))] + SectionViews(db, t, ss[1..])
  }

  /** Units without a section are collected at the end, under section 0. */
  function Unassigned(units: seq<UnitView>): seq<SectionView> {
    if units == [] then [] else [SectionView(0, "Unassigned Modules", 9999, None, units)]
  }

  function AllSections(db: Database, t: Target): seq<SectionView> {
    SectionViews(db, t, SectionQuery(db, t)) + Unassigned(UnitViews(db, t, UnitsIn(db, t, None)))
  }

  /** The first block, in query order, that cannot be hydrated. */
  function FirstFailure(db: Database, t: Target, bs: seq<Block>): Option<Failure> {
    if bs == [] then None
    else
      match HydrateSettings(db, t, bs[0])
      case Err(e) => Some(e)
      case Ok(_) => FirstFailure(db, t, bs[1..])
  }

  function Compiled(db: Database, t: Target): Result<Snapshot, Failure> {
    match FindCourse(db.courses, t)
    case None => Err(CourseNotFound)
    case Some(c) =>
      match FirstFailure(db, t, BlockQuery(db, t))
      case Some(e) => Err(e)
      case None => Ok(Snapshot(c.id, c.name, c.status, t.now, AllSections(db, t)))
  }

  // ---------------------------------------------------------------- the compiler

  function At<K, V>(m: map<K, seq<V>>, key: K): seq<V> {
    if key in m then m[key] else []
  }

  function OfUnit(unitId: int): Block -> bool { (b: Block) => b.unitId == unitId }

  function OfSection(sectionId: Option<int>): Unit -> bool { (u: Unit) => u.sectionId == sectionId }

  ghost predicate BlocksGrouped(db: Database, t: Target, groups: map<int, seq<BlockView>>, bs: seq<Block>) {
    forall k :: At(groups, k) == BlockViews(db, t, Filter(bs, OfUnit(k)))
  }

  lemma {:induction false} BlockViewsAppend(db: Database, t: Target, bs: seq<Block>, b: Block)
    ensures BlockViews(db, t, bs + [b]) == BlockViews(db, t, bs) + [BlockViewOf(db, t, b)]
  {
    if bs == [] {
      assert [] + [b] == [b];
    } else {
      assert (bs + [b])[1..] == bs[1..] + [b];
      BlockViewsAppend(db, t, bs[1..], b);
    }
  }

  lemma BlocksGroupedStep(db: Database, t: Target, groups: map<int, seq<BlockView>>, bs: seq<Block>, b: Block)
    requires BlocksGrouped(db, t, groups, bs)
    ensures BlocksGrouped(db, t, groups[b.unitId := At(groups, b.unitId) + [BlockViewOf(db, t, b)]], bs + [b])
  {
    var after := groups[b.unitId := At(groups, b.unitId) + [BlockViewOf(db, t, b)]];
    forall k ensures At(after, k) == BlockViews(db, t, Filter(bs + [b], OfUnit(k))) {
      FilterAppend(bs, b, OfUnit(k));
      if k == b.unitId {
        BlockViewsAppend(db, t, Filter(bs, OfUnit(k)), b);
      } else {
        assert Filter(bs, OfUnit(k)) + [] == Filter(bs, OfUnit(k));
      }
      assert At(groups, k) == BlockViews(db, t, Filter(bs, OfUnit(k)));
    }
  }

  lemma FirstFailureStep(db: Database, t: Target, bs: seq<Block>, i: nat)
    requires i < |bs|
    ensures FirstFailure(db, t, bs[i..])
            == match HydrateSettings(db, t, bs[i])
               case Err(e) => Some(e)
               case Ok(_) => FirstFailure(db, t, bs[i + 1..])
  {
    assert bs[i..][1..] == bs[i + 1..];
  }

  method BlockSettings(db: Database, t: Target, b: Block) returns (r: Result<Settings, Failure>)
    ensures r == HydrateSettings(db, t, b)
  {
    var settings := b.metadata;
    if b.blockType == "quiz" && settings.questions.Some? {
      var hydrated := HydrateQuestions(db, t, settings.questions.value);
      match hydrated {
        case Err(e) => return Err(e);
        case Ok(qs) => settings := settings.(questions := Some(qs));
      }
    }
    return Ok(settings);
  }

  /** Hydrates the blocks in query order and files each under its unit; the first failure stops it. */
  method GroupBlocks(db: Database, t: Target, bs: seq<Block>) returns (failure: Option<Failure>,
                                                                       groups: map<int, seq<BlockView>>)
    ensures failure == FirstFailure(db, t, bs)
    ensures failure.None? ==> BlocksGrouped(db, t, groups, bs)
  {
    groups := map[];
    for i := 0 to |bs|
      invariant FirstFailure(db, t, bs) == FirstFailure(db, t, bs[i..])
      invariant BlocksGrouped(db, t, groups, bs[..i])
    {
      var settings := BlockSettings(db, t, bs[i]);
      FirstFailureStep(db, t, bs, i);
      match settings {
        case Err(e) => return Some(e), map[];
        case Ok(s) =>
          BlocksGroupedStep(db, t, groups, bs[..i], bs[i]);
          assert bs[..i + 1] == bs[..i] + [bs[i]];
          groups := groups[bs[i].unitId := At(groups, bs[i].unitId) + [ViewBlock(bs[i], s)]];
      }
    }
    assert bs[..|bs|] == bs;
    failure := None;
  }

  function FiledUnits(us: seq<Unit>, blocks: map<int, seq<BlockView>>): seq<UnitView> {
    if us == [] then [] else [ViewUnit(us[0], At(blocks, us[0].id))] + FiledUnits(us[1..], blocks)
  }

  ghost predicate UnitsGrouped(groups: map<Option<int>, seq<UnitView>>, us: seq<Unit>,
                               blocks: map<int, seq<BlockView>>)
  {
    forall k :: At(groups, k) == FiledUnits(Filter(us, OfSection(k)), blocks)
  }

  lemma {:induction false} FiledUnitsAppend(us: seq<Unit>, u: Unit, blocks: map<int, seq<BlockView>>)
    ensures FiledUnits(us + [u], blocks) == FiledUnits(us, blocks) + [ViewUnit(u, At(blocks, u.id))]
  {
    if us == [] {
      assert [] + [u] == [u];
    } else {
      assert (us + [u])[1..] == us[1..] + [u];
      FiledUnitsAppend(us[1..], u, blocks);
    }
  }

  lemma UnitsGroupedStep(groups: map<Option<int>, seq<UnitView>>, us: seq<Unit>, u: Unit,
                         blocks: map<int, seq<BlockView>>)
    requires UnitsGrouped(groups, us, blocks)
    ensures UnitsGrouped(groups[u.sectionId := At(groups, u.sectionId) + [ViewUnit(u, At(blocks, u.id))]],
                         us + [u], blocks)
  {
    var after := groups[u.sectionId := At(groups, u.sectionId) + [ViewUnit(u, At(blocks, u.id))]];
    forall k ensures At(after, k) == FiledUnits(Filter(us + [u], OfSection(k)), blocks) {
      FilterAppend(us, u, OfSection(k));
      if k == u.sectionId {
        FiledUnitsAppend(Filter(us, OfSection(k)), u, blocks);
      } else {
        assert Filter(us, OfSection(k)) + [] == Filter(us, OfSection(k));
      }
      assert At(groups, k) == FiledUnits(Filter(us, OfSection(k)), blocks);
    }
  }

  method GroupUnits(us: seq<Unit>, blocks: map<int, seq<BlockView>>) returns (groups: map<Option<int>, seq<UnitView>>)
    ensures UnitsGrouped(groups, us, blocks)
  {
    groups := map[];
    for i := 0 to |us|
      invariant UnitsGrouped(groups, us[..i], blocks)
    {
      UnitsGroupedStep(groups, us[..i], us[i], blocks);
      assert us[..i + 1] == us[..i] + [us[i]];
      groups := groups[us[i].sectionId := At(groups, us[i].sectionId) + [ViewUnit(us[i], At(blocks, us[i].id))]];
    }
    assert us[..|us|] == us;
  }

  function FiledSections(ss: seq<Section>, units: map<Option<int>, seq<UnitView>>): seq<SectionView> {
    if ss == [] then []
    else [SectionView(ss[0].id, ss[0].title, ss[0].sortOrder, Some(ss[0].minimumTime), At(units, Some(ss[0].id)))]
         + FiledSections(ss[1..], units)
  }

  /** Main result: the compiler produces exactly the nested document described by Compiled. */
  method BuildSnapshot(db: Database, t: Target) returns (r: Result<Snapshot, Failure>)
    ensures r == Compiled(db, t)
  {
    var course := FindCourse(db.courses, t);
    if course.None? {
      return Err(CourseNotFound);
    }
    var sections := SectionQuery(db, t);
    var units := UnitQuery(db, t);
    var failure, blocksByUnit := GroupBlocks(db, t, BlockQuery(db, t));
    if failure.Some? {
      return Err(failure.value);
    }
    var unitsBySection := GroupUnits(units, blocksByUnit);
    var list := FiledSections(sections, unitsBySection);
    var orphaned := At(unitsBySection, None);
    assert list + [] == list;
    if orphaned != [] {
      list := list + [SectionView(0, "Unassigned Modules", 9999, None, orphaned)];
    }
    GroupingIsQuery(db, t, blocksByUnit, unitsBySection);
    return Ok(Snapshot(course.value.id, course.value.name, course.value.status, t.now, list));
  }

  // ---------------------------------------------------------------- grouping refines querying

  lemma SnapshotOrders(t: Target)
    ensures IsOrder(SectionLe) && IsOrder(UnitLe) && IsOrder(BlockLe)
    ensures IsOrder(QueryUnitLe(t)) && IsOrder(QueryBlockLe)
  {
  }

  /** A group of the block query is the unit's own query. */
  lemma BlockGroup(db: Database, t: Target, unitId: int)
    requires unitId in UnitIds(UnitQuery(db, t))
    ensures Filter(BlockQuery(db, t), OfUnit(unitId)) == BlocksIn(db, t, unitId)
  {
    var live := LiveBlock(t, UnitIds(UnitQuery(db, t)));
    SnapshotOrders(t);
    FilterSort(Filter(db.blocks, live), QueryBlockLe, OfUnit(unitId));
    FilterFilter(db.blocks, live, OfUnit(unitId), BlockIn(t, unitId));
    FilterMembers(db.blocks, BlockIn(t, unitId));
    SortAgree(Filter(db.blocks, BlockIn(t, unitId)), QueryBlockLe, BlockLe);
  }

  /** A group of the unit query is the section's own query. */
  lemma UnitGroup(db: Database, t: Target, sectionId: Option<int>)
    ensures Filter(UnitQuery(db, t), OfSection(sectionId)) == UnitsIn(db, t, sectionId)
  {
    SnapshotOrders(t);
    FilterSort(Filter(db.units, LiveUnit(t)), QueryUnitLe(t), OfSection(sectionId));
    FilterFilter(db.units, LiveUnit(t), OfSection(sectionId), UnitIn(t, sectionId));
    FilterMembers(db.units, UnitIn(t, sectionId));
    SortAgree(Filter(db.units, UnitIn(t, sectionId)), QueryUnitLe(t), UnitLe);
  }

  lemma {:induction false} FiledIsViewed(db: Database, t: Target, blocks: map<int, seq<BlockView>>, us: seq<Unit>)
    requires BlocksGrouped(db, t, blocks, BlockQuery(db, t))
    requires forall u :: u in us ==> u.id in UnitIds(UnitQuery(db, t))
    ensures FiledUnits(us, blocks) == UnitViews(db, t, us)
  {
    if us != [] {
      assert us[0] in us;
      BlockGroup(db, t, us[0].id);
      assert At(blocks, us[0].id) == BlockViews(db, t, Filter(BlockQuery(db, t), OfUnit(us[0].id)));
      FiledIsViewed(db, t, blocks, us[1..]);
    }
  }

  lemma SectionGroup(db: Database, t: Target, blocks: map<int, seq<BlockView>>,
                     units: map<Option<int>, seq<UnitView>>, sectionId: Option<int>)
    requires BlocksGrouped(db, t, blocks, BlockQuery(db, t)) && UnitsGrouped(units, UnitQuery(db, t), blocks)
    ensures At(units, sectionId) == UnitViews(db, t, UnitsIn(db, t, sectionId))
  {
    UnitGroup(db, t, sectionId);
    FilterMembers(UnitQuery(db, t), OfSection(sectionId));
    FiledIsViewed(db, t, blocks, UnitsIn(db, t, sectionId));
  }

  lemma {:induction false} FiledSectionsAreViewed(db: Database, t: Target, blocks: map<int, seq<BlockView>>,
                                                  units: map<Option<int>, seq<UnitView>>, ss: seq<Section>)
    requires BlocksGrouped(db, t, blocks, BlockQuery(db, t)) && UnitsGrouped(units, UnitQuery(db, t), blocks)
    ensures FiledSections(ss, units) == SectionViews(db, t, ss)
  {
    if ss != [] {
      SectionGroup(db, t, blocks, units, Some(ss[0].id));
      FiledSectionsAreViewed(db, t, blocks, units, ss[1..]);
    }
  }

  lemma GroupingIsQuery(db: Database, t: Target, blocks: map<int, seq<BlockView>>,
                        units: map<Option<int>, seq<UnitView>>)
    requires BlocksGrouped(db, t, blocks, BlockQuery(db, t)) && UnitsGrouped(units, UnitQuery(db, t), blocks)
    ensures FiledSections(SectionQuery(db, t), units) + Unassigned(At(units, None)) == AllSections(db, t)
  {
    FiledSectionsAreViewed(db, t, blocks, units, SectionQuery(db, t));
    SectionGroup(db, t, blocks, units, None);
  }
}
