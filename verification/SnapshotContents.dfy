/** What a compiled snapshot shows of each row, column by column, and which failure stops the compiler. */
module SnapshotContents {
  import opened Wrappers
  import opened Ordering
  import opened CourseSnapshot
  import opened SnapshotProperties
  import Text

  // ---------------------------------------------------------------- the id of a bank question

  lemma IntTextPlain(n: int)
    ensures forall i :: 0 <= i < |Text.IntText(n)| ==> Text.IntText(n)[i] != 'v'
  {
    var digits := Text.Dec(if n < 0 then -n else n);
    assert forall i :: 0 <= i < |digits| ==> Text.IsDigit(digits[i]);
  }

  lemma MarkStands(a: string, x: string, b: string, y: string)
    requires a + "-v" + x == b + "-v" + y
    requires 'v' !in b
    ensures |b| <= |a|
  {
    var p := a + "-v" + x;
    assert p[|a| + 1] == 'v' && p[|b|] == '-';
    assert forall i :: 0 <= i < |b| ==> p[i] == b[i];
  }

  lemma SplitAtMark(a: string, x: string, b: string, y: string)
    requires a + "-v" + x == b + "-v" + y
    requires 'v' !in a && 'v' !in b
    ensures a == b && x == y
  {
    var p, q := a + "-v" + x, b + "-v" + y;
    MarkStands(a, x, b, y);
    MarkStands(b, y, a, x);
    assert p[..|a|] == a && q[..|b|] == b && p[|a| + 2..] == x && q[|b| + 2..] == y;
  }

  lemma QuestionIdParts(v: QuestionVersion, now: string)
    ensures ContentOf(v, now).id[..6] == "qbank-"
    ensures ContentOf(v, now).id[6..] == Text.IntText(v.questionId) + "-v" + Text.IntText(v.id)
  {
    var rest := Text.IntText(v.questionId) + "-v" + Text.IntText(v.id);
    assert ContentOf(v, now).id == "qbank-" + rest;
  }

  /** Two bank questions of a snapshot carry the same id exactly if question and version are the same. */
  lemma QuestionIdIdentifies(v: QuestionVersion, w: QuestionVersion, now: string, later: string)
    ensures ContentOf(v, now).id == ContentOf(w, later).id <==> v.questionId == w.questionId && v.id == w.id
  {
    QuestionIdParts(v, now);
    QuestionIdParts(w, later);
    if ContentOf(v, now).id == ContentOf(w, later).id {
      IntTextPlain(v.questionId);
      IntTextPlain(w.questionId);
      SplitAtMark(Text.IntText(v.questionId), Text.IntText(v.id), Text.IntText(w.questionId), Text.IntText(w.id));
      Text.IntTextInjective(v.questionId, w.questionId);
      Text.IntTextInjective(v.id, w.id);
    }
  }

  // ---------------------------------------------------------------- which failure is reported

  /** The question asks for a version the organisation does not have, or for one that is not published. */
  ghost predicate Fails(db: Database, t: Target, q: Question, e: Failure) {
    exists id :: Asks(q, id) && FailsFor(db, t, id, e)
  }

  ghost predicate FailsFor(db: Database, t: Target, id: int, e: Failure) {
    if exists v :: v in db.versions && v.id == id && v.orgId == t.orgId
    then e == VersionNotPublished(id) && exists v :: v in db.versions && v.id == id && v.orgId == t.orgId
                                                     && v.status != "PUBLISHED"
    else e == VersionNotFound(id)
  }

  lemma HydrateFails(db: Database, t: Target, q: Question)
    requires Hydrate(db, t, q).Err?
    ensures Fails(db, t, q, Hydrate(db, t, q).error)
  {
    AsksIff(q);
    var id := VersionRef(q).value;
    FindVersionFinds(db.versions, id, t.orgId);
    assert FailsFor(db, t, id, Hydrate(db, t, q).error);
  }

  /** The failure of a list is that of its first question that does not resolve. */
  lemma {:induction false} FirstQuestionFails(db: Database, t: Target, qs: seq<Question>) returns (i: nat)
    requires VersionKeys(db) && HydrateAll(db, t, qs).Err?
    ensures i < |qs| && Fails(db, t, qs[i], HydrateAll(db, t, qs).error)
    ensures forall j :: 0 <= j < i ==> Resolvable(db, t, qs[j])
  {
    HydrateSucceedsIff(db, t, qs[0]);
    if Hydrate(db, t, qs[0]).Err? {
      HydrateFails(db, t, qs[0]);
      i := 0;
    } else {
      i := FirstQuestionFails(db, t, qs[1..]);
      i := i + 1;
    }
  }

  /** A quiz one of whose questions fails with `e`, all before it resolving. */
  ghost predicate BlockFails(db: Database, t: Target, b: Block, e: Failure) {
    && b.blockType == "quiz" && b.metadata.questions.Some?
    && exists i :: && 0 <= i < |b.metadata.questions.value| && Fails(db, t, b.metadata.questions.value[i], e)
                   && forall j :: 0 <= j < i ==> Resolvable(db, t, b.metadata.questions.value[j])
  }

  lemma {:induction false} FirstBlockFails(db: Database, t: Target, bs: seq<Block>) returns (i: nat)
    requires VersionKeys(db) && FirstFailure(db, t, bs).Some?
    ensures i < |bs| && BlockFails(db, t, bs[i], FirstFailure(db, t, bs).value)
    ensures forall j :: 0 <= j < i ==> BlockResolvable(db, t, bs[j])
  {
    if HydrateSettings(db, t, bs[0]).Err? {
      i := FirstQuestionFails(db, t, bs[0].metadata.questions.value);
      i := 0;
    } else {
      if bs[0].blockType == "quiz" && bs[0].metadata.questions.Some? {
        HydrateAllSucceedsIff(db, t, bs[0].metadata.questions.value);
      }
      i := FirstBlockFails(db, t, bs[1..]);
      i := i + 1;
    }
  }

  ghost predicate LiveRow(t: Target, u: Unit) { u.courseId == t.courseId && u.orgId == t.orgId && !u.deleted }

  /** A live block of a live module. */
  ghost predicate Compiles(db: Database, t: Target, b: Block) {
    && b in db.blocks && b.orgId == t.orgId && !b.deleted
    && exists u :: u in db.units && LiveRow(t, u) && u.id == b.unitId
  }

  lemma BlockQueryIs(db: Database, t: Target)
    ensures forall b :: b in BlockQuery(db, t) <==> Compiles(db, t, b)
  {
    QueryMembers(db.blocks, LiveBlock(t, UnitIds(UnitQuery(db, t))), QueryBlockLe);
    QueryMembers(db.units, LiveUnit(t), QueryUnitLe(t));
    forall b: Block ensures b.unitId in UnitIds(UnitQuery(db, t))
                            <==> exists u :: u in db.units && LiveRow(t, u) && u.id == b.unitId {
      if u: Unit :| u in db.units && LiveRow(t, u) && u.id == b.unitId {
        assert u in UnitQuery(db, t);
      }
    }
  }

  /** b comes strictly before c by module, position and id. */
  ghost predicate Before(b: Block, c: Block) {
    || b.unitId < c.unitId
    || (b.unitId == c.unitId && (b.sortOrder < c.sortOrder || (b.sortOrder == c.sortOrder && b.id < c.id)))
  }

  /** b fails with `e`, and every live block before it resolves. */
  ghost predicate FirstToFail(db: Database, t: Target, b: Block, e: Failure) {
    && Compiles(db, t, b) && BlockFails(db, t, b, e)
    && forall c :: Compiles(db, t, c) && Before(c, b) ==> BlockResolvable(db, t, c)
  }

  lemma FirstInOrderFails(db: Database, t: Target, bs: seq<Block>, i: nat, e: Failure)
    requires forall b :: b in bs <==> Compiles(db, t, b)
    requires i < |bs| && BlockFails(db, t, bs[i], e) && forall j :: 0 <= j < i ==> BlockResolvable(db, t, bs[j])
    requires forall j :: i < j < |bs| ==> QueryBlockLe(bs[i], bs[j])
    ensures FirstToFail(db, t, bs[i], e)
  {
    assert bs[i] in bs;
    forall c | Compiles(db, t, c) && Before(c, bs[i]) ensures BlockResolvable(db, t, c) {
      var j :| 0 <= j < |bs| && bs[j] == c;
      assert j < i;
    }
  }

  lemma BlockQuerySorted(db: Database, t: Target)
    ensures var bs := BlockQuery(db, t); forall i, j :: 0 <= i < j < |bs| ==> QueryBlockLe(bs[i], bs[j])
  {
    SnapshotOrders(t);
    SortSorts(Filter(db.blocks, LiveBlock(t, UnitIds(UnitQuery(db, t)))), QueryBlockLe);
  }

  /**
    A compilation that fails reports the missing course, or else the failure of a live block such that
    every live block before it, by module, position and id, resolves.
   */
  lemma CompileFails(db: Database, t: Target)
    requires VersionKeys(db) && Compiled(db, t).Err?
    ensures var e := Compiled(db, t).error;
            if exists c :: c in db.courses && c.id == t.courseId && c.orgId == t.orgId
            then exists b :: FirstToFail(db, t, b, e)
            else e == CourseNotFound
  {
    FindCourseFinds(db.courses, t);
    if FindCourse(db.courses, t).Some? {
      var bs := BlockQuery(db, t);
      var i := FirstBlockFails(db, t, bs);
      BlockQueryIs(db, t);
      BlockQuerySorted(db, t);
      FirstInOrderFails(db, t, bs, i, Compiled(db, t).error);
    }
  }

  // ---------------------------------------------------------------- the rows of the document

  /** The questions of a quiz become what they refer to, in order; everything else of a block's metadata stays. */
  ghost predicate ShowsSettings(db: Database, t: Target, shown: Settings, b: Block) {
    && shown.others == b.metadata.others
    && (b.blockType != "quiz" || b.metadata.questions.None? ==> shown.questions == b.metadata.questions)
    && (b.blockType == "quiz" && b.metadata.questions.Some? ==>
          && shown.questions.Some? && |shown.questions.value| == |b.metadata.questions.value|
          && forall i :: 0 <= i < |shown.questions.value| ==>
               HydratesTo(db, t, b.metadata.questions.value[i], shown.questions.value[i]))
  }

  ghost predicate ShowsBlock(db: Database, t: Target, v: BlockView, b: Block) {
    && v.id == b.id && v.unitId == b.unitId && v.blockType == b.blockType && v.content == b.content
    && v.mediaAssetId == b.mediaAssetId && v.sortOrder == b.sortOrder
    && ShowsSettings(db, t, v.settings, b) && v.metadata == v.settings
  }

  /** `bs` lists the live blocks of a unit, each once, by position. */
  ghost predicate AreBlocksOf(db: Database, t: Target, unitId: int, bs: seq<Block>) {
    && (forall b :: b in bs <==> b in db.blocks && b.unitId == unitId && b.orgId == t.orgId && !b.deleted)
    && (forall i, j :: 0 <= i < j < |bs| ==> bs[i].id != bs[j].id)
    && (forall i, j :: 0 <= i < j < |bs| ==>
          bs[i].sortOrder < bs[j].sortOrder || (bs[i].sortOrder == bs[j].sortOrder && bs[i].id < bs[j].id))
  }

  /** The blocks shown under a unit are its live blocks, one by one. */
  ghost predicate ShowsBlocks(db: Database, t: Target, vs: seq<BlockView>, bs: seq<Block>) {
    |vs| == |bs| && forall i :: 0 <= i < |vs| ==> ShowsBlock(db, t, vs[i], bs[i])
  }

  ghost predicate ShowsBlocksOf(db: Database, t: Target, v: UnitView) {
    exists bs :: AreBlocksOf(db, t, v.id, bs) && ShowsBlocks(db, t, v.blocks, bs)
  }

  ghost predicate ShowsUnit(v: UnitView, u: Unit) {
    && v.id == u.id && v.sectionId == u.sectionId && v.title == u.title && v.unitType == u.unitType
    && v.status == u.status && v.contentUrl == u.contentUrl && v.sortOrder == u.sortOrder
  }

  /** A section of the document: the view of a section row, or the collecting section at the end. */
  ghost predicate ShowsSection(v: SectionView, s: Section) {
    v.id == s.id && v.title == s.title && v.sortOrder == s.sortOrder && v.minimumTime == Some(s.minimumTime)
  }

  ghost predicate LiveSectionRow(t: Target, s: Section) {
    s.courseId == t.courseId && s.orgId == t.orgId && !s.deleted
  }

  /** `us` lists the live units of a section, or of none, each once, by position. */
  ghost predicate AreUnitsOf(db: Database, t: Target, sectionId: Option<int>, us: seq<Unit>) {
    && (forall u :: u in us <==> u in db.units && LiveRow(t, u) && u.sectionId == sectionId)
    && (forall i, j :: 0 <= i < j < |us| ==> us[i].id != us[j].id)
    && (forall i, j :: 0 <= i < j < |us| ==>
          us[i].sortOrder < us[j].sortOrder || (us[i].sortOrder == us[j].sortOrder && us[i].id < us[j].id))
  }

  ghost predicate ShowsUnits(db: Database, t: Target, vs: seq<UnitView>, us: seq<Unit>) {
    |vs| == |us| && forall i :: 0 <= i < |vs| ==> ShowsUnit(vs[i], us[i]) && ShowsBlocksOf(db, t, vs[i])
  }

  /** The units shown under `v` are the live units of the given section, one by one, with their blocks. */
  ghost predicate ShowsUnitsOf(db: Database, t: Target, v: SectionView, sectionId: Option<int>) {
    exists us :: AreUnitsOf(db, t, sectionId, us) && ShowsUnits(db, t, v.units, us)
  }

  /** `ss` lists the live sections, each once, by position. */
  ghost predicate AreSections(db: Database, t: Target, ss: seq<Section>) {
    && (forall s :: s in ss <==> s in db.sections && LiveSectionRow(t, s))
    && (forall i, j :: 0 <= i < j < |ss| ==> ss[i].id != ss[j].id)
    && (forall i, j :: 0 <= i < j < |ss| ==>
          ss[i].sortOrder < ss[j].sortOrder || (ss[i].sortOrder == ss[j].sortOrder && ss[i].id < ss[j].id))
  }

  ghost predicate BlockKeys(db: Database) {
    forall i, j :: 0 <= i < j < |db.blocks| ==> db.blocks[i].id != db.blocks[j].id
  }

  lemma SettingsShown(db: Database, t: Target, b: Block)
    requires HydrateSettings(db, t, b).Ok?
    ensures ShowsBlock(db, t, BlockViewOf(db, t, b), b)
  {
    if b.blockType == "quiz" && b.metadata.questions.Some? {
      HydrationKeepsShape(db, t, b.metadata.questions.value);
    }
  }

  lemma {:induction false} NoFailureEach(db: Database, t: Target, bs: seq<Block>)
    requires FirstFailure(db, t, bs).None?
    ensures forall b :: b in bs ==> HydrateSettings(db, t, b).Ok?
  {
    if bs != [] {
      NoFailureEach(db, t, bs[1..]);
      assert forall b :: b in bs ==> b == bs[0] || b in bs[1..];
    }
  }

  lemma {:induction false} BlockViewIs(db: Database, t: Target, bs: seq<Block>, i: nat)
    requires i < |bs|
    ensures |BlockViews(db, t, bs)| == |bs| && BlockViews(db, t, bs)[i] == BlockViewOf(db, t, bs[i])
  {
    ViewLengths(db, t, [], [], bs);
    if i > 0 {
      BlockViewIs(db, t, bs[1..], i - 1);
    }
  }

  lemma BlockRows(db: Database, t: Target, unitId: int)
    requires BlockKeys(db)
    ensures AreBlocksOf(db, t, unitId, BlocksIn(db, t, unitId))
  {
    var bs := BlocksIn(db, t, unitId);
    FilterKeepsDistinct(db.blocks, BlockIn(t, unitId));
    SortKeepsDistinct(Filter(db.blocks, BlockIn(t, unitId)), BlockLe);
    QueryMembers(db.blocks, BlockIn(t, unitId), BlockLe);
    SnapshotOrders(t);
    SortSorts(Filter(db.blocks, BlockIn(t, unitId)), BlockLe);
    forall i, j | 0 <= i < j < |bs| ensures bs[i].id != bs[j].id {
      assert bs[i] in bs && bs[j] in bs;
    }
  }

  lemma UnitShowsBlocks(db: Database, t: Target, u: Unit)
    requires BlockKeys(db) && Compiled(db, t).Ok? && u in db.units && LiveRow(t, u)
    ensures ShowsBlocksOf(db, t, ViewUnit(u, BlockViews(db, t, BlocksIn(db, t, u.id))))
  {
    var bs := BlocksIn(db, t, u.id);
    var views := BlockViews(db, t, bs);
    BlockRows(db, t, u.id);
    BlockQueryIs(db, t);
    NoFailureEach(db, t, BlockQuery(db, t));
    ViewLengths(db, t, [], [], bs);
    forall i | 0 <= i < |bs| ensures ShowsBlock(db, t, views[i], bs[i]) {
      assert bs[i] in bs;
      assert Compiles(db, t, bs[i]);
      BlockViewIs(db, t, bs, i);
      SettingsShown(db, t, bs[i]);
    }
    assert ShowsBlocks(db, t, views, bs);
  }

  lemma UnitRows(db: Database, t: Target, sectionId: Option<int>)
    requires PrimaryKeys(db)
    ensures AreUnitsOf(db, t, sectionId, UnitsIn(db, t, sectionId))
  {
    var us := UnitsIn(db, t, sectionId);
    FilterKeepsDistinct(db.units, UnitIn(t, sectionId));
    SortKeepsDistinct(Filter(db.units, UnitIn(t, sectionId)), UnitLe);
    QueryMembers(db.units, UnitIn(t, sectionId), UnitLe);
    SnapshotOrders(t);
    SortSorts(Filter(db.units, UnitIn(t, sectionId)), UnitLe);
    forall u ensures UnitIn(t, sectionId)(u) <==> LiveRow(t, u) && u.sectionId == sectionId {
      assert LiveUnit(t)(u) <==> LiveRow(t, u);
    }
    UnitRowsByKey(db.units, us);
  }

  lemma SectionShowsUnits(db: Database, t: Target, v: SectionView, sectionId: Option<int>)
    requires PrimaryKeys(db) && BlockKeys(db) && Compiled(db, t).Ok?
    requires v.units == UnitViews(db, t, UnitsIn(db, t, sectionId))
    ensures ShowsUnitsOf(db, t, v, sectionId)
  {
    var us := UnitsIn(db, t, sectionId);
    UnitRows(db, t, sectionId);
    ViewLengths(db, t, [], us, []);
    forall i | 0 <= i < |us| ensures ShowsUnit(v.units[i], us[i]) && ShowsBlocksOf(db, t, v.units[i]) {
      assert us[i] in us;
      UnitViewAt(db, t, us, i);
      UnitShowsBlocks(db, t, us[i]);
    }
    assert ShowsUnits(db, t, v.units, us);
  }

  lemma SectionRows(db: Database, t: Target)
    requires PrimaryKeys(db)
    ensures AreSections(db, t, SectionQuery(db, t))
  {
    QueryMembers(db.sections, LiveSection(t), SectionLe);
    SectionQueryKeys(db, t);
    SnapshotOrders(t);
    SortSorts(Filter(db.sections, LiveSection(t)), SectionLe);
  }

  lemma {:induction false} CourseFound(courses: seq<Course>, t: Target)
    requires FindCourse(courses, t).Some?
    ensures FindCourse(courses, t).value in courses
    ensures FindCourse(courses, t).value.id == t.courseId && FindCourse(courses, t).value.orgId == t.orgId
  {
    if !(courses[0].id == t.courseId && courses[0].orgId == t.orgId) {
      CourseFound(courses[1..], t);
    }
  }

  /** The heading is the course's own row and the time of capture. */
  lemma HeadingShown(db: Database, t: Target)
    requires Compiled(db, t).Ok?
    ensures var s := Compiled(db, t).value;
            s.capturedAt == t.now
            && exists c :: c in db.courses && c.id == t.courseId && c.orgId == t.orgId
                           && s.courseId == c.id && s.courseName == c.name && s.courseStatus == c.status
  {
    CourseFound(db.courses, t);
  }

  /** The collecting section, present exactly if a live unit has no section. */
  ghost predicate CollectsTheRest(db: Database, t: Target, tail: seq<SectionView>) {
    if exists u :: u in db.units && LiveRow(t, u) && u.sectionId == None
    then |tail| == 1 && ShowsUnitsOf(db, t, tail[0], None)
         && tail[0].id == 0 && tail[0].title == "Unassigned Modules" && tail[0].sortOrder == 9999
         && tail[0].minimumTime == None
    else tail == []
  }

  lemma SectionViewShown(db: Database, t: Target, k: nat)
    requires PrimaryKeys(db) && BlockKeys(db) && Compiled(db, t).Ok? && k < |SectionQuery(db, t)|
    ensures var ss := SectionQuery(db, t);
            var views := SectionViews(db, t, ss);
            |views| == |ss| && ShowsSection(views[k], ss[k]) && ShowsUnitsOf(db, t, views[k], Some(ss[k].id))
  {
    var ss := SectionQuery(db, t);
    SectionViewAt(db, t, ss, k);
    SectionShowsUnits(db, t, SectionViews(db, t, ss)[k], Some(ss[k].id));
  }

  lemma CollectedShown(db: Database, t: Target)
    requires PrimaryKeys(db) && BlockKeys(db) && Compiled(db, t).Ok?
    ensures CollectsTheRest(db, t, Unassigned(UnitViews(db, t, UnitsIn(db, t, None))))
  {
    var us := UnitsIn(db, t, None);
    UnitRows(db, t, None);
    ViewLengths(db, t, [], us, []);
    if us == [] {
      assert forall u :: u in db.units && LiveRow(t, u) && u.sectionId == None ==> u in us;
    } else {
      assert us[0] in us;
      SectionShowsUnits(db, t, Unassigned(UnitViews(db, t, us))[0], None);
    }
  }

  /**
    Main result: a compiled document shows the tables row by row and column by column.  It shows the
    live sections by position, each with its live units, and each unit with its live blocks; a last
    section collects the live units without a section if there are any.
   */
  lemma SnapshotShowsTables(db: Database, t: Target) returns (ss: seq<Section>)
    requires PrimaryKeys(db) && BlockKeys(db) && Compiled(db, t).Ok?
    ensures var sections := Compiled(db, t).value.sections;
            && AreSections(db, t, ss) && |ss| <= |sections|
            && (forall k :: 0 <= k < |ss| ==> ShowsSection(sections[k], ss[k])
                                              && ShowsUnitsOf(db, t, sections[k], Some(ss[k].id)))
            && CollectsTheRest(db, t, sections[|ss|..])
  {
    ss := SectionQuery(db, t);
    var sections := Compiled(db, t).value.sections;
    SectionRows(db, t);
    ViewLengths(db, t, ss, [], []);
    CollectedShown(db, t);
    assert sections[|ss|..] == Unassigned(UnitViews(db, t, UnitsIn(db, t, None)));
    forall k | 0 <= k < |ss|
      ensures ShowsSection(sections[k], ss[k]) && ShowsUnitsOf(db, t, sections[k], Some(ss[k].id))
    {
      SectionViewShown(db, t, k);
    }
  }
}
