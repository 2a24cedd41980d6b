/**
  Draft, publish and rollback of one organisation's branding: numbered versions, a published
  cache, and an audit log.  JSON texts are modelled by the values they encode.
 */
module Branding {
  import opened Wrappers

  /** The terminology object of a configuration; it may also be a JSON null. */
  datatype Terms = NoTerms | Terms(entries: map<string, string>)

  /** A configuration: its string-or-null keys, and its "terminology" key if there is one. */
  datatype Config = Config(values: map<string, Option<string>>, terminology: Option<Terms>)

  /** The published cache row. */
  datatype Cache = Cache(primary: Option<string>, secondary: Option<string>, font: Option<string>, theme: string,
                         logo: Option<string>, favicon: Option<string>, banner: Option<string>,
                         domain: Option<string>, terminology: Option<Terms>)

  datatype Status = Draft | Published

  datatype Version = Version(id: int, number: int, status: Status, config: Config, createdBy: Option<string>)

  datatype Action = PublishedAction | RollbackAction

  datatype Audit = Audit(action: Action, userId: Option<string>, changes: Config)

  datatype Tenant = Tenant(cache: Option<Cache>, versions: seq<Version>, audit: seq<Audit>)

  /** NullTheme is the NOT NULL violation raised when the theme column would become NULL. */
  datatype Failure = NoDraft | VersionNotFound | NullTheme

  datatype Op =
    | Save(config: Config, user: Option<string>, newId: int)
    | Publish(user: Option<string>)
    | Rollback(versionId: int, user: Option<string>)

  // ---------------------------------------------------------------- writing a configuration to the cache

  function Get(c: Config, key: string): Option<string> {
    if key in c.values then c.values[key] else None
  }

  predicate Truthy(v: Option<string>) { v.Some? && v.value != "" }

  function Or(a: Option<string>, b: Option<string>): Option<string> { if Truthy(a) then a else b }

  /** config.get("theme") or config.get("theme_mode", "light") */
  function ThemeOf(c: Config): Option<string> {
    Or(Get(c, "theme"), if "theme_mode" in c.values then c.values["theme_mode"] else Some("light"))
  }

  const EMPTY_CACHE := Cache(None, None, None, "light", None, None, None, None, None)

  function RowOrNew(cache: Option<Cache>): Cache {
    if cache.Some? then cache.value else EMPTY_CACHE
  }

  /** The cache after a configuration with a theme is written over it. */
  function Written(cache: Option<Cache>, c: Config, theme: string): Cache {
    Cache(Get(c, "primary_color"), Get(c, "secondary_color"), Or(Get(c, "font"), Get(c, "font_family")), theme,
          Get(c, "logo"), Get(c, "favicon"), Get(c, "banner"), Get(c, "custom_domain"),
          if c.terminology.Some? then c.terminology else RowOrNew(cache).terminology)
  }

  // ---------------------------------------------------------------- queries

  function MaxNumber(versions: seq<Version>): int {
    if versions == [] then 0
    else
      var rest := MaxNumber(versions[..|versions| - 1]);
      var last := versions[|versions| - 1].number;
      if |versions| == 1 || last > rest then last else rest
  }

  /** The position of a draft, |versions| if there is none. */
  function DraftAt(versions: seq<Version>): (i: nat)
    ensures i <= |versions|
    ensures i < |versions| ==> versions[i].status.Draft?
    ensures forall j :: 0 <= j < i ==> versions[j].status.Published?
  {
    if versions == [] || versions[0].status.Draft? then 0 else 1 + DraftAt(versions[1..])
  }

  /** The position of the published version with this id, |versions| if there is none. */
  function PublishedAt(versions: seq<Version>, id: int): (i: nat)
    ensures i <= |versions|
    ensures i < |versions| ==> versions[i].status.Published? && versions[i].id == id
    ensures forall j :: 0 <= j < i ==> !(versions[j].status.Published? && versions[j].id == id)
  {
    if versions == [] || (versions[0].status.Published? && versions[0].id == id) then 0
    else 1 + PublishedAt(versions[1..], id)
  }

  // ---------------------------------------------------------------- the operations as a state machine

  function Step(t: Tenant, op: Op): (Tenant, Result<Config, Failure>) {
    match op
    case Save(config, user, newId) =>
      var i := DraftAt(t.versions);
      (t.(versions := if i < |t.versions|
                      then t.versions[i := t.versions[i].(config := config, createdBy := user)]
                      else t.versions + [Version(newId, MaxNumber(t.versions) + 1, Draft, config, user)]), Ok(config))
    case Publish(user) =>
      var i := DraftAt(t.versions);
      if i == |t.versions| then (t, Err(NoDraft))
      else
        var config := t.versions[i].config;
        if ThemeOf(config).None? then (t, Err(NullTheme))
        else (Tenant(Some(Written(t.cache, config, ThemeOf(config).value)),
                     t.versions[i := t.versions[i].(status := Published)],
                     t.audit + [Audit(PublishedAction, user, config)]), Ok(config))
    case Rollback(id, user) =>
      var i := PublishedAt(t.versions, id);
      if i == |t.versions| then (t, Err(VersionNotFound))
      else
        var config := t.versions[i].config;
        if ThemeOf(config).None? then (t, Err(NullTheme))
        else (t.(cache := Some(Written(t.cache, config, ThemeOf(config).value)),
                 audit := t.audit + [Audit(RollbackAction, user, config)]), Ok(config))
  }

  function Run(t: Tenant, ops: seq<Op>): Tenant
    decreases |ops|
  {
    if ops == [] then t else Run(Step(t, ops[0]).0, ops[1..])
  }

  // ---------------------------------------------------------------- the repository

  class BrandingRepository {
    var cache: Option<Cache>
    var versions: seq<Version>
    var audit: seq<Audit>

    function State(): Tenant
      reads this
    {
      Tenant(cache, versions, audit)
    }

    constructor ()
      ensures State() == Tenant(None, [], [])
    {
      cache, versions, audit := None, [], [];
    }

    method SaveDraft(config: Config, user: Option<string>, newId: int) returns (r: Result<Config, Failure>)
      modifies this`versions
      ensures (State(), r) == Step(old(State()), Save(config, user, newId))
    {
      var latest := MaxNumber(versions);
      var i := DraftAt(versions);
      if i < |versions| {
        versions := versions[i := versions[i].(config := config)];
        versions := versions[i := versions[i].(createdBy := user)];
        assert versions == old(versions)[i := old(versions)[i].(config := config, createdBy := user)];
      } else {
        versions := versions + [Version(newId, latest + 1, Draft, config, user)];
      }
      r := Ok(config);
    }

    /** Writes the columns one by one; a theme of None is refused by the NOT NULL column. */
    method WriteCache(config: Config) returns (ok: bool)
      modifies this`cache
      ensures ok <==> ThemeOf(config).Some?
      ensures cache == if ok then Some(Written(old(cache), config, ThemeOf(config).value)) else old(cache)
    {
      var theme := ThemeOf(config);
      if theme.None? {
        return false;
      }
      var row := RowOrNew(cache);
      row := row.(primary := Get(config, "primary_color"));
      row := row.(secondary := Get(config, "secondary_color"));
      row := row.(font := Or(Get(config, "font"), Get(config, "font_family")));
      row := row.(theme := theme.value);
      row := row.(logo := Get(config, "logo"));
      row := row.(favicon := Get(config, "favicon"));
      row := row.(banner := Get(config, "banner"));
      row := row.(domain := Get(config, "custom_domain"));
      if config.terminology.Some? {
        row := row.(terminology := config.terminology);
      }
      cache := Some(row);
      return true;
    }

    method PublishDraft(user: Option<string>) returns (r: Result<Config, Failure>)
      modifies this
      ensures (State(), r) == Step(old(State()), Publish(user))
    {
      var i := DraftAt(versions);
      if i == |versions| {
        return Err(NoDraft);
      }
      var config := versions[i].config;
      var ok := WriteCache(config);
      if !ok {
        return Err(NullTheme);
      }
      versions := versions[i := versions[i].(status := Published)];
      audit := audit + [Audit(PublishedAction, user, config)];
      r := Ok(config);
    }

    method RollbackTo(id: int, user: Option<string>) returns (r: Result<Config, Failure>)
      modifies this
      ensures (State(), r) == Step(old(State()), Rollback(id, user))
    {
      var i := PublishedAt(versions, id);
      if i == |versions| {
        return Err(VersionNotFound);
      }
      var config := versions[i].config;
      var ok := WriteCache(config);
      if !ok {
        return Err(NullTheme);
      }
      audit := audit + [Audit(RollbackAction, user, config)];
      r := Ok(config);
    }
  }

  // ---------------------------------------------------------------- numbering and the single draft

  /** Versions are numbered 1..n in order, only the last may be a draft, ids are distinct, published themes exist. */
  ghost predicate Inv(t: Tenant) {
    && (forall i :: 0 <= i < |t.versions| ==> t.versions[i].number == i + 1)
    && (forall i :: 0 <= i < |t.versions| - 1 ==> t.versions[i].status.Published?)
    && (forall i, j :: 0 <= i < j < |t.versions| ==> t.versions[i].id != t.versions[j].id)
    && (forall i :: 0 <= i < |t.versions| && t.versions[i].status.Published? ==> ThemeOf(t.versions[i].config).Some?)
  }

  /** Autoincrement: a save brings an id no version has. */
  ghost predicate FreshId(t: Tenant, op: Op) {
    op.Save? ==> forall i :: 0 <= i < |t.versions| ==> t.versions[i].id != op.newId
  }

  ghost predicate FreshIds(t: Tenant, ops: seq<Op>)
    decreases |ops|
  {
    ops != [] ==> FreshId(t, ops[0]) && FreshIds(Step(t, ops[0]).0, ops[1..])
  }

  lemma {:induction false} MaxNumberIsLength(versions: seq<Version>)
    requires forall i :: 0 <= i < |versions| ==> versions[i].number == i + 1
    ensures MaxNumber(versions) == |versions|
  {
    if versions != [] {
      MaxNumberIsLength(versions[..|versions| - 1]);
    }
  }

  /** In any table the highest number is that of some version, and no version has a higher one. */
  lemma {:induction false} MaxNumberIs(versions: seq<Version>)
    ensures versions == [] ==> MaxNumber(versions) == 0
    ensures versions != [] ==> exists v :: v in versions && v.number == MaxNumber(versions)
    ensures forall v :: v in versions ==> v.number <= MaxNumber(versions)
  {
    if versions != [] {
      var front, last := versions[..|versions| - 1], versions[|versions| - 1];
      MaxNumberIs(front);
      assert last in versions && forall v :: v in versions <==> v in front || v == last;
    }
  }

  lemma SaveInv(t: Tenant, op: Op)
    requires Inv(t) && FreshId(t, op) && op.Save?
    ensures Inv(Step(t, op).0)
  {
    MaxNumberIsLength(t.versions);
  }

  lemma PublishInv(t: Tenant, op: Op)
    requires Inv(t) && op.Publish?
    ensures Inv(Step(t, op).0)
  {
  }

  lemma StepInv(t: Tenant, op: Op)
    requires Inv(t) && FreshId(t, op)
    ensures Inv(Step(t, op).0)
  {
    match op
    case Save(_, _, _) => SaveInv(t, op);
    case Publish(_) => PublishInv(t, op);
    case Rollback(_, _) =>
  }

  /** Numbering without gaps, and at most one draft, the highest, hold in every run. */
  lemma {:induction false} RunInv(t: Tenant, ops: seq<Op>)
    requires Inv(t) && FreshIds(t, ops)
    ensures Inv(Run(t, ops))
    decreases |ops|
  {
    if ops != [] {
      StepInv(t, ops[0]);
      RunInv(Step(t, ops[0]).0, ops[1..]);
    }
  }

  // ---------------------------------------------------------------- published versions are immutable

  /** Every published version of `before` is still there, unchanged, at the same place. */
  ghost predicate KeepsPublished(before: Tenant, after: Tenant) {
    && |before.versions| <= |after.versions|
    && forall i :: 0 <= i < |before.versions| && before.versions[i].status.Published?
                   ==> after.versions[i] == before.versions[i]
  }

  lemma StepKeepsPublished(t: Tenant, op: Op)
    ensures KeepsPublished(t, Step(t, op).0)
  {
  }

  lemma KeepsTwice(a: Tenant, b: Tenant, c: Tenant)
    requires KeepsPublished(a, b) && KeepsPublished(b, c)
    ensures KeepsPublished(a, c)
  {
  }

  lemma {:induction false} PublishedNeverChanges(t: Tenant, ops: seq<Op>)
    ensures KeepsPublished(t, Run(t, ops))
    decreases |ops|
  {
    if ops != [] {
      var u := Step(t, ops[0]).0;
      StepKeepsPublished(t, ops[0]);
      PublishedNeverChanges(u, ops[1..]);
      KeepsTwice(t, u, Run(u, ops[1..]));
    }
  }

  // ---------------------------------------------------------------- the cache is the replay of the audit log

  /** The terminology of the last configuration in the log that has one. */
  function LastTerminology(initial: Option<Terms>, log: seq<Audit>): Option<Terms> {
    if log == [] then initial
    else if log[|log| - 1].changes.terminology.Some? then log[|log| - 1].changes.terminology
    else LastTerminology(initial, log[..|log| - 1])
  }

  /** All other columns depend on the last log entry alone. */
  ghost predicate IsReplay(cache: Option<Cache>, initial: Option<Cache>, log: seq<Audit>) {
    if log == [] then cache == initial
    else
      var c := log[|log| - 1].changes;
      && cache.Some? && ThemeOf(c).Some?
      && cache.value == Cache(Get(c, "primary_color"), Get(c, "secondary_color"),
                              Or(Get(c, "font"), Get(c, "font_family")),
                              ThemeOf(c).value, Get(c, "logo"), Get(c, "favicon"), Get(c, "banner"),
                              Get(c, "custom_domain"), LastTerminology(RowOrNew(initial).terminology, log))
  }

  lemma WriteReplays(cache: Option<Cache>, initial: Option<Cache>, log: seq<Audit>, entry: Audit)
    requires IsReplay(cache, initial, log) && ThemeOf(entry.changes).Some?
    ensures IsReplay(Some(Written(cache, entry.changes, ThemeOf(entry.changes).value)), initial, log + [entry])
  {
    assert (log + [entry])[..|log|] == log;
  }

  lemma StepReplays(t: Tenant, op: Op, initial: Option<Cache>)
    requires IsReplay(t.cache, initial, t.audit)
    ensures IsReplay(Step(t, op).0.cache, initial, Step(t, op).0.audit)
  {
    var (u, r) := Step(t, op);
    if !op.Save? && r.Ok? {
      WriteReplays(t.cache, initial, t.audit, u.audit[|t.audit|]);
    }
  }

  /** Main result: in every run the cache is the replay of the audit log over the initial cache. */
  lemma {:induction false} CacheReplaysAuditLog(t: Tenant, ops: seq<Op>, initial: Option<Cache>)
    requires IsReplay(t.cache, initial, t.audit)
    ensures IsReplay(Run(t, ops).cache, initial, Run(t, ops).audit)
    decreases |ops|
  {
    if ops != [] {
      StepReplays(t, ops[0], initial);
      CacheReplaysAuditLog(Step(t, ops[0]).0, ops[1..], initial);
    }
  }

  /** One log entry for a successful publish or rollback, and none for anything else. */
  function Entry(op: Op, r: Result<Config, Failure>): seq<Audit> {
    match (op, r)
    case (Publish(user), Ok(config)) => [Audit(PublishedAction, user, config)]
    case (Rollback(_, user), Ok(config)) => [Audit(RollbackAction, user, config)]
    case _ => []
  }

  function Logged(t: Tenant, ops: seq<Op>): seq<Audit>
    decreases |ops|
  {
    if ops == [] then [] else Entry(ops[0], Step(t, ops[0]).1) + Logged(Step(t, ops[0]).0, ops[1..])
  }

  lemma StepLogs(t: Tenant, op: Op)
    ensures Step(t, op).0.audit == t.audit + Entry(op, Step(t, op).1)
  {
    assert t.audit + [] == t.audit;
  }

  lemma Regroup(a: seq<Audit>, b: seq<Audit>, c: seq<Audit>)
    ensures (a + b) + c == a + (b + c)
  {
  }

  lemma {:induction false} AuditGrowsByOutcome(t: Tenant, ops: seq<Op>)
    ensures Run(t, ops).audit == t.audit + Logged(t, ops)
    decreases |ops|
  {
    if ops == [] {
      assert t.audit + [] == t.audit;
    } else {
      var (u, r) := Step(t, ops[0]);
      StepLogs(t, ops[0]);
      AuditGrowsByOutcome(u, ops[1..]);
      Regroup(t.audit, Entry(ops[0], r), Logged(u, ops[1..]));
    }
  }

  // ---------------------------------------------------------------- rollback undoes

  lemma {:induction false} PublishedAtUnique(versions: seq<Version>, i: nat)
    requires i < |versions| && versions[i].status.Published?
    requires forall j, k :: 0 <= j < k < |versions| ==> versions[j].id != versions[k].id
    ensures PublishedAt(versions, versions[i].id) == i
  {
    if i > 0 {
      PublishedAtUnique(versions[1..], i - 1);
    }
  }

  /**
    Rolling back to a version, whatever happened since it was published, always succeeds and puts
    every column back to its value just after that publication; the terminology only if the
    version's configuration has one, otherwise it stays as it was before the rollback.
   */
  lemma RollbackRestores(t: Tenant, user: Option<string>, ops: seq<Op>, admin: Option<string>)
    requires Inv(t) && Step(t, Publish(user)).1.Ok?
    requires FreshIds(Step(t, Publish(user)).0, ops)
    ensures var published := Step(t, Publish(user)).0;
            var later := Run(published, ops);
            var version := t.versions[DraftAt(t.versions)];
            var (after, r) := Step(later, Rollback(version.id, admin));
            && r == Ok(version.config) && after.cache.Some?
            && after.cache.value.(terminology := None) == published.cache.value.(terminology := None)
            && after.cache.value.terminology
               == (if version.config.terminology.Some? then published.cache.value.terminology
                   else RowOrNew(later.cache).terminology)
  {
    var i := DraftAt(t.versions);
    var published := Step(t, Publish(user)).0;
    var later := Run(published, ops);
    StepInv(t, Publish(user));
    RunInv(published, ops);
    PublishedNeverChanges(published, ops);
    assert later.versions[i] == published.versions[i];
    PublishedAtUnique(later.versions, i);
  }

  // ---------------------------------------------------------------- what the public sees

  datatype Public = Public(organization: string, slug: string, logo: Option<string>, favicon: Option<string>,
                           primary: string, secondary: string, font: string, theme: string,
                           banner: Option<string>, domain: Option<string>, terminology: Terms)

  function Default(v: Option<string>, fallback: string): string { if Truthy(v) then v.value else fallback }

  /** get_branding: the cache with fallbacks; no stored terminology reads as an empty object. */
  function GetBranding(t: Tenant, name: string, slug: string): Public {
    var b := t.cache;
    Public(name, slug, if b.Some? then b.value.logo else None, if b.Some? then b.value.favicon else None,
           Default(if b.Some? then b.value.primary else None, "#2563EB"),
           Default(if b.Some? then b.value.secondary else None, "#111827"),
           Default(if b.Some? then b.value.font else None, "Inter"),
           Default(if b.Some? then Some(b.value.theme) else None, "light"),
           if b.Some? then b.value.banner else None, if b.Some? then b.value.domain else None,
           if b.Some? && b.value.terminology.Some? then b.value.terminology.value else Terms(map[]))
  }

  /** The payload as the configuration it becomes when it is sent back. */
  function AsConfig(p: Public): Config {
    Config(map["organization" := Some(p.organization), "slug" := Some(p.slug), "logo" := p.logo,
               "favicon" := p.favicon, "primary_color" := Some(p.primary), "secondary_color" := Some(p.secondary),
               "font" := Some(p.font), "theme" := Some(p.theme), "banner" := p.banner,
               "custom_domain" := p.domain], Some(p.terminology))
  }

  /** get_draft_branding: the draft's configuration, or the published payload when there is no draft. */
  function GetDraft(t: Tenant, name: string, slug: string): Config {
    var i := DraftAt(t.versions);
    if i < |t.versions| then t.versions[i].config else AsConfig(GetBranding(t, name, slug))
  }

  /** The first draft's position is determined by what stands before it. */
  lemma {:induction false} DraftAtIs(versions: seq<Version>, i: nat)
    requires i <= |versions| && (i < |versions| ==> versions[i].status.Draft?)
    requires forall j :: 0 <= j < i ==> versions[j].status.Published?
    ensures DraftAt(versions) == i
  {
    if i > 0 {
      DraftAtIs(versions[1..], i - 1);
    }
  }

  /** What is saved is what the draft endpoint shows, and what the next publication publishes. */
  lemma SavedIsPublished(t: Tenant, config: Config, user: Option<string>, newId: int, name: string, slug: string)
    ensures var saved := Step(t, Save(config, user, newId)).0;
            && GetDraft(saved, name, slug) == config
            && Step(saved, Publish(user)).1 == (if ThemeOf(config).Some? then Ok(config) else Err(NullTheme))
  {
    DraftAtIs(Step(t, Save(config, user, newId)).0.versions, DraftAt(t.versions));
  }

  /** The configuration sets this key to a string that is not empty. */
  ghost predicate Sets(c: Config, key: string, v: string) {
    key in c.values && c.values[key] == Some(v) && v != ""
  }

  /** A column shown as the configuration has it: a missing key reads as null. */
  ghost predicate ShownAsGiven(shown: Option<string>, c: Config, key: string) {
    if key in c.values then shown == c.values[key] else shown == None
  }

  /** A column with a default: the first of the two keys that is set decides. */
  ghost predicate ShownOr(shown: string, c: Config, key: string, other: string, fallback: string) {
    && (forall v :: Sets(c, key, v) ==> shown == v)
    && ((forall v :: !Sets(c, key, v)) ==>
          && (forall v :: Sets(c, other, v) ==> shown == v)
          && ((forall v :: !Sets(c, other, v)) ==> shown == fallback))
  }

  /** The payload `p` shows the configuration `c`; `kept` is the terminology if `c` brings none. */
  ghost predicate Shows(p: Public, c: Config, kept: Terms) {
    && ShownAsGiven(p.logo, c, "logo") && ShownAsGiven(p.favicon, c, "favicon")
    && ShownAsGiven(p.banner, c, "banner") && ShownAsGiven(p.domain, c, "custom_domain")
    && ShownOr(p.primary, c, "primary_color", "primary_color", "#2563EB")
    && ShownOr(p.secondary, c, "secondary_color", "secondary_color", "#111827")
    && ShownOr(p.font, c, "font", "font_family", "Inter")
    && ShownOr(p.theme, c, "theme", "theme_mode", "light")
    && p.terminology == (match c.terminology case Some(terms) => terms case None => kept)
  }

  /** The one configuration that cannot be written: no theme is set, and the theme mode is an explicit null. */
  ghost predicate ThemeIsNull(c: Config) {
    (forall v :: !Sets(c, "theme", v)) && "theme_mode" in c.values && c.values["theme_mode"] == None
  }

  lemma ThemeOfNone(c: Config)
    ensures ThemeOf(c).None? <==> ThemeIsNull(c)
  {
    if Truthy(Get(c, "theme")) {
      assert Sets(c, "theme", c.values["theme"].value);
    }
  }

  lemma TruthyIsSet(c: Config, key: string)
    ensures Truthy(Get(c, key)) ==> Sets(c, key, Get(c, key).value)
    ensures !Truthy(Get(c, key)) ==> forall v :: !Sets(c, key, v)
  {
  }

  /** No stored terminology reads as an empty object. */
  function StoredTerms(terms: Option<Terms>): Terms { if terms.Some? then terms.value else Terms(map[]) }

  /** A cache row written from `c` is shown as `c`. */
  lemma WrittenIsShown(t: Tenant, cache: Option<Cache>, c: Config, name: string, slug: string)
    requires ThemeOf(c).Some? && t.cache == Some(Written(cache, c, ThemeOf(c).value))
    ensures Shows(GetBranding(t, name, slug), c,
                  StoredTerms(RowOrNew(cache).terminology))
  {
    TruthyIsSet(c, "primary_color");
    TruthyIsSet(c, "secondary_color");
    TruthyIsSet(c, "font");
    TruthyIsSet(c, "font_family");
    TruthyIsSet(c, "theme");
    TruthyIsSet(c, "theme_mode");
  }

  /** A tenant without a cache row shows its name, its slug and the defaults. */
  lemma NewTenantShowsDefaults(t: Tenant, name: string, slug: string)
    requires t.cache == None
    ensures GetBranding(t, name, slug) == Public(name, slug, None, None, "#2563EB", "#111827", "Inter", "light",
                                                 None, None, Terms(map[]))
  {
  }

  /** The draft slot holds what was saved last, whoever saved it. */
  lemma SaveAuthored(t: Tenant, config: Config, author: Option<string>, newId: int)
    ensures var saved := Step(t, Save(config, author, newId)).0;
            DraftAt(saved.versions) == DraftAt(t.versions) < |saved.versions|
            && saved.versions[DraftAt(t.versions)].config == config
  {
    DraftAtIs(Step(t, Save(config, author, newId)).0.versions, DraftAt(t.versions));
  }

  /**
    Main result: publishing shows the public exactly the configuration that was saved, key by key, and
    is refused, leaving what is shown, exactly for the configuration whose theme is null.
   */
  lemma PublishedIsShown(t: Tenant, config: Config, author: Option<string>, newId: int, user: Option<string>,
                         name: string, slug: string)
    ensures var saved := Step(t, Save(config, author, newId)).0;
            var (published, r) := Step(saved, Publish(user));
            var before, after := GetBranding(t, name, slug), GetBranding(published, name, slug);
            && GetBranding(saved, name, slug) == before
            && r == (if ThemeIsNull(config) then Err(NullTheme) else Ok(config))
            && after.organization == name && after.slug == slug
            && (r.Err? ==> published == saved)
            && (r.Ok? ==> Shows(after, config, before.terminology)
                          && published.audit == t.audit + [Audit(PublishedAction, user, config)])
  {
    var saved := Step(t, Save(config, author, newId)).0;
    ThemeOfNone(config);
    SavedIsPublished(t, config, user, newId, name, slug);
    SaveAuthored(t, config, author, newId);
    if ThemeOf(config).Some? {
      WrittenIsShown(Step(saved, Publish(user)).0, t.cache, config, name, slug);
    }
  }

  /** Rolling back to a published version shows that version's configuration again, and keeps all versions. */
  lemma RolledBackIsShown(t: Tenant, i: nat, user: Option<string>, name: string, slug: string)
    requires Inv(t) && i < |t.versions| && t.versions[i].status.Published?
    ensures var (after, r) := Step(t, Rollback(t.versions[i].id, user));
            && r == Ok(t.versions[i].config) && after.versions == t.versions
            && after.audit == t.audit + [Audit(RollbackAction, user, t.versions[i].config)]
            && Shows(GetBranding(after, name, slug), t.versions[i].config, GetBranding(t, name, slug).terminology)
  {
    PublishedAtUnique(t.versions, i);
    WrittenIsShown(Step(t, Rollback(t.versions[i].id, user)).0, t.cache, t.versions[i].config, name, slug);
  }

  /** What each operation does to the list of versions, and when it is refused. */
  lemma VersionsStep(t: Tenant, op: Op)
    requires Inv(t)
    ensures var n := |t.versions|;
            var drafted := n > 0 && t.versions[n - 1].status.Draft?;
            var (after, r) := Step(t, op);
            match op
            case Save(config, user, newId) =>
              && r == Ok(config) && after.cache == t.cache && after.audit == t.audit
              && after.versions == if drafted
                                   then t.versions[..n - 1] + [Version(t.versions[n - 1].id, n, Draft, config, user)]
                                   else t.versions + [Version(newId, n + 1, Draft, config, user)]
            case Publish(_) =>
              if !drafted then (after, r) == (t, Err(NoDraft))
              else if ThemeIsNull(t.versions[n - 1].config) then (after, r) == (t, Err(NullTheme))
              else r == Ok(t.versions[n - 1].config)
                   && after.versions == t.versions[..n - 1] + [t.versions[n - 1].(status := Published)]
            case Rollback(id, _) =>
              && after.versions == t.versions
              && (r.Ok? <==> exists i :: 0 <= i < n && t.versions[i].id == id && t.versions[i].status.Published?)
              && (r.Err? ==> (after, r) == (t, Err(VersionNotFound)))
  {
    var n := |t.versions|;
    if n > 0 && t.versions[n - 1].status.Draft? {
      DraftAtIs(t.versions, n - 1);
      ThemeOfNone(t.versions[n - 1].config);
    } else {
      DraftAtIs(t.versions, n);
    }
    MaxNumberIsLength(t.versions);
  }

  /**
    In every run of a new tenant the public sees the configuration of the last log entry, with the
    terminology of the last entry that has one; and the defaults as long as nothing is logged.
   */
  lemma ShownIsLastLogged(ops: seq<Op>, name: string, slug: string)
    ensures var start := Tenant(None, [], []);
            var log := Logged(start, ops);
            var shown := GetBranding(Run(start, ops), name, slug);
            && shown.organization == name && shown.slug == slug
            && (log == [] ==> shown == Public(name, slug, None, None, "#2563EB", "#111827", "Inter", "light",
                                              None, None, Terms(map[])))
            && (log != [] ==> Shows(shown, log[|log| - 1].changes,
                                    StoredTerms(LastTerminology(None, log[..|log| - 1]))))
  {
    var start := Tenant(None, [], []);
    var t := Run(start, ops);
    CacheReplaysAuditLog(start, ops, None);
    AuditGrowsByOutcome(start, ops);
    assert t.audit == Logged(start, ops);
    if t.audit != [] {
      var last := t.audit[|t.audit| - 1].changes;
      var row := EMPTY_CACHE.(terminology := LastTerminology(None, t.audit[..|t.audit| - 1]));
      assert t.cache == Some(Written(Some(row), last, ThemeOf(last).value));
      WrittenIsShown(t, Some(row), last, name, slug);
    }
  }

  /** Without a draft the draft endpoint shows the published payload, under the payload's own keys. */
  lemma DraftFallsBack(t: Tenant, name: string, slug: string)
    requires forall i :: 0 <= i < |t.versions| ==> t.versions[i].status.Published?
    ensures var draft := GetDraft(t, name, slug);
            && draft.values["organization"] == Some(name) && draft.values["slug"] == Some(slug)
            && Shows(GetBranding(t, name, slug), draft, Terms(map[]))
  {
    DraftAtIs(t.versions, |t.versions|);
    var draft := GetDraft(t, name, slug);
    TruthyIsSet(draft, "primary_color");
    TruthyIsSet(draft, "secondary_color");
    TruthyIsSet(draft, "font");
    TruthyIsSet(draft, "theme");
  }

  /** Saving and publishing the unmodified public payload changes nothing the public sees. */
  lemma PublishingThePayloadIsIdentity(t: Tenant, user: Option<string>, newId: int, name: string, slug: string)
    ensures var payload := AsConfig(GetBranding(t, name, slug));
            var saved := Step(t, Save(payload, user, newId)).0;
            var (published, r) := Step(saved, Publish(user));
            r == Ok(payload) && GetBranding(published, name, slug) == GetBranding(t, name, slug)
  {
    var payload := AsConfig(GetBranding(t, name, slug));
    SavedIsPublished(t, payload, user, newId, name, slug);
    assert Truthy(Get(payload, "theme"));
  }
}
