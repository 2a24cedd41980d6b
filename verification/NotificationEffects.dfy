/** What creating and marking notifications stores and returns, row by row. */
module NotificationEffects {
  import opened Wrappers
  import opened Ordering
  import opened Notifications

  // ---------------------------------------------------------------- creation

  ghost predicate StartsWith(text: string, prefix: string) { exists rest: string :: text == prefix + rest }

  /** A payload that names a route of the web client, and the route's name. */
  ghost predicate ClientRoute(payload: Option<Metadata>) {
    exists m :: payload == Some(m) && Routed(m)
  }

  ghost predicate Routed(m: Metadata) {
    exists route, name :: NamesRoute(m, route, name) && ShownByClient(route)
  }

  ghost predicate NamesRoute(m: Metadata, route: string, name: string) {
    m.route == Some(route) && m.routeName == Some(name) && route != "" && name != ""
  }

  ghost predicate ShownByClient(route: string) {
    && !StartsWith(route, "/api/") && !StartsWith(route, "/authoring/courses/") && !StartsWith(route, "/courses/")
    && (|| StartsWith(route, "/learner") || StartsWith(route, "/categories/") || route == "/categories"
        || StartsWith(route, "/platform-admin") || StartsWith(route, "/super-admin"))
  }

  lemma PrefixIs(prefix: string, text: string)
    ensures prefix <= text <==> StartsWith(text, prefix)
  {
    if prefix <= text {
      assert text == prefix + text[|prefix|..];
    }
  }

  lemma RouteIs(route: string)
    ensures ShownByClient(route) <==> !UnsupportedRoute(route) && SupportedRoute(route)
  {
    PrefixIs("/api/", route);
    PrefixIs("/authoring/courses/", route);
    PrefixIs("/courses/", route);
    PrefixIs("/learner", route);
    PrefixIs("/categories/", route);
    PrefixIs("/platform-admin", route);
    PrefixIs("/super-admin", route);
  }

  lemma PayloadIs(payload: Option<Metadata>)
    ensures ValidPayload(payload) <==> ClientRoute(payload)
  {
    if payload.Some? && payload.value.route.Some? && payload.value.routeName.Some? {
      var m := payload.value;
      RouteIs(m.route.value);
      if ValidPayload(payload) {
        assert NamesRoute(m, m.route.value, m.routeName.value);
        assert Routed(m);
      }
    }
  }

  /** Why a notification of this type is refused; other types than the active ones are never refused. */
  ghost predicate Refused(kind: string, payload: Option<Metadata>, sourceType: Option<string>,
                          sourceId: Option<string>, failure: Failure)
  {
    && kind in ACTIVE_TYPES
    && if sourceType == None || sourceType == Some("") || sourceId == None then failure == MissingSource
       else !ClientRoute(payload) && failure == InvalidPayload
  }

  ghost predicate Accepted(kind: string, payload: Option<Metadata>, sourceType: Option<string>,
                           sourceId: Option<string>)
  {
    kind in ACTIVE_TYPES ==>
      sourceType != None && sourceType != Some("") && sourceId != None && ClientRoute(payload)
  }

  /** A created notification is unread and holds what the caller gave; a refused one leaves the table alone. */
  lemma CreatedIs(rows: seq<Notification>, op: Op)
    requires op.Create?
    ensures var (after, r) := Step(rows, op);
            if Accepted(op.kind, op.payload, op.sourceType, op.sourceId)
            then && r.Returned? && after == rows + [r.n]
                 && r.n.id == op.newId && r.n.userId == op.userId && r.n.orgId == op.orgId && r.n.title == op.title
                 && r.n.body == op.body && r.n.kind == op.kind && !r.n.isRead && r.n.metadata == op.payload
                 && r.n.sourceType == op.sourceType && r.n.sourceId == op.sourceId && r.n.createdAt == op.now
            else after == rows && r.Failed?
                 && Refused(op.kind, op.payload, op.sourceType, op.sourceId, r.failure)
  {
    PayloadIs(op.payload);
  }

  // ---------------------------------------------------------------- creation at most once

  /** The notification is of the slot's user, organisation, type and source, and carries its key. */
  ghost predicate Matches(n: Notification, s: Slot) {
    && n.userId == s.userId && n.orgId == s.orgId && n.kind == s.kind
    && n.sourceType == Some(s.sourceType) && n.sourceId == Some(s.sourceId)
    && n.metadata.Some? && n.metadata.value.idempotencyKey == Some(s.key)
  }

  ghost predicate NotNewer(m: Notification, n: Notification) {
    m.createdAt < n.createdAt || (m.createdAt == n.createdAt && m.id <= n.id)
  }

  lemma NewerOrder()
    ensures IsOrder(Newer)
  {
  }

  lemma {:induction false} FirstIsNewest(ns: seq<Notification>, key: string)
    requires SortedBy(ns, Newer) && FirstWithKey(ns, key).Some?
    ensures forall m :: m in ns && HasKey(m, key) ==> NotNewer(m, FirstWithKey(ns, key).value)
  {
    if HasKey(ns[0], key) {
      forall m | m in ns ensures NotNewer(m, ns[0]) {
        var i :| 0 <= i < |ns| && ns[i] == m;
        assert i > 0 ==> Newer(ns[0], ns[i]);
      }
    } else {
      FirstIsNewest(ns[1..], key);
      assert forall m :: m in ns <==> m == ns[0] || m in ns[1..];
    }
  }

  lemma ExistingIsNewest(rows: seq<Notification>, s: Slot)
    ensures Existing(rows, s).Some? <==> exists n :: n in rows && Matches(n, s)
    ensures Existing(rows, s).Some? ==>
              var n := Existing(rows, s).value;
              n in rows && Matches(n, s) && forall m :: m in rows && Matches(m, s) ==> NotNewer(m, n)
  {
    var candidates := SortBy(Filter(rows, Selected(s)), Newer);
    NewerOrder();
    SortSorts(Filter(rows, Selected(s)), Newer);
    QueryMembers(rows, Selected(s), Newer);
    FirstWithKeyFinds(candidates, s.key);
    if Existing(rows, s).Some? {
      FirstIsNewest(candidates, s.key);
    }
    assert forall n :: Matches(n, s) <==> Selected(s)(n) && HasKey(n, s.key);
  }

  /** The notification that a first call for the slot creates. */
  ghost predicate IsFirst(n: Notification, op: Op)
    requires op.CreateOnce?
  {
    && Matches(n, op.slot) && n.id == op.newId && n.title == op.title && n.body == op.body && !n.isRead
    && n.createdAt == op.now && n.metadata == Some(op.metadata.(idempotencyKey := Some(op.slot.key)))
  }

  /**
    create_once returns the newest notification that fills the slot and writes nothing, or else creates
    one, with the key put into its metadata, unless it is refused.
   */
  lemma CreatedOnceIs(rows: seq<Notification>, op: Op)
    requires op.CreateOnce?
    ensures var (after, r) := Step(rows, op);
            var s := op.slot;
            var payload := Some(op.metadata.(idempotencyKey := Some(s.key)));
            if exists n :: n in rows && Matches(n, s)
            then after == rows && r.Returned? && r.n in rows && Matches(r.n, s)
                 && forall m :: m in rows && Matches(m, s) ==> NotNewer(m, r.n)
            else if Accepted(s.kind, payload, Some(s.sourceType), Some(s.sourceId))
            then r.Returned? && after == rows + [r.n] && IsFirst(r.n, op)
            else after == rows && r.Failed?
                 && Refused(s.kind, payload, Some(s.sourceType), Some(s.sourceId), r.failure)
  {
    ExistingIsNewest(rows, op.slot);
    PayloadIs(Some(op.metadata.(idempotencyKey := Some(op.slot.key))));
  }

  // ---------------------------------------------------------------- marking as read

  /** An unread notification of the user that the call asks for; no ids, or none in the list, ask for all. */
  ghost predicate AskedFor(n: Notification, userId: string, orgId: int, ids: Option<seq<int>>) {
    && n.userId == userId && n.orgId == orgId && !n.isRead
    && (ids == None || ids == Some([]) || exists id :: id in ids.value && id == n.id)
  }

  /** The positions of the notifications asked for. */
  ghost function AskedAt(rows: seq<Notification>, userId: string, orgId: int, ids: Option<seq<int>>): set<int> {
    set i | 0 <= i < |rows| && AskedFor(rows[i], userId, orgId, ids)
  }

  lemma AskedFront(rows: seq<Notification>, userId: string, orgId: int, ids: Option<seq<int>>)
    requires rows != []
    ensures var n := |rows| - 1;
            && AskedAt(rows, userId, orgId, ids)
               == AskedAt(rows[..n], userId, orgId, ids) + (if AskedFor(rows[n], userId, orgId, ids) then {n} else {})
            && n !in AskedAt(rows[..n], userId, orgId, ids)
  {
    var n := |rows| - 1;
    forall i ensures i in AskedAt(rows, userId, orgId, ids)
                     <==> i in AskedAt(rows[..n], userId, orgId, ids)
                          || (i == n && AskedFor(rows[n], userId, orgId, ids))
    {
      assert 0 <= i < n ==> rows[..n][i] == rows[i];
    }
  }

  lemma MarksIs(n: Notification, userId: string, orgId: int, ids: Option<seq<int>>)
    ensures Marks(userId, orgId, ids, n) <==> AskedFor(n, userId, orgId, ids)
  {
  }

  lemma {:induction false} CountIsSize(rows: seq<Notification>, userId: string, orgId: int, ids: Option<seq<int>>)
    ensures MarkCount(rows, userId, orgId, ids) == |AskedAt(rows, userId, orgId, ids)|
  {
    if rows != [] {
      CountIsSize(rows[..|rows| - 1], userId, orgId, ids);
      AskedFront(rows, userId, orgId, ids);
      MarksIs(rows[|rows| - 1], userId, orgId, ids);
    }
  }

  /** Exactly the notifications asked for become read, nothing else changes, and their number is returned. */
  lemma MarkedIs(rows: seq<Notification>, userId: string, orgId: int, ids: Option<seq<int>>)
    ensures var (after, r) := Step(rows, MarkRead(userId, orgId, ids));
            && |after| == |rows|
            && (forall i :: 0 <= i < |rows| ==>
                  if AskedFor(rows[i], userId, orgId, ids) then after[i] == rows[i].(isRead := true)
                  else after[i] == rows[i])
            && r == Marked(|AskedAt(rows, userId, orgId, ids)|)
  {
    CountIsSize(rows, userId, orgId, ids);
  }

  /** The unread count is the number of unread notifications of the user in the organisation. */
  lemma UnreadIs(rows: seq<Notification>, userId: string, orgId: int)
    ensures CountUnread(rows, userId, orgId)
            == |set i | 0 <= i < |rows| && rows[i].userId == userId && rows[i].orgId == orgId && !rows[i].isRead|
  {
    CountIsSize(rows, userId, orgId, None);
    assert (set i | 0 <= i < |rows| && rows[i].userId == userId && rows[i].orgId == orgId && !rows[i].isRead)
           == AskedAt(rows, userId, orgId, None);
  }
}
