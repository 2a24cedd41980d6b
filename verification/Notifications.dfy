/** Notifications: creation at most once per idempotency key, and the read/unread bookkeeping. */
module Notifications {
  import opened Wrappers
  import opened Ordering

  datatype Notification = Notification(id: int, userId: string, orgId: int, title: string, body: string,
                                       kind: string, isRead: bool, metadata: Option<Metadata>,
                                       sourceType: Option<string>, sourceId: Option<string>, createdAt: int)

  /** The metadata keys the code looks at, and the rest. */
  datatype Metadata = Metadata(route: Option<string>, routeName: Option<string>, idempotencyKey: Option<string>,
                               others: map<string, string>)

  datatype Failure = MissingSource | InvalidPayload

  const ACTIVE_TYPES := {
    "task_assigned", "task_approved", "task_rejected", "task_revision_requested", "enrollment_created",
    "course_published", "course_rejected", "assignment_graded", "certificate_awarded",
    "learning_path_assigned", "learning_path_unlocked", "learning_path_completed", "announcement_published"
  }

  // ---------------------------------------------------------------- payload validation

  predicate UnsupportedRoute(route: string) {
    "/api/" <= route || "/authoring/courses/" <= route || "/courses/" <= route
  }

  predicate SupportedRoute(route: string) {
    || "/learner" <= route
    || "/categories/" <= route || route == "/categories"
    || "/platform-admin" <= route
    || "/super-admin" <= route
  }

  predicate ValidPayload(metadata: Option<Metadata>) {
    && metadata.Some?
    && metadata.value.route.Some? && metadata.value.route.value != ""
    && metadata.value.routeName.Some? && metadata.value.routeName.value != ""
    && !UnsupportedRoute(metadata.value.route.value) && SupportedRoute(metadata.value.route.value)
  }

  // ---------------------------------------------------------------- operations

  /** What identifies a create_once call, apart from title, body and payload. */
  datatype Slot = Slot(userId: string, orgId: int, kind: string, sourceType: string, sourceId: string, key: string)

  datatype Op =
    | CreateOnce(slot: Slot, title: string, body: string, metadata: Metadata, newId: int, now: int)
    | Create(userId: string, orgId: int, title: string, body: string, kind: string, payload: Option<Metadata>,
             sourceType: Option<string>, sourceId: Option<string>, newId: int, now: int)
    | MarkRead(userId: string, orgId: int, ids: Option<seq<int>>)

  datatype Outcome = Returned(n: Notification) | Failed(failure: Failure) | Marked(count: nat)

  function Validated(kind: string, payload: Option<Metadata>, sourceType: Option<string>, sourceId: Option<string>)
    : Option<Failure>
  {
    if kind !in ACTIVE_TYPES then None
    else if sourceType.None? || sourceType.value == "" || sourceId.None? then Some(MissingSource)
    else if !ValidPayload(payload) then Some(InvalidPayload) else None
  }

  /** An existing notification the create_once query selects. */
  function Selected(s: Slot): Notification -> bool {
    (n: Notification) => && n.userId == s.userId && n.orgId == s.orgId && n.kind == s.kind
                         && n.sourceType == Some(s.sourceType) && n.sourceId == Some(s.sourceId)
  }

  /** ORDER BY created_at DESC, id DESC */
  predicate Newer(a: Notification, b: Notification) {
    PairLe((b.createdAt, b.id), (a.createdAt, a.id))
  }

  predicate HasKey(n: Notification, key: string) {
    n.metadata.Some? && n.metadata.value.idempotencyKey == Some(key)
  }

  function FirstWithKey(ns: seq<Notification>, key: string): Option<Notification> {
    if ns == [] then None else if HasKey(ns[0], key) then Some(ns[0]) else FirstWithKey(ns[1..], key)
  }

  function Existing(rows: seq<Notification>, s: Slot): Option<Notification> {
    FirstWithKey(SortBy(Filter(rows, Selected(s)), Newer), s.key)
  }

  function Fresh(s: Slot, title: string, body: string, metadata: Metadata, newId: int, now: int): Notification {
    Notification(newId, s.userId, s.orgId, title, body, s.kind, false,
                 Some(metadata.(idempotencyKey := Some(s.key))), Some(s.sourceType), Some(s.sourceId), now)
  }

  /** An empty id list is falsy, so it marks everything, like None. */
  predicate Marks(userId: string, orgId: int, ids: Option<seq<int>>, n: Notification) {
    && n.userId == userId && n.orgId == orgId && !n.isRead
    && (ids.None? || ids.value == [] || n.id in ids.value)
  }

  function MarkedRows(rows: seq<Notification>, userId: string, orgId: int, ids: Option<seq<int>>): seq<Notification> {
    seq(|rows|, i requires 0 <= i < |rows| =>
      if Marks(userId, orgId, ids, rows[i]) then rows[i].(isRead := true) else rows[i])
  }

  function MarkCount(rows: seq<Notification>, userId: string, orgId: int, ids: Option<seq<int>>): nat {
    if rows == [] then 0
    else MarkCount(rows[..|rows| - 1], userId, orgId, ids)
         + if Marks(userId, orgId, ids, rows[|rows| - 1]) then 1 else 0
  }

  function Step(rows: seq<Notification>, op: Op): (seq<Notification>, Outcome) {
    match op
    case CreateOnce(slot, title, body, metadata, newId, now) =>
      (match Existing(rows, slot)
       case Some(n) => (rows, Returned(n))
       case None =>
         var n := Fresh(slot, title, body, metadata, newId, now);
         match Validated(slot.kind, n.metadata, n.sourceType, n.sourceId)
         case Some(e) => (rows, Failed(e))
         case None => (rows + [n], Returned(n)))
    case Create(userId, orgId, title, body, kind, payload, sourceType, sourceId, newId, now) =>
      (match Validated(kind, payload, sourceType, sourceId)
       case Some(e) => (rows, Failed(e))
       case None =>
         var n := Notification(newId, userId, orgId, title, body, kind, false, payload, sourceType, sourceId, now);
         (rows + [n], Returned(n)))
    case MarkRead(userId, orgId, ids) =>
      (MarkedRows(rows, userId, orgId, ids), Marked(MarkCount(rows, userId, orgId, ids)))
  }

  function CountUnread(rows: seq<Notification>, userId: string, orgId: int): nat {
    MarkCount(rows, userId, orgId, None)
  }

  class NotificationRepository {
    var rows: seq<Notification>

    constructor ()
      ensures rows == []
    {
      rows := [];
    }

    method CreateNotification(userId: string, orgId: int, title: string, body: string, kind: string,
                              payload: Option<Metadata>, sourceType: Option<string>, sourceId: Option<string>,
                              newId: int, now: int)
      returns (r: Outcome)
      modifies this
      ensures (rows, r)
              == Step(old(rows), Create(userId, orgId, title, body, kind, payload, sourceType, sourceId, newId, now))
    {
      if kind in ACTIVE_TYPES {
        if sourceType.None? || sourceType.value == "" || sourceId.None? {
          return Failed(MissingSource);
        }
        if !ValidPayload(payload) {
          return Failed(InvalidPayload);
        }
      }
      var n := Notification(newId, userId, orgId, title, body, kind, false, payload, sourceType, sourceId, now);
      rows := rows + [n];
      r := Returned(n);
    }

    method FindExisting(slot: Slot) returns (r: Option<Notification>)
      ensures r == Existing(rows, slot)
    {
      var candidates := SortBy(Filter(rows, Selected(slot)), Newer);
      for i := 0 to |candidates|
        invariant FirstWithKey(candidates, slot.key) == FirstWithKey(candidates[i..], slot.key)
      {
        if HasKey(candidates[i], slot.key) {
          return Some(candidates[i]);
        }
        assert candidates[i..][1..] == candidates[i + 1..];
      }
      r := None;
    }

    method CreateNotificationOnce(slot: Slot, title: string, body: string, metadata: Metadata, newId: int, now: int)
      returns (r: Outcome)
      modifies this
      ensures (rows, r) == Step(old(rows), CreateOnce(slot, title, body, metadata, newId, now))
    {
      var existing := FindExisting(slot);
      if existing.Some? {
        return Returned(existing.value);
      }
      var next := metadata.(idempotencyKey := Some(slot.key));
      r := CreateNotification(slot.userId, slot.orgId, title, body, slot.kind, Some(next),
                              Some(slot.sourceType), Some(slot.sourceId), newId, now);
    }

    method MarkNotificationsRead(userId: string, orgId: int, ids: Option<seq<int>>) returns (count: nat)
      modifies this
      ensures rows == MarkedRows(old(rows), userId, orgId, ids)
      ensures count == CountUnread(old(rows), userId, orgId) - CountUnread(rows, userId, orgId)
    {
      count := 0;
      var i := 0;
      while i < |rows|
        invariant i <= |rows| == |old(rows)|
        invariant forall k :: 0 <= k < i ==>
          rows[k] == if Marks(userId, orgId, ids, old(rows)[k]) then old(rows)[k].(isRead := true) else old(rows)[k]
        invariant forall k :: i <= k < |rows| ==> rows[k] == old(rows)[k]
        invariant count == MarkCount(old(rows)[..i], userId, orgId, ids)
      {
        assert old(rows)[..i + 1][..i] == old(rows)[..i];
        if Marks(userId, orgId, ids, rows[i]) {
          rows := rows[i := rows[i].(isRead := true)];
          count := count + 1;
        }
        i := i + 1;
      }
      assert rows == MarkedRows(old(rows), userId, orgId, ids);
      assert old(rows)[..|rows|] == old(rows);
      MarkReadIsTheDrop(old(rows), userId, orgId, ids);
    }
  }

  // ---------------------------------------------------------------- marking as read

  lemma {:induction false} MarkReadIsTheDrop(rows: seq<Notification>, userId: string, orgId: int, ids: Option<seq<int>>)
    ensures CountUnread(MarkedRows(rows, userId, orgId, ids), userId, orgId) + MarkCount(rows, userId, orgId, ids)
            == CountUnread(rows, userId, orgId)
  {
    if rows != [] {
      var front := rows[..|rows| - 1];
      MarkReadIsTheDrop(front, userId, orgId, ids);
      assert MarkedRows(rows, userId, orgId, ids)[..|rows| - 1] == MarkedRows(front, userId, orgId, ids);
    }
  }

  /** Marking returns the drop of the user's own count, and leaves every other user's notifications as they are. */
  lemma MarkReadEffect(rows: seq<Notification>, userId: string, orgId: int, ids: Option<seq<int>>)
    ensures var (after, r) := Step(rows, MarkRead(userId, orgId, ids));
            && r.Marked? && CountUnread(after, userId, orgId) + r.count == CountUnread(rows, userId, orgId)
            && |after| == |rows|
            && (forall i :: 0 <= i < |rows| ==> after[i].(isRead := false) == rows[i].(isRead := false))
            && (forall i :: 0 <= i < |rows| && (rows[i].userId != userId || rows[i].orgId != orgId)
                            ==> after[i] == rows[i])
            && (ids == None || ids == Some([]) ==> CountUnread(after, userId, orgId) == 0)
  {
    MarkReadIsTheDrop(rows, userId, orgId, ids);
    if ids == None || ids == Some([]) {
      SameMarks(rows, userId, orgId, ids);
    }
  }

  lemma {:induction false} SameMarks(rows: seq<Notification>, userId: string, orgId: int, ids: Option<seq<int>>)
    requires ids == None || ids == Some([])
    ensures MarkCount(rows, userId, orgId, ids) == CountUnread(rows, userId, orgId)
  {
    if rows != [] {
      SameMarks(rows[..|rows| - 1], userId, orgId, ids);
    }
  }

  lemma {:induction false} OthersUnaffected(rows: seq<Notification>, userId: string, orgId: int, ids: Option<seq<int>>,
                                            other: string, otherOrg: int)
    requires other != userId || otherOrg != orgId
    ensures CountUnread(MarkedRows(rows, userId, orgId, ids), other, otherOrg) == CountUnread(rows, other, otherOrg)
  {
    if rows != [] {
      var front := rows[..|rows| - 1];
      OthersUnaffected(front, userId, orgId, ids, other, otherOrg);
      assert MarkedRows(rows, userId, orgId, ids)[..|rows| - 1] == MarkedRows(front, userId, orgId, ids);
    }
  }

  // ---------------------------------------------------------------- exactly once

  ghost predicate Fills(n: Notification, s: Slot) { Selected(s)(n) && HasKey(n, s.key) }

  /** No two notifications fill the same slot. */
  ghost predicate Inv(rows: seq<Notification>) {
    forall s :: OnceIn(rows, s)
  }

  ghost predicate OnceIn(rows: seq<Notification>, s: Slot) {
    forall i, j :: 0 <= i < j < |rows| ==> !(Fills(rows[i], s) && Fills(rows[j], s))
  }

  /** Plain `create` is called without an idempotency key in its metadata. */
  ghost predicate Keyless(op: Op) {
    op.Create? && op.payload.Some? ==> op.payload.value.idempotencyKey.None?
  }

  lemma {:induction false} FirstWithKeyFinds(ns: seq<Notification>, key: string)
    ensures FirstWithKey(ns, key).Some?
            ==> FirstWithKey(ns, key).value in ns && HasKey(FirstWithKey(ns, key).value, key)
    ensures FirstWithKey(ns, key).None? ==> forall n :: n in ns ==> !HasKey(n, key)
  {
    if ns != [] {
      FirstWithKeyFinds(ns[1..], key);
    }
  }

  lemma ExistingFinds(rows: seq<Notification>, s: Slot)
    ensures Existing(rows, s).Some? ==> Existing(rows, s).value in rows && Fills(Existing(rows, s).value, s)
    ensures Existing(rows, s).None? ==> forall n :: n in rows ==> !Fills(n, s)
  {
    FirstWithKeyFinds(SortBy(Filter(rows, Selected(s)), Newer), s.key);
    QueryMembers(rows, Selected(s), Newer);
  }

  lemma AppendOnce(rows: seq<Notification>, n: Notification, s: Slot)
    requires OnceIn(rows, s) && (Fills(n, s) ==> forall m :: m in rows ==> !Fills(m, s))
    ensures OnceIn(rows + [n], s)
  {
    assert forall i :: 0 <= i < |rows| ==> rows[i] in rows;
  }

  lemma StepOnce(rows: seq<Notification>, op: Op, s: Slot)
    requires OnceIn(rows, s) && Keyless(op)
    ensures OnceIn(Step(rows, op).0, s)
  {
    var after := Step(rows, op).0;
    if op.MarkRead? {
      assert forall i :: 0 <= i < |rows| ==> (Fills(after[i], s) <==> Fills(rows[i], s));
    } else if after != rows {
      if op.CreateOnce? {
        ExistingFinds(rows, op.slot);
        FillsFresh(op, s);
      }
      AppendOnce(rows, after[|rows|], s);
    }
  }

  lemma StepInv(rows: seq<Notification>, op: Op)
    requires Inv(rows) && Keyless(op)
    ensures Inv(Step(rows, op).0)
  {
    forall s ensures OnceIn(Step(rows, op).0, s) {
      assert OnceIn(rows, s);
      StepOnce(rows, op, s);
    }
  }

  /** A new notification fills its own slot and no other. */
  lemma FillsFresh(op: Op, s: Slot)
    requires op.CreateOnce?
    ensures Fills(Fresh(op.slot, op.title, op.body, op.metadata, op.newId, op.now), s) <==> s == op.slot
  {
  }

  function Run(rows: seq<Notification>, ops: seq<Op>): seq<Notification>
    decreases |ops|
  {
    if ops == [] then rows else Run(Step(rows, ops[0]).0, ops[1..])
  }

  /** Main result: in every run each slot is filled at most once. */
  lemma {:induction false} RunInv(rows: seq<Notification>, ops: seq<Op>)
    requires Inv(rows) && forall op :: op in ops ==> Keyless(op)
    ensures Inv(Run(rows, ops))
    decreases |ops|
  {
    if ops != [] {
      assert ops[0] in ops;
      StepInv(rows, ops[0]);
      RunInv(Step(rows, ops[0]).0, ops[1..]);
    }
  }

  /** Rows are never removed and never change, except for being marked as read. */
  lemma {:induction false} RowsPersist(rows: seq<Notification>, ops: seq<Op>, i: nat)
    requires i < |rows|
    ensures i < |Run(rows, ops)| && Run(rows, ops)[i].(isRead := false) == rows[i].(isRead := false)
    decreases |ops|
  {
    if ops != [] {
      RowsPersist(Step(rows, ops[0]).0, ops[1..], i);
    }
  }

  /** Repeating a call, however much later, returns the same notification and writes nothing. */
  lemma RepeatedCallReturnsSame(rows: seq<Notification>, first: Op, ops: seq<Op>, again: Op)
    requires Inv(rows) && first.CreateOnce? && again.CreateOnce? && again.slot == first.slot
    requires Step(rows, first).1.Returned? && forall op :: op in ops ==> Keyless(op)
    ensures var later := Run(Step(rows, first).0, ops);
            var (after, r) := Step(later, again);
            && after == later && r.Returned?
            && r.n.(isRead := false) == Step(rows, first).1.n.(isRead := false)
  {
    var (start, outcome) := Step(rows, first);
    var later := Run(start, ops);
    ExistingFinds(rows, first.slot);
    FillsFresh(first, first.slot);
    assert outcome.n in start && Fills(outcome.n, first.slot) by {
      if Existing(rows, first.slot).None? {
        assert start[|rows|] == outcome.n;
      }
    }
    var i :| 0 <= i < |start| && start[i] == outcome.n;
    StepInv(rows, first);
    RunInv(start, ops);
    RowsPersist(start, ops, i);
    assert later[i] in later && Fills(later[i], first.slot);
    ExistingFinds(later, first.slot);
    var found := Existing(later, first.slot).value;
    var j :| 0 <= j < |later| && later[j] == found;
    assert OnceIn(later, first.slot);
    assert i == j;
  }
}
