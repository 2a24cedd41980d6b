/** The life of an organisation invitation. */
module Invitations {
  import opened Wrappers
  import opened Ordering
  import opened Text
  import opened Timestamps

  datatype Invitation = Invitation(id: int, orgId: int, email: string, role: string, token: string, expiresAt: string,
                                   acceptedAt: Option<string>, revokedAt: Option<string>, resendCount: nat,
                                   lastResentAt: Option<string>, lastSentAt: Option<string>)

  datatype Failure = PendingExists | NotFound | Expired | AlreadyAccepted | AlreadyRevoked

  /** Each operation carries the time text it reads from the clock; `create` also its fresh id and token. */
  datatype Op =
    | Create(orgId: int, email: string, role: string, newId: int, newToken: string, expiresAt: string)
    | Accept(token: string, now: string)
    | Revoke(id: int, now: string)
    | Resend(id: int, now: string)

  predicate IsOpen(i: Invitation) { i.acceptedAt.None? && i.revokedAt.None? }

  /** An open invitation of the organisation for this (normalised) address. */
  predicate Blocks(i: Invitation, orgId: int, email: string) {
    IsOpen(i) && i.orgId == orgId && i.email == email
  }

  function FindToken(rows: seq<Invitation>, token: string): (k: nat)
    ensures k <= |rows| && (k < |rows| ==> rows[k].token == token)
    ensures forall j :: 0 <= j < k ==> rows[j].token != token
  {
    FirstIndex(rows, (i: Invitation) => i.token == token)
  }

  function FindId(rows: seq<Invitation>, id: int): (k: nat)
    ensures k <= |rows| && (k < |rows| ==> rows[k].id == id)
    ensures forall j :: 0 <= j < k ==> rows[j].id != id
  {
    FirstIndex(rows, (i: Invitation) => i.id == id)
  }

  function Resent(i: Invitation, now: string): Invitation {
    i.(resendCount := i.resendCount + 1, lastResentAt := Some(now), lastSentAt := Some(now))
  }

  function Step(rows: seq<Invitation>, op: Op): (seq<Invitation>, Option<Failure>) {
    match op
    case Create(orgId, email, role, newId, newToken, expiresAt) =>
      if exists i :: i in rows && Blocks(i, orgId, Normal(email)) then (rows, Some(PendingExists))
      else
        (rows + [Invitation(newId, orgId, Normal(email), role, newToken, expiresAt, None, None, 0, None, None)], None)
    case Accept(token, now) =>
      var k := FindToken(rows, token);
      if k == |rows| then (rows, Some(NotFound))
      else if StrLess(rows[k].expiresAt, now) then (rows, Some(Expired))
      else if rows[k].acceptedAt.Some? then (rows, Some(AlreadyAccepted))
      else if rows[k].revokedAt.Some? then (rows, Some(AlreadyRevoked))
      else (rows[k := rows[k].(acceptedAt := Some(now))], None)
    case Revoke(id, now) =>
      var k := FindId(rows, id);
      if k == |rows| then (rows, Some(NotFound))
      else if rows[k].acceptedAt.Some? then (rows, Some(AlreadyAccepted))
      else if rows[k].revokedAt.Some? then (rows, Some(AlreadyRevoked))
      else (rows[k := rows[k].(revokedAt := Some(now))], None)
    case Resend(id, now) =>
      var k := FindId(rows, id);
      if k == |rows| then (rows, Some(NotFound))
      else if rows[k].acceptedAt.Some? then (rows, Some(AlreadyAccepted))
      else if rows[k].revokedAt.Some? then (rows, Some(AlreadyRevoked))
      else (rows[k := Resent(rows[k], now)], None)
  }

  class InviteRepository {
    var rows: seq<Invitation>

    constructor ()
      ensures rows == []
    {
      rows := [];
    }

    method CreateInvitation(orgId: int, email: string, role: string, newId: int, newToken: string, expiresAt: string)
      returns (failure: Option<Failure>)
      modifies this
      ensures (rows, failure) == Step(old(rows), Create(orgId, email, role, newId, newToken, expiresAt))
    {
      LowerThenStrip(email);
      var address := Strip(Lower(email));
      if exists i :: i in rows && Blocks(i, orgId, address) {
        return Some(PendingExists);
      }
      rows := rows + [Invitation(newId, orgId, address, role, newToken, expiresAt, None, None, 0, None, None)];
      failure := None;
    }

    method AcceptInvitation(token: string, now: string) returns (failure: Option<Failure>)
      modifies this
      ensures (rows, failure) == Step(old(rows), Accept(token, now))
    {
      var k := FindToken(rows, token);
      if k == |rows| {
        return Some(NotFound);
      }
      if StrLess(rows[k].expiresAt, now) {
        return Some(Expired);
      }
      if rows[k].acceptedAt.Some? {
        return Some(AlreadyAccepted);
      }
      if rows[k].revokedAt.Some? {
        return Some(AlreadyRevoked);
      }
      rows := rows[k := rows[k].(acceptedAt := Some(now))];
      failure := None;
    }

    method RevokeInvitation(id: int, now: string) returns (failure: Option<Failure>)
      modifies this
      ensures (rows, failure) == Step(old(rows), Revoke(id, now))
    {
      var k := FindId(rows, id);
      if k == |rows| {
        return Some(NotFound);
      }
      if rows[k].acceptedAt.Some? {
        return Some(AlreadyAccepted);
      }
      if rows[k].revokedAt.Some? {
        return Some(AlreadyRevoked);
      }
      rows := rows[k := rows[k].(revokedAt := Some(now))];
      failure := None;
    }

    method RecordResend(id: int, now: string) returns (failure: Option<Failure>)
      modifies this
      ensures (rows, failure) == Step(old(rows), Resend(id, now))
    {
      var k := FindId(rows, id);
      if k == |rows| {
        return Some(NotFound);
      }
      if rows[k].acceptedAt.Some? {
        return Some(AlreadyAccepted);
      }
      if rows[k].revokedAt.Some? {
        return Some(AlreadyRevoked);
      }
      rows := rows[k := rows[k].(resendCount := rows[k].resendCount + 1)];
      rows := rows[k := rows[k].(lastResentAt := Some(now), lastSentAt := Some(now))];
      assert rows == old(rows)[k := Resent(old(rows)[k], now)];
      failure := None;
    }
  }

  // ---------------------------------------------------------------- invariants of every run

  /** Keys are unique, no invitation has both marks, and at most one is open per organisation and address. */
  ghost predicate Inv(rows: seq<Invitation>) {
    && (forall i, j :: 0 <= i < j < |rows| ==> rows[i].id != rows[j].id && rows[i].token != rows[j].token)
    && (forall i :: 0 <= i < |rows| ==> rows[i].acceptedAt.None? || rows[i].revokedAt.None?)
    && (forall i, j :: 0 <= i < j < |rows| && IsOpen(rows[i]) && IsOpen(rows[j])
                       ==> rows[i].orgId != rows[j].orgId || rows[i].email != rows[j].email)
    && (forall i :: 0 <= i < |rows| ==> Normal(rows[i].email) == rows[i].email)
  }

  ghost predicate FreshKeys(rows: seq<Invitation>, op: Op) {
    op.Create? ==> forall i :: 0 <= i < |rows| ==> rows[i].id != op.newId && rows[i].token != op.newToken
  }

  ghost predicate AllFresh(rows: seq<Invitation>, ops: seq<Op>)
    decreases |ops|
  {
    ops != [] ==> FreshKeys(rows, ops[0]) && AllFresh(Step(rows, ops[0]).0, ops[1..])
  }

  lemma AppendInv(rows: seq<Invitation>, r: Invitation)
    requires Inv(rows) && IsOpen(r) && Normal(r.email) == r.email
    requires forall i :: 0 <= i < |rows| ==> rows[i].id != r.id && rows[i].token != r.token
    requires forall i :: 0 <= i < |rows| ==> !Blocks(rows[i], r.orgId, r.email)
    ensures Inv(rows + [r])
  {
  }

  lemma CreateInv(rows: seq<Invitation>, op: Op)
    requires Inv(rows) && FreshKeys(rows, op) && op.Create?
    ensures Inv(Step(rows, op).0)
  {
    NormalIdempotent(op.email);
    if Step(rows, op).1.None? {
      assert forall i :: 0 <= i < |rows| ==> rows[i] in rows;
      AppendInv(rows, Step(rows, op).0[|rows|]);
    }
  }

  /** What is fixed when an invitation is created. */
  ghost predicate SameInvitation(a: Invitation, b: Invitation) {
    b == Invitation(a.id, a.orgId, a.email, a.role, a.token, a.expiresAt, b.acceptedAt, b.revokedAt, b.resendCount,
                    b.lastResentAt, b.lastSentAt)
  }

  /** Marking or resending an open invitation. */
  lemma ReplaceInv(rows: seq<Invitation>, k: nat, r: Invitation)
    requires Inv(rows) && k < |rows| && IsOpen(rows[k])
    requires SameInvitation(rows[k], r)
    requires r.acceptedAt.None? || r.revokedAt.None?
    ensures Inv(rows[k := r])
  {
  }

  lemma StepInv(rows: seq<Invitation>, op: Op)
    requires Inv(rows) && FreshKeys(rows, op)
    ensures Inv(Step(rows, op).0)
  {
    var (after, failure) := Step(rows, op);
    if op.Create? {
      CreateInv(rows, op);
    } else if failure.None? {
      var k := if op.Accept? then FindToken(rows, op.token) else FindId(rows, op.id);
      ReplaceInv(rows, k, after[k]);
    }
  }

  function Run(rows: seq<Invitation>, ops: seq<Op>): seq<Invitation>
    decreases |ops|
  {
    if ops == [] then rows else Run(Step(rows, ops[0]).0, ops[1..])
  }

  lemma {:induction false} RunInv(rows: seq<Invitation>, ops: seq<Op>)
    requires Inv(rows) && AllFresh(rows, ops)
    ensures Inv(Run(rows, ops))
    decreases |ops|
  {
    if ops != [] {
      StepInv(rows, ops[0]);
      RunInv(Step(rows, ops[0]).0, ops[1..]);
    }
  }

  /** `after` is a later state of `before`: set marks stay, and only open invitations have gained marks or resends. */
  ghost predicate Evolves(before: Invitation, after: Invitation) {
    && (before.acceptedAt.Some? ==> after.acceptedAt == before.acceptedAt)
    && (before.revokedAt.Some? ==> after.revokedAt == before.revokedAt)
    && before.resendCount <= after.resendCount
    && (before.resendCount == after.resendCount ==> after.lastResentAt == before.lastResentAt)
    && SameInvitation(before, after)
    && (!IsOpen(before) ==> after == before)
  }

  lemma StepEvolves(rows: seq<Invitation>, op: Op, i: nat)
    requires i < |rows|
    ensures i < |Step(rows, op).0| && Evolves(rows[i], Step(rows, op).0[i])
  {
  }

  /**
    Main result: a mark, once set, never changes; a closed invitation is frozen, never resent,
    accepted or revoked again; and everything but marks and the record of resends is fixed at creation.
   */
  lemma {:induction false} MarksAreFinal(rows: seq<Invitation>, ops: seq<Op>, i: nat)
    requires i < |rows|
    ensures i < |Run(rows, ops)| && Evolves(rows[i], Run(rows, ops)[i])
    decreases |ops|
  {
    if ops != [] {
      StepEvolves(rows, ops[0], i);
      MarksAreFinal(Step(rows, ops[0]).0, ops[1..], i);
    }
  }

  // ---------------------------------------------------------------- what is pending can be accepted

  predicate Pending(i: Invitation, orgId: Option<int>, now: string) {
    IsOpen(i) && StrLess(now, i.expiresAt) && (orgId.None? || i.orgId == orgId.value)
  }

  /** list_pending, in table order (its ORDER BY created_at is not part of this model). */
  function ListPending(rows: seq<Invitation>, orgId: Option<int>, now: string): seq<Invitation> {
    Filter(rows, (i: Invitation) => Pending(i, orgId, now))
  }

  /** Listed: neither accepted nor revoked, expiring later, and of the organisation if one is asked for. */
  lemma ListedIff(rows: seq<Invitation>, orgId: Option<int>, i: Invitation, now: string)
    ensures i in ListPending(rows, orgId, now)
            <==> i in rows && i.acceptedAt == None && i.revokedAt == None && StrLess(now, i.expiresAt)
                 && (orgId.Some? ==> i.orgId == orgId.value)
  {
    FilterMembers(rows, (j: Invitation) => Pending(j, orgId, now));
  }

  lemma FindTokenAt(rows: seq<Invitation>, k: nat)
    requires k < |rows| && forall i, j :: 0 <= i < j < |rows| ==> rows[i].token != rows[j].token
    ensures FindToken(rows, rows[k].token) == k
  {
    var found := FindToken(rows, rows[k].token);
    assert found <= k;
  }

  /**
    An invitation can be accepted now exactly when it is listed as pending now, or is open and
    expires at this very second.
   */
  lemma AcceptableIff(rows: seq<Invitation>, i: Invitation, now: string)
    requires Inv(rows) && i in rows
    ensures Step(rows, Accept(i.token, now)).1.None?
            <==> i in ListPending(rows, None, now) || (IsOpen(i) && i.expiresAt == now)
  {
    var k :| 0 <= k < |rows| && rows[k] == i;
    FindTokenAt(rows, k);
    StrTotal(i.expiresAt, now);
    FilterMembers(rows, (j: Invitation) => Pending(j, None, now));
  }

  /** Everything listed for an organisation can be accepted at that instant. */
  lemma PendingIsAcceptable(rows: seq<Invitation>, orgId: Option<int>, i: Invitation, now: string)
    requires Inv(rows) && i in ListPending(rows, orgId, now)
    ensures Step(rows, Accept(i.token, now)).1.None?
  {
    FilterMembers(rows, (j: Invitation) => Pending(j, orgId, now));
    FilterMembers(rows, (j: Invitation) => Pending(j, None, now));
    AcceptableIff(rows, i, now);
  }

  /** In terms of moments: an open invitation is acceptable up to and including the second it expires. */
  lemma AcceptableUntilExpiry(rows: seq<Invitation>, i: Invitation, expires: DateTime, now: DateTime)
    requires Inv(rows) && i in rows && IsOpen(i)
    requires Valid(expires) && Valid(now) && i.expiresAt == Render(expires)
    ensures Step(rows, Accept(i.token, Render(now))).1.None? <==> Instant(now) <= Instant(expires)
  {
    var k :| 0 <= k < |rows| && rows[k] == i;
    FindTokenAt(rows, k);
    TextOrderIsTimeOrder(expires, now);
  }

  // ---------------------------------------------------------------- what each operation leaves for later

  /** A created invitation keeps, whatever happens next, what it was created with; its address in normal form. */
  lemma CreatedStays(rows: seq<Invitation>, orgId: int, email: string, role: string, newId: int, newToken: string,
                     expiresAt: string, ops: seq<Op>)
    requires Inv(rows)
    ensures var (created, failure) := Step(rows, Create(orgId, email, role, newId, newToken, expiresAt));
            var open := exists i :: i in rows && i.acceptedAt == None && i.revokedAt == None
                                    && i.orgId == orgId && i.email == Normal(email);
            && failure == (if open then Some(PendingExists) else None)
            && (open ==> created == rows)
            && (!open ==> |created| == |rows| + 1 && created[..|rows|] == rows && IsOpen(created[|rows|])
                          && created[|rows|].resendCount == 0 && created[|rows|].lastSentAt == None)
            && (!open ==> var i := Run(created, ops);
                          && |rows| < |i| && i[|rows|].id == newId && i[|rows|].orgId == orgId
                          && i[|rows|].email == Normal(email) && i[|rows|].role == role
                          && i[|rows|].token == newToken && i[|rows|].expiresAt == expiresAt)
  {
    var created := Step(rows, Create(orgId, email, role, newId, newToken, expiresAt)).0;
    if |created| == |rows| + 1 {
      MarksAreFinal(created, ops, |rows|);
    }
  }

  lemma FindIdAt(rows: seq<Invitation>, k: nat)
    requires k < |rows| && forall i, j :: 0 <= i < j < |rows| ==> rows[i].id != rows[j].id
    ensures FindId(rows, rows[k].id) == k
  {
    assert FindId(rows, rows[k].id) <= k;
  }

  /** What an operation on the invitation at k must answer, from the marks it carries. */
  ghost predicate Refuses(rows: seq<Invitation>, k: nat, failure: Failure)
    requires k < |rows|
  {
    && (forall now :: !StrLess(rows[k].expiresAt, now)
                      ==> Step(rows, Accept(rows[k].token, now)) == (rows, Some(failure)))
    && (forall now :: Step(rows, Revoke(rows[k].id, now)) == (rows, Some(failure)))
    && (forall now :: Step(rows, Resend(rows[k].id, now)) == (rows, Some(failure)))
  }

  /** An invitation that no listing shows at any time, for any organisation or for all. */
  ghost predicate Unlisted(rows: seq<Invitation>, i: Invitation) {
    forall orgId, now :: i !in ListPending(rows, orgId, now)
  }

  /** The address of the invitation at k can be invited again unless another open invitation blocks it. */
  ghost predicate Reinvitable(rows: seq<Invitation>, k: nat)
    requires k < |rows|
  {
    forall role, newId, newToken, expiresAt ::
      Step(rows, Create(rows[k].orgId, rows[k].email, role, newId, newToken, expiresAt)).1.None?
      <==> forall j :: 0 <= j < |rows| && j != k && rows[j].orgId == rows[k].orgId && rows[j].email == rows[k].email
                       ==> rows[j].acceptedAt.Some? || rows[j].revokedAt.Some?
  }

  lemma ClosedRefuses(rows: seq<Invitation>, k: nat)
    requires Inv(rows) && k < |rows| && !IsOpen(rows[k])
    ensures Refuses(rows, k, if rows[k].acceptedAt.Some? then AlreadyAccepted else AlreadyRevoked)
    ensures Unlisted(rows, rows[k])
  {
    FindTokenAt(rows, k);
    FindIdAt(rows, k);
    forall orgId: Option<int>, now: string ensures rows[k] !in ListPending(rows, orgId, now) {
      FilterMembers(rows, (j: Invitation) => Pending(j, orgId, now));
    }
  }

  lemma ClosedReinvitable(rows: seq<Invitation>, k: nat)
    requires Inv(rows) && k < |rows| && !IsOpen(rows[k])
    ensures Reinvitable(rows, k)
  {
    forall role: string, newId: int, newToken: string, expiresAt: string
      ensures Step(rows, Create(rows[k].orgId, rows[k].email, role, newId, newToken, expiresAt)).1.None?
              <==> forall j :: 0 <= j < |rows| && j != k && rows[j].orgId == rows[k].orgId
                               && rows[j].email == rows[k].email
                               ==> rows[j].acceptedAt.Some? || rows[j].revokedAt.Some?
    {
      assert forall j :: 0 <= j < |rows| ==> rows[j] in rows;
    }
  }

  /** The invitation at k stays as it is, closed, whatever happens next. */
  lemma ClosedStays(rows: seq<Invitation>, k: nat, ops: seq<Op>)
    requires Inv(rows) && AllFresh(rows, ops) && k < |rows| && !IsOpen(rows[k])
    ensures var later := Run(rows, ops);
            && k < |later| && later[k] == rows[k] && Unlisted(later, later[k]) && Reinvitable(later, k)
            && Refuses(later, k, if rows[k].acceptedAt.Some? then AlreadyAccepted else AlreadyRevoked)
  {
    RunInv(rows, ops);
    MarksAreFinal(rows, ops, k);
    ClosedRefuses(Run(rows, ops), k);
    ClosedReinvitable(Run(rows, ops), k);
  }

  /**
    Main result: an acceptance succeeds exactly on an open invitation that has not expired, stamps
    that invitation alone, and is for good: after any further operations the stamp stands, no listing
    shows the invitation, accepting it again in time, revoking and resending it are refused as already
    accepted, and its address can be invited again.
   */
  lemma AcceptedForGood(rows: seq<Invitation>, k: nat, now: string, ops: seq<Op>)
    requires Inv(rows) && k < |rows|
    requires AllFresh(Step(rows, Accept(rows[k].token, now)).0, ops)
    ensures var (accepted, failure) := Step(rows, Accept(rows[k].token, now));
            var open := rows[k].acceptedAt.None? && rows[k].revokedAt.None? && !StrLess(rows[k].expiresAt, now);
            && (failure.None? <==> open)
            && (!open ==> accepted == rows)
            && (open ==> |accepted| == |rows| && forall j :: 0 <= j < |rows| && j != k ==> accepted[j] == rows[j])
            && (open ==> var later := Run(accepted, ops);
                         && k < |later| && later[k] == rows[k].(acceptedAt := Some(now))
                         && Unlisted(later, later[k]) && Refuses(later, k, AlreadyAccepted) && Reinvitable(later, k))
  {
    FindTokenAt(rows, k);
    StepInv(rows, Accept(rows[k].token, now));
    var (accepted, failure) := Step(rows, Accept(rows[k].token, now));
    if failure.None? {
      ClosedStays(accepted, k, ops);
    }
  }

  /** The same of a revocation, which asks for no more than an open invitation. */
  lemma RevokedForGood(rows: seq<Invitation>, k: nat, now: string, ops: seq<Op>)
    requires Inv(rows) && k < |rows|
    requires AllFresh(Step(rows, Revoke(rows[k].id, now)).0, ops)
    ensures var (revoked, failure) := Step(rows, Revoke(rows[k].id, now));
            var open := rows[k].acceptedAt.None? && rows[k].revokedAt.None?;
            && (failure.None? <==> open)
            && (!open ==> revoked == rows)
            && (open ==> |revoked| == |rows| && forall j :: 0 <= j < |rows| && j != k ==> revoked[j] == rows[j])
            && (open ==> var later := Run(revoked, ops);
                         && k < |later| && later[k] == rows[k].(revokedAt := Some(now))
                         && Unlisted(later, later[k]) && Refuses(later, k, AlreadyRevoked) && Reinvitable(later, k))
  {
    FindIdAt(rows, k);
    StepInv(rows, Revoke(rows[k].id, now));
    var (revoked, failure) := Step(rows, Revoke(rows[k].id, now));
    if failure.None? {
      ClosedStays(revoked, k, ops);
    }
  }

  /** A token or an id that no invitation has is not found, and nothing changes. */
  lemma UnknownIsNotFound(rows: seq<Invitation>, token: string, id: int, now: string)
    requires forall i :: 0 <= i < |rows| ==> rows[i].token != token && rows[i].id != id
    ensures Step(rows, Accept(token, now)) == (rows, Some(NotFound))
    ensures Step(rows, Revoke(id, now)) == (rows, Some(NotFound))
    ensures Step(rows, Resend(id, now)) == (rows, Some(NotFound))
  {
    var k, j := FindToken(rows, token), FindId(rows, id);
  }

  /** The clock texts of the resends of one invitation that succeed in a run. */
  function ResendTimes(rows: seq<Invitation>, ops: seq<Op>, id: int): seq<string>
    decreases |ops|
  {
    if ops == [] then []
    else
      var (after, failure) := Step(rows, ops[0]);
      (if ops[0].Resend? && ops[0].id == id && failure.None? then [ops[0].now] else [])
      + ResendTimes(after, ops[1..], id)
  }

  lemma ResendRecorded(rows: seq<Invitation>, k: nat, now: string)
    requires k < |rows| && FindId(rows, rows[k].id) == k
    ensures var (after, failure) := Step(rows, Resend(rows[k].id, now));
            var open := rows[k].acceptedAt.None? && rows[k].revokedAt.None?;
            && (failure.None? <==> open) && |after| == |rows|
            && (!open ==> after == rows)
            && (open ==> after[k].resendCount == rows[k].resendCount + 1
                         && after[k].lastResentAt == after[k].lastSentAt == Some(now))
  {
  }

  lemma OthersRecordNothing(rows: seq<Invitation>, op: Op, k: nat)
    requires k < |rows| && (op.Resend? ==> FindId(rows, op.id) != k)
    ensures var after := Step(rows, op).0;
            k < |after| && after[k].resendCount == rows[k].resendCount
            && after[k].lastResentAt == rows[k].lastResentAt && after[k].lastSentAt == rows[k].lastSentAt
  {
  }

  /** What a single operation does to the record of resends of the invitation at k. */
  lemma StepResends(rows: seq<Invitation>, op: Op, k: nat)
    requires Inv(rows) && k < |rows|
    ensures var (after, failure) := Step(rows, op);
            var open := rows[k].acceptedAt.None? && rows[k].revokedAt.None?;
            && k < |after|
            && (op.Resend? && op.id == rows[k].id ==> (failure.None? <==> open))
            && (if op.Resend? && op.id == rows[k].id && open
                then after[k].resendCount == rows[k].resendCount + 1
                     && after[k].lastResentAt == after[k].lastSentAt == Some(op.now)
                else after[k].resendCount == rows[k].resendCount
                     && after[k].lastResentAt == rows[k].lastResentAt && after[k].lastSentAt == rows[k].lastSentAt)
  {
    FindIdAt(rows, k);
    if op.Resend? && op.id == rows[k].id {
      ResendRecorded(rows, k, op.now);
    } else {
      OthersRecordNothing(rows, op, k);
    }
  }

  /**
    The count of an invitation grows by its successful resends, of which there is one for every call
    while it is open, and both times are that of the last one.
   */
  lemma {:induction false} ResendsAreRecorded(rows: seq<Invitation>, ops: seq<Op>, k: nat)
    requires Inv(rows) && AllFresh(rows, ops) && k < |rows|
    ensures var after := Run(rows, ops);
            var times := ResendTimes(rows, ops, rows[k].id);
            && k < |after| && after[k].resendCount == rows[k].resendCount + |times|
            && after[k].lastResentAt == (if times == [] then rows[k].lastResentAt else Some(times[|times| - 1]))
            && after[k].lastSentAt == (if times == [] then rows[k].lastSentAt else Some(times[|times| - 1]))
    decreases |ops|
  {
    if ops != [] {
      var after := Step(rows, ops[0]).0;
      StepInv(rows, ops[0]);
      StepResends(rows, ops[0], k);
      StepEvolves(rows, ops[0], k);
      ResendsAreRecorded(after, ops[1..], k);
    }
  }

  // ---------------------------------------------------------------- acceptance with an ISO clock text

  /**
    The accepting route reads its clock as an ISO text.  An invitation that is listed as pending is
    refused by it exactly from midnight of its last day on.
   */
  lemma ListedIsRefusedIff(rows: seq<Invitation>, i: Invitation, expires: DateTime, now: DateTime, fraction: string)
    requires Inv(rows) && Valid(expires) && Valid(now) && i.expiresAt == Render(expires)
    requires i in ListPending(rows, None, Render(now))
    ensures Step(rows, Accept(i.token, RenderIso(now, fraction))).1 == Some(Expired)
            <==> Instant(Midnight(expires)) <= Instant(now)
    ensures Step(rows, Accept(i.token, RenderIso(now, fraction))).1.None?
            <==> Instant(now) < Instant(Midnight(expires))
    ensures Instant(now) < Instant(expires)
  {
    FilterMembers(rows, (j: Invitation) => Pending(j, None, Render(now)));
    var k :| 0 <= k < |rows| && rows[k] == i;
    FindTokenAt(rows, k);
    ExpiredOnItsDay(expires, now, fraction);
    TextOrderIsTimeOrder(now, expires);
  }

  /** An open invitation whose expiry is itself an ISO text stays listed to the end of its last day. */
  lemma IsoExpiryListedIff(rows: seq<Invitation>, i: Invitation, expires: DateTime, now: DateTime, fraction: string)
    requires i in rows && IsOpen(i) && Valid(expires) && Valid(now) && i.expiresAt == RenderIso(expires, fraction)
    ensures i in ListPending(rows, None, Render(now)) <==> !DateLess(expires, now)
  {
    FilterMembers(rows, (j: Invitation) => Pending(j, None, Render(now)));
    ListedThroughItsDay(expires, now, fraction);
  }
}
