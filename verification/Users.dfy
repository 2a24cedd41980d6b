/**
  Login identifiers: no e-mail or username of one user may equal an e-mail or username of another,
  and a user created without a username is given a fresh one.
 */
module Users {
  import opened Wrappers
  import opened Ordering
  import opened Text

  datatype User = User(id: string, email: string, username: string)

  datatype Failure = Collision(identifier: string) | UserNotFound | NullIdentifier | DuplicateColumn | Ambiguous

  /** A field of a PATCH body, or of update's keyword arguments. */
  datatype Field = Unset | Null | Value(text: string)

  // ---------------------------------------------------------------- queries

  /** Some user other than `exclude` has this e-mail or username. */
  predicate Taken(users: seq<User>, identifier: string, exclude: Option<string>) {
    exists u :: u in users && exclude != Some(u.id) && (u.email == identifier || u.username == identifier)
  }

  /** validate_identifier_uniqueness: the first identifier that collides. */
  function Validate(users: seq<User>, email: string, username: string, exclude: Option<string>): Option<Failure> {
    if Taken(users, Normal(email), exclude) then Some(Collision(Normal(email)))
    else if Taken(users, Normal(username), exclude) then Some(Collision(Normal(username)))
    else None
  }

  /** scalar_one_or_none */
  function One(matches: seq<User>): Result<Option<User>, Failure> {
    if matches == [] then Ok(None) else if |matches| == 1 then Ok(Some(matches[0])) else Err(Ambiguous)
  }

  function GetByIdentifier(users: seq<User>, identifier: string): Result<Option<User>, Failure> {
    var ident := Normal(identifier);
    var byEmail := One(Filter(users, (u: User) => u.email == ident));
    if byEmail.Err? || byEmail.value.Some? then byEmail
    else One(Filter(users, (u: User) => u.username == ident))
  }

  /** The position of the user with this primary key, |users| if there is none. */
  function Find(users: seq<User>, id: string): (i: nat)
    ensures i <= |users| && (i < |users| ==> users[i].id == id)
    ensures forall j :: 0 <= j < i ==> users[j].id != id
  {
    FirstIndex(users, (u: User) => u.id == id)
  }

  // ---------------------------------------------------------------- fresh usernames

  function BeforeAt(email: string): string {
    if email == "" || email[0] == '@' then "" else [email[0]] + BeforeAt(email[1..])
  }

  /** slugify(local part) or slugify(full name) or "user" */
  function BaseName(email: string, fullName: string): string {
    if Slugify(BeforeAt(email)) != "" then Slugify(BeforeAt(email))
    else if Slugify(fullName) != "" then Slugify(fullName) else "user"
  }

  function Candidate(base: string, k: nat): string { if k == 0 then base else base + Dec(k) }

  /** The first k from which on the search stops; it never has to look beyond 2 * |users|. */
  function FirstFree(users: seq<User>, base: string, k: nat): nat
    decreases 2 * |users| + 1 - k
  {
    if k > 2 * |users| || !Taken(users, Candidate(base, k), None) then k else FirstFree(users, base, k + 1)
  }

  ghost predicate AllTaken(users: seq<User>, base: string, n: int) {
    forall k: nat :: k < n ==> Taken(users, Candidate(base, k), None)
  }

  function FreshUsername(users: seq<User>, base: string): string {
    Candidate(base, FirstFree(users, base, 0))
  }

  function Identifiers(users: seq<User>): set<string> {
    if users == [] then {} else {users[0].email, users[0].username} + Identifiers(users[1..])
  }

  lemma {:induction false} IdentifiersCount(users: seq<User>)
    ensures |Identifiers(users)| <= 2 * |users|
  {
    if users != [] {
      IdentifiersCount(users[1..]);
      var own := {users[0].email, users[0].username};
      assert |own| <= 2;
      assert |own + Identifiers(users[1..])| <= |own| + |Identifiers(users[1..])|;
    }
  }

  lemma TakenCons(users: seq<User>, x: string)
    requires users != []
    ensures Taken(users, x, None) <==> users[0].email == x || users[0].username == x || Taken(users[1..], x, None)
  {
    assert users == [users[0]] + users[1..];
    assert users[0] in users;
  }

  lemma {:induction false} IdentifiersTaken(users: seq<User>, x: string)
    ensures x in Identifiers(users) <==> Taken(users, x, None)
  {
    if users != [] {
      TakenCons(users, x);
      IdentifiersTaken(users[1..], x);
    }
  }

  lemma CandidatesDiffer(base: string, j: nat, k: nat)
    requires j != k
    ensures Candidate(base, j) != Candidate(base, k)
  {
    DecInjective(j, k);
    if j > 0 && k > 0 {
      assert (base + Dec(j))[|base|..] == Dec(j) && (base + Dec(k))[|base|..] == Dec(k);
    }
  }

  lemma TakenBound(users: seq<User>, base: string, n: nat)
    requires AllTaken(users, base, n)
    ensures n <= 2 * |users|
  {
    IdentifiersCount(users);
    forall k: nat | k < n ensures Candidate(base, k) in Identifiers(users) {
      IdentifiersTaken(users, Candidate(base, k));
    }
    forall j, k | 0 <= j < k < n ensures Candidate(base, j) != Candidate(base, k) {
      CandidatesDiffer(base, j, k);
    }
    Pigeonhole((k: nat) => Candidate(base, k), n, Identifiers(users));
  }

  lemma {:induction false} FirstFreeStops(users: seq<User>, base: string, k: nat)
    requires AllTaken(users, base, k)
    ensures k <= FirstFree(users, base, k) <= 2 * |users|
    ensures !Taken(users, Candidate(base, FirstFree(users, base, k)), None)
    ensures AllTaken(users, base, FirstFree(users, base, k))
    decreases 2 * |users| + 1 - k
  {
    TakenBound(users, base, k);
    if Taken(users, Candidate(base, k), None) {
      TakenBound(users, base, k + 1);
      FirstFreeStops(users, base, k + 1);
    }
  }

  lemma {:induction false} FirstFreeReached(users: seq<User>, base: string, j: nat, k: nat)
    requires j <= k && AllTaken(users, base, k) && !Taken(users, Candidate(base, k), None)
    ensures FirstFree(users, base, j) == k
    decreases k - j
  {
    if j < k {
      TakenBound(users, base, j + 1);
      FirstFreeReached(users, base, j + 1, k);
    }
  }

  /** Main result for the loop: the name found is fresh in both columns, and it is the first such candidate. */
  lemma FreshUsernameIsFresh(users: seq<User>, base: string)
    ensures !Taken(users, FreshUsername(users, base), None)
    ensures FirstFree(users, base, 0) <= 2 * |users|
    ensures AllTaken(users, base, FirstFree(users, base, 0))
  {
    FirstFreeStops(users, base, 0);
  }

  lemma BaseNameIsNormal(email: string, fullName: string)
    ensures forall i :: 0 <= i < |BaseName(email, fullName)| ==>
              BaseName(email, fullName)[i] == '-' || SlugChar(BaseName(email, fullName)[i])
  {
    SlugIsNormal(BeforeAt(email));
    SlugIsNormal(fullName);
  }

  /** Generated usernames are already normalised. */
  lemma CandidateIsNormal(email: string, fullName: string, k: nat)
    ensures Normal(Candidate(BaseName(email, fullName), k)) == Candidate(BaseName(email, fullName), k)
  {
    var name := Candidate(BaseName(email, fullName), k);
    BaseNameIsNormal(email, fullName);
    forall i | 0 <= i < |name| ensures name[i] == '-' || SlugChar(name[i]) {
      if k > 0 && i >= |BaseName(email, fullName)| {
        assert IsDigit(Dec(k)[i - |BaseName(email, fullName)|]);
      }
    }
    NormalOfTrimmed(name);
    assert Lower(name) == name;
  }

  // ---------------------------------------------------------------- operations

  datatype Op =
    | Create(newId: string, email: string, fullName: string, username: Option<string>)
    | UpdateProfile(id: string, emailField: Field, usernameField: Field)
    | Update(id: string, emailField: Field, usernameField: Field)

  function ChosenUsername(users: seq<User>, email: string, fullName: string, username: Option<string>): string {
    if username.None? then FreshUsername(users, BaseName(Normal(email), fullName)) else Normal(username.value)
  }

  /** PATCH /me: present fields are validated together with the stored ones and stored normalised. */
  function Patched(users: seq<User>, i: nat, email: Field, username: Field): (seq<User>, Option<Failure>)
    requires i < |users|
  {
    if email.Unset? && username.Unset? then (users, None)
    else if email.Null? || username.Null? then (users, Some(NullIdentifier))
    else
      var newEmail := if email.Value? then email.text else users[i].email;
      var newUsername := if username.Value? then username.text else users[i].username;
      match Validate(users, newEmail, newUsername, Some(users[i].id))
      case Some(e) => (users, Some(e))
      case None => (users[i := User(users[i].id, if email.Value? then Normal(email.text) else users[i].email,
                                    if username.Value? then Normal(username.text) else users[i].username)], None)
  }

  /** The UNIQUE constraints of the two columns. */
  predicate ColumnTaken(users: seq<User>, id: string, email: string, username: string) {
    exists u :: u in users && u.id != id && (u.email == email || u.username == username)
  }

  /** update: given values are validated normalised, but stored as given. */
  function Updated(users: seq<User>, i: nat, email: Field, username: Field): (seq<User>, Option<Failure>)
    requires i < |users|
  {
    var newEmail := if email.Value? then email.text else users[i].email;
    var newUsername := if username.Value? then username.text else users[i].username;
    var collision :=
      if email.Value? || username.Value? then Validate(users, newEmail, newUsername, Some(users[i].id)) else None;
    if collision.Some? then (users, collision)
    else if email.Null? || username.Null? then (users, Some(NullIdentifier))
    else if ColumnTaken(users, users[i].id, newEmail, newUsername) then (users, Some(DuplicateColumn))
    else (users[i := User(users[i].id, newEmail, newUsername)], None)
  }

  function Step(users: seq<User>, op: Op): (seq<User>, Option<Failure>) {
    match op
    case Create(newId, email, fullName, username) =>
      var name := ChosenUsername(users, email, fullName, username);
      (match Validate(users, Normal(email), name, None)
       case Some(e) => (users, Some(e))
       case None => (users + [User(newId, Normal(email), name)], None))
    case UpdateProfile(id, email, username) =>
      var i := Find(users, id);
      if i == |users| then (users, Some(UserNotFound)) else Patched(users, i, email, username)
    case Update(id, email, username) =>
      var i := Find(users, id);
      if i == |users| then (users, Some(UserNotFound)) else Updated(users, i, email, username)
  }

  class UserRepository {
    var users: seq<User>

    constructor ()
      ensures users == []
    {
      users := [];
    }

    /** The search loop of _build_unique_username; it ends after at most 2 * |users| + 1 candidates. */
    method BuildUniqueUsername(email: string, fullName: string) returns (username: string)
      ensures username == FreshUsername(users, BaseName(email, fullName))
    {
      var base := BaseName(email, fullName);
      username := base;
      var counter := 1;
      while Taken(users, username, None)
        invariant counter >= 1 && username == Candidate(base, counter - 1)
        invariant AllTaken(users, base, counter - 1)
        decreases 2 * |users| - counter
      {
        TakenBound(users, base, counter);
        username := base + Dec(counter);
        counter := counter + 1;
      }
      FirstFreeReached(users, base, 0, counter - 1);
    }

    method CreateUser(newId: string, email: string, fullName: string, username: Option<string>)
      returns (failure: Option<Failure>)
      modifies this
      ensures (users, failure) == Step(old(users), Create(newId, email, fullName, username))
    {
      var mail := Strip(Lower(email));
      LowerThenStrip(email);
      var name;
      if username.None? {
        name := BuildUniqueUsername(mail, fullName);
      } else {
        name := Strip(Lower(username.value));
        LowerThenStrip(username.value);
      }
      failure := Validate(users, mail, name, None);
      if failure.None? {
        users := users + [User(newId, mail, name)];
      }
    }

    method PatchProfile(id: string, email: Field, username: Field) returns (failure: Option<Failure>)
      modifies this
      ensures (users, failure) == Step(old(users), UpdateProfile(id, email, username))
    {
      var i := Find(users, id);
      if i == |users| {
        return Some(UserNotFound);
      }
      if email.Unset? && username.Unset? {
        return None;
      }
      if email.Null? || username.Null? {
        return Some(NullIdentifier);
      }
      var newEmail := if email.Value? then email.text else users[i].email;
      var newUsername := if username.Value? then username.text else users[i].username;
      failure := Validate(users, newEmail, newUsername, Some(users[i].id));
      if failure.Some? {
        return;
      }
      if email.Value? {
        users := users[i := users[i].(email := Normal(newEmail))];
      }
      if username.Value? {
        users := users[i := users[i].(username := Normal(newUsername))];
      }
      assert users == Patched(old(users), i, email, username).0;
    }

    method UpdateUser(id: string, email: Field, username: Field) returns (failure: Option<Failure>)
      modifies this
      ensures (users, failure) == Step(old(users), Update(id, email, username))
    {
      var i := Find(users, id);
      if i == |users| {
        return Some(UserNotFound);
      }
      var newEmail := if email.Value? then email.text else users[i].email;
      var newUsername := if username.Value? then username.text else users[i].username;
      if email.Value? || username.Value? {
        failure := Validate(users, newEmail, newUsername, Some(users[i].id));
        if failure.Some? {
          return;
        }
      }
      failure := Flush(i, email.Null? || username.Null?, newEmail, newUsername);
    }

    /** Writing a row: the database refuses NULL and a value that its column already has elsewhere. */
    method Flush(i: nat, hasNull: bool, email: string, username: string) returns (failure: Option<Failure>)
      requires i < |users|
      modifies this
      ensures failure == if hasNull then Some(NullIdentifier)
                         else if ColumnTaken(old(users), old(users)[i].id, email, username) then Some(DuplicateColumn)
                         else None
      ensures users == if failure.Some? then old(users) else old(users)[i := User(old(users)[i].id, email, username)]
    {
      if hasNull {
        return Some(NullIdentifier);
      }
      if exists u :: u in users && u.id != users[i].id && (u.email == email || u.username == username) {
        return Some(DuplicateColumn);
      }
      users := users[i := users[i].(email := email, username := username)];
      failure := None;
    }
  }

  // ---------------------------------------------------------------- the invariant

  ghost predicate Disjoint(a: User, b: User) {
    a.email != b.email && a.email != b.username && a.username != b.email && a.username != b.username
  }

  ghost predicate Normalised(u: User) {
    Normal(u.email) == u.email && Normal(u.username) == u.username
  }

  /** Two users may share an identifier only across columns, and only one that no lookup asks for. */
  ghost predicate Separate(a: User, b: User) {
    && a.email != b.email && a.username != b.username
    && (a.email == b.username ==> Normal(a.email) != a.email)
    && (a.username == b.email ==> Normal(a.username) != a.username)
  }

  ghost predicate Inv(users: seq<User>) {
    && (forall i, j :: 0 <= i < j < |users| ==> users[i].id != users[j].id)
    && (forall i, j :: 0 <= i < |users| && 0 <= j < |users| && i != j ==> Separate(users[i], users[j]))
  }

  /** All identifiers of two users differ, in either column. */
  ghost predicate Apart(users: seq<User>) {
    forall i, j :: 0 <= i < |users| && 0 <= j < |users| && i != j ==> Disjoint(users[i], users[j])
  }

  ghost predicate FreshId(users: seq<User>, op: Op) {
    op.Create? ==> forall u :: u in users ==> u.id != op.newId
  }

  /** The identifier is not one that a lookup can ask for, or nobody else has it. */
  ghost predicate Harmless(users: seq<User>, identifier: string, exclude: Option<string>) {
    Normal(identifier) == identifier ==> !Taken(users, identifier, exclude)
  }

  lemma AppendInv(users: seq<User>, v: User)
    requires Inv(users) && !Taken(users, v.email, None) && !Taken(users, v.username, None)
    requires forall u :: u in users ==> u.id != v.id
    ensures Inv(users + [v]) && (Apart(users) ==> Apart(users + [v]))
  {
    forall i | 0 <= i < |users| ensures Disjoint(users[i], v) && Disjoint(v, users[i]) {
      assert users[i] in users;
    }
  }

  lemma ReplaceInv(users: seq<User>, i: nat, v: User)
    requires Inv(users) && i < |users| && v.id == users[i].id && !ColumnTaken(users, v.id, v.email, v.username)
    requires Harmless(users, v.email, Some(v.id)) && Harmless(users, v.username, Some(v.id))
    ensures Inv(users[i := v])
  {
    forall j | 0 <= j < |users| && j != i ensures Separate(users[j], v) && Separate(v, users[j]) {
      assert users[j] in users;
      assert users[j].id != users[i].id;
    }
  }

  lemma ReplaceApart(users: seq<User>, i: nat, v: User)
    requires Inv(users) && Apart(users) && i < |users| && v.id == users[i].id
    ensures Apart(users[i := v]) <==> !Taken(users, v.email, Some(v.id)) && !Taken(users, v.username, Some(v.id))
  {
    var after := users[i := v];
    if Apart(after) {
      forall u | u in users && u.id != v.id ensures Disjoint(u, v) {
        var j :| 0 <= j < |users| && users[j] == u;
        assert Disjoint(after[j], after[i]);
      }
    }
    if !Taken(users, v.email, Some(v.id)) && !Taken(users, v.username, Some(v.id)) {
      forall j | 0 <= j < |users| && j != i ensures Disjoint(users[j], v) && Disjoint(v, users[j]) {
        assert users[j] in users;
        assert users[j].id != users[i].id;
      }
    }
  }

  /** A user's own identifiers belong to nobody else, as far as they are unique in their columns. */
  lemma OwnColumns(users: seq<User>, i: nat)
    requires Inv(users) && i < |users|
    ensures forall u :: u in users && u.id != users[i].id
                        ==> u.email != users[i].email && u.username != users[i].username
  {
    forall u | u in users && u.id != users[i].id ensures u.email != users[i].email && u.username != users[i].username {
      var j :| 0 <= j < |users| && users[j] == u;
      assert Separate(users[j], users[i]);
    }
  }

  // ---------------------------------------------------------------- every operation keeps it

  lemma CreateAppends(users: seq<User>, op: Op)
    requires op.Create? && Step(users, op).1.None?
    ensures var v := User(op.newId, Normal(op.email), ChosenUsername(users, op.email, op.fullName, op.username));
            Step(users, op).0 == users + [v] && !Taken(users, v.email, None) && !Taken(users, v.username, None)
  {
    NormalIdempotent(op.email);
    if op.username.None? {
      CandidateIsNormal(Normal(op.email), op.fullName, FirstFree(users, BaseName(Normal(op.email), op.fullName), 0));
    } else {
      NormalIdempotent(op.username.value);
    }
  }

  lemma CreateInv(users: seq<User>, op: Op)
    requires Inv(users) && FreshId(users, op) && op.Create?
    ensures Inv(Step(users, op).0) && (Apart(users) ==> Apart(Step(users, op).0))
  {
    if Step(users, op).1.None? {
      CreateAppends(users, op);
      AppendInv(users, User(op.newId, Normal(op.email), ChosenUsername(users, op.email, op.fullName, op.username)));
    }
  }

  /** What a changed profile holds: each field normalised and validated, or as it was and validated. */
  lemma PatchedRow(users: seq<User>, i: nat, email: Field, username: Field)
    requires i < |users| && Patched(users, i, email, username).1.None? && Patched(users, i, email, username).0 != users
    ensures var v := Patched(users, i, email, username).0[i];
            && Patched(users, i, email, username).0 == users[i := v] && v.id == users[i].id
            && (v.email == users[i].email || !Taken(users, v.email, Some(v.id)))
            && (v.username == users[i].username || !Taken(users, v.username, Some(v.id)))
            && Harmless(users, v.email, Some(v.id)) && Harmless(users, v.username, Some(v.id))
  {
    if email.Value? { NormalIdempotent(email.text); }
    if username.Value? { NormalIdempotent(username.text); }
  }

  lemma ProfileInv(users: seq<User>, op: Op)
    requires Inv(users) && op.UpdateProfile?
    ensures Inv(Step(users, op).0) && (Apart(users) ==> Apart(Step(users, op).0))
  {
    var i := Find(users, op.id);
    var (after, failure) := Step(users, op);
    if i < |users| && failure.None? && after != users {
      PatchedRow(users, i, op.emailField, op.usernameField);
      OwnColumns(users, i);
      ReplaceInv(users, i, after[i]);
      if Apart(users) {
        OwnIsFree(users, i);
        ReplaceApart(users, i, after[i]);
      }
    }
  }

  lemma OwnIsFree(users: seq<User>, i: nat)
    requires Inv(users) && Apart(users) && i < |users|
    ensures !Taken(users, users[i].email, Some(users[i].id)) && !Taken(users, users[i].username, Some(users[i].id))
  {
    forall u | u in users && u.id != users[i].id ensures Disjoint(u, users[i]) {
      var j :| 0 <= j < |users| && users[j] == u;
      assert Disjoint(users[j], users[i]);
    }
  }

  lemma UpdatedRow(users: seq<User>, i: nat, email: Field, username: Field)
    requires i < |users| && Updated(users, i, email, username).1.None? && (email.Value? || username.Value?)
    ensures var v := User(users[i].id, if email.Value? then email.text else users[i].email,
                          if username.Value? then username.text else users[i].username);
            && Updated(users, i, email, username).0 == users[i := v]
            && !ColumnTaken(users, v.id, v.email, v.username)
            && Harmless(users, v.email, Some(v.id)) && Harmless(users, v.username, Some(v.id))
  {
  }

  lemma UpdateInv(users: seq<User>, op: Op)
    requires Inv(users) && op.Update?
    ensures Inv(Step(users, op).0)
  {
    var i := Find(users, op.id);
    var (after, failure) := Step(users, op);
    if i < |users| && failure.None? {
      if op.emailField.Value? || op.usernameField.Value? {
        UpdatedRow(users, i, op.emailField, op.usernameField);
        ReplaceInv(users, i, after[i]);
      } else {
        assert after == users;
      }
    }
  }

  lemma StepInv(users: seq<User>, op: Op)
    requires Inv(users) && FreshId(users, op)
    ensures Inv(Step(users, op).0)
  {
    match op
    case Create(_, _, _, _) => CreateInv(users, op);
    case UpdateProfile(_, _, _) => ProfileInv(users, op);
    case Update(_, _, _) => UpdateInv(users, op);
  }

  function Run(users: seq<User>, ops: seq<Op>): seq<User>
    decreases |ops|
  {
    if ops == [] then users else Run(Step(users, ops[0]).0, ops[1..])
  }

  /** New ids are new; nothing else is asked of a run. */
  ghost predicate FreshIds(users: seq<User>, ops: seq<Op>)
    decreases |ops|
  {
    ops != [] ==> FreshId(users, ops[0]) && FreshIds(Step(users, ops[0]).0, ops[1..])
  }

  /** Main result: in every run two users share no identifier that a lookup can ask for. */
  lemma {:induction false} RunInv(users: seq<User>, ops: seq<Op>)
    requires Inv(users) && FreshIds(users, ops)
    ensures Inv(Run(users, ops))
    decreases |ops|
  {
    if ops != [] {
      StepInv(users, ops[0]);
      RunInv(Step(users, ops[0]).0, ops[1..]);
    }
  }

  // ---------------------------------------------------------------- lookup

  /** At most one row of the table satisfies p, so the query finds exactly that row. */
  lemma {:induction false} OneMatch(users: seq<User>, p: User -> bool)
    requires forall i, j :: 0 <= i < j < |users| ==> !(p(users[i]) && p(users[j]))
    ensures One(Filter(users, p)).Ok?
    ensures forall u :: One(Filter(users, p)) == Ok(Some(u)) <==> u in users && p(u)
  {
    if users != [] {
      OneMatch(users[1..], p);
      if p(users[0]) {
        forall x | x in users[1..] ensures !p(x) { }
        FilterNothing(users[1..], p);
      }
    }
  }

  /** A normalised identifier belongs to at most one user. */
  lemma OneOwner(users: seq<User>, ident: string, i: nat, j: nat)
    requires Inv(users) && Normal(ident) == ident && i < |users| && j < |users|
    requires users[i].email == ident || users[i].username == ident
    requires users[j].email == ident || users[j].username == ident
    ensures i == j
  {
    assert i != j ==> Separate(users[i], users[j]);
  }

  /**
    Main result: after any run lookup by identifier is unambiguous, and returns u exactly if the
    normalised identifier is u's e-mail or username.
   */
  lemma LookupExact(users: seq<User>, identifier: string)
    requires Inv(users)
    ensures GetByIdentifier(users, identifier).Ok?
    ensures forall u :: GetByIdentifier(users, identifier) == Ok(Some(u))
                        <==> u in users && (u.email == Normal(identifier) || u.username == Normal(identifier))
  {
    var ident := Normal(identifier);
    NormalIdempotent(identifier);
    var email, username := (u: User) => u.email == ident, (u: User) => u.username == ident;
    forall i, j | 0 <= i < j < |users|
      ensures !(email(users[i]) && email(users[j])) && !(username(users[i]) && username(users[j]))
    {
      assert Separate(users[i], users[j]);
    }
    OneMatch(users, email);
    OneMatch(users, username);
    forall u, v | u in users && v in users && email(u) && username(v) ensures u == v {
      var i :| 0 <= i < |users| && users[i] == u;
      var j :| 0 <= j < |users| && users[j] == v;
      OneOwner(users, ident, i, j);
    }
  }

  /** A stored identifier leads back to its owner exactly if its normalised form is one of the owner's two. */
  lemma OwnIdentifierFindsIff(users: seq<User>, u: User, identifier: string)
    requires Inv(users) && u in users && (identifier == u.email || identifier == u.username)
    ensures GetByIdentifier(users, identifier) == Ok(Some(u))
            <==> Normal(identifier) == u.email || Normal(identifier) == u.username
  {
    LookupExact(users, identifier);
  }

  /** Creating a user without a username can fail only on the e-mail. */
  lemma CreateFailsOnlyOnEmail(users: seq<User>, newId: string, email: string, fullName: string)
    ensures Step(users, Create(newId, email, fullName, None)).1
            == if Taken(users, Normal(email), None) then Some(Collision(Normal(email))) else None
  {
    var base := BaseName(Normal(email), fullName);
    NormalIdempotent(email);
    FreshUsernameIsFresh(users, base);
    CandidateIsNormal(Normal(email), fullName, FirstFree(users, base, 0));
  }

  // ---------------------------------------------------------------- when identifiers stay apart

  /** The values an update is given are, as they stand, nobody else's. */
  ghost predicate RawFree(users: seq<User>, op: Op) {
    op.Update? && Step(users, op).1.None? ==>
      && (op.emailField.Value? ==> !Taken(users, op.emailField.text, Some(op.id)))
      && (op.usernameField.Value? ==> !Taken(users, op.usernameField.text, Some(op.id)))
  }

  ghost predicate AllRawFree(users: seq<User>, ops: seq<Op>)
    decreases |ops|
  {
    ops != [] ==> RawFree(users, ops[0]) && AllRawFree(Step(users, ops[0]).0, ops[1..])
  }

  ghost predicate StaysApart(users: seq<User>, ops: seq<Op>)
    decreases |ops|
  {
    Apart(users) && (ops != [] ==> StaysApart(Step(users, ops[0]).0, ops[1..]))
  }

  /** A successful update keeps all identifiers apart exactly if the values given are nobody else's. */
  lemma UpdateKeepsApartIff(users: seq<User>, op: Op)
    requires Inv(users) && Apart(users) && op.Update?
    ensures Apart(Step(users, op).0) <==> RawFree(users, op)
  {
    var i := Find(users, op.id);
    if i < |users| && Step(users, op).1.None? && (op.emailField.Value? || op.usernameField.Value?) {
      UpdatedRow(users, i, op.emailField, op.usernameField);
      OwnIsFree(users, i);
      ReplaceApart(users, i, Step(users, op).0[i]);
    }
  }

  lemma StepApartIff(users: seq<User>, op: Op)
    requires Inv(users) && Apart(users) && FreshId(users, op)
    ensures Apart(Step(users, op).0) <==> RawFree(users, op)
  {
    match op
    case Create(_, _, _, _) => CreateInv(users, op);
    case UpdateProfile(_, _, _) => ProfileInv(users, op);
    case Update(_, _, _) => UpdateKeepsApartIff(users, op);
  }

  /** Main result: a run keeps all identifiers apart exactly if every update is given values nobody else has. */
  lemma {:induction false} RunApartIff(users: seq<User>, ops: seq<Op>)
    requires Inv(users) && Apart(users) && FreshIds(users, ops)
    ensures StaysApart(users, ops) <==> AllRawFree(users, ops)
    decreases |ops|
  {
    if ops != [] {
      StepInv(users, ops[0]);
      StepApartIff(users, ops[0]);
      if RawFree(users, ops[0]) {
        RunApartIff(Step(users, ops[0]).0, ops[1..]);
      }
    }
  }

  ghost predicate GivenNormalised(op: Op) {
    op.Update? ==>
      && (op.emailField.Value? ==> Normal(op.emailField.text) == op.emailField.text)
      && (op.usernameField.Value? ==> Normal(op.usernameField.text) == op.usernameField.text)
  }

  /** Normalised values are such values, because it is the normalised form that is validated. */
  lemma NormalisedIsRawFree(users: seq<User>, op: Op)
    requires GivenNormalised(op)
    ensures RawFree(users, op)
  {
    if op.Update? && Step(users, op).1.None? {
      var i := Find(users, op.id);
      if i < |users| && (op.emailField.Value? || op.usernameField.Value?) {
        UpdatedRow(users, i, op.emailField, op.usernameField);
      }
    }
  }

  ghost predicate AllNormalised(users: seq<User>) {
    forall u :: u in users ==> Normalised(u)
  }

  lemma ReplaceNormalised(users: seq<User>, i: nat, v: User)
    requires AllNormalised(users) && i < |users| && Normalised(v)
    ensures AllNormalised(users[i := v])
  {
    forall u | u in users[i := v] ensures Normalised(u) {
      var j :| 0 <= j < |users| && users[i := v][j] == u;
      assert j != i ==> users[j] in users;
    }
  }

  lemma NewRowNormalised(users: seq<User>, op: Op)
    requires op.Create?
    ensures Normalised(User(op.newId, Normal(op.email), ChosenUsername(users, op.email, op.fullName, op.username)))
  {
    NormalIdempotent(op.email);
    if op.username.None? {
      CandidateIsNormal(Normal(op.email), op.fullName, FirstFree(users, BaseName(Normal(op.email), op.fullName), 0));
    } else {
      NormalIdempotent(op.username.value);
    }
  }

  lemma PatchedNormalised(users: seq<User>, i: nat, email: Field, username: Field)
    requires i < |users| && Normalised(users[i])
    ensures Normalised(Patched(users, i, email, username).0[i])
  {
    if email.Value? { NormalIdempotent(email.text); }
    if username.Value? { NormalIdempotent(username.text); }
  }

  lemma CreateNormalised(users: seq<User>, op: Op)
    requires AllNormalised(users) && op.Create?
    ensures AllNormalised(Step(users, op).0)
  {
    NewRowNormalised(users, op);
    if Step(users, op).1.None? {
      CreateAppends(users, op);
    }
  }

  lemma ProfileNormalised(users: seq<User>, op: Op)
    requires AllNormalised(users) && op.UpdateProfile?
    ensures AllNormalised(Step(users, op).0)
  {
    var i := Find(users, op.id);
    var (after, failure) := Step(users, op);
    if i < |users| && failure.None? && after != users {
      assert users[i] in users;
      PatchedRow(users, i, op.emailField, op.usernameField);
      PatchedNormalised(users, i, op.emailField, op.usernameField);
      ReplaceNormalised(users, i, after[i]);
    }
  }

  lemma UpdateNormalised(users: seq<User>, op: Op)
    requires AllNormalised(users) && GivenNormalised(op) && op.Update?
    ensures AllNormalised(Step(users, op).0)
  {
    var i := Find(users, op.id);
    var (after, failure) := Step(users, op);
    if i < |users| && failure.None? && (op.emailField.Value? || op.usernameField.Value?) {
      assert users[i] in users;
      UpdatedRow(users, i, op.emailField, op.usernameField);
      ReplaceNormalised(users, i, after[i]);
    }
  }

  lemma StepNormalised(users: seq<User>, op: Op)
    requires AllNormalised(users) && GivenNormalised(op)
    ensures AllNormalised(Step(users, op).0)
  {
    match op
    case Create(_, _, _, _) => CreateNormalised(users, op);
    case UpdateProfile(_, _, _) => ProfileNormalised(users, op);
    case Update(_, _, _) => UpdateNormalised(users, op);
  }

  /** Main result: if updates are given normalised values, every user is found under either identifier. */
  lemma {:induction false} NormalisedRun(users: seq<User>, ops: seq<Op>)
    requires Inv(users) && Apart(users) && AllNormalised(users) && FreshIds(users, ops)
    requires forall op :: op in ops ==> GivenNormalised(op)
    ensures StaysApart(users, ops)
    ensures var after := Run(users, ops);
            forall u :: u in after
                        ==> GetByIdentifier(after, u.email) == GetByIdentifier(after, u.username) == Ok(Some(u))
    decreases |ops|
  {
    if ops == [] {
      forall u | u in users
        ensures GetByIdentifier(users, u.email) == GetByIdentifier(users, u.username) == Ok(Some(u))
      {
        LookupExact(users, u.email);
        LookupExact(users, u.username);
      }
    } else {
      assert ops[0] in ops;
      StepInv(users, ops[0]);
      NormalisedIsRawFree(users, ops[0]);
      StepApartIff(users, ops[0]);
      StepNormalised(users, ops[0]);
      NormalisedRun(Step(users, ops[0]).0, ops[1..]);
    }
  }

  // ---------------------------------------------------------------- updates with other values

  /** Two updates that both succeed give one user the e-mail "X" and another the username "X"; no lookup finds it. */
  lemma UpdatesCollide()
    ensures var users := [User("1", "a", "c"), User("2", "b", "d")];
            var (once, first) := Step(users, Update("1", Value("X"), Unset));
            var (twice, second) := Step(once, Update("2", Unset, Value("X")));
            && Inv(users) && Apart(users) && first.None? && second.None?
            && twice == [User("1", "X", "c"), User("2", "b", "X")] && !Apart(twice)
            && GetByIdentifier(twice, "X") == Ok(None)
  {
    TwoApart(User("1", "a", "c"), User("2", "b", "d"));
    SingleLetters();
    EmailTaken(User("1", "a", "c"), User("2", "b", "d"), "X");
    UsernameTaken(User("1", "X", "c"), User("2", "b", "d"), "X");
    TwoApart(User("1", "X", "c"), User("2", "b", "X"));
    NobodyFound([User("1", "X", "c"), User("2", "b", "X")]);
  }

  lemma TwoApart(a: User, b: User)
    requires a.id != b.id && a.email != b.email && a.username != b.username && a.username != b.email
    ensures Apart([a, b]) <==> a.email != b.username
    ensures a.email != b.username ==> Inv([a, b])
  {
    var users := [a, b];
    if Apart(users) {
      assert Disjoint(users[0], users[1]);
    }
  }

  lemma NobodyFound(users: seq<User>)
    requires forall u :: u in users ==> u.email != "x" && u.username != "x"
    ensures GetByIdentifier(users, "X") == Ok(None)
  {
    SingleLetters();
    FilterNothing(users, (u: User) => u.email == Normal("X"));
    FilterNothing(users, (u: User) => u.username == Normal("X"));
  }

  /** Of two users the first takes an e-mail that the second does not have, in either form. */
  lemma EmailTaken(a: User, b: User, email: string)
    requires a.id != b.id && email != b.email && a.username != b.username
    requires Normal(email) != b.email && Normal(email) != b.username
    requires Normal(a.username) != b.email && Normal(a.username) != b.username
    ensures Step([a, b], Update(a.id, Value(email), Unset)) == ([User(a.id, email, a.username), b], None)
  {
    var users := [a, b];
    assert Find(users, a.id) == 0;
    assert users[0 := User(a.id, email, a.username)] == [User(a.id, email, a.username), b];
  }

  lemma UsernameTaken(a: User, b: User, username: string)
    requires a.id != b.id && username != a.username && a.email != b.email
    requires Normal(username) != a.email && Normal(username) != a.username
    requires Normal(b.email) != a.email && Normal(b.email) != a.username
    ensures Step([a, b], Update(b.id, Unset, Value(username))) == ([a, User(b.id, b.email, username)], None)
  {
    var users := [a, b];
    assert Find(users, b.id) == 1;
    assert users[1 := User(b.id, b.email, username)] == [a, User(b.id, b.email, username)];
  }

  lemma SingleLetters()
    ensures Normal("X") == "x" && Normal("b") == "b" && Normal("c") == "c"
  {
    assert Lower("X") == "x" && Lower("b") == "b" && Lower("c") == "c";
  }

  /**
    An e-mail stored as given finds nobody, and its normalised form stays free for another
    account, which that lookup will then return.
   */
  lemma UnnormalisedEmailIsUnreachable(users: seq<User>, id: string, email: string)
    requires Inv(users) && Find(users, id) < |users|
    requires Normal(email) != email && Normal(email) != users[Find(users, id)].username
    requires Step(users, Update(id, Value(email), Unset)).1.None?
    ensures var after := Step(users, Update(id, Value(email), Unset)).0;
            && after[Find(users, id)].email == email
            && GetByIdentifier(after, email) == Ok(None)
            && !Taken(after, Normal(email), None)
  {
    var i := Find(users, id);
    var after := Step(users, Update(id, Value(email), Unset)).0;
    UpdatedRow(users, i, Value(email), Unset);
    NobodyHas(users, i, after[i], Normal(email));
    FilterNothing(after, (u: User) => u.email == Normal(email));
    FilterNothing(after, (u: User) => u.username == Normal(email));
  }

  lemma NobodyHas(users: seq<User>, i: nat, v: User, ident: string)
    requires Inv(users) && i < |users| && v.id == users[i].id
    requires !Taken(users, ident, Some(v.id)) && v.email != ident && v.username != ident
    ensures forall u :: u in users[i := v] ==> u.email != ident && u.username != ident
  {
    forall u | u in users[i := v] ensures u.email != ident && u.username != ident {
      var j :| 0 <= j < |users| && users[i := v][j] == u;
      assert j != i ==> users[j] in users && users[j].id != users[i].id;
    }
  }
}
