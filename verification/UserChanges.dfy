/** What a successful change of a user stores, when a change is refused, and which username is generated. */
module UserChanges {
  import opened Wrappers
  import opened Ordering
  import opened Text
  import opened Users

  // ---------------------------------------------------------------- the generated username

  /** A text has a slug exactly if it has a letter or digit. */
  lemma SlugEmptyIff(s: string)
    ensures Slugify(s) == "" <==> Letters(s) == ""
  {
    SlugKeepsLetters(s);
    if Slugify(s) != "" {
      assert Slugify(s)[0] != '-';
      SlugIsNormal(s);
      assert SlugChar(Slugify(s)[0]);
    }
  }

  lemma {:induction false} BeforeAtIs(local: string, rest: string)
    requires '@' !in local && (rest != "" ==> rest[0] == '@')
    ensures BeforeAt(local + rest) == local
  {
    if local == "" {
      assert local + rest == rest;
    } else {
      assert (local + rest)[1..] == local[1..] + rest;
      BeforeAtIs(local[1..], rest);
    }
  }

  /** Somebody, other than the user with this id if one is named, has x as e-mail or username. */
  ghost predicate HeldByOther(users: seq<User>, id: Option<string>, x: string) {
    exists u :: u in users && Some(u.id) != id && (u.email == x || u.username == x)
  }

  /** `name` is the first of base, base1, base2, ... that nobody has as e-mail or username. */
  ghost predicate FirstFreeName(users: seq<User>, base: string, name: string) {
    exists k: nat :: name == (if k == 0 then base else base + Dec(k)) && !HeldByOther(users, None, name)
                     && forall j: nat :: j < k ==> HeldByOther(users, None, if j == 0 then base else base + Dec(j))
  }

  lemma FreshIsFirstFree(users: seq<User>, base: string)
    ensures FirstFreeName(users, base, FreshUsername(users, base))
  {
    var n := FirstFree(users, base, 0);
    var name := FreshUsername(users, base);
    FreshUsernameIsFresh(users, base);
    forall j: nat | j < n ensures HeldByOther(users, None, if j == 0 then base else base + Dec(j)) {
      assert Taken(users, Candidate(base, j), None);
    }
    assert name == (if n == 0 then base else base + Dec(n)) && !HeldByOther(users, None, name);
  }

  /**
    A user created without a username gets the first free name from the slug of the address's local
    part, or of the full name if the local part has no letter or digit, or from "user".
   */
  lemma GeneratedUsername(users: seq<User>, newId: string, email: string, fullName: string,
                          local: string, rest: string)
    requires Normal(email) == local + rest && '@' !in local && (rest != "" ==> rest[0] == '@')
    requires !HeldByOther(users, None, Normal(email))
    ensures var (after, failure) := Step(users, Create(newId, email, fullName, None));
            && failure == None && |after| == |users| + 1 && after[..|users|] == users
            && var u := after[|users|];
               && u.id == newId && u.email == Normal(email)
               && (Letters(local) != "" ==> FirstFreeName(users, Slugify(local), u.username))
               && (Letters(local) == "" && Letters(fullName) != ""
                   ==> FirstFreeName(users, Slugify(fullName), u.username))
               && (Letters(local) == "" && Letters(fullName) == "" ==> FirstFreeName(users, "user", u.username))
  {
    BeforeAtIs(local, rest);
    SlugEmptyIff(local);
    SlugEmptyIff(fullName);
    CreateFailsOnlyOnEmail(users, newId, email, fullName);
    FreshIsFirstFree(users, BaseName(Normal(email), fullName));
  }

  // ---------------------------------------------------------------- what is stored, and what is refused

  /** The e-mail is looked at before the username. */
  ghost predicate Collides(users: seq<User>, id: Option<string>, email: string, username: string,
                           failure: Option<Failure>)
  {
    if HeldByOther(users, id, email) then failure == Some(Collision(email))
    else HeldByOther(users, id, username) && failure == Some(Collision(username))
  }

  ghost predicate NoneHeld(users: seq<User>, id: Option<string>, email: string, username: string) {
    !HeldByOther(users, id, email) && !HeldByOther(users, id, username)
  }

  /** A user created with a username is added with both identifiers normalised, unless one of them is held. */
  lemma CreatedIs(users: seq<User>, newId: string, email: string, fullName: string, username: string)
    ensures var (after, failure) := Step(users, Create(newId, email, fullName, Some(username)));
            if NoneHeld(users, None, Normal(email), Normal(username))
            then failure == None && after == users + [User(newId, Normal(email), Normal(username))]
            else after == users && Collides(users, None, Normal(email), Normal(username), failure)
  {
    NormalIdempotent(email);
    NormalIdempotent(username);
  }

  /** The position of a user is found by the primary key. */
  lemma FindAt(users: seq<User>, i: nat)
    requires i < |users| && forall j, k :: 0 <= j < k < |users| ==> users[j].id != users[k].id
    ensures Find(users, users[i].id) == i
  {
    assert Find(users, users[i].id) <= i;
  }

  function GivenOr(field: Field, stored: string): string { if field.Value? then field.text else stored }

  /**
    PATCH /me: a null is refused; otherwise the normalised values, stored ones where a field is not
    given, must be nobody else's, and the fields given are stored normalised, the others untouched.
   */
  lemma PatchedIs(users: seq<User>, i: nat, email: Field, username: Field)
    requires Inv(users) && i < |users|
    ensures var u := users[i];
            var (after, failure) := Step(users, UpdateProfile(u.id, email, username));
            var (mail, name) := (Normal(GivenOr(email, u.email)), Normal(GivenOr(username, u.username)));
            if email.Unset? && username.Unset? then (after, failure) == (users, None)
            else if email.Null? || username.Null? then (after, failure) == (users, Some(NullIdentifier))
            else if !NoneHeld(users, Some(u.id), mail, name)
            then after == users && Collides(users, Some(u.id), mail, name, failure)
            else && failure == None && |after| == |users|
                 && (forall j :: 0 <= j < |users| && j != i ==> after[j] == users[j])
                 && after[i].id == u.id
                 && after[i].email == (if email.Unset? then u.email else mail)
                 && after[i].username == (if username.Unset? then u.username else name)
  {
    FindAt(users, i);
  }

  /** update: validated in the same way, but stored as given; the columns' own constraints come last. */
  lemma UpdatedIs(users: seq<User>, i: nat, email: Field, username: Field)
    requires Inv(users) && i < |users|
    ensures var u := users[i];
            var (after, failure) := Step(users, Update(u.id, email, username));
            var (mail, name) := (GivenOr(email, u.email), GivenOr(username, u.username));
            if (email.Value? || username.Value?) && !NoneHeld(users, Some(u.id), Normal(mail), Normal(name))
            then after == users && Collides(users, Some(u.id), Normal(mail), Normal(name), failure)
            else if email.Null? || username.Null? then (after, failure) == (users, Some(NullIdentifier))
            else if exists v :: v in users && v.id != u.id && (v.email == mail || v.username == name)
            then (after, failure) == (users, Some(DuplicateColumn))
            else failure == None && after == users[i := User(u.id, mail, name)]
  {
    FindAt(users, i);
  }

  /** An id that no user has is not found, and nothing changes. */
  lemma UnknownUser(users: seq<User>, id: string, email: Field, username: Field)
    requires forall u :: u in users ==> u.id != id
    ensures Step(users, UpdateProfile(id, email, username)) == (users, Some(UserNotFound))
    ensures Step(users, Update(id, email, username)) == (users, Some(UserNotFound))
  {
    assert Find(users, id) == |users|;
  }

  /** After a changed profile the user is found under each identifier given, however it is spelled. */
  lemma PatchedIsFound(users: seq<User>, i: nat, email: Field, username: Field)
    requires Inv(users) && i < |users|
    requires Step(users, UpdateProfile(users[i].id, email, username)).1 == None
    ensures var after := Step(users, UpdateProfile(users[i].id, email, username)).0;
            && i < |after| && after[i].id == users[i].id
            && (email.Value? ==> GetByIdentifier(after, email.text) == Ok(Some(after[i])))
            && (username.Value? ==> GetByIdentifier(after, username.text) == Ok(Some(after[i])))
  {
    var op := UpdateProfile(users[i].id, email, username);
    var after := Step(users, op).0;
    PatchedIs(users, i, email, username);
    ProfileInv(users, op);
    if email.Value? {
      LookupExact(after, email.text);
    }
    if username.Value? {
      LookupExact(after, username.text);
    }
  }

  /** And a created user under the address, whatever happens to spaces and case. */
  lemma CreatedIsFound(users: seq<User>, op: Op)
    requires Inv(users) && FreshId(users, op) && op.Create? && Step(users, op).1 == None
    ensures var after := Step(users, op).0;
            && |after| == |users| + 1 && after[|users|].id == op.newId
            && GetByIdentifier(after, op.email) == Ok(Some(after[|users|]))
            && (op.username.Some? ==> GetByIdentifier(after, op.username.value) == Ok(Some(after[|users|])))
  {
    CreateAppends(users, op);
    CreateInv(users, op);
    LookupExact(Step(users, op).0, op.email);
    if op.username.Some? {
      LookupExact(Step(users, op).0, op.username.value);
    }
  }
}
