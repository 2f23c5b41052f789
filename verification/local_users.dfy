/** The browser-local user registry (`LocalUserService`): an in-memory list
    of users with case-insensitive unique emails and a protected super-admin.
    Fresh ids and the clock are parameters; persistence is not modelled. */
module LocalUsers {
  import opened Common
  import opened Types

  const SuperAdminEmail := "nojs2115@yahoo.com"
  const NotFoundMessage := "User not found"
  const EmailTakenMessage := "User with this email already exists"
  const ProtectedMessage := "Cannot delete super admin"

  /** `toLowerCase` on one character, for the ASCII letters. */
  function LowerChar(c: char): (d: char)
    ensures 'A' <= c <= 'Z' ==> d as int == c as int + 32
    ensures !('A' <= c <= 'Z') ==> d == c
    ensures !('A' <= d <= 'Z')
  {
    if 'A' <= c <= 'Z' then (c as int + 32) as char else c
  }

  /** `toLowerCase` on a string. */
  function Lower(s: string): (r: string)
    ensures |r| == |s|
    ensures forall i :: 0 <= i < |s| ==> r[i] == LowerChar(s[i])
  {
    seq(|s|, i requires 0 <= i < |s| => LowerChar(s[i]))
  }

  /** Lower-casing twice changes nothing more. */
  lemma LowerIdempotent(s: string)
    ensures Lower(Lower(s)) == Lower(s)
  {
    assert forall i :: 0 <= i < |s| ==> LowerChar(LowerChar(s[i])) == LowerChar(s[i]);
  }

  /** The fixed super-admin email is already in lower case. */
  lemma SuperAdminEmailIsLower()
    ensures Lower(SuperAdminEmail) == SuperAdminEmail
  {
    var e := SuperAdminEmail;
    assert forall i :: 0 <= i < |e| ==> !('A' <= e[i] <= 'Z');
  }

  /** Two emails name the same account when they agree ignoring case. */
  predicate SameEmail(a: string, b: string) {
    Lower(a) == Lower(b)
  }

  /** No two users share an email, ignoring case. */
  ghost predicate UniqueEmails(users: seq<User>) {
    forall i, j :: 0 <= i < j < |users| ==> !SameEmail(users[i].email, users[j].email)
  }

  /** No two users share an id. */
  ghost predicate UniqueIds(users: seq<User>) {
    forall i, j :: 0 <= i < j < |users| ==> users[i].id != users[j].id
  }

  /** The user that the super-admin check looks for. */
  predicate IsSuperAdminEntry(u: User) {
    Lower(u.email) == SuperAdminEmail && u.role == SuperAdmin
  }

  /** `users.findIndex(matches)`, with `None` for -1. */
  function FindIndex(users: seq<User>, matches: User -> bool): (r: Option<nat>)
    ensures r.Some? ==> r.value < |users| && matches(users[r.value])
    ensures r.Some? ==> forall j :: 0 <= j < r.value ==> !matches(users[j])
    ensures r.None? ==> forall j :: 0 <= j < |users| ==> !matches(users[j])
  {
    if |users| == 0 then None
    else if matches(users[0]) then Some(0)
    else
      var rest := FindIndex(users[1..], matches);
      if rest.Some? then Some(rest.value + 1) else None
  }

  /** `ensureSuperAdmin`: add a super-admin with the fixed email unless a
      user with that email and role is already present. */
  function EnsureSuperAdmin(users: seq<User>, freshId: string, now: int): (r: seq<User>)
    ensures (exists i :: 0 <= i < |users| && IsSuperAdminEntry(users[i])) ==> r == users
    ensures !(exists i :: 0 <= i < |users| && IsSuperAdminEntry(users[i])) ==>
      r == users + [User.User(freshId, SuperAdminEmail, SuperAdmin, Some(false), now, now)]
    ensures exists i :: 0 <= i < |r| && IsSuperAdminEntry(r[i])
  {
    if exists i :: 0 <= i < |users| && IsSuperAdminEntry(users[i]) then users
    else
      var admin := User.User(freshId, SuperAdminEmail, SuperAdmin, Some(false), now, now);
      SuperAdminEmailIsLower();
      assert IsSuperAdminEntry((users + [admin])[|users|]);
      users + [admin]
  }

  /** Running the check a second time adds nothing. */
  lemma EnsureSuperAdminIdempotent(users: seq<User>, id1: string, t1: int, id2: string, t2: int)
    ensures EnsureSuperAdmin(EnsureSuperAdmin(users, id1, t1), id2, t2) == EnsureSuperAdmin(users, id1, t1)
  {
  }

  /** The constructor: the stored list (empty when nothing usable is
      stored), then the super-admin check. */
  function Construct(stored: Option<seq<User>>, freshId: string, now: int): (r: seq<User>)
    ensures exists i :: 0 <= i < |r| && IsSuperAdminEntry(r[i])
    ensures |stored.GetOr([])| <= |r| <= |stored.GetOr([])| + 1
    ensures r[..|stored.GetOr([])|] == stored.GetOr([])
  {
    EnsureSuperAdmin(stored.GetOr([]), freshId, now)
  }

  /** `getUser`: the first user with the id, or 'User not found'. */
  function GetUser(users: seq<User>, userId: string): (r: Result<User>)
    ensures r.Ok? <==> exists i :: 0 <= i < |users| && users[i].id == userId
    ensures r.Err? ==> r.message == NotFoundMessage
    ensures r.Ok? ==> r.value in users && r.value.id == userId
  {
    var k := FindIndex(users, (u: User) => u.id == userId);
    if k.Some? then Ok(users[k.value]) else Err(NotFoundMessage)
  }

  /** `getUserByEmail`: the first user whose email matches ignoring case. */
  function GetUserByEmail(users: seq<User>, email: string): (r: Option<User>)
    ensures r.Some? <==> exists i :: 0 <= i < |users| && SameEmail(users[i].email, email)
    ensures r.Some? ==> r.value in users && SameEmail(r.value.email, email)
  {
    var k := FindIndex(users, (u: User) => SameEmail(u.email, email));
    if k.Some? then Some(users[k.value]) else None
  }

  /** `createUser`: refuse an email already present (ignoring case);
      otherwise append a user with the given role, `user` by default, who
      must change the password. */
  function CreateUser(users: seq<User>, email: string, role: Option<Role>, freshId: string, now: int): (r: Result<seq<User>>)
    ensures r.Err? <==> exists i :: 0 <= i < |users| && SameEmail(users[i].email, email)
    ensures r.Err? ==> r.message == EmailTakenMessage
    ensures r.Ok? ==> r.value == users + [User.User(freshId, email, role.GetOr(Role.User), Some(true), now, now)]
  {
    if GetUserByEmail(users, email).Some? then Err(EmailTakenMessage)
    else Ok(users + [User.User(freshId, email, role.GetOr(Role.User), Some(true), now, now)])
  }

  /** Creating a user keeps emails unique. */
  lemma CreateKeepsEmailsUnique(users: seq<User>, email: string, role: Option<Role>, freshId: string, now: int)
    requires UniqueEmails(users)
    requires CreateUser(users, email, role, freshId, now).Ok?
    ensures UniqueEmails(CreateUser(users, email, role, freshId, now).value)
  {
    var r := CreateUser(users, email, role, freshId, now).value;
    forall i, j | 0 <= i < j < |r| ensures !SameEmail(r[i].email, r[j].email) {
      if j == |users| {
        assert r[i] == users[i];
      } else {
        assert r[i] == users[i] && r[j] == users[j];
      }
    }
  }

  /** A created user is found again by its email in any letter case. */
  lemma CreatedUserFoundByEmail(users: seq<User>, email: string, other: string, role: Option<Role>, freshId: string, now: int)
    requires CreateUser(users, email, role, freshId, now).Ok?
    requires SameEmail(other, email)
    ensures GetUserByEmail(CreateUser(users, email, role, freshId, now).value, other)
      == Some(User.User(freshId, email, role.GetOr(Role.User), Some(true), now, now))
  {
    var r := CreateUser(users, email, role, freshId, now).value;
    var k := FindIndex(r, (u: User) => SameEmail(u.email, other));
    assert SameEmail(r[|users|].email, other);
    if k.Some? && k.value < |users| {
      assert SameEmail(users[k.value].email, email);
      assert false;
    }
  }

  /** `updateUserRole`: the first user with the id gets the role and a new
      `updated_at`; 'User not found' otherwise. */
  function UpdateUserRole(users: seq<User>, userId: string, role: Role, now: int): (r: Result<seq<User>>)
    ensures r.Err? <==> !exists i :: 0 <= i < |users| && users[i].id == userId
    ensures r.Err? ==> r.message == NotFoundMessage
    ensures r.Ok? ==> |r.value| == |users|
    ensures r.Ok? ==> exists k ::
              && 0 <= k < |users| && users[k].id == userId
              && (forall j :: 0 <= j < k ==> users[j].id != userId)
              && r.value[k] == users[k].(role := role, updatedAt := now)
              && (forall j :: 0 <= j < |users| && j != k ==> r.value[j] == users[j])
  {
    var k := FindIndex(users, (u: User) => u.id == userId);
    if k.None? then Err(NotFoundMessage)
    else Ok(users[k.value := users[k.value].(role := role, updatedAt := now)])
  }

  /** After a role update, looking the user up shows the new role. */
  lemma UpdatedRoleVisible(users: seq<User>, userId: string, role: Role, now: int)
    requires UpdateUserRole(users, userId, role, now).Ok?
    ensures GetUser(UpdateUserRole(users, userId, role, now).value, userId).Ok?
    ensures GetUser(UpdateUserRole(users, userId, role, now).value, userId).value.role == role
  {
    var r := UpdateUserRole(users, userId, role, now).value;
    var k :| 0 <= k < |users| && users[k].id == userId
      && (forall j :: 0 <= j < k ==> users[j].id != userId)
      && r[k] == users[k].(role := role, updatedAt := now)
      && (forall j :: 0 <= j < |users| && j != k ==> r[j] == users[j]);
    var f := FindIndex(r, (u: User) => u.id == userId);
    assert r[k].id == userId;
    assert f.Some? && f.value == k;
  }

  /** `deleteUser`: refuse when the first user with the id has the
      super-admin email; otherwise drop every user with the id. */
  function DeleteUser(users: seq<User>, userId: string): (r: Result<seq<User>>)
    ensures r.Err? <==> exists k ::
              && 0 <= k < |users| && users[k].id == userId
              && (forall j :: 0 <= j < k ==> users[j].id != userId)
              && Lower(users[k].email) == SuperAdminEmail
    ensures r.Err? ==> r.message == ProtectedMessage
    ensures r.Ok? ==> forall u :: u in r.value <==> u in users && u.id != userId
    ensures r.Ok? ==> |r.value| <= |users|
    ensures r.Ok? ==> r.value == WithoutId(users, userId)
  {
    var k := FindIndex(users, (u: User) => u.id == userId);
    if k.Some? && Lower(users[k.value].email) == SuperAdminEmail then Err(ProtectedMessage)
    else Ok(WithoutId(users, userId))
  }

  /** `users.filter(u => u.id !== userId)`. */
  function WithoutId(users: seq<User>, userId: string): (r: seq<User>)
    ensures forall u :: u in r <==> u in users && u.id != userId
    ensures |r| <= |users|
  {
    if |users| == 0 then []
    else
      var rest := WithoutId(users[1..], userId);
      assert users == [users[0]] + users[1..];
      if users[0].id != userId then [users[0]] + rest else rest
  }

  /** The filter keeps the order of the users it keeps: filtering a
      concatenation concatenates the filtered parts. */
  lemma {:induction false} WithoutIdAppend(a: seq<User>, b: seq<User>, userId: string)
    ensures WithoutId(a + b, userId) == WithoutId(a, userId) + WithoutId(b, userId)
  {
    if |a| > 0 {
      assert (a + b)[1..] == a[1..] + b;
      WithoutIdAppend(a[1..], b, userId);
    } else {
      assert a + b == b;
    }
  }

  /** Each kept user keeps its number of occurrences; a user with that id
      has none left. */
  lemma {:induction false} WithoutIdCounts(users: seq<User>, userId: string, u: User)
    ensures multiset(WithoutId(users, userId))[u] == if u.id != userId then multiset(users)[u] else 0
  {
    if |users| > 0 {
      WithoutIdCounts(users[1..], userId, u);
      assert users == [users[0]] + users[1..];
      assert multiset(users) == multiset{users[0]} + multiset(users[1..]);
    }
  }

  /** A single user is kept exactly when its id differs. */
  lemma WithoutIdSingle(u: User, userId: string)
    ensures WithoutId([u], userId) == if u.id != userId then [u] else []
  {
    assert [u][1..] == [];
  }

  /** With distinct ids, no delete can remove a user holding the
      super-admin email, and an unknown id changes nothing. */
  lemma SuperAdminSurvivesDelete(users: seq<User>, userId: string, u: User)
    requires UniqueIds(users)
    requires u in users && Lower(u.email) == SuperAdminEmail
    requires DeleteUser(users, userId).Ok?
    ensures u in DeleteUser(users, userId).value
  {
    var k :| 0 <= k < |users| && users[k] == u;
    if u.id == userId {
      assert false;
    }
  }

  /** Deleting an id nobody has leaves the list as it is. */
  lemma {:induction false} DeleteUnknownIsNoOp(users: seq<User>, userId: string)
    requires forall i :: 0 <= i < |users| ==> users[i].id != userId
    ensures DeleteUser(users, userId) == Ok(users)
  {
    WithoutIdKeepsAll(users, userId);
  }

  lemma {:induction false} WithoutIdKeepsAll(users: seq<User>, userId: string)
    requires forall i :: 0 <= i < |users| ==> users[i].id != userId
    ensures WithoutId(users, userId) == users
  {
    if |users| > 0 {
      WithoutIdKeepsAll(users[1..], userId);
      assert users == [users[0]] + users[1..];
    }
  }

  /** `clearAllUsers`: empty the list, then restore the super-admin. */
  function ClearAllUsers(freshId: string, now: int): (r: seq<User>)
    ensures |r| == 1 && IsSuperAdminEntry(r[0])
    ensures r[0].id == freshId && r[0].email == SuperAdminEmail
  {
    EnsureSuperAdmin([], freshId, now)
  }

  /** A super-admin demoted by `updateUserRole` is no longer recognised, so
      the next check adds a second user with the same email. */
  lemma DemotedSuperAdminDuplicated(id: string, t0: int, t1: int, freshId: string, now: int)
    ensures var demoted := UpdateUserRole(ClearAllUsers(id, t0), id, Admin, t1).value;
            var after := EnsureSuperAdmin(demoted, freshId, now);
            |after| == 2 && SameEmail(after[0].email, after[1].email) && !UniqueEmails(after)
  {
    var start := ClearAllUsers(id, t0);
    var demoted := UpdateUserRole(start, id, Admin, t1).value;
    assert demoted[0] == start[0].(role := Admin, updatedAt := t1);
    assert !IsSuperAdminEntry(demoted[0]);
  }
}
