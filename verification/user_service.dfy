/** Users: registration with a unique e-mail address, partial updates,
    lookup, listing and removal. */
module UserService {
  import opened Results
  import opened Model
  import Tables
  import Seqs

  /** A partial update: a None field is left as it is. */
  datatype UserPatch = UserPatch(name: Option<string>, email: Option<string>)

  /** existsByEmail */
  function EmailTaken(s: Store, email: string): (b: bool)
    ensures b <==> exists u :: u in s.users && u.email == email
  {
    exists i :: 0 <= i < |s.users| && s.users[i].email == email
  }

  /** existsByEmailAndIdNot */
  function EmailTakenByOther(s: Store, email: string, userId: nat): (b: bool)
    ensures b <==> exists u :: u in s.users && u.email == email && u.id != userId
  {
    exists i :: 0 <= i < |s.users| && s.users[i].email == email && s.users[i].id != userId
  }

  /** No two users share an e-mail address. */
  ghost predicate EmailsDistinct(s: Store) {
    Seqs.DistinctBy(s.users, Email)
  }

  function Email(u: User): string { u.email }

  /** createUser: refused with Conflict when the address is taken. */
  function CreateUser(s: Store, name: string, email: string): (r: Result<(Store, User)>)
    ensures r.Err? <==> exists u :: u in s.users && u.email == email
    ensures r.Err? ==> r.error == Conflict
    ensures r.Ok? ==>
              var (s', u) := r.value;
              && s' == s.(users := s.users + [u])
              && UserById(s, u.id).None?
              && UserById(s', u.id) == Some(u)
              && u.name == name && u.email == email
  {
    if EmailTaken(s, email) then Err(Conflict)
    else
      var u := User(Tables.NextKey(s.users, UserKey), name, email);
      Ok((s.(users := Tables.Append(s.users, UserKey, u)), u))
  }

  /** toUserUpdate: the user with the given fields replaced. */
  function Patched(u: User, p: UserPatch): (v: User)
    ensures v.id == u.id
    ensures v.name == if p.name.Some? then p.name.value else u.name
    ensures v.email == if p.email.Some? then p.email.value else u.email
  {
    User(u.id, if p.name.Some? then p.name.value else u.name,
         if p.email.Some? then p.email.value else u.email)
  }

  /** updateUser: NotFound for an unknown user; Conflict for a new address
      that another user already has; otherwise the given fields change. */
  function UpdateUser(s: Store, userId: nat, p: UserPatch): (r: Result<(Store, User)>)
    ensures r == Err(NotFound) <==> UserById(s, userId).None?
    ensures r == Err(Conflict) <==>
              && UserById(s, userId).Some? && p.email.Some?
              && p.email.value != UserById(s, userId).value.email
              && exists u :: u in s.users && u.email == p.email.value && u.id != userId
    ensures r.Err? ==> r.error == NotFound || r.error == Conflict
    ensures r.Ok? ==>
              var (s', u) := r.value;
              && u == Patched(UserById(s, userId).value, p)
              && s' == s.(users := Tables.Replace(s.users, UserKey, u))
  {
    var existing :- Found(UserById(s, userId));
    if p.email.Some? && existing.email != p.email.value && EmailTakenByOther(s, p.email.value, userId) then
      Err(Conflict)
    else
      var u := Patched(existing, p);
      Ok((s.(users := Tables.Replace(s.users, UserKey, u)), u))
  }

  /** getUserById */
  function GetUserById(s: Store, userId: nat): (r: Result<User>)
    ensures r.Err? <==> forall u :: u in s.users ==> u.id != userId
    ensures r.Err? ==> r.error == NotFound
    ensures r.Ok? ==> r.value in s.users && r.value.id == userId
  {
    Found(UserById(s, userId))
  }

  /** getAllUsers: every stored user, in table order. */
  function GetAllUsers(s: Store): (r: seq<User>)
    ensures |r| == |s.users|
    ensures forall u :: u in r <==> u in s.users
    ensures forall i :: 0 <= i < |r| ==> r[i] == s.users[i]
  {
    s.users
  }

  /** deleteUser: NotFound for an unknown user. */
  function DeleteUser(s: Store, userId: nat): (r: Result<Store>)
    ensures r.Err? <==> UserById(s, userId).None?
    ensures r.Err? ==> r.error == NotFound
    ensures r.Ok? ==> r.value == s.(users := Tables.Delete(s.users, UserKey, userId))
  {
    var _ :- Found(UserById(s, userId));
    Ok(s.(users := Tables.Delete(s.users, UserKey, userId)))
  }

  /** Every listed user is found again by its id. */
  lemma {:induction false} ListedUsersFound(s: Store, i: nat)
    requires Tables.UniqueKeys(s.users, UserKey)
    requires i < |GetAllUsers(s)|
    ensures GetUserById(s, GetAllUsers(s)[i].id) == Ok(GetAllUsers(s)[i])
  {
    Tables.FindUnique(s.users, UserKey, i);
  }

  /** A registered user is found by its id. */
  lemma {:induction false} CreatedUserFound(s: Store, name: string, email: string)
    requires CreateUser(s, name, email).Ok?
    ensures var (s', u) := CreateUser(s, name, email).value;
            GetUserById(s', u.id) == Ok(u)
  {
  }

  /** After a removal the user is gone and every other user is found as before. */
  lemma {:induction false} DeletedUserNotFound(s: Store, userId: nat, other: nat)
    requires DeleteUser(s, userId).Ok?
    requires other != userId
    ensures var s' := DeleteUser(s, userId).value;
            && GetUserById(s', userId) == Err(NotFound)
            && GetUserById(s', other) == GetUserById(s, other)
  {
    Tables.DeleteFind(s.users, UserKey, userId, other);
  }

  /** Registration keeps e-mail addresses distinct. */
  lemma {:induction false} CreateKeepsEmailsDistinct(s: Store, name: string, email: string)
    requires EmailsDistinct(s)
    requires CreateUser(s, name, email).Ok?
    ensures EmailsDistinct(CreateUser(s, name, email).value.0)
  {
    var (s', u) := CreateUser(s, name, email).value;
    forall i, j | 0 <= i < j < |s'.users| ensures Email(s'.users[i]) != Email(s'.users[j]) {
      if j == |s.users| {
        assert s'.users[j] == u;
        assert s'.users[i] == s.users[i];
        assert !EmailTaken(s, email);
      } else {
        assert s'.users[i] == s.users[i] && s'.users[j] == s.users[j];
      }
    }
  }

  /** An update keeps e-mail addresses distinct when ids are unique. */
  lemma {:induction false} UpdateKeepsEmailsDistinct(s: Store, userId: nat, p: UserPatch)
    requires EmailsDistinct(s)
    requires Tables.UniqueKeys(s.users, UserKey)
    requires UpdateUser(s, userId, p).Ok?
    ensures EmailsDistinct(UpdateUser(s, userId, p).value.0)
  {
    var (s', u) := UpdateUser(s, userId, p).value;
    var existing := UserById(s, userId).value;
    var k :| 0 <= k < |s.users| && s.users[k] == existing;
    forall i, j | 0 <= i < j < |s'.users| ensures Email(s'.users[i]) != Email(s'.users[j]) {
      assert UserKey(s.users[i]) != UserKey(s.users[j]);
      if s.users[i].id == userId || s.users[j].id == userId {
        var m := if s.users[i].id == userId then i else j;
        var n := if s.users[i].id == userId then j else i;
        assert s.users[m] == existing by {
          assert s.users[m].id == s.users[k].id;
        }
        assert s'.users[m] == u && s'.users[n] == s.users[n];
        if p.email.Some? && p.email.value != existing.email {
          assert !EmailTakenByOther(s, p.email.value, userId);
        } else {
          assert u.email == existing.email;
        }
      } else {
        assert s'.users[i] == s.users[i] && s'.users[j] == s.users[j];
      }
    }
  }

  /** Removal keeps e-mail addresses distinct. */
  lemma {:induction false} DeleteKeepsEmailsDistinct(s: Store, userId: nat)
    requires EmailsDistinct(s)
    requires DeleteUser(s, userId).Ok?
    ensures EmailsDistinct(DeleteUser(s, userId).value)
  {
    Seqs.FilterKeepsDistinct(Tables.KeyIsNot(UserKey, userId), s.users, Email);
  }
}
