/**
 * The user table: registration with a unique email, the read projections
 * (none of which carries the password), the status update and deletion.
 */
module Users {
  import opened Results
  import opened Store
  import opened Ordering

  const EmailTaken := "Email already exists"
  const UserNotFound := "User not found"
  const UserDeleted := "User deleted successfully"
  /** `role_id` of an ordinary user. */
  const DefaultRole := 2

  datatype CreateUserRequest = CreateUserRequest(email: string, password: string, fullName: string, phone: Option<string>)

  /** The columns `createUser`, `getAllUsers` and `getUserById` select. */
  datatype UserView = UserView(id: int, email: string, fullName: string, phone: Option<string>,
                               roleId: int, status: UserStatus, createdAt: int, updatedAt: int)

  /** The columns `getUserProfile` selects. */
  datatype ProfileView = ProfileView(id: int, email: string, fullName: string, phone: Option<string>,
                                     emailVerified: bool, createdAt: int, status: UserStatus)

  /** The columns `updateUserStatus` selects. */
  datatype StatusView = StatusView(id: int, email: string, status: UserStatus)

  function ViewOf(id: int, u: User): UserView
  {
    UserView(id, u.email, u.fullName, u.phone, u.roleId, u.status, u.createdAt, u.updatedAt)
  }

  function ProfileOf(id: int, u: User): ProfileView
  {
    ProfileView(id, u.email, u.fullName, u.phone, u.emailVerified, u.createdAt, u.status)
  }

  /** No returned projection depends on the stored password. */
  lemma ViewsHidePassword(id: int, u: User, password: string)
    ensures ViewOf(id, u.(password := password)) == ViewOf(id, u)
    ensures ProfileOf(id, u.(password := password)) == ProfileOf(id, u)
    ensures StatusView(id, u.(password := password).email, u.(password := password).status)
         == StatusView(id, u.email, u.status)
  {
  }

  predicate EmailTakenIn(t: Tables, email: string)
  {
    exists k :: k in t.users && t.users[k].email == email
  }

  /** No two users share an email (the `email` column is unique). */
  predicate UniqueEmails(t: Tables)
  {
    forall j, k :: j in t.users && k in t.users && t.users[j].email == t.users[k].email ==> j == k
  }

  datatype CreateOutcome = CreateOutcome(tables: Tables, result: Result<UserView>)

  /**
   * `createUser`: a registered email is refused with Conflict; otherwise the
   * user is inserted under the next id with the hash of the password, role 2
   * and status 'active'. `hash` is bcrypt with cost 10 and `now` the time of
   * the insert; `emailVerified` takes its column default, false.
   */
  function CreateStep(t: Tables, req: CreateUserRequest, hash: string -> string, now: int): CreateOutcome
  {
    if EmailTakenIn(t, req.email) then CreateOutcome(t, Err(Conflict(EmailTaken)))
    else
      var id := t.nextUserId;
      var u := User(req.email, hash(req.password), req.fullName, req.phone, DefaultRole, UserActive, false, now, now);
      CreateOutcome(t.(users := t.users[id := u], nextUserId := id + 1), Ok(ViewOf(id, u)))
  }

  method CreateUser(db: Database, req: CreateUserRequest, hash: string -> string, now: int)
    returns (result: Result<UserView>)
    modifies db
    ensures db.tables == CreateStep(old(db.tables), req, hash, now).tables
    ensures result == CreateStep(old(db.tables), req, hash, now).result
  {
    var t := db.tables;
    if exists k :: k in t.users && t.users[k].email == req.email {
      return Err(Conflict(EmailTaken));
    }
    var id := t.nextUserId;
    var u := User(req.email, hash(req.password), req.fullName, req.phone, DefaultRole, UserActive, false, now, now);
    db.tables := t.(users := t.users[id := u], nextUserId := id + 1);
    result := Ok(ViewOf(id, u));
  }

  /**
   * Registration fails with Conflict, writing nothing, exactly when the email
   * is registered; a new user keeps the request's email, name and phone, has
   * role 2, status 'active', an unverified email, the hashed password and
   * `now` as its creation and update time, and the reply shows that row; the
   * table keeps its emails unique and its sequence ahead.
   */
  lemma CreateEffect(t: Tables, req: CreateUserRequest, hash: string -> string, now: int)
    requires UniqueEmails(t) && SequencesAhead(t)
    ensures var o := CreateStep(t, req, hash, now);
      && (o.result.Err? <==> EmailTakenIn(t, req.email))
      && (o.result.Err? ==> o.tables == t && o.result.error == Conflict("Email already exists"))
      && (o.result.Ok? ==>
            var id := o.result.value.id;
            && id == t.nextUserId && id !in t.users && id in o.tables.users
            && o.tables.users[id].password == hash(req.password)
            && o.tables.users[id].roleId == 2 && o.tables.users[id].status == UserActive
            && o.tables.users[id].email == req.email && o.tables.users[id].fullName == req.fullName
            && o.tables.users[id].phone == req.phone && !o.tables.users[id].emailVerified
            && o.tables.users[id].createdAt == now && o.tables.users[id].updatedAt == now
            && o.result.value == ViewOf(id, o.tables.users[id])
            && o.tables.users.Keys == t.users.Keys + {id}
            && (forall k :: k in t.users ==> k in o.tables.users && o.tables.users[k] == t.users[k]))
      && UniqueEmails(o.tables) && SequencesAhead(o.tables)
  {
  }

  /**
   * `getAllUsers`: every user once, in id order (the query has no
   * `orderBy`), as the projection without the password.
   */
  method GetAllUsers(t: Tables) returns (views: seq<UserView>)
    ensures forall i :: 0 <= i < |views| ==> views[i].id in t.users && views[i] == ViewOf(views[i].id, t.users[views[i].id])
    ensures forall k :: k in t.users ==> ViewOf(k, t.users[k]) in views
    ensures forall i, j :: 0 <= i < j < |views| ==> views[i].id < views[j].id
  {
    var ids := OrderBy(t.users.Keys, (a: int, b: int) => a <= b);
    views := seq(|ids|, k requires 0 <= k < |ids| => ViewOf(ids[k], t.users[ids[k]]));
    forall k | k in t.users
      ensures ViewOf(k, t.users[k]) in views
    {
      var i :| 0 <= i < |ids| && ids[i] == k;
      assert views[i] == ViewOf(k, t.users[k]);
    }
  }

  /** `getUserById`: NotFound for a missing id. */
  function GetUserById(t: Tables, id: int): (r: Result<UserView>)
    ensures r.Ok? <==> id in t.users
    ensures r.Ok? ==> r.value == ViewOf(id, t.users[id])
    ensures r.Err? ==> r.error == NotFound("User not found")
  {
    if id in t.users then Ok(ViewOf(id, t.users[id])) else Err(NotFound(UserNotFound))
  }

  /** `getUserProfile`: NotFound for a missing id. */
  function GetUserProfile(t: Tables, id: int): (r: Result<ProfileView>)
    ensures r.Ok? <==> id in t.users
    ensures r.Ok? ==> (r.value.id == id && r.value.email == t.users[id].email
                       && r.value.fullName == t.users[id].fullName && r.value.phone == t.users[id].phone
                       && r.value.emailVerified == t.users[id].emailVerified
                       && r.value.createdAt == t.users[id].createdAt && r.value.status == t.users[id].status)
    ensures r.Err? ==> r.error == NotFound("User not found")
  {
    if id in t.users then Ok(ProfileOf(id, t.users[id])) else Err(NotFound(UserNotFound))
  }

  datatype StatusOutcome = StatusOutcome(tables: Tables, result: Result<StatusView>)

  /**
   * `updateUserStatus`: the update of a missing id throws the database
   * client's record-not-found error (the `!user` check after it never fires).
   */
  function StatusStep(t: Tables, id: int, status: UserStatus): StatusOutcome
  {
    if id !in t.users then StatusOutcome(t, Err(Failure(RecordToUpdateNotFound)))
    else
      var u := t.users[id].(status := status);
      StatusOutcome(t.(users := t.users[id := u]), Ok(StatusView(id, u.email, status)))
  }

  method UpdateUserStatus(db: Database, id: int, status: UserStatus) returns (result: Result<StatusView>)
    modifies db
    ensures db.tables == StatusStep(old(db.tables), id, status).tables
    ensures result == StatusStep(old(db.tables), id, status).result
  {
    if id !in db.tables.users {
      return Err(Failure(RecordToUpdateNotFound));
    }
    var u := db.tables.users[id].(status := status);
    db.tables := db.tables.(users := db.tables.users[id := u]);
    result := Ok(StatusView(id, u.email, status));
  }

  /** A status update touches only that user's status, and never a NotFound. */
  lemma StatusChangesOnlyStatus(t: Tables, id: int, status: UserStatus)
    requires UniqueEmails(t)
    ensures var o := StatusStep(t, id, status);
      && (o.result.Ok? <==> id in t.users)
      && (o.result.Err? ==> o.tables == t && !o.result.error.NotFound?)
      && (o.result.Ok? ==> o.tables.users[id] == t.users[id].(status := status))
      && o.tables.users.Keys == t.users.Keys
      && (forall k :: k in t.users && k != id ==> o.tables.users[k] == t.users[k])
      && o.tables == t.(users := o.tables.users)
      && UniqueEmails(o.tables)
  {
  }

  datatype DeleteOutcome = DeleteOutcome(tables: Tables, result: Result<string>)

  /** `deleteUser`: any failure of the delete is reported as NotFound. */
  function DeleteStep(t: Tables, id: int): DeleteOutcome
  {
    if id !in t.users then DeleteOutcome(t, Err(NotFound(UserNotFound)))
    else DeleteOutcome(t.(users := t.users - {id}), Ok(UserDeleted))
  }

  method DeleteUser(db: Database, id: int) returns (result: Result<string>)
    modifies db
    ensures db.tables == DeleteStep(old(db.tables), id).tables
    ensures result == DeleteStep(old(db.tables), id).result
  {
    if id !in db.tables.users {
      return Err(NotFound(UserNotFound));
    }
    db.tables := db.tables.(users := db.tables.users - {id});
    return Ok(UserDeleted);
  }

  /** Deletion removes exactly the given user; a missing one is NotFound. */
  lemma DeleteRemovesOnlyThatUser(t: Tables, id: int)
    requires UniqueEmails(t)
    ensures var o := DeleteStep(t, id);
      && (o.result.Err? <==> id !in t.users)
      && (o.result.Err? ==> o.tables == t && o.result.error == NotFound("User not found"))
      && id !in o.tables.users
      && (forall k :: k != id ==> (k in o.tables.users <==> k in t.users))
      && (forall k :: k in o.tables.users ==> o.tables.users[k] == t.users[k])
      && o.tables == t.(users := o.tables.users)
      && UniqueEmails(o.tables)
  {
  }

  /** After a deletion the email is free again: registering it succeeds. */
  lemma DeletedEmailIsFree(t: Tables, id: int, req: CreateUserRequest, hash: string -> string, now: int)
    requires UniqueEmails(t) && id in t.users && req.email == t.users[id].email
    ensures CreateStep(t, req, hash, now).result.Err?
    ensures CreateStep(DeleteStep(t, id).tables, req, hash, now).result.Ok?
  {
    var r := DeleteStep(t, id).tables;
    assert !EmailTakenIn(r, req.email);
  }
}
