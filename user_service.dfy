/** The user service (reading_list/services/user.py): users are not scoped to
    the acting user, their emails are unique, and updates are partial. */
module Users {
  import opened Domain
  import Schema
  import Storage
  import UserRepository

  datatype UserCreate = UserCreate(email: string, displayName: string)

  /** A partial update: each field may be left out, sent as null, or sent. */
  datatype UserUpdate = UserUpdate(email: Field<string>, displayName: Field<string>)

  datatype UserOut = UserOut(id: Id, email: string, displayName: string, createdAt: Timestamp)

  const UserNotFound: string := "User not found"
  const EmailTaken: string := "User with this email already exists"

  function ToUserOut(u: User): UserOut {
    UserOut(u.id, u.email, u.displayName, u.createdAt)
  }

  /** Some user other than `objId` holds `email`. */
  ghost predicate HeldByOther(users: map<Id, User>, email: string, objId: Id) {
    exists k :: k in users && k != objId && users[k].email == email
  }

  /** The row after `setattr` of every sent field. Both columns are NOT NULL,
      so a field sent as null makes the commit fail. */
  function ApplyUserUpdate(u: User, p: UserUpdate): (r: Result<User>)
    ensures r.Err? <==> p.email.Null? || p.displayName.Null?
    ensures r.Err? ==> r.error.IntegrityError?
    ensures r.Ok? ==> r.value.id == u.id && r.value.createdAt == u.createdAt
    ensures r.Ok? && p.email.Unset? ==> r.value.email == u.email
    ensures r.Ok? && p.displayName.Unset? ==> r.value.displayName == u.displayName
    ensures r.Ok? && p.email.Sent? ==> r.value.email == p.email.value
    ensures r.Ok? && p.displayName.Sent? ==> r.value.displayName == p.displayName.value
  {
    if p.email.Null? then Err(IntegrityError("users.email"))
    else if p.displayName.Null? then Err(IntegrityError("users.display_name"))
    else
      var email := if p.email.Sent? then p.email.value else u.email;
      var name := if p.displayName.Sent? then p.displayName.value else u.displayName;
      Ok(u.(email := email, displayName := name))
  }

  /** Sending the same update again changes nothing more. */
  lemma UserUpdateIdempotent(u: User, p: UserUpdate)
    requires ApplyUserUpdate(u, p).Ok?
    ensures ApplyUserUpdate(ApplyUserUpdate(u, p).value, p) == ApplyUserUpdate(u, p)
  {
  }

  /** An update that sends nothing leaves the row as it was. */
  lemma EmptyUserUpdateKeepsRow(u: User)
    ensures ApplyUserUpdate(u, UserUpdate(Unset, Unset)) == Ok(u)
  {
  }

  class UserService {
    const store: Storage.Store

    /** The acting user's id is accepted and ignored: users are not owner-scoped. */
    constructor (store: Storage.Store, userId: Id)
      ensures this.store == store
    {
      this.store := store;
    }

    /** `get_by_id`: the stored user, or 404. */
    method GetById(objId: Id) returns (r: Result<UserOut>)
      ensures r.Ok? <==> objId in store.users
      ensures r.Ok? ==> r.value == ToUserOut(store.users[objId])
      ensures r.Err? ==> r.error == NotFound(UserNotFound)
    {
      var user := UserRepository.GetById(store.users, objId);
      if user.None? {
        return Err(NotFound(UserNotFound));
      }
      r := Ok(ToUserOut(user.value));
    }

    /** `get`: every stored user, once each. */
    method Get() returns (r: seq<UserOut>)
      requires store.Valid()
      ensures |r| == |store.users|
      ensures forall o :: o in r <==> exists k :: k in store.users && o == ToUserOut(store.users[k])
      ensures forall i, j :: 0 <= i < j < |r| ==> r[i].id != r[j].id
    {
      var all := UserRepository.GetAll(store.users);
      r := [];
      var rest := store.users.Keys;
      while rest != {}
        invariant rest <= store.users.Keys
        invariant |r| + |rest| == |store.users|
        invariant forall o :: o in r <==> exists k :: k in store.users && k !in rest && o == ToUserOut(store.users[k])
        invariant forall i :: 0 <= i < |r| ==> r[i].id in store.users && r[i].id !in rest
        invariant forall i, j :: 0 <= i < j < |r| ==> r[i].id != r[j].id
        decreases rest
      {
        var k :| k in rest;
        assert store.users[k] in all;
        r := r + [ToUserOut(store.users[k])];
        rest := rest - {k};
      }
    }

    /** `create`: an email already held by some user is refused with 400 and
        nothing is stored; otherwise a user with a fresh id is added. */
    method Create(payload: UserCreate, now: Timestamp) returns (r: Result<UserOut>)
      requires store.Valid()
      modifies store
      ensures store.Valid()
      ensures r.Err? <==> exists k :: k in old(store.users) && old(store.users)[k].email == payload.email
      ensures r.Err? ==> r.error == BadRequest(EmailTaken) && unchanged(store)
      ensures r.Ok? ==>
        var u := User(old(store.nextUserId), payload.email, payload.displayName, now);
        && r.value == ToUserOut(u)
        && u.id !in old(store.users)
        && store.Tables() == old(store.Tables()).(users := old(store.users)[u.id := u])
        && store.nextUserId == old(store.nextUserId) + 1
      ensures store.nextTagId == old(store.nextTagId) && store.nextItemId == old(store.nextItemId)
    {
      var existing := UserRepository.GetByEmail(store.users, payload.email);
      if existing.Some? {
        return Err(BadRequest(EmailTaken));
      }
      var user := store.InsertUser(payload.email, payload.displayName, now);
      r := Ok(ToUserOut(user));
    }

    /** `update`: 404 for an unknown id; 400 when the sent email belongs to a
        different user (keeping one's own email is allowed); a field sent as
        null fails at commit; otherwise exactly the sent fields change. */
    method Update(objId: Id, payload: UserUpdate) returns (r: Result<UserOut>)
      requires store.Valid()
      modifies store
      ensures store.Valid()
      ensures objId !in old(store.users) ==> r == Err(NotFound(UserNotFound))
      ensures objId in old(store.users) && payload.email.Sent? && HeldByOther(old(store.users), payload.email.value, objId) ==>
        r == Err(BadRequest(EmailTaken))
      ensures r.Err? ==> unchanged(store)
      ensures objId in old(store.users) && !(payload.email.Sent? && HeldByOther(old(store.users), payload.email.value, objId)) ==>
        var patched := ApplyUserUpdate(old(store.users)[objId], payload);
        && (patched.Err? ==> r == Err(patched.error))
        && (patched.Ok? ==>
              && r == Ok(ToUserOut(patched.value))
              && store.Tables() == old(store.Tables()).(users := old(store.users)[objId := patched.value]))
      ensures store.nextUserId == old(store.nextUserId) && store.nextTagId == old(store.nextTagId) && store.nextItemId == old(store.nextItemId)
    {
      var user := UserRepository.GetById(store.users, objId);
      if user.None? {
        return Err(NotFound(UserNotFound));
      }
      if payload.email.Sent? {
        var existing := UserRepository.GetByEmail(store.users, payload.email.value);
        if existing.Some? && existing.value.id != objId {
          return Err(BadRequest(EmailTaken));
        }
      }
      var patched := ApplyUserUpdate(user.value, payload);
      if patched.Err? {
        return Err(patched.error);
      }
      store.ReplaceUser(patched.value);
      r := Ok(ToUserOut(patched.value));
    }

    /** `delete`: 404 for an unknown id; otherwise the user goes, with their
        items, tags and those items' and tags' links, and the id is returned. */
    method Delete(objId: Id) returns (r: Result<Id>)
      requires store.Valid()
      modifies store
      ensures store.Valid()
      ensures r.Err? <==> objId !in old(store.users)
      ensures r.Err? ==> r.error == NotFound(UserNotFound) && unchanged(store)
      ensures r.Ok? ==>
        && r.value == objId && objId !in store.users
        && store.Tables() == Schema.DeleteUser(old(store.Tables()), objId)
      ensures store.nextUserId == old(store.nextUserId) && store.nextTagId == old(store.nextTagId) && store.nextItemId == old(store.nextItemId)
    {
      var user := UserRepository.GetById(store.users, objId);
      if user.None? {
        return Err(NotFound(UserNotFound));
      }
      store.DeleteUser(objId);
      r := Ok(objId);
    }
  }
}
