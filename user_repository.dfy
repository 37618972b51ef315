/** Lookups on the `users` table (reading_list/repositories/user.py). */
module UserRepository {
  import opened Domain
  import Schema

  /** `SELECT ... WHERE id = :id`: the row with that key, or none. */
  function GetById(users: map<Id, User>, id: Id): (r: Option<User>)
    ensures r.Some? <==> id in users
    ensures r.Some? ==> r.value == users[id]
  {
    if id in users then Some(users[id]) else None
  }

  /** `SELECT * FROM users`: every stored user; the database gives no order. */
  function GetAll(users: map<Id, User>): (r: set<User>)
    ensures forall u :: u in r <==> exists k :: k in users && users[k] == u
  {
    users.Values
  }

  /** `SELECT ... WHERE email = :email`: an exact, case-sensitive match. The
      unique index guarantees at most one row, which `scalar_one_or_none`
      relies on. */
  function GetByEmail(users: map<Id, User>, email: string): (r: Option<User>)
    requires Schema.UniqueEmails(users)
    ensures r.Some? <==> exists k :: k in users && users[k].email == email
    ensures r.Some? ==> r.value.email == email && r.value in users.Values
  {
    if exists k :: k in users && users[k].email == email then
      var k :| k in users && users[k].email == email;
      Some(users[k])
    else
      None
  }

  /** Among users keyed by id, the match found by email is the only holder of
      that email: any user with that email is the one returned. */
  lemma GetByEmailIsTheHolder(users: map<Id, User>, email: string, k: Id)
    requires Schema.UniqueEmails(users)
    requires forall j :: j in users ==> users[j].id == j
    requires k in users && users[k].email == email
    ensures GetByEmail(users, email) == Some(users[k])
  {
    var r := GetByEmail(users, email);
    var j :| j in users && users[j] == r.value;
    assert users[j].email == email;
  }
}
