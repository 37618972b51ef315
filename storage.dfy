/** The database as the services see it: the four tables, updated in place,
    and the autoincrement sequences that hand out fresh ids. `add` followed by
    a flush and `delete` are the store updates below; commit and refresh change
    nothing further, as in the in-memory repository of
    tests/test_user_service.py. */
module Storage {
  import opened Domain
  import Schema

  class Store {
    var users: map<Id, User>
    var tags: map<Id, Tag>
    var items: map<Id, Item>
    var links: set<ItemTag>
    var nextUserId: Id
    var nextTagId: Id
    var nextItemId: Id

    function Tables(): Schema.Tables
      reads this
    {
      Schema.Tables(users, tags, items, links)
    }

    /** The schema constraints hold, and every sequence is ahead of every id it
        has handed out (ids start at 1). */
    ghost predicate Valid()
      reads this
    {
      && Schema.Consistent(Tables())
      && 0 < nextUserId && 0 < nextTagId && 0 < nextItemId
      && (forall k :: k in users ==> 0 < k < nextUserId)
      && (forall k :: k in tags ==> 0 < k < nextTagId)
      && (forall k :: k in items ==> 0 < k < nextItemId)
    }

    /** An empty database after the migration. */
    constructor ()
      ensures Valid()
      ensures Tables() == Schema.Empty
      ensures nextUserId == 1 && nextTagId == 1 && nextItemId == 1
    {
      users, tags, items, links := map[], map[], map[], {};
      nextUserId, nextTagId, nextItemId := 1, 1, 1;
    }

    /** INSERT INTO users: the row gets the next id and `created_at = now()`. */
    method InsertUser(email: string, displayName: string, now: Timestamp) returns (u: User)
      requires Valid()
      requires forall k :: k in users ==> users[k].email != email
      modifies this
      ensures Valid()
      ensures u == User(old(nextUserId), email, displayName, now)
      ensures old(nextUserId) !in old(users)
      ensures Tables() == old(Tables()).(users := old(users)[u.id := u])
      ensures nextUserId == old(nextUserId) + 1
      ensures nextTagId == old(nextTagId) && nextItemId == old(nextItemId)
    {
      u := User(nextUserId, email, displayName, now);
      users := users[u.id := u];
      nextUserId := nextUserId + 1;
    }

    /** INSERT INTO tags for an existing user, under a name that user does not have yet. */
    method InsertTag(uid: Id, name: string, now: Timestamp) returns (t: Tag)
      requires Valid()
      requires uid in users
      requires forall k :: k in tags && tags[k].userId == uid ==> tags[k].name != name
      modifies this
      ensures Valid()
      ensures t == Tag(old(nextTagId), uid, name, now)
      ensures old(nextTagId) !in old(tags)
      ensures Tables() == old(Tables()).(tags := old(tags)[t.id := t])
      ensures nextTagId == old(nextTagId) + 1
      ensures nextUserId == old(nextUserId) && nextItemId == old(nextItemId)
    {
      t := Tag(nextTagId, uid, name, now);
      tags := tags[t.id := t];
      nextTagId := nextTagId + 1;
    }

    /** INSERT INTO items, and one item_tags row per tag, all tags being the
        owner's. Both timestamps are `now()`. */
    method InsertItem(uid: Id, title: string, kind: Kind, status: Status, priority: Priority,
                      notes: Option<string>, tagIds: set<Id>, now: Timestamp) returns (it: Item)
      requires Valid()
      requires uid in users
      requires forall t :: t in tagIds ==> t in tags && tags[t].userId == uid
      modifies this
      ensures Valid()
      ensures it == Item(old(nextItemId), uid, title, kind, status, priority, notes, now, now)
      ensures old(nextItemId) !in old(items)
      ensures Tables() == old(Tables()).(items := old(items)[it.id := it], links := old(links) + Schema.LinksFor(it.id, tagIds))
      ensures Schema.TagIdsOf(links, it.id) == tagIds
      ensures nextItemId == old(nextItemId) + 1
      ensures nextUserId == old(nextUserId) && nextTagId == old(nextTagId)
    {
      it := Item(nextItemId, uid, title, kind, status, priority, notes, now, now);
      assert forall l :: l in links ==> l.itemId != it.id;
      items := items[it.id := it];
      links := links + Schema.LinksFor(it.id, tagIds);
      nextItemId := nextItemId + 1;
    }

    /** An INSERT INTO tags that the foreign key rejects: the row is not
        stored, but the sequence has already handed out its next value, and a
        sequence never takes a value back. */
    method SkipTagId()
      requires Valid()
      modifies this
      ensures Valid()
      ensures Tables() == old(Tables())
      ensures nextTagId == old(nextTagId) + 1
      ensures nextUserId == old(nextUserId) && nextItemId == old(nextItemId)
    {
      nextTagId := nextTagId + 1;
    }

    /** An INSERT INTO items that the foreign key rejects: nothing is stored,
        and the sequence value it drew is lost. */
    method SkipItemId()
      requires Valid()
      modifies this
      ensures Valid()
      ensures Tables() == old(Tables())
      ensures nextItemId == old(nextItemId) + 1
      ensures nextUserId == old(nextUserId) && nextTagId == old(nextTagId)
    {
      nextItemId := nextItemId + 1;
    }

    /** UPDATE users SET ... for an existing row, keeping emails unique. */
    method ReplaceUser(u: User)
      requires Valid()
      requires u.id in users
      requires forall k :: k in users && k != u.id ==> users[k].email != u.email
      modifies this
      ensures Valid()
      ensures Tables() == old(Tables()).(users := old(users)[u.id := u])
      ensures nextUserId == old(nextUserId) && nextTagId == old(nextTagId) && nextItemId == old(nextItemId)
    {
      users := users[u.id := u];
    }

    /** UPDATE tags SET ... for an existing row, keeping its owner and the
        per-user uniqueness of names. */
    method ReplaceTag(t: Tag)
      requires Valid()
      requires t.id in tags && tags[t.id].userId == t.userId
      requires forall k :: k in tags && k != t.id && tags[k].userId == t.userId ==> tags[k].name != t.name
      modifies this
      ensures Valid()
      ensures Tables() == old(Tables()).(tags := old(tags)[t.id := t])
      ensures nextUserId == old(nextUserId) && nextTagId == old(nextTagId) && nextItemId == old(nextItemId)
    {
      tags := tags[t.id := t];
    }

    /** UPDATE items SET ... for an existing row, keeping its owner, and
        replacing its item_tags rows by one per tag of `tagIds` (the owner's). */
    method ReplaceItem(it: Item, tagIds: set<Id>)
      requires Valid()
      requires it.id in items && items[it.id].userId == it.userId
      requires forall t :: t in tagIds ==> t in tags && tags[t].userId == it.userId
      modifies this
      ensures Valid()
      ensures Tables() == old(Tables()).(items := old(items)[it.id := it], links := Schema.Relink(old(links), it.id, tagIds))
      ensures Schema.TagIdsOf(links, it.id) == tagIds
      ensures nextUserId == old(nextUserId) && nextTagId == old(nextTagId) && nextItemId == old(nextItemId)
    {
      items := items[it.id := it];
      links := Schema.Relink(links, it.id, tagIds);
    }

    /** DELETE FROM users, with the cascades of the foreign keys. */
    method DeleteUser(id: Id)
      requires Valid()
      modifies this
      ensures Valid()
      ensures Tables() == Schema.DeleteUser(old(Tables()), id)
      ensures nextUserId == old(nextUserId) && nextTagId == old(nextTagId) && nextItemId == old(nextItemId)
    {
      Schema.DeleteUserCascades(Tables(), id);
      var t := Schema.DeleteUser(Tables(), id);
      users, tags, items, links := t.users, t.tags, t.items, t.links;
    }

    /** DELETE FROM items, with the cascade to item_tags. */
    method DeleteItem(id: Id)
      requires Valid()
      modifies this
      ensures Valid()
      ensures Tables() == Schema.DeleteItem(old(Tables()), id)
      ensures nextUserId == old(nextUserId) && nextTagId == old(nextTagId) && nextItemId == old(nextItemId)
    {
      Schema.DeleteItemCascades(Tables(), id);
      var t := Schema.DeleteItem(Tables(), id);
      items, links := t.items, t.links;
    }

    /** DELETE FROM tags, with the cascade to item_tags. */
    method DeleteTag(id: Id)
      requires Valid()
      modifies this
      ensures Valid()
      ensures Tables() == Schema.DeleteTag(old(Tables()), id)
      ensures nextUserId == old(nextUserId) && nextTagId == old(nextTagId) && nextItemId == old(nextItemId)
    {
      Schema.DeleteTagCascades(Tables(), id);
      var t := Schema.DeleteTag(Tables(), id);
      tags, links := t.tags, t.links;
    }
  }
}
