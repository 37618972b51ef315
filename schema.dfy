/** The relational schema of the initial migration, stated as invariants of
    the four tables: primary keys, the unique email index, the unique
    (user_id, name) constraint on tags, the foreign keys with ON DELETE
    CASCADE, and the composite key of item_tags. */
module Schema {
  import opened Domain

  /** The tables, keyed by primary key. item_tags has the composite primary
      key (item_id, tag_id), so it is a set of pairs. */
  datatype Tables = Tables(
    users: map<Id, User>,
    tags: map<Id, Tag>,
    items: map<Id, Item>,
    links: set<ItemTag>)

  const Empty: Tables := Tables(map[], map[], map[], {})

  /** Every row is stored under its own primary key. */
  ghost predicate KeyedById(t: Tables) {
    && (forall k :: k in t.users ==> t.users[k].id == k)
    && (forall k :: k in t.tags ==> t.tags[k].id == k)
    && (forall k :: k in t.items ==> t.items[k].id == k)
  }

  /** The unique index `ix_users_email`. */
  ghost predicate UniqueEmails(users: map<Id, User>) {
    forall a, b :: a in users && b in users && users[a].email == users[b].email ==> a == b
  }

  /** The constraint `uq_tags_user_id_name`. */
  ghost predicate UniqueTagNames(tags: map<Id, Tag>) {
    forall a, b ::
      a in tags && b in tags && tags[a].userId == tags[b].userId && tags[a].name == tags[b].name ==> a == b
  }

  /** items.user_id and tags.user_id reference users; item_tags references items and tags. */
  ghost predicate ForeignKeys(t: Tables) {
    && (forall k :: k in t.tags ==> t.tags[k].userId in t.users)
    && (forall k :: k in t.items ==> t.items[k].userId in t.users)
    && (forall l :: l in t.links ==> l.itemId in t.items && l.tagId in t.tags)
  }

  /** An item's tags belong to the item's owner. The database does not check
      this; the item service keeps it by attaching only the acting user's tags. */
  ghost predicate TagsShareOwner(t: Tables) {
    forall l :: l in t.links && l.itemId in t.items && l.tagId in t.tags ==>
      t.tags[l.tagId].userId == t.items[l.itemId].userId
  }

  ghost predicate Consistent(t: Tables) {
    && KeyedById(t)
    && UniqueEmails(t.users)
    && UniqueTagNames(t.tags)
    && ForeignKeys(t)
    && TagsShareOwner(t)
  }

  /** Deleting a user: ON DELETE CASCADE removes the user's items and tags,
      and through them every item_tags row that references one of those. */
  function DeleteUser(t: Tables, uid: Id): Tables {
    var items := map k | k in t.items && t.items[k].userId != uid :: t.items[k];
    var tags := map k | k in t.tags && t.tags[k].userId != uid :: t.tags[k];
    Tables(t.users - {uid}, tags, items, set l | l in t.links && l.itemId in items && l.tagId in tags)
  }

  /** Deleting an item removes its item_tags rows and nothing else. */
  function DeleteItem(t: Tables, id: Id): Tables {
    t.(items := t.items - {id}, links := set l | l in t.links && l.itemId != id)
  }

  /** Deleting a tag removes its item_tags rows and nothing else. */
  function DeleteTag(t: Tables, id: Id): Tables {
    t.(tags := t.tags - {id}, links := set l | l in t.links && l.tagId != id)
  }

  /** The item_tags rows of one item, as the ids of its tags. */
  function TagIdsOf(links: set<ItemTag>, itemId: Id): (ids: set<Id>)
    ensures forall t :: t in ids <==> ItemTag(itemId, t) in links
  {
    set l | l in links && l.itemId == itemId :: l.tagId
  }

  /** The rows linking `itemId` to each of `tagIds`. */
  function LinksFor(itemId: Id, tagIds: set<Id>): (r: set<ItemTag>)
    ensures forall l :: l in r <==> l.itemId == itemId && l.tagId in tagIds
  {
    set t | t in tagIds :: ItemTag(itemId, t)
  }

  /** Replacing the tag set of an item: its old rows go, one row per new tag comes. */
  function Relink(links: set<ItemTag>, itemId: Id, tagIds: set<Id>): (r: set<ItemTag>)
    ensures TagIdsOf(r, itemId) == tagIds
    ensures forall l: ItemTag :: l.itemId != itemId ==> (l in r <==> l in links)
  {
    (set l | l in links && l.itemId != itemId) + LinksFor(itemId, tagIds)
  }

  /** The unique index lets at most one user hold an email. */
  lemma AtMostOneUserPerEmail(users: map<Id, User>, email: string)
    requires UniqueEmails(users)
    ensures |set k | k in users && users[k].email == email| <= 1
  {
    var holders := set k | k in users && users[k].email == email;
    if holders != {} {
      var a :| a in holders;
      assert holders == {a};
    }
  }

  /** The unique constraint lets at most one tag of a user carry a name. */
  lemma AtMostOneTagPerName(tags: map<Id, Tag>, uid: Id, name: string)
    requires UniqueTagNames(tags)
    ensures |set k | k in tags && tags[k].userId == uid && tags[k].name == name| <= 1
  {
    var holders := set k | k in tags && tags[k].userId == uid && tags[k].name == name;
    if holders != {} {
      var a :| a in holders;
      assert holders == {a};
    }
  }

  /** Deleting a user keeps the schema, leaves none of the user's rows, and
      keeps every row of every other user. */
  lemma DeleteUserCascades(t: Tables, uid: Id)
    requires Consistent(t)
    ensures Consistent(DeleteUser(t, uid))
    ensures var r := DeleteUser(t, uid);
      && uid !in r.users
      && (forall k :: k in r.items ==> r.items[k].userId != uid)
      && (forall k :: k in r.tags ==> r.tags[k].userId != uid)
      && (forall k :: k in t.users && k != uid ==> k in r.users && r.users[k] == t.users[k])
      && (forall k :: k in t.items && t.items[k].userId != uid ==> k in r.items && r.items[k] == t.items[k])
      && (forall k :: k in t.tags && t.tags[k].userId != uid ==> k in r.tags && r.tags[k] == t.tags[k])
      && (forall l :: l in t.links && l.itemId in r.items ==> l in r.links)
  {
    var r := DeleteUser(t, uid);
    forall l | l in t.links && l.itemId in r.items
      ensures l in r.links
    {
      assert t.tags[l.tagId].userId == t.items[l.itemId].userId;
    }
  }

  /** Deleting an item keeps the schema and never touches users or tags. */
  lemma DeleteItemCascades(t: Tables, id: Id)
    requires Consistent(t)
    ensures Consistent(DeleteItem(t, id))
    ensures var r := DeleteItem(t, id);
      && id !in r.items && r.users == t.users && r.tags == t.tags
      && (forall l :: l in r.links <==> l in t.links && l.itemId != id)
  {
  }

  /** Deleting a tag keeps the schema and never touches users or items. */
  lemma DeleteTagCascades(t: Tables, id: Id)
    requires Consistent(t)
    ensures Consistent(DeleteTag(t, id))
    ensures var r := DeleteTag(t, id);
      && id !in r.tags && r.users == t.users && r.items == t.items
      && (forall l :: l in r.links <==> l in t.links && l.tagId != id)
  {
  }
}
