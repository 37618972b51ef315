/** The item service (reading_list/services/item.py): every operation is
    scoped to the acting user; tags are attached all or nothing; updates are
    partial. */
module Items {
  import opened Domain
  import Schema
  import Storage
  import ItemRepository
  import Tags

  /** The create payload, with the request schema's defaults already filled in. */
  datatype ItemCreate = ItemCreate(
    title: string,
    kind: Kind,
    status: Status,
    priority: Priority,
    notes: Option<string>,
    tagIds: Option<seq<Id>>)

  /** The update payload; every field may be left out, sent as null, or sent. */
  datatype ItemUpdate = ItemUpdate(
    title: Field<string>,
    kind: Field<Kind>,
    status: Field<Status>,
    priority: Field<Priority>,
    notes: Field<string>,
    tagIds: Field<seq<Id>>)

  /** `ItemOut`; the ids of the item's tags come in no particular order, so
      they are a set. */
  datatype ItemOut = ItemOut(
    id: Id,
    userId: Id,
    title: string,
    kind: Kind,
    status: Status,
    priority: Priority,
    notes: Option<string>,
    createdAt: Timestamp,
    updatedAt: Timestamp,
    tagIds: set<Id>)

  datatype PageMeta = PageMeta(total: nat, limit: nat, offset: nat)

  datatype ItemPage = ItemPage(itemsList: seq<ItemOut>, meta: PageMeta)

  const ItemNotFound: string := "Item not found"

  /** `_to_item_out`: the row's columns and the ids of its tags. */
  function ToItemOut(it: Item, links: set<ItemTag>): (o: ItemOut)
    ensures forall t :: t in o.tagIds <==> ItemTag(it.id, t) in links
  {
    ItemOut(it.id, it.userId, it.title, it.kind, it.status, it.priority, it.notes,
            it.createdAt, it.updatedAt, Schema.TagIdsOf(links, it.id))
  }

  // ---------------------------------------------------------------------
  // sorted(missing)
  // ---------------------------------------------------------------------

  lemma {:induction false} MinExists(s: set<Id>)
    requires s != {}
    ensures exists m :: m in s && forall y :: y in s ==> m <= y
    decreases |s|
  {
    var x :| x in s;
    if s == {x} {
      assert forall y :: y in s ==> x <= y;
    } else {
      MinExists(s - {x});
      var m :| m in s - {x} && forall y :: y in s - {x} ==> m <= y;
      if x <= m {
        forall y | y in s ensures x <= y {
          if y != x {
            assert y in s - {x};
          }
        }
      } else {
        forall y | y in s ensures m <= y {
          if y != x {
            assert y in s - {x};
          }
        }
      }
    }
  }

  /** The least id of a non-empty set. */
  function MinOf(s: set<Id>): (m: Id)
    requires s != {}
    ensures m in s && forall y :: y in s ==> m <= y
  {
    MinExists(s);
    var m :| m in s && forall y :: y in s ==> m <= y;
    m
  }

  /** The ids of a set in increasing order. */
  function SortedIds(s: set<Id>): (r: seq<Id>)
    ensures |r| == |s|
    ensures forall x :: x in r <==> x in s
    ensures forall i, j :: 0 <= i < j < |r| ==> r[i] < r[j]
    decreases |s|
  {
    if s == {} then []
    else
      var m := MinOf(s);
      [m] + SortedIds(s - {m})
  }

  // ---------------------------------------------------------------------
  // _apply_tags_by_ids
  // ---------------------------------------------------------------------

  /** The distinct ids of a list. */
  function IdSet(ids: seq<Id>): (r: set<Id>)
    ensures forall i :: i in r <==> i in ids
  {
    set i | i in ids
  }

  /** The requested ids that are not a tag of the user: absent, or another user's. */
  function MissingIds(tags: map<Id, Tag>, uid: Id, ids: seq<Id>): (m: set<Id>)
    ensures forall i :: i in m <==> i in ids && !Tags.Owns(tags, uid, i)
  {
    set i | i in ids && !Tags.Owns(tags, uid, i)
  }

  /** What `_apply_tags_by_ids` leaves as the item's tags, given its current
      ones: unchanged for no list, none for an empty list; otherwise the listed
      ids if all are the user's tags (duplicates collapse), and else a 400
      naming the missing ids in increasing order, with the tags untouched. */
  function TagsOutcome(tags: map<Id, Tag>, uid: Id, current: set<Id>, tagIds: Option<seq<Id>>): (r: Result<set<Id>>)
    ensures tagIds.None? ==> r == Ok(current)
    ensures tagIds.Some? && r.Ok? ==> forall t :: t in r.value <==> t in tagIds.value && Tags.Owns(tags, uid, t)
    ensures tagIds.Some? ==> (r.Err? <==> exists i :: i in tagIds.value && !Tags.Owns(tags, uid, i))
    ensures r.Err? ==>
      && r.error.TagsNotFound?
      && (forall i :: i in r.error.missing <==> i in tagIds.value && !Tags.Owns(tags, uid, i))
      && (forall i, j :: 0 <= i < j < |r.error.missing| ==> r.error.missing[i] < r.error.missing[j])
  {
    if tagIds.None? then Ok(current)
    else if |tagIds.value| == 0 then Ok({})
    else
      var missing := MissingIds(tags, uid, tagIds.value);
      if missing != {} then Err(TagsNotFound(SortedIds(missing)))
      else Ok(IdSet(tagIds.value))
  }

  /** Only the set of requested ids matters: order and repetitions do not. */
  lemma TagsOutcomeIgnoresOrder(tags: map<Id, Tag>, uid: Id, current: set<Id>, a: seq<Id>, b: seq<Id>)
    requires forall i :: i in a <==> i in b
    ensures TagsOutcome(tags, uid, current, Some(a)) == TagsOutcome(tags, uid, current, Some(b))
  {
    assert |a| == 0 <==> |b| == 0 by {
      if |a| > 0 { assert a[0] in b; }
      if |b| > 0 { assert b[0] in a; }
    }
    assert MissingIds(tags, uid, a) == MissingIds(tags, uid, b);
    assert IdSet(a) == IdSet(b);
  }

  // ---------------------------------------------------------------------
  // The partial update of an item row
  // ---------------------------------------------------------------------

  /** The columns a payload can change are equal. */
  predicate SameColumns(a: Item, b: Item) {
    a.title == b.title && a.kind == b.kind && a.status == b.status
    && a.priority == b.priority && a.notes == b.notes
  }

  function Pick<T>(f: Field<T>, current: T): T {
    if f.Sent? then f.value else current
  }

  /** The row after `setattr` of every sent field (with `tag_ids` popped
      first). title, kind, status and priority are NOT NULL, so sending one of
      them as null makes the flush fail; notes sent as null clears the notes.
      `updated_at` becomes `now()` when the UPDATE changes a column, and stays
      otherwise. */
  function ApplyItemUpdate(it: Item, p: ItemUpdate, now: Timestamp): (r: Result<Item>)
    ensures r.Err? <==> p.title.Null? || p.kind.Null? || p.status.Null? || p.priority.Null?
    ensures r.Err? ==> r.error.IntegrityError?
    ensures r.Ok? ==> r.value.id == it.id && r.value.userId == it.userId && r.value.createdAt == it.createdAt
    ensures r.Ok? ==> (p.title.Unset? ==> r.value.title == it.title) && (p.title.Sent? ==> r.value.title == p.title.value)
    ensures r.Ok? ==> (p.kind.Unset? ==> r.value.kind == it.kind) && (p.kind.Sent? ==> r.value.kind == p.kind.value)
    ensures r.Ok? ==> (p.status.Unset? ==> r.value.status == it.status) && (p.status.Sent? ==> r.value.status == p.status.value)
    ensures r.Ok? ==> (p.priority.Unset? ==> r.value.priority == it.priority) && (p.priority.Sent? ==> r.value.priority == p.priority.value)
    ensures r.Ok? ==>
      && (p.notes.Unset? ==> r.value.notes == it.notes)
      && (p.notes.Null? ==> r.value.notes == None)
      && (p.notes.Sent? ==> r.value.notes == Some(p.notes.value))
    ensures r.Ok? && SameColumns(r.value, it) ==> r.value == it
    ensures r.Ok? && !SameColumns(r.value, it) ==> r.value.updatedAt == now
  {
    if p.title.Null? then Err(IntegrityError("items.title"))
    else if p.kind.Null? then Err(IntegrityError("items.kind"))
    else if p.status.Null? then Err(IntegrityError("items.status"))
    else if p.priority.Null? then Err(IntegrityError("items.priority"))
    else
      var notes := if p.notes.Sent? then Some(p.notes.value) else if p.notes.Null? then None else it.notes;
      var patched := it.(title := Pick(p.title, it.title), kind := Pick(p.kind, it.kind),
                         status := Pick(p.status, it.status), priority := Pick(p.priority, it.priority),
                         notes := notes);
      if SameColumns(patched, it) then Ok(it) else Ok(patched.(updatedAt := now))
  }

  /** Sending the same update again changes nothing, not even `updated_at`. */
  lemma ItemUpdateIdempotent(it: Item, p: ItemUpdate, now: Timestamp, later: Timestamp)
    requires ApplyItemUpdate(it, p, now).Ok?
    ensures ApplyItemUpdate(ApplyItemUpdate(it, p, now).value, p, later) == ApplyItemUpdate(it, p, now)
  {
  }

  /** An update that sends nothing leaves the row as it was. */
  lemma EmptyItemUpdateKeepsRow(it: Item, now: Timestamp)
    ensures ApplyItemUpdate(it, ItemUpdate(Unset, Unset, Unset, Unset, Unset, Unset), now) == Ok(it)
  {
  }

  /** `data.pop("tag_ids", None)`: a list left out and a list sent as null both
      leave the tags alone. */
  function TagIdsArgument(f: Field<seq<Id>>): (r: Option<seq<Id>>)
    ensures r.None? <==> !f.Sent?
    ensures f.Sent? ==> r == Some(f.value)
  {
    if f.Sent? then Some(f.value) else None
  }

  /** The setattr loop as written calls `items_list()` on the dict of sent
      fields, which raises before any field is set, whatever was sent. */
  function SetattrLoopAsWritten(it: Item, p: ItemUpdate): Result<Item> {
    Err(AttributeError("items_list"))
  }

  /** Renaming an item: the intended update succeeds and changes the title,
      while the loop as written refuses it. */
  lemma RenameRefusedAsWritten(it: Item, now: Timestamp)
    requires it.title != "Renamed"
    ensures var p := ItemUpdate(Sent("Renamed"), Unset, Unset, Unset, Unset, Unset);
      && ApplyItemUpdate(it, p, now).Ok?
      && ApplyItemUpdate(it, p, now).value.title == "Renamed"
      && SetattrLoopAsWritten(it, p).Err?
  {
  }

  /** Converting a page item by item keeps every item the acting user's. */
  lemma OutsBelongToUser(page: seq<Item>, outs: seq<ItemOut>, links: set<ItemTag>, uid: Id)
    requires |outs| == |page| && forall i :: 0 <= i < |page| ==> outs[i] == ToItemOut(page[i], links)
    requires forall it :: it in page ==> it.userId == uid
    ensures forall o :: o in outs ==> o.userId == uid
  {
    forall o | o in outs ensures o.userId == uid {
      var i :| 0 <= i < |outs| && outs[i] == o;
      assert page[i] in page;
    }
  }

  class ItemsService {
    const store: Storage.Store
    const userId: Id

    constructor (store: Storage.Store, userId: Id)
      ensures this.store == store && this.userId == userId
    {
      this.store := store;
      this.userId := userId;
    }

    /** `_apply_tags_by_ids`: queries the user's tags among the requested ids,
        compares the ids found with the ids requested, and either refuses with
        the sorted missing ids or yields the tags found. */
    method ApplyTagsByIds(current: set<Id>, tagIds: Option<seq<Id>>) returns (r: Result<set<Id>>)
      requires store.Valid()
      ensures r == TagsOutcome(store.tags, userId, current, tagIds)
    {
      if tagIds.None? {
        return Ok(current);
      }
      if |tagIds.value| == 0 {
        return Ok({});
      }
      var tags := ItemRepository.GetTagsForUserByIds(store.tags, userId, tagIds.value);
      var foundIds := set t | t in tags :: t.id;
      var missing := IdSet(tagIds.value) - foundIds;
      assert forall i :: i in foundIds <==> i in tagIds.value && Tags.Owns(store.tags, userId, i) by {
        forall i | i in tagIds.value && Tags.Owns(store.tags, userId, i) ensures i in foundIds {
          assert store.tags[i] in tags;
        }
      }
      assert missing == MissingIds(store.tags, userId, tagIds.value);
      if missing != {} {
        return Err(TagsNotFound(SortedIds(missing)));
      }
      assert foundIds == IdSet(tagIds.value);
      r := Ok(foundIds);
    }

    /** `get_by_id`: the acting user's item with its tag ids, or 404 when it is
        absent or another user's. */
    method GetById(objId: Id) returns (r: Result<ItemOut>)
      ensures r.Ok? <==> objId in store.items && store.items[objId].userId == userId
      ensures r.Ok? ==> r.value == ToItemOut(store.items[objId], store.links)
      ensures r.Err? ==> r.error == NotFound(ItemNotFound)
    {
      var item := ItemRepository.GetItemForUser(store.items, objId, userId);
      if item.None? {
        return Err(NotFound(ItemNotFound));
      }
      r := Ok(ToItemOut(item.value, store.links));
    }

    /** `get`: one page of the acting user's items under the filters, each
        with its tag ids, and the page metadata. */
    method Get(filters: ItemRepository.ItemFilters) returns (r: ItemPage)
      requires store.Valid()
      ensures r.meta.limit == filters.limit && r.meta.offset == filters.offset
      ensures exists page ::
        && ItemRepository.IsPageOf(page, r.meta.total, store.items, store.links, userId, filters)
        && |r.itemsList| == |page|
        && forall i :: 0 <= i < |page| ==> r.itemsList[i] == ToItemOut(page[i], store.links)
      ensures forall o :: o in r.itemsList ==> o.userId == userId
      ensures |r.itemsList| <= filters.limit
    {
      var page, total := ItemRepository.GetWithFilters(store.items, store.links, userId, filters);
      var outs: seq<ItemOut> := [];
      for i := 0 to |page|
        invariant |outs| == i
        invariant forall j :: 0 <= j < i ==> outs[j] == ToItemOut(page[j], store.links)
      {
        outs := outs + [ToItemOut(page[i], store.links)];
      }
      ItemRepository.PageProperties(page, total, store.items, store.links, userId, filters);
      OutsBelongToUser(page, outs, store.links, userId);
      r := ItemPage(outs, PageMeta(total, filters.limit, filters.offset));
    }

    /** `create`: the tags are checked before the item is added, so a refused
        tag list changes nothing. An acting user that does not exist makes the
        INSERT violate the foreign key: no row is stored, but the item id
        sequence has moved on. Otherwise the item is stored for the acting user
        with its tags. */
    method Create(payload: ItemCreate, now: Timestamp) returns (r: Result<ItemOut>)
      requires store.Valid()
      modifies store
      ensures store.Valid()
      ensures var tags := TagsOutcome(old(store.tags), userId, {}, payload.tagIds);
        && (tags.Err? ==> r == Err(tags.error))
        && (tags.Ok? && userId !in old(store.users) ==> r == Err(IntegrityError("items_user_id_fkey")))
        && (r.Ok? <==> tags.Ok? && userId in old(store.users))
        && (r.Ok? ==>
              var it := Item(old(store.nextItemId), userId, payload.title, payload.kind, payload.status,
                             payload.priority, payload.notes, now, now);
              && it.id !in old(store.items)
              && r.value == ToItemOut(it, store.links)
              && r.value.tagIds == tags.value
              && store.Tables() == old(store.Tables()).(items := old(store.items)[it.id := it],
                                                       links := old(store.links) + Schema.LinksFor(it.id, tags.value))
              && store.nextItemId == old(store.nextItemId) + 1)
        && (tags.Err? ==> unchanged(store))
        && (tags.Ok? && userId !in old(store.users) ==>
              && store.Tables() == old(store.Tables())
              && store.nextItemId == old(store.nextItemId) + 1)
      ensures store.nextUserId == old(store.nextUserId) && store.nextTagId == old(store.nextTagId)
    {
      var tags := ApplyTagsByIds({}, payload.tagIds);
      if tags.Err? {
        return Err(tags.error);
      }
      if userId !in store.users {
        store.SkipItemId();
        return Err(IntegrityError("items_user_id_fkey"));
      }
      var item := store.InsertItem(userId, payload.title, payload.kind, payload.status, payload.priority,
                                   payload.notes, tags.value, now);
      r := Ok(ToItemOut(item, store.links));
    }

    /** `update` as intended: 404 for an item that is absent or another
        user's; a NOT NULL column sent as null fails when the session flushes,
        before tags are looked at; a refused tag list changes nothing;
        otherwise exactly the sent fields change, and the tags are replaced
        when a list was sent and kept when it was left out or null. */
    method Update(objId: Id, payload: ItemUpdate, now: Timestamp) returns (r: Result<ItemOut>)
      requires store.Valid()
      modifies store
      ensures store.Valid()
      ensures r.Err? ==> unchanged(store)
      ensures objId !in old(store.items) || old(store.items)[objId].userId != userId ==> r == Err(NotFound(ItemNotFound))
      ensures objId in old(store.items) && old(store.items)[objId].userId == userId ==>
        var patched := ApplyItemUpdate(old(store.items)[objId], payload, now);
        var tags := TagsOutcome(old(store.tags), userId, Schema.TagIdsOf(old(store.links), objId), TagIdsArgument(payload.tagIds));
        && (patched.Err? ==> r == Err(patched.error))
        && (patched.Ok? && tags.Err? ==> r == Err(tags.error))
        && (patched.Ok? && tags.Ok? ==>
              && r == Ok(ToItemOut(patched.value, store.links))
              && r.value.tagIds == tags.value
              && store.Tables() == old(store.Tables()).(items := old(store.items)[objId := patched.value],
                                                       links := Schema.Relink(old(store.links), objId, tags.value)))
      ensures store.nextUserId == old(store.nextUserId) && store.nextTagId == old(store.nextTagId) && store.nextItemId == old(store.nextItemId)
    {
      var item := ItemRepository.GetItemForUser(store.items, objId, userId);
      if item.None? {
        return Err(NotFound(ItemNotFound));
      }
      var patched := ApplyItemUpdate(item.value, payload, now);
      if patched.Err? {
        return Err(patched.error);
      }
      var current := Schema.TagIdsOf(store.links, objId);
      var tags := ApplyTagsByIds(current, TagIdsArgument(payload.tagIds));
      if tags.Err? {
        return Err(tags.error);
      }
      assert forall t :: t in current ==> Tags.Owns(store.tags, userId, t) by {
        forall t | t in current ensures Tags.Owns(store.tags, userId, t) {
          assert ItemTag(objId, t) in store.links;
        }
      }
      store.ReplaceItem(patched.value, tags.value);
      r := Ok(ToItemOut(patched.value, store.links));
    }

    /** `update` as written: past the 404 check, the setattr loop raises
        AttributeError whatever the payload, and nothing is committed. */
    method UpdateAsWritten(objId: Id, payload: ItemUpdate, now: Timestamp) returns (r: Result<ItemOut>)
      ensures objId !in store.items || store.items[objId].userId != userId ==> r == Err(NotFound(ItemNotFound))
      ensures objId in store.items && store.items[objId].userId == userId ==> r == Err(AttributeError("items_list"))
    {
      var item := ItemRepository.GetItemForUser(store.items, objId, userId);
      if item.None? {
        return Err(NotFound(ItemNotFound));
      }
      var patched := SetattrLoopAsWritten(item.value, payload);
      r := Err(patched.error);
    }

    /** `delete`: 404 for an item that is absent or another user's; otherwise
        the item and its links go, and the id is returned. */
    method Delete(objId: Id) returns (r: Result<Id>)
      requires store.Valid()
      modifies store
      ensures store.Valid()
      ensures r.Err? <==> objId !in old(store.items) || old(store.items)[objId].userId != userId
      ensures r.Err? ==> r.error == NotFound(ItemNotFound) && unchanged(store)
      ensures r.Ok? ==>
        && r.value == objId && objId !in store.items
        && store.Tables() == Schema.DeleteItem(old(store.Tables()), objId)
      ensures store.nextUserId == old(store.nextUserId) && store.nextTagId == old(store.nextTagId) && store.nextItemId == old(store.nextItemId)
    {
      var item := ItemRepository.GetItemForUser(store.items, objId, userId);
      if item.None? {
        return Err(NotFound(ItemNotFound));
      }
      store.DeleteItem(objId);
      r := Ok(objId);
    }
  }
}
