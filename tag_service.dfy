/** The tag service (reading_list/services/tag.py): every operation is scoped
    to the acting user, and names are unique per user. */
module Tags {
  import opened Domain
  import Schema
  import Storage
  import Text
  import TagRepository

  datatype TagCreate = TagCreate(name: string)

  datatype TagOut = TagOut(id: Id, userId: Id, name: string)

  const TagNotFound: string := "Tag not found"
  const NameTaken: string := "Tag with this name already exists"

  function ToTagOut(t: Tag): TagOut {
    TagOut(t.id, t.userId, t.name)
  }

  /** The acting user owns a tag stored under `id`. */
  predicate Owns(tags: map<Id, Tag>, uid: Id, id: Id) {
    id in tags && tags[id].userId == uid
  }

  /** The user already has a tag other than `except` named `name`. */
  ghost predicate NameUsed(tags: map<Id, Tag>, uid: Id, name: string, except: Option<Id>) {
    exists k :: k in tags && tags[k].userId == uid && tags[k].name == name && Some(k) != except
  }

  /** Converting the listing of the user's tags one by one yields exactly the
      outputs of the tags the user owns. */
  lemma OutsAreOwnTags(tags: map<Id, Tag>, uid: Id, listing: seq<Tag>, outs: seq<TagOut>)
    requires forall k :: k in tags ==> tags[k].id == k
    requires forall t :: t in listing <==> t in tags.Values && t.userId == uid
    requires |outs| == |listing| && forall j :: 0 <= j < |listing| ==> outs[j] == ToTagOut(listing[j])
    ensures forall o :: o in outs <==> exists k :: Owns(tags, uid, k) && o == ToTagOut(tags[k])
  {
    forall o | o in outs ensures exists k :: Owns(tags, uid, k) && o == ToTagOut(tags[k]) {
      var j :| 0 <= j < |outs| && outs[j] == o;
      assert listing[j] in listing;
      assert tags[listing[j].id] == listing[j];
    }
    forall k | Owns(tags, uid, k) ensures ToTagOut(tags[k]) in outs {
      assert tags[k] in listing;
      var j :| 0 <= j < |listing| && listing[j] == tags[k];
      assert outs[j] == ToTagOut(tags[k]);
    }
  }

  class TagService {
    const store: Storage.Store
    const userId: Id

    constructor (store: Storage.Store, userId: Id)
      ensures this.store == store && this.userId == userId
    {
      this.store := store;
      this.userId := userId;
    }

    /** `get_by_id`: the acting user's tag, or 404 when it is absent or another user's. */
    method GetById(objId: Id) returns (r: Result<TagOut>)
      ensures r.Ok? <==> Owns(store.tags, userId, objId)
      ensures r.Ok? ==> r.value == ToTagOut(store.tags[objId])
      ensures r.Err? ==> r.error == NotFound(TagNotFound)
    {
      var tag := TagRepository.GetById(store.tags, objId);
      if tag.None? || tag.value.userId != userId {
        return Err(NotFound(TagNotFound));
      }
      r := Ok(ToTagOut(tag.value));
    }

    /** `get`: exactly the acting user's tags, in ascending name order. */
    method Get() returns (r: seq<TagOut>)
      requires store.Valid()
      ensures forall o :: o in r <==> exists k :: Owns(store.tags, userId, k) && o == ToTagOut(store.tags[k])
      ensures forall i, j :: 0 <= i < j < |r| ==> Text.NameLeq(r[i].name, r[j].name) && r[i].name != r[j].name
    {
      var tags := TagRepository.GetForUser(store.tags, userId);
      r := [];
      for i := 0 to |tags|
        invariant |r| == i
        invariant forall j :: 0 <= j < i ==> r[j] == ToTagOut(tags[j])
      {
        r := r + [ToTagOut(tags[i])];
      }
      OutsAreOwnTags(store.tags, userId, tags, r);
    }

    /** `create`: a name the acting user already uses is refused with 400 (the
        same name under another user is no conflict) and nothing changes. An
        acting user that does not exist makes the INSERT violate the foreign
        key: no row is stored, but the tag id sequence has moved on. Otherwise
        a fresh tag is added. */
    method Create(payload: TagCreate, now: Timestamp) returns (r: Result<TagOut>)
      requires store.Valid()
      modifies store
      ensures store.Valid()
      ensures r.Ok? <==> userId in old(store.users) && !NameUsed(old(store.tags), userId, payload.name, None)
      ensures NameUsed(old(store.tags), userId, payload.name, None) ==>
        r == Err(BadRequest(NameTaken)) && unchanged(store)
      ensures !NameUsed(old(store.tags), userId, payload.name, None) && userId !in old(store.users) ==>
        && r == Err(IntegrityError("tags_user_id_fkey"))
        && store.Tables() == old(store.Tables())
        && store.nextTagId == old(store.nextTagId) + 1
        && store.nextUserId == old(store.nextUserId) && store.nextItemId == old(store.nextItemId)
      ensures r.Ok? ==>
        var t := Tag(old(store.nextTagId), userId, payload.name, now);
        && r.value == ToTagOut(t)
        && t.id !in old(store.tags)
        && store.Tables() == old(store.Tables()).(tags := old(store.tags)[t.id := t])
        && store.nextTagId == old(store.nextTagId) + 1
        && store.nextUserId == old(store.nextUserId) && store.nextItemId == old(store.nextItemId)
    {
      var existing := TagRepository.GetByNameForUser(store.tags, userId, payload.name);
      if existing.Some? {
        return Err(BadRequest(NameTaken));
      }
      if userId !in store.users {
        store.SkipTagId();
        return Err(IntegrityError("tags_user_id_fkey"));
      }
      var tag := store.InsertTag(userId, payload.name, now);
      r := Ok(ToTagOut(tag));
    }

    /** `update`: 404 for a tag that is absent or another user's; only the name
        changes. There is no duplicate check of its own: a name used by another
        tag of the same user is refused by the unique constraint at commit. */
    method Update(objId: Id, payload: TagCreate) returns (r: Result<TagOut>)
      requires store.Valid()
      modifies store
      ensures store.Valid()
      ensures !Owns(old(store.tags), userId, objId) ==> r == Err(NotFound(TagNotFound))
      ensures Owns(old(store.tags), userId, objId) && NameUsed(old(store.tags), userId, payload.name, Some(objId)) ==>
        r == Err(IntegrityError("uq_tags_user_id_name"))
      ensures r.Err? ==> unchanged(store)
      ensures r.Ok? <==> Owns(old(store.tags), userId, objId) && !NameUsed(old(store.tags), userId, payload.name, Some(objId))
      ensures r.Ok? ==>
        var t := old(store.tags)[objId].(name := payload.name);
        && r.value == ToTagOut(t)
        && store.Tables() == old(store.Tables()).(tags := old(store.tags)[objId := t])
      ensures store.nextUserId == old(store.nextUserId) && store.nextTagId == old(store.nextTagId) && store.nextItemId == old(store.nextItemId)
    {
      var tag := TagRepository.GetById(store.tags, objId);
      if tag.None? || tag.value.userId != userId {
        return Err(NotFound(TagNotFound));
      }
      var clash := TagRepository.GetByNameForUser(store.tags, userId, payload.name);
      if clash.Some? && clash.value.id != objId {
        return Err(IntegrityError("uq_tags_user_id_name"));
      }
      var renamed := tag.value.(name := payload.name);
      store.ReplaceTag(renamed);
      r := Ok(ToTagOut(renamed));
    }

    /** `delete`: 404 for a tag that is absent or another user's; otherwise the
        tag and its links go, and the id is returned. */
    method Delete(objId: Id) returns (r: Result<Id>)
      requires store.Valid()
      modifies store
      ensures store.Valid()
      ensures r.Err? <==> !Owns(old(store.tags), userId, objId)
      ensures r.Err? ==> r.error == NotFound(TagNotFound) && unchanged(store)
      ensures r.Ok? ==>
        && r.value == objId && objId !in store.tags
        && store.Tables() == Schema.DeleteTag(old(store.Tables()), objId)
      ensures store.nextUserId == old(store.nextUserId) && store.nextTagId == old(store.nextTagId) && store.nextItemId == old(store.nextItemId)
    {
      var tag := TagRepository.GetById(store.tags, objId);
      if tag.None? || tag.value.userId != userId {
        return Err(NotFound(TagNotFound));
      }
      store.DeleteTag(objId);
      r := Ok(objId);
    }
  }
}
