/** Lookups on the `tags` table (reading_list/repositories/tag.py). */
module TagRepository {
  import opened Domain
  import Schema
  import Text

  /** `SELECT ... WHERE id = :id`: the tag with that key whatever its owner. */
  function GetById(tags: map<Id, Tag>, id: Id): (r: Option<Tag>)
    ensures r.Some? <==> id in tags
    ensures r.Some? ==> r.value == tags[id]
  {
    if id in tags then Some(tags[id]) else None
  }

  /** The rows of `tags` owned by `uid`. */
  function TagsOf(tags: map<Id, Tag>, uid: Id): (r: set<Tag>)
    ensures forall t :: t in r <==> t in tags.Values && t.userId == uid
  {
    set t | t in tags.Values && t.userId == uid
  }

  /** No two tags of the set carry the same name. */
  ghost predicate NamesDistinct(s: set<Tag>) {
    forall a, b :: a in s && b in s && a.name == b.name ==> a == b
  }

  /** One user's tags have distinct names, by the (user_id, name) constraint. */
  lemma OwnTagsHaveDistinctNames(tags: map<Id, Tag>, uid: Id)
    requires Schema.UniqueTagNames(tags)
    ensures NamesDistinct(TagsOf(tags, uid))
  {
    forall a, b | a in TagsOf(tags, uid) && b in TagsOf(tags, uid) && a.name == b.name
      ensures a == b
    {
      var ka :| ka in tags && tags[ka] == a;
      var kb :| kb in tags && tags[kb] == b;
    }
  }

  /** A non-empty set of tags has a tag whose name is first in name order. */
  lemma {:induction false} FirstByNameExists(s: set<Tag>)
    requires s != {}
    ensures exists t :: t in s && forall u :: u in s ==> Text.NameLeq(t.name, u.name)
    decreases |s|
  {
    var x :| x in s;
    if s == {x} {
      Text.NameLeqTotal(x.name, x.name);
    } else {
      FirstByNameExists(s - {x});
      var m :| m in s - {x} && forall u :: u in s - {x} ==> Text.NameLeq(m.name, u.name);
      Text.NameLeqTotal(x.name, m.name);
      if Text.NameLeq(x.name, m.name) {
        forall u | u in s ensures Text.NameLeq(x.name, u.name) {
          if u != x {
            Text.NameLeqTransitive(x.name, m.name, u.name);
          } else {
            Text.NameLeqTotal(x.name, x.name);
          }
        }
      } else {
        assert Text.NameLeq(m.name, x.name);
      }
    }
  }

  /** `ORDER BY name ASC` over tags with distinct names: the order is total, so
      the listing is determined; names strictly increase along it. */
  function SortByName(s: set<Tag>): (r: seq<Tag>)
    requires NamesDistinct(s)
    ensures |r| == |s|
    ensures forall t :: t in r <==> t in s
    ensures forall i, j :: 0 <= i < j < |r| ==> Text.NameLeq(r[i].name, r[j].name) && r[i].name != r[j].name
    decreases |s|
  {
    if s == {} then []
    else
      Text.NameOrder();
      FirstByNameExists(s);
      var t :| t in s && forall u :: u in s ==> Text.NameLeq(t.name, u.name);
      [t] + SortByName(s - {t})
  }

  /** `get_for_user`: the user's tags, ordered by name. */
  function GetForUser(tags: map<Id, Tag>, uid: Id): (r: seq<Tag>)
    requires Schema.UniqueTagNames(tags)
    ensures forall t :: t in r <==> t in tags.Values && t.userId == uid
    ensures forall i, j :: 0 <= i < j < |r| ==> Text.NameLeq(r[i].name, r[j].name) && r[i].name != r[j].name
  {
    OwnTagsHaveDistinctNames(tags, uid);
    SortByName(TagsOf(tags, uid))
  }

  /** `get_by_name_for_user`: the tag of `uid` named `name`, unique by the
      (user_id, name) constraint, or none. */
  function GetByNameForUser(tags: map<Id, Tag>, uid: Id, name: string): (r: Option<Tag>)
    requires Schema.UniqueTagNames(tags)
    ensures r.Some? <==> exists k :: k in tags && tags[k].userId == uid && tags[k].name == name
    ensures r.Some? ==> r.value in tags.Values && r.value.userId == uid && r.value.name == name
  {
    if exists k :: k in tags && tags[k].userId == uid && tags[k].name == name then
      var k :| k in tags && tags[k].userId == uid && tags[k].name == name;
      Some(tags[k])
    else
      None
  }

  /** A tag of another user with the same name is never found. */
  lemma GetByNameForUserIsScoped(tags: map<Id, Tag>, uid: Id, name: string)
    requires Schema.UniqueTagNames(tags)
    requires forall k :: k in tags && tags[k].name == name ==> tags[k].userId != uid
    ensures GetByNameForUser(tags, uid, name) == None
  {
  }
}
