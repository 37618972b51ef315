/** Queries on the `items` table (reading_list/repositories/item.py): the
    owner-scoped lookup, the lookup of a user's tags by ids, and the filtered,
    sorted, paginated listing with its total. */
module ItemRepository {
  import opened Domain
  import Text

  // ---------------------------------------------------------------------
  // Point lookups
  // ---------------------------------------------------------------------

  /** `get_item_for_user`: the item with that id when `uid` owns it. */
  function GetItemForUser(items: map<Id, Item>, itemId: Id, uid: Id): (r: Option<Item>)
    ensures r.Some? <==> itemId in items && items[itemId].userId == uid
    ensures r.Some? ==> r.value == items[itemId]
  {
    if itemId in items && items[itemId].userId == uid then Some(items[itemId]) else None
  }

  /** `get_tags_for_user_by_ids`: the tags of `uid` whose id is listed; an
      empty list returns nothing without querying. */
  function GetTagsForUserByIds(tags: map<Id, Tag>, uid: Id, tagIds: seq<Id>): (r: set<Tag>)
    ensures forall t :: t in r <==> t in tags.Values && t.userId == uid && t.id in tagIds
  {
    if |tagIds| == 0 then {}
    else set t | t in tags.Values && t.userId == uid && t.id in tagIds
  }

  // ---------------------------------------------------------------------
  // The filter request and what it means
  // ---------------------------------------------------------------------

  /** The keyword arguments of `get_with_filters`. `limit` and `offset` are
      natural numbers (the database rejects negative ones). */
  datatype ItemFilters = ItemFilters(
    status: Option<Status>,
    kind: Option<Kind>,
    priority: Option<Priority>,
    tagIds: Option<seq<Id>>,
    q: Option<string>,
    createdFrom: Option<Timestamp>,
    createdTo: Option<Timestamp>,
    limit: nat,
    offset: nat,
    sortBy: string,
    sortDir: string)

  /** `if tag_ids:` — an absent or empty list imposes nothing. */
  predicate TagFilterOn(f: ItemFilters) {
    f.tagIds.Some? && |f.tagIds.value| > 0
  }

  /** `if q:` — an absent or empty search string imposes nothing. */
  predicate SearchOn(f: ItemFilters) {
    f.q.Some? && |f.q.value| > 0
  }

  /** The conditions on the item's own columns, each applied only when given:
      equality on status, kind and priority, `ILIKE '%q%'` on the title, and
      inclusive bounds on `created_at`. */
  predicate ColumnsMatch(f: ItemFilters, it: Item) {
    && (f.status.Some? ==> it.status == f.status.value)
    && (f.kind.Some? ==> it.kind == f.kind.value)
    && (f.priority.Some? ==> it.priority == f.priority.value)
    && (SearchOn(f) ==> Text.TitleLike(it.title, f.q.value))
    && (f.createdFrom.Some? ==> f.createdFrom.value <= it.createdAt)
    && (f.createdTo.Some? ==> it.createdAt <= f.createdTo.value)
  }

  /** The item has at least one tag whose id is listed. */
  predicate HasTagIn(links: set<ItemTag>, itemId: Id, ids: seq<Id>) {
    exists l :: l in links && l.itemId == itemId && l.tagId in ids
  }

  /** What the query asks of one item: owned by `uid`, every given column
      condition, and, when tags are requested, any one of them (OR). */
  predicate ItemMatches(f: ItemFilters, uid: Id, links: set<ItemTag>, it: Item) {
    && it.userId == uid
    && ColumnsMatch(f, it)
    && (TagFilterOn(f) ==> HasTagIn(links, it.id, f.tagIds.value))
  }

  /** The distinct items the query selects, before sorting and pagination. */
  function Matching(items: map<Id, Item>, links: set<ItemTag>, uid: Id, f: ItemFilters): (r: set<Item>)
    ensures forall it :: it in r <==> it in items.Values && ItemMatches(f, uid, links, it)
  {
    set it | it in items.Values && ItemMatches(f, uid, links, it)
  }

  // ---------------------------------------------------------------------
  // Sorting and the pagination window
  // ---------------------------------------------------------------------

  datatype Column = CreatedAtColumn | UpdatedAtColumn | PriorityColumn

  /** `sort_column_map.get(sort_by, ItemORM.created_at)`. */
  function SortColumn(sortBy: string): (c: Column)
    ensures c == UpdatedAtColumn <==> sortBy == "updated_at"
    ensures c == PriorityColumn <==> sortBy == "priority"
    ensures c == CreatedAtColumn <==> sortBy != "updated_at" && sortBy != "priority"
  {
    if sortBy == "updated_at" then UpdatedAtColumn
    else if sortBy == "priority" then PriorityColumn
    else CreatedAtColumn
  }

  /** The value sorted on; priorities sort in enum order low < normal < high. */
  function SortKey(it: Item, c: Column): int {
    match c
    case CreatedAtColumn => it.createdAt
    case UpdatedAtColumn => it.updatedAt
    case PriorityColumn => PriorityRank(it.priority)
  }

  /** `a` may precede `b` under `ORDER BY c ASC` (or `DESC`). */
  predicate Before(a: Item, b: Item, c: Column, ascending: bool) {
    if ascending then SortKey(a, c) <= SortKey(b, c) else SortKey(a, c) >= SortKey(b, c)
  }

  /** Sorted on the column in the direction; equal keys may come in any order. */
  predicate Ordered(s: seq<Item>, c: Column, ascending: bool) {
    forall i, j :: 0 <= i < j < |s| ==> Before(s[i], s[j], c, ascending)
  }

  predicate NoDuplicates(s: seq<Item>) {
    forall i, j :: 0 <= i < j < |s| ==> s[i] != s[j]
  }

  /** `s` lists the set `found` once each, sorted on the column. */
  ghost predicate IsOrdering(s: seq<Item>, found: set<Item>, c: Column, ascending: bool) {
    && (forall x :: x in s <==> x in found)
    && NoDuplicates(s)
    && Ordered(s, c, ascending)
  }

  function Min(a: int, b: int): int {
    if a <= b then a else b
  }

  /** `OFFSET offset LIMIT limit`. */
  function Window(s: seq<Item>, offset: nat, limit: nat): (w: seq<Item>)
    ensures |w| == Min(limit, if offset <= |s| then |s| - offset else 0)
    ensures forall i :: 0 <= i < |w| ==> w[i] == s[offset + i]
  {
    var lo := Min(offset, |s|);
    s[lo..Min(offset + limit, |s|)]
  }

  /** Two consecutive windows of one ordering tile the window spanning both. */
  lemma WindowsTile(s: seq<Item>, offset: nat, first: nat, second: nat)
    ensures Window(s, offset, first) + Window(s, offset + first, second) == Window(s, offset, first + second)
  {
    var lo, mid, hi := Min(offset, |s|), Min(offset + first, |s|), Min(offset + first + second, |s|);
    assert s[lo..hi] == s[lo..mid] + s[mid..hi];
  }

  /** What `get_with_filters` promises: `total` counts the distinct matching
      items, and `page` is the `[offset, offset + limit)` window of some
      ordering of them by the requested column and direction (ties unspecified). */
  ghost predicate IsPageOf(page: seq<Item>, total: nat, items: map<Id, Item>, links: set<ItemTag>, uid: Id, f: ItemFilters) {
    var found := Matching(items, links, uid, f);
    && total == |found|
    && exists all :: IsOrdering(all, found, SortColumn(f.sortBy), f.sortDir == "asc") && page == Window(all, f.offset, f.limit)
  }

  /** Every listed item belongs to the owner and meets every given filter; no
      item is listed twice; the page is sorted, at most `limit` long, and empty
      once `offset` reaches the total. */
  lemma PageProperties(page: seq<Item>, total: nat, items: map<Id, Item>, links: set<ItemTag>, uid: Id, f: ItemFilters)
    requires IsPageOf(page, total, items, links, uid, f)
    ensures forall it :: it in page ==> it in items.Values && it.userId == uid && ItemMatches(f, uid, links, it)
    ensures NoDuplicates(page)
    ensures Ordered(page, SortColumn(f.sortBy), f.sortDir == "asc")
    ensures |page| <= f.limit && |page| <= total
    ensures f.offset >= total ==> page == []
  {
    var found := Matching(items, links, uid, f);
    var all :| IsOrdering(all, found, SortColumn(f.sortBy), f.sortDir == "asc") && page == Window(all, f.offset, f.limit);
    WindowOfOrdering(all, found, SortColumn(f.sortBy), f.sortDir == "asc", f.offset, f.limit);
  }

  /** A window of an ordering of a set lists members of the set, each once,
      sorted, and no more of them than the set has. */
  lemma WindowOfOrdering(all: seq<Item>, found: set<Item>, c: Column, ascending: bool, offset: nat, limit: nat)
    requires IsOrdering(all, found, c, ascending)
    ensures var w := Window(all, offset, limit);
      && (forall it :: it in w ==> it in found)
      && NoDuplicates(w)
      && Ordered(w, c, ascending)
      && |w| <= limit && |w| <= |found|
      && (offset >= |found| ==> w == [])
  {
    OrderingLength(all, found, c, ascending);
    var w := Window(all, offset, limit);
    forall it | it in w ensures it in found {
      var i :| 0 <= i < |w| && w[i] == it;
      assert all[offset + i] == it;
    }
    forall i, j | 0 <= i < j < |w| ensures w[i] != w[j] && Before(w[i], w[j], c, ascending) {
      assert w[i] == all[offset + i] && w[j] == all[offset + j];
    }
  }

  /** An ordering of a set is exactly as long as the set. */
  lemma {:induction false} OrderingLength(s: seq<Item>, found: set<Item>, c: Column, ascending: bool)
    requires IsOrdering(s, found, c, ascending)
    ensures |s| == |found|
    decreases |s|
  {
    if |s| > 0 {
      var last := s[|s| - 1];
      var rest := s[..|s| - 1];
      assert IsOrdering(rest, found - {last}, c, ascending) by {
        forall x ensures x in rest <==> x in found - {last} {
          if x in rest {
            var i :| 0 <= i < |rest| && rest[i] == x;
            assert s[i] != s[|s| - 1];
          }
          if x in found - {last} {
            assert x in s;
            var i :| 0 <= i < |s| && s[i] == x;
            assert i != |s| - 1;
            assert rest[i] == x;
          }
        }
      }
      OrderingLength(rest, found - {last}, c, ascending);
    } else {
      assert found == {};
    }
  }

  /** The total depends on the filter conditions only: two requests that
      differ in `limit`, `offset`, `sort_by` or `sort_dir` report the same total. */
  lemma TotalIgnoresWindowAndSort(
    p1: seq<Item>, t1: nat, p2: seq<Item>, t2: nat,
    items: map<Id, Item>, links: set<ItemTag>, uid: Id, f1: ItemFilters, f2: ItemFilters)
    requires f2 == f1.(limit := f2.limit, offset := f2.offset, sortBy := f2.sortBy, sortDir := f2.sortDir)
    requires IsPageOf(p1, t1, items, links, uid, f1) && IsPageOf(p2, t2, items, links, uid, f2)
    ensures t1 == t2
  {
    assert Matching(items, links, uid, f1) == Matching(items, links, uid, f2) by {
      forall it ensures ItemMatches(f1, uid, links, it) == ItemMatches(f2, uid, links, it) {
        assert ColumnsMatch(f1, it) == ColumnsMatch(f2, it);
      }
    }
  }

  /** Sorting by priority descending lists high before normal before low. */
  lemma PriorityDescending(page: seq<Item>, total: nat, items: map<Id, Item>, links: set<ItemTag>, uid: Id, f: ItemFilters)
    requires IsPageOf(page, total, items, links, uid, f)
    requires f.sortBy == "priority" && f.sortDir == "desc"
    ensures forall i, j :: 0 <= i < j < |page| ==> PriorityRank(page[i].priority) >= PriorityRank(page[j].priority)
    ensures forall i, j :: 0 <= i < j < |page| && page[j].priority == High ==> page[i].priority == High
    ensures forall i, j :: 0 <= i < j < |page| && page[i].priority == Low ==> page[j].priority == Low
  {
    PageProperties(page, total, items, links, uid, f);
  }

  // ---------------------------------------------------------------------
  // The statement the repository builds, and how the database evaluates it
  // ---------------------------------------------------------------------

  /** One entry of `conditions`. */
  datatype Condition =
    | StatusIs(status: Status)
    | KindIs(kind: Kind)
    | PriorityIs(priority: Priority)
    | TitleILike(pattern: string)
    | CreatedAtLeast(from: Timestamp)
    | CreatedAtMost(to: Timestamp)
    | TagIdIn(ids: seq<Id>)

  /** A row of `items`, or of `items JOIN item_tags` with the tag id it joined. */
  datatype Row = Row(item: Item, tagId: Option<Id>)

  predicate Holds(c: Condition, r: Row) {
    match c
    case StatusIs(s) => r.item.status == s
    case KindIs(k) => r.item.kind == k
    case PriorityIs(p) => r.item.priority == p
    case TitleILike(q) => Text.TitleLike(r.item.title, q)
    case CreatedAtLeast(t) => t <= r.item.createdAt
    case CreatedAtMost(t) => r.item.createdAt <= t
    case TagIdIn(ids) => r.tagId.Some? && r.tagId.value in ids
  }

  /** `and_(*conditions)`. */
  predicate AllHold(cs: seq<Condition>, r: Row) {
    forall i :: 0 <= i < |cs| ==> Holds(cs[i], r)
  }

  /** The row-level reading of the filters, as the WHERE clause sees a joined row. */
  predicate RowMatches(f: ItemFilters, r: Row) {
    && ColumnsMatch(f, r.item)
    && (TagFilterOn(f) ==> r.tagId.Some? && r.tagId.value in f.tagIds.value)
  }

  /** One `(value, column)` pair of `simple_filters`. */
  datatype SimpleFilter =
    | OnStatus(status: Option<Status>)
    | OnKind(kind: Option<Kind>)
    | OnPriority(priority: Option<Priority>)

  predicate SimpleHolds(sf: SimpleFilter, it: Item) {
    match sf
    case OnStatus(s) => s.Some? ==> it.status == s.value
    case OnKind(k) => k.Some? ==> it.kind == k.value
    case OnPriority(p) => p.Some? ==> it.priority == p.value
  }

  /** The statement: WHERE conditions (besides `user_id = :uid`), whether it
      joins the tags and selects DISTINCT, ORDER BY, OFFSET and LIMIT. */
  datatype Plan = Plan(
    conditions: seq<Condition>,
    joinTags: bool,
    distinct: bool,
    sortColumn: Column,
    ascending: bool,
    offset: nat,
    limit: nat)

  lemma AllHoldAppend(cs: seq<Condition>, c: Condition, r: Row)
    ensures AllHold(cs + [c], r) <==> AllHold(cs, r) && Holds(c, r)
  {
    if AllHold(cs, r) && Holds(c, r) {
      forall i | 0 <= i < |cs + [c]| ensures Holds((cs + [c])[i], r) {
        if i < |cs| { assert (cs + [c])[i] == cs[i]; }
      }
    }
    if AllHold(cs + [c], r) {
      forall i | 0 <= i < |cs| ensures Holds(cs[i], r) {
        assert (cs + [c])[i] == cs[i];
      }
      assert (cs + [c])[|cs|] == c;
    }
  }

  /** Builds the statement as the repository does: one equality per given
      simple filter, then the title search, the date bounds and, for a
      non-empty tag list, the join with its `IN` condition and DISTINCT. Its
      conditions hold of a row exactly when the row meets the filters. */
  method BuildPlan(f: ItemFilters) returns (p: Plan)
    ensures forall r :: AllHold(p.conditions, r) <==> RowMatches(f, r)
    ensures p.joinTags == TagFilterOn(f) && p.distinct == p.joinTags
    ensures p.sortColumn == SortColumn(f.sortBy) && p.ascending == (f.sortDir == "asc")
    ensures p.offset == f.offset && p.limit == f.limit
  {
    var conditions: seq<Condition> := [];
    var simpleFilters := [OnStatus(f.status), OnKind(f.kind), OnPriority(f.priority)];
    for i := 0 to |simpleFilters|
      invariant forall r :: AllHold(conditions, r) <==> forall j :: 0 <= j < i ==> SimpleHolds(simpleFilters[j], r.item)
    {
      var added: Option<Condition> := None;
      match simpleFilters[i] {
        case OnStatus(s) => if s.Some? { added := Some(StatusIs(s.value)); }
        case OnKind(k) => if k.Some? { added := Some(KindIs(k.value)); }
        case OnPriority(pr) => if pr.Some? { added := Some(PriorityIs(pr.value)); }
      }
      if added.Some? {
        forall r { AllHoldAppend(conditions, added.value, r); }
        conditions := conditions + [added.value];
      }
    }
    ghost var simple := (it: Item) =>
      && (f.status.Some? ==> it.status == f.status.value)
      && (f.kind.Some? ==> it.kind == f.kind.value)
      && (f.priority.Some? ==> it.priority == f.priority.value);
    forall r ensures AllHold(conditions, r) <==> simple(r.item) {
      assert SimpleHolds(simpleFilters[0], r.item) == (f.status.Some? ==> r.item.status == f.status.value);
      assert SimpleHolds(simpleFilters[1], r.item) == (f.kind.Some? ==> r.item.kind == f.kind.value);
      assert SimpleHolds(simpleFilters[2], r.item) == (f.priority.Some? ==> r.item.priority == f.priority.value);
    }
    if SearchOn(f) {
      forall r { AllHoldAppend(conditions, TitleILike(f.q.value), r); }
      conditions := conditions + [TitleILike(f.q.value)];
    }
    if f.createdFrom.Some? {
      forall r { AllHoldAppend(conditions, CreatedAtLeast(f.createdFrom.value), r); }
      conditions := conditions + [CreatedAtLeast(f.createdFrom.value)];
    }
    if f.createdTo.Some? {
      forall r { AllHoldAppend(conditions, CreatedAtMost(f.createdTo.value), r); }
      conditions := conditions + [CreatedAtMost(f.createdTo.value)];
    }
    assert forall r :: AllHold(conditions, r) <==> ColumnsMatch(f, r.item);
    var joinTags := false;
    if TagFilterOn(f) {
      joinTags := true;
      forall r { AllHoldAppend(conditions, TagIdIn(f.tagIds.value), r); }
      conditions := conditions + [TagIdIn(f.tagIds.value)];
    }
    var ascending := f.sortDir == "asc";
    p := Plan(conditions, joinTags, joinTags, SortColumn(f.sortBy), ascending, f.offset, f.limit);
  }

  /** The FROM clause: `items`, or `items JOIN item_tags JOIN tags`, where an
      item appears once per tag it carries. Every item_tags row references an
      existing tag (foreign key), so joining `tags` drops no row. */
  function FromRows(items: map<Id, Item>, links: set<ItemTag>, joinTags: bool): set<Row> {
    if joinTags then set l | l in links && l.itemId in items :: Row(items[l.itemId], Some(l.tagId))
    else set k | k in items :: Row(items[k], None)
  }

  /** `WHERE user_id = :uid AND <conditions>`. */
  function WhereRows(rows: set<Row>, uid: Id, cs: seq<Condition>): set<Row> {
    set r | r in rows && r.item.userId == uid && AllHold(cs, r)
  }

  /** The selected items once repeated rows are merged (DISTINCT, `.unique()`). */
  function DistinctItems(rows: set<Row>): set<Item> {
    set r | r in rows :: r.item
  }

  /** `count(distinct items.id)` over the same rows. */
  function CountDistinctIds(rows: set<Row>): nat {
    |set r | r in rows :: r.item.id|
  }

  /** Joining and then merging repeated rows selects exactly the matching items:
      an item with several requested tags is selected once. */
  lemma DistinctRowsAreMatching(items: map<Id, Item>, links: set<ItemTag>, uid: Id, f: ItemFilters, cs: seq<Condition>)
    requires forall k :: k in items ==> items[k].id == k
    requires forall r :: AllHold(cs, r) <==> RowMatches(f, r)
    ensures DistinctItems(WhereRows(FromRows(items, links, TagFilterOn(f)), uid, cs)) == Matching(items, links, uid, f)
  {
    var rows := WhereRows(FromRows(items, links, TagFilterOn(f)), uid, cs);
    forall it | it in Matching(items, links, uid, f)
      ensures it in DistinctItems(rows)
    {
      assert items[it.id] == it;
      if TagFilterOn(f) {
        var l :| l in links && l.itemId == it.id && l.tagId in f.tagIds.value;
        assert Row(it, Some(l.tagId)) in rows;
      } else {
        assert Row(it, None) in rows;
      }
    }
    forall it | it in DistinctItems(rows)
      ensures it in Matching(items, links, uid, f)
    {
      var r :| r in rows && r.item == it;
      if TagFilterOn(f) {
        var l :| l in links && l.itemId in items && r == Row(items[l.itemId], Some(l.tagId));
        assert l.itemId == it.id;
      }
    }
  }

  /** Items stored under their own ids have distinct ids, so counting distinct
      ids counts distinct items. */
  lemma {:induction false} DistinctIdsCount(found: set<Item>)
    requires forall a, b :: a in found && b in found && a.id == b.id ==> a == b
    ensures |set x | x in found :: x.id| == |found|
    decreases |found|
  {
    if found != {} {
      var x :| x in found;
      DistinctIdsCount(found - {x});
      assert (set y | y in found :: y.id) == (set y | y in found - {x} :: y.id) + {x.id};
      assert x.id !in (set y | y in found - {x} :: y.id);
    } else {
      assert (set y | y in found :: y.id) == {};
    }
  }

  lemma CountIsDistinctItems(rows: set<Row>)
    requires forall a, b :: a in rows && b in rows && a.item.id == b.item.id ==> a.item == b.item
    ensures CountDistinctIds(rows) == |DistinctItems(rows)|
  {
    var found := DistinctItems(rows);
    assert (set r | r in rows :: r.item.id) == (set x | x in found :: x.id);
    DistinctIdsCount(found);
  }

  // ---------------------------------------------------------------------
  // ORDER BY
  // ---------------------------------------------------------------------

  /** A non-empty set has an element that may come first. */
  lemma {:induction false} FirstExists(s: set<Item>, c: Column, ascending: bool)
    requires s != {}
    ensures exists x :: x in s && forall y :: y in s ==> Before(x, y, c, ascending)
    decreases |s|
  {
    var x :| x in s;
    if s == {x} {
      assert Before(x, x, c, ascending);
    } else {
      FirstExists(s - {x}, c, ascending);
      var m :| m in s - {x} && forall y :: y in s - {x} ==> Before(m, y, c, ascending);
      var kx, km := SortKey(x, c), SortKey(m, c);
      if (ascending && kx <= km) || (!ascending && kx >= km) {
        forall y | y in s ensures Before(x, y, c, ascending) {
          if y != x {
            assert Before(m, y, c, ascending);
          }
        }
      } else {
        forall y | y in s ensures Before(m, y, c, ascending) {
          if y != x {
            assert y in s - {x};
          }
        }
      }
    }
  }

  /** `ORDER BY`: repeatedly takes an element that may come first. Which of
      several equal keys comes first is left to the choice, as the database
      leaves it. */
  method SortItems(found: set<Item>, c: Column, ascending: bool) returns (sorted: seq<Item>)
    ensures IsOrdering(sorted, found, c, ascending)
  {
    sorted := [];
    var rest := found;
    while rest != {}
      invariant rest <= found
      invariant forall x :: x in sorted <==> x in found && x !in rest
      invariant NoDuplicates(sorted)
      invariant Ordered(sorted, c, ascending)
      invariant forall i, y :: 0 <= i < |sorted| && y in rest ==> Before(sorted[i], y, c, ascending)
      decreases rest
    {
      FirstExists(rest, c, ascending);
      var x :| x in rest && forall y :: y in rest ==> Before(x, y, c, ascending);
      sorted := sorted + [x];
      rest := rest - {x};
    }
  }

  // ---------------------------------------------------------------------
  // get_with_filters
  // ---------------------------------------------------------------------

  /** Builds the statement, evaluates it (join, WHERE, DISTINCT), counts the
      distinct ids, sorts and cuts the window: the result is a page of the
      matching items and their total. */
  method GetWithFilters(items: map<Id, Item>, links: set<ItemTag>, uid: Id, f: ItemFilters)
    returns (page: seq<Item>, total: nat)
    requires forall k :: k in items ==> items[k].id == k
    ensures IsPageOf(page, total, items, links, uid, f)
  {
    var plan := BuildPlan(f);
    var rows := WhereRows(FromRows(items, links, plan.joinTags), uid, plan.conditions);
    var found := DistinctItems(rows);
    total := CountDistinctIds(rows);
    var sorted := SortItems(found, plan.sortColumn, plan.ascending);
    page := Window(sorted, plan.offset, plan.limit);

    DistinctRowsAreMatching(items, links, uid, f, plan.conditions);
    assert forall r :: r in rows ==> items[r.item.id] == r.item;
    CountIsDistinctItems(rows);
  }
}
