# Reading list: a verified model of its domain core

The reading list is a small web service. Users own tags and reading-list items (books and articles with a status and a priority), and items carry tags through the `item_tags` association. This project models its domain core in Dafny:

- the relational schema of the initial migration, stated as invariants of the store: unique emails, unique tag names per user, foreign keys with cascading deletes, the composite key of `item_tags`, and the enum types
- the lookups of the user, tag and item repositories, above all the filtered, sorted and paginated item listing (`get_with_filters`) with its distinct total
- the owner-scoped services for users, tags and items, as classes whose methods update a shared in-memory store in place
- the `X-User-Id` header check that picks the acting user

Modules, one per file:

| module | file | models |
|---|---|---|
| `Domain` | domain.dfy | rows, enums, payload fields, error outcomes |
| `Text` | text.dfy | `ILIKE '%q%'` as a case-folded substring test; name order |
| `Schema` | schema.dfy | the migration's constraints and cascades |
| `UserRepository` | user_repository.dfy | reading_list/repositories/user.py |
| `TagRepository` | tag_repository.dfy | reading_list/repositories/tag.py |
| `ItemRepository` | item_repository.dfy | reading_list/repositories/item.py |
| `Storage` | storage.dfy | the database tables and id sequences, updated in place |
| `Users` | user_service.dfy | reading_list/services/user.py |
| `Tags` | tag_service.dfy | reading_list/services/tag.py |
| `Items` | item_service.dfy | reading_list/services/item.py |
| `Deps` | deps.dfy | `get_current_user_id` in reading_list/api/deps.py |

The listing is specified relationally. `ItemRepository.IsPageOf` says that the total counts the distinct matching items. It also says the page is the `[offset, offset + limit)` window of *some* ordering of those items by the sort column and direction, because the query leaves the order of equal keys open. `ItemRepository.GetWithFilters` builds the statement as the repository does. It then evaluates the join, WHERE clause, DISTINCT, count, sort and window, and is proved to meet `IsPageOf`.

A service fails in one of these ways:

- it returns an `Err`
- it raises 404 or 400
- the database rejects the change at flush or commit, modelled as `IntegrityError` with the constraint's name

A failure stores no row and changes no row, because the transaction is never committed. One thing does change: when the database rejects an INSERT for its foreign key, the id sequence has already handed out a value. A sequence never takes a value back, so the next successful insert gets the id after it (`Storage.Store.SkipTagId`, `Storage.Store.SkipItemId`). Every other failure leaves the whole store unchanged, sequences included.

## Model

| member | source | states |
|---|---|---|
| Domain.HttpStatus | reading_list/services/item.py:33-36 | not-found errors reach the client as 404; the services' own refusals, including the missing-tags one, as 400; database and runtime errors as 500 |
| Domain.PriorityRank | alembic/versions/51f2198e9ca9_initial_migration.py:32 | priorities sort in declaration order: low is first (rank 0), high is last (rank 2) |
| Domain.ParseKind | alembic/versions/51f2198e9ca9_initial_migration.py:30 | a stored `item_kind` label reads back only as the kind it labels |
| Domain.ParseStatus | alembic/versions/51f2198e9ca9_initial_migration.py:31 | a stored `item_status` label reads back only as the status it labels |
| Domain.ParsePriority | alembic/versions/51f2198e9ca9_initial_migration.py:32 | a stored `item_priority` label reads back only as the priority it labels |
| Domain.LabelsRoundTrip | reading_list/db/models/item.py:15-29 | every enum value of the three enums is stored under a label that reads back as itself |
| Text.ContainsWitness | reading_list/repositories/item.py:75 | wherever the scan reports a match, the pattern occurs at some position |
| Text.OccursContains | reading_list/repositories/item.py:75 | wherever the pattern occurs, the scan reports a match |
| Text.ContainsAt | reading_list/repositories/item.py:74-75 | the substring scan succeeds exactly when the pattern occurs at some position |
| Text.ContainsEmpty | reading_list/repositories/item.py:74 | an empty search string would match every title, so skipping it imposes nothing |
| Text.TitleLike | reading_list/repositories/item.py:74-75 | a title matches when the ASCII-lower-cased search string occurs in the ASCII-lower-cased title, as `ILIKE '%q%'` |
| Text.TitleLikeIgnoresCase | reading_list/repositories/item.py:75 | the title search ignores the case of the search string |
| Text.NameLeqTotal | reading_list/repositories/tag.py:23 | any two tag names are comparable in the name order |
| Text.NameLeqAntisymmetric | reading_list/repositories/tag.py:23 | names that sort before each other are equal |
| Text.NameLeqTransitive | reading_list/repositories/tag.py:23 | the name order is transitive |
| Text.NameOrder | reading_list/repositories/tag.py:23 | the name order is a total order |
| Schema.DeleteUser | alembic/versions/51f2198e9ca9_initial_migration.py:37-53 | the tables without the user, its items and tags, and every `item_tags` row that references one of those |
| Schema.DeleteItem | alembic/versions/51f2198e9ca9_initial_migration.py:52 | the tables without the item and its `item_tags` rows |
| Schema.DeleteTag | alembic/versions/51f2198e9ca9_initial_migration.py:53 | the tables without the tag and its `item_tags` rows |
| Schema.TagIdsOf | reading_list/services/item.py:51 | the tag ids of an item are exactly the tags its `item_tags` rows reference |
| Schema.LinksFor | reading_list/services/item.py:38 | attaching a tag set adds one association row per tag and nothing else |
| Schema.Relink | reading_list/services/item.py:38 | replacing an item's tags leaves it with exactly the new tag ids and leaves every other item's rows alone |
| Schema.AtMostOneUserPerEmail | alembic/versions/51f2198e9ca9_initial_migration.py:26 | the unique index lets at most one user hold an email |
| Schema.AtMostOneTagPerName | alembic/versions/51f2198e9ca9_initial_migration.py:47 | the unique constraint lets at most one tag of a user carry a name |
| Schema.DeleteUserCascades | alembic/versions/51f2198e9ca9_initial_migration.py:37-45 | deleting a user keeps the schema consistent, removes all of that user's items and tags, and keeps every row of other users |
| Schema.DeleteItemCascades | alembic/versions/51f2198e9ca9_initial_migration.py:52 | deleting an item removes only its association rows and never a user or a tag |
| Schema.DeleteTagCascades | alembic/versions/51f2198e9ca9_initial_migration.py:53 | deleting a tag removes only its association rows and never a user or an item |
| UserRepository.GetById | reading_list/repositories/user.py:11-14 | the user stored under the id, or none exactly when the id is absent |
| UserRepository.GetAll | reading_list/repositories/user.py:16-19 | every stored user and nothing else |
| UserRepository.GetByEmail | reading_list/repositories/user.py:21-24 | a user is found exactly when some user has precisely that email (case-sensitive), and the one found has it |
| UserRepository.GetByEmailIsTheHolder | reading_list/repositories/user.py:24 | under the unique index, whoever holds the email is the one found |
| TagRepository.GetById | reading_list/repositories/tag.py:14-17 | the tag stored under the id whatever its owner, or none exactly when absent |
| TagRepository.TagsOf | reading_list/repositories/tag.py:19-22 | exactly the tags whose owner is the user |
| TagRepository.OwnTagsHaveDistinctNames | alembic/versions/51f2198e9ca9_initial_migration.py:47 | one user's tags carry pairwise distinct names |
| TagRepository.FirstByNameExists | reading_list/repositories/tag.py:23 | a non-empty set of tags has one whose name sorts first |
| TagRepository.SortByName | reading_list/repositories/tag.py:23 | the listing holds each tag of the set once, with names strictly increasing |
| TagRepository.GetForUser | reading_list/repositories/tag.py:19-26 | exactly the user's tags, in strictly increasing name order |
| TagRepository.GetByNameForUser | reading_list/repositories/tag.py:28-36 | the user's tag with that name exactly when one exists, and never another user's tag |
| TagRepository.GetByNameForUserIsScoped | reading_list/repositories/tag.py:31-34 | a name used only by other users' tags finds nothing |
| ItemRepository.GetItemForUser | reading_list/repositories/item.py:23-37 | the item exactly when it exists and the user owns it |
| ItemRepository.GetTagsForUserByIds | reading_list/repositories/item.py:116-129 | exactly the user's tags whose id is listed; nothing for an empty list |
| ItemRepository.Matching | reading_list/repositories/item.py:60-92 | the selected items are the owner's items meeting every given column condition and, for a non-empty tag list, having one of those tags |
| ItemRepository.SortColumn | reading_list/repositories/item.py:94-99 | `updated_at` and `priority` select their columns; any other value falls back to `created_at` |
| ItemRepository.Window | reading_list/repositories/item.py:105 | the window holds min(limit, rows left after offset) items, taken in order from position offset |
| ItemRepository.WindowsTile | reading_list/repositories/item.py:105 | consecutive windows of one ordering concatenate to the window spanning both |
| ItemRepository.OrderingLength | reading_list/repositories/item.py:109 | an ordering without duplicates is as long as the set it lists |
| ItemRepository.WindowOfOrdering | reading_list/repositories/item.py:105 | a window of a sorted listing of the matches holds only matches, each once, still sorted, at most `limit` of them, and none once `offset` passes their number |
| ItemRepository.PageProperties | reading_list/repositories/item.py:39-114 | each listed item is the owner's and meets every filter; no item twice; sorted; at most `limit` long; empty once `offset` reaches the total |
| ItemRepository.TotalIgnoresWindowAndSort | reading_list/repositories/item.py:111-112 | the total does not depend on limit, offset, sort column or direction |
| ItemRepository.PriorityDescending | reading_list/repositories/item.py:103 | priority descending lists high before normal before low |
| ItemRepository.AllHoldAppend | reading_list/repositories/item.py:89-91 | adding a condition to the conjunction adds exactly that condition |
| ItemRepository.BuildPlan | reading_list/repositories/item.py:63-105 | the built conditions hold of a row exactly when it meets the filters; the join and DISTINCT are used exactly for a non-empty tag list; sort column, direction and window are the requested ones |
| ItemRepository.DistinctRowsAreMatching | reading_list/repositories/item.py:83-109 | joining tags and merging repeated rows selects exactly the matching items, each once |
| ItemRepository.DistinctIdsCount | reading_list/repositories/item.py:61 | items with distinct ids have as many ids as items |
| ItemRepository.CountIsDistinctItems | reading_list/repositories/item.py:111-112 | `count(distinct id)` over the rows equals the number of distinct items selected |
| ItemRepository.FirstExists | reading_list/repositories/item.py:100-103 | a non-empty set has an item that may come first in the requested order |
| ItemRepository.SortItems | reading_list/repositories/item.py:99-103 | the result lists the set once each, sorted by the column in the direction |
| ItemRepository.GetWithFilters | reading_list/repositories/item.py:39-114 | the page and total form a page of the matching items |
| Storage.Store.constructor | alembic/versions/51f2198e9ca9_initial_migration.py:18-55 | empty tables meet every constraint; all sequences start at 1 |
| Storage.Store.InsertUser | reading_list/repositories/base_crud.py:20-23 | a user is added under a fresh id and nothing else changes; constraints kept |
| Storage.Store.InsertTag | reading_list/repositories/base_crud.py:20-23 | a tag is added under a fresh id and nothing else changes; constraints kept |
| Storage.Store.InsertItem | reading_list/repositories/base_crud.py:20-23 | an item is added under a fresh id with exactly the given tags; constraints kept |
| Storage.Store.ReplaceUser | reading_list/services/user.py:66-69 | only that user's row changes; constraints kept |
| Storage.Store.ReplaceTag | reading_list/services/tag.py:54-55 | only that tag's row changes; constraints kept |
| Storage.Store.ReplaceItem | reading_list/services/item.py:111-116 | only that item's row and tags change; constraints kept |
| Storage.Store.SkipTagId | reading_list/repositories/base_crud.py:20-23 | an INSERT INTO tags rejected at flush stores nothing but advances the tag id sequence |
| Storage.Store.SkipItemId | reading_list/repositories/base_crud.py:20-23 | an INSERT INTO items rejected at flush stores nothing but advances the item id sequence |
| Storage.Store.DeleteUser | alembic/versions/51f2198e9ca9_initial_migration.py:37-45 | the user goes with the cascade; constraints kept |
| Storage.Store.DeleteItem | alembic/versions/51f2198e9ca9_initial_migration.py:52 | the item goes with its association rows; constraints kept |
| Storage.Store.DeleteTag | alembic/versions/51f2198e9ca9_initial_migration.py:53 | the tag goes with its association rows; constraints kept |
| Users.ApplyUserUpdate | reading_list/services/user.py:55-67 | only sent fields change; a field sent as null violates NOT NULL |
| Users.UserUpdateIdempotent | reading_list/services/user.py:66-67 | applying the same update twice is the same as once |
| Users.EmptyUserUpdateKeepsRow | reading_list/services/user.py:55 | an update that sends nothing keeps the row |
| Users.ToUserOut | reading_list/services/user.py:85-92 | the user's id, email, display name and creation time |
| Users.UserService.constructor | reading_list/services/user.py:13-14 | the service works on the given store and ignores the acting user |
| Users.UserService.GetById | reading_list/services/user.py:16-23 | the user's output exactly when the id exists, else 404 "User not found" |
| Users.UserService.Get | reading_list/services/user.py:25-27 | every stored user once, and nothing else |
| Users.UserService.Create | reading_list/services/user.py:29-45 | 400 and no change exactly when the email is held; else a fresh id carrying the given email and name, the user id sequence advances by one and the other sequences stay |
| Users.UserService.Update | reading_list/services/user.py:47-71 | 404 for an unknown id; 400 only when a different user holds the sent email; null fields fail; else exactly the sent fields change; no id sequence moves |
| Users.UserService.Delete | reading_list/services/user.py:73-83 | 404 exactly for an unknown id; else the id is returned and the user is gone with its cascade; no id sequence moves |
| Tags.OutsAreOwnTags | reading_list/services/tag.py:23-25 | converting the user's listing gives exactly the user's tags |
| Tags.ToTagOut | reading_list/services/tag.py:70-76 | the tag's id, owner and name |
| Tags.TagService.constructor | reading_list/services/tag.py:10-12 | the service acts for the given user on the given store |
| Tags.TagService.GetById | reading_list/services/tag.py:14-21 | the tag exactly when the user owns it, else 404 "Tag not found" |
| Tags.TagService.Get | reading_list/services/tag.py:23-25 | exactly the user's tags, by increasing name |
| Tags.TagService.Create | reading_list/services/tag.py:27-44 | succeeds exactly when the acting user exists and has no tag of that name, even when another user has one; a name already used is 400 with no change; a missing user breaks the foreign key, storing nothing but using up a tag id; success stores a fresh tag of the user under the next id |
| Tags.TagService.Update | reading_list/services/tag.py:46-57 | 404 for a tag not owned; a name used by another own tag breaks the unique constraint; else only the name changes; no id sequence moves |
| Tags.TagService.Delete | reading_list/services/tag.py:59-68 | 404 exactly for a tag not owned; else the id is returned and the tag and its links are gone; no id sequence moves |
| Items.ToItemOut | reading_list/services/item.py:40-51 | the output's tag ids are exactly the item's tags |
| Items.MinExists | reading_list/services/item.py:35 | a non-empty set of ids has a least element |
| Items.MinOf | reading_list/services/item.py:35 | the least id of a non-empty set |
| Items.SortedIds | reading_list/services/item.py:35 | the ids of the set, once each, in increasing order |
| Items.IdSet | reading_list/services/item.py:31 | the distinct ids of the list |
| Items.MissingIds | reading_list/services/item.py:29-31 | exactly the listed ids that are not one of the user's tags |
| Items.TagsOutcome | reading_list/services/item.py:17-38 | no list keeps the tags; otherwise the result is exactly the user's listed tags, or a 400 exactly when a listed id is not the user's, naming those ids in increasing order |
| Items.TagsOutcomeIgnoresOrder | reading_list/services/item.py:30-31 | order and repetition of the requested ids do not matter |
| Items.ApplyItemUpdate | reading_list/services/item.py:108-112 | only sent fields change; null on a NOT NULL column fails; null notes clears them; `updated_at` moves exactly when a column changes |
| Items.ItemUpdateIdempotent | reading_list/services/item.py:108-112 | sending the same update again changes nothing, not even `updated_at` |
| Items.EmptyItemUpdateKeepsRow | reading_list/services/item.py:108 | an update that sends nothing keeps the row |
| Items.TagIdsArgument | reading_list/services/item.py:109 | a tag list left out or sent as null is no tag list |
| Items.RenameRefusedAsWritten | reading_list/services/item.py:111 | a rename that the intended update performs is refused as written |
| Items.OutsBelongToUser | reading_list/services/item.py:74 | converting the page keeps every listed item the user's |
| Items.ItemsService.constructor | reading_list/services/item.py:13-15 | the service acts for the given user on the given store |
| Items.ItemsService.ApplyTagsByIds | reading_list/services/item.py:17-38 | computing found and missing ids from the query gives exactly the specified tag outcome |
| Items.ItemsService.GetById | reading_list/services/item.py:54-65 | the item with its tag ids exactly when the user owns it, else 404 "Item not found" |
| Items.ItemsService.Get | reading_list/services/item.py:67-76 | a page of the user's matching items with their tag ids, at most `limit` long, with the requested limit and offset echoed |
| Items.ItemsService.Create | reading_list/services/item.py:78-94 | succeeds exactly when the tag list is accepted and the user exists; a refused tag list changes nothing; a missing user breaks the foreign key, storing nothing but using up an item id; success stores a fresh item of the user with exactly the requested tags |
| Items.ItemsService.Update | reading_list/services/item.py:96-119 | 404 for an item not owned; null on a NOT NULL column fails before tags are checked; a refused tag list changes nothing; else only sent fields change and a sent list replaces the tags; no id sequence moves |
| Items.ItemsService.UpdateAsWritten | reading_list/services/item.py:96-112 | as written, every update of an owned item fails with AttributeError |
| Items.ItemsService.Delete | reading_list/services/item.py:121-134 | 404 exactly for an item not owned; else the id is returned and the item and its links are gone; no id sequence moves |
| Deps.CurrentUserId | reading_list/api/deps.py:22-32 | no header gives user 1; a value not positive gives 400 "X-User-Id must be positive integer"; a positive value is returned unchanged |
| Deps.AcceptedIdsArePositive | reading_list/api/deps.py:22-32 | every accepted id is positive; a header is accepted exactly when absent or positive; refusals are 400 |

## Left out

- HTTP routing, request parsing and response codes (reading_list/api/v1, router.py, main.py). Services return `Result` values instead of raising. The error handlers are not modelled either, because the services never raise the classes they handle.
- `crud_service_dep` and `get_db` in reading_list/api/deps.py: framework wiring.
- The async structure, sessions, transactions and eager loading. Each service call is one sequential step that either applies all of its changes to the tables or none. The only exception is a rejected INSERT, which still advances its id sequence. Concurrent requests, and the race between a uniqueness pre-check and the insert, are not modelled.
- Server time. `now()` is the `now` parameter of the creating and updating methods, and timestamps are opaque integers.
- Text.TitleLike: `ILIKE` treats `%` and `_` inside `q` as wildcards and `\` as its escape character, and the database folds case by locale. The model reads `q` literally and folds ASCII letters only.
- Text.NameLeq: tag names are ordered by code point, not by the database collation.
- ItemRepository.IsPageOf: the order of items with equal sort keys is left open, as the query leaves it. The model does not fix a tie-breaker.
- ItemRepository.ItemFilters: `limit` and `offset` are natural numbers. The database rejects negative values, which the filter schema does not prevent.
- Items.ItemOut: the tag ids are a set, because the relationship loads tags in no fixed order.
- UserRepository.GetAll: the rows are a set, because `SELECT` without `ORDER BY` has no order.
- Items.ItemsService.Get: takes a filter value. `get(None)` would fail dereferencing `filters.limit` at reading_list/services/item.py:75, but the route always builds the filters.
- Negative ids: ids are natural numbers. The source accepts any integer as a path id and inside `tag_ids`, and a negative tag id would appear in the 400 message's sorted list of missing ids (reading_list/services/item.py:31-35). A negative path id finds no row and gives the same 404 as any absent id; the model cannot express the negative entry of the missing list.
- Column lengths: `varchar(255)` for email, display name and title, and `varchar(50)` for tag names. A longer value is a database error the model does not raise.
- Email validation and normalisation by the request schema: emails are compared as given.
- Request schema defaults (reading_list/api/schemas/item.py:10-21): `Items.ItemCreate` holds the payload after the schema has filled in the defaults for status, priority, notes and tag ids.
- `ItemRepository.get_by_id` (reading_list/repositories/item.py:18-21): the services never call it.
- `ItemTagsRemove` (reading_list/api/schemas/item.py:56-57): no service uses it.
- The seed script, configuration and engine setup.

## Findings

| source | as written | input that shows it | evidently intended | confidence | as-written member | corrected member |
|---|---|---|---|---|---|---|
| reading_list/services/item.py:111 | `data.items_list()` is called on a dict, so every update of an owned item raises AttributeError (a 500) and nothing is saved | PATCH of one's own item with `{"title": "Renamed"}` | `data.items()`: set each sent field, then apply the tag list | not executed | Items.ItemsService.UpdateAsWritten | Items.ItemsService.Update |
