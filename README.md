# Board resolvers: a Dafny model

This project models the server side of a collaborative board application. A
board has an owner, a list of members, an ordered list of columns and an
ordered list of groups. Items are rows of a separate table, and each item
names its board and its group. The GraphQL resolvers change these records.
The column and group resolvers work on a Mongo board document. The board and
item resolvers work on Supabase tables.

The model keeps one abstract store, the class `BoardStore.Store`. Its field
`boards` maps each board id to the whole board record: the members, the
columns and the groups are all part of that record. Its field `items` maps
each item id to the item row. Each resolver call is one method that
`modifies store`. Its postcondition gives the result and the new state in
terms of the old state, for the success path and for every error path. The
queries take the two maps as arguments: the board, column, group and item
queries are functions, and the `items` listing is a method with a loop.

Modules:

- `BoardModel` (`model.dfy`): the records of `models/Board.ts` and
  `models/Item.ts`, written as datatypes. It also holds JSON values, JS
  truthiness (`Truthy`, and `OrElse` for `x || fallback`), and the error
  kinds with their message texts.
- `Ordering` (`ordering.dfy`): the list operations the column and group
  resolvers use: `indexOf`, `findIndex`, `map(id)`, the filter that checks
  a reorder request, `splice(i, 1)`, and `sort` with the comparator
  `indexOf(a.id) - indexOf(b.id)`.
  - `Array.prototype.sort` is stable (section 23.1.3.30 of ECMA-262, 2023
    edition), so the reorder is modelled as `SortByRank`, a stable sort by
    rank. An id the request leaves out has rank -1. `SortByRank` models the
    `sort` calls at server/src/resolvers/ColumnResolver.ts:158-162 and
    server/src/resolvers/GroupResolver.ts:150-154.
  - `StableSortDeterminesReorder` proves that every stable sort with this
    comparator gives exactly `SortByRank`.
- `Access` (`access.dfy`) has the two access rules:
  - "owner or member" (`Accessible`), the `$or` lookup, for example
    server/src/resolvers/ColumnResolver.ts:40-50.
  - "owner" (`Owned`), the `.eq('owner_id', …)` lookups at
    server/src/resolvers/BoardResolver.ts:164-171, 193-200 and 227-234.
- `BoardStore` (`store.dfy`): the store. `Valid()` says every record sits
  under its own id and every item names a stored board.
- `ColumnResolver`, `GroupResolver`, `BoardResolver`, `ItemResolver`: one
  module per resolver file.

Values the environment supplies are parameters of the methods:

- the actor's id, which the authentication middleware supplies;
- ids drawn by `uuidv4()` or generated by the database;
- the store's clock value for `created_at`.

If the store would refuse an insert because the id is already taken, the
method returns `Failure(StoreRejected)`. This error stands for
`if (error) throw error`.

Behaviours of the resolvers that a reader might not expect, all of which the
model keeps:

- Reorder accepts a request that omits ids or repeats them. Only unknown ids
  are refused.
- No mutation records a version or emits a change event.
- `removeMember` may remove the owner's own member row.
- `deleteGroup` leaves the group's items as they are, which contradicts its
  comment.
- No resolver maintains `Group.itemIds`.
- `updateItem` accepts a `groupId` and does not check it.
- `createItem` does not check that the group exists.

## Model

| member | source | states |
|---|---|---|
| Ordering.IndexOf | server/src/resolvers/ColumnResolver.ts:159-160 | the first position of the id in the request, or -1 exactly when the id is absent |
| Ordering.FindIndex | server/src/resolvers/ColumnResolver.ts:119 | the first position whose id matches; -1 exactly when no element has the id |
| Ordering.InvalidIds | server/src/resolvers/ColumnResolver.ts:152-155 | an id is reported exactly when it is requested and names no element; the report is empty exactly when every requested id exists |
| Ordering.RemoveAt | server/src/resolvers/ColumnResolver.ts:125 | `splice(i, 1)`: one element shorter, the prefix before `i` and the suffix after it kept in order, the multiset minus exactly `s[i]` |
| Ordering.SortPermutes | server/src/resolvers/ColumnResolver.ts:158-162 | the reordered list is a permutation of the old one: same multiset, same length |
| Ordering.SortSorted | server/src/resolvers/ColumnResolver.ts:158-162 | the comparator never sees a pair out of order in the result |
| Ordering.SortStable | server/src/resolvers/ColumnResolver.ts:158-162 | for every rank, the elements of that rank keep their relative order |
| Ordering.StableSortUnique | server/src/resolvers/ColumnResolver.ts:158-162 | two lists that are both sorted by rank and agree on every rank's elements are equal |
| Ordering.StableSortDeterminesReorder | server/src/resolvers/ColumnResolver.ts:158-162 | any sorted, stable result of the reorder comparator is `SortByRank` of the old list, so the result does not depend on the engine |
| Ordering.ReorderPlacesUnlistedFirst | server/src/resolvers/ColumnResolver.ts:158-162 | elements whose id the request leaves out come before every listed element, in their original order |
| Ordering.ReorderFollowsRequest | server/src/resolvers/ColumnResolver.ts:158-162 | listed elements with different ids appear in the order of their first occurrence in the request |
| Ordering.ReorderIdempotent | server/src/resolvers/GroupResolver.ts:150-154 | repeating a reorder request changes nothing |
| Ordering.RemoveUndoesAppend | server/src/resolvers/ColumnResolver.ts:52-57 | an element pushed under a fresh id is found at the end, and splicing it out there returns the old list |
| Access.FindAccessible | server/src/resolvers/BoardResolver.ts:35-46 | `board(id)` gives the board exactly when it is stored and the actor is its owner or in its members; otherwise null |
| Access.OwnerRulesAreNested | server/src/resolvers/BoardResolver.ts:164-171 | an owner always passes the member check; a member who is not the owner fails the owner check |
| Access.HiddenLooksAbsent | server/src/resolvers/BoardResolver.ts:45 | a board hidden from the actor is answered exactly as a board that is not stored |
| ColumnResolver.Columns | server/src/resolvers/ColumnResolver.ts:10-28 | the board alone when the actor may see it, else "Board not found" |
| ColumnResolver.CreateColumn | server/src/resolvers/ColumnResolver.ts:32-61 | refused with no change unless owner or member; otherwise exactly one column is appended with the given title and type and settings defaulting to `{}`, and nothing else in the store changes |
| ColumnResolver.UpdateColumn | server/src/resolvers/ColumnResolver.ts:65-97 | "Column not found" with no change exactly when no column has the id; otherwise only the first matching column changes, and only its truthy supplied fields |
| ColumnResolver.DeleteColumn | server/src/resolvers/ColumnResolver.ts:101-128 | an absent id is "Column not found" with no change; otherwise the first matching column is removed and the others keep their order |
| ColumnResolver.ReorderColumns | server/src/resolvers/ColumnResolver.ts:132-166 | "Invalid column IDs" with no change exactly when some requested id names no column; otherwise the columns become their stable sort by request rank |
| ColumnResolver.ReorderColumnsShape | server/src/resolvers/ColumnResolver.ts:150-162 | a reorder gives a permutation of the columns, with unlisted columns first in their old order and listed ones in request order |
| ColumnResolver.ReorderTwoColumns | server/src/resolvers/ColumnResolver.ts:150-162 | for columns [C1, C2], the request [C2, C1] gives [C2, C1]; the partial request [C2] is accepted and gives [C1, C2] |
| GroupResolver.Groups | server/src/resolvers/GroupResolver.ts:10-28 | the board alone when the actor may see it, else "Board not found" |
| GroupResolver.CreateGroup | server/src/resolvers/GroupResolver.ts:32-58 | refused with no change unless owner or member; otherwise one group with the title and no item ids is appended, and nothing else changes |
| GroupResolver.UpdateGroup | server/src/resolvers/GroupResolver.ts:62-89 | "Group not found" with no change exactly when no group has the id; otherwise only the first matching group's title changes, and its `itemIds` stay |
| GroupResolver.DeleteGroup | server/src/resolvers/GroupResolver.ts:93-120 | an absent id is "Group not found"; otherwise the first matching group is removed, the others keep their order, and the items table is unchanged |
| GroupResolver.ReorderGroups | server/src/resolvers/GroupResolver.ts:124-158 | "Invalid group IDs" with no change exactly when some requested id names no group; otherwise the groups become their stable sort by request rank |
| GroupResolver.ReorderGroupsShape | server/src/resolvers/GroupResolver.ts:142-154 | a reorder gives a permutation of the old groups, each group unchanged (title and `itemIds`), with unlisted ones first and listed ones in request order |
| BoardResolver.VisibleBoards | server/src/resolvers/BoardResolver.ts:11-25 | `boards` holds exactly the stored boards the actor owns or is a member of |
| BoardResolver.CreateBoard | server/src/resolvers/BoardResolver.ts:51-115 | the new board is owned by the actor, has the actor as its only member and settings `{}`, one "Status" column of type `status` with options To Do, In Progress, Done, and one "Main Group"; the creator may see and owns it and nobody else may see it; no other board changes |
| BoardResolver.UpdateBoard | server/src/resolvers/BoardResolver.ts:119-153 | "Board not found" with no change unless owner or member; otherwise each of title, description and settings is replaced when truthy and kept otherwise |
| BoardResolver.DeleteBoard | server/src/resolvers/BoardResolver.ts:157-181 | only the owner may delete; otherwise "Board not found or unauthorized" and no change; on success exactly that board and its items go |
| BoardResolver.AddMember | server/src/resolvers/BoardResolver.ts:185-215 | only the owner may add; one member row for the user is added to that board, and no other board changes |
| BoardResolver.WithoutMember | server/src/resolvers/BoardResolver.ts:237-241 | after the delete, no row for the user is left, and every other user keeps exactly as many rows |
| BoardResolver.RemoveUndoesAdd | server/src/resolvers/BoardResolver.ts:203-241 | removing a user right after adding them leaves the rows that removing alone would leave |
| BoardResolver.RemovedMemberAccess | server/src/resolvers/BoardResolver.ts:237-241 | after removal the user keeps access only by being the owner; every other user's access is unchanged |
| BoardResolver.RemoveMember | server/src/resolvers/BoardResolver.ts:219-246 | only the owner may remove; all rows for (board, user) go, other rows and other boards stay |
| ItemResolver.ItemQuery | server/src/resolvers/ItemResolver.ts:39-61 | `item(id)` gives the item exactly when it is stored on a board the actor owns or is a member of; otherwise null |
| ItemResolver.HiddenItemLooksMissing | server/src/resolvers/ItemResolver.ts:56-59 | an item hidden from the actor is answered exactly as an item that is not stored |
| ItemResolver.InsertByCreation | server/src/resolvers/ItemResolver.ts:31 | inserting one item into the listing adds exactly that item |
| ItemResolver.InsertByCreationSorted | server/src/resolvers/ItemResolver.ts:31 | inserting into a listing in ascending `created_at` keeps it ascending |
| ItemResolver.InsertByCreationDistinct | server/src/resolvers/ItemResolver.ts:27-31 | inserting an item whose id is new keeps the ids of the listing distinct |
| ItemResolver.ListItems | server/src/resolvers/ItemResolver.ts:10-35 | refused exactly unless the actor may see the board; otherwise every item of that board, each once, only those, in ascending `created_at` |
| ItemResolver.CreateItem | server/src/resolvers/ItemResolver.ts:65-104 | on a board the actor may see, exactly one item is stored with the given board and group, `values` defaulting to `{}`, and the actor as creator and editor; the group is not checked |
| ItemResolver.UpdateItem | server/src/resolvers/ItemResolver.ts:108-151 | a missing or hidden item is "Item not found or unauthorized" with no change; otherwise title, description, values and group are replaced when truthy, `updated_by` becomes the actor, and nothing else changes |
| ItemResolver.DeleteItem | server/src/resolvers/ItemResolver.ts:155-185 | a missing or hidden item is "Item not found or unauthorized" with no change; otherwise exactly that item is removed |
| ItemResolver.MoveItem | server/src/resolvers/ItemResolver.ts:189-235 | a missing or hidden item is refused; "Target group not found" exactly when the item's own board has no group with that id; on success only `group_id` and `updated_by` change |

## Left out

- The client (React pages, drag and drop, Apollo queries, realtime subscriptions) and its hooks: user interface and I/O.
- `server/src/index.ts`, the authentication middleware and `UserResolver.ts`: server start-up, JWT and bcrypt. The actor id is a parameter.
- The two back ends are one store here. The column and group resolvers write a Mongo document; the board and item resolvers write Supabase tables. The model does not capture that these can differ.
- The Mongo board document's schema. The column and group resolvers import `BoardModel` from `models/Board.ts`, which exports only the `Board` class, and no Mongoose schema appears in the server files this model covers. The model therefore assumes that a column's or group's `id` is a stored field compared with `===`, and that `save()` writes back the whole `columns` and `groups` arrays.
- The Supabase `.or(...)` filter strings, joins and `.single()` semantics are written as the predicate they express: the actor is the owner, or the actor is in `memberIds`.
- `BoardResolver.CreateBoard`: four separate inserts are one atomic step here. The failure of a later insert after an earlier one succeeded is not modelled. Only an insert refused because the board id is taken is modelled.
- Storage errors other than a taken id are not modelled, on every `if (error) throw error` path: connection failures, constraint violations, failed updates.
- Concurrency: each resolver call is one step. The interleaving of `await`s between requests is not modelled.
- `board.save()` after an in-place `push`, field assignment, `splice` or `sort` is modelled as replacing the board's `columns` or `groups` sequence. Aliasing of the Mongo document is not represented.
- The `createdAt`/`updatedAt` timestamps of boards and the `updated_at` of items, which the store sets.
- Board ids, item ids, column ids and group ids are the database's or `uuidv4()`'s choice and are parameters. Their randomness is not modelled.
- JSON settings and values: numbers are integers, with no floating point.
- `BoardResolver.DeleteBoard`: the cascade of the database schema is taken as its comment says. The board's items are deleted with it. The schema itself is not part of this model.
- `ItemResolver.ListItems`: items with equal `created_at` may come in any order, as they may from the database. The contract therefore does not fix their relative order.
- `Board.description` is a plain string. `createBoard` always supplies one, and `updateBoard` only replaces it with a non-empty string.
