/** The item resolver over the items table. Every operation first checks that
    the actor owns or is a member of the board the item (or the new item)
    belongs to; a missing item and a hidden one give the same answer. */
module ItemResolver {
  import opened BoardModel
  import opened Ordering
  import opened Access
  import opened BoardStore

  /** The item filter of `item`, `updateItem`, `deleteItem` and `moveItem`:
      the item is stored and lies on a board the actor may see. */
  predicate ItemAccessible(boards: map<BoardId, Board>, items: map<ItemId, Item>, id: ItemId, actor: UserId)
  {
    id in items && Accessible(boards, items[id].boardId, actor)
  }

  /** The `item(id)` query. */
  function ItemQuery(boards: map<BoardId, Board>, items: map<ItemId, Item>, id: ItemId, actor: UserId)
    : (r: Option<Item>)
    ensures r.Some? <==> id in items && items[id].boardId in boards && CanAccess(boards[items[id].boardId], actor)
    ensures r.Some? ==> r.value == items[id]
  {
    if ItemAccessible(boards, items, id, actor) then Some(items[id]) else None
  }

  /** A hidden item answers exactly as an item that is not stored at all. */
  lemma HiddenItemLooksMissing(boards: map<BoardId, Board>, items: map<ItemId, Item>, id: ItemId, actor: UserId)
    requires id in items && !ItemAccessible(boards, items, id, actor)
    ensures ItemQuery(boards, items, id, actor) == ItemQuery(boards, items - {id}, id, actor)
  {
  }

  ghost predicate SortedByCreation(s: seq<Item>)
  {
    forall i, j :: 0 <= i < j < |s| ==> s[i].createdAt <= s[j].createdAt
  }

  ghost predicate CreatedNotBefore(s: seq<Item>, t: int)
  {
    forall j :: 0 <= j < |s| ==> t <= s[j].createdAt
  }

  ghost predicate DistinctIds(s: seq<Item>)
  {
    forall i, j :: 0 <= i < j < |s| ==> s[i].id != s[j].id
  }

  /** What `.eq('board_id', boardId).order('created_at', { ascending: true })`
      returns: every item of the board, each once, oldest first. */
  ghost predicate IsBoardListing(items: map<ItemId, Item>, boardId: BoardId, s: seq<Item>)
  {
    && (forall e :: e in s ==> e.id in items && items[e.id] == e && e.boardId == boardId)
    && (forall id :: id in items && items[id].boardId == boardId ==> items[id] in s)
    && DistinctIds(s)
    && SortedByCreation(s)
  }

  /** Places `x` before the first item created no earlier than it. */
  function InsertByCreation(x: Item, s: seq<Item>): (r: seq<Item>)
    ensures multiset(r) == multiset(s) + multiset{x}
  {
    if |s| == 0 || x.createdAt <= s[0].createdAt then [x] + s
    else
      assert s == [s[0]] + s[1..];
      [s[0]] + InsertByCreation(x, s[1..])
  }

  lemma SortedByCreationCons(a: Item, t: seq<Item>)
    requires SortedByCreation(t) && CreatedNotBefore(t, a.createdAt)
    ensures SortedByCreation([a] + t)
  {
    var r := [a] + t;
    forall i, j | 0 <= i < j < |r|
      ensures r[i].createdAt <= r[j].createdAt
    {
      assert r[j] == t[j - 1];
      if i > 0 {
        assert r[i] == t[i - 1];
      }
    }
  }

  lemma {:induction false} InsertByCreationSorted(x: Item, s: seq<Item>)
    requires SortedByCreation(s)
    ensures SortedByCreation(InsertByCreation(x, s))
  {
    if |s| == 0 || x.createdAt <= s[0].createdAt {
      SortedByCreationCons(x, s);
    } else {
      var t := InsertByCreation(x, s[1..]);
      forall i, j | 0 <= i < j < |s[1..]|
        ensures s[1..][i].createdAt <= s[1..][j].createdAt
      {
        assert s[1..][i] == s[i + 1] && s[1..][j] == s[j + 1];
      }
      InsertByCreationSorted(x, s[1..]);
      forall j | 0 <= j < |t|
        ensures s[0].createdAt <= t[j].createdAt
      {
        assert t[j] in multiset(t);
        if t[j] != x {
          assert t[j] in multiset(s[1..]);
          var m :| 0 <= m < |s[1..]| && s[1..][m] == t[j];
          assert s[m + 1] == t[j];
        }
      }
      SortedByCreationCons(s[0], t);
    }
  }

  lemma {:induction false} InsertByCreationDistinct(x: Item, s: seq<Item>)
    requires DistinctIds(s)
    requires forall j :: 0 <= j < |s| ==> s[j].id != x.id
    ensures DistinctIds(InsertByCreation(x, s))
  {
    var r := InsertByCreation(x, s);
    if |s| == 0 || x.createdAt <= s[0].createdAt {
      forall i, j | 0 <= i < j < |r|
        ensures r[i].id != r[j].id
      {
        assert r[j] == s[j - 1];
        if i > 0 {
          assert r[i] == s[i - 1];
        }
      }
    } else {
      var t := InsertByCreation(x, s[1..]);
      forall i, j | 0 <= i < j < |s[1..]|
        ensures s[1..][i].id != s[1..][j].id
      {
        assert s[1..][i] == s[i + 1] && s[1..][j] == s[j + 1];
      }
      InsertByCreationDistinct(x, s[1..]);
      forall j | 0 <= j < |t|
        ensures s[0].id != t[j].id
      {
        assert t[j] in multiset(t);
        if t[j] != x {
          assert t[j] in multiset(s[1..]);
          var m :| 0 <= m < |s[1..]| && s[1..][m] == t[j];
          assert s[m + 1] == t[j];
        }
      }
      assert r == [s[0]] + t;
      forall i, j | 0 <= i < j < |r|
        ensures r[i].id != r[j].id
      {
        assert r[j] == t[j - 1];
        if i > 0 {
          assert r[i] == t[i - 1];
        }
      }
    }
  }

  /** The `items(boardId)` query: refused unless the actor may see the board;
      otherwise the board's items in ascending creation time. */
  method ListItems(boards: map<BoardId, Board>, items: map<ItemId, Item>, boardId: BoardId, actor: UserId)
    returns (r: Result<seq<Item>>)
    requires forall id :: id in items ==> items[id].id == id
    ensures r.Failure? <==> !(boardId in boards && CanAccess(boards[boardId], actor))
    ensures r.Failure? ==> r.error == BoardNotFoundOrUnauthorized
    ensures r.Success? ==> IsBoardListing(items, boardId, r.value)
  {
    if !Accessible(boards, boardId, actor) {
      return Failure(BoardNotFoundOrUnauthorized);
    }
    var rest := items.Keys;
    var listing: seq<Item> := [];
    while rest != {}
      invariant rest <= items.Keys
      invariant forall e :: e in listing ==> e.id in items && items[e.id] == e && e.boardId == boardId && e.id !in rest
      invariant forall id :: id in items && id !in rest && items[id].boardId == boardId ==> items[id] in listing
      invariant DistinctIds(listing)
      invariant SortedByCreation(listing)
      decreases rest
    {
      var id :| id in rest;
      if items[id].boardId == boardId {
        var next := InsertByCreation(items[id], listing);
        InsertByCreationSorted(items[id], listing);
        forall j | 0 <= j < |listing|
          ensures listing[j].id != items[id].id
        {
          assert listing[j] in listing;
        }
        InsertByCreationDistinct(items[id], listing);
        forall e | e in next
          ensures e == items[id] || e in listing
        {
          assert e in multiset(next);
        }
        forall e | e in listing
          ensures e in next
        {
          assert e in multiset(listing);
          assert e in multiset(next);
        }
        assert items[id] in multiset(next);
        listing := next;
      }
      rest := rest - {id};
    }
    return Success(listing);
  }

  /** `createItem`: on a board the actor may see, stores one item with the given
      board and group (the group is not looked up), `values` defaulting to `{}`,
      and the actor as creator and last editor. `itemId` and `now` stand for the
      id and creation time the store assigns. */
  method CreateItem(store: Store, actor: UserId, boardId: BoardId, groupId: GroupId, title: string,
                    description: Option<string>, values: Option<Settings>, itemId: ItemId, now: int)
    returns (r: Result<Item>)
    requires store.Valid()
    modifies store
    ensures store.Valid() && store.boards == old(store.boards)
    ensures r.Failure? ==> store.items == old(store.items)
    ensures !Accessible(old(store.boards), boardId, actor) ==> r == Failure(BoardNotFoundOrUnauthorized)
    ensures Accessible(old(store.boards), boardId, actor) && itemId in old(store.items) ==> r == Failure(StoreRejected)
    ensures Accessible(old(store.boards), boardId, actor) && itemId !in old(store.items) ==>
      && r == Success(Item(itemId, boardId, groupId, title, description, OrElse(values, map[]), actor, actor, now))
      && store.items == old(store.items)[itemId := r.value]
  {
    if !Accessible(store.boards, boardId, actor) {
      return Failure(BoardNotFoundOrUnauthorized);
    }
    if itemId in store.items {
      return Failure(StoreRejected);
    }
    var item := Item(itemId, boardId, groupId, title, description, OrElse(values, map[]), actor, actor, now);
    store.items := store.items[itemId := item];
    return Success(item);
  }

  /** The `updates` object of `updateItem` and `moveItem`. */
  datatype ItemUpdates = ItemUpdates(
    title: Option<string>,
    description: Option<string>,
    values: Option<Settings>,
    groupId: Option<GroupId>,
    updatedBy: UserId)

  /** `.update(updates)`: writes exactly the fields `updates` holds, and always `updated_by`. */
  function ApplyItemUpdates(it: Item, u: ItemUpdates): (r: Item)
  {
    it.(title := OrElse(u.title, it.title),
        description := if u.description.Some? then u.description else it.description,
        values := OrElse(u.values, it.values),
        groupId := OrElse(u.groupId, it.groupId),
        updatedBy := u.updatedBy)
  }

  /** `updateItem`: each of title, description, values and group is replaced
      when the argument is truthy and kept otherwise; `updated_by` becomes the
      actor in every case. The new group is not checked. */
  method UpdateItem(store: Store, actor: UserId, id: ItemId, title: Option<string>,
                    description: Option<string>, values: Option<Settings>, groupId: Option<GroupId>)
    returns (r: Result<Item>)
    requires store.Valid()
    modifies store
    ensures store.Valid() && store.boards == old(store.boards)
    ensures !ItemAccessible(old(store.boards), old(store.items), id, actor) ==>
      r == Failure(ItemNotFoundOrUnauthorized) && store.items == old(store.items)
    ensures ItemAccessible(old(store.boards), old(store.items), id, actor) ==>
      var before := old(store.items)[id];
      && r.Success?
      && store.items == old(store.items)[id := r.value]
      && r.value.title == (if Truthy(title) then title.value else before.title)
      && r.value.description == (if Truthy(description) then description else before.description)
      && r.value.values == OrElse(values, before.values)
      && r.value.groupId == (if Truthy(groupId) then groupId.value else before.groupId)
      && r.value.updatedBy == actor
      && r.value.(title := before.title, description := before.description, values := before.values,
                  groupId := before.groupId, updatedBy := before.updatedBy) == before
  {
    if !ItemAccessible(store.boards, store.items, id, actor) {
      return Failure(ItemNotFoundOrUnauthorized);
    }
    var updates := ItemUpdates(None, None, None, None, actor);
    if Truthy(title) {
      updates := updates.(title := title);
    }
    if Truthy(description) {
      updates := updates.(description := description);
    }
    if values.Some? {
      updates := updates.(values := values);
    }
    if Truthy(groupId) {
      updates := updates.(groupId := groupId);
    }
    updates := updates.(updatedBy := actor);
    var updated := ApplyItemUpdates(store.items[id], updates);
    store.items := store.items[id := updated];
    return Success(updated);
  }

  /** `deleteItem`: removes exactly that item, once the access check passes. */
  method DeleteItem(store: Store, actor: UserId, id: ItemId) returns (r: Result<bool>)
    requires store.Valid()
    modifies store
    ensures store.Valid() && store.boards == old(store.boards)
    ensures !ItemAccessible(old(store.boards), old(store.items), id, actor) ==>
      r == Failure(ItemNotFoundOrUnauthorized) && store.items == old(store.items)
    ensures ItemAccessible(old(store.boards), old(store.items), id, actor) ==>
      r == Success(true) && store.items == old(store.items) - {id}
  {
    if !ItemAccessible(store.boards, store.items, id, actor) {
      return Failure(ItemNotFoundOrUnauthorized);
    }
    store.items := store.items - {id};
    return Success(true);
  }

  /** `moveItem`: the target group must be a group of the item's own board;
      then only the item's group and `updated_by` change. */
  method MoveItem(store: Store, actor: UserId, id: ItemId, groupId: GroupId) returns (r: Result<Item>)
    requires store.Valid()
    modifies store
    ensures store.Valid() && store.boards == old(store.boards)
    ensures r.Failure? ==> store.items == old(store.items)
    ensures !ItemAccessible(old(store.boards), old(store.items), id, actor) ==> r == Failure(ItemNotFoundOrUnauthorized)
    ensures ItemAccessible(old(store.boards), old(store.items), id, actor) ==>
      var before := old(store.items)[id];
      var groups := old(store.boards)[before.boardId].groups;
      && ((forall k :: 0 <= k < |groups| ==> groups[k].id != groupId) <==> r == Failure(TargetGroupNotFound))
      && (r != Failure(TargetGroupNotFound) ==>
            && r == Success(before.(groupId := groupId, updatedBy := actor))
            && store.items == old(store.items)[id := r.value])
  {
    if !ItemAccessible(store.boards, store.items, id, actor) {
      return Failure(ItemNotFoundOrUnauthorized);
    }
    var item := store.items[id];
    if FindIndex(store.boards[item.boardId].groups, GroupKey, groupId) == -1 {
      return Failure(TargetGroupNotFound);
    }
    var updated := ApplyItemUpdates(item, ItemUpdates(None, None, None, Some(groupId), actor));
    store.items := store.items[id := updated];
    return Success(updated);
  }
}
