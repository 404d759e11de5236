/** The group resolver: a query and four mutations of a board's `groups`,
    each behind the "owner or member" lookup. No operation here reads or
    writes the items table, and none maintains a group's `itemIds`. */
module GroupResolver {
  import opened BoardModel
  import opened Ordering
  import opened Access
  import opened BoardStore

  /** The `groups` query: the board, as a one-element list. */
  function Groups(boards: map<BoardId, Board>, boardId: BoardId, actor: UserId): (r: Result<seq<Board>>)
    ensures r.Success? <==> boardId in boards && CanAccess(boards[boardId], actor)
    ensures r.Success? ==> r.value == [boards[boardId]]
    ensures r.Failure? ==> r.error == BoardNotFound
  {
    match FindAccessible(boards, boardId, actor)
    case None => Failure(BoardNotFound)
    case Some(board) => Success([board])
  }

  /** `createGroup`: appends one group with no items; `groupId` is the value `uuidv4()` drew. */
  method CreateGroup(store: Store, actor: UserId, boardId: BoardId, title: string, groupId: GroupId)
    returns (r: Result<Board>)
    requires store.Valid()
    modifies store
    ensures store.Valid() && store.items == old(store.items)
    ensures !Accessible(old(store.boards), boardId, actor) ==>
      r == Failure(BoardNotFound) && store.boards == old(store.boards)
    ensures Accessible(old(store.boards), boardId, actor) ==>
      var before := old(store.boards)[boardId];
      && r.Success?
      && store.boards == old(store.boards)[boardId := r.value]
      && r.value == before.(groups := before.groups + [Group(groupId, title, [])])
  {
    var found := FindAccessible(store.boards, boardId, actor);
    if found.None? {
      return Failure(BoardNotFound);
    }
    var board := found.value;
    board := board.(groups := board.groups + [Group(groupId, title, [])]);
    store.boards := store.boards[boardId := board];
    return Success(board);
  }

  /** `updateGroup`: the first group with the id takes the new title (even an
      empty one); its `itemIds` and every other group stay. */
  method UpdateGroup(store: Store, actor: UserId, boardId: BoardId, groupId: GroupId, title: string)
    returns (r: Result<Board>)
    requires store.Valid()
    modifies store
    ensures store.Valid() && store.items == old(store.items)
    ensures r.Failure? ==> store.boards == old(store.boards)
    ensures !Accessible(old(store.boards), boardId, actor) ==> r == Failure(BoardNotFound)
    ensures Accessible(old(store.boards), boardId, actor) ==>
      var before := old(store.boards)[boardId];
      var i := FindIndex(before.groups, GroupKey, groupId);
      && (i == -1 <==> r == Failure(GroupNotFound))
      && (i != -1 ==>
            && r.Success?
            && store.boards == old(store.boards)[boardId := r.value]
            && r.value == before.(groups := r.value.groups)
            && |r.value.groups| == |before.groups|
            && (forall j :: 0 <= j < |before.groups| && j != i ==> r.value.groups[j] == before.groups[j])
            && r.value.groups[i] == Group(groupId, title, before.groups[i].itemIds))
  {
    var found := FindAccessible(store.boards, boardId, actor);
    if found.None? {
      return Failure(BoardNotFound);
    }
    var board := found.value;
    var i := FindIndex(board.groups, GroupKey, groupId);
    if i == -1 {
      return Failure(GroupNotFound);
    }
    var group := board.groups[i];
    group := group.(title := title);
    board := board.(groups := board.groups[i := group]);
    store.boards := store.boards[boardId := board];
    return Success(board);
  }

  /** `deleteGroup`: removes the first group with the id; the other groups
      keep their order and the items table is not touched. */
  method DeleteGroup(store: Store, actor: UserId, boardId: BoardId, groupId: GroupId)
    returns (r: Result<Board>)
    requires store.Valid()
    modifies store
    ensures store.Valid() && store.items == old(store.items)
    ensures r.Failure? ==> store.boards == old(store.boards)
    ensures !Accessible(old(store.boards), boardId, actor) ==> r == Failure(BoardNotFound)
    ensures Accessible(old(store.boards), boardId, actor) ==>
      var before := old(store.boards)[boardId];
      var i := FindIndex(before.groups, GroupKey, groupId);
      && (i == -1 <==> r == Failure(GroupNotFound))
      && (i != -1 ==>
            && r.Success?
            && store.boards == old(store.boards)[boardId := r.value]
            && r.value == before.(groups := RemoveAt(before.groups, i)))
  {
    var found := FindAccessible(store.boards, boardId, actor);
    if found.None? {
      return Failure(BoardNotFound);
    }
    var board := found.value;
    var i := FindIndex(board.groups, GroupKey, groupId);
    if i == -1 {
      return Failure(GroupNotFound);
    }
    board := board.(groups := RemoveAt(board.groups, i));
    store.boards := store.boards[boardId := board];
    return Success(board);
  }

  /** `reorderGroups`: refuses a request naming an unknown group id, and
      otherwise sorts the groups by their rank in the request. */
  method ReorderGroups(store: Store, actor: UserId, boardId: BoardId, groupIds: seq<GroupId>)
    returns (r: Result<Board>)
    requires store.Valid()
    modifies store
    ensures store.Valid() && store.items == old(store.items)
    ensures r.Failure? ==> store.boards == old(store.boards)
    ensures !Accessible(old(store.boards), boardId, actor) ==> r == Failure(BoardNotFound)
    ensures Accessible(old(store.boards), boardId, actor) ==>
      var before := old(store.boards)[boardId];
      && ((exists k :: 0 <= k < |groupIds| && FindIndex(before.groups, GroupKey, groupIds[k]) == -1)
            <==> r == Failure(InvalidGroupIds))
      && (r != Failure(InvalidGroupIds) ==>
            && r.Success?
            && store.boards == old(store.boards)[boardId := r.value]
            && r.value == before.(groups := SortByRank(before.groups, GroupKey, groupIds)))
  {
    var found := FindAccessible(store.boards, boardId, actor);
    if found.None? {
      return Failure(BoardNotFound);
    }
    var board := found.value;
    var existing := Ids(board.groups, GroupKey);
    var invalid := InvalidIds(groupIds, existing);
    if |invalid| > 0 {
      ghost var x :| x in invalid;
      ghost var k :| 0 <= k < |groupIds| && groupIds[k] == x;
      assert FindIndex(board.groups, GroupKey, groupIds[k]) == -1;
      return Failure(InvalidGroupIds);
    }
    forall k | 0 <= k < |groupIds|
      ensures FindIndex(board.groups, GroupKey, groupIds[k]) != -1
    {
      var m :| 0 <= m < |existing| && existing[m] == groupIds[k];
      assert GroupKey(board.groups[m]) == groupIds[k];
    }
    board := board.(groups := SortByRank(board.groups, GroupKey, groupIds));
    store.boards := store.boards[boardId := board];
    return Success(board);
  }

  /** A reorder yields the same groups, each with its own title and `itemIds`,
      rearranged: unlisted ones first in their old order, listed ones by the
      first occurrence of their id in the request. */
  lemma ReorderGroupsShape(groups: seq<Group>, groupIds: seq<GroupId>)
    ensures var r := SortByRank(groups, GroupKey, groupIds);
      && |r| == |groups|
      && multiset(r) == multiset(groups)
      && (forall i :: 0 <= i < |r| ==> exists j :: 0 <= j < |groups| && groups[j] == r[i])
      && WithRank(r, GroupKey, groupIds, -1) == WithRank(groups, GroupKey, groupIds, -1)
      && (forall i, j :: 0 <= i < j < |r| && r[j].id !in groupIds ==> r[i].id !in groupIds)
      && (forall i, j :: 0 <= i < j < |r| && r[i].id in groupIds && r[j].id in groupIds && r[i].id != r[j].id
            ==> IndexOf(groupIds, r[i].id) < IndexOf(groupIds, r[j].id))
  {
    var r := SortByRank(groups, GroupKey, groupIds);
    SortPermutes(groups, GroupKey, groupIds);
    forall i | 0 <= i < |r|
      ensures exists j :: 0 <= j < |groups| && groups[j] == r[i]
    {
      assert r[i] in multiset(groups);
    }
    ReorderPlacesUnlistedFirst(groups, GroupKey, groupIds);
    ReorderFollowsRequest(groups, GroupKey, groupIds);
  }
}
