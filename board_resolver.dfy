/** The board resolver: the visibility queries, board creation with its
    default column and group, the merge of truthy fields on update, and the
    owner-only operations (delete, add member, remove member). */
module BoardResolver {
  import opened BoardModel
  import opened Access
  import opened BoardStore

  /** The `boards` query: every board the actor owns or is a member of. */
  function VisibleBoards(boards: map<BoardId, Board>, actor: UserId): (r: set<Board>)
    requires forall id :: id in boards ==> boards[id].id == id
    ensures forall b :: b in r <==> b.id in boards && boards[b.id] == b && CanAccess(b, actor)
  {
    set id | id in boards && CanAccess(boards[id], actor) :: boards[id]
  }

  /** The options of the default "Status" column. */
  const StatusOptions: seq<Json> := [JString("To Do"), JString("In Progress"), JString("Done")]

  /** `createBoard`: inserts the board row (the actor owns it, settings `{}`),
      then the actor's member row, then the "Status" column, then the
      "Main Group" group, and returns the board row as first inserted. The
      three ids stand for the ones the store generates. */
  method CreateBoard(store: Store, actor: UserId, title: string, description: string,
                     boardId: BoardId, columnId: ColumnId, groupId: GroupId)
    returns (r: Result<Board>)
    requires store.Valid()
    modifies store
    ensures store.Valid() && store.items == old(store.items)
    ensures boardId in old(store.boards) ==>
      r == Failure(StoreRejected) && store.boards == old(store.boards)
    ensures boardId !in old(store.boards) ==>
      && r == Success(Board(boardId, title, description, actor, [], [], [], map[]))
      && boardId in store.boards
      && store.boards == old(store.boards)[boardId := store.boards[boardId]]
      && var b := store.boards[boardId];
      && b.id == boardId && b.title == title && b.description == description
      && b.ownerId == actor
      && b.memberIds == [actor]
      && b.settings == map[]
      && b.columns == [Column(columnId, "Status", "status", map["options" := JArray([JString("To Do"), JString("In Progress"), JString("Done")])])]
      && b.groups == [Group(groupId, "Main Group", [])]
      && CanAccess(b, actor) && Owned(store.boards, boardId, actor)
      && (forall other :: other != actor ==> !CanAccess(b, other))
  {
    if boardId in store.boards {
      return Failure(StoreRejected);
    }
    var board := Board(boardId, title, description, actor, [], [], [], map[]);
    store.boards := store.boards[boardId := board];
    // the owner's member row
    var stored := store.boards[boardId];
    store.boards := store.boards[boardId := stored.(memberIds := stored.memberIds + [actor])];
    // the default column
    stored := store.boards[boardId];
    var status := Column(columnId, "Status", "status", map["options" := JArray(StatusOptions)]);
    store.boards := store.boards[boardId := stored.(columns := stored.columns + [status])];
    // the default group
    stored := store.boards[boardId];
    store.boards := store.boards[boardId := stored.(groups := stored.groups + [Group(groupId, "Main Group", [])])];
    return Success(board);
  }

  /** The `updates` object of `updateBoard`: the fields that will be written. */
  datatype BoardUpdates = BoardUpdates(title: Option<string>, description: Option<string>, settings: Option<Settings>)

  /** `.update(updates)`: writes exactly the fields `updates` holds. */
  function ApplyBoardUpdates(b: Board, u: BoardUpdates): (r: Board)
  {
    b.(title := OrElse(u.title, b.title),
       description := OrElse(u.description, b.description),
       settings := OrElse(u.settings, b.settings))
  }

  /** `updateBoard`: for an owner or member, each of title, description and
      settings is replaced when the argument is truthy and kept otherwise
      (an empty string keeps the old value); nothing else changes. */
  method UpdateBoard(store: Store, actor: UserId, boardId: BoardId,
                     title: Option<string>, description: Option<string>, settings: Option<Settings>)
    returns (r: Result<Board>)
    requires store.Valid()
    modifies store
    ensures store.Valid() && store.items == old(store.items)
    ensures !Accessible(old(store.boards), boardId, actor) ==>
      r == Failure(BoardNotFound) && store.boards == old(store.boards)
    ensures Accessible(old(store.boards), boardId, actor) ==>
      var before := old(store.boards)[boardId];
      && r.Success?
      && store.boards == old(store.boards)[boardId := r.value]
      && r.value.title == (if Truthy(title) then title.value else before.title)
      && r.value.description == (if Truthy(description) then description.value else before.description)
      && r.value.settings == OrElse(settings, before.settings)
      && r.value.(title := before.title, description := before.description, settings := before.settings) == before
  {
    var found := FindAccessible(store.boards, boardId, actor);
    if found.None? {
      return Failure(BoardNotFound);
    }
    var updates := BoardUpdates(None, None, None);
    if Truthy(title) {
      updates := updates.(title := title);
    }
    if Truthy(description) {
      updates := updates.(description := description);
    }
    if settings.Some? {
      updates := updates.(settings := settings);
    }
    var updated := ApplyBoardUpdates(store.boards[boardId], updates);
    store.boards := store.boards[boardId := updated];
    return Success(updated);
  }

  /** `deleteBoard`: only the owner may delete; the board goes, and with it
      (by the store's cascade) the items on it. */
  method DeleteBoard(store: Store, actor: UserId, boardId: BoardId) returns (r: Result<bool>)
    requires store.Valid()
    modifies store
    ensures store.Valid()
    ensures !Owned(old(store.boards), boardId, actor) ==>
      && r == Failure(BoardNotFoundOrUnauthorized)
      && store.boards == old(store.boards) && store.items == old(store.items)
    ensures Owned(old(store.boards), boardId, actor) ==>
      && r == Success(true)
      && store.boards == old(store.boards) - {boardId}
      && store.items == map id | id in old(store.items) && old(store.items)[id].boardId != boardId :: old(store.items)[id]
  {
    if !Owned(store.boards, boardId, actor) {
      return Failure(BoardNotFoundOrUnauthorized);
    }
    store.boards := store.boards - {boardId};
    store.items := map id | id in store.items && store.items[id].boardId != boardId :: store.items[id];
    return Success(true);
  }

  /** `addMember`: only the owner may add; one member row (board, user) is
      added and the board row read by the check is returned. */
  method AddMember(store: Store, actor: UserId, boardId: BoardId, userId: UserId) returns (r: Result<Board>)
    requires store.Valid()
    modifies store
    ensures store.Valid() && store.items == old(store.items)
    ensures !Owned(old(store.boards), boardId, actor) ==>
      r == Failure(BoardNotFoundOrUnauthorized) && store.boards == old(store.boards)
    ensures Owned(old(store.boards), boardId, actor) ==>
      var before := old(store.boards)[boardId];
      && r == Success(before)
      && store.boards == old(store.boards)[boardId := before.(memberIds := before.memberIds + [userId])]
  {
    if !Owned(store.boards, boardId, actor) {
      return Failure(BoardNotFoundOrUnauthorized);
    }
    var board := store.boards[boardId];
    store.boards := store.boards[boardId := board.(memberIds := board.memberIds + [userId])];
    return Success(board);
  }

  /** The member rows left after deleting every row for `user`. */
  function WithoutMember(members: seq<UserId>, user: UserId): (r: seq<UserId>)
    ensures user !in r
    ensures forall v :: v != user ==> multiset(r)[v] == multiset(members)[v]
  {
    if |members| == 0 then []
    else
      assert members == [members[0]] + members[1..];
      var rest := WithoutMember(members[1..], user);
      if members[0] == user then rest else [members[0]] + rest
  }

  /** Removing a user after adding them leaves the rows as removing alone would. */
  lemma {:induction false} RemoveUndoesAdd(members: seq<UserId>, user: UserId)
    ensures WithoutMember(members + [user], user) == WithoutMember(members, user)
  {
    if |members| == 0 {
      assert members + [user] == [user];
    } else {
      assert (members + [user])[1..] == members[1..] + [user];
      RemoveUndoesAdd(members[1..], user);
    }
  }

  /** After `removeMember(user)` the user keeps access only as the owner;
      every other user's access is as before. */
  lemma RemovedMemberAccess(b: Board, user: UserId, v: UserId)
    ensures var after := b.(memberIds := WithoutMember(b.memberIds, user));
      CanAccess(after, v) <==> (if v == user then v == b.ownerId else CanAccess(b, v))
  {
    var after := WithoutMember(b.memberIds, user);
    if v != user {
      assert v in after <==> multiset(after)[v] > 0;
      assert v in b.memberIds <==> multiset(b.memberIds)[v] > 0;
    }
  }

  /** `removeMember`: only the owner may remove; every row (board, user) is
      deleted, other rows stay, and the board row read by the check is returned. */
  method RemoveMember(store: Store, actor: UserId, boardId: BoardId, userId: UserId) returns (r: Result<Board>)
    requires store.Valid()
    modifies store
    ensures store.Valid() && store.items == old(store.items)
    ensures !Owned(old(store.boards), boardId, actor) ==>
      r == Failure(BoardNotFoundOrUnauthorized) && store.boards == old(store.boards)
    ensures Owned(old(store.boards), boardId, actor) ==>
      var before := old(store.boards)[boardId];
      && r == Success(before)
      && store.boards == old(store.boards)[boardId := before.(memberIds := WithoutMember(before.memberIds, userId))]
  {
    if !Owned(store.boards, boardId, actor) {
      return Failure(BoardNotFoundOrUnauthorized);
    }
    var board := store.boards[boardId];
    store.boards := store.boards[boardId := board.(memberIds := WithoutMember(board.memberIds, userId))];
    return Success(board);
  }
}
