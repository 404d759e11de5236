/** The column resolver: a query and four mutations of a board's `columns`,
    each behind the "owner or member" lookup. A mutation changes the list of
    the board it found, then saves the board; every failure leaves the store
    as it was. */
module ColumnResolver {
  import opened BoardModel
  import opened Ordering
  import opened Access
  import opened BoardStore

  /** The `columns` query: the board, as a one-element list. */
  function Columns(boards: map<BoardId, Board>, boardId: BoardId, actor: UserId): (r: Result<seq<Board>>)
    ensures r.Success? <==> boardId in boards && CanAccess(boards[boardId], actor)
    ensures r.Success? ==> r.value == [boards[boardId]]
    ensures r.Failure? ==> r.error == BoardNotFound
  {
    match FindAccessible(boards, boardId, actor)
    case None => Failure(BoardNotFound)
    case Some(board) => Success([board])
  }

  /** `createColumn`: appends one column; `columnId` is the value `uuidv4()` drew. */
  method CreateColumn(store: Store, actor: UserId, boardId: BoardId, title: string,
                      columnType: string, settings: Option<Settings>, columnId: ColumnId)
    returns (r: Result<Board>)
    requires store.Valid()
    modifies store
    ensures store.Valid() && store.items == old(store.items)
    ensures !Accessible(old(store.boards), boardId, actor) ==>
      r == Failure(BoardNotFound) && store.boards == old(store.boards)
    ensures Accessible(old(store.boards), boardId, actor) ==>
      var before := old(store.boards)[boardId];
      && r.Success?
      && store.boards == old(store.boards)[boardId := r.value]
      && r.value == before.(columns := before.columns + [Column(columnId, title, columnType, OrElse(settings, map[]))])
  {
    var found := FindAccessible(store.boards, boardId, actor);
    if found.None? {
      return Failure(BoardNotFound);
    }
    var board := found.value;
    board := board.(columns := board.columns + [Column(columnId, title, columnType, OrElse(settings, map[]))]);
    store.boards := store.boards[boardId := board];
    return Success(board);
  }

  /** `updateColumn`: the first column with the id takes each supplied truthy
      field; every other column, and every field not supplied, stays. */
  method UpdateColumn(store: Store, actor: UserId, boardId: BoardId, columnId: ColumnId,
                      title: Option<string>, columnType: Option<string>, settings: Option<Settings>)
    returns (r: Result<Board>)
    requires store.Valid()
    modifies store
    ensures store.Valid() && store.items == old(store.items)
    ensures r.Failure? ==> store.boards == old(store.boards)
    ensures !Accessible(old(store.boards), boardId, actor) ==> r == Failure(BoardNotFound)
    ensures Accessible(old(store.boards), boardId, actor) ==>
      var before := old(store.boards)[boardId];
      var i := FindIndex(before.columns, ColumnKey, columnId);
      && (i == -1 <==> r == Failure(ColumnNotFound))
      && (i != -1 ==>
            && r.Success?
            && store.boards == old(store.boards)[boardId := r.value]
            && r.value == before.(columns := r.value.columns)
            && |r.value.columns| == |before.columns|
            && (forall j :: 0 <= j < |before.columns| && j != i ==> r.value.columns[j] == before.columns[j])
            && r.value.columns[i].id == columnId
            && r.value.columns[i].title == (if Truthy(title) then title.value else before.columns[i].title)
            && r.value.columns[i].columnType == (if Truthy(columnType) then columnType.value else before.columns[i].columnType)
            && r.value.columns[i].settings == OrElse(settings, before.columns[i].settings))
  {
    var found := FindAccessible(store.boards, boardId, actor);
    if found.None? {
      return Failure(BoardNotFound);
    }
    var board := found.value;
    var i := FindIndex(board.columns, ColumnKey, columnId);
    if i == -1 {
      return Failure(ColumnNotFound);
    }
    var column := board.columns[i];
    if Truthy(title) {
      column := column.(title := title.value);
    }
    if Truthy(columnType) {
      column := column.(columnType := columnType.value);
    }
    if settings.Some? {
      column := column.(settings := settings.value);
    }
    board := board.(columns := board.columns[i := column]);
    store.boards := store.boards[boardId := board];
    return Success(board);
  }

  /** `deleteColumn`: removes the first column with the id, the others keep their order. */
  method DeleteColumn(store: Store, actor: UserId, boardId: BoardId, columnId: ColumnId)
    returns (r: Result<Board>)
    requires store.Valid()
    modifies store
    ensures store.Valid() && store.items == old(store.items)
    ensures r.Failure? ==> store.boards == old(store.boards)
    ensures !Accessible(old(store.boards), boardId, actor) ==> r == Failure(BoardNotFound)
    ensures Accessible(old(store.boards), boardId, actor) ==>
      var before := old(store.boards)[boardId];
      var i := FindIndex(before.columns, ColumnKey, columnId);
      && (i == -1 <==> r == Failure(ColumnNotFound))
      && (i != -1 ==>
            && r.Success?
            && store.boards == old(store.boards)[boardId := r.value]
            && r.value == before.(columns := RemoveAt(before.columns, i)))
  {
    var found := FindAccessible(store.boards, boardId, actor);
    if found.None? {
      return Failure(BoardNotFound);
    }
    var board := found.value;
    var i := FindIndex(board.columns, ColumnKey, columnId);
    if i == -1 {
      return Failure(ColumnNotFound);
    }
    board := board.(columns := RemoveAt(board.columns, i));
    store.boards := store.boards[boardId := board];
    return Success(board);
  }

  /** `reorderColumns`: refuses a request naming an unknown column id, and
      otherwise sorts the columns by their rank in the request. */
  method ReorderColumns(store: Store, actor: UserId, boardId: BoardId, columnIds: seq<ColumnId>)
    returns (r: Result<Board>)
    requires store.Valid()
    modifies store
    ensures store.Valid() && store.items == old(store.items)
    ensures r.Failure? ==> store.boards == old(store.boards)
    ensures !Accessible(old(store.boards), boardId, actor) ==> r == Failure(BoardNotFound)
    ensures Accessible(old(store.boards), boardId, actor) ==>
      var before := old(store.boards)[boardId];
      && ((exists k :: 0 <= k < |columnIds| && FindIndex(before.columns, ColumnKey, columnIds[k]) == -1)
            <==> r == Failure(InvalidColumnIds))
      && (r != Failure(InvalidColumnIds) ==>
            && r.Success?
            && store.boards == old(store.boards)[boardId := r.value]
            && r.value == before.(columns := SortByRank(before.columns, ColumnKey, columnIds)))
  {
    var found := FindAccessible(store.boards, boardId, actor);
    if found.None? {
      return Failure(BoardNotFound);
    }
    var board := found.value;
    var existing := Ids(board.columns, ColumnKey);
    var invalid := InvalidIds(columnIds, existing);
    if |invalid| > 0 {
      ghost var x :| x in invalid;
      ghost var k :| 0 <= k < |columnIds| && columnIds[k] == x;
      assert FindIndex(board.columns, ColumnKey, columnIds[k]) == -1;
      return Failure(InvalidColumnIds);
    }
    forall k | 0 <= k < |columnIds|
      ensures FindIndex(board.columns, ColumnKey, columnIds[k]) != -1
    {
      var m :| 0 <= m < |existing| && existing[m] == columnIds[k];
      assert ColumnKey(board.columns[m]) == columnIds[k];
    }
    board := board.(columns := SortByRank(board.columns, ColumnKey, columnIds));
    store.boards := store.boards[boardId := board];
    return Success(board);
  }

  /** A reorder yields the same columns, rearranged: unlisted ones first in
      their old order, listed ones by the first occurrence of their id in
      the request. */
  lemma ReorderColumnsShape(columns: seq<Column>, columnIds: seq<ColumnId>)
    ensures var r := SortByRank(columns, ColumnKey, columnIds);
      && |r| == |columns|
      && multiset(r) == multiset(columns)
      && WithRank(r, ColumnKey, columnIds, -1) == WithRank(columns, ColumnKey, columnIds, -1)
      && (forall i, j :: 0 <= i < j < |r| && r[j].id !in columnIds ==> r[i].id !in columnIds)
      && (forall i, j :: 0 <= i < j < |r| && r[i].id in columnIds && r[j].id in columnIds && r[i].id != r[j].id
            ==> IndexOf(columnIds, r[i].id) < IndexOf(columnIds, r[j].id))
  {
    SortPermutes(columns, ColumnKey, columnIds);
    ReorderPlacesUnlistedFirst(columns, ColumnKey, columnIds);
    ReorderFollowsRequest(columns, ColumnKey, columnIds);
  }

  /** With columns [C1, C2], the request [C2, C1] gives [C2, C1]; the request
      [C2], which leaves C1 out, is accepted too and gives [C1, C2]. */
  lemma ReorderTwoColumns(c1: Column, c2: Column)
    requires c1.id != c2.id
    ensures InvalidIds([c2.id, c1.id], Ids([c1, c2], ColumnKey)) == []
    ensures SortByRank([c1, c2], ColumnKey, [c2.id, c1.id]) == [c2, c1]
    ensures InvalidIds([c2.id], Ids([c1, c2], ColumnKey)) == []
    ensures SortByRank([c1, c2], ColumnKey, [c2.id]) == [c1, c2]
  {
    assert Ids([c1, c2], ColumnKey) == [c1.id, c2.id];
    assert Rank(c1, ColumnKey, [c2.id, c1.id]) == 1;
    assert Rank(c2, ColumnKey, [c2.id, c1.id]) == 0;
    assert Rank(c1, ColumnKey, [c2.id]) == -1;
    assert Rank(c2, ColumnKey, [c2.id]) == 0;
    assert [c1, c2][1..] == [c2] && [c2][1..] == [];
    assert SortByRank([c2], ColumnKey, [c2.id, c1.id]) == [c2];
    assert Insert(c1, [c2], ColumnKey, [c2.id, c1.id]) == [c2] + Insert(c1, [], ColumnKey, [c2.id, c1.id]);
    assert SortByRank([c2], ColumnKey, [c2.id]) == [c2];
  }
}
