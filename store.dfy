/** The abstract store both back ends stand for: the board records (with
    their member rows, columns and groups) and the items table, each keyed by
    id. */
module BoardStore {
  import opened BoardModel

  /** Every record is stored under its own id. */
  ghost predicate Keyed(boards: map<BoardId, Board>, items: map<ItemId, Item>)
  {
    && (forall id :: id in boards ==> boards[id].id == id)
    && (forall id :: id in items ==> items[id].id == id)
  }

  /** Every item names a stored board: items are only created on a board the
      actor may see, and deleting a board deletes its items. */
  ghost predicate ItemsOnBoards(boards: map<BoardId, Board>, items: map<ItemId, Item>)
  {
    forall id :: id in items ==> items[id].boardId in boards
  }

  class Store {
    var boards: map<BoardId, Board>
    var items: map<ItemId, Item>

    ghost predicate Valid()
      reads this
    {
      Keyed(boards, items) && ItemsOnBoards(boards, items)
    }

    constructor ()
      ensures Valid()
      ensures boards == map[] && items == map[]
    {
      boards := map[];
      items := map[];
    }
  }
}
