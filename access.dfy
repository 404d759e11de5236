/** The two access rules of the resolvers: "owner or member" for reading a
    board and changing its columns, groups and items, and "owner" for
    deleting a board and managing its members. Both board lookups are written
    as the predicate their store query expresses. */
module Access {
  import opened BoardModel

  /** `$or: [{ ownerId: userId }, { memberIds: userId }]`, and the Supabase
      filter `owner_id.eq.<user>,board_members.user_id.eq.<user>`. */
  predicate CanAccess(b: Board, actor: UserId)
  {
    actor == b.ownerId || actor in b.memberIds
  }

  /** A board the actor may see is stored under `id`. */
  predicate Accessible(boards: map<BoardId, Board>, id: BoardId, actor: UserId)
  {
    id in boards && CanAccess(boards[id], actor)
  }

  /** `.eq('id', id).eq('owner_id', actor)`: the board is stored and the actor owns it. */
  predicate Owned(boards: map<BoardId, Board>, id: BoardId, actor: UserId)
  {
    id in boards && boards[id].ownerId == actor
  }

  /** `findOne({ _id: id, $or: ... })` and the `board(id)` query: the board when
      the actor may see it, and nothing, whether the board is absent or hidden. */
  function FindAccessible(boards: map<BoardId, Board>, id: BoardId, actor: UserId): (r: Option<Board>)
    ensures r.Some? <==> id in boards && (actor == boards[id].ownerId || actor in boards[id].memberIds)
    ensures r.Some? ==> r.value == boards[id]
  {
    if Accessible(boards, id, actor) then Some(boards[id]) else None
  }

  /** Owning a board implies access to it; membership alone does not make an owner. */
  lemma OwnerRulesAreNested(boards: map<BoardId, Board>, id: BoardId, actor: UserId)
    ensures Owned(boards, id, actor) ==> Accessible(boards, id, actor)
    ensures id in boards && actor in boards[id].memberIds && actor != boards[id].ownerId
      ==> Accessible(boards, id, actor) && !Owned(boards, id, actor)
  {
  }

  /** A hidden board answers exactly as a board that is not stored at all. */
  lemma HiddenLooksAbsent(boards: map<BoardId, Board>, id: BoardId, actor: UserId)
    requires id in boards && !CanAccess(boards[id], actor)
    ensures FindAccessible(boards, id, actor) == FindAccessible(boards - {id}, id, actor)
  {
  }
}
