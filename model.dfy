/** The records of the board service: boards with their columns and groups,
    and the items stored beside them, with the nullable arguments and the
    errors the resolvers raise. */
module BoardModel {

  type Id = string
  type BoardId = Id
  type ColumnId = Id
  type GroupId = Id
  type ItemId = Id
  type UserId = Id

  /** A nullable GraphQL argument or record field (`undefined`/`null` is None). */
  datatype Option<+T> = None | Some(value: T)

  /** `x || fallback` for an argument that is an object: present objects are truthy. */
  function OrElse<T>(x: Option<T>, fallback: T): (r: T)
  {
    match x
    case Some(v) => v
    case None => fallback
  }

  /** JavaScript truthiness of an optional string: present and not empty. */
  predicate Truthy(s: Option<string>)
  {
    s.Some? && s.value != ""
  }

  /** `Record<string, any>`: an opaque JSON document. Numbers are integers here. */
  datatype Json =
    | JNull
    | JBool(b: bool)
    | JNumber(n: int)
    | JString(s: string)
    | JArray(elems: seq<Json>)
    | JObject(fields: map<string, Json>)

  type Settings = map<string, Json>

  /** A board column; `columnType` is the source's `type` field. */
  datatype Column = Column(id: ColumnId, title: string, columnType: string, settings: Settings)

  /** A group of a board; `itemIds` is stored but no resolver maintains it. */
  datatype Group = Group(id: GroupId, title: string, itemIds: seq<ItemId>)

  /** A board record: owner, member rows, columns and groups in display order. */
  datatype Board = Board(
    id: BoardId,
    title: string,
    description: string,
    ownerId: UserId,
    memberIds: seq<UserId>,
    columns: seq<Column>,
    groups: seq<Group>,
    settings: Settings)

  /** A row of the items table; `createdAt` is the clock value at insertion. */
  datatype Item = Item(
    id: ItemId,
    boardId: BoardId,
    groupId: GroupId,
    title: string,
    description: Option<string>,
    values: Settings,
    createdBy: UserId,
    updatedBy: UserId,
    createdAt: int)

  function ColumnKey(c: Column): Id { c.id }
  function GroupKey(g: Group): Id { g.id }

  /** The errors the resolvers throw, each with the message of the `Error` the
      resolver raises; `StoreRejected` is the store's own error for an insert it
      refuses, whose text comes from the store. */
  datatype Error =
    | BoardNotFound                // "Board not found"
    | BoardNotFoundOrUnauthorized  // "Board not found or unauthorized"
    | ColumnNotFound               // "Column not found"
    | InvalidColumnIds             // "Invalid column IDs"
    | GroupNotFound                // "Group not found"
    | InvalidGroupIds              // "Invalid group IDs"
    | ItemNotFoundOrUnauthorized   // "Item not found or unauthorized"
    | TargetGroupNotFound          // "Target group not found"
    | StoreRejected

  datatype Result<+T> = Success(value: T) | Failure(error: Error)
}
