/** The records shared by the service and the handler: the TODO entity, the row the
    store keeps for it, the error kinds the service returns and the request and
    response shapes the handler decodes and encodes. */
module TodoModel {

  datatype Option<+T> = None | Some(value: T)

  /** A store-assigned timestamp, kept opaque: a reading of the store's clock.
      0 stands for Go's zero `time.Time`. */
  type Timestamp = nat

  /** model.TODO */
  datatype Todo = Todo(
    id: int,
    subject: string,
    description: string,
    createdAt: Timestamp,
    updatedAt: Timestamp)

  /** What the table holds for one id. */
  datatype Row = Row(
    subject: string,
    description: string,
    createdAt: Timestamp,
    updatedAt: Timestamp)

  /** The error values the service returns: sqlite3.ErrConstraint and
      model.ErrNotFound (whose `When` field is a wall-clock reading and is not modelled). */
  datatype Error = ErrConstraint | ErrNotFound(what: string)

  /** The zero value of model.TODO with its ID set. */
  function BlankTodo(id: int): Todo
  {
    Todo(id, "", "", 0, 0)
  }

  /** The record a row is scanned into. */
  function RowTodo(id: int, row: Row): Todo
  {
    Todo(id, row.subject, row.description, row.createdAt, row.updatedAt)
  }

  datatype CreateRequest = CreateRequest(subject: string, description: string)
  datatype CreateResponse = CreateResponse(todo: Todo)
  datatype ReadRequest = ReadRequest(prevID: int, size: int)
  datatype ReadResponse = ReadResponse(todos: seq<Todo>)
  datatype UpdateRequest = UpdateRequest(id: int, subject: string, description: string)
  datatype UpdateResponse = UpdateResponse(todo: Todo)
  datatype DeleteRequest = DeleteRequest(ids: seq<int>)
  datatype DeleteResponse = DeleteResponse
}
