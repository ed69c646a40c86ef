# TODO service: a verified Dafny model

This project models the core of a small TODO web service written in Go. A
`TODOService` does CRUD on a `todos` table held in SQLite (`service/todo.go`). A
`TODOHandler` serves the `/todos` endpoint over HTTP, decoding JSON requests and
encoding JSON responses (`handler/todo.go`).

Files and modules:

- `model.dfy` (`TodoModel`) holds the TODO record, a stored row, the service's
  errors (`sqlite3.ErrConstraint` and `model.ErrNotFound`), and the request and
  response records of each endpoint.
- `decimal.dfy` (`Decimal`) covers `fmt.Sprintf("%d", n)`, the integer reading
  SQLite applies to text compared with an INTEGER column, and `strconv.Atoi` with
  its 64-bit range check.
- `service.dfy` (`Service`) does two things:
  - It models the table as a value `Store`: rows by id, the AUTOINCREMENT counter,
    and a clock for the timestamp columns. It gives one specification function per
    service operation, with lemmas about them.
  - Its class `TodoService` holds the same state in fields. Its methods follow the
    Go code statement by statement and are proved equal to those functions.
- `http.dfy` (`Http`) models the request (method, query, decoded JSON body). A
  `ResponseRecorder` records every call made on the response writer, in order.
- `handler.dfy` (`Handler`) holds the handler's decisions as functions over a store
  and a request, with lemmas about them. The imperative `TodoHandler`,
  `serveHTTPPost`, `serveHTTPPut` and `serveHTTPGet` are proved to record exactly
  the events those decisions call for.
- `scenarios.dfy` (`Scenarios`) holds end-to-end facts on concrete requests.

Modelling choices:

- **Reads.** The read queries (`ORDER BY id DESC LIMIT ?`, with and without
  `WHERE id < ?`) are modelled as a downward walk over the primary key. `IsPage` says
  independently what the page is: strictly descending, only qualifying rows, at most
  `size` of them, and nothing skipped. `PageUnique` shows that this description
  determines the result.
- **Negative size.** SQLite reads a negative `LIMIT` as "no limit". The handler can
  pass one (`?size=-1`), so the model does the same and does not exclude it.
- **Store calls cannot fail.** The model's store calls always succeed, so the
  branches that panic on a driver error are not reachable.

The code has a few quirks, and this model keeps them:

- `ServeHTTP` has no case for DELETE (`handler/todo.go:64-71`). A DELETE request
  writes nothing and deletes nothing.
- `TODOHandler.Delete` passes `nil` to `DeleteTODO` (`handler/todo.go:58`), so
  it never deletes anything.
- A PUT on an id the table lacks writes no status and no body. The service's
  not-found error is only logged (`handler/todo.go:125-128`).
- A body that does not decode also writes nothing (`handler/todo.go:77-80`,
  `112-115`).

## Model

| member | source | states |
|---|---|---|
| Service.CreateAddsOneRow | service/todo.go:27-44 | On a valid store with a non-empty subject, CreateTODO succeeds. The id is the next AUTOINCREMENT value: fresh and larger than every existing id. The table gains exactly that row with the given subject and description, created_at equals updated_at, and the store invariant is kept. |
| Service.CreateRejectsEmptySubject | service/todo.go:33-35 | An empty subject gives ErrConstraint and a zero record, and the store is left unchanged. |
| Service.TodoService.CreateTODO | service/todo.go:27-44 | The INSERT and re-read change the service state and return the record and error exactly as CreateSpec says. The invariant is kept. |
| Service.ReadIsPage | service/todo.go:47-79 | What ReadTODO returns is the page the SQL describes. Ids are strictly descending and every row is one in the table. With prevID != 0 all ids are below prevID. There are at most size rows when size >= 0. Any qualifying row left out is below all returned ids, and only when the page is full. |
| Service.PageUnique | service/todo.go:49-50 | Two results that both satisfy the page description are equal, so the description determines the answer. |
| Service.ReadNewest | service/todo.go:49 | With ids 1..N in the table, the first page (prevID 0) holds min(size, N) rows, with ids N, N-1, ... in order. |
| Service.ScanFacts | service/todo.go:53-76 | The descending scan returns rows of the table, strictly descending, below the cursor, within the limit, and skips no row it passes. |
| Service.TodoService.ReadTODO | service/todo.go:47-79 | Picks the statement by prevID == 0 and returns the rows ReadSpec describes, with no error. |
| Service.TodoService.QueryRows | service/todo.go:55-64 | The `rows.Next()` loop appends rows in descending id order, and the result equals the scan specification. |
| Service.UpdateRejectsEmptySubject | service/todo.go:88-93 | An empty subject gives ErrConstraint and a record carrying only the requested id, and the store is left unchanged. |
| Service.UpdateMissingIsNotFound | service/todo.go:99-110 | An UPDATE that affects no row gives ErrNotFound, leaves the store unchanged and returns the requested id. |
| Service.UpdateChangesOnlyThatRow | service/todo.go:82-123 | On an existing id only that row changes. Its subject and description become the new ones, created_at is kept and updated_at is not earlier. No id is added or removed. The record returned is the row as re-read, and the invariant is kept. |
| Service.TodoService.UpdateTODO | service/todo.go:82-123 | The UPDATE, the affected-row check and the re-read change the state and return the record and error exactly as UpdateSpec says. The invariant is kept. |
| Service.DeleteNothingIsNoop | service/todo.go:129-131 | An empty id list issues no statement and returns no error. |
| Service.DeleteRemovesExactlyListed | service/todo.go:126-166 | A row survives exactly when its id is not listed, and surviving rows are unchanged. ErrNotFound comes back exactly when no listed id was present, and then the store is unchanged. The invariant is kept. |
| Service.InList | service/todo.go:127 | Filling `IN (?%s)` gives one placeholder more than the head and the list hold. |
| Service.DeleteStatement | service/todo.go:134 | The built statement has exactly n placeholders, one per id. |
| Service.BoundRendered | service/todo.go:135-144 | Binding each id as its `%d` text makes the statement match exactly the listed ids. |
| Service.TodoService.PrepareDelete | service/todo.go:134-138 | Returns a statement with one placeholder per id and an argument array whose i-th entry is the decimal text of ids[i]. |
| Service.TodoService.DeleteTODO | service/todo.go:126-166 | Changes the state and returns the error exactly as DeleteSpec says. The invariant is kept. |
| Service.TodoService.constructor | service/todo.go:20-24 | A service over a store holds that store's state. |
| Decimal.Render | service/todo.go:137 | `%d` text is non-empty. It starts with '-' exactly for negative values, and otherwise holds digits only with no leading zero. |
| Decimal.ParseRender | service/todo.go:137 | Reading back the `%d` text of any integer gives that integer. |
| Decimal.RenderInjective | service/todo.go:137 | Distinct ids have distinct texts. |
| Decimal.Atoi | handler/todo.go:143 | strconv.Atoi succeeds exactly on the signed decimal numerals within the int64 range, and then gives the numeral's value. |
| Decimal.AtoiRender | handler/todo.go:150 | Atoi reads back the decimal text of any int64. |
| Decimal.AtoiEmpty | handler/todo.go:142-143 | Atoi fails on the empty string, which is what a missing query parameter reads as. |
| Handler.Emitted | handler/todo.go:98-107 | A reply makes a well-formed sequence of writer calls. The content type comes first and the status is written once. A body is written exactly when the reply has one, and no reply means no calls. There are no other calls: three with a body, two without. |
| Handler.UnroutedWritesNothing | handler/todo.go:62-72 | A request with any method other than POST, PUT or GET (DELETE included) leaves the store unchanged and writes nothing. |
| Handler.DecodeFailureWritesNothing | handler/todo.go:76-80 | A POST or PUT whose body does not decode changes nothing and writes nothing. |
| Handler.PostEmptySubjectIsBadRequest | handler/todo.go:82-86 | A POST with an empty subject sets the JSON content type and writes 400 with no body. The service is not called. |
| Handler.PostCreates | handler/todo.go:88-107 | A POST with a subject writes 200, and the body wraps the record just inserted. That record has a fresh id and the request's subject and description. |
| Handler.PutInvalidIsBadRequest | handler/todo.go:117-121 | A PUT with an empty subject or id 0 writes 400 with no body. The service is not called. |
| Handler.PutMissingWritesNothing | handler/todo.go:123-128 | A PUT on a missing id changes nothing and writes nothing. The not-found error is dropped. |
| Handler.PutUpdates | handler/todo.go:123-138 | A PUT on an existing id writes 200. The body wraps the updated record, whose created_at is kept, and no other row changes. |
| Handler.ParamOr | handler/todo.go:142-154 | A parameter read with an int64 default is always an int64. |
| Handler.ParamRule | handler/todo.go:142-154 | A query parameter reads as its value when its text is a signed decimal numeral of an int64 ("+7" and "007" included). Any other text, including the empty text of an absent parameter, reads as the default. |
| Handler.ParamMissing | handler/todo.go:142-147 | An absent parameter reads as its default. |
| Handler.ParamPassesThrough | handler/todo.go:149-154 | A parameter holding the decimal text of an int64 reads as that value. |
| Handler.GetReturnsPage | handler/todo.go:141-176 | GET always writes 200 with the page its prev_id and size describe, and leaves the store unchanged. |
| Handler.ServeKeepsInvariant | handler/todo.go:62-72 | Whatever the request, the store invariant holds afterwards and the writer calls are well formed. |
| Handler.TodoHandler.constructor | handler/todo.go:20-24 | The handler is bound to the given service. |
| Handler.TodoHandler.Create | handler/todo.go:27-32 | Passes the request to CreateTODO and wraps the record and the error unchanged. |
| Handler.TodoHandler.Read | handler/todo.go:35-46 | The copying loop returns the ReadTODO records in order, and no error. |
| Handler.TodoHandler.Update | handler/todo.go:49-54 | Passes the request to UpdateTODO and wraps the record and the error unchanged. |
| Handler.TodoHandler.Delete | handler/todo.go:57-60 | Leaves the store unchanged and returns an empty response with no error, whatever ids the request lists. |
| Handler.TodoHandler.ServeHTTP | handler/todo.go:62-72 | The dispatch changes the store and records writer calls exactly as Serve decides. |
| Handler.ServeHttpPost | handler/todo.go:74-108 | serveHTTPPost changes the store and records writer calls exactly as PostFlow decides. |
| Handler.ServeHttpPut | handler/todo.go:110-139 | serveHTTPPut changes the store and records writer calls exactly as PutFlow decides. |
| Handler.ServeHttpGet | handler/todo.go:141-176 | serveHTTPGet, with its Atoi defaults of 0 and 5, records writer calls exactly as GetFlow decides and does not change the store. |
| Scenarios.PostOnEmptyTable | handler/todo.go:74-108 | On an empty table, POST {"subject":"a","description":"b"} writes 200 with a record of id 1, and the table holds exactly that row. |
| Scenarios.PostEmptySubjectOnEmptyTable | handler/todo.go:82-86 | POST {"subject":""} writes 400 and stores nothing. |
| Scenarios.GetNewestAfterThreePosts | handler/todo.go:141-176 | After three POSTs, GET ?prev_id=0&size=2 gives ids 3 and 2, and GET ?prev_id=3&size=2 gives ids 2 and 1. |
| Scenarios.GetDefaults | handler/todo.go:142-154 | GET with no parameters, or with an unparsable size, reads with prev_id 0 and size 5. |
| Scenarios.PutMissingOnEmptyTable | handler/todo.go:123-128 | PUT with id 999 on an empty table writes nothing and changes nothing. |
| Scenarios.DeleteIsNotRouted | handler/todo.go:64-71 | A DELETE request writes nothing and deletes nothing. |

## Left out

- The `database/sql` and sqlite3 driver machinery is left out. Statements are modelled by their effect on the table, and the store is taken never to fail.
- The panic branches that fire when a driver call fails (service/todo.go:59-61, 70-72, 96-98, 100-102, 118-120, 141-143, 145-147 and 150-151) are left out for the same reason.
- CreateTODO discards the errors of PrepareContext, ExecContext and LastInsertId (service/todo.go:37-39). They are left out for the same reason.
- The `err2 != nil` branch of UpdateTODO (service/todo.go:111-112) is left out. It needs RowsAffected to fail, which the model's store never does.
- The handler's service-error branch after a successful POST (handler/todo.go:93-96) cannot be reached in the model, because CreateTODO only fails on an empty subject and the handler has already answered 400 for that.
- The database schema is not part of this model. The model assumes `id INTEGER PRIMARY KEY AUTOINCREMENT` and a non-empty `subject`, with `created_at`/`updated_at` stamped by the store on insert and `updated_at` on update.
- `created_at`/`updated_at` are natural-number ticks of a store clock, not wall-clock times. The `When` field of `ErrNotFound`, set from `time.Now()`, is left out because it is a clock reading.
- `context.Context`, logging (`log.Println`, `println`) and concurrent requests are left out. Each request is modelled as running alone.
- JSON decoding is modelled as either an object with optional `id`, `subject` and `description` fields or a failure. Type mismatches and other malformed input all count as failure. The encoder's exact output text is left out, and so are the encode-error branches (handler/todo.go:103-107, 134-138, 171-175), since encoding a record into a writer is taken not to fail.
- The behaviour of `http.ResponseWriter` beyond recording calls is left out, such as an implicit 200 on the first write. The handler always calls WriteHeader before writing a body, so it does not rely on it.
- Ids and the AUTOINCREMENT counter are unbounded integers. SQLite's int64 limit on ids (SQLITE_FULL once the counter is exhausted) is left out.
- SQLite's text-to-INTEGER conversion is modelled only for an optional sign followed by digits, which covers every text `%d` produces. Surrounding spaces and other forms SQLite also accepts are left out.
- The router that mounts the handler and the health-check handler are not part of this model.
