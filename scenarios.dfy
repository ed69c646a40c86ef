/** End-to-end behaviour of the /todos endpoint on concrete requests, starting from an
    empty table. */
module Scenarios {
  import opened TodoModel
  import opened Decimal
  import opened Service
  import opened Http
  import opened Handler

  /** An empty table whose AUTOINCREMENT counter has not been used. */
  const Empty := Store(map[], 1, 1)

  function PostRequest(subject: string, description: string): Request
  {
    Request(MethodPost, map[], Some(JsonObject(None, Some(subject), Some(description))))
  }

  /** POST {"subject":"a","description":"b"} on an empty table: 200, and the record
      returned has id 1 and the given fields. */
  lemma PostOnEmptyTable()
    ensures Serve(Empty, PostRequest("a", "b"))
      == Decision(Store(map[1 := Row("a", "b", 1, 1)], 2, 2),
                  Some(Reply(StatusOK, Some(CreateBody(CreateResponse(Todo(1, "a", "b", 1, 1)))))))
  {
  }

  /** POST {"subject":""}: 400, no body, nothing stored. */
  lemma PostEmptySubjectOnEmptyTable()
    ensures Serve(Empty, Request(MethodPost, map[], Some(JsonObject(None, Some(""), None))))
      == Decision(Empty, Some(Reply(StatusBadRequest, None)))
  {
  }

  /** After three POSTs, GET ?prev_id=0&size=2 answers the two newest, newest first;
      GET ?prev_id=3&size=2 answers the two below id 3. */
  lemma GetNewestAfterThreePosts()
    ensures var s1 := Serve(Empty, PostRequest("a", "x")).store;
      var s2 := Serve(s1, PostRequest("b", "y")).store;
      var s3 := Serve(s2, PostRequest("c", "z")).store;
      && Serve(s3, Request(MethodGet, map["prev_id" := "0", "size" := "2"], None)).reply
         == Some(Reply(StatusOK, Some(ReadBody(ReadResponse([Todo(3, "c", "z", 3, 3), Todo(2, "b", "y", 2, 2)])))))
      && Serve(s3, Request(MethodGet, map["prev_id" := "3", "size" := "2"], None)).reply
         == Some(Reply(StatusOK, Some(ReadBody(ReadResponse([Todo(2, "b", "y", 2, 2), Todo(1, "a", "x", 1, 1)])))))
  {
    var s1 := Store(map[1 := Row("a", "x", 1, 1)], 2, 2);
    var s2 := Store(map[1 := Row("a", "x", 1, 1), 2 := Row("b", "y", 2, 2)], 3, 3);
    var s3 := Store(map[1 := Row("a", "x", 1, 1), 2 := Row("b", "y", 2, 2), 3 := Row("c", "z", 3, 3)], 4, 4);
    assert Serve(Empty, PostRequest("a", "x")).store == s1;
    assert Serve(s1, PostRequest("b", "y")).store == s2;
    assert Serve(s2, PostRequest("c", "z")).store == s3;
    assert Render(0) == "0" && Render(2) == "2" && Render(3) == "3";
    ParamPassesThrough(map["prev_id" := "0", "size" := "2"], "prev_id", 0, 0);
    ParamPassesThrough(map["prev_id" := "0", "size" := "2"], "size", 5, 2);
    ParamPassesThrough(map["prev_id" := "3", "size" := "2"], "prev_id", 0, 3);
    ParamPassesThrough(map["prev_id" := "3", "size" := "2"], "size", 5, 2);
    assert Scan(s3.table, 1, 0) == [];
    assert Scan(s3.table, 0, 0) == [];
    assert Scan(s3.table, 2, 1) == [Todo(2, "b", "y", 2, 2)];
    assert Scan(s3.table, 1, 1) == [Todo(1, "a", "x", 1, 1)];
    assert ReadSpec(s3, 0, 2) == [Todo(3, "c", "z", 3, 3), Todo(2, "b", "y", 2, 2)];
    assert ReadSpec(s3, 3, 2) == [Todo(2, "b", "y", 2, 2), Todo(1, "a", "x", 1, 1)];
  }

  /** GET with no parameters reads the five newest; an unparsable size also falls
      back to five. */
  lemma GetDefaults(s: Store)
    ensures Serve(s, Request(MethodGet, map[], None)) == GetFlow(s, map[])
    ensures ReadRequestOf(map[]) == ReadRequest(0, 5)
    ensures ReadRequestOf(map["size" := "ten"]) == ReadRequest(0, 5)
  {
    ParamMissing(map[], "prev_id", 0);
    ParamMissing(map[], "size", 5);
    ParamMissing(map["size" := "ten"], "prev_id", 0);
  }

  /** PUT {"id":999,...} on an empty table: the not-found error is dropped and no
      response is written at all. */
  lemma PutMissingOnEmptyTable()
    ensures Serve(Empty, Request(MethodPut, map[], Some(JsonObject(Some(999), Some("x"), Some("y")))))
      == Decision(Empty, None)
  {
  }

  /** DELETE is not routed: nothing is removed and nothing is written. */
  lemma DeleteIsNotRouted(s: Store, body: Option<JsonObject>)
    ensures Serve(s, Request(MethodDelete, map[], body)) == Decision(s, None)
  {
    UnroutedWritesNothing(s, Request(MethodDelete, map[], body));
  }

  /** A usage check only, modelling nothing in the source: a client of the imperative
      handler, showing that what the writer records follows from the contracts alone. */
  method PostThenDelete()
  {
    var svc := new TodoService(Empty);
    var h := new TodoHandler(svc);
    var w := new ResponseRecorder();
    h.ServeHTTP(w, PostRequest("a", "b"));
    PostOnEmptyTable();
    assert w.events == [HeaderSet(ContentType, ApplicationJson), HeaderWritten(StatusOK),
                        BodyWritten(CreateBody(CreateResponse(Todo(1, "a", "b", 1, 1))))];
    var w2 := new ResponseRecorder();
    h.ServeHTTP(w2, Request(MethodDelete, map[], None));
    assert w2.events == [];
    assert svc.State() == Store(map[1 := Row("a", "b", 1, 1)], 2, 2);
  }
}
