/** The request handler of handler/todo.go. What each flow does to the store and to
    the response is a pure decision (Serve and the flows below it); TodoHandler,
    its adapters and the ServeHttp* methods carry the decision out step by step on
    the service and on a ResponseRecorder. The quirks of the source are kept: there
    is no DELETE case, the Delete adapter hands the service no ids, and a failed
    decode or a service error ends the request without writing anything. */
module Handler {
  import opened TodoModel
  import opened Decimal
  import opened Service
  import opened Http

  /** A response the handler writes: the status, and the body if one is encoded.
      The JSON content type is always set first. */
  datatype Reply = Reply(status: int, body: Option<Body>)

  /** The outcome of one request: the store afterwards, and the response written,
      None when nothing at all is written. */
  datatype Decision = Decision(store: Store, reply: Option<Reply>)

  /** The calls a reply makes on the writer, in order. */
  function Emitted(reply: Option<Reply>): (e: seq<Event>)
    ensures WellFormedReply(e)
    ensures reply == None <==> e == []
    ensures forall i :: 0 <= i < |e| && e[i].HeaderWritten? ==> reply.Some? && e[i].code == reply.value.status
    ensures reply.Some? ==> exists i :: 0 <= i < |e| && e[i] == HeaderWritten(reply.value.status)
    ensures forall b :: BodyWritten(b) in e <==> reply.Some? && reply.value.body == Some(b)
    ensures |e| == (if reply.None? then 0 else if reply.value.body.Some? then 3 else 2)
  {
    match reply
    case None => []
    case Some(Reply(status, body)) =>
      var head := [HeaderSet(ContentType, ApplicationJson), HeaderWritten(status)];
      var e := if body.Some? then head + [BodyWritten(body.value)] else head;
      assert e[0] == HeaderSet(ContentType, ApplicationJson) && e[1] == HeaderWritten(status);
      e
  }

  function Field<T>(o: Option<T>, zero: T): T
  {
    if o.Some? then o.value else zero
  }

  /** json Decode into model.CreateTODORequest: fields the object lacks keep their zero value. */
  function DecodeCreate(body: Option<JsonObject>): Option<CreateRequest>
  {
    match body
    case None => None
    case Some(obj) => Some(CreateRequest(Field(obj.subject, ""), Field(obj.description, "")))
  }

  /** json Decode into model.UpdateTODORequest. */
  function DecodeUpdate(body: Option<JsonObject>): Option<UpdateRequest>
  {
    match body
    case None => None
    case Some(obj) => Some(UpdateRequest(Field(obj.id, 0), Field(obj.subject, ""), Field(obj.description, "")))
  }

  /** serveHTTPPost */
  function PostFlow(s: Store, body: Option<JsonObject>): Decision
  {
    match DecodeCreate(body)
    case None => Decision(s, None)
    case Some(req) =>
      if req.subject == "" then
        Decision(s, Some(Reply(StatusBadRequest, None)))
      else
        var o := CreateSpec(s, req.subject, req.description);
        if o.err.Some? then Decision(o.store, None)
        else Decision(o.store, Some(Reply(StatusOK, Some(CreateBody(CreateResponse(o.todo))))))
  }

  /** serveHTTPPut */
  function PutFlow(s: Store, body: Option<JsonObject>): Decision
  {
    match DecodeUpdate(body)
    case None => Decision(s, None)
    case Some(req) =>
      if req.subject == "" || req.id == 0 then
        Decision(s, Some(Reply(StatusBadRequest, None)))
      else
        var o := UpdateSpec(s, req.id, req.subject, req.description);
        if o.err.Some? then Decision(o.store, None)
        else Decision(o.store, Some(Reply(StatusOK, Some(UpdateBody(UpdateResponse(o.todo))))))
  }

  /** An integer query parameter, or `default` when strconv.Atoi refuses it (which it
      does when the parameter is absent, since Get then gives ""). */
  function ParamOr(query: map<string, string>, key: string, default: int): (v: int)
    ensures MinInt64 <= default <= MaxInt64 ==> MinInt64 <= v <= MaxInt64
  {
    match Atoi(QueryGet(query, key))
    case None => default
    case Some(n) => n
  }

  /** The ReadTODORequest serveHTTPGet builds from the query. */
  function ReadRequestOf(query: map<string, string>): ReadRequest
  {
    ReadRequest(ParamOr(query, "prev_id", 0), ParamOr(query, "size", 5))
  }

  /** serveHTTPGet */
  function GetFlow(s: Store, query: map<string, string>): Decision
  {
    var req := ReadRequestOf(query);
    Decision(s, Some(Reply(StatusOK, Some(ReadBody(ReadResponse(ReadSpec(s, req.prevID, req.size)))))))
  }

  /** ServeHTTP: dispatch on the method. */
  function Serve(s: Store, r: Request): Decision
  {
    match r.httpMethod
    case "POST" => PostFlow(s, r.body)
    case "PUT" => PutFlow(s, r.body)
    case "GET" => GetFlow(s, r.query)
    case _ => Decision(s, None)
  }

  // ----- properties of the decisions -----

  /** Only POST, PUT and GET are routed: DELETE and every other method leave the
      store alone and write no header, status or body. */
  lemma UnroutedWritesNothing(s: Store, r: Request)
    requires r.httpMethod != MethodPost && r.httpMethod != MethodPut && r.httpMethod != MethodGet
    ensures Serve(s, r) == Decision(s, None)
    ensures Emitted(Serve(s, r).reply) == []
  {
  }

  /** A body that does not decode ends a POST or PUT without a response. */
  lemma DecodeFailureWritesNothing(s: Store, r: Request)
    requires r.httpMethod == MethodPost || r.httpMethod == MethodPut
    requires r.body == None
    ensures Serve(s, r) == Decision(s, None)
  {
  }

  /** POST with an empty subject: 400 with the JSON content type and no body, and the
      service is not called, so the store is unchanged. */
  lemma PostEmptySubjectIsBadRequest(s: Store, obj: JsonObject)
    requires Field(obj.subject, "") == ""
    ensures PostFlow(s, Some(obj)) == Decision(s, Some(Reply(StatusBadRequest, None)))
    ensures Emitted(PostFlow(s, Some(obj)).reply)
      == [HeaderSet(ContentType, ApplicationJson), HeaderWritten(StatusBadRequest)]
  {
  }

  /** POST with a subject: 200, and the body wraps the record just inserted, which
      carries a fresh id and the subject and description of the request. */
  lemma PostCreates(s: Store, obj: JsonObject)
    requires StoreValid(s)
    requires Field(obj.subject, "") != ""
    ensures var d := PostFlow(s, Some(obj));
      && d.reply.Some? && d.reply.value.status == StatusOK
      && d.reply.value.body.Some? && d.reply.value.body.value.CreateBody?
      && var t := d.reply.value.body.value.create.todo;
      && t.id == s.nextId && t.id !in s.table
      && t.subject == Field(obj.subject, "") && t.description == Field(obj.description, "")
      && d.store.table == s.table[t.id := Row(t.subject, t.description, t.createdAt, t.updatedAt)]
      && StoreValid(d.store)
  {
    CreateAddsOneRow(s, Field(obj.subject, ""), Field(obj.description, ""));
  }

  /** PUT with an empty subject or a zero id: 400 with no body; the service is not called. */
  lemma PutInvalidIsBadRequest(s: Store, obj: JsonObject)
    requires Field(obj.subject, "") == "" || Field(obj.id, 0) == 0
    ensures PutFlow(s, Some(obj)) == Decision(s, Some(Reply(StatusBadRequest, None)))
  {
  }

  /** PUT on an id the table lacks: the service reports not-found, and the handler
      drops it, writing nothing at all. */
  lemma PutMissingWritesNothing(s: Store, obj: JsonObject)
    requires Field(obj.subject, "") != "" && Field(obj.id, 0) != 0
    requires Field(obj.id, 0) !in s.table
    ensures PutFlow(s, Some(obj)) == Decision(s, None)
  {
    UpdateMissingIsNotFound(s, Field(obj.id, 0), Field(obj.subject, ""), Field(obj.description, ""));
  }

  /** PUT on an existing id: 200, the body wraps the updated record, and no other row
      changes. */
  lemma PutUpdates(s: Store, obj: JsonObject)
    requires StoreValid(s)
    requires Field(obj.subject, "") != "" && Field(obj.id, 0) in s.table
    ensures var d := PutFlow(s, Some(obj));
      var id := Field(obj.id, 0);
      && d.reply.Some? && d.reply.value.status == StatusOK
      && d.reply.value.body.Some? && d.reply.value.body.value.UpdateBody?
      && var t := d.reply.value.body.value.update.todo;
      && t.id == id && t.subject == Field(obj.subject, "") && t.description == Field(obj.description, "")
      && t.createdAt == s.table[id].createdAt
      && d.store.table == s.table[id := Row(t.subject, t.description, t.createdAt, t.updatedAt)]
      && StoreValid(d.store)
  {
    var id := Field(obj.id, 0);
    assert id != 0 by {
      assert id in s.table;
    }
    UpdateChangesOnlyThatRow(s, id, Field(obj.subject, ""), Field(obj.description, ""));
  }

  /** A parameter that is absent reads as its default. */
  lemma ParamMissing(query: map<string, string>, key: string, default: int)
    requires key !in query
    ensures ParamOr(query, key, default) == default
  {
    AtoiEmpty();
  }

  /** The defaulting rule, stated through the numeral syntax and the int64 range: a
      parameter whose text is a signed decimal numeral of an int64 reads as its value,
      and any other text, the empty text of an absent parameter included, reads as the
      default. */
  lemma ParamRule(query: map<string, string>, key: string, default: int)
    ensures var p := Parse(QueryGet(query, key));
      ParamOr(query, key, default)
        == if p.Some? && MinInt64 <= p.value <= MaxInt64 then p.value else default
  {
    var p := Parse(QueryGet(query, key));
    if !(p.Some? && MinInt64 <= p.value <= MaxInt64) {
      assert Atoi(QueryGet(query, key)).None?;
    }
  }

  /** A parameter holding the decimal text of an int64 reads as that value. */
  lemma ParamPassesThrough(query: map<string, string>, key: string, default: int, n: int)
    requires key in query && query[key] == Render(n)
    requires MinInt64 <= n <= MaxInt64
    ensures ParamOr(query, key, default) == n
  {
    AtoiRender(n);
  }

  /** GET always answers 200 with the page the query asks for; the store is unchanged. */
  lemma GetReturnsPage(s: Store, query: map<string, string>)
    requires StoreValid(s)
    ensures var d := GetFlow(s, query);
      var req := ReadRequestOf(query);
      && d.store == s
      && d.reply.Some? && d.reply.value.status == StatusOK
      && d.reply.value.body.Some? && d.reply.value.body.value.ReadBody?
      && IsPage(s.table, req.prevID, req.size, d.reply.value.body.value.read.todos)
  {
    var req := ReadRequestOf(query);
    ReadIsPage(s, req.prevID, req.size);
  }

  /** Whatever the request, the store invariant survives it and the response, if any,
      is well formed. */
  lemma ServeKeepsInvariant(s: Store, r: Request)
    requires StoreValid(s)
    ensures StoreValid(Serve(s, r).store)
    ensures WellFormedReply(Emitted(Serve(s, r).reply))
  {
    match r.httpMethod
    case "POST" =>
      var req := DecodeCreate(r.body);
      if req.Some? && req.value.subject != "" {
        CreateAddsOneRow(s, req.value.subject, req.value.description);
      }
    case "PUT" =>
      var req := DecodeUpdate(r.body);
      if req.Some? && req.value.subject != "" && req.value.id in s.table {
        UpdateChangesOnlyThatRow(s, req.value.id, req.value.subject, req.value.description);
      }
    case _ =>
  }

  /** A TODOHandler bound to its service. */
  class TodoHandler {
    const svc: TodoService

    constructor (svc: TodoService)
      ensures this.svc == svc
    {
      this.svc := svc;
    }

    ghost predicate Valid()
      reads this, svc
    {
      svc.Valid()
    }

    /** Create: hand the fields to CreateTODO and wrap what it returns, error included. */
    method Create(req: CreateRequest) returns (resp: CreateResponse, err: Option<Error>)
      requires Valid()
      modifies svc
      ensures Valid()
      ensures var o := CreateSpec(old(svc.State()), req.subject, req.description);
        svc.State() == o.store && resp == CreateResponse(o.todo) && err == o.err
    {
      var todo, e := svc.CreateTODO(req.subject, req.description);
      return CreateResponse(todo), e;
    }

    /** Read: copy the records ReadTODO returns, in order; its error is discarded. */
    method Read(req: ReadRequest) returns (resp: ReadResponse, err: Option<Error>)
      ensures resp.todos == ReadSpec(svc.State(), req.prevID, req.size)
      ensures err == None
    {
      var todoPointers, ignored := svc.ReadTODO(req.prevID, req.size);
      var todos: seq<Todo> := [];
      for i := 0 to |todoPointers|
        invariant todos == todoPointers[..i]
      {
        todos := todos + [todoPointers[i]];
      }
      return ReadResponse(todos), None;
    }

    /** Update: hand the fields to UpdateTODO and wrap what it returns, error included. */
    method Update(req: UpdateRequest) returns (resp: UpdateResponse, err: Option<Error>)
      requires Valid()
      modifies svc
      ensures Valid()
      ensures var o := UpdateSpec(old(svc.State()), req.id, req.subject, req.description);
        svc.State() == o.store && resp == UpdateResponse(o.todo) && err == o.err
    {
      var todo, e := svc.UpdateTODO(req.id, req.subject, req.description);
      return UpdateResponse(todo), e;
    }

    /** Delete: calls DeleteTODO with no ids whatever the request lists, which deletes
        nothing; the answer is always an empty response and no error. */
    method Delete(req: DeleteRequest) returns (resp: DeleteResponse, err: Option<Error>)
      requires Valid()
      modifies svc
      ensures Valid()
      ensures svc.State() == old(svc.State())
      ensures resp == DeleteResponse && err == None
    {
      var ignored := svc.DeleteTODO([]);
      return DeleteResponse, None;
    }

    method ServeHTTP(w: ResponseRecorder, r: Request)
      requires Valid()
      modifies w, svc
      ensures Valid()
      ensures var d := Serve(old(svc.State()), r);
        svc.State() == d.store && w.events == old(w.events) + Emitted(d.reply)
    {
      match r.httpMethod
      case "POST" => ServeHttpPost(w, r, this);
      case "PUT" => ServeHttpPut(w, r, this);
      case "GET" => ServeHttpGet(w, r, this);
      case _ =>
    }
  }

  method ServeHttpPost(w: ResponseRecorder, r: Request, h: TodoHandler)
    requires h.Valid()
    modifies w, h.svc
    ensures h.Valid()
    ensures var d := PostFlow(old(h.svc.State()), r.body);
      h.svc.State() == d.store && w.events == old(w.events) + Emitted(d.reply)
  {
    var decoded := DecodeCreate(r.body);
    if decoded.None? {
      return;
    }
    var request := decoded.value;
    if request.subject == "" {
      w.SetHeader(ContentType, ApplicationJson);
      w.WriteHeader(StatusBadRequest);
      return;
    }
    var resp, err := h.Create(request);
    if err.Some? {
      return;
    }
    w.SetHeader(ContentType, ApplicationJson);
    w.WriteHeader(StatusOK);
    w.Encode(CreateBody(resp));
  }

  method ServeHttpPut(w: ResponseRecorder, r: Request, h: TodoHandler)
    requires h.Valid()
    modifies w, h.svc
    ensures h.Valid()
    ensures var d := PutFlow(old(h.svc.State()), r.body);
      h.svc.State() == d.store && w.events == old(w.events) + Emitted(d.reply)
  {
    var decoded := DecodeUpdate(r.body);
    if decoded.None? {
      return;
    }
    var request := decoded.value;
    if request.subject == "" || request.id == 0 {
      w.SetHeader(ContentType, ApplicationJson);
      w.WriteHeader(StatusBadRequest);
      return;
    }
    var resp, err := h.Update(request);
    if err.Some? {
      return;
    }
    w.SetHeader(ContentType, ApplicationJson);
    w.WriteHeader(StatusOK);
    w.Encode(UpdateBody(resp));
  }

  method ServeHttpGet(w: ResponseRecorder, r: Request, h: TodoHandler)
    requires h.Valid()
    modifies w
    ensures h.Valid()
    ensures var d := GetFlow(old(h.svc.State()), r.query);
      h.svc.State() == d.store && w.events == old(w.events) + Emitted(d.reply)
  {
    var prevIDStr := QueryGet(r.query, "prev_id");
    var parsed := Atoi(prevIDStr);
    var prevID: int;
    if parsed.None? {
      prevID := 0;
    } else {
      prevID := parsed.value;
    }
    var sizeStr := QueryGet(r.query, "size");
    parsed := Atoi(sizeStr);
    var size: int;
    if parsed.None? {
      size := 5;
    } else {
      size := parsed.value;
    }
    var request := ReadRequest(prevID, size);
    var resp, err := h.Read(request);
    if err.Some? {
      return;
    }
    w.SetHeader(ContentType, ApplicationJson);
    w.WriteHeader(StatusOK);
    w.Encode(ReadBody(resp));
  }
}
