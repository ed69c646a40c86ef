/** The parts of net/http and encoding/json the handler touches: the incoming request
    with its method, query and decoded JSON body, and a recorder standing in for the
    http.ResponseWriter that logs every call made on it, in order. */
module Http {
  import opened TodoModel

  const MethodGet := "GET"
  const MethodPost := "POST"
  const MethodPut := "PUT"
  const MethodDelete := "DELETE"

  const StatusOK := 200
  const StatusBadRequest := 400

  const ContentType := "Content-Type"
  const ApplicationJson := "application/json"

  /** A request body that parsed as a JSON object: each field the handler reads, or
      None when the object does not carry it. */
  datatype JsonObject = JsonObject(id: Option<int>, subject: Option<string>, description: Option<string>)

  /** The request: its method, its query parameters and its body, None when the body
      is not a JSON object the decoder accepts. */
  datatype Request = Request(httpMethod: string, query: map<string, string>, body: Option<JsonObject>)

  /** url.Values.Get: the parameter's value, or "" when it is absent. */
  function QueryGet(query: map<string, string>, key: string): string
  {
    if key in query then query[key] else ""
  }

  /** The value json.NewEncoder(w).Encode writes. */
  datatype Body =
    | CreateBody(create: CreateResponse)
    | ReadBody(read: ReadResponse)
    | UpdateBody(update: UpdateResponse)

  /** One call on the writer: w.Header().Set(key, value), w.WriteHeader(code), or an
      Encode of a body. */
  datatype Event =
    | HeaderSet(key: string, value: string)
    | HeaderWritten(code: int)
    | BodyWritten(body: Body)

  /** The contract every response keeps: WriteHeader is called at most once, the JSON
      content type is set before it, and a body is only written after it. */
  ghost predicate WellFormedReply(e: seq<Event>)
  {
    && (forall i, j :: 0 <= i < j < |e| && e[i].HeaderWritten? ==> !e[j].HeaderWritten?)
    && (forall i :: 0 <= i < |e| && e[i].HeaderWritten? ==>
          exists j :: 0 <= j < i && e[j] == HeaderSet(ContentType, ApplicationJson))
    && (forall i :: 0 <= i < |e| && e[i].BodyWritten? ==>
          exists j :: 0 <= j < i && e[j].HeaderWritten?)
  }

  /** A response writer that records the calls made on it. */
  class ResponseRecorder {
    var events: seq<Event>

    constructor ()
      ensures events == []
    {
      events := [];
    }

    method SetHeader(key: string, value: string)
      modifies this
      ensures events == old(events) + [HeaderSet(key, value)]
    {
      events := events + [HeaderSet(key, value)];
    }

    method WriteHeader(code: int)
      modifies this
      ensures events == old(events) + [HeaderWritten(code)]
    {
      events := events + [HeaderWritten(code)];
    }

    method Encode(body: Body)
      modifies this
      ensures events == old(events) + [BodyWritten(body)]
    {
      events := events + [BodyWritten(body)];
    }
  }
}
