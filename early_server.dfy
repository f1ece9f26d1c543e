/** The first server revision (`org.astanis.server.Server`): one request per
    connection, methods looked up by name alone, "error" instead of
    "exception", and a String request id read from the key "id". */
module EarlyServer {
  import opened Wire
  import opened Registry

  const IdKey := "id"
  const ServiceNameKey := "serviceName"
  const MethodNameKey := "methodName"
  const ParamsKey := "params"
  const RequestIdKey := "requestId"
  const ResultKey := "result"
  const ErrorKey := "error"

  const NoSuchService := "No Such Service"
  const NoSuchMethod := "No Such Method"

  datatype EarlyRequest = EarlyRequest(
    id: Nullable<string>,
    serviceName: Nullable<string>,
    methodName: Nullable<string>,
    params: Nullable<seq<Value>>)

  /** The casts of `processRequest`; None when one throws ClassCastException,
      which nothing there catches. */
  function DecodeRequest(m: Envelope): (r: Option<EarlyRequest>)
    ensures r.Some? <==>
      CastString(Get(m, IdKey)).Some? && CastString(Get(m, ServiceNameKey)).Some? &&
      CastString(Get(m, MethodNameKey)).Some? && CastArray(Get(m, ParamsKey)).Some?
    ensures r.Some? ==> StringValue(r.value.id) == Get(m, IdKey)
    ensures r.Some? ==> StringValue(r.value.serviceName) == Get(m, ServiceNameKey)
    ensures r.Some? ==> StringValue(r.value.methodName) == Get(m, MethodNameKey)
    ensures r.Some? ==> ArrayValue(r.value.params) == Get(m, ParamsKey)
  {
    match (CastString(Get(m, IdKey)), CastString(Get(m, ServiceNameKey)),
           CastString(Get(m, MethodNameKey)), CastArray(Get(m, ParamsKey)))
    case (Some(id), Some(s), Some(n), Some(p)) => Some(EarlyRequest(id, s, n, p))
    case _ => None
  }

  /** `getMethod(methodName)` with no parameter classes finds only a
      method without parameters. */
  predicate Finds(service: Service, methodName: string)
  {
    (methodName, []) in service
  }

  /** The dispatch part of `processResponse` as written: the resolved method is
      invoked as `method.invoke(params)`, which passes the argument array as
      the receiver. For a service's own instance method that throws
      IllegalArgumentException (or NullPointerException for a null array),
      neither of which is caught, so no response is built. Unknown service and
      unknown method still get their error. */
  function ProcessResponseAsWritten(registry: Registry, req: EarlyRequest): (r: Option<Envelope>)
    ensures r.Some? ==> RequestIdKey in r.value && r.value[RequestIdKey] == StringValue(req.id) && ResultKey !in r.value
    ensures r.Some? <==>
      req.serviceName.Ref? &&
      (req.serviceName.deref !in registry ||
       (req.methodName.Ref? && !Finds(registry[req.serviceName.deref], req.methodName.deref)))
    // off the found-method path it answers exactly as the corrected dispatch,
    // with "No Such Service" or "No Such Method" under "error"
    ensures !(req.serviceName.Ref? && req.serviceName.deref in registry && req.methodName.Ref? &&
              Finds(registry[req.serviceName.deref], req.methodName.deref)) ==>
      r == ProcessResponse(registry, req)
  {
    var response := map[RequestIdKey := StringValue(req.id)];
    match req.serviceName
    case NullRef => None
    case Ref(name) =>
      if name !in registry then Some(response[ErrorKey := Str(NoSuchService)])
      else
        match req.methodName
        case NullRef => None
        case Ref(m) =>
          if !Finds(registry[name], m) then Some(response[ErrorKey := Str(NoSuchMethod)])
          else None
  }

  /** The dispatch part of `processResponse` with the invocation the later
      revisions write, `method.invoke(service, params)`. The resolved method
      has no parameters, so a null or empty argument array invokes it and a
      non-empty one throws IllegalArgumentException, which is not caught. */
  function ProcessResponse(registry: Registry, req: EarlyRequest): (r: Option<Envelope>)
    // which requests get no answer
    ensures r.None? <==>
      req.serviceName.NullRef? ||
      (req.serviceName.deref in registry &&
       (req.methodName.NullRef? ||
        (Finds(registry[req.serviceName.deref], req.methodName.deref) &&
         req.params.Ref? && |req.params.deref| > 0)))
    // every answer echoes the id and carries at most one of result and error
    ensures r.Some? ==> RequestIdKey in r.value && r.value[RequestIdKey] == StringValue(req.id)
    ensures r.Some? ==> r.value.Keys <= {RequestIdKey, ResultKey, ErrorKey}
    ensures r.Some? ==> !(ResultKey in r.value && ErrorKey in r.value)
    // the error taxonomy
    ensures r.Some? ==>
      (Get(r.value, ErrorKey) == Str(NoSuchService) <==> req.serviceName.deref !in registry)
    ensures r.Some? ==>
      (Get(r.value, ErrorKey) == Str(NoSuchMethod) <==>
         req.serviceName.deref in registry && !Finds(registry[req.serviceName.deref], req.methodName.deref))
    // a found method: its value under "result", or neither key when it threw
    ensures r.Some? && req.serviceName.deref in registry && Finds(registry[req.serviceName.deref], req.methodName.deref) ==>
      var o := registry[req.serviceName.deref][(req.methodName.deref, [])]([]);
      (o.Throws? ==> r.value.Keys == {RequestIdKey}) &&
      (!o.Throws? ==> r.value == map[RequestIdKey := StringValue(req.id), ResultKey := Returned(o)])
  {
    var response := map[RequestIdKey := StringValue(req.id)];
    match req.serviceName
    case NullRef => None
    case Ref(name) =>
      if name !in registry then Some(response[ErrorKey := Str(NoSuchService)])
      else
        match req.methodName
        case NullRef => None
        case Ref(m) =>
          if !Finds(registry[name], m) then Some(response[ErrorKey := Str(NoSuchMethod)])
          else if req.params.Ref? && |req.params.deref| > 0 then None
          else
            match registry[name][(m, [])]([])
            case Returns(v) => Some(response[ResultKey := v])
            case ReturnsVoid => Some(response[ResultKey := Null])
            case Throws => Some(response)
  }

  /** As written, a request whose method is found is never answered, however
      that method would have behaved, while the corrected dispatch answers it
      whenever it carries no arguments. */
  lemma FoundMethodUnanswered(registry: Registry, req: EarlyRequest)
    requires req.serviceName.Ref? && req.serviceName.deref in registry
    requires req.methodName.Ref? && Finds(registry[req.serviceName.deref], req.methodName.deref)
    ensures ProcessResponseAsWritten(registry, req).None?
    ensures (req.params.NullRef? || req.params.deref == []) ==> ProcessResponse(registry, req).Some?
  {
  }

  /** The input that shows it: a zero-argument `getCurrentDate` of "service1"
      that would return a date gets no response as written. */
  lemma AsWrittenLosesDate()
    ensures var registry := map["service1" := map[("getCurrentDate", []) := (args: seq<Value>) => Returns(Date(0))]];
      var req := EarlyRequest(Ref("1"), Ref("service1"), Ref("getCurrentDate"), Ref([]));
      ProcessResponseAsWritten(registry, req) == None &&
      ProcessResponse(registry, req) == Some(map[RequestIdKey := Str("1"), ResultKey := Date(0)])
  {
    var registry := map["service1" := map[("getCurrentDate", []) := (args: seq<Value>) => Returns(Date(0))]];
    var req := EarlyRequest(Ref("1"), Ref("service1"), Ref("getCurrentDate"), Ref([]));
    assert Finds(registry["service1"], "getCurrentDate");
  }

  /** The id a response carries is the String read from the request's "id" key. */
  lemma EchoesReadId(registry: Registry, m: Envelope)
    requires DecodeRequest(m).Some? && ProcessResponse(registry, DecodeRequest(m).value).Some?
    ensures ProcessResponse(registry, DecodeRequest(m).value).value[RequestIdKey] == Get(m, IdKey)
  {
  }

  /** One accepted connection of the first revision. */
  class Connection {
    const inbound: seq<Envelope>
    var cursor: nat
    var tasks: seq<EarlyRequest>
    var closed: bool

    constructor (inbound: seq<Envelope>)
      ensures this.inbound == inbound && cursor == 0 && tasks == [] && !closed
    {
      this.inbound := inbound;
      cursor := 0;
      tasks := [];
      closed := false;
    }

    /** `processRequest`: read one map, decode it, submit one task, and close
        the streams; there is no loop, so a connection carries one request. */
    method ProcessRequest()
      requires !closed
      modifies this
      ensures closed
      ensures cursor == if old(cursor) < |inbound| then old(cursor) + 1 else old(cursor)
      ensures tasks == old(tasks) +
        if old(cursor) < |inbound| && DecodeRequest(inbound[old(cursor)]).Some?
        then [DecodeRequest(inbound[old(cursor)]).value] else []
    {
      if cursor < |inbound| {
        var requestParams := inbound[cursor];
        cursor := cursor + 1;
        var request := DecodeRequest(requestParams);
        if request.Some? {
          tasks := tasks + [request.value];
        }
      }
      closed := true;
    }
  }
}
