/** The mature server (`org.astanis.sbttest.server.ServerImpl`): decoding a
    request map, dispatching it against the registry, and writing the response
    map back on the connection. */
module ServerImpl {
  import opened Wire
  import opened Registry

  const RequestIdKey := "requestId"
  const ServiceNameKey := "serviceName"
  const MethodNameKey := "methodName"
  const ParamsKey := "params"
  const ResultKey := "result"
  const ExceptionKey := "exception"

  const NoSuchService := "No such service!"
  const NoSuchMethod := "No such method or invalid arguments or invalid arguments count!"

  /** The four request fields as the connection handler hands them to a pool task. */
  datatype Request = Request(
    requestId: int,
    serviceName: Nullable<string>,
    methodName: Nullable<string>,
    params: Nullable<seq<Value>>)

  /** The casts of `receiveRequest`; None when one of them throws (a missing or
      non-Integer id, or a field of the wrong class), which ends the handler. */
  function DecodeRequest(m: Envelope): (r: Option<Request>)
    ensures r.Some? <==>
      Get(m, RequestIdKey).Int? && CastString(Get(m, ServiceNameKey)).Some? &&
      CastString(Get(m, MethodNameKey)).Some? && CastArray(Get(m, ParamsKey)).Some?
    ensures r.Some? ==> Int(r.value.requestId) == Get(m, RequestIdKey)
    ensures r.Some? ==> StringValue(r.value.serviceName) == Get(m, ServiceNameKey)
    ensures r.Some? ==> StringValue(r.value.methodName) == Get(m, MethodNameKey)
    ensures r.Some? ==> ArrayValue(r.value.params) == Get(m, ParamsKey)
  {
    match (CastInt(Get(m, RequestIdKey)), CastString(Get(m, ServiceNameKey)),
           CastString(Get(m, MethodNameKey)), CastArray(Get(m, ParamsKey)))
    case (Some(id), Some(s), Some(n), Some(p)) => Some(Request(id, s, n, p))
    case _ => None
  }

  /** The method that `getMethod(methodName, methodArgumentsClasses(params))`
      finds, if every argument is non-null and the service declares it. */
  predicate Resolves(service: Service, methodName: string, params: seq<Value>)
  {
    var tags := ArgumentClasses(params);
    tags.Some? && (methodName, tags.value) in service
  }

  function Resolved(service: Service, methodName: string, params: seq<Value>): Method
    requires Resolves(service, methodName, params)
  {
    service[(methodName, ArgumentClasses(params).value)]
  }

  /** `createResponse`. None when a NullPointerException escapes it (a null
      service name in the ConcurrentHashMap lookup, or, for a known service, a
      null method name, a null argument array or a null argument); the pool task
      then dies and no response is ever written. */
  function CreateResponse(registry: Registry, requestId: int, serviceName: Nullable<string>,
                          methodName: Nullable<string>, params: Nullable<seq<Value>>): (r: Option<Envelope>)
    // the connection-level outcome: which requests get no answer at all
    ensures r.None? <==>
      serviceName.NullRef? ||
      (serviceName.deref in registry &&
       (methodName.NullRef? || params.NullRef? || ArgumentClasses(params.deref).None?))
    // every answer echoes the id and carries at most one of result and exception
    ensures r.Some? ==> RequestIdKey in r.value && r.value[RequestIdKey] == Int(requestId)
    ensures r.Some? ==> r.value.Keys <= {RequestIdKey, ResultKey, ExceptionKey}
    ensures r.Some? ==> !(ResultKey in r.value && ExceptionKey in r.value)
    // the error taxonomy
    ensures r.Some? ==>
      (Get(r.value, ExceptionKey) == Str(NoSuchService) <==> serviceName.deref !in registry)
    ensures r.Some? ==>
      (Get(r.value, ExceptionKey) == Str(NoSuchMethod) <==>
         serviceName.deref in registry &&
         !Resolves(registry[serviceName.deref], methodName.deref, params.deref))
    ensures r.Some? && ExceptionKey in r.value ==>
      r.value[ExceptionKey] == Str(NoSuchService) || r.value[ExceptionKey] == Str(NoSuchMethod)
    // a resolved method: its return value under "result", or nothing when it threw
    ensures r.Some? && serviceName.deref in registry &&
            Resolves(registry[serviceName.deref], methodName.deref, params.deref) ==>
      var o := Resolved(registry[serviceName.deref], methodName.deref, params.deref)(params.deref);
      (o.Throws? ==> r.value.Keys == {RequestIdKey}) &&
      (!o.Throws? ==> r.value == map[RequestIdKey := Int(requestId), ResultKey := Returned(o)])
  {
    if serviceName.NullRef? then None
    else if serviceName.deref !in registry then
      Some(map[RequestIdKey := Int(requestId), ExceptionKey := Str(NoSuchService)])
    else
      var response := map[RequestIdKey := Int(requestId)];
      if methodName.NullRef? || params.NullRef? then None
      else
        match ArgumentClasses(params.deref)
        case None => None
        case Some(tags) =>
          var service := registry[serviceName.deref];
          if (methodName.deref, tags) !in service then
            Some(response[ExceptionKey := Str(NoSuchMethod)])
          else
            match service[(methodName.deref, tags)](params.deref)
            case Returns(v) => Some(response[ResultKey := v])
            case ReturnsVoid => Some(response[ResultKey := Null])
            case Throws => Some(response)
  }

  /** `methodArgumentsClasses`: fills an array with the class of each argument.
      `thrown` reports the NullPointerException of `params[i].getClass()` on a
      null argument, which abandons the array. */
  method MethodArgumentsClasses(params: seq<Value>) returns (classes: array<Tag>, thrown: bool)
    ensures classes.Length == |params|
    ensures thrown <==> ArgumentClasses(params).None?
    ensures !thrown ==> classes[..] == ArgumentClasses(params).value
  {
    classes := new Tag[|params|];
    for i := 0 to |params|
      invariant forall k :: 0 <= k < i ==> params[k] != Null && Some(classes[k]) == ClassOf(params[k])
    {
      var c := ClassOf(params[i]);
      if c.None? {
        thrown := true;
        return;
      }
      classes[i] := c.value;
    }
    thrown := false;
    assert classes[..] == ArgumentClasses(params).value by {
      forall k | 0 <= k < |params| ensures classes[..][k] == ArgumentClasses(params).value[k] {
        assert Some(classes[k]) == ClassOf(params[k]);
      }
    }
  }

  /** Why a handler's read loop ended. */
  datatype Stop = EndOfStream | MalformedRequest

  /** The tasks a handler submits for a run of inbound request maps: one per
      map, in order, until the first map whose decode throws. */
  function Submitted(frames: seq<Envelope>): (r: (seq<Request>, Stop))
    ensures |r.0| <= |frames|
    ensures r.1 == EndOfStream <==> |r.0| == |frames|
  {
    if frames == [] then ([], EndOfStream)
    else
      match DecodeRequest(frames[0])
      case None => ([], MalformedRequest)
      case Some(req) =>
        var rest := Submitted(frames[1..]);
        ([req] + rest.0, rest.1)
  }

  /** Every submitted task is the decode of the map at the same position;
      the loop ends at the end of the stream, or at the first map that does
      not decode. */
  lemma {:induction false} SubmittedDecodes(frames: seq<Envelope>)
    ensures forall i :: 0 <= i < |Submitted(frames).0| ==>
      DecodeRequest(frames[i]) == Some(Submitted(frames).0[i])
    ensures Submitted(frames).1 == MalformedRequest ==>
      DecodeRequest(frames[|Submitted(frames).0|]).None?
  {
    if frames != [] && DecodeRequest(frames[0]).Some? {
      SubmittedDecodes(frames[1..]);
    }
  }

  /** One accepted connection: the request maps the client sends, the tasks
      submitted to the pool, and the response maps written back. */
  class Connection {
    const registry: Registry
    const inbound: seq<Envelope>
    var cursor: nat
    var tasks: seq<Request>
    var outbound: seq<Envelope>

    constructor (registry: Registry, inbound: seq<Envelope>)
      ensures this.registry == registry && this.inbound == inbound
      ensures cursor == 0 && tasks == [] && outbound == []
    {
      this.registry := registry;
      this.inbound := inbound;
      cursor := 0;
      tasks := [];
      outbound := [];
    }

    /** The read loop of `receiveRequest`: read one map, decode it, submit a
        task, repeat, until the stream ends or a decode throws. */
    method ReceiveRequests() returns (stop: Stop)
      requires cursor <= |inbound|
      modifies this`cursor, this`tasks
      ensures old(cursor) <= cursor <= |inbound|
      ensures tasks == old(tasks) + Submitted(inbound[old(cursor)..]).0
      ensures stop == Submitted(inbound[old(cursor)..]).1
    {
      ghost var start := cursor;
      while true
        invariant start <= cursor <= |inbound|
        invariant old(tasks) + Submitted(inbound[start..]).0 == tasks + Submitted(inbound[cursor..]).0
        invariant Submitted(inbound[start..]).1 == Submitted(inbound[cursor..]).1
        decreases |inbound| - cursor
      {
        if cursor == |inbound| {
          return EndOfStream;
        }
        var frame := inbound[cursor];
        assert inbound[cursor..][0] == frame && inbound[cursor..][1..] == inbound[cursor + 1..];
        cursor := cursor + 1;
        var request := DecodeRequest(frame);
        if request.None? {
          return MalformedRequest;
        }
        tasks := tasks + [request.value];
      }
    }

    /** `sendResponse`: build the response and write it. Both branches write
        the same map; they differ only in the log line. A response whose
        construction threw is never written; a failed write is logged and
        dropped. */
    method SendResponse(task: Request, writeOk: bool)
      modifies this`outbound
      ensures var r := CreateResponse(registry, task.requestId, task.serviceName, task.methodName, task.params);
        outbound == if r.Some? && writeOk then old(outbound) + [r.value] else old(outbound)
    {
      var response := CreateResponse(registry, task.requestId, task.serviceName, task.methodName, task.params);
      if response.None? {
        return;
      }
      var exception := Get(response.value, ExceptionKey);
      if exception != Null {
        if writeOk {
          outbound := outbound + [response.value];
        }
      } else {
        if writeOk {
          outbound := outbound + [response.value];
        }
      }
    }
  }
}
