/** `org.astanis.sbttest.server.Server`, the earlier copy of ServerImpl. Its
    decode, dispatch and argument-class loop are written out again here from
    that file, and each is proved to behave exactly as ServerImpl's, so every
    property proved of ServerImpl holds of this copy too. */
module SbtServer {
  import opened Wire
  import opened Registry
  import ServerImpl

  /** The casts of `receiveRequest`. */
  function DecodeRequest(m: Envelope): (r: Option<ServerImpl.Request>)
    ensures r == ServerImpl.DecodeRequest(m)
  {
    var id := CastInt(Get(m, ServerImpl.RequestIdKey));
    var serviceName := CastString(Get(m, ServerImpl.ServiceNameKey));
    var methodName := CastString(Get(m, ServerImpl.MethodNameKey));
    var params := CastArray(Get(m, ServerImpl.ParamsKey));
    if id.Some? && serviceName.Some? && methodName.Some? && params.Some? then
      Some(ServerImpl.Request(id.value, serviceName.value, methodName.value, params.value))
    else
      None
  }

  /** `createResponse`; None when a NullPointerException escapes it. */
  function CreateResponse(registry: Registry, requestId: int, serviceName: Nullable<string>,
                          methodName: Nullable<string>, params: Nullable<seq<Value>>): (r: Option<Envelope>)
    ensures r == ServerImpl.CreateResponse(registry, requestId, serviceName, methodName, params)
  {
    match serviceName
    case NullRef => None
    case Ref(name) =>
      var response := map[ServerImpl.RequestIdKey := Int(requestId)];
      if name in registry then
        match (methodName, params)
        case (Ref(m), Ref(args)) =>
          var tags := ArgumentClasses(args);
          if tags.None? then None
          else if (m, tags.value) in registry[name] then
            var o := registry[name][(m, tags.value)](args);
            if o.Throws? then Some(response)
            else Some(response[ServerImpl.ResultKey := Returned(o)])
          else
            Some(response[ServerImpl.ExceptionKey := Str(ServerImpl.NoSuchMethod)])
        case _ => None
      else
        Some(response[ServerImpl.ExceptionKey := Str(ServerImpl.NoSuchService)])
  }

  /** `methodArgumentsClasses`. */
  method MethodArgumentsClasses(params: seq<Value>) returns (classes: array<Tag>, thrown: bool)
    ensures classes.Length == |params|
    ensures thrown <==> ArgumentClasses(params).None?
    ensures !thrown ==> classes[..] == ArgumentClasses(params).value
  {
    classes := new Tag[|params|];
    for i := 0 to |params|
      invariant forall k :: 0 <= k < i ==> params[k] != Null && Some(classes[k]) == ClassOf(params[k])
    {
      var c := ClassOf(params[i]);
      if c.None? {
        thrown := true;
        return;
      }
      classes[i] := c.value;
    }
    thrown := false;
    forall k | 0 <= k < |params| ensures classes[..][k] == ArgumentClasses(params).value[k] {
      assert Some(classes[k]) == ClassOf(params[k]);
    }
  }
}
