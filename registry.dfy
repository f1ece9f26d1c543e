/** The server's table of services, standing in for the reflective lookup
    `service.getClass().getMethod(name, classes)` and `method.invoke(service, args)`. */
module Registry {
  import opened Wire

  /** What invoking a resolved method does. `Throws` covers every exception
      that `Method.invoke` reports as InvocationTargetException or
      IllegalAccessException. */
  datatype Outcome = Returns(v: Value) | ReturnsVoid | Throws

  /** A public method of a service: its behaviour on the argument array. */
  type Method = seq<Value> -> Outcome

  /** The public methods of one service instance, keyed by name and exact
      parameter classes (the key `Class.getMethod` matches). */
  type Service = map<(string, seq<Tag>), Method>

  /** Service name to service instance, as filled from the properties file. */
  type Registry = map<string, Service>

  /** What `method.invoke` returns: the value, or null for a void method. */
  function Returned(o: Outcome): Value
    requires !o.Throws?
  {
    if o.Returns? then o.v else Null
  }

  /** The classes of the arguments, one per argument, in order; None when an
      argument is null and `getClass()` throws NullPointerException. */
  function ArgumentClasses(params: seq<Value>): (r: Option<seq<Tag>>)
    ensures r.None? <==> exists i :: 0 <= i < |params| && params[i].Null?
    ensures r.Some? ==> |r.value| == |params|
    ensures r.Some? ==> forall i :: 0 <= i < |params| ==> Some(r.value[i]) == ClassOf(params[i])
  {
    if params == [] then Some([])
    else
      match ClassOf(params[0])
      case None => None
      case Some(t) =>
        var rest := ArgumentClasses(params[1..]);
        if rest.None? then
          assert exists i :: 0 <= i < |params[1..]| && params[1..][i].Null?;
          None
        else
          Some([t] + rest.value)
  }
}
