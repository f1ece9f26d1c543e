/** Client and server together: the request fields survive the trip to the
    pool task, and each server answer reaches the caller as the value or the
    RmiException the client promises. The scenarios at the end are those of
    the client's tests, on a stand-in registry. */
module EndToEnd {
  import opened Wire
  import opened Registry
  import RmiClient
  import ServerImpl

  /** The server's decode reads back exactly the four fields the client wrote. */
  lemma RequestRoundTrip(requestId: int, serviceName: Nullable<string>, methodName: Nullable<string>,
                         params: Nullable<seq<Value>>)
    ensures ServerImpl.DecodeRequest(RmiClient.CreateRequest(requestId, serviceName, methodName, params))
         == Some(ServerImpl.Request(requestId, serviceName, methodName, params))
  {
  }

  /** A connection handler fed the requests of a client submits one task per
      request, with that request's fields unchanged, and stops only at the end
      of the stream. */
  lemma {:induction false} HandlerSubmitsClientRequests(requests: seq<ServerImpl.Request>)
    ensures var frames := seq(|requests|, k requires 0 <= k < |requests| =>
      RmiClient.CreateRequest(requests[k].requestId, requests[k].serviceName, requests[k].methodName, requests[k].params));
      ServerImpl.Submitted(frames) == (requests, ServerImpl.EndOfStream)
    decreases |requests|
  {
    var frames := seq(|requests|, k requires 0 <= k < |requests| =>
      RmiClient.CreateRequest(requests[k].requestId, requests[k].serviceName, requests[k].methodName, requests[k].params));
    if requests != [] {
      var rest := requests[1..];
      var restFrames := seq(|rest|, k requires 0 <= k < |rest| =>
        RmiClient.CreateRequest(rest[k].requestId, rest[k].serviceName, rest[k].methodName, rest[k].params));
      assert frames[1..] == restFrames;
      HandlerSubmitsClientRequests(rest);
      var r := requests[0];
      RequestRoundTrip(r.requestId, r.serviceName, r.methodName, r.params);
      assert [requests[0]] + rest == requests;
    }
  }

  /** An unknown service reaches the caller as RmiException("No such service!"). */
  lemma ServiceMissRaises(registry: Registry, requestId: int, serviceName: string,
                          methodName: Nullable<string>, params: Nullable<seq<Value>>)
    requires serviceName !in registry
    ensures var r := ServerImpl.CreateResponse(registry, requestId, Ref(serviceName), methodName, params);
      r.Some? && RmiClient.GetResult(r.value) == RmiClient.RmiException(ServerImpl.NoSuchService)
  {
  }

  /** A known service without a method of that name and those exact argument
      classes reaches the caller as RmiException with the "No such method"
      message. */
  lemma MethodMissRaises(registry: Registry, requestId: int, serviceName: string,
                         methodName: string, params: seq<Value>)
    requires serviceName in registry && ArgumentClasses(params).Some?
    requires !ServerImpl.Resolves(registry[serviceName], methodName, params)
    ensures var r := ServerImpl.CreateResponse(registry, requestId, Ref(serviceName), Ref(methodName), Ref(params));
      r.Some? && RmiClient.GetResult(r.value) == RmiClient.RmiException(ServerImpl.NoSuchMethod)
  {
  }

  /** A resolved method's outcome as the caller sees it: its value, null for
      a void method, and also null when the invocation threw, so that a
      failed invocation reads as a successful void call. */
  lemma InvocationReachesCaller(registry: Registry, requestId: int, serviceName: string,
                                methodName: string, params: seq<Value>)
    requires serviceName in registry && ServerImpl.Resolves(registry[serviceName], methodName, params)
    ensures var o := ServerImpl.Resolved(registry[serviceName], methodName, params)(params);
      var r := ServerImpl.CreateResponse(registry, requestId, Ref(serviceName), Ref(methodName), Ref(params));
      r.Some? &&
      RmiClient.GetResult(r.value) == RmiClient.Returned(if o.Returns? then o.v else Null)
  {
    var o := ServerImpl.Resolved(registry[serviceName], methodName, params)(params);
    var r := ServerImpl.CreateResponse(registry, requestId, Ref(serviceName), Ref(methodName), Ref(params));
    assert Get(r.value, ServerImpl.ExceptionKey) == Null;
  }

  // ---------------------------------------------------------------------
  // Scenarios of the client's tests

  /** A stand-in for the test server's "service2": `multiply(Integer, Integer)`. */
  function Multiply(args: seq<Value>): Outcome
  {
    if |args| == 2 && args[0].Int? && args[1].Int? then Returns(Int(args[0].i * args[1].i)) else Throws
  }

  lemma IntegerPairClasses(a: int, b: int)
    ensures ArgumentClasses([Int(a), Int(b)]) == Some([IntegerClass, IntegerClass])
  {
    var params := [Int(a), Int(b)];
    var tags := ArgumentClasses(params).value;
    assert Some(tags[0]) == ClassOf(params[0]) && Some(tags[1]) == ClassOf(params[1]);
    assert tags == [IntegerClass, IntegerClass];
  }

  function TestRegistry(): Registry
  {
    map["service2" := map[("multiply", [IntegerClass, IntegerClass]) := Multiply]]
  }

  /** `multiply(10, 15)` gives 150; an unknown method or service raises RmiException. */
  lemma ClientTests()
    ensures var r := ServerImpl.CreateResponse(TestRegistry(), 1, Ref("service2"), Ref("multiply"), Ref([Int(10), Int(15)]));
      r.Some? && RmiClient.GetResult(r.value) == RmiClient.Returned(Int(150))
    ensures var r := ServerImpl.CreateResponse(TestRegistry(), 2, Ref("service2"), Ref("something"), Ref([]));
      r.Some? && RmiClient.GetResult(r.value) == RmiClient.RmiException(ServerImpl.NoSuchMethod)
    ensures var r := ServerImpl.CreateResponse(TestRegistry(), 3, Ref("wrongService"), Ref("multiply"), Ref([]));
      r.Some? && RmiClient.GetResult(r.value) == RmiClient.RmiException(ServerImpl.NoSuchService)
  {
    IntegerPairClasses(10, 15);
    InvocationReachesCaller(TestRegistry(), 1, "service2", "multiply", [Int(10), Int(15)]);
    assert !ServerImpl.Resolves(TestRegistry()["service2"], "something", []);
    MethodMissRaises(TestRegistry(), 2, "service2", "something", []);
    ServiceMissRaises(TestRegistry(), 3, "wrongService", Ref("multiply"), Ref([]));
  }

  /** Two callers on one connection whose responses arrive out of order: the
      first caller reads the second's response, stashes it, and then reads its
      own; the second finds its response in the table without reading. */
  method OutOfOrderCalls() returns (first: RmiClient.CallResult, second: RmiClient.CallResult)
    ensures first == RmiClient.Returned(Int(150))
    ensures second == RmiClient.Returned(Int(6))
  {
    IntegerPairClasses(10, 15);
    IntegerPairClasses(2, 3);
    InvocationReachesCaller(TestRegistry(), 1, "service2", "multiply", [Int(10), Int(15)]);
    InvocationReachesCaller(TestRegistry(), 2, "service2", "multiply", [Int(2), Int(3)]);
    var answer1 := ServerImpl.CreateResponse(TestRegistry(), 1, Ref("service2"), Ref("multiply"), Ref([Int(10), Int(15)]));
    var answer2 := ServerImpl.CreateResponse(TestRegistry(), 2, Ref("service2"), Ref("multiply"), Ref([Int(2), Int(3)]));
    var client := new RmiClient.ClientImpl([answer2.value, answer1.value]);
    first := client.RemoteCall(Ref("service2"), Ref("multiply"), Ref([Int(10), Int(15)]), true);
    assert client.pending.Keys == {2};
    second := client.RemoteCall(Ref("service2"), Ref("multiply"), Ref([Int(2), Int(3)]), true);
  }
}
