# A verified model of the SBT-Test remote call framework

SBT-Test is a small Java RPC framework. A client (`ClientImpl`) keeps one socket
connection to a server. Each caller's `remoteCall(serviceName, methodName, params)`
does four things:

- it takes the next request id from a per-connection counter;
- it writes a request map;
- it waits for the response map that carries its id, stashing any responses
  for other callers that it reads on the way;
- it returns the `"result"` entry, or throws `RmiException` when the response
  carries an `"exception"` string.

The server (`ServerImpl`) has one handler per connection. The handler reads
request maps in a loop and hands each one to a thread pool. A pool task
resolves the method by reflection, using the exact runtime classes of the
arguments. It invokes the method and writes the response map back.

The repository has three server versions, and all three are modelled:

- `org.astanis.sbttest.server.ServerImpl`;
- its earlier copy `org.astanis.sbttest.server.Server`;
- the first revision `org.astanis.server.Server`, which answers one request
  per connection.

Modules:

- `Wire`: serialized values (`Value`), Java null (`Nullable`), runtime classes
  (`Tag`), the maps that travel on the streams (`Envelope`) and the casts the
  code applies to them.
- `Registry`: the services the server hosts. Each one maps a method name and
  its exact parameter classes to the method's behaviour. Also the classes of an
  argument array (`ArgumentClasses`).
- `ServerImpl`: how a request is decoded, how it is dispatched into a response,
  the argument-class loop, and a `Connection` class with the read loop
  and the response writer.
- `SbtServer`: the earlier copy of the server, proved equal to `ServerImpl`.
- `EarlyServer`: the first revision, including the finding below.
- `RmiClient`: id allocation with Java `int` wrap-around, the request map, the
  claim loop of `getResponse` as a function and as a loop in class `ClientImpl`,
  and `getResult`.
- `Delivery`: several callers taking turns on one connection. On a stream whose
  responses carry distinct ids, each delivered response goes to the caller
  whose id it carries, no response is delivered twice, and no response read is
  lost. A repeated id breaks this: the second frame with that id overwrites
  the stashed first one (`unusedResponses.put`).
- `EndToEnd`: client and server composed. The request fields reach the pool
  task unchanged. Each kind of server answer reaches the caller as the value or
  the `RmiException` the client promises. The client tests' scenarios are
  proved, plus two callers whose responses arrive out of order.

How Java is represented:

- An unchecked exception that escapes a function is `None`.
- A read or write failure is a parameter (`writeOk`) or the end of the modelled
  inbound stream.
- `System.exit` is the call result `ProcessExit`.

Behaviour of the code the model keeps:

- Request ids are a Java `int` counter that wraps past 2147483647. Ids
  increase until the overflow. The first 2^32 calls get distinct ids, and
  call 2^32 + 1 gets id 1 again.
- A method that throws gets a response with neither `"result"` nor
  `"exception"`. The client reads that as a successful call returning null.
- Methods are resolved by name and the exact runtime classes of the arguments.
- A failed read or write on the client calls `System.exit`.
- A call waits until its response arrives or the stream fails.

## Model

| member | source | states |
|---|---|---|
| Wire.ClassOf | Server/src/main/java/org/astanis/sbttest/server/ServerImpl.java:220 | `getClass` fails exactly on null; Integer and Object[] values get exactly their own classes |
| Registry.ArgumentClasses | Server/src/main/java/org/astanis/sbttest/server/ServerImpl.java:217-223 | the classes of an argument array fail exactly when some argument is null; otherwise the result has one class per argument, the class of the argument at the same position |
| Wire.Get | Server/src/main/java/org/astanis/sbttest/server/ServerImpl.java:94-97 | `Map.get` gives null for an absent key, and a non-null value only when the key maps to it |
| Wire.CastInt | Server/src/main/java/org/astanis/sbttest/server/ServerImpl.java:94 | `(int)` succeeds exactly on an Integer and gives back its value |
| Wire.CastString | Server/src/main/java/org/astanis/sbttest/server/ServerImpl.java:95-96 | `(String)` succeeds exactly on null or a String and gives back the same reference |
| Wire.CastArray | Server/src/main/java/org/astanis/sbttest/server/ServerImpl.java:97 | `(Object[])` succeeds exactly on null or an Object[] and gives back the same reference |
| ServerImpl.DecodeRequest | Server/src/main/java/org/astanis/sbttest/server/ServerImpl.java:94-97 | decoding succeeds iff the id is an Integer and the other three fields have the right class or are null; each decoded field is exactly what the map held |
| ServerImpl.CreateResponse | Server/src/main/java/org/astanis/sbttest/server/ServerImpl.java:163-187 | no response exactly when a null service name, or for a known service a null method name, null array or null argument, throws; every response echoes the id; it never holds both result and exception; "No such service!" iff the service is unknown; the no-such-method message iff the method with those exact classes is absent; a resolved method's value under "result" (null for void), and only the id when it threw |
| ServerImpl.MethodArgumentsClasses | Server/src/main/java/org/astanis/sbttest/server/ServerImpl.java:217-223 | the loop fills an array as long as the arguments; it throws iff an argument is null, and otherwise the array holds exactly `ArgumentClasses` |
| ServerImpl.Submitted | Server/src/main/java/org/astanis/sbttest/server/ServerImpl.java:87-103 | the handler's read loop submits at most one task per map, and it stops at the end of the stream iff it submitted one task for every map |
| ServerImpl.SubmittedDecodes | Server/src/main/java/org/astanis/sbttest/server/ServerImpl.java:87-103 | each task submitted is the decode of the map at the same position; a loop that stops early stops at a map that does not decode |
| ServerImpl.Connection.constructor | Server/src/main/java/org/astanis/sbttest/server/ServerImpl.java:84-86 | a new connection has read nothing, submitted nothing and written nothing |
| ServerImpl.Connection.ReceiveRequests | Server/src/main/java/org/astanis/sbttest/server/ServerImpl.java:84-109 | the read loop appends exactly the tasks `Submitted` gives for the rest of the stream and reports why it stopped |
| ServerImpl.Connection.SendResponse | Server/src/main/java/org/astanis/sbttest/server/ServerImpl.java:123-150 | exactly one response map, `CreateResponse`'s, is written when it was built and the write succeeds; otherwise nothing is written |
| SbtServer.DecodeRequest | Server/src/main/java/org/astanis/sbttest/server/Server.java:77-80 | the earlier copy decodes exactly as ServerImpl does |
| SbtServer.CreateResponse | Server/src/main/java/org/astanis/sbttest/server/Server.java:146-171 | the earlier copy's dispatch, written out from its own text, gives exactly ServerImpl's response |
| SbtServer.MethodArgumentsClasses | Server/src/main/java/org/astanis/sbttest/server/Server.java:209-215 | the earlier copy's loop throws iff an argument is null and otherwise yields `ArgumentClasses` |
| EarlyServer.DecodeRequest | Server/src/main/java/org/astanis/server/Server.java:47-50 | the first revision's decode succeeds iff "id", service and method names are Strings or null and "params" is an Object[] or null; each field is what the map held |
| EarlyServer.ProcessResponseAsWritten | Server/src/main/java/org/astanis/server/Server.java:68-85 | as written, a response is built exactly for an unknown service or a method name not found; it echoes the id and never holds a result; off the found-method path it is exactly the corrected dispatch's response, so it carries "No Such Service" or "No Such Method" under "error" |
| EarlyServer.ProcessResponse | Server/src/main/java/org/astanis/server/Server.java:68-85 | with `invoke(service, params)`: no answer exactly for a null service or method name, or a found method given arguments; answers echo the id, never hold both result and error, "No Such Service" iff the service is unknown, "No Such Method" iff no parameterless method has that name; a found method's value under "result", only the id when it threw |
| EarlyServer.FoundMethodUnanswered | Server/src/main/java/org/astanis/server/Server.java:75-81 | whenever the method is found, the revision as written sends nothing, while the corrected dispatch answers a call without arguments |
| EarlyServer.AsWrittenLosesDate | Server/src/main/java/org/astanis/server/Server.java:76 | a parameterless `getCurrentDate` on "service1" gets no response as written; the corrected dispatch returns its date |
| EarlyServer.EchoesReadId | Server/src/main/java/org/astanis/server/Server.java:47-71 | the id a response carries is the String read from the request's "id" key |
| EarlyServer.Connection.constructor | Server/src/main/java/org/astanis/server/Server.java:40-42 | a new connection is open and has read and submitted nothing |
| EarlyServer.Connection.ProcessRequest | Server/src/main/java/org/astanis/server/Server.java:40-59 | one call reads at most one map, submits its decode if it decodes, and closes the connection |
| RmiClient.NextId | Client/src/main/java/org/astanis/sbttest/client/ClientImpl.java:84 | `incrementAndGet` stays a Java int: one more below the maximum, the minimum after it |
| RmiClient.IdAfterNoWrap | Client/src/main/java/org/astanis/sbttest/client/ClientImpl.java:28 | until the counter overflows, the k-th call on a connection gets id k |
| RmiClient.IdsIncrease | Client/src/main/java/org/astanis/sbttest/client/ClientImpl.java:84 | before the overflow, ids are positive and a later call gets a strictly larger id, so no two calls share one |
| RmiClient.IdAfter | Client/src/main/java/org/astanis/sbttest/client/ClientImpl.java:84 | the counter after k calls, starting at 0, is always a Java int |
| RmiClient.IdWrapsAfterIntMax | Client/src/main/java/org/astanis/sbttest/client/ClientImpl.java:28 | the call after the 2147483647-th gets -2147483648, so ids increase only up to the overflow |
| RmiClient.IdAfterWrapped | Client/src/main/java/org/astanis/sbttest/client/ClientImpl.java:84 | after the overflow, call k gets k - 2^32, climbing from -2147483648 up to 0 |
| RmiClient.IdsDistinct | Client/src/main/java/org/astanis/sbttest/client/ClientImpl.java:84 | the first 2^32 calls on a connection all get different ids |
| RmiClient.IdRepeatsAfterPeriod | Client/src/main/java/org/astanis/sbttest/client/ClientImpl.java:84 | call 2^32 + 1 gets id 1 again, the first id that repeats |
| RmiClient.CreateRequest | Client/src/main/java/org/astanis/sbttest/client/ClientImpl.java:115-123 | the request holds exactly the four keys, and the server's casts give back the id, names and arguments |
| RmiClient.Iteration | Client/src/main/java/org/astanis/sbttest/client/ClientImpl.java:137-152 | one iteration stays within the stream, and an iteration that does not end the loop reads exactly one frame |
| RmiClient.ClaimLoop | Client/src/main/java/org/astanis/sbttest/client/ClientImpl.java:137-153 | the claim never moves the stream backwards or past its end |
| RmiClient.PendingHitSkipsStream | Client/src/main/java/org/astanis/sbttest/client/ClientImpl.java:138-141 | a stashed response for the caller is taken and removed from the table without reading the stream |
| RmiClient.ReadFrameRouted | Client/src/main/java/org/astanis/sbttest/client/ClientImpl.java:143-151 | a frame read for another caller is stashed under its own id and the loop continues; the caller's own frame is returned and not stashed |
| RmiClient.IterationFrame | Client/src/main/java/org/astanis/sbttest/client/ClientImpl.java:137-152 | an iteration reads a frame iff nothing is stashed for the caller and the stream has not ended; no other caller's stashed entry changes unless a frame with that id was just read |
| RmiClient.ClaimDeliversOwn | Client/src/main/java/org/astanis/sbttest/client/ClientImpl.java:137-153 | the claim keeps every stashed response under its own id and returns only a response carrying the caller's id |
| RmiClient.ClaimSucceedsIff | Client/src/main/java/org/astanis/sbttest/client/ClientImpl.java:133-160 | on well-formed frames, the claim succeeds iff the caller's response is already stashed or still to come; otherwise it reads to the end of the stream and fails |
| RmiClient.GetResult | Client/src/main/java/org/astanis/sbttest/client/ClientImpl.java:170-185 | an "exception" string raises RmiException with that message; a null one gives the "result" entry, null when absent; a non-String one escapes as an unchecked exception |
| RmiClient.Finish | Client/src/main/java/org/astanis/sbttest/client/ClientImpl.java:100-157 | how `remoteCall` ends once its claim ends: the process exits exactly on a failed read; a value or RmiException comes only from a claimed response; a frame without an Integer id escapes as an unchecked exception |
| RmiClient.ClientImpl.constructor | Client/src/main/java/org/astanis/sbttest/client/ClientImpl.java:28-30 | a new client has a counter at 0, has read nothing and has no stashed responses |
| RmiClient.ClientImpl.GetResponse | Client/src/main/java/org/astanis/sbttest/client/ClientImpl.java:133-160 | the loop ends in exactly the claim, stream position and table of `ClaimLoop`; a claimed response carries the caller's id; the table stays keyed by frame ids |
| RmiClient.ClientImpl.RemoteCall | Client/src/main/java/org/astanis/sbttest/client/ClientImpl.java:83-103 | the call takes the next id and writes exactly its request; a failed write exits the process; otherwise the result is the server's response read through `GetResult` (or the exit or exception of a failed claim) |
| Delivery.Step | Client/src/main/java/org/astanis/sbttest/client/ClientImpl.java:137-153 | one caller's whole claim keeps the same stream, moves forward within it, and logs exactly one delivery, to that caller, after the earlier ones |
| Delivery.Run | Client/src/main/java/org/astanis/sbttest/client/ClientImpl.java:133-160 | callers claiming one after another keep the same stream, stay within it, and log one delivery per caller, in call order, after the earlier ones |
| Delivery.TableClaimKeepsAccounts | Client/src/main/java/org/astanis/sbttest/client/ClientImpl.java:138-141 | taking a stashed response keeps every frame read accounted for, in either the table or the deliveries |
| Delivery.OwnFrameKeepsAccounts | Client/src/main/java/org/astanis/sbttest/client/ClientImpl.java:143-147 | reading and taking the caller's own frame keeps the accounts |
| Delivery.StashKeepsAccounts | Client/src/main/java/org/astanis/sbttest/client/ClientImpl.java:148-149 | reading and stashing another caller's frame keeps the accounts |
| Delivery.ClaimKeepsAccounts | Client/src/main/java/org/astanis/sbttest/client/ClientImpl.java:137-153 | a whole claim on a stream of distinct ids keeps the accounts |
| Delivery.StartAccounted | Client/src/main/java/org/astanis/sbttest/client/ClientImpl.java:30 | a fresh connection, which has read nothing and stashed nothing, is accounted |
| Delivery.RunKeepsAccounts | Client/src/main/java/org/astanis/sbttest/client/ClientImpl.java:133-160 | any sequence of callers' claims keeps the accounts |
| Delivery.Delivered | Client/src/main/java/org/astanis/sbttest/client/ClientImpl.java:133-160 | after any run on a stream of distinct ids, each frame read is either stashed or delivered, never both; each delivery went to the caller whose id it carries; no id was delivered twice |
| EndToEnd.RequestRoundTrip | Server/src/main/java/org/astanis/sbttest/server/ServerImpl.java:94-97 | the server decodes the client's request map back to exactly the id, names and arguments the client wrote |
| EndToEnd.HandlerSubmitsClientRequests | Server/src/main/java/org/astanis/sbttest/server/ServerImpl.java:87-102 | a handler fed any sequence of client requests submits exactly those requests, in order, and stops only at the end of the stream |
| EndToEnd.ServiceMissRaises | Server/src/main/java/org/astanis/sbttest/server/ServerImpl.java:168-184 | an unknown service reaches the caller as RmiException("No such service!") |
| EndToEnd.MethodMissRaises | Server/src/main/java/org/astanis/sbttest/server/ServerImpl.java:174-178 | a missing method, or one with other parameter classes, reaches the caller as RmiException with the no-such-method message |
| EndToEnd.InvocationReachesCaller | Server/src/main/java/org/astanis/sbttest/server/ServerImpl.java:174-181 | a resolved method's value reaches the caller; a void method and a method that threw both reach the caller as a returned null |
| EndToEnd.ClientTests | Client/src/test/java/org/astanis/sbttest/client/ClientImplTest.java:21-43 | `multiply(10, 15)` on "service2" returns 150; an unknown method and an unknown service raise RmiException with the server's messages |
| EndToEnd.OutOfOrderCalls | Client/src/main/java/org/astanis/sbttest/client/ClientImpl.java:137-151 | two calls whose responses arrive in reverse order each get their own result, 150 and 6 |

## Left out

- Sockets, object serialization and logging are not modelled. The client's inbound stream is a fixed sequence of maps, and writes are a success flag.
- Threads, the thread pool and the locks are not modelled. `Delivery` runs each caller's whole claim as one atomic step, so interleavings inside a claim, and the server pool's order of writing responses, are not modelled.
- A corrupt read in mid-stream (`IOException` or `ClassNotFoundException`) is modelled as the end of the stream.
- A non-map object on either stream, which fails the `(Map)` cast, is not modelled.
- `Client.isClosed()` never turns true while a handler runs, because the server never closes its own socket. The loop therefore ends only by an exception.
- Reflection is replaced by the registry. There, a service's methods are the ones declared with exact parameter classes, and static and instance methods are not told apart. Methods inherited from `java.lang.Object` (`toString`, `hashCode` and so on) are not in the registry.
- `EarlyServer.ProcessResponseAsWritten`: because of that registry choice, an inherited `Object` method invoked on the argument array, which would succeed, is not modelled.
- `initServices` (reading `server.properties` and creating the service instances) is not modelled. The registry is a parameter.
- `Service1`, `Service2`, the starters and the `Client` interface are not part of this model, and neither are the `RmiException` class or the first client revision `org/astanis/client/Client.java`. `EndToEnd.Multiply` stands in for `Service2.multiply`.
- `openConnection`'s failure, which calls `System.exit`, is not modelled.
- The first server revision closes its streams as soon as it has submitted the task, so its pool task's write can fail. That race is not modelled. `EarlyServer.ProcessResponse` describes the map the task would write.
- `Value.Int` is an unbounded integer. The 32-bit range of a Java `Integer` argument or result is not enforced, and neither is `multiply`'s overflow.
- Floating point, byte arrays and other serializable classes are not modelled as values.

## Findings

| source | as written | input that shows it | evidently intended | confidence | as-written member | corrected member |
|---|---|---|---|---|---|---|
| Server/src/main/java/org/astanis/server/Server.java:76 | `method.invoke(params)` passes the argument array as the receiver. Invoking a service's own method then throws `IllegalArgumentException`, or `NullPointerException` for a null array. Neither is caught, so no response is written for any method that is found. | a request `{id: "1", serviceName: "service1", methodName: "getCurrentDate", params: []}` to a service with a parameterless `getCurrentDate` | `method.invoke(service, params)`, as the later revisions write it: the method's result is sent back under "result" | not executed | EarlyServer.ProcessResponseAsWritten | EarlyServer.ProcessResponse |
