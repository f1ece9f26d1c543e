/** The client (`org.astanis.sbttest.client.ClientImpl`): per-connection id
    allocation, the request map, the claim loop that correlates responses with
    callers through the table of responses read for other callers, and the
    mapping of a response to a value or an RmiException. */
module RmiClient {
  import opened Wire

  const RequestIdKey := "requestId"
  const ServiceNameKey := "serviceName"
  const MethodNameKey := "methodName"
  const ParamsKey := "params"
  const ResultKey := "result"
  const ExceptionKey := "exception"

  const IntMin := -0x8000_0000
  const IntMax := 0x7fff_ffff

  // ---------------------------------------------------------------------
  // Request ids

  /** `AtomicInteger.incrementAndGet` on a Java int: two's-complement wrap-around. */
  function NextId(n: int): (r: int)
    requires IntMin <= n <= IntMax
    ensures IntMin <= r <= IntMax
    ensures n < IntMax ==> r == n + 1
    ensures n == IntMax ==> r == IntMin
  {
    if n == IntMax then IntMin else n + 1
  }

  /** The counter's value after `k` calls; it starts at 0. */
  function IdAfter(k: nat): (r: int)
    ensures IntMin <= r <= IntMax
  {
    if k == 0 then 0 else NextId(IdAfter(k - 1))
  }

  /** The k-th call gets id k, as long as the int does not overflow. */
  lemma {:induction false} IdAfterNoWrap(k: nat)
    requires k <= IntMax
    ensures IdAfter(k) == k
  {
    if k > 0 {
      IdAfterNoWrap(k - 1);
    }
  }

  /** Before the overflow every later call gets a strictly larger id. */
  lemma IdsIncrease(j: nat, k: nat)
    requires 1 <= j < k <= IntMax
    ensures 1 <= IdAfter(j) < IdAfter(k)
  {
    IdAfterNoWrap(j);
    IdAfterNoWrap(k);
  }

  /** The call after the 2147483647-th gets the most negative int: ids
      increase only up to the overflow. */
  lemma IdWrapsAfterIntMax()
    ensures IdAfter(IntMax + 1) == IntMin
  {
    IdAfterNoWrap(IntMax);
  }

  /** The number of distinct Java ints, the counter's period. */
  const IntRange := 0x1_0000_0000

  /** After the overflow the counter climbs from the most negative int up to 0. */
  lemma {:induction false} IdAfterWrapped(k: nat)
    requires IntMax < k <= IntRange
    ensures IdAfter(k) == k - IntRange
    decreases k
  {
    if k == IntMax + 1 {
      IdWrapsAfterIntMax();
    } else {
      IdAfterWrapped(k - 1);
    }
  }

  /** The first 2^32 calls on a connection all get different ids. */
  lemma IdsDistinct(j: nat, k: nat)
    requires 1 <= j < k <= IntRange
    ensures IdAfter(j) != IdAfter(k)
  {
    if j <= IntMax {
      IdAfterNoWrap(j);
    } else {
      IdAfterWrapped(j);
    }
    if k <= IntMax {
      IdAfterNoWrap(k);
    } else {
      IdAfterWrapped(k);
    }
  }

  /** Call 2^32 + 1 gets the id of the first call again. */
  lemma IdRepeatsAfterPeriod()
    ensures IdAfter(IntRange + 1) == IdAfter(1) == 1
  {
    IdAfterWrapped(IntRange);
  }

  // ---------------------------------------------------------------------
  // Request map

  /** `createRequest`: the four keys the server reads. */
  function CreateRequest(requestId: int, serviceName: Nullable<string>, methodName: Nullable<string>,
                         params: Nullable<seq<Value>>): (m: Envelope)
    ensures m.Keys == {RequestIdKey, ServiceNameKey, MethodNameKey, ParamsKey}
    ensures CastInt(m[RequestIdKey]) == Some(requestId)
    ensures CastString(m[ServiceNameKey]) == Some(serviceName)
    ensures CastString(m[MethodNameKey]) == Some(methodName)
    ensures CastArray(m[ParamsKey]) == Some(params)
  {
    map[RequestIdKey := Int(requestId),
        ServiceNameKey := StringValue(serviceName),
        MethodNameKey := StringValue(methodName),
        ParamsKey := ArrayValue(params)]
  }

  // ---------------------------------------------------------------------
  // The claim loop of getResponse

  /** `(int) temp.get("requestId")` on a frame read from the stream; None when
      the cast throws. */
  function FrameId(frame: Envelope): Option<int>
  {
    CastInt(Get(frame, RequestIdKey))
  }

  /** The table of responses read for other callers is keyed by each frame's own id. */
  ghost predicate Keyed(pending: map<int, Envelope>)
  {
    forall id :: id in pending ==> FrameId(pending[id]) == Some(id)
  }

  /** How a caller's claim ends: with its response, with a failed read
      (end of stream or a broken stream, on which the client calls
      `System.exit`), or with the unchecked exception of a frame whose id is
      missing or not an Integer, which escapes `remoteCall`. */
  datatype Claim = Claimed(response: Envelope) | ReadFailure | MalformedFrame

  /** The state of one loop iteration: `done` is the claim once the loop ends. */
  datatype Iter = Iter(done: Option<Claim>, cursor: nat, pending: map<int, Envelope>)

  /** One iteration of the `while (response == null)` loop. */
  function Iteration(requestId: int, inbound: seq<Envelope>, cursor: nat, pending: map<int, Envelope>): (it: Iter)
    requires cursor <= |inbound|
    ensures it.cursor <= |inbound|
    ensures it.done.None? ==> it.cursor == cursor + 1
  {
    if requestId in pending then
      Iter(Some(Claimed(pending[requestId])), cursor, pending - {requestId})
    else if cursor == |inbound| then
      Iter(Some(ReadFailure), cursor, pending)
    else
      var frame := inbound[cursor];
      match FrameId(frame)
      case None => Iter(Some(MalformedFrame), cursor + 1, pending)
      case Some(id) =>
        if id == requestId then Iter(Some(Claimed(frame)), cursor + 1, pending)
        else Iter(None, cursor + 1, pending[id := frame])
  }

  /** The whole claim: iterate until the loop ends. Returns the claim, the new
      stream position and the new table. */
  function ClaimLoop(requestId: int, inbound: seq<Envelope>, cursor: nat, pending: map<int, Envelope>)
    : (r: (Claim, nat, map<int, Envelope>))
    requires cursor <= |inbound|
    ensures cursor <= r.1 <= |inbound|
    decreases |inbound| - cursor
  {
    var it := Iteration(requestId, inbound, cursor, pending);
    if it.done.Some? then (it.done.value, it.cursor, it.pending)
    else ClaimLoop(requestId, inbound, it.cursor, it.pending)
  }

  /** The caller's own entry in the table is taken and removed; the stream is not read. */
  lemma PendingHitSkipsStream(requestId: int, inbound: seq<Envelope>, cursor: nat, pending: map<int, Envelope>)
    requires cursor <= |inbound| && requestId in pending
    ensures var it := Iteration(requestId, inbound, cursor, pending);
      it.done == Some(Claimed(pending[requestId])) && it.cursor == cursor &&
      requestId !in it.pending && it.pending == pending - {requestId}
  {
  }

  /** A frame for another caller is stored under its own id and the loop goes on;
      a frame for this caller is returned and not stored. */
  lemma ReadFrameRouted(requestId: int, inbound: seq<Envelope>, cursor: nat, pending: map<int, Envelope>)
    requires cursor < |inbound| && requestId !in pending && FrameId(inbound[cursor]).Some?
    ensures var it := Iteration(requestId, inbound, cursor, pending);
      var id := FrameId(inbound[cursor]).value;
      it.cursor == cursor + 1 &&
      (id != requestId ==> it.done.None? && it.pending == pending[id := inbound[cursor]]) &&
      (id == requestId ==> it.done == Some(Claimed(inbound[cursor])) && it.pending == pending)
  {
  }

  /** An iteration changes no entry of the table but the caller's own (removed)
      and the just-read frame's (added); it reads at most one frame, and exactly
      one unless it found the caller's entry or the stream had ended. */
  lemma IterationFrame(requestId: int, inbound: seq<Envelope>, cursor: nat, pending: map<int, Envelope>)
    requires cursor <= |inbound|
    ensures var it := Iteration(requestId, inbound, cursor, pending);
      (it.cursor == cursor + 1 <==> requestId !in pending && cursor < |inbound|) &&
      (it.cursor == cursor <==> !(requestId !in pending && cursor < |inbound|)) &&
      forall id :: id != requestId && (cursor == it.cursor || Some(id) != FrameId(inbound[cursor])) ==>
        (id in pending <==> id in it.pending) && (id in pending ==> pending[id] == it.pending[id])
  {
  }

  /** The claim loop keeps the table keyed by frame ids and returns only the
      caller's own response. */
  lemma {:induction false} ClaimDeliversOwn(requestId: int, inbound: seq<Envelope>, cursor: nat, pending: map<int, Envelope>)
    requires cursor <= |inbound| && Keyed(pending)
    ensures var r := ClaimLoop(requestId, inbound, cursor, pending);
      Keyed(r.2) && (r.0.Claimed? ==> FrameId(r.0.response) == Some(requestId))
    decreases |inbound| - cursor
  {
    var it := Iteration(requestId, inbound, cursor, pending);
    if it.done.None? {
      ClaimDeliversOwn(requestId, inbound, it.cursor, it.pending);
    }
  }

  /** Ids still to come on the stream. */
  ghost predicate Upcoming(requestId: int, inbound: seq<Envelope>, cursor: nat)
  {
    exists k :: cursor <= k < |inbound| && FrameId(inbound[k]) == Some(requestId)
  }

  /** On a stream of well-formed frames, a claim succeeds exactly when the
      caller's response is already in the table or still to come; otherwise
      the caller reads to the end of the stream and the client exits. */
  lemma {:induction false} ClaimSucceedsIff(requestId: int, inbound: seq<Envelope>, cursor: nat, pending: map<int, Envelope>)
    requires cursor <= |inbound|
    requires forall k :: cursor <= k < |inbound| ==> FrameId(inbound[k]).Some?
    ensures var r := ClaimLoop(requestId, inbound, cursor, pending);
      (r.0.Claimed? <==> requestId in pending || Upcoming(requestId, inbound, cursor)) &&
      (r.0.ReadFailure? <==> !r.0.Claimed?) && (r.0.ReadFailure? ==> r.1 == |inbound|)
    decreases |inbound| - cursor
  {
    var it := Iteration(requestId, inbound, cursor, pending);
    if requestId in pending {
    } else if cursor == |inbound| {
    } else if it.done.Some? {
      assert FrameId(inbound[cursor]) == Some(requestId);
    } else {
      ClaimSucceedsIff(requestId, inbound, it.cursor, it.pending);
      assert Upcoming(requestId, inbound, cursor) <==> Upcoming(requestId, inbound, cursor + 1);
    }
  }

  // ---------------------------------------------------------------------
  // Result of a call

  /** What `remoteCall` gives its caller. */
  datatype CallResult =
    | Returned(value: Value)        // the method's result; null for a void method
    | RmiException(message: string) // the server's "exception" string
    | ProcessExit                   // System.exit(1) after an I/O failure
    | UncheckedException            // a cast that throws escapes remoteCall

  /** `getResult`: an "exception" string raises RmiException; otherwise the
      "result" entry, null when absent. */
  function GetResult(response: Envelope): (r: CallResult)
    ensures r.RmiException? <==> Get(response, ExceptionKey).Str?
    ensures r.RmiException? ==> Str(r.message) == Get(response, ExceptionKey)
    ensures r.Returned? <==> Get(response, ExceptionKey).Null?
    ensures r.Returned? ==> r.value == Get(response, ResultKey)
    ensures !r.ProcessExit?
  {
    match CastString(Get(response, ExceptionKey))
    case None => UncheckedException
    case Some(Ref(message)) => RmiException(message)
    case Some(NullRef) => Returned(Get(response, ResultKey))
  }

  /** How `remoteCall` ends once its claim has ended. */
  function Finish(c: Claim): (r: CallResult)
    ensures r.ProcessExit? <==> c.ReadFailure?
    ensures r.Returned? || r.RmiException? ==> c.Claimed?
    ensures c.MalformedFrame? ==> r.UncheckedException?
  {
    match c
    case Claimed(response) => GetResult(response)
    case ReadFailure => ProcessExit
    case MalformedFrame => UncheckedException
  }

  // ---------------------------------------------------------------------
  // The client object

  class ClientImpl {
    var uniqueId: int
    ghost var calls: nat
    /** Everything the server will send on this connection, and how much of it has been read. */
    const inbound: seq<Envelope>
    var cursor: nat
    /** `unusedResponses`. */
    var pending: map<int, Envelope>
    /** The request maps written so far. */
    var outbound: seq<Envelope>

    ghost predicate Valid()
      reads this
    {
      uniqueId == IdAfter(calls) && cursor <= |inbound| && Keyed(pending)
    }

    constructor (inbound: seq<Envelope>)
      ensures Valid() && this.inbound == inbound
      ensures uniqueId == 0 && calls == 0 && cursor == 0 && pending == map[] && outbound == []
    {
      uniqueId := 0;
      calls := 0;
      this.inbound := inbound;
      cursor := 0;
      pending := map[];
      outbound := [];
    }

    /** `getResponse`. */
    method GetResponse(requestId: int) returns (c: Claim)
      requires Valid()
      modifies this`cursor, this`pending
      ensures Valid()
      ensures (c, cursor, pending) == ClaimLoop(requestId, inbound, old(cursor), old(pending))
      ensures c.Claimed? ==> FrameId(c.response) == Some(requestId)
    {
      ClaimDeliversOwn(requestId, inbound, cursor, pending);
      ghost var goal := ClaimLoop(requestId, inbound, cursor, pending);
      var response: Option<Envelope> := None;
      while response.None?
        invariant cursor <= |inbound|
        invariant response.None? ==> ClaimLoop(requestId, inbound, cursor, pending) == goal
        invariant response.Some? ==> (Claimed(response.value), cursor, pending) == goal
        decreases |inbound| - cursor, if response.None? then 1 else 0
      {
        var temp := if requestId in pending then Some(pending[requestId]) else None;
        if temp.Some? {
          response := temp;
          pending := pending - {requestId};
        } else {
          if cursor == |inbound| {
            return ReadFailure;
          }
          var frame := inbound[cursor];
          cursor := cursor + 1;
          var id := FrameId(frame);
          if id.None? {
            return MalformedFrame;
          }
          if id.value == requestId {
            response := Some(frame);
          } else {
            pending := pending[id.value := frame];
          }
        }
      }
      c := Claimed(response.value);
    }

    /** `remoteCall`: take the next id, write the request (a failed write
        exits), claim the response and turn it into the call's result. */
    method RemoteCall(serviceName: Nullable<string>, methodName: Nullable<string>,
                      params: Nullable<seq<Value>>, writeOk: bool) returns (r: CallResult)
      requires Valid()
      modifies this
      ensures Valid()
      ensures calls == old(calls) + 1 && uniqueId == NextId(old(uniqueId))
      ensures outbound == old(outbound) +
        (if writeOk then [CreateRequest(uniqueId, serviceName, methodName, params)] else [])
      ensures !writeOk ==> r == ProcessExit && cursor == old(cursor) && pending == old(pending)
      ensures writeOk ==>
        var claim := ClaimLoop(uniqueId, inbound, old(cursor), old(pending));
        r == Finish(claim.0) && cursor == claim.1 && pending == claim.2
    {
      uniqueId := NextId(uniqueId);
      calls := calls + 1;
      var requestId := uniqueId;
      var request := CreateRequest(requestId, serviceName, methodName, params);
      if !writeOk {
        return ProcessExit;
      }
      outbound := outbound + [request];
      var response := GetResponse(requestId);
      r := Finish(response);
    }
  }
}
