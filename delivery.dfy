/** Several callers sharing one client connection, as a sequential state
    machine: each step is one caller's whole claim loop, taken atomically.
    On a stream whose frames carry distinct ids, every frame read is either
    waiting in the table under its id or was delivered to its owner, exactly
    once. */
module Delivery {
  import opened Wire
  import opened RmiClient

  /** The shared connection state, plus the log of deliveries (caller id,
      response) that the steps so far have made. */
  datatype Mux = Mux(inbound: seq<Envelope>, cursor: nat, pending: map<int, Envelope>,
                     delivered: seq<(int, Envelope)>)

  function Start(inbound: seq<Envelope>): Mux
  {
    Mux(inbound, 0, map[], [])
  }

  /** Every frame the server sends carries an Integer id, and no two carry the same. */
  ghost predicate DistinctIds(inbound: seq<Envelope>)
  {
    (forall k :: 0 <= k < |inbound| ==> FrameId(inbound[k]).Some?) &&
    (forall j, k :: 0 <= j < k < |inbound| ==> FrameId(inbound[j]) != FrameId(inbound[k]))
  }

  /** The ids of the frames read so far. */
  ghost function ReadIds(inbound: seq<Envelope>, cursor: nat): set<int>
    requires cursor <= |inbound|
  {
    set k | 0 <= k < cursor && FrameId(inbound[k]).Some? :: FrameId(inbound[k]).value
  }

  ghost function DeliveredIds(delivered: seq<(int, Envelope)>): set<int>
  {
    set j | 0 <= j < |delivered| :: delivered[j].0
  }

  /** The accounting invariant: the ids read are split between the table and
      the deliveries, with no id in both; table entries and deliveries are
      frames read, each under its own id; no id is delivered twice. */
  ghost predicate Accounted(s: Mux)
  {
    && s.cursor <= |s.inbound|
    && ReadIds(s.inbound, s.cursor) == s.pending.Keys + DeliveredIds(s.delivered)
    && s.pending.Keys !! DeliveredIds(s.delivered)
    && Keyed(s.pending)
    && (forall id :: id in s.pending ==> s.pending[id] in s.inbound[..s.cursor])
    && (forall j :: 0 <= j < |s.delivered| ==>
          FrameId(s.delivered[j].1) == Some(s.delivered[j].0) && s.delivered[j].1 in s.inbound[..s.cursor])
    && (forall i, j :: 0 <= i < j < |s.delivered| ==> s.delivered[i].0 != s.delivered[j].0)
  }

  /** One caller runs its claim loop to the end. None when the claim does not
      deliver: the stream failed and the client exits. */
  function Step(s: Mux, caller: int): (r: Option<Mux>)
    requires s.cursor <= |s.inbound|
    ensures r.Some? ==>
      r.value.inbound == s.inbound && s.cursor <= r.value.cursor <= |s.inbound| &&
      |r.value.delivered| == |s.delivered| + 1 && r.value.delivered[..|s.delivered|] == s.delivered &&
      r.value.delivered[|s.delivered|].0 == caller
  {
    var r := ClaimLoop(caller, s.inbound, s.cursor, s.pending);
    if r.0.Claimed? then Some(Mux(s.inbound, r.1, r.2, s.delivered + [(caller, r.0.response)]))
    else None
  }

  /** Callers' claims, one after another, until one ends the process. */
  function Run(s: Mux, callers: seq<int>): (r: Option<Mux>)
    requires s.cursor <= |s.inbound|
    ensures r.Some? ==>
      r.value.inbound == s.inbound && s.cursor <= r.value.cursor <= |s.inbound| &&
      |r.value.delivered| == |s.delivered| + |callers| && r.value.delivered[..|s.delivered|] == s.delivered &&
      forall j :: 0 <= j < |callers| ==> r.value.delivered[|s.delivered| + j].0 == callers[j]
    decreases |callers|
  {
    if callers == [] then Some(s)
    else
      match Step(s, callers[0])
      case None => None
      case Some(s') => Run(s', callers[1..])
  }

  lemma ReadIdsGrow(inbound: seq<Envelope>, cursor: nat)
    requires cursor < |inbound| && FrameId(inbound[cursor]).Some?
    ensures ReadIds(inbound, cursor + 1) == ReadIds(inbound, cursor) + {FrameId(inbound[cursor]).value}
  {
  }

  lemma FreshId(inbound: seq<Envelope>, cursor: nat)
    requires DistinctIds(inbound) && cursor < |inbound|
    ensures FrameId(inbound[cursor]).value !in ReadIds(inbound, cursor)
  {
    assert forall k :: 0 <= k < cursor ==> FrameId(inbound[k]) != FrameId(inbound[cursor]);
  }

  lemma DeliveredIdsAppend(delivered: seq<(int, Envelope)>, d: (int, Envelope))
    ensures DeliveredIds(delivered + [d]) == DeliveredIds(delivered) + {d.0}
  {
    var e := delivered + [d];
    assert e[|delivered|] == d;
    forall j | 0 <= j < |delivered| ensures e[j] == delivered[j] { }
  }

  lemma DeliveryKeepsIdsDistinct(delivered: seq<(int, Envelope)>, caller: int, resp: Envelope)
    requires forall i, j :: 0 <= i < j < |delivered| ==> delivered[i].0 != delivered[j].0
    requires caller !in DeliveredIds(delivered)
    ensures var d := delivered + [(caller, resp)];
      forall i, j :: 0 <= i < j < |d| ==> d[i].0 != d[j].0
  {
    var d := delivered + [(caller, resp)];
    forall i, j | 0 <= i < j < |d| ensures d[i].0 != d[j].0 {
      if j == |delivered| {
        assert d[i] == delivered[i];
        assert delivered[i].0 in DeliveredIds(delivered);
      } else {
        assert d[i] == delivered[i] && d[j] == delivered[j];
      }
    }
  }

  /** Claiming the caller's entry from the table keeps the accounts. */
  lemma TableClaimKeepsAccounts(s: Mux, caller: int)
    requires Accounted(s) && caller in s.pending
    ensures Accounted(Mux(s.inbound, s.cursor, s.pending - {caller}, s.delivered + [(caller, s.pending[caller])]))
  {
    DeliveredIdsAppend(s.delivered, (caller, s.pending[caller]));
    DeliveryKeepsIdsDistinct(s.delivered, caller, s.pending[caller]);
  }

  /** Reading the next frame and delivering it to its owner keeps the accounts. */
  lemma OwnFrameKeepsAccounts(s: Mux, caller: int)
    requires DistinctIds(s.inbound) && Accounted(s)
    requires s.cursor < |s.inbound| && FrameId(s.inbound[s.cursor]) == Some(caller)
    ensures Accounted(Mux(s.inbound, s.cursor + 1, s.pending, s.delivered + [(caller, s.inbound[s.cursor])]))
  {
    var frame := s.inbound[s.cursor];
    ReadIdsGrow(s.inbound, s.cursor);
    FreshId(s.inbound, s.cursor);
    assert s.inbound[..s.cursor + 1] == s.inbound[..s.cursor] + [frame];
    DeliveredIdsAppend(s.delivered, (caller, frame));
    DeliveryKeepsIdsDistinct(s.delivered, caller, frame);
  }

  /** Reading the next frame and stashing it under its own id keeps the accounts. */
  lemma StashKeepsAccounts(s: Mux)
    requires DistinctIds(s.inbound) && Accounted(s) && s.cursor < |s.inbound|
    ensures var frame := s.inbound[s.cursor];
      Accounted(Mux(s.inbound, s.cursor + 1, s.pending[FrameId(frame).value := frame], s.delivered))
  {
    var frame := s.inbound[s.cursor];
    ReadIdsGrow(s.inbound, s.cursor);
    FreshId(s.inbound, s.cursor);
    assert s.inbound[..s.cursor + 1] == s.inbound[..s.cursor] + [frame];
  }

  /** A claim loop, from any accounted state, leaves an accounted state once
      its response is logged as delivered to the caller. */
  lemma {:induction false} ClaimKeepsAccounts(caller: int, s: Mux)
    requires DistinctIds(s.inbound) && Accounted(s)
    ensures var r := ClaimLoop(caller, s.inbound, s.cursor, s.pending);
      r.0.Claimed? ==> Accounted(Mux(s.inbound, r.1, r.2, s.delivered + [(caller, r.0.response)]))
    decreases |s.inbound| - s.cursor
  {
    if caller in s.pending {
      TableClaimKeepsAccounts(s, caller);
    } else if s.cursor < |s.inbound| {
      var frame := s.inbound[s.cursor];
      if FrameId(frame) == Some(caller) {
        OwnFrameKeepsAccounts(s, caller);
      } else {
        StashKeepsAccounts(s);
        ClaimKeepsAccounts(caller, Mux(s.inbound, s.cursor + 1, s.pending[FrameId(frame).value := frame], s.delivered));
      }
    }
  }

  lemma StartAccounted(inbound: seq<Envelope>)
    ensures Accounted(Start(inbound))
  {
    assert ReadIds(inbound, 0) == {};
  }

  /** Any run of callers on a stream of distinct ids, from a fresh connection,
      keeps the accounts: no frame read is lost, none is delivered twice, and
      every delivery goes to the caller whose id the frame carries. */
  lemma {:induction false} RunKeepsAccounts(s: Mux, callers: seq<int>)
    requires DistinctIds(s.inbound) && Accounted(s)
    ensures Run(s, callers).Some? ==> Accounted(Run(s, callers).value)
    decreases |callers|
  {
    if callers != [] {
      ClaimKeepsAccounts(callers[0], s);
      var next := Step(s, callers[0]);
      if next.Some? {
        RunKeepsAccounts(next.value, callers[1..]);
      }
    }
  }

  /** The three delivery guarantees for every run from a fresh connection. */
  lemma Delivered(inbound: seq<Envelope>, callers: seq<int>)
    requires DistinctIds(inbound)
    ensures var r := Run(Start(inbound), callers);
      r.Some? ==>
        r.value.inbound == inbound && r.value.cursor <= |inbound| &&
        // every frame read is waiting in the table or was delivered, not both
        (forall k :: 0 <= k < r.value.cursor ==>
           var id := FrameId(inbound[k]).value;
           (id in r.value.pending) != (id in DeliveredIds(r.value.delivered))) &&
        // each delivery went to its owner
        (forall j :: 0 <= j < |r.value.delivered| ==>
           FrameId(r.value.delivered[j].1) == Some(r.value.delivered[j].0)) &&
        // and no id was delivered twice
        (forall i, j :: 0 <= i < j < |r.value.delivered| ==>
           r.value.delivered[i].0 != r.value.delivered[j].0)
  {
    StartAccounted(inbound);
    RunKeepsAccounts(Start(inbound), callers);
    var r := Run(Start(inbound), callers);
    if r.Some? {
      forall k | 0 <= k < r.value.cursor
        ensures var id := FrameId(inbound[k]).value;
          (id in r.value.pending) != (id in DeliveredIds(r.value.delivered))
      {
        assert FrameId(inbound[k]).value in ReadIds(inbound, r.value.cursor);
      }
    }
  }
}
