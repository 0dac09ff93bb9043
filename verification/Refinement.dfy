/**
 The node object's methods are the steps of the transition systems: whatever their contracts allow is what
 the cluster does.
 */
module Refinement {
  import opened Results
  import opened Hlc
  import opened CausalBuffer
  import opened Replication
  import opened NodeModel
  import opened Server
  import Cluster
  import StrongMode

  /** The place of node `j` in the peer list of node `i`: all other nodes, in order. */
  function PeerIndex(i: nat, j: nat): nat
    requires i != j
  {
    if j < i then j else j - 1
  }

  /** Each request that node `i` sent decodes to what the step put in flight to that peer. */
  ghost predicate SentIsInFlight(before: seq<multiset<PendingWrite>>, after: seq<multiset<PendingWrite>>, i: nat,
                                 sent: seq<ReplicateRequest>)
  {
    && i < |before| == |after| && |sent| == |before| - 1
    && forall j | 0 <= j < |before| && j != i ::
         var req := sent[PeerIndex(i, j)];
         req.ts.Some? && after[j] == before[j] + multiset{Decode(req)}
  }

  lemma SentIsBroadcast(flight: seq<multiset<PendingWrite>>, i: nat, w: PendingWrite, sent: seq<ReplicateRequest>)
    requires i < |flight| && |sent| == |flight| - 1
    requires forall k | 0 <= k < |sent| :: sent[k].ts.Some? && Decode(sent[k]) == w
    ensures SentIsInFlight(flight, Cluster.Broadcast(flight, i, w), i, sent)
  {
  }

  /** A put or delete of the object, in eventual or causal mode, is the cluster's step at that node. */
  lemma WriteRefinesStep(mode: Cluster.AsyncMode, c: Cluster.State, a: Cluster.Action, n: Node,
                         after: NodeState, acks: seq<bool>, r: Result<Timestamp>, sent: seq<ReplicateRequest>)
    requires Cluster.Shape(c) && Cluster.Enabled(c, a) && Cluster.IsClientWrite(a)
    requires n.mode == mode && n.handler == NewHandler(mode, |c.nodes| - 1)
    requires n.WriteDone(c.nodes[a.node], after, Cluster.Stamped(mode, c.nodes[a.node], a), acks, r, sent)
    ensures var s := Cluster.Step(mode, c, a);
            && s.nodes == c.nodes[a.node := after]
            && (r.Ok? <==> Cluster.Issued(mode, c, a).Some?)
            && (r.Ok? ==> SentIsInFlight(c.flight, s.flight, a.node, sent))
            && (r.Err? ==> s == c && sent == [])
  {
    var n0 := c.nodes[a.node];
    var stamped := Cluster.Stamped(mode, n0, a);
    if stamped.Ok? {
      if a.Put? {
        RequestsCarryTheWrite(mode, |c.nodes| - 1, n0, a.key, a.data, false, a.now);
      } else {
        RequestsCarryTheWrite(mode, |c.nodes| - 1, n0, a.key, [], true, a.now);
      }
      SentIsBroadcast(c.flight, a.node, OnTheWire(stamped.value), sent);
    }
  }

  /** Serving a request of the object is the cluster's delivery of the write that the request decodes to. */
  lemma ReplicateRefinesStep(mode: Cluster.AsyncMode, c: Cluster.State, i: nat, n: Node,
                             req: ReplicateRequest, now: int64, after: NodeState, r: Result<bool>)
    requires Cluster.Shape(c) && i < |c.nodes| && req.ts.Some? && Decode(req) in c.flight[i]
    requires n.mode == mode && (mode == Causal ==> n.buffer != null)
    requires n.ReplicateDone(c.nodes[i], after, req, now, r)
    ensures var s := Cluster.Step(mode, c, Cluster.Deliver(i, Decode(req), now));
            && s.nodes == c.nodes[i := after]
            && s.flight == c.flight[i := c.flight[i] - multiset{Decode(req)}]
            && (r.Err? <==> Cluster.Loses(mode, c, Cluster.Deliver(i, Decode(req), now)))
  {
  }

  /** Deliveries and losses while a strong write waits change neither the origin nor what it waits for. */
  lemma {:induction false} NetworkLeavesOrigin(c: StrongMode.State, o: nat, net: seq<StrongMode.Action>)
    requires StrongMode.Shape(c, o) && StrongMode.Ordered(c, o)
    requires forall a | a in net :: a.Deliver? || a.Lose?
    ensures var mid := StrongMode.Exec(c, o, net);
            && StrongMode.Ordered(mid, o)
            && mid.nodes[o] == c.nodes[o] && mid.completed == c.completed
            && (mid.call.Some? <==> c.call.Some?)
            && (mid.call.Some? ==> mid.call.value.w == c.call.value.w)
  {
    if net == [] {
    } else {
      var init, a := net[..|net| - 1], net[|net| - 1];
      assert a in net;
      NetworkLeavesOrigin(c, o, init);
      NetworkStep(StrongMode.Exec(c, o, init), o, a);
    }
  }

  lemma NetworkStep(c: StrongMode.State, o: nat, a: StrongMode.Action)
    requires StrongMode.Shape(c, o) && StrongMode.Ordered(c, o) && (a.Deliver? || a.Lose?)
    ensures var next := StrongMode.Step(c, o, a);
            && StrongMode.Ordered(next, o)
            && next.nodes[o] == c.nodes[o] && next.completed == c.completed
            && (next.call.Some? <==> c.call.Some?)
            && (next.call.Some? ==> next.call.value.w == c.call.value.w)
  {
    if StrongMode.Enabled(c, a) {
      if a.Deliver? {
        StrongMode.OrderedServe(c, o, a.node, a.write, a.now, a.heard);
      } else {
        StrongMode.OrderedLose(c, o, a.node, a.write);
      }
    }
  }

  /** The requests of a strong write decode to what `Begin` puts in flight, one for each peer. */
  lemma StrongRequestsAreCalls(c: StrongMode.State, o: nat, a: StrongMode.Action, n: Node, after: NodeState,
                               acks: seq<bool>, r: Result<Timestamp>, sent: seq<ReplicateRequest>)
    requires StrongMode.Shape(c, o) && c.call.None? && a.Begin?
    requires n.mode == Strong && n.handler == NewHandler(Strong, |c.nodes| - 1)
    requires n.WriteDone(c.nodes[o], after, Stamp(Strong, c.nodes[o], a.key, a.data, a.deleted, a.now), acks, r, sent)
    ensures var s := StrongMode.Step(c, o, a);
            && (s.call.None? ==> s == c && sent == [])
            && (s.call.Some? ==> SentIsInFlight(c.flight, s.flight, o, sent))
  {
    var stamped := Stamp(Strong, c.nodes[o], a.key, a.data, a.deleted, a.now);
    if stamped.Ok? {
      RequestsCarryTheWrite(Strong, |c.nodes| - 1, c.nodes[o], a.key, a.data, a.deleted, a.now);
      var s := StrongMode.Step(c, o, a);
      forall j | 0 <= j < |c.nodes| && j != o
        ensures s.flight[j] == c.flight[j] + multiset{OnTheWire(stamped.value)}
        ensures var req := sent[PeerIndex(o, j)]; req.ts.Some? && Decode(req) == OnTheWire(stamped.value)
      {
        assert StrongMode.Quorum(c) > 1;
      }
    }
  }

  /**
   Serving a request of the object in strong mode is the delivery of a call.  The origin counts it exactly when it
   hears a success, while the write is still pending, for the write that the request decodes to.
   */
  lemma StrongReplicateRefinesServe(c: StrongMode.State, o: nat, i: nat, n: Node, req: ReplicateRequest, now: int64,
                                    heard: bool, after: NodeState, r: Result<bool>)
    requires StrongMode.Shape(c, o) && i < |c.nodes| && req.ts.Some? && Decode(req) in c.flight[i]
    requires n.mode == Strong && n.ReplicateDone(c.nodes[i], after, req, now, r)
    ensures var s := StrongMode.Step(c, o, StrongMode.Deliver(i, Decode(req), now, heard));
            && s.nodes == c.nodes[i := after]
            && s.flight == c.flight[i := c.flight[i] - multiset{Decode(req)}]
            && s.completed == c.completed
            && (s.call.Some? <==> c.call.Some?)
            && (c.call.Some? ==>
                  var counted := heard && r == Ok(true) && OnTheWire(c.call.value.w) == Decode(req);
                  && s.call.value.w == c.call.value.w
                  && s.call.value.acks == (if counted then c.call.value.acks[i := true] else c.call.value.acks))
  {
  }

  /**
   A strong write of the object is `Begin`, any traffic `net`, and `Finish`: what it sends is what `Begin` puts in
   flight, and its result and final state are the origin's, when it is told the acknowledgements of the traffic.
   */
  lemma StrongWriteRefinesCall(c: StrongMode.State, o: nat, a: StrongMode.Action, net: seq<StrongMode.Action>, n: Node,
                               after: NodeState, acks: seq<bool>, r: Result<Timestamp>, sent: seq<ReplicateRequest>)
    requires StrongMode.Shape(c, o) && StrongMode.Ordered(c, o) && c.call.None? && a.Begin?
    requires forall x | x in net :: x.Deliver? || x.Lose?
    requires n.mode == Strong && n.handler == NewHandler(Strong, |c.nodes| - 1)
    requires var stamped := Stamp(Strong, c.nodes[o], a.key, a.data, a.deleted, a.now);
             n.WriteDone(c.nodes[o], after, stamped, acks, r, sent)
    requires var mid := StrongMode.Exec(StrongMode.Step(c, o, a), o, net);
             mid.call.Some? ==> StrongMode.PeerAcks(mid.call.value.acks, o) == acks
    ensures var s := StrongMode.Step(c, o, a);
            if s.call.Some? then SentIsInFlight(c.flight, s.flight, o, sent) else s == c && sent == []
    ensures var done := StrongMode.Step(StrongMode.Exec(StrongMode.Step(c, o, a), o, net), o, StrongMode.Finish);
            && done.nodes[o] == after
            && (r.Ok? <==> |done.completed| == |c.completed| + 1)
            && (r.Err? <==> done.completed == c.completed)
  {
    StrongRequestsAreCalls(c, o, a, n, after, acks, r, sent);
    StrongMode.OrderedStart(c, o, a);
    NetworkLeavesOrigin(StrongMode.Step(c, o, a), o, net);
  }
}
