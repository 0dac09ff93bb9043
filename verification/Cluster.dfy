/**
 A full mesh of nodes in eventual or causal mode, as a transition system.

 A run is any sequence of actions: client requests at any node, deliveries of in-flight requests in any
 order, and lost requests.  A client request is one atomic step, and every wall-clock reading is an
 arbitrary input of the action that takes it.
 */
module Cluster {
  import opened Results
  import opened Hlc
  import opened KvStore
  import opened CausalBuffer
  import opened Replication
  import opened NodeModel

  type AsyncMode = m: Mode | m != Strong witness Eventual

  /**
   `flight[i]` holds the writes travelling to node `i`, as `i` decodes them.  The other fields only record history:
   the writes issued so far, in order, and the node that issued each; and, for each node, the replicated writes
   handed to its store, and all its writes, replicated or its own.
   */
  datatype State = State(
    nodes: seq<NodeState>,
    flight: seq<multiset<PendingWrite>>,
    log: seq<PendingWrite>,
    origin: seq<nat>,
    merged: seq<set<PendingWrite>>,
    done: seq<set<PendingWrite>>)

  ghost predicate Shape(c: State) {
    && |c.flight| == |c.merged| == |c.done| == |c.nodes|
    && |c.origin| == |c.log|
    && forall i | 0 <= i < |c.nodes| :: c.nodes[i].clock.logical >= 0
  }

  /** Every node fresh from its constructor, each with its own first reading of its wall clock. */
  ghost predicate Initial(c: State) {
    && Shape(c)
    && c.log == []
    && forall i | 0 <= i < |c.nodes| ::
         c.nodes[i] == NewNode(c.nodes[i].clock.wall) && c.flight[i] == multiset{} && c.merged[i] == c.done[i] == {}
  }

  datatype Action =
    | Put(node: nat, key: string, data: Bytes, now: int64)
    | Delete(node: nat, key: string, now: int64)
    | Get(node: nat, key: string)
    | Deliver(node: nat, write: PendingWrite, now: int64)
    | Lose(node: nat, write: PendingWrite)

  /** An action that is not enabled leaves the cluster as it is. */
  predicate Enabled(c: State, a: Action)
    requires |c.flight| == |c.nodes|
  {
    a.node < |c.nodes| && (a.Deliver? || a.Lose? ==> a.write in c.flight[a.node])
  }

  predicate IsClientWrite(a: Action) { a.Put? || a.Delete? }

  predicate Writes(a: Action, key: string) { IsClientWrite(a) && a.key == key }

  function Stamped(mode: AsyncMode, n: NodeState, a: Action): Result<PendingWrite>
    requires IsClientWrite(a) && n.clock.logical >= 0
  {
    match a
    case Put(_, key, data, now) => Stamp(mode, n, key, data, false, now)
    case Delete(_, key, now) => Stamp(mode, n, key, [], true, now)
  }

  function Broadcast(flight: seq<multiset<PendingWrite>>, from: nat, w: PendingWrite): seq<multiset<PendingWrite>> {
    seq(|flight|, j requires 0 <= j < |flight| => if j == from then flight[j] else flight[j] + multiset{w})
  }

  function Issue(mode: AsyncMode, c: State, i: nat, w: PendingWrite): State
    requires |c.flight| == |c.done| == |c.nodes| && i < |c.nodes|
  {
    State(c.nodes[i := Commit(AfterStamp(mode, c.nodes[i], w), w)],
          Broadcast(c.flight, i, OnTheWire(w)),
          c.log + [w],
          c.origin + [i],
          c.merged,
          c.done[i := c.done[i] + {OnTheWire(w)}])
  }

  function Take(c: State, i: nat, w: PendingWrite): State
    requires |c.flight| == |c.nodes| && i < |c.nodes|
  {
    c.(flight := c.flight[i := c.flight[i] - multiset{w}])
  }

  /** A delivery that the clock refuses is a lost request: nobody sends it again. */
  function Accept(mode: AsyncMode, c: State, i: nat, w: PendingWrite, now: int64): State
    requires |c.flight| == |c.merged| == |c.done| == |c.nodes| && i < |c.nodes| && c.nodes[i].clock.logical >= 0
  {
    var r := AfterReplicate(mode == Causal, c.nodes[i], w, now);
    if r.Err? then Take(c, i, w) else
    var applied := Elements(Absorb(mode == Causal, c.nodes[i], w).applied);
    Take(c, i, w).(nodes := c.nodes[i := r.value],
                   merged := c.merged[i := c.merged[i] + applied],
                   done := c.done[i := c.done[i] + applied])
  }

  function Step(mode: AsyncMode, c: State, a: Action): (r: State)
    requires Shape(c)
    ensures Shape(r) && |r.nodes| == |c.nodes|
  {
    if !Enabled(c, a) then c
    else if IsClientWrite(a) then
      var s := Stamped(mode, c.nodes[a.node], a);
      if s.Err? then c else Issue(mode, c, a.node, s.value)
    else if a.Get? then c.(nodes := c.nodes[a.node := AfterRead(mode, c.nodes[a.node], a.key)])
    else if a.Deliver? then Accept(mode, c, a.node, a.write, a.now)
    else Take(c, a.node, a.write)
  }

  function Exec(mode: AsyncMode, c: State, run: seq<Action>): (r: State)
    requires Shape(c)
    ensures Shape(r) && |r.nodes| == |c.nodes|
  {
    if run == [] then c else Step(mode, Exec(mode, c, run[..|run| - 1]), run[|run| - 1])
  }

  /** The write a client request at this point issues, if it issues one. */
  function Issued(mode: AsyncMode, c: State, a: Action): Option<PendingWrite>
    requires Shape(c)
  {
    if !Enabled(c, a) || !IsClientWrite(a) || Stamped(mode, c.nodes[a.node], a).Err? then None
    else Some(Stamped(mode, c.nodes[a.node], a).value)
  }

  // Conditions on runs --------------------------------------------------------------------------

  /** A request is lost here: by the network, or because the receiving clock refuses its timestamp. */
  predicate Loses(mode: AsyncMode, c: State, a: Action)
    requires Shape(c)
  {
    Enabled(c, a) && (a.Lose? || (a.Deliver? && AfterReplicate(mode == Causal, c.nodes[a.node], a.write, a.now).Err?))
  }

  predicate Lossless(mode: AsyncMode, c: State, run: seq<Action>)
    requires Shape(c)
  {
    run == [] || (Lossless(mode, c, run[..|run| - 1])
                  && !Loses(mode, Exec(mode, c, run[..|run| - 1]), run[|run| - 1]))
  }

  /** The delivery at which the node's clock does not pass the incoming timestamp. */
  predicate TieDelivery(c: State, a: Action)
    requires Shape(c)
  {
    Enabled(c, a) && a.Deliver? && Tie(c.nodes[a.node].clock, a.write.val.ts, a.now)
  }

  predicate TieFreeAt(mode: AsyncMode, c: State, run: seq<Action>, i: nat)
    requires Shape(c)
  {
    run == [] || (TieFreeAt(mode, c, run[..|run| - 1], i)
                  && (run[|run| - 1].node == i ==> !TieDelivery(Exec(mode, c, run[..|run| - 1]), run[|run| - 1])))
  }

  /** A client write that is not before the version of its key at its node. */
  ghost predicate KeepsVersion(n: NodeState, w: PendingWrite) {
    w.key in n.data ==> AfterOrEqual(w.val.ts, n.data[w.key].ts)
  }

  ghost predicate KeepsVersionsAt(mode: AsyncMode, c: State, run: seq<Action>, i: nat)
    requires Shape(c)
  {
    run == [] ||
    (var s, a := Exec(mode, c, run[..|run| - 1]), run[|run| - 1];
     && KeepsVersionsAt(mode, c, run[..|run| - 1], i)
     && (a.node == i && Issued(mode, s, a).Some? ==> KeepsVersion(s.nodes[i], Issued(mode, s, a).value)))
  }

  /** The condition of convergence. */
  ghost predicate KeepsVersions(mode: AsyncMode, c: State, run: seq<Action>)
    requires Shape(c)
  {
    forall i | 0 <= i < |c.nodes| :: KeepsVersionsAt(mode, c, run, i)
  }

  /** A client write that is after everything its node stores or holds. */
  ghost predicate FreshWrite(n: NodeState, w: PendingWrite) {
    && (forall k | k in n.data :: After(w.val.ts, n.data[k].ts))
    && (forall h | h in n.held :: After(w.val.ts, h.val.ts))
  }

  ghost predicate FreshAt(mode: AsyncMode, c: State, run: seq<Action>, i: nat)
    requires Shape(c)
  {
    run == [] ||
    (var s, a := Exec(mode, c, run[..|run| - 1]), run[|run| - 1];
     && FreshAt(mode, c, run[..|run| - 1], i)
     && (a.node == i && Issued(mode, s, a).Some? ==> FreshWrite(s.nodes[i], Issued(mode, s, a).value)))
  }

  predicate NoWritesAt(run: seq<Action>, i: nat) {
    forall a | a in run :: IsClientWrite(a) ==> a.node != i
  }

  ghost predicate Quiescent(c: State) {
    forall i | 0 <= i < |c.flight| :: c.flight[i] == multiset{}
  }
}
