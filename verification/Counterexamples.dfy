/**
 Runs that show why the conditions of the theorems are there.  Each is a short schedule of two nodes
 whose wall clocks stand still, at 5 where nothing else is said, and none loses a request.
 */
module Counterexamples {
  import opened Results
  import opened Hlc
  import opened KvStore
  import opened CausalBuffer
  import opened Replication
  import opened NodeModel
  import opened Cluster
  import opened ClusterViews
  import opened Provenance
  import opened CausalClosure

  /** Two nodes whose wall clocks stand still at `wall`. */
  function Pair(wall: int64): (c: State)
    ensures Initial(c)
  {
    State([NewNode(wall), NewNode(wall)], [multiset{}, multiset{}], [], [], [{}, {}], [{}, {}])
  }

  function T(logical: int32): Timestamp { Timestamp(5, logical) }

  function W(key: string, data: Bytes, logical: int32, deps: seq<Dependency>): PendingWrite {
    PendingWrite(key, Value(data, T(logical), deps, false))
  }

  /** A picture of the pair; the recorded history is left out. */
  datatype Picture = Picture(n0: NodeState, n1: NodeState, to0: multiset<PendingWrite>, to1: multiset<PendingWrite>)

  ghost predicate Looks(c: State, p: Picture) {
    && Shape(c) && |c.nodes| == 2
    && c.nodes[0] == p.n0 && c.flight[0] == p.to0
    && c.nodes[1] == p.n1 && c.flight[1] == p.to1
  }

  /** The run loses nothing and leaves the pair looking like `p`. */
  ghost predicate Reaches(mode: AsyncMode, wall: int64, run: seq<Action>, p: Picture) {
    Lossless(mode, Pair(wall), run) && Looks(Exec(mode, Pair(wall), run), p)
  }

  lemma Extend(mode: AsyncMode, wall: int64, run: seq<Action>, a: Action, p: Picture, q: Picture)
    requires Reaches(mode, wall, run, p)
    requires var c := Exec(mode, Pair(wall), run); Looks(Step(mode, c, a), q) && !Loses(mode, c, a)
    ensures Reaches(mode, wall, run + [a], q)
  {
    assert (run + [a])[..|run + [a]| - 1] == run;
  }

  lemma Start(mode: AsyncMode, wall: int64)
    ensures Reaches(mode, wall, [], Picture(NewNode(wall), NewNode(wall), multiset{}, multiset{}))
  {
  }

  lemma Put0(mode: AsyncMode, wall: int64, run: seq<Action>, p: Picture, w: PendingWrite, n: NodeState)
    requires Reaches(mode, wall, run, p) && p.n0.clock.logical >= 0 && w.val.data != []
    requires Stamp(mode, p.n0, w.key, w.val.data, false, wall) == Ok(w) && n == Commit(AfterStamp(mode, p.n0, w), w)
    ensures Reaches(mode, wall, run + [Put(0, w.key, w.val.data, wall)], p.(n0 := n, to1 := p.to1 + multiset{w}))
  {
    assert OnTheWire(w) == w;
    Extend(mode, wall, run, Put(0, w.key, w.val.data, wall), p, p.(n0 := n, to1 := p.to1 + multiset{w}));
  }

  lemma Put1(mode: AsyncMode, wall: int64, run: seq<Action>, p: Picture, w: PendingWrite, n: NodeState)
    requires Reaches(mode, wall, run, p) && p.n1.clock.logical >= 0 && w.val.data != []
    requires Stamp(mode, p.n1, w.key, w.val.data, false, wall) == Ok(w) && n == Commit(AfterStamp(mode, p.n1, w), w)
    ensures Reaches(mode, wall, run + [Put(1, w.key, w.val.data, wall)], p.(n1 := n, to0 := p.to0 + multiset{w}))
  {
    assert OnTheWire(w) == w;
    Extend(mode, wall, run, Put(1, w.key, w.val.data, wall), p, p.(n1 := n, to0 := p.to0 + multiset{w}));
  }

  lemma Get0(mode: AsyncMode, wall: int64, run: seq<Action>, p: Picture, key: string, n: NodeState)
    requires Reaches(mode, wall, run, p) && n == AfterRead(mode, p.n0, key)
    ensures Reaches(mode, wall, run + [Get(0, key)], p.(n0 := n))
  {
    Extend(mode, wall, run, Get(0, key), p, p.(n0 := n));
  }

  lemma Deliver0(mode: AsyncMode, wall: int64, run: seq<Action>, p: Picture, w: PendingWrite, n: NodeState)
    requires Reaches(mode, wall, run, p) && w in p.to0 && p.n0.clock.logical >= 0
    requires AfterReplicate(mode == Causal, p.n0, w, wall) == Ok(n)
    ensures Reaches(mode, wall, run + [Deliver(0, w, wall)], p.(n0 := n, to0 := p.to0 - multiset{w}))
  {
    Extend(mode, wall, run, Deliver(0, w, wall), p, p.(n0 := n, to0 := p.to0 - multiset{w}));
  }

  lemma Deliver1(mode: AsyncMode, wall: int64, run: seq<Action>, p: Picture, w: PendingWrite, n: NodeState)
    requires Reaches(mode, wall, run, p) && w in p.to1 && p.n1.clock.logical >= 0
    requires AfterReplicate(mode == Causal, p.n1, w, wall) == Ok(n)
    ensures Reaches(mode, wall, run + [Deliver(1, w, wall)], p.(n1 := n, to1 := p.to1 - multiset{w}))
  {
    Extend(mode, wall, run, Deliver(1, w, wall), p, p.(n1 := n, to1 := p.to1 - multiset{w}));
  }

  lemma LooksAtRest(c: State, p: Picture)
    requires Looks(c, p)
    ensures c.nodes == [p.n0, p.n1]
    ensures p.to0 == p.to1 == multiset{} ==> Quiescent(c)
  {
    assert |c.flight| == 2;
  }

  /** What a run leaves, read off its picture. */
  lemma AtTheEnd(mode: AsyncMode, wall: int64, run: seq<Action>, p: Picture)
    requires Reaches(mode, wall, run, p)
    ensures Lossless(mode, Pair(wall), run)
    ensures Exec(mode, Pair(wall), run).nodes == [p.n0, p.n1]
    ensures p.to0 == p.to1 == multiset{} ==> Quiescent(Exec(mode, Pair(wall), run))
  {
    LooksAtRest(Exec(mode, Pair(wall), run), p);
  }

  // A clock tie ---------------------------------------------------------------------------------

  function K(n: int32): PendingWrite { W("k", [1], n, []) }

  function Y(): PendingWrite { W("y", [2], 4, [Dependency("k", T(3))]) }

  function Origin(): NodeState { NodeState(T(4), map["k" := K(3).val, "y" := Y().val], [], []) }

  function Replica(logical: int32, k: PendingWrite, held: seq<PendingWrite>): NodeState {
    NodeState(T(logical), map["k" := k.val], held, [])
  }

  /**
   Node 1 receives (5, 3) at clock (5, 0), moves only to (5, 1), and stamps its own write to the key (5, 2).
   At rest the nodes disagree on the version of `k`, and a write that depends on (5, 3) is held for good.
   */
  lemma TieBreaksConvergence() returns (run: seq<Action>)
    ensures Lossless(Causal, Pair(5), run) && Quiescent(Exec(Causal, Pair(5), run))
    ensures var r := Exec(Causal, Pair(5), run);
            && "k" in r.nodes[0].data && r.nodes[0].data["k"].ts == T(3)
            && "k" in r.nodes[1].data && r.nodes[1].data["k"].ts == T(2)
            && r.nodes[1].held == [Y()] && "y" !in r.nodes[1].data
  {
    run := TieRun7();
    assert Looks(Exec(Causal, Pair(5), run),
                 Picture(Origin().(clock := T(5)), Replica(5, K(2), [Y()]), multiset{}, multiset{}));
  }

  lemma TieRun1() returns (run: seq<Action>)
    ensures Reaches(Causal, 5, run, Picture(NodeState(T(3), map["k" := K(3).val], [], []), NewNode(5),
                                         multiset{}, multiset{K(1), K(2), K(3)}))
  {
    Start(Causal, 5);
    var p := Picture(NewNode(5), NewNode(5), multiset{}, multiset{});
    Put0(Causal, 5, [], p, K(1), Replica(1, K(1), []));
    run := [] + [Put(0, "k", [1], 5)];
    Put0(Causal, 5, run, p.(n0 := Replica(1, K(1), []), to1 := multiset{K(1)}), K(2), Replica(2, K(2), []));
    run := run + [Put(0, "k", [1], 5)];
    Put0(Causal, 5, run, p.(n0 := Replica(2, K(2), []), to1 := multiset{K(1), K(2)}), K(3), Replica(3, K(3), []));
    run := run + [Put(0, "k", [1], 5)];
  }

  lemma TieRun2() returns (run: seq<Action>)
    ensures Reaches(Causal, 5, run, Picture(Origin(), NewNode(5), multiset{}, multiset{K(1), K(2), K(3), Y()}))
  {
    run := TieRun1();
    var read := NodeState(T(3), map["k" := K(3).val], [], [Dependency("k", T(3))]);
    var p := Picture(Replica(3, K(3), []), NewNode(5), multiset{}, multiset{K(1), K(2), K(3)});
    Get0(Causal, 5, run, p, "k", read);
    run := run + [Get(0, "k")];
    Put0(Causal, 5, run, p.(n0 := read), Y(), Origin());
    run := run + [Put(0, "y", [2], 5)];
  }

  lemma FirstArrival()
    ensures AfterReplicate(true, NewNode(5), K(3), 5) == Ok(Replica(1, K(3), []))
  {
    assert Sweep(map["k" := K(3).val], []) == Progress(map["k" := K(3).val], [], []);
  }

  lemma TieRun3() returns (run: seq<Action>)
    ensures Reaches(Causal, 5, run, Picture(Origin(), Replica(1, K(3), []), multiset{}, multiset{K(1), K(2), Y()}))
  {
    run := TieRun2();
    FirstArrival();
    Deliver1(Causal, 5, run, Picture(Origin(), NewNode(5), multiset{}, multiset{K(1), K(2), K(3), Y()}), K(3),
             Replica(1, K(3), []));
    run := run + [Deliver(1, K(3), 5)];
  }

  lemma TieRun4() returns (run: seq<Action>)
    ensures Reaches(Causal, 5, run, Picture(Origin(), Replica(2, K(2), []), multiset{K(2)}, multiset{K(1), K(2), Y()}))
  {
    run := TieRun3();
    Put1(Causal, 5, run, Picture(Origin(), Replica(1, K(3), []), multiset{}, multiset{K(1), K(2), Y()}), K(2),
         Replica(2, K(2), []));
    run := run + [Put(1, "k", [1], 5)];
  }

  /** An arrival that is itself refused still sweeps the held list, and finds `Y` not ready. */
  lemma StaleArrival(l: int32, n: int32)
    requires 0 <= l < 5 && 1 <= n <= 2
    ensures AfterReplicate(true, Replica(l, K(2), [Y()]), K(n), 5) == Ok(Replica(l + 1, K(2), [Y()]))
  {
    var d: Data := map["k" := K(2).val];
    assert ApplyOne(d, K(n)) == d;
    assert !Ready(d, Y()) by { assert Y().val.deps[0] == Dependency("k", T(3)); }
    assert Sweep(d, [Y()]) == Progress(d, [Y()], []) by { assert [Y()][..0] == []; }
  }

  lemma YIsHeld()
    ensures AfterReplicate(true, Replica(2, K(2), []), Y(), 5) == Ok(Replica(3, K(2), [Y()]))
  {
    var d: Data := map["k" := K(2).val];
    assert !Ready(d, Y()) by { assert Y().val.deps[0] == Dependency("k", T(3)); }
    assert ReceiveWrite(d, [], Y()) == Progress(d, [Y()], []) by { assert [] + [Y()] == [Y()]; }
  }

  lemma TieRun5() returns (run: seq<Action>)
    ensures Reaches(Causal, 5, run, Picture(Origin(), Replica(3, K(2), [Y()]), multiset{K(2)}, multiset{K(1), K(2)}))
  {
    run := TieRun4();
    YIsHeld();
    Deliver1(Causal, 5, run, Picture(Origin(), Replica(2, K(2), []), multiset{K(2)}, multiset{K(1), K(2), Y()}), Y(),
             Replica(3, K(2), [Y()]));
    run := run + [Deliver(1, Y(), 5)];
  }

  lemma TieRun6() returns (run: seq<Action>)
    ensures Reaches(Causal, 5, run, Picture(Origin(), Replica(5, K(2), [Y()]), multiset{K(2)}, multiset{}))
  {
    run := TieRun5();
    StaleArrival(3, 1);
    Deliver1(Causal, 5, run, Picture(Origin(), Replica(3, K(2), [Y()]), multiset{K(2)}, multiset{K(1), K(2)}), K(1),
             Replica(4, K(2), [Y()]));
    run := run + [Deliver(1, K(1), 5)];
    StaleArrival(4, 2);
    Deliver1(Causal, 5, run, Picture(Origin(), Replica(4, K(2), [Y()]), multiset{K(2)}, multiset{K(2)}), K(2),
             Replica(5, K(2), [Y()]));
    run := run + [Deliver(1, K(2), 5)];
  }

  lemma TieRun7() returns (run: seq<Action>)
    ensures Reaches(Causal, 5, run, Picture(Origin().(clock := T(5)), Replica(5, K(2), [Y()]), multiset{}, multiset{}))
  {
    run := TieRun6();
    Deliver0(Causal, 5, run, Picture(Origin(), Replica(5, K(2), [Y()]), multiset{K(2)}, multiset{}), K(2),
             Origin().(clock := T(5)));
    run := run + [Deliver(0, K(2), 5)];
  }

  // Equal timestamps ----------------------------------------------------------------------------

  function Sole(logical: int32, w: PendingWrite): NodeState { NodeState(T(logical), map[w.key := w.val], [], []) }

  /** Two nodes issue the same timestamp for one key: at rest each keeps its own value for good. */
  lemma EqualTimestampsKeepContentsApart() returns (run: seq<Action>)
    ensures Lossless(Eventual, Pair(5), run) && Quiescent(Exec(Eventual, Pair(5), run))
    ensures var r := Exec(Eventual, Pair(5), run);
            && "k" in r.nodes[0].data && "k" in r.nodes[1].data
            && r.nodes[0].data["k"].ts == r.nodes[1].data["k"].ts
            && r.nodes[0].data["k"].data != r.nodes[1].data["k"].data
  {
    run := EqualRun();
  }

  /** A node keeps its own value when the other's has the same timestamp. */
  lemma EqualArrival(own: PendingWrite, other: PendingWrite)
    requires own.key == other.key && own.val.ts == other.val.ts == T(1)
    ensures AfterReplicate(false, Sole(1, own), other, 5) == Ok(Sole(2, own))
  {
    assert ApplyOne(Sole(1, own).data, other) == Sole(1, own).data;
  }

  lemma EqualPuts(w: PendingWrite, u: PendingWrite) returns (run: seq<Action>)
    requires w == W("k", [1], 1, []) && u == W("k", [2], 1, [])
    ensures Reaches(Eventual, 5, run, Picture(Sole(1, w), Sole(1, u), multiset{u}, multiset{w}))
  {
    Start(Eventual, 5);
    Put0(Eventual, 5, [], Picture(NewNode(5), NewNode(5), multiset{}, multiset{}), w, Sole(1, w));
    run := [] + [Put(0, "k", [1], 5)];
    Put1(Eventual, 5, run, Picture(Sole(1, w), NewNode(5), multiset{}, multiset{w}), u, Sole(1, u));
    run := run + [Put(1, "k", [2], 5)];
  }

  lemma EqualRun() returns (run: seq<Action>)
    ensures Reaches(Eventual, 5, run,
                    Picture(Sole(2, W("k", [1], 1, [])), Sole(2, W("k", [2], 1, [])), multiset{}, multiset{}))
  {
    var w, u := W("k", [1], 1, []), W("k", [2], 1, []);
    run := EqualPuts(w, u);
    EqualArrival(u, w);
    EqualArrival(w, u);
    Deliver1(Eventual, 5, run, Picture(Sole(1, w), Sole(1, u), multiset{u}, multiset{w}), w, Sole(2, u));
    run := run + [Deliver(1, w, 5)];
    Deliver0(Eventual, 5, run, Picture(Sole(1, w), Sole(2, u), multiset{u}, multiset{}), u, Sole(2, w));
    run := run + [Deliver(0, u, 5)];
  }

  // A stale write to a key that others depend on ------------------------------------------------

  function Y5(): PendingWrite { W("y", [2], 5, [Dependency("k", T(4))]) }

  function Origin5(): NodeState { NodeState(T(5), map["k" := K(4).val, "y" := Y5().val], [], []) }

  function Holder(logical: int32, k: PendingWrite): NodeState {
    NodeState(T(logical), map["k" := k.val, "y" := Y5().val], [], [])
  }

  /**
   Node 1 has applied `y`, which depends on version (5, 4) of `k`, and then takes that version back with a write of
   its own: what it has applied is no longer closed under dependencies.
   */
  lemma StaleWriteOpensClosure() returns (run: seq<Action>)
    ensures Lossless(Causal, Pair(5), run)
    ensures var d := Exec(Causal, Pair(5), run).nodes[1].data;
            && Lookup(d, "y") == Some(Y5().val) && !DepsSatisfied(d, Y5().val.deps)
    ensures !Closed(ViewOf(Exec(Causal, Pair(5), run), 1))
  {
    run := StaleRun3();
    var r := Exec(Causal, Pair(5), run);
    assert r.nodes[1] == Holder(3, K(3));
    assert Y5().val.deps[0] == Dependency("k", T(4));
    RunsAreProvenanced(Causal, Pair(5), run);
    AppliedBehind(r, 1, "y");
  }

  /** A stored value that is not a tombstone belongs to an applied write with its dependencies. */
  lemma AppliedBehind(c: State, i: nat, key: string)
    requires Shape(c) && Provenanced(c) && i < |c.nodes| && key in c.nodes[i].data
    requires !c.nodes[i].data[key].deleted && !DepsSatisfied(c.nodes[i].data, c.nodes[i].data[key].deps)
    ensures !Closed(ViewOf(c, i))
  {
    var v := c.nodes[i].data[key];
    assert Traced(c.log, ViewOf(c, i));
    assert StoredFrom(c.log, c.done[i], key, v);
    var m :| 0 <= m < |c.log| && OnTheWire(c.log[m]) in c.done[i] && Leaves(c.log[m], v);
    LeavesDeps(c.log[m], v);
  }

  lemma LeavesDeps(w: PendingWrite, v: Value)
    requires Leaves(w, v) && !v.deleted
    ensures v.deps == OnTheWire(w).val.deps
  {
  }

  lemma StaleRun1() returns (run: seq<Action>)
    ensures Reaches(Causal, 5, run, Picture(Origin5(), NewNode(5), multiset{}, multiset{K(1), K(2), K(3), K(4), Y5()}))
  {
    run := TieRun1();
    var sent := multiset{K(1), K(2), K(3)};
    var read := NodeState(T(4), map["k" := K(4).val], [], [Dependency("k", T(4))]);
    var p := Picture(Replica(3, K(3), []), NewNode(5), multiset{}, sent);
    Put0(Causal, 5, run, p, K(4), Replica(4, K(4), []));
    run := run + [Put(0, "k", [1], 5)];
    p := p.(n0 := Replica(4, K(4), []), to1 := sent + multiset{K(4)});
    Get0(Causal, 5, run, p, "k", read);
    run := run + [Get(0, "k")];
    Put0(Causal, 5, run, p.(n0 := read), Y5(), Origin5());
    run := run + [Put(0, "y", [2], 5)];
  }

  lemma StaleRun2() returns (run: seq<Action>)
    ensures Reaches(Causal, 5, run, Picture(Origin5(), Holder(2, K(4)), multiset{}, multiset{K(1), K(2), K(3)}))
  {
    run := StaleRun1();
    ArrivalsAreReady();
    var p := Picture(Origin5(), NewNode(5), multiset{}, multiset{K(1), K(2), K(3), K(4), Y5()});
    Deliver1(Causal, 5, run, p, K(4), Replica(1, K(4), []));
    run := run + [Deliver(1, K(4), 5)];
    p := p.(n1 := Replica(1, K(4), []), to1 := multiset{K(1), K(2), K(3), Y5()});
    Deliver1(Causal, 5, run, p, Y5(), Holder(2, K(4)));
    run := run + [Deliver(1, Y5(), 5)];
  }

  lemma ArrivalsAreReady()
    ensures AfterReplicate(true, NewNode(5), K(4), 5) == Ok(Replica(1, K(4), []))
    ensures AfterReplicate(true, Replica(1, K(4), []), Y5(), 5) == Ok(Holder(2, K(4)))
  {
    assert Sweep(map["k" := K(4).val], []) == Progress(map["k" := K(4).val], [], []);
    assert Sweep(Holder(2, K(4)).data, []) == Progress(Holder(2, K(4)).data, [], []);
    assert Ready(map["k" := K(4).val], Y5());
    assert ApplyOne(map["k" := K(4).val], Y5()) == Holder(2, K(4)).data;
  }

  lemma StaleRun3() returns (run: seq<Action>)
    ensures Reaches(Causal, 5, run, Picture(Origin5(), Holder(3, K(3)), multiset{K(3)}, multiset{K(1), K(2), K(3)}))
  {
    run := StaleRun2();
    Put1(Causal, 5, run, Picture(Origin5(), Holder(2, K(4)), multiset{}, multiset{K(1), K(2), K(3)}), K(3),
         Holder(3, K(3)));
    run := run + [Put(1, "k", [1], 5)];
  }

  // Before the epoch ----------------------------------------------------------------------------

  function E(key: string, data: Bytes, logical: int32, deps: seq<Dependency>): PendingWrite {
    PendingWrite(key, Value(data, Timestamp(-5, logical), deps, false))
  }

  function EarlySchedule(): seq<Action> {
    [Put(0, "a", [1], -5), Get(0, "a"), Put(0, "b", [2], -5), Deliver(1, EarlyB(), -5)]
  }

  /** A chain whose first write is stamped before the epoch: a key that is missing counts as late enough. */
  lemma EarlyChainIsInverted()
    ensures Lossless(Causal, Pair(-5), EarlySchedule())
    ensures var seen := Exec(Causal, Pair(-5), EarlySchedule()).nodes[1].data;
            Lookup(seen, "b") == Some(EarlyB().val) && Lookup(seen, "a").None?
  {
    EarlyRun();
    AtTheEnd(Causal, -5, EarlySchedule(), EarlyEnd());
  }

  function EarlyA(): PendingWrite { E("a", [1], 1, []) }

  function EarlyB(): PendingWrite { E("b", [2], 2, [Dependency("a", Timestamp(-5, 1))]) }

  function EarlyOrigin(): NodeState {
    NodeState(Timestamp(-5, 2), map["a" := EarlyA().val, "b" := EarlyB().val], [], [])
  }

  function EarlyReplica(): NodeState { NodeState(Timestamp(-5, 1), map["b" := EarlyB().val], [], []) }

  function EarlyEnd(): Picture { Picture(EarlyOrigin(), EarlyReplica(), multiset{}, multiset{EarlyA()}) }

  lemma EarlyPutA()
    ensures Reaches(Causal, -5, [Put(0, "a", [1], -5)],
                    Picture(NodeState(Timestamp(-5, 1), map["a" := EarlyA().val], [], []), NewNode(-5),
                            multiset{}, multiset{EarlyA()}))
  {
    Start(Causal, -5);
    Put0(Causal, -5, [], Picture(NewNode(-5), NewNode(-5), multiset{}, multiset{}), EarlyA(),
         NodeState(Timestamp(-5, 1), map["a" := EarlyA().val], [], []));
    assert [] + [Put(0, "a", [1], -5)] == [Put(0, "a", [1], -5)];
  }

  lemma EarlyPutB()
    ensures Reaches(Causal, -5, [Put(0, "a", [1], -5)] + [Get(0, "a")] + [Put(0, "b", [2], -5)],
                    Picture(EarlyOrigin(), NewNode(-5), multiset{}, multiset{EarlyA(), EarlyB()}))
  {
    EarlyPutA();
    var wrote := NodeState(Timestamp(-5, 1), map["a" := EarlyA().val], [], []);
    var read := wrote.(recorded := [Dependency("a", Timestamp(-5, 1))]);
    var p := Picture(wrote, NewNode(-5), multiset{}, multiset{EarlyA()});
    Get0(Causal, -5, [Put(0, "a", [1], -5)], p, "a", read);
    Put0(Causal, -5, [Put(0, "a", [1], -5)] + [Get(0, "a")], p.(n0 := read), EarlyB(), EarlyOrigin());
  }

  lemma EarlyRun()
    ensures Reaches(Causal, -5, EarlySchedule(), EarlyEnd())
  {
    EarlyPutB();
    EarlyArrival();
    Deliver1(Causal, -5, [Put(0, "a", [1], -5)] + [Get(0, "a")] + [Put(0, "b", [2], -5)],
             Picture(EarlyOrigin(), NewNode(-5), multiset{}, multiset{EarlyA(), EarlyB()}), EarlyB(), EarlyReplica());
    assert [Put(0, "a", [1], -5)] + [Get(0, "a")] + [Put(0, "b", [2], -5)] + [Deliver(1, EarlyB(), -5)]
           == EarlySchedule();
  }

  lemma EarlyArrival()
    ensures AfterReplicate(true, NewNode(-5), EarlyB(), -5) == Ok(EarlyReplica())
  {
    var b := EarlyB();
    assert Ready(map[], b);
    assert ApplyOne(map[], b) == map["b" := b.val];
    assert Sweep(map["b" := b.val], []) == Progress(map["b" := b.val], [], []);
  }

  // Empty values --------------------------------------------------------------------------------

  function EmptyW(): PendingWrite { W("k", [], 1, []) }

  function EmptyEnd(): Picture {
    Picture(Sole(1, EmptyW()), NodeState(T(1), map["k" := Tombstone(T(1))], [], []), multiset{}, multiset{})
  }

  /** An empty value is found at the node that put it, and deleted at the other. */
  lemma EmptyValueKeepsContentsApart() returns (run: seq<Action>)
    ensures run == [Put(0, "k", [], 5), Deliver(1, OnTheWire(EmptyW()), 5)]
    ensures Lossless(Eventual, Pair(5), run) && Quiescent(Exec(Eventual, Pair(5), run))
    ensures var r := Exec(Eventual, Pair(5), run);
            && Lookup(r.nodes[0].data, "k") == Some(EmptyW().val)
            && "k" in r.nodes[1].data && Lookup(r.nodes[1].data, "k").None?
  {
    EmptyRun();
    run := [Put(0, "k", [], 5)] + [Deliver(1, OnTheWire(EmptyW()), 5)];
    AtTheEnd(Eventual, 5, run, EmptyEnd());
  }

  lemma EmptyRun()
    ensures Reaches(Eventual, 5, [Put(0, "k", [], 5)] + [Deliver(1, OnTheWire(EmptyW()), 5)], EmptyEnd())
  {
    var p := Picture(NewNode(5), NewNode(5), multiset{}, multiset{});
    var q := p.(n0 := Sole(1, EmptyW()), to1 := multiset{OnTheWire(EmptyW())});
    Start(Eventual, 5);
    Extend(Eventual, 5, [], Put(0, "k", [], 5), p, q);
    assert [] + [Put(0, "k", [], 5)] == [Put(0, "k", [], 5)];
    Deliver1(Eventual, 5, [Put(0, "k", [], 5)], q, OnTheWire(EmptyW()), EmptyEnd().n1);
  }

  // Eventual mode -------------------------------------------------------------------------------

  /** In eventual mode a node can show the second write of a peer and not the first, though the peer read it between. */
  lemma EventualModeInvertsChains() returns (run: seq<Action>)
    ensures run == [Put(0, "a", [1], 5), Get(0, "a"), Put(0, "b", [2], 5), Deliver(1, W("b", [2], 2, []), 5)]
    ensures Lossless(Eventual, Pair(5), run)
    ensures var seen := Exec(Eventual, Pair(5), run).nodes[1].data;
            Lookup(seen, "b") == Some(W("b", [2], 2, []).val) && Lookup(seen, "a").None?
  {
    ChainRun();
    run := [Put(0, "a", [1], 5)] + [Get(0, "a")] + [Put(0, "b", [2], 5)] + [Deliver(1, W("b", [2], 2, []), 5)];
  }

  lemma ChainRun()
    ensures var wa, wb := W("a", [1], 1, []), W("b", [2], 2, []);
            Reaches(Eventual, 5, [Put(0, "a", [1], 5)] + [Get(0, "a")] + [Put(0, "b", [2], 5)] + [Deliver(1, wb, 5)],
                    Picture(NodeState(T(2), map["a" := wa.val, "b" := wb.val], [], []), Sole(1, wb),
                            multiset{}, multiset{wa}))
  {
    var wa, wb := W("a", [1], 1, []), W("b", [2], 2, []);
    Start(Eventual, 5);
    Put0(Eventual, 5, [], Picture(NewNode(5), NewNode(5), multiset{}, multiset{}), wa, Sole(1, wa));
    var r1 := [Put(0, "a", [1], 5)];
    assert [] + r1 == r1;
    Get0(Eventual, 5, r1, Picture(Sole(1, wa), NewNode(5), multiset{}, multiset{wa}), "a", Sole(1, wa));
    var both := NodeState(T(2), map["a" := wa.val, "b" := wb.val], [], []);
    Put0(Eventual, 5, r1 + [Get(0, "a")], Picture(Sole(1, wa), NewNode(5), multiset{}, multiset{wa}), wb, both);
    Deliver1(Eventual, 5, r1 + [Get(0, "a")] + [Put(0, "b", [2], 5)],
             Picture(both, NewNode(5), multiset{}, multiset{wa, wb}), wb, Sole(1, wb));
  }
}
