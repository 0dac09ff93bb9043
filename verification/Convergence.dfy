/**
 Eventual and causal clusters at rest.  When no client write takes back its key's version and no request is
 lost, a cluster with nothing in flight holds no write back and all its nodes are at the latest versions.
 */
module Convergence {
  import opened KvStore
  import opened CausalBuffer
  import opened BufferTheory
  import opened Replication
  import opened Cluster
  import opened ClusterViews
  import opened Provenance
  import opened NodeInvariants

  // No write disappears -------------------------------------------------------------------------

  ghost predicate Present(v: View, w: PendingWrite) { w in v.flight || w in v.n.held || w in v.merged }

  /** Every write of another node is in flight to node `i`, held by it or merged into its store. */
  ghost predicate LandedAt(log: seq<PendingWrite>, origin: seq<nat>, i: nat, v: View)
    requires |origin| == |log|
  {
    forall m | 0 <= m < |log| && origin[m] != i :: Present(v, OnTheWire(log[m]))
  }

  lemma PresentStays(mode: AsyncMode, v: View, e: Local, w: PendingWrite)
    requires Present(v, w) && !e.Gone?
    ensures Present(Move(mode, v, e), w)
  {
    if e.Arrival? {
      AbsorbConserves(mode, v.n, e.w);
    }
  }

  lemma LandedStep(mode: AsyncMode, c: State, a: Action, i: nat)
    requires Shape(c) && i < |c.nodes| && LandedAt(c.log, c.origin, i, ViewOf(c, i)) && !Loses(mode, c, a)
    ensures var c' := Step(mode, c, a); LandedAt(c'.log, c'.origin, i, ViewOf(c', i))
  {
    var c' := Step(mode, c, a);
    var e := EventAt(mode, c, a, i);
    StepIsMove(mode, c, a, i);
    LogGrows(mode, c, a);
    EventFacts(mode, c, a, i);
    forall m | 0 <= m < |c'.log| && c'.origin[m] != i ensures Present(ViewOf(c', i), OnTheWire(c'.log[m])) {
      if m < |c.log| {
        PresentStays(mode, ViewOf(c, i), e, OnTheWire(c.log[m]));
      } else {
        assert e.Foreign?;
      }
    }
  }

  /** Without losses no write of another node disappears on its way to, or inside, a node. */
  lemma {:induction false} NoWriteDisappears(mode: AsyncMode, c: State, run: seq<Action>, i: nat)
    requires Initial(c) && i < |c.nodes| && Lossless(mode, c, run)
    ensures var s := Exec(mode, c, run); LandedAt(s.log, s.origin, i, ViewOf(s, i))
  {
    if run == [] {
    } else {
      NoWriteDisappears(mode, c, run[..|run| - 1], i);
      LandedStep(mode, Exec(mode, c, run[..|run| - 1]), run[|run| - 1], i);
    }
  }

  // Nothing stays held --------------------------------------------------------------------------

  ghost predicate AtRestAt(c: State, i: nat)
    requires Shape(c) && i < |c.nodes|
  {
    && LandedAt(c.log, c.origin, i, ViewOf(c, i))
    && Waiting(c.log, c.origin, i, ViewOf(c, i))
    && c.flight[i] == multiset{}
  }

  /** In the order in which writes were issued: what a held write would wait for has been merged. */
  lemma {:induction false} WriteIsReleased(c: State, i: nat, m: nat)
    requires Shape(c) && i < |c.nodes| && m < |c.log| && DepsPrecede(c.log) && AtRestAt(c, i)
    ensures OnTheWire(c.log[m]) !in c.nodes[i].held
    decreases m
  {
    var v, h := ViewOf(c, i), OnTheWire(c.log[m]);
    if h in v.n.held {
      assert Blocked(c.log, c.origin, v.merged, i, h);
      var b, j :| 0 <= b < |c.log| && OnTheWire(c.log[b]) == h && 0 <= j < |h.val.deps|
                  && Missing(c.log, c.origin, v.merged, i, b, h.val.deps[j]);
      var d, first := h.val.deps[j], if b < m then b else m;
      assert d in c.log[first].val.deps && Known(c.log, first, d.key, d.minTs);
      var p :| 0 <= p < first && p < |c.log| && c.log[p].key == d.key && c.log[p].val.ts == d.minTs;
      assert c.origin[p] != i && Present(v, OnTheWire(c.log[p]));
      WriteIsReleased(c, i, p);
      assert false;
    }
  }

  ghost predicate AllApplied(log: seq<PendingWrite>, done: set<PendingWrite>) {
    forall m | 0 <= m < |log| :: OnTheWire(log[m]) in done
  }

  /**
   At rest a node holds nothing back: every write has been applied there.  Of the node's own writes this asks only
   that each keeps its key's version; of the other nodes, nothing.
   */
  lemma NothingIsStuck(mode: AsyncMode, c: State, run: seq<Action>, i: nat)
    requires Initial(c) && i < |c.nodes| && KeepsVersionsAt(mode, c, run, i)
    requires Lossless(mode, c, run) && Quiescent(Exec(mode, c, run))
    ensures Exec(mode, c, run).nodes[i].held == []
    ensures AllApplied(Exec(mode, c, run).log, Exec(mode, c, run).done[i])
  {
    var r := Exec(mode, c, run);
    RunsAreProvenanced(mode, c, run);
    HeldWritesWait(mode, c, run, i);
    HistoriesAreComplete(mode, c, run, i);
    NoWriteDisappears(mode, c, run, i);
    assert Traced(r.log, ViewOf(r, i));
    if r.nodes[i].held != [] {
      var h := r.nodes[i].held[0];
      assert h in ViewOf(r, i).n.held && Logged(r.log, h);
      var m :| 0 <= m < |r.log| && OnTheWire(r.log[m]) == h;
      WriteIsReleased(r, i, m);
    }
    forall m | 0 <= m < |r.log| ensures OnTheWire(r.log[m]) in r.done[i] {
      assert r.origin[m] != i ==> Present(ViewOf(r, i), OnTheWire(r.log[m]));
    }
  }

  // Convergence ---------------------------------------------------------------------------------

  /** Exactly the keys ever written, each at the greatest timestamp issued for it. */
  ghost predicate AtLatestVersions(log: seq<PendingWrite>, d: Data) {
    && (forall m | 0 <= m < |log| :: AtLeast(d, log[m].key, log[m].val.ts))
    && (forall k | k in d :: Known(log, |log|, k, d[k].ts))
  }

  /** The key is at or after every timestamp issued for it. */
  ghost predicate KeyAtLatest(log: seq<PendingWrite>, d: Data, key: string) {
    forall m | 0 <= m < |log| && log[m].key == key :: AtLeast(d, key, log[m].val.ts)
  }

  lemma LatestVersionsAgree(log: seq<PendingWrite>, a: Data, b: Data)
    requires AtLatestVersions(log, a) && AtLatestVersions(log, b)
    ensures SameVersions(a, b)
  {
    LatestBelow(log, a, b);
    LatestBelow(log, b, a);
    forall k | k in a ensures a[k].ts == b[k].ts {
      assert AtLeast(b, k, a[k].ts) && AtLeast(a, k, b[k].ts);
    }
  }

  lemma LatestBelow(log: seq<PendingWrite>, a: Data, b: Data)
    requires AtLatestVersions(log, a) && AtLatestVersions(log, b)
    ensures NotOlder(b, a)
  {
    forall k | k in a ensures AtLeast(b, k, a[k].ts) {
      assert Known(log, |log|, k, a[k].ts);
    }
  }

  lemma RestingNodeIsLatest(log: seq<PendingWrite>, v: View)
    requires Traced(log, v) && Current(v)
    requires AllApplied(log, v.done)
    ensures AtLatestVersions(log, v.n.data)
  {
    forall m | 0 <= m < |log| ensures AtLeast(v.n.data, log[m].key, log[m].val.ts) {
      assert OnTheWire(log[m]) in v.done;
    }
    forall k | k in v.n.data ensures Known(log, |log|, k, v.n.data[k].ts) {
      assert StoredFrom(log, v.done, k, v.n.data[k]);
    }
  }

  /** At rest a node has exactly the keys ever written, each at its latest timestamp. */
  lemma NodeConverges(mode: AsyncMode, c: State, run: seq<Action>, i: nat)
    requires Initial(c) && i < |c.nodes| && KeepsVersionsAt(mode, c, run, i)
    requires Lossless(mode, c, run) && Quiescent(Exec(mode, c, run))
    ensures AtLatestVersions(Exec(mode, c, run).log, Exec(mode, c, run).nodes[i].data)
  {
    var r := Exec(mode, c, run);
    NothingIsStuck(mode, c, run, i);
    RunsAreProvenanced(mode, c, run);
    NodeStaysCurrent(mode, c, run, i);
    assert Traced(r.log, ViewOf(r, i)) && AllApplied(r.log, r.done[i]);
    RestingNodeIsLatest(r.log, ViewOf(r, i));
  }

  /** So any two nodes have the same versions. */
  lemma ClusterConverges(mode: AsyncMode, c: State, run: seq<Action>, i: nat, j: nat)
    requires Initial(c) && KeepsVersions(mode, c, run) && Lossless(mode, c, run) && Quiescent(Exec(mode, c, run))
    requires i < |c.nodes| && j < |c.nodes|
    ensures SameVersions(Exec(mode, c, run).nodes[i].data, Exec(mode, c, run).nodes[j].data)
  {
    var r := Exec(mode, c, run);
    NodeConverges(mode, c, run, i);
    NodeConverges(mode, c, run, j);
    LatestVersionsAgree(r.log, r.nodes[i].data, r.nodes[j].data);
  }
}
