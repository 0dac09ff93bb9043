/**
 Where things come from, in every run: whatever a node stores, holds, has applied, has read or is being
 sent is a write of the log, and a write's dependencies name earlier writes of the log.
 */
module Provenance {
  import opened Hlc
  import opened KvStore
  import opened CausalBuffer
  import opened BufferTheory
  import opened Replication
  import opened NodeModel
  import opened Cluster
  import opened ClusterViews

  /** `w` is a logged write, as the peers of its origin see it. */
  ghost predicate Logged(log: seq<PendingWrite>, w: PendingWrite) {
    exists m :: 0 <= m < |log| && OnTheWire(log[m]) == w
  }

  /** One of the first `n` logged writes has this key and timestamp. */
  ghost predicate Known(log: seq<PendingWrite>, n: nat, key: string, ts: Timestamp) {
    exists m :: 0 <= m < n && m < |log| && log[m].key == key && log[m].val.ts == ts
  }

  /** `v` is what `w` leaves in a store, at its origin or at a peer. */
  predicate Leaves(w: PendingWrite, v: Value) { v == AsStored(w.val) || v == AsStored(OnTheWire(w).val) }

  /** `v` is what a logged write to the key, applied at this node, leaves. */
  ghost predicate StoredFrom(log: seq<PendingWrite>, done: set<PendingWrite>, key: string, v: Value) {
    exists m :: 0 <= m < |log| && log[m].key == key && OnTheWire(log[m]) in done && Leaves(log[m], v)
  }

  ghost predicate Traced(log: seq<PendingWrite>, v: View) {
    && (forall w | w in v.flight :: Logged(log, w))
    && (forall w | w in v.n.held :: Logged(log, w))
    && (forall w | w in v.done :: Logged(log, w))
    && (forall k {:trigger StoredFrom(log, v.done, k, v.n.data[k])} | k in v.n.data ::
          StoredFrom(log, v.done, k, v.n.data[k]))
    && (forall d | d in v.n.recorded :: Known(log, |log|, d.key, d.minTs))
  }

  /** Each dependency of a logged write is the version of an earlier logged write. */
  ghost predicate DepsPrecede(log: seq<PendingWrite>) {
    forall m, d | 0 <= m < |log| && d in log[m].val.deps :: Known(log, m, d.key, d.minTs)
  }

  ghost predicate Provenanced(c: State)
    requires Shape(c)
  {
    DepsPrecede(c.log) && forall i | 0 <= i < |c.nodes| :: Traced(c.log, ViewOf(c, i))
  }

  lemma LoggedStays(log: seq<PendingWrite>, more: PendingWrite, w: PendingWrite)
    requires Logged(log, w)
    ensures Logged(log + [more], w)
  {
    var m :| 0 <= m < |log| && OnTheWire(log[m]) == w;
    assert (log + [more])[m] == log[m];
  }

  lemma KnownStays(log: seq<PendingWrite>, more: PendingWrite, n: nat, key: string, ts: Timestamp)
    requires Known(log, n, key, ts)
    ensures Known(log + [more], n, key, ts) && Known(log + [more], |log| + 1, key, ts)
  {
    var m :| 0 <= m < n && m < |log| && log[m].key == key && log[m].val.ts == ts;
    assert (log + [more])[m] == log[m];
  }

  lemma StoredStays(log: seq<PendingWrite>, more: PendingWrite, done: set<PendingWrite>, done': set<PendingWrite>,
                    key: string, v: Value)
    requires StoredFrom(log, done, key, v) && done <= done'
    ensures StoredFrom(log + [more], done', key, v) && StoredFrom(log, done', key, v)
  {
    var m :| 0 <= m < |log| && log[m].key == key && OnTheWire(log[m]) in done && Leaves(log[m], v);
    assert (log + [more])[m] == log[m];
  }

  lemma TracedLonger(log: seq<PendingWrite>, v: View, w: PendingWrite)
    requires Traced(log, v)
    ensures Traced(log + [w], v)
  {
    forall x | x in v.flight || x in v.n.held || x in v.done ensures Logged(log + [w], x) { LoggedStays(log, w, x); }
    forall k | k in v.n.data ensures StoredFrom(log + [w], v.done, k, v.n.data[k]) {
      StoredStays(log, w, v.done, v.done, k, v.n.data[k]);
    }
    forall d | d in v.n.recorded ensures Known(log + [w], |log| + 1, d.key, d.minTs) {
      KnownStays(log, w, |log|, d.key, d.minTs);
    }
  }

  lemma TracedOwn(mode: AsyncMode, log: seq<PendingWrite>, v: View, w: PendingWrite)
    requires Traced(log, v)
    ensures Traced(log + [w], Move(mode, v, Own(w)))
  {
    TracedLonger(log, v, w);
    var log', v' := log + [w], Move(mode, v, Own(w));
    assert log'[|log|] == w;
    assert Logged(log', OnTheWire(w));
    forall k | k in v'.n.data ensures StoredFrom(log', v'.done, k, v'.n.data[k]) {
      if k != w.key {
        StoredStays(log, w, v.done, v'.done, k, v.n.data[k]);
      }
    }
  }

  lemma TracedArrival(mode: AsyncMode, log: seq<PendingWrite>, v: View, w: PendingWrite, ts: Timestamp)
    requires Traced(log, v) && w in v.flight
    ensures Traced(log, Move(mode, v, Arrival(w, ts)))
  {
    AbsorbConserves(mode, v.n, w);
    var r := Absorb(mode == Causal, v.n, w);
    var v' := Move(mode, v, Arrival(w, ts));
    forall x | x in v'.flight || x in v'.n.held || x in v'.done ensures Logged(log, x) {
    }
    FoldIsMaximum(v.n.data, r.applied);
    forall k | k in v'.n.data ensures StoredFrom(log, v'.done, k, v'.n.data[k]) {
      assert HasSource(v.n.data, r.applied, k, r.data[k]);
      if k in v.n.data && r.data[k] == v.n.data[k] {
        StoredStays(log, w, v.done, v'.done, k, v.n.data[k]);
      } else {
        var p :| p in r.applied && p.key == k && AsStored(p.val) == r.data[k];
        assert Logged(log, p) && p in v'.done;
      }
    }
  }

  lemma TracedRead(mode: AsyncMode, log: seq<PendingWrite>, v: View, key: string)
    requires Traced(log, v)
    ensures Traced(log, Move(mode, v, Read(key)))
  {
    var v' := Move(mode, v, Read(key));
    forall k | k in v'.n.data ensures StoredFrom(log, v'.done, k, v'.n.data[k]) {
      assert StoredFrom(log, v.done, k, v.n.data[k]);
    }
    if key in v.n.data {
      assert StoredFrom(log, v.done, key, v.n.data[key]);
      assert Known(log, |log|, key, v.n.data[key].ts);
    }
  }

  lemma TracedSameNode(log: seq<PendingWrite>, v: View, flight: multiset<PendingWrite>)
    requires Traced(log, v) && forall w | w in flight :: Logged(log, w)
    ensures Traced(log, v.(flight := flight))
  {
    forall k | k in v.n.data ensures StoredFrom(log, v.done, k, v.n.data[k]) {
    }
  }

  lemma DepsStayPreceding(log: seq<PendingWrite>, w: PendingWrite)
    requires DepsPrecede(log) && forall d | d in w.val.deps :: Known(log, |log|, d.key, d.minTs)
    ensures DepsPrecede(log + [w])
  {
    forall m, d | 0 <= m < |log + [w]| && d in (log + [w])[m].val.deps ensures Known(log + [w], m, d.key, d.minTs) {
      KnownStays(log, w, m, d.key, d.minTs);
    }
  }

  lemma TracedStep(mode: AsyncMode, c: State, a: Action, i: nat)
    requires Shape(c) && Provenanced(c) && i < |c.nodes|
    ensures Traced(LogAfter(mode, c, a), Move(mode, ViewOf(c, i), EventAt(mode, c, a, i)))
  {
    EventFacts(mode, c, a, i);
    var e, v := EventAt(mode, c, a, i), ViewOf(c, i);
    assert Traced(c.log, v);
    match e
    case Own(w) => TracedOwn(mode, c.log, v, w);
    case Foreign(w) =>
      TracedLonger(c.log, v, w);
      assert (c.log + [w])[|c.log|] == w;
      TracedSameNode(c.log + [w], v, v.flight + multiset{OnTheWire(w)});
    case Read(key) => TracedRead(mode, c.log, v, key);
    case Arrival(w, ts) => TracedArrival(mode, c.log, v, w, ts);
    case Gone(w) => TracedSameNode(c.log, v, v.flight - multiset{w});
    case Idle =>
  }

  lemma ProvenanceStep(mode: AsyncMode, c: State, a: Action)
    requires Shape(c) && Provenanced(c)
    ensures Provenanced(Step(mode, c, a))
  {
    var c' := Step(mode, c, a);
    LogGrows(mode, c, a);
    forall i | 0 <= i < |c.nodes| ensures Traced(c'.log, ViewOf(c', i)) {
      StepIsMove(mode, c, a, i);
      TracedStep(mode, c, a, i);
    }
    if Issued(mode, c, a).Some? {
      EventFacts(mode, c, a, a.node);
      assert Traced(c.log, ViewOf(c, a.node));
      DepsStayPreceding(c.log, Issued(mode, c, a).value);
    }
  }

  lemma {:induction false} RunsAreProvenanced(mode: AsyncMode, c: State, run: seq<Action>)
    requires Initial(c)
    ensures Provenanced(Exec(mode, c, run))
  {
    if run == [] {
    } else {
      RunsAreProvenanced(mode, c, run[..|run| - 1]);
      ProvenanceStep(mode, Exec(mode, c, run[..|run| - 1]), run[|run| - 1]);
    }
  }
}
