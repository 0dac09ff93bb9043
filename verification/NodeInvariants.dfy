/**
 What one node keeps along every run in which its own writes keep their keys' versions: its versions never
 fall and stay at or above everything it has applied or read.
 */
module NodeInvariants {
  import opened Hlc
  import opened KvStore
  import opened CausalBuffer
  import opened BufferTheory
  import opened Replication
  import opened NodeModel
  import opened Cluster
  import opened ClusterViews
  import opened Provenance

  /** No key of `d` is missing from `d'` or older there. */
  ghost predicate NotOlder(d': Data, d: Data) { forall k | k in d :: AtLeast(d', k, d[k].ts) }

  /** The store is at or above every write applied and every version read. */
  ghost predicate Current(v: View) {
    && (forall x | x in v.done :: AtLeast(v.n.data, x.key, x.val.ts))
    && (forall d | d in v.n.recorded :: AtLeast(v.n.data, d.key, d.minTs))
  }

  lemma NotOlderKeeps(d': Data, d: Data, key: string, ts: Timestamp)
    requires NotOlder(d', d) && AtLeast(d, key, ts)
    ensures AtLeast(d', key, ts)
  {
    CompareIsTotalOrder(d'[key].ts, d[key].ts, ts);
  }

  lemma VersionsNeverFall(mode: AsyncMode, v: View, e: Local)
    requires e.Own? ==> KeepsVersion(v.n, e.w)
    ensures NotOlder(Move(mode, v, e).n.data, v.n.data)
  {
    if e.Arrival? {
      AbsorbConserves(mode, v.n, e.w);
      FoldIsMaximum(v.n.data, Absorb(mode == Causal, v.n, e.w).applied);
    }
  }

  lemma CurrentStep(mode: AsyncMode, v: View, e: Local)
    requires Current(v)
    requires e.Own? ==> KeepsVersion(v.n, e.w)
    ensures Current(Move(mode, v, e))
  {
    var v' := Move(mode, v, e);
    VersionsNeverFall(mode, v, e);
    forall x | x in v'.done ensures AtLeast(v'.n.data, x.key, x.val.ts) {
      if x in v.done {
        NotOlderKeeps(v'.n.data, v.n.data, x.key, x.val.ts);
      } else if e.Arrival? {
        AbsorbConserves(mode, v.n, e.w);
        FoldIsMaximum(v.n.data, Absorb(mode == Causal, v.n, e.w).applied);
      }
    }
    forall d | d in v'.n.recorded ensures AtLeast(v'.n.data, d.key, d.minTs) {
      if d in v.n.recorded {
        NotOlderKeeps(v'.n.data, v.n.data, d.key, d.minTs);
      }
    }
  }

  lemma {:induction false} NodeStaysCurrent(mode: AsyncMode, c: State, run: seq<Action>, i: nat)
    requires Initial(c) && i < |c.nodes| && KeepsVersionsAt(mode, c, run, i)
    ensures Current(ViewOf(Exec(mode, c, run), i))
  {
    if run == [] {
    } else {
      var s, a := Exec(mode, c, run[..|run| - 1]), run[|run| - 1];
      NodeStaysCurrent(mode, c, run[..|run| - 1], i);
      StepIsMove(mode, s, a, i);
      EventFacts(mode, s, a, i);
      CurrentStep(mode, ViewOf(s, i), EventAt(mode, s, a, i));
    }
  }

  /** Along a run continued from any point, a node whose own writes keep their key's version never goes back. */
  lemma {:induction false} VersionsNeverFallOverRun(mode: AsyncMode, c: State, run: seq<Action>, more: seq<Action>,
                                                    i: nat)
    requires Shape(c) && i < |c.nodes| && KeepsVersionsAt(mode, c, run + more, i)
    ensures NotOlder(Exec(mode, c, run + more).nodes[i].data, Exec(mode, c, run).nodes[i].data)
  {
    if more == [] {
      assert run + more == run;
    } else {
      var before := run + more[..|more| - 1];
      assert (run + more)[..|run + more| - 1] == before;
      VersionsNeverFallOverRun(mode, c, run, more[..|more| - 1], i);
      var s, a := Exec(mode, c, before), more[|more| - 1];
      StepIsMove(mode, s, a, i);
      EventFacts(mode, s, a, i);
      VersionsNeverFall(mode, ViewOf(s, i), EventAt(mode, s, a, i));
      var d0 := Exec(mode, c, run).nodes[i].data;
      forall k | k in d0 ensures AtLeast(Exec(mode, c, run + more).nodes[i].data, k, d0[k].ts) {
        NotOlderKeeps(Exec(mode, c, run + more).nodes[i].data, s.nodes[i].data, k, d0[k].ts);
      }
    }
  }

  /** At no moment has node `i` lost a key, or an older version of it, since an earlier moment. */
  ghost predicate NeverOlder(mode: AsyncMode, c: State, run: seq<Action>, i: nat)
    requires Shape(c) && i < |c.nodes|
  {
    forall t, u | 0 <= t <= u <= |run| ::
      NotOlder(Exec(mode, c, run[..u]).nodes[i].data, Exec(mode, c, run[..t]).nodes[i].data)
  }

  lemma {:induction false} KeepsVersionsBefore(mode: AsyncMode, c: State, run: seq<Action>, i: nat, u: nat)
    requires Shape(c) && u <= |run| && KeepsVersionsAt(mode, c, run, i)
    ensures KeepsVersionsAt(mode, c, run[..u], i)
  {
    if u == |run| {
      assert run[..u] == run;
    } else {
      KeepsVersionsBefore(mode, c, run[..|run| - 1], i, u);
      assert run[..|run| - 1][..u] == run[..u];
    }
  }

  lemma NeverOlderBefore(mode: AsyncMode, c: State, run: seq<Action>, i: nat)
    requires Shape(c) && i < |c.nodes| && run != [] && NeverOlder(mode, c, run, i)
    ensures NeverOlder(mode, c, run[..|run| - 1], i)
  {
    var init := run[..|run| - 1];
    forall t, u | 0 <= t <= u <= |init|
      ensures NotOlder(Exec(mode, c, init[..u]).nodes[i].data, Exec(mode, c, init[..t]).nodes[i].data)
    {
      assert init[..u] == run[..u] && init[..t] == run[..t];
    }
  }

  /** A client write before its key's version takes that version back. */
  lemma StaleWriteLowers(mode: AsyncMode, s: State, a: Action, i: nat)
    requires Shape(s) && i < |s.nodes| && a.node == i && Issued(mode, s, a).Some?
    requires NotOlder(Step(mode, s, a).nodes[i].data, s.nodes[i].data)
    ensures KeepsVersion(s.nodes[i], Issued(mode, s, a).value)
  {
    var w := Issued(mode, s, a).value;
    if w.key in s.nodes[i].data {
      assert AtLeast(Step(mode, s, a).nodes[i].data, w.key, s.nodes[i].data[w.key].ts);
    }
  }

  lemma NoneLostBetween(mode: AsyncMode, c: State, run: seq<Action>, i: nat, t: nat, u: nat)
    requires Shape(c) && i < |c.nodes| && t <= u <= |run| && KeepsVersionsAt(mode, c, run, i)
    ensures NotOlder(Exec(mode, c, run[..u]).nodes[i].data, Exec(mode, c, run[..t]).nodes[i].data)
  {
    KeepsVersionsBefore(mode, c, run, i, u);
    assert run[..t] + run[t..u] == run[..u];
    VersionsNeverFallOverRun(mode, c, run[..t], run[t..u], i);
  }

  lemma NeverOlderLastStep(mode: AsyncMode, c: State, run: seq<Action>, i: nat)
    requires Shape(c) && i < |c.nodes| && run != [] && NeverOlder(mode, c, run, i)
    ensures NotOlder(Exec(mode, c, run).nodes[i].data, Exec(mode, c, run[..|run| - 1]).nodes[i].data)
  {
    assert run[..|run|] == run;
  }

  lemma {:induction false} NeverOlderNeedsKeeping(mode: AsyncMode, c: State, run: seq<Action>, i: nat)
    requires Shape(c) && i < |c.nodes| && NeverOlder(mode, c, run, i)
    ensures KeepsVersionsAt(mode, c, run, i)
  {
    if run == [] {
    } else {
      var s, a := Exec(mode, c, run[..|run| - 1]), run[|run| - 1];
      NeverOlderBefore(mode, c, run, i);
      NeverOlderNeedsKeeping(mode, c, run[..|run| - 1], i);
      NeverOlderLastStep(mode, c, run, i);
      if a.node == i && Issued(mode, s, a).Some? {
        StaleWriteLowers(mode, s, a, i);
      }
    }
  }

  /** A node goes back on no key, ever, exactly when none of its own writes is before its key's version. */
  lemma VersionsNeverFallExactly(mode: AsyncMode, c: State, run: seq<Action>, i: nat)
    requires Shape(c) && i < |c.nodes|
    ensures NeverOlder(mode, c, run, i) <==> KeepsVersionsAt(mode, c, run, i)
  {
    if KeepsVersionsAt(mode, c, run, i) {
      forall t, u | 0 <= t <= u <= |run|
        ensures NotOlder(Exec(mode, c, run[..u]).nodes[i].data, Exec(mode, c, run[..t]).nodes[i].data)
      {
        NoneLostBetween(mode, c, run, i, t, u);
      }
    }
    if NeverOlder(mode, c, run, i) {
      NeverOlderNeedsKeeping(mode, c, run, i);
    }
  }

  lemma {:induction false} FreshKeepsVersions(mode: AsyncMode, c: State, run: seq<Action>, i: nat)
    requires Shape(c) && FreshAt(mode, c, run, i)
    ensures KeepsVersionsAt(mode, c, run, i)
  {
    if run != [] {
      FreshKeepsVersions(mode, c, run[..|run| - 1], i);
    }
  }

  // Held writes ---------------------------------------------------------------------------------

  lemma {:induction false} EventualHoldsNothing(c: State, run: seq<Action>, i: nat)
    requires Initial(c) && i < |c.nodes|
    ensures Exec(Eventual, c, run).nodes[i].held == []
  {
    if run == [] {
    } else {
      var s, a := Exec(Eventual, c, run[..|run| - 1]), run[|run| - 1];
      EventualHoldsNothing(c, run[..|run| - 1], i);
      StepIsMove(Eventual, s, a, i);
      assert ViewOf(Exec(Eventual, c, run), i).n == Exec(Eventual, c, run).nodes[i];
    }
  }

  /** A node's own writes, as its peers see them, and those merged into its store are all recorded in `done`. */
  ghost predicate HistoryComplete(c: State, i: nat)
    requires Shape(c) && i < |c.nodes|
  {
    && c.merged[i] <= c.done[i]
    && forall m | 0 <= m < |c.log| && c.origin[m] == i :: OnTheWire(c.log[m]) in c.done[i]
  }

  lemma HistoryStep(mode: AsyncMode, c: State, a: Action, i: nat)
    requires Shape(c) && i < |c.nodes| && HistoryComplete(c, i)
    ensures HistoryComplete(Step(mode, c, a), i)
  {
    LogGrows(mode, c, a);
    StepIsMove(mode, c, a, i);
    EventFacts(mode, c, a, i);
    var v' := ViewOf(Step(mode, c, a), i);
    assert v'.merged == Step(mode, c, a).merged[i] && v'.done == Step(mode, c, a).done[i];
  }

  lemma {:induction false} HistoriesAreComplete(mode: AsyncMode, c: State, run: seq<Action>, i: nat)
    requires Initial(c) && i < |c.nodes|
    ensures HistoryComplete(Exec(mode, c, run), i)
  {
    if run == [] {
    } else {
      HistoriesAreComplete(mode, c, run[..|run| - 1], i);
      HistoryStep(mode, Exec(mode, c, run[..|run| - 1]), run[|run| - 1], i);
    }
  }

  /**
   Node `i` has merged no write of the version that `dep` names, and issued none as one of the first `m` of the log.
   An own write of that version from later on does not count: a local write wakes nothing.
   */
  ghost predicate Missing(log: seq<PendingWrite>, origin: seq<nat>, merged: set<PendingWrite>, i: nat, m: nat,
                          dep: Dependency)
    requires |origin| == |log|
  {
    && (forall x | x in merged :: !(x.key == dep.key && x.val.ts == dep.minTs))
    && (forall p | 0 <= p < m && p < |log| && origin[p] == i :: !(log[p].key == dep.key && log[p].val.ts == dep.minTs))
  }

  /** `h` is a logged write, with a dependency that was missing when it was issued and still is. */
  ghost predicate Blocked(log: seq<PendingWrite>, origin: seq<nat>, merged: set<PendingWrite>, i: nat, h: PendingWrite)
    requires |origin| == |log|
  {
    exists m, j :: 0 <= m < |log| && OnTheWire(log[m]) == h && 0 <= j < |h.val.deps|
                   && Missing(log, origin, merged, i, m, h.val.deps[j])
  }

  ghost predicate Waiting(log: seq<PendingWrite>, origin: seq<nat>, i: nat, v: View)
    requires |origin| == |log|
  {
    forall h | h in v.n.held :: Blocked(log, origin, v.merged, i, h)
  }

  lemma NotReadyIsBlocked(c: State, i: nat, v: View, h: PendingWrite)
    requires Shape(c) && Logged(c.log, h) && Current(v) && v.merged <= v.done && !Ready(v.n.data, h)
    requires forall p | 0 <= p < |c.log| && c.origin[p] == i :: OnTheWire(c.log[p]) in v.done
    ensures Blocked(c.log, c.origin, v.merged, i, h)
  {
    var j :| 0 <= j < |h.val.deps| && !AfterOrEqual(Version(v.n.data, h.val.deps[j].key), h.val.deps[j].minTs);
    var m :| 0 <= m < |c.log| && OnTheWire(c.log[m]) == h;
    forall p | 0 <= p < m && c.origin[p] == i
      ensures !(c.log[p].key == h.val.deps[j].key && c.log[p].val.ts == h.val.deps[j].minTs)
    {
      assert OnTheWire(c.log[p]) in v.done;
    }
    assert Missing(c.log, c.origin, v.merged, i, m, h.val.deps[j]);
  }

  /** Writes issued from now on, even at the node itself, do not unblock anything. */
  lemma BlockedStays(log: seq<PendingWrite>, origin: seq<nat>, merged: set<PendingWrite>, i: nat, h: PendingWrite,
                     w: PendingWrite, o: nat)
    requires |origin| == |log| && Blocked(log, origin, merged, i, h)
    ensures Blocked(log + [w], origin + [o], merged, i, h)
  {
    var m, j :| 0 <= m < |log| && OnTheWire(log[m]) == h && 0 <= j < |h.val.deps|
                && Missing(log, origin, merged, i, m, h.val.deps[j]);
    assert (log + [w])[m] == log[m];
    assert Missing(log + [w], origin + [o], merged, i, m, h.val.deps[j]);
  }

  lemma NoneReadyWaits(c: State, i: nat, v: View)
    requires Shape(c) && Current(v) && v.merged <= v.done && NoneReady(v.n.data, v.n.held)
    requires forall h | h in v.n.held :: Logged(c.log, h)
    requires forall p | 0 <= p < |c.log| && c.origin[p] == i :: OnTheWire(c.log[p]) in v.done
    ensures Waiting(c.log, c.origin, i, v)
  {
    forall h | h in v.n.held ensures Blocked(c.log, c.origin, v.merged, i, h) {
      NotReadyIsBlocked(c, i, v, h);
    }
  }

  lemma WaitingDrained(c: State, i: nat, w: PendingWrite, ts: Timestamp)
    requires Shape(c) && i < |c.nodes| && Traced(c.log, ViewOf(c, i)) && w in c.flight[i]
    requires Current(ViewOf(c, i)) && HistoryComplete(c, i) && Ready(c.nodes[i].data, w)
    ensures Waiting(c.log, c.origin, i, Move(Causal, ViewOf(c, i), Arrival(w, ts)))
  {
    var v := ViewOf(c, i);
    ReceiveAccounts(v.n.data, v.n.held, w);
    CurrentStep(Causal, v, Arrival(w, ts));
    AbsorbConserves(Causal, v.n, w);
    NoneReadyWaits(c, i, Move(Causal, v, Arrival(w, ts)));
  }

  lemma WaitingArrival(mode: AsyncMode, c: State, i: nat, w: PendingWrite, ts: Timestamp)
    requires Shape(c) && i < |c.nodes| && Traced(c.log, ViewOf(c, i)) && w in c.flight[i]
    requires Waiting(c.log, c.origin, i, ViewOf(c, i)) && Current(ViewOf(c, i)) && HistoryComplete(c, i)
    requires mode == Eventual ==> c.nodes[i].held == []
    ensures Waiting(c.log, c.origin, i, Move(mode, ViewOf(c, i), Arrival(w, ts)))
  {
    var v := ViewOf(c, i);
    var v' := Move(mode, v, Arrival(w, ts));
    if mode == Causal {
      assert Logged(c.log, w);
      ReceiveAccounts(v.n.data, v.n.held, w);
      if Ready(v.n.data, w) {
        WaitingDrained(c, i, w, ts);
      } else {
        NotReadyIsBlocked(c, i, v, w);
        assert v'.merged == v.merged && v'.n.held == v.n.held + [w];
      }
    }
  }

  lemma WaitingIssue(log: seq<PendingWrite>, origin: seq<nat>, i: nat, v: View, v': View, w: PendingWrite, o: nat)
    requires |origin| == |log| && Waiting(log, origin, i, v)
    requires v'.n.held == v.n.held && v'.merged == v.merged
    ensures Waiting(log + [w], origin + [o], i, v')
  {
    forall h | h in v.n.held ensures Blocked(log + [w], origin + [o], v.merged, i, h) {
      BlockedStays(log, origin, v.merged, i, h, w, o);
    }
  }

  lemma WaitingStep(mode: AsyncMode, c: State, a: Action, i: nat)
    requires Shape(c) && i < |c.nodes| && Traced(c.log, ViewOf(c, i))
    requires Waiting(c.log, c.origin, i, ViewOf(c, i)) && Current(ViewOf(c, i)) && HistoryComplete(c, i)
    requires mode == Eventual ==> c.nodes[i].held == []
    ensures var c' := Step(mode, c, a); Waiting(c'.log, c'.origin, i, ViewOf(c', i))
  {
    var v, e := ViewOf(c, i), EventAt(mode, c, a, i);
    LogGrows(mode, c, a);
    StepIsMove(mode, c, a, i);
    EventFacts(mode, c, a, i);
    if e.Arrival? {
      WaitingArrival(mode, c, i, e.w, e.ts);
    } else if e.Own? || e.Foreign? {
      WaitingIssue(c.log, c.origin, i, v, Move(mode, v, e), e.w, a.node);
    }
  }

  /**
   Although local writes wake no held write, each held write always lacks a dependency that no local write could have
   supplied in time.  Only the node's own writes matter, and only that they keep their keys' versions.
   */
  lemma {:induction false} HeldWritesWait(mode: AsyncMode, c: State, run: seq<Action>, i: nat)
    requires Initial(c) && i < |c.nodes| && KeepsVersionsAt(mode, c, run, i)
    ensures var s := Exec(mode, c, run); Waiting(s.log, s.origin, i, ViewOf(s, i))
  {
    if run == [] {
    } else {
      var init := run[..|run| - 1];
      HeldWritesWait(mode, c, init, i);
      RunsAreProvenanced(mode, c, init);
      NodeStaysCurrent(mode, c, init, i);
      HistoriesAreComplete(mode, c, init, i);
      if mode == Eventual {
        EventualHoldsNothing(c, init, i);
      }
      assert Traced(Exec(mode, c, init).log, ViewOf(Exec(mode, c, init), i));
      WaitingStep(mode, Exec(mode, c, init), run[|run| - 1], i);
    }
  }
}
