/**
 When the buffer of a causal node is empty at rest, whatever its own writes have taken back.  A local write wakes
 nothing, so what counts is what arrives after the node's last own write: something has to start a drain, and what
 is due has to be releasable from the contents of that moment.
 */
module HeldWrites {
  import opened Hlc
  import opened CausalBuffer
  import opened BufferTheory
  import opened Confluence
  import opened Replication
  import opened Cluster
  import opened ClusterViews
  import opened Provenance
  import opened CausalClosure
  import opened KeyConvergence

  /** What is due is in flight, held, or one of the writes `ps` that have been merged, each when it was ready. */
  ghost predicate Merged(v1: View, n1: nat, log: seq<PendingWrite>, v: View, ps: seq<PendingWrite>) {
    && v.n.data == ApplyAll(v1.n.data, ps) && Derivation(v1.n.data, ps)
    && (forall y :: Due(v1, n1, log, y) <==> y in v.flight || y in v.n.held || y in ps)
    && (forall y | y in v.flight :: Arriving(v1, n1, log, y))
  }

  /** Before the first merge nothing that has arrived was ready; from then on nothing that is held is. */
  ghost predicate Swept(v1: View, n1: nat, log: seq<PendingWrite>, v: View, ps: seq<PendingWrite>) {
    if ps == [] then
      && (forall y | Arriving(v1, n1, log, y) :: y in v.flight || !Ready(v1.n.data, y))
      && (forall h | h in v1.n.held :: h in v.n.held)
    else
      && NoneReady(v.n.data, v.n.held)
      && Arriving(v1, n1, log, ps[0]) && Ready(v1.n.data, ps[0])
  }

  lemma MergedArrival(v1: View, n1: nat, log: seq<PendingWrite>, v: View, ps: seq<PendingWrite>,
                      w: PendingWrite, ts: Timestamp)
    requires Merged(v1, n1, log, v, ps) && w in v.flight
    ensures Merged(v1, n1, log, Move(Causal, v, Arrival(w, ts)), ps + ReceiveWrite(v.n.data, v.n.held, w).applied)
  {
    AbsorbConserves(Causal, v.n, w);
    var r := ReceiveWrite(v.n.data, v.n.held, w);
    ApplyAllAppend(v1.n.data, ps, r.applied);
    DerivationAppend(v1.n.data, ps, r.applied);
  }

  lemma SweptArrival(v1: View, n1: nat, log: seq<PendingWrite>, v: View, ps: seq<PendingWrite>,
                     w: PendingWrite, ts: Timestamp)
    requires Merged(v1, n1, log, v, ps) && Swept(v1, n1, log, v, ps) && w in v.flight
    ensures Swept(v1, n1, log, Move(Causal, v, Arrival(w, ts)), ps + ReceiveWrite(v.n.data, v.n.held, w).applied)
  {
    ReceiveAccounts(v.n.data, v.n.held, w);
    var r := ReceiveWrite(v.n.data, v.n.held, w);
    if !Ready(v.n.data, w) {
      assert ps + r.applied == ps;
    } else if ps == [] {
      assert (ps + r.applied)[0] == w;
    }
  }

  lemma ArrivingStays(v1: View, n1: nat, log: seq<PendingWrite>, w: PendingWrite)
    requires n1 <= |log|
    ensures forall y :: Arriving(v1, n1, log + [w], y) <==> Arriving(v1, n1, log, y) || y == OnTheWire(w)
  {
    forall y ensures Arriving(v1, n1, log + [w], y) <==> Arriving(v1, n1, log, y) || y == OnTheWire(w) {
      DueStays(v1, n1, log, Foreign(w), y);
    }
  }

  lemma ForeignKeeps(v1: View, n1: nat, log: seq<PendingWrite>, v: View, ps: seq<PendingWrite>, w: PendingWrite)
    requires Merged(v1, n1, log, v, ps) && Swept(v1, n1, log, v, ps) && n1 <= |log|
    ensures Merged(v1, n1, log + [w], Move(Causal, v, Foreign(w)), ps)
    ensures Swept(v1, n1, log + [w], Move(Causal, v, Foreign(w)), ps)
  {
    ArrivingStays(v1, n1, log, w);
  }

  lemma MoveMerges(v1: View, n1: nat, log: seq<PendingWrite>, v: View, ps: seq<PendingWrite>, e: Local)
    returns (qs: seq<PendingWrite>)
    requires Merged(v1, n1, log, v, ps) && Swept(v1, n1, log, v, ps) && n1 <= |log|
    requires !e.Own? && !e.Gone? && (e.Arrival? ==> e.w in v.flight)
    ensures Merged(v1, n1, Extended(log, e), Move(Causal, v, e), qs)
    ensures Swept(v1, n1, Extended(log, e), Move(Causal, v, e), qs)
  {
    qs := ps;
    if e.Arrival? {
      qs := ps + ReceiveWrite(v.n.data, v.n.held, e.w).applied;
      MergedArrival(v1, n1, log, v, ps, e.w, e.ts);
      SweptArrival(v1, n1, log, v, ps, e.w, e.ts);
    } else if e.Foreign? {
      ForeignKeeps(v1, n1, log, v, ps, e.w);
    }
  }

  lemma StepMerges(v1: View, n1: nat, c: State, a: Action, i: nat, ps: seq<PendingWrite>)
    returns (qs: seq<PendingWrite>)
    requires Shape(c) && i < |c.nodes| && n1 <= |c.log| && !Loses(Causal, c, a) && (IsClientWrite(a) ==> a.node != i)
    requires Merged(v1, n1, c.log, ViewOf(c, i), ps) && Swept(v1, n1, c.log, ViewOf(c, i), ps)
    ensures var c' := Step(Causal, c, a);
            Merged(v1, n1, c'.log, ViewOf(c', i), qs) && Swept(v1, n1, c'.log, ViewOf(c', i), qs)
  {
    var e := EventAt(Causal, c, a, i);
    StepIsMove(Causal, c, a, i);
    LogGrows(Causal, c, a);
    EventFacts(Causal, c, a, i);
    qs := MoveMerges(v1, n1, c.log, ViewOf(c, i), ps, e);
  }

  lemma {:induction false} RunMerges(c: State, run: seq<Action>, more: seq<Action>, i: nat)
    returns (ps: seq<PendingWrite>)
    requires Shape(c) && i < |c.nodes| && NoWritesAt(more, i) && Lossless(Causal, c, run + more)
    ensures var s, r := Exec(Causal, c, run), Exec(Causal, c, run + more);
            && Merged(ViewOf(s, i), |s.log|, r.log, ViewOf(r, i), ps)
            && Swept(ViewOf(s, i), |s.log|, r.log, ViewOf(r, i), ps)
  {
    if more == [] {
      assert run + more == run;
      ps := [];
    } else {
      var init, a := more[..|more| - 1], more[|more| - 1];
      assert (run + more)[..|run + more| - 1] == run + init && a in more;
      assert Lossless(Causal, c, run + init) && !Loses(Causal, Exec(Causal, c, run + init), a);
      var qs := RunMerges(c, run, init, i);
      LogOnlyGrows(Causal, c, run, init);
      var s := Exec(Causal, c, run);
      ps := StepMerges(ViewOf(s, i), |s.log|, Exec(Causal, c, run + init), a, i, qs);
    }
  }

  /** A write that is ready at that moment is still to arrive: it will start a drain. */
  ghost predicate DrainWillStart(v1: View, n1: nat, log: seq<PendingWrite>) {
    exists y :: Arriving(v1, n1, log, y) && Ready(v1.n.data, y)
  }

  /** `q` contains every due write whose dependencies the contents of the moment and `q` itself meet. */
  ghost predicate DueClosed(v1: View, n1: nat, log: seq<PendingWrite>, q: set<PendingWrite>) {
    forall y | Due(v1, n1, log, y) && AllCovered(v1.n.data, q, y.val.deps) :: y in q
  }

  /** `y` belongs to the least such set: it can be released in turn. */
  ghost predicate Releasable(v1: View, n1: nat, log: seq<PendingWrite>, y: PendingWrite) {
    forall q | DueClosed(v1, n1, log, q) :: y in q
  }

  lemma MergedIsReleasable(v1: View, n1: nat, log: seq<PendingWrite>, v: View, ps: seq<PendingWrite>, y: PendingWrite)
    requires Merged(v1, n1, log, v, ps) && NonNegative(ps) && y in ps
    ensures Releasable(v1, n1, log, y)
  {
    forall q | DueClosed(v1, n1, log, q) ensures y in q {
      DerivationInClosed(v1.n.data, ps, ps, q);
      assert y in Elements(ps);
    }
  }

  /** What has been merged is closed: a due write that it makes ready is not held. */
  lemma MergedIsClosed(v1: View, n1: nat, log: seq<PendingWrite>, v: View, ps: seq<PendingWrite>)
    requires Merged(v1, n1, log, v, ps) && NonNegative(ps)
    requires v.flight == multiset{} && NoneReady(v.n.data, v.n.held)
    ensures DueClosed(v1, n1, log, Elements(ps))
  {
    forall y | Due(v1, n1, log, y) && AllCovered(v1.n.data, Elements(ps), y.val.deps) ensures y in Elements(ps) {
      ReadyIffCovered(v1.n.data, ps, y.val.deps);
      assert Ready(v.n.data, y);
    }
  }

  lemma HeldIsTheRest(v1: View, n1: nat, log: seq<PendingWrite>, v: View, ps: seq<PendingWrite>, y: PendingWrite)
    requires Merged(v1, n1, log, v, ps) && Swept(v1, n1, log, v, ps) && NonNegative(ps) && v.flight == multiset{}
    ensures y in v.n.held <==> Due(v1, n1, log, y) && !(DrainWillStart(v1, n1, log) && Releasable(v1, n1, log, y))
  {
    if ps != [] {
      MergedIsClosed(v1, n1, log, v, ps);
      if y in ps {
        MergedIsReleasable(v1, n1, log, v, ps, y);
        AppliedStaysReady(v1.n.data, ps, y);
      }
    }
  }

  /**
   What node `i` holds at rest, counted from any moment after which it takes no client writes: exactly the due writes
   that cannot be released in turn, or all that are due if no write that was ready then was still to arrive.
   */
  lemma HeldExactly(c: State, run: seq<Action>, more: seq<Action>, i: nat, y: PendingWrite)
    requires Initial(c) && StartsAtEpoch(c) && i < |c.nodes| && NoWritesAt(more, i)
    requires Lossless(Causal, c, run + more) && Quiescent(Exec(Causal, c, run + more))
    ensures var s, r := Exec(Causal, c, run), Exec(Causal, c, run + more);
            var v1, n1 := ViewOf(s, i), |s.log|;
            y in r.nodes[i].held
            <==> Due(v1, n1, r.log, y) && !(DrainWillStart(v1, n1, r.log) && Releasable(v1, n1, r.log, y))
  {
    var s, r := Exec(Causal, c, run), Exec(Causal, c, run + more);
    var ps := RunMerges(c, run, more, i);
    DueNotNegative(c, run, more, i);
    forall p | p in ps ensures AfterOrEqual(p.val.ts, ZERO) {
      assert Due(ViewOf(s, i), |s.log|, r.log, p);
    }
    HeldIsTheRest(ViewOf(s, i), |s.log|, r.log, ViewOf(r, i), ps, y);
  }

  /** Every due write can be released in turn, and a drain will start if there is one. */
  ghost predicate AllReleased(v1: View, n1: nat, log: seq<PendingWrite>) {
    forall y | Due(v1, n1, log, y) :: DrainWillStart(v1, n1, log) && Releasable(v1, n1, log, y)
  }

  /** So no write is held for good exactly when a drain will start and release everything that is due. */
  lemma NothingHeldExactly(c: State, run: seq<Action>, more: seq<Action>, i: nat)
    requires Initial(c) && StartsAtEpoch(c) && i < |c.nodes| && NoWritesAt(more, i)
    requires Lossless(Causal, c, run + more) && Quiescent(Exec(Causal, c, run + more))
    ensures var s, r := Exec(Causal, c, run), Exec(Causal, c, run + more);
            r.nodes[i].held == [] <==> AllReleased(ViewOf(s, i), |s.log|, r.log)
  {
    var r := Exec(Causal, c, run + more);
    forall y {
      HeldExactly(c, run, more, i, y);
    }
    if r.nodes[i].held != [] {
      assert r.nodes[i].held[0] in r.nodes[i].held;
    }
  }

  lemma DueNotNegative(c: State, run: seq<Action>, more: seq<Action>, i: nat)
    requires Initial(c) && StartsAtEpoch(c) && i < |c.nodes|
    ensures var s, r := Exec(Causal, c, run), Exec(Causal, c, run + more);
            forall y | Due(ViewOf(s, i), |s.log|, r.log, y) :: AfterOrEqual(y.val.ts, ZERO)
  {
    var s, r := Exec(Causal, c, run), Exec(Causal, c, run + more);
    RunsAreProvenanced(Causal, c, run);
    TimesStayNotNegative(Causal, c, run);
    TimesStayNotNegative(Causal, c, run + more);
    assert Traced(s.log, ViewOf(s, i));
    forall y | Due(ViewOf(s, i), |s.log|, r.log, y) ensures AfterOrEqual(y.val.ts, ZERO) {
      if y in s.flight[i] || y in s.nodes[i].held {
        LoggedIsNotNegative(s, y);
      }
    }
  }
}
