/**
 Causal mode: exactly when what a node has applied is closed under direct dependencies at every moment of a run.
 The first wall-clock readings are not before the epoch.
 */
module CausalClosure {
  import opened Hlc
  import opened KvStore
  import opened CausalBuffer
  import opened BufferTheory
  import opened Replication
  import opened NodeModel
  import opened Cluster
  import opened ClusterViews
  import opened Provenance

  /** The clocks were created at or after the epoch; later readings may be anything. */
  ghost predicate StartsAtEpoch(c: State) { forall i | 0 <= i < |c.nodes| :: c.nodes[i].clock.wall >= 0 }

  ghost predicate TimesNotNegative(c: State)
    requires Shape(c)
  {
    && StartsAtEpoch(c)
    && forall m | 0 <= m < |c.log| :: After(c.log[m].val.ts, ZERO)
  }

  lemma TimesStep(mode: AsyncMode, c: State, a: Action)
    requires Shape(c) && TimesNotNegative(c)
    ensures TimesNotNegative(Step(mode, c, a))
  {
    LogGrows(mode, c, a);
    forall i | 0 <= i < |c.nodes| ensures Step(mode, c, a).nodes[i].clock.wall >= 0 {
      ClockOfStep(mode, c, a, i);
      EventFacts(mode, c, a, i);
    }
    if Issued(mode, c, a).Some? {
      EventFacts(mode, c, a, a.node);
      SendCharacterised(c.nodes[a.node].clock, a.now);
    }
  }

  lemma {:induction false} TimesStayNotNegative(mode: AsyncMode, c: State, run: seq<Action>)
    requires Initial(c) && StartsAtEpoch(c)
    ensures TimesNotNegative(Exec(mode, c, run))
  {
    if run == [] {
    } else {
      TimesStayNotNegative(mode, c, run[..|run| - 1]);
      TimesStep(mode, Exec(mode, c, run[..|run| - 1]), run[|run| - 1]);
    }
  }

  lemma LoggedIsNotNegative(c: State, w: PendingWrite)
    requires Shape(c) && TimesNotNegative(c) && Logged(c.log, w)
    ensures After(w.val.ts, ZERO)
  {
  }

  /** Each write the node applied has all its dependencies met by the node's present versions. */
  ghost predicate Closed(v: View) { forall x | x in v.done :: Ready(v.n.data, x) }

  /** The reads recorded since the node's last write are still met: only its own writes could undo them. */
  ghost predicate ReadsAreMet(v: View) { DepsSatisfied(v.n.data, v.n.recorded) }

  /** The write is at or after every version of its key that an applied write, or the write itself, depends on. */
  ghost predicate MeetsDeps(v: View, w: PendingWrite) {
    forall x, d | (x in v.done || x == w) && d in x.val.deps && d.key == w.key :: AfterOrEqual(w.val.ts, d.minTs)
  }

  lemma ReadsAreMetStep(v: View, e: Local)
    requires ReadsAreMet(v)
    requires e.Arrival? ==> AfterOrEqual(e.w.val.ts, ZERO) && forall h | h in v.n.held :: AfterOrEqual(h.val.ts, ZERO)
    ensures ReadsAreMet(Move(Causal, v, e))
  {
    if e.Arrival? {
      AbsorbConserves(Causal, v.n, e.w);
      StaysSatisfied(v.n.data, Absorb(true, v.n, e.w).applied, v.n.recorded);
    }
  }

  lemma ClosedOwn(v: View, w: PendingWrite)
    requires Closed(v) && ReadsAreMet(v) && w.val.deps == v.n.recorded && MeetsDeps(v, w)
    ensures Closed(Move(Causal, v, Own(w)))
  {
    var v' := Move(Causal, v, Own(w));
    forall x | x in v'.done ensures Ready(v'.n.data, x) {
      assert Ready(v.n.data, x);
      forall i | 0 <= i < |x.val.deps|
        ensures AfterOrEqual(Version(v'.n.data, x.val.deps[i].key), x.val.deps[i].minTs)
      {
        assert x.val.deps[i] in x.val.deps && (x in v.done || x.val.deps == w.val.deps);
      }
    }
  }

  /** A closed state after an own write shows that the write met what was asked of its key. */
  lemma ClosedMeetsDeps(v: View, w: PendingWrite)
    requires Closed(Move(Causal, v, Own(w)))
    ensures MeetsDeps(v, w)
  {
    var v' := Move(Causal, v, Own(w));
    forall x, d | (x in v.done || x == w) && d in x.val.deps && d.key == w.key ensures AfterOrEqual(w.val.ts, d.minTs) {
      var y := if x in v.done then x else OnTheWire(w);
      assert y in v'.done && Ready(v'.n.data, y);
      var i :| 0 <= i < |y.val.deps| && y.val.deps[i] == d;
    }
  }

  lemma ClosedArrival(v: View, w: PendingWrite, ts: Timestamp)
    requires Closed(v) && AfterOrEqual(w.val.ts, ZERO)
    requires forall h | h in v.n.held :: AfterOrEqual(h.val.ts, ZERO)
    ensures Closed(Move(Causal, v, Arrival(w, ts)))
  {
    AbsorbConserves(Causal, v.n, w);
    var r := Absorb(true, v.n, w);
    forall x | x in v.done ensures Ready(r.data, x) {
      StaysSatisfied(v.n.data, r.applied, x.val.deps);
    }
    forall x | x in r.applied ensures Ready(r.data, x) {
      AppliedStaysReady(v.n.data, r.applied, x);
    }
  }

  lemma ArrivalsNotNegative(c: State, v: View, e: Local)
    requires Shape(c) && Traced(c.log, v) && TimesNotNegative(c) && (e.Arrival? ==> e.w in v.flight)
    ensures e.Arrival? ==> AfterOrEqual(e.w.val.ts, ZERO)
    ensures forall h | h in v.n.held :: AfterOrEqual(h.val.ts, ZERO)
  {
    if e.Arrival? {
      LoggedIsNotNegative(c, e.w);
    }
    forall h | h in v.n.held ensures AfterOrEqual(h.val.ts, ZERO) {
      LoggedIsNotNegative(c, h);
    }
  }

  lemma {:induction false} RecordedReadsAreMet(c: State, run: seq<Action>, i: nat)
    requires Initial(c) && StartsAtEpoch(c) && i < |c.nodes|
    ensures ReadsAreMet(ViewOf(Exec(Causal, c, run), i))
  {
    if run == [] {
    } else {
      var init, a := run[..|run| - 1], run[|run| - 1];
      var s := Exec(Causal, c, init);
      RecordedReadsAreMet(c, init, i);
      RunsAreProvenanced(Causal, c, init);
      TimesStayNotNegative(Causal, c, init);
      StepIsMove(Causal, s, a, i);
      EventFacts(Causal, s, a, i);
      assert Traced(s.log, ViewOf(s, i));
      ArrivalsNotNegative(s, ViewOf(s, i), EventAt(Causal, s, a, i));
      ReadsAreMetStep(ViewOf(s, i), EventAt(Causal, s, a, i));
    }
  }

  lemma ClosedMove(v: View, e: Local)
    requires Closed(v) && ReadsAreMet(v)
    requires e.Own? ==> e.w.val.deps == v.n.recorded && MeetsDeps(v, e.w)
    requires e.Arrival? ==> AfterOrEqual(e.w.val.ts, ZERO)
    requires forall h | h in v.n.held :: AfterOrEqual(h.val.ts, ZERO)
    ensures Closed(Move(Causal, v, e))
  {
    if e.Own? {
      ClosedOwn(v, e.w);
    } else if e.Arrival? {
      ClosedArrival(v, e.w, e.ts);
    }
  }

  ghost predicate StepMeetsDeps(s: State, a: Action, i: nat)
    requires Shape(s) && i < |s.nodes|
  {
    a.node == i && Issued(Causal, s, a).Some? ==> MeetsDeps(ViewOf(s, i), Issued(Causal, s, a).value)
  }

  lemma ClosedStep(s: State, a: Action, i: nat)
    requires Shape(s) && Provenanced(s) && TimesNotNegative(s) && i < |s.nodes|
    requires Closed(ViewOf(s, i)) && ReadsAreMet(ViewOf(s, i))
    ensures Closed(ViewOf(Step(Causal, s, a), i)) <==> StepMeetsDeps(s, a, i)
  {
    var v, e := ViewOf(s, i), EventAt(Causal, s, a, i);
    StepIsMove(Causal, s, a, i);
    EventFacts(Causal, s, a, i);
    assert Traced(s.log, v);
    ArrivalsNotNegative(s, v, e);
    if StepMeetsDeps(s, a, i) {
      ClosedMove(v, e);
    } else {
      assert e.Own?;
      if Closed(Move(Causal, v, e)) {
        ClosedMeetsDeps(v, e.w);
      }
    }
  }

  /** Each write of node `i` over the run met what had been asked of its key. */
  ghost predicate MeetsDepsAt(c: State, run: seq<Action>, i: nat)
    requires Shape(c) && i < |c.nodes|
  {
    run == [] || (MeetsDepsAt(c, run[..|run| - 1], i)
                  && StepMeetsDeps(Exec(Causal, c, run[..|run| - 1]), run[|run| - 1], i))
  }

  /** Node `i` has been closed at every moment of the run. */
  ghost predicate ClosedThroughout(c: State, run: seq<Action>, i: nat)
    requires Shape(c) && i < |c.nodes|
  {
    && Closed(ViewOf(Exec(Causal, c, run), i))
    && (run == [] || ClosedThroughout(c, run[..|run| - 1], i))
  }

  lemma {:induction false} ClosedAtEveryMoment(c: State, run: seq<Action>, i: nat, t: nat)
    requires Shape(c) && i < |c.nodes| && ClosedThroughout(c, run, i) && t <= |run|
    ensures Closed(ViewOf(Exec(Causal, c, run[..t]), i))
  {
    if t == |run| {
      assert run[..t] == run;
    } else {
      assert run[..|run| - 1][..t] == run[..t];
      ClosedAtEveryMoment(c, run[..|run| - 1], i, t);
    }
  }

  /**
   Causal closure, as an invariant of every run: it holds at every moment exactly when each of the node's own writes
   meets what applied writes, and its own reads, ask of its key.  Ties at other nodes do not matter.
   */
  lemma {:induction false} ClosedExactly(c: State, run: seq<Action>, i: nat)
    requires Initial(c) && StartsAtEpoch(c) && i < |c.nodes|
    ensures ClosedThroughout(c, run, i) <==> MeetsDepsAt(c, run, i)
  {
    if run == [] {
    } else {
      var init := run[..|run| - 1];
      ClosedExactly(c, init, i);
      if ClosedThroughout(c, init, i) {
        RunsAreProvenanced(Causal, c, init);
        TimesStayNotNegative(Causal, c, init);
        RecordedReadsAreMet(c, init, i);
        ClosedStep(Exec(Causal, c, init), run[|run| - 1], i);
      }
    }
  }

  lemma KeptVersionMeetsDeps(v: View, w: PendingWrite)
    requires Closed(v) && ReadsAreMet(v) && KeepsVersion(v.n, w)
    requires w.val.deps == v.n.recorded && AfterOrEqual(w.val.ts, ZERO)
    ensures MeetsDeps(v, w)
  {
    forall x, d | (x in v.done || x == w) && d in x.val.deps && d.key == w.key ensures AfterOrEqual(w.val.ts, d.minTs) {
      assert DepsSatisfied(v.n.data, x.val.deps) by { assert x in v.done ==> Ready(v.n.data, x); }
      var i :| 0 <= i < |x.val.deps| && x.val.deps[i] == d;
      CompareIsTotalOrder(w.val.ts, Version(v.n.data, w.key), d.minTs);
    }
  }

  /** In particular when the node's own writes keep their keys' versions. */
  lemma {:induction false} AppliedWritesAreClosed(c: State, run: seq<Action>, i: nat)
    requires Initial(c) && StartsAtEpoch(c) && i < |c.nodes| && KeepsVersionsAt(Causal, c, run, i)
    ensures ClosedThroughout(c, run, i)
  {
    if run == [] {
    } else {
      var init, a := run[..|run| - 1], run[|run| - 1];
      var s := Exec(Causal, c, init);
      AppliedWritesAreClosed(c, init, i);
      TimesStayNotNegative(Causal, c, init);
      RecordedReadsAreMet(c, init, i);
      EventFacts(Causal, s, a, i);
      if a.node == i && Issued(Causal, s, a).Some? {
        SendCharacterised(s.nodes[i].clock, a.now);
        KeptVersionMeetsDeps(ViewOf(s, i), Issued(Causal, s, a).value);
      }
      ClosedExactly(c, init, i);
      ClosedExactly(c, run, i);
    }
  }
}
