/**
 How large the clocks of a cluster can get: counters are paid for by earlier clock events, wall times by
 readings.
 */
module ClockBounds {
  import opened Results
  import opened Hlc
  import opened CausalBuffer
  import opened Replication
  import opened NodeModel
  import opened Cluster
  import opened ClusterViews
  import opened Provenance

  /** The timestamp a successful `Send` or `Receive` of this action returns. */
  function Returned(mode: AsyncMode, c: State, a: Action): Option<Timestamp>
    requires Shape(c)
  {
    if !Enabled(c, a) || a.Get? || a.Lose? then None else
    var n := c.nodes[a.node];
    var r := if a.Deliver? then ReceiveTs(n.clock, a.write.val.ts, a.now) else SendTs(n.clock, a.now);
    if r.Ok? then Some(r.value) else None
  }

  /** All timestamps that clock events of the run returned. */
  function Stamps(mode: AsyncMode, c: State, run: seq<Action>): set<Timestamp>
    requires Shape(c)
  {
    if run == [] then {} else
    var r := Returned(mode, Exec(mode, c, run[..|run| - 1]), run[|run| - 1]);
    Stamps(mode, c, run[..|run| - 1]) + (if r.Some? then {r.value} else {})
  }

  lemma {:induction false} OneStampPerAction(mode: AsyncMode, c: State, run: seq<Action>)
    requires Shape(c)
    ensures |Stamps(mode, c, run)| <= |run|
  {
    if run != [] {
      OneStampPerAction(mode, c, run[..|run| - 1]);
    }
  }

  /** Events returned every smaller positive counter at `t`'s wall time, and `t`'s own. */
  ghost predicate PaidFor(stamps: set<Timestamp>, t: Timestamp) {
    forall k: int32 | 1 <= k <= t.logical :: Timestamp(t.wall, k) in stamps
  }

  ghost predicate CountersPaid(c: State, stamps: set<Timestamp>)
    requires Shape(c)
  {
    && (forall i | 0 <= i < |c.nodes| :: PaidFor(stamps, c.nodes[i].clock))
    && (forall m | 0 <= m < |c.log| :: PaidFor(stamps, c.log[m].val.ts))
  }

  lemma PaidStays(stamps: set<Timestamp>, more: set<Timestamp>, t: Timestamp)
    requires PaidFor(stamps, t) && stamps <= more
    ensures PaidFor(more, t)
  {
  }

  lemma PaidNext(stamps: set<Timestamp>, t: Timestamp, next: Timestamp)
    requires PaidFor(stamps, t) && (next.logical == 0 || (next.wall == t.wall && next.logical == t.logical + 1))
    ensures PaidFor(stamps + {next}, next)
  {
    forall k: int32 | 1 <= k <= next.logical ensures Timestamp(next.wall, k) in stamps + {next} {
      if k < next.logical {
        assert Timestamp(t.wall, k) in stamps;
      }
    }
  }

  lemma ArrivalIsPaid(c: State, stamps: set<Timestamp>, i: nat, w: PendingWrite)
    requires Shape(c) && Provenanced(c) && CountersPaid(c, stamps) && i < |c.nodes| && w in c.flight[i]
    ensures PaidFor(stamps, w.val.ts)
  {
    assert Traced(c.log, ViewOf(c, i)) && w in ViewOf(c, i).flight;
    assert Logged(c.log, w);
  }

  lemma ReturnedIsPaid(mode: AsyncMode, c: State, a: Action, stamps: set<Timestamp>)
    requires Shape(c) && Provenanced(c) && CountersPaid(c, stamps) && Returned(mode, c, a).Some?
    ensures var t := Returned(mode, c, a).value; PaidFor(stamps + {t}, t)
  {
    var t := Returned(mode, c, a).value;
    var clk := c.nodes[a.node].clock;
    assert PaidFor(stamps, clk);
    if a.Deliver? {
      ArrivalIsPaid(c, stamps, a.node, a.write);
      if t.wall == clk.wall {
        PaidNext(stamps, clk, t);
      } else {
        PaidNext(stamps, a.write.val.ts, t);
      }
    } else {
      PaidNext(stamps, clk, t);
    }
  }

  lemma ClockIsReturned(mode: AsyncMode, c: State, a: Action, i: nat)
    requires Shape(c) && i < |c.nodes|
    ensures Step(mode, c, a).nodes[i].clock == c.nodes[i].clock
            || Returned(mode, c, a) == Some(Step(mode, c, a).nodes[i].clock)
  {
    ClockOfStep(mode, c, a, i);
    LocalIsReturned(mode, c, a, i);
  }

  lemma LocalIsReturned(mode: AsyncMode, c: State, a: Action, i: nat)
    requires Shape(c) && i < |c.nodes|
    ensures var e := EventAt(mode, c, a, i);
            && (e.Own? ==> Returned(mode, c, a) == Some(e.w.val.ts))
            && (e.Arrival? ==> Returned(mode, c, a) == Some(e.ts))
  {
    EventFacts(mode, c, a, i);
  }

  lemma IssuedIsReturned(mode: AsyncMode, c: State, a: Action)
    requires Shape(c) && Issued(mode, c, a).Some?
    ensures Returned(mode, c, a) == Some(Issued(mode, c, a).value.val.ts)
  {
    EventFacts(mode, c, a, a.node);
  }

  lemma CountersStep(mode: AsyncMode, c: State, a: Action, stamps: set<Timestamp>)
    requires Shape(c) && Provenanced(c) && CountersPaid(c, stamps)
    ensures var r := Returned(mode, c, a);
            CountersPaid(Step(mode, c, a), stamps + (if r.Some? then {r.value} else {}))
  {
    var c' := Step(mode, c, a);
    var r := Returned(mode, c, a);
    var more := stamps + (if r.Some? then {r.value} else {});
    if r.Some? {
      ReturnedIsPaid(mode, c, a, stamps);
    }
    LogGrows(mode, c, a);
    forall i | 0 <= i < |c'.nodes| ensures PaidFor(more, c'.nodes[i].clock) {
      ClockIsReturned(mode, c, a, i);
      if c'.nodes[i].clock == c.nodes[i].clock {
        PaidStays(stamps, more, c.nodes[i].clock);
      }
    }
    forall m | 0 <= m < |c'.log| ensures PaidFor(more, c'.log[m].val.ts) {
      if m < |c.log| {
        PaidStays(stamps, more, c.log[m].val.ts);
      } else {
        IssuedIsReturned(mode, c, a);
      }
    }
  }

  /** A clock at `(l, c)`, and a write stamped `(l, c)`, imply events that returned `(l, 1)`, ..., `(l, c)`. */
  lemma {:induction false} CountersArePaidFor(mode: AsyncMode, c: State, run: seq<Action>)
    requires Initial(c)
    ensures CountersPaid(Exec(mode, c, run), Stamps(mode, c, run))
  {
    if run == [] {
    } else {
      var init := run[..|run| - 1];
      CountersArePaidFor(mode, c, init);
      RunsAreProvenanced(mode, c, init);
      CountersStep(mode, Exec(mode, c, init), run[|run| - 1], Stamps(mode, c, init));
    }
  }

  lemma {:induction false} CounterCardinality(stamps: set<Timestamp>, wall: int64, n: int32)
    requires n >= 0 && PaidFor(stamps, Timestamp(wall, n))
    ensures |stamps| >= n
    decreases n
  {
    if n > 0 {
      var top := Timestamp(wall, n);
      assert top in stamps;
      forall k: int32 | 1 <= k <= n - 1 ensures Timestamp(wall, k) in stamps - {top} {
        assert Timestamp(wall, k) in stamps;
      }
      CounterCardinality(stamps - {top}, wall, n - 1);
    }
  }

  /** The clock of the acting node refuses this action. */
  predicate ClockRefuses(mode: AsyncMode, c: State, a: Action)
    requires Shape(c)
  {
    && Enabled(c, a)
    && (if a.Deliver? then AfterReplicate(mode == Causal, c.nodes[a.node], a.write, a.now).Err?
        else IsClientWrite(a) && Stamped(mode, c.nodes[a.node], a).Err?)
  }

  /** All positive counters of some wall time have been returned. */
  ghost predicate Exhausted(stamps: set<Timestamp>) {
    exists wall: int64 :: PaidFor(stamps, Timestamp(wall, MAX_LOGICAL))
  }

  /** A clock refuses only after `MAX_LOGICAL` earlier events at a single wall time. */
  lemma OverflowIsFarAway(mode: AsyncMode, c: State, run: seq<Action>, a: Action)
    requires Initial(c) && ClockRefuses(mode, Exec(mode, c, run), a)
    ensures Exhausted(Stamps(mode, c, run)) && |run| >= MAX_LOGICAL
  {
    var s := Exec(mode, c, run);
    CountersArePaidFor(mode, c, run);
    var clk := s.nodes[a.node].clock;
    var full := clk;
    assert PaidFor(Stamps(mode, c, run), clk);
    if a.Deliver? {
      RunsAreProvenanced(mode, c, run);
      ArrivalIsPaid(s, Stamps(mode, c, run), a.node, a.write);
      ArrivalCounterNotNegative(mode, c, run, a.node, a.write);
      ReceiveCharacterised(clk, a.write.val.ts, a.now);
      if clk.logical != MAX_LOGICAL {
        full := a.write.val.ts;
      }
    }
    assert full == Timestamp(full.wall, MAX_LOGICAL);
    CounterCardinality(Stamps(mode, c, run), full.wall, MAX_LOGICAL);
    OneStampPerAction(mode, c, run);
  }

  /** Nobody is ever sent the negative counter that `Receive` rejects. */
  lemma {:induction false} ArrivalCounterNotNegative(mode: AsyncMode, c: State, run: seq<Action>, i: nat,
                                                     w: PendingWrite)
    requires Initial(c) && i < |c.nodes| && w in Exec(mode, c, run).flight[i]
    ensures w.val.ts.logical >= 0
  {
    var s := Exec(mode, c, run);
    RunsAreProvenanced(mode, c, run);
    assert Traced(s.log, ViewOf(s, i)) && w in ViewOf(s, i).flight;
    assert Logged(s.log, w);
    LogCountersNotNegative(mode, c, run);
  }

  lemma {:induction false} LogCountersNotNegative(mode: AsyncMode, c: State, run: seq<Action>)
    requires Initial(c)
    ensures forall m | 0 <= m < |Exec(mode, c, run).log| :: Exec(mode, c, run).log[m].val.ts.logical >= 0
  {
    if run == [] {
    } else {
      LogCountersNotNegative(mode, c, run[..|run| - 1]);
      LogGrows(mode, Exec(mode, c, run[..|run| - 1]), run[|run| - 1]);
    }
  }

  /** So a run of at most `MAX_LOGICAL` actions loses a request only if the network does. */
  lemma {:induction false} ShortRunsAreLossless(mode: AsyncMode, c: State, run: seq<Action>)
    requires Initial(c) && |run| <= MAX_LOGICAL
    requires forall a | a in run :: !a.Lose?
    ensures Lossless(mode, c, run)
  {
    if run == [] {
    } else {
      var init, a := run[..|run| - 1], run[|run| - 1];
      assert a in run;
      ShortRunsAreLossless(mode, c, init);
      if Loses(mode, Exec(mode, c, init), a) {
        OverflowIsFarAway(mode, c, init, a);
      }
    }
  }

  // Wall readings -------------------------------------------------------------------------------

  ghost predicate WallsWithin(c: State, bound: int64)
    requires Shape(c)
  {
    && (forall i | 0 <= i < |c.nodes| :: c.nodes[i].clock.wall <= bound)
    && (forall m | 0 <= m < |c.log| :: c.log[m].val.ts.wall <= bound)
  }

  /** No clock and no timestamp exceeds the largest wall reading that any node has taken. */
  lemma {:induction false} WallsComeFromReadings(mode: AsyncMode, c: State, run: seq<Action>, bound: int64)
    requires Initial(c)
    requires forall i | 0 <= i < |c.nodes| :: c.nodes[i].clock.wall <= bound
    requires forall a | a in run :: a.Get? || a.Lose? || a.now <= bound
    ensures WallsWithin(Exec(mode, c, run), bound)
  {
    if run == [] {
    } else {
      var init, a := run[..|run| - 1], run[|run| - 1];
      assert a in run;
      WallsComeFromReadings(mode, c, init, bound);
      RunsAreProvenanced(mode, c, init);
      WallsStep(mode, Exec(mode, c, init), a, bound);
    }
  }

  lemma WallsStep(mode: AsyncMode, c: State, a: Action, bound: int64)
    requires Shape(c) && Provenanced(c) && WallsWithin(c, bound)
    requires a.Get? || a.Lose? || a.now <= bound
    ensures WallsWithin(Step(mode, c, a), bound)
  {
    var c' := Step(mode, c, a);
    LogGrows(mode, c, a);
    if Returned(mode, c, a).Some? {
      ReturnedWithin(mode, c, a, bound);
    }
    forall i | 0 <= i < |c'.nodes| ensures c'.nodes[i].clock.wall <= bound {
      ClockIsReturned(mode, c, a, i);
    }
    if Issued(mode, c, a).Some? {
      IssuedIsReturned(mode, c, a);
    }
  }

  lemma ReturnedWithin(mode: AsyncMode, c: State, a: Action, bound: int64)
    requires Shape(c) && Provenanced(c) && WallsWithin(c, bound) && Returned(mode, c, a).Some?
    requires a.Get? || a.Lose? || a.now <= bound
    ensures Returned(mode, c, a).value.wall <= bound
  {
    if a.Deliver? {
      assert Traced(c.log, ViewOf(c, a.node)) && a.write in ViewOf(c, a.node).flight;
      assert Logged(c.log, a.write);
    }
  }
}
