/**
 How far a node's clock is ahead of what the node knows, in every run of the cluster.
 */
module ClockTheory {
  import opened Results
  import opened Hlc
  import opened KvStore
  import opened CausalBuffer
  import opened BufferTheory
  import opened Replication
  import opened NodeModel
  import opened Cluster
  import opened ClusterViews
  import opened NodeInvariants
  import opened Convergence
  import opened ClockBounds

  /** Nothing the node stores, holds or has applied is after `ts`. */
  ghost predicate Bounds(ts: Timestamp, v: View) {
    && (forall k | k in v.n.data :: AfterOrEqual(ts, v.n.data[k].ts))
    && (forall h | h in v.n.held :: AfterOrEqual(ts, h.val.ts))
    && (forall x | x in v.done :: AfterOrEqual(ts, x.val.ts))
  }

  lemma LaterBounds(ts: Timestamp, later: Timestamp, v: View)
    requires Bounds(ts, v) && AfterOrEqual(later, ts)
    ensures Bounds(later, v)
    ensures After(later, ts) ==> forall w: PendingWrite | w.val.ts == later :: FreshWrite(v.n, w)
  {
  }

  lemma ArrivalBounded(mode: AsyncMode, v: View, w: PendingWrite, ts: Timestamp, bound: Timestamp)
    requires Bounds(bound, v) && AfterOrEqual(bound, w.val.ts)
    ensures Bounds(bound, Move(mode, v, Arrival(w, ts)))
  {
    AbsorbConserves(mode, v.n, w);
    var r := Absorb(mode == Causal, v.n, w);
    FoldIsMaximum(v.n.data, r.applied);
    forall k | k in r.data ensures AfterOrEqual(bound, r.data[k].ts) {
      assert HasSource(v.n.data, r.applied, k, r.data[k]);
    }
  }

  /** What `Send` and `Receive` guarantee about the clock of the node that performs the event. */
  ghost predicate Ticks(v: View, e: Local, now: int64)
    requires v.n.clock.logical >= 0
  {
    && (e.Own? ==> SendTs(v.n.clock, now) == Ok(e.w.val.ts))
    && (e.Arrival? ==> ReceiveTs(v.n.clock, e.w.val.ts, now) == Ok(e.ts))
  }

  // Every run: wall times -----------------------------------------------------------------------

  /** Nothing the node stores, holds or has applied has a later wall time than its clock. */
  ghost predicate WallAhead(v: View) {
    v.n.clock.logical >= 0 && Bounds(Timestamp(v.n.clock.wall, MAX_LOGICAL), v)
  }

  ghost predicate WallNotLower(d': Data, d: Data) {
    forall k | k in d :: k in d' && d'[k].ts.wall >= d[k].ts.wall
  }

  lemma WallAheadStep(mode: AsyncMode, v: View, e: Local, now: int64)
    requires WallAhead(v) && Ticks(v, e, now)
    ensures WallAhead(Move(mode, v, e))
    ensures WallNotLower(Move(mode, v, e).n.data, v.n.data)
  {
    var v' := Move(mode, v, e);
    var bound := Timestamp(v'.n.clock.wall, MAX_LOGICAL);
    LaterBounds(Timestamp(v.n.clock.wall, MAX_LOGICAL), bound, v);
    if e.Arrival? {
      ArrivalBounded(mode, v, e.w, e.ts, bound);
      VersionsNeverFall(mode, v, e);
    }
  }

  lemma TicksHold(mode: AsyncMode, c: State, a: Action, i: nat)
    requires Shape(c) && i < |c.nodes|
    ensures var e := EventAt(mode, c, a, i);
            (e.Own? || e.Arrival? ==> !a.Get? && !a.Lose?) && Ticks(ViewOf(c, i), e, Reading(a))
  {
    EventFacts(mode, c, a, i);
  }

  /** The wall-clock reading an action takes, if it takes one. */
  function Reading(a: Action): int64 { if a.Get? || a.Lose? then 0 else a.now }

  /** In every run, ties included, a node's clock has at least the wall time of all it stores or holds. */
  lemma {:induction false} ClockWallIsAhead(mode: AsyncMode, c: State, run: seq<Action>, i: nat)
    requires Initial(c) && i < |c.nodes|
    ensures WallAhead(ViewOf(Exec(mode, c, run), i))
  {
    if run == [] {
    } else {
      var s, a := Exec(mode, c, run[..|run| - 1]), run[|run| - 1];
      ClockWallIsAhead(mode, c, run[..|run| - 1], i);
      StepIsMove(mode, s, a, i);
      TicksHold(mode, s, a, i);
      WallAheadStep(mode, ViewOf(s, i), EventAt(mode, s, a, i), Reading(a));
    }
  }

  /** In every run no key is ever taken away, nor the wall time of its version lowered, at any node. */
  lemma {:induction false} VersionWallNeverDecreases(mode: AsyncMode, c: State, run: seq<Action>, more: seq<Action>,
                                                     i: nat)
    requires Initial(c) && i < |c.nodes|
    ensures WallNotLower(Exec(mode, c, run + more).nodes[i].data, Exec(mode, c, run).nodes[i].data)
  {
    if more == [] {
      assert run + more == run;
    } else {
      var before, a := run + more[..|more| - 1], more[|more| - 1];
      assert (run + more)[..|run + more| - 1] == before;
      VersionWallNeverDecreases(mode, c, run, more[..|more| - 1], i);
      ClockWallIsAhead(mode, c, before, i);
      WallStep(mode, Exec(mode, c, before), a, i);
    }
  }

  lemma WallStep(mode: AsyncMode, c: State, a: Action, i: nat)
    requires Shape(c) && i < |c.nodes| && WallAhead(ViewOf(c, i))
    ensures WallNotLower(Step(mode, c, a).nodes[i].data, c.nodes[i].data)
  {
    StepIsMove(mode, c, a, i);
    TicksHold(mode, c, a, i);
    WallAheadStep(mode, ViewOf(c, i), EventAt(mode, c, a, i), Reading(a));
    assert ViewOf(Step(mode, c, a), i).n == Step(mode, c, a).nodes[i];
  }

  /** Even one tick leaves the clock before `ts`. */
  predicate Behind(clk: Timestamp, ts: Timestamp, now: int64) {
    clk.wall == ts.wall && now <= clk.wall && clk.logical + 1 < ts.logical
  }

  /**
   When a client write moves its key forward, and when backward.  Forward: exactly when the clock does not stand,
   at the version's wall time, behind the version's counter.  Backward: exactly when one tick is not enough.
   */
  lemma WriteMovesVersionExactly(mode: AsyncMode, c: State, run: seq<Action>, a: Action)
    requires Initial(c)
    requires var s := Exec(mode, c, run);
             && Issued(mode, s, a).Some?
             && Issued(mode, s, a).value.key in s.nodes[a.node].data
    ensures var s := Exec(mode, c, run);
            var n, w := s.nodes[a.node], Issued(mode, s, a).value;
            Before(n.data[w.key].ts, Step(mode, s, a).nodes[a.node].data[w.key].ts)
            <==> !Tie(n.clock, n.data[w.key].ts, a.now)
    ensures var s := Exec(mode, c, run);
            var n, w := s.nodes[a.node], Issued(mode, s, a).value;
            After(n.data[w.key].ts, Step(mode, s, a).nodes[a.node].data[w.key].ts)
            <==> Behind(n.clock, n.data[w.key].ts, a.now)
  {
    var s := Exec(mode, c, run);
    ClockWallIsAhead(mode, c, run, a.node);
    StepIsMove(mode, s, a, a.node);
    EventFacts(mode, s, a, a.node);
  }

  /** The clock stands, at the wall time of nothing the node has, behind its counter. */
  ghost predicate Untied(n: NodeState, now: int64) {
    && (forall k | k in n.data :: !Tie(n.clock, n.data[k].ts, now))
    && (forall h | h in n.held :: !Tie(n.clock, h.val.ts, now))
  }

  /** The key's version is not out of reach of the node's clock. */
  ghost predicate WithinReach(n: NodeState, key: string, now: int64) {
    key in n.data ==> !Behind(n.clock, n.data[key].ts, now)
  }

  /** The conditions on client writes, read off the node's clock before the write. */
  lemma FreshExactly(mode: AsyncMode, c: State, run: seq<Action>, a: Action)
    requires Initial(c) && Issued(mode, Exec(mode, c, run), a).Some?
    ensures var s := Exec(mode, c, run);
            var n, w := s.nodes[a.node], Issued(mode, s, a).value;
            && (FreshWrite(n, w) <==> Untied(n, a.now))
            && (KeepsVersion(n, w) <==> WithinReach(n, w.key, a.now))
  {
    var s := Exec(mode, c, run);
    var n, w := s.nodes[a.node], Issued(mode, s, a).value;
    ClockWallIsAhead(mode, c, run, a.node);
    EventFacts(mode, s, a, a.node);
    forall ts: Timestamp | ts.wall <= n.clock.wall ensures After(w.val.ts, ts) <==> !Tie(n.clock, ts, a.now) {
    }
  }

  // Runs without ties ---------------------------------------------------------------------------

  /** The clock is at or after everything the node stores, holds or has applied. */
  ghost predicate ClockAhead(v: View) { v.n.clock.logical >= 0 && Bounds(v.n.clock, v) }

  lemma ClockAheadStep(mode: AsyncMode, v: View, e: Local, now: int64)
    requires ClockAhead(v) && Ticks(v, e, now)
    requires e.Arrival? ==> !Tie(v.n.clock, e.w.val.ts, now)
    ensures ClockAhead(Move(mode, v, e))
    ensures e.Own? ==> FreshWrite(v.n, e.w)
  {
    if e.Own? {
      SendCharacterised(v.n.clock, now);
      LaterBounds(v.n.clock, e.w.val.ts, v);
    } else if e.Arrival? {
      ReceiveCharacterised(v.n.clock, e.w.val.ts, now);
      LaterBounds(v.n.clock, e.ts, v);
      ArrivalBounded(mode, v, e.w, e.ts, e.ts);
    }
  }

  /** A node that meets no tie stays at or ahead of all it knows, so its writes come after all it received. */
  lemma {:induction false} TieFreeClockDominates(mode: AsyncMode, c: State, run: seq<Action>, i: nat)
    requires Initial(c) && i < |c.nodes| && TieFreeAt(mode, c, run, i)
    ensures ClockAhead(ViewOf(Exec(mode, c, run), i))
    ensures FreshAt(mode, c, run, i)
  {
    if run == [] {
    } else {
      var s, a := Exec(mode, c, run[..|run| - 1]), run[|run| - 1];
      TieFreeClockDominates(mode, c, run[..|run| - 1], i);
      StepIsMove(mode, s, a, i);
      EventFacts(mode, s, a, i);
      TicksHold(mode, s, a, i);
      ClockAheadStep(mode, ViewOf(s, i), EventAt(mode, s, a, i), Reading(a));
    }
  }

  /** It is enough that a node that takes client writes meets no tie. */
  lemma UntiedNodeKeepsVersions(mode: AsyncMode, c: State, run: seq<Action>, i: nat)
    requires Initial(c) && i < |c.nodes| && (TieFreeAt(mode, c, run, i) || NoWritesAt(run, i))
    ensures KeepsVersionsAt(mode, c, run, i)
  {
    if NoWritesAt(run, i) {
      SilentNodeKeepsVersions(mode, c, run, i);
    } else {
      TieFreeClockDominates(mode, c, run, i);
      FreshKeepsVersions(mode, c, run, i);
    }
  }

  lemma {:induction false} SilentNodeKeepsVersions(mode: AsyncMode, c: State, run: seq<Action>, i: nat)
    requires Shape(c) && i < |c.nodes| && NoWritesAt(run, i)
    ensures KeepsVersionsAt(mode, c, run, i)
  {
    if run == [] {
    } else {
      SilentNodeKeepsVersions(mode, c, run[..|run| - 1], i);
      assert run[|run| - 1] in run;
    }
  }

  /**
   The guarantees at a node in a client's terms: it meets no tie or takes no writes, the network loses nothing, there
   are at most `MAX_LOGICAL` actions, and nothing is in flight.  Then it holds nothing back and is up to date.
   */
  lemma CalmNodeConverges(mode: AsyncMode, c: State, run: seq<Action>, i: nat)
    requires Initial(c) && i < |c.nodes| && (TieFreeAt(mode, c, run, i) || NoWritesAt(run, i))
    requires |run| <= MAX_LOGICAL && forall a | a in run :: !a.Lose?
    requires Quiescent(Exec(mode, c, run))
    ensures Exec(mode, c, run).nodes[i].held == []
    ensures AtLatestVersions(Exec(mode, c, run).log, Exec(mode, c, run).nodes[i].data)
  {
    UntiedNodeKeepsVersions(mode, c, run, i);
    ShortRunsAreLossless(mode, c, run);
    NothingIsStuck(mode, c, run, i);
    NodeConverges(mode, c, run, i);
  }
}
