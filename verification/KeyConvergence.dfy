/**
 When a node ends up at the latest version of a key although its own writes to it may be stale: what counts
 is what still reaches the node after its last own write to the key.
 */
module KeyConvergence {
  import opened Hlc
  import opened KvStore
  import opened CausalBuffer
  import opened BufferTheory
  import opened Replication
  import opened NodeModel
  import opened Cluster
  import opened ClusterViews
  import opened Provenance
  import opened NodeInvariants
  import opened Convergence

  /** `y` was in flight to the node at the moment of `v1` and a log of `n1` writes, or was issued later. */
  ghost predicate Arriving(v1: View, n1: nat, log: seq<PendingWrite>, y: PendingWrite) {
    y in v1.flight || exists m :: n1 <= m < |log| && OnTheWire(log[m]) == y
  }

  /** As well, what the node held at that moment. */
  ghost predicate Due(v1: View, n1: nat, log: seq<PendingWrite>, y: PendingWrite) {
    Arriving(v1, n1, log, y) || y in v1.n.held
  }

  /** The key's version dates from that moment, or is that of a write to it that was due. */
  ghost predicate FromThere(v1: View, n1: nat, log: seq<PendingWrite>, v: View, key: string) {
    && (forall y | (y in v.flight || y in v.n.held) && y.key == key :: Due(v1, n1, log, y))
    && (key in v.n.data ==>
          || (key in v1.n.data && v.n.data[key].ts == v1.n.data[key].ts)
          || exists y :: Due(v1, n1, log, y) && y.key == key && y.val.ts == v.n.data[key].ts)
  }

  /** The key's version is not before that moment's, nor before any write to it that was due and has been merged. */
  ghost predicate NotBehind(v1: View, n1: nat, log: seq<PendingWrite>, v: View, key: string) {
    && (key in v1.n.data ==> AtLeast(v.n.data, key, v1.n.data[key].ts))
    && (forall y | Due(v1, n1, log, y) && y.key == key ::
          y in v.flight || y in v.n.held || AtLeast(v.n.data, key, y.val.ts))
  }

  /** The log when the node has seen event `e`. */
  function Extended(log: seq<PendingWrite>, e: Local): seq<PendingWrite> {
    if e.Own? || e.Foreign? then log + [e.w] else log
  }

  lemma DueStays(v1: View, n1: nat, log: seq<PendingWrite>, e: Local, y: PendingWrite)
    requires n1 <= |log|
    ensures Arriving(v1, n1, log, y) ==> Arriving(v1, n1, Extended(log, e), y)
    ensures e.Own? || e.Foreign? ==> Arriving(v1, n1, Extended(log, e), OnTheWire(e.w))
    ensures Arriving(v1, n1, Extended(log, e), y) ==>
              Arriving(v1, n1, log, y) || ((e.Own? || e.Foreign?) && y == OnTheWire(e.w))
  {
    var log' := Extended(log, e);
    if m :| n1 <= m < |log| && OnTheWire(log[m]) == y {
      assert log'[m] == log[m];
    }
    if e.Own? || e.Foreign? {
      assert log'[|log|] == e.w;
    }
  }

  /** `v'` comes from `v` by merging `applied`, all of which was in flight or held and none of which is lost. */
  ghost predicate Merges(v: View, v': View, applied: seq<PendingWrite>) {
    && v'.n.data == ApplyAll(v.n.data, applied)
    && (forall p | p in applied || p in v'.flight || p in v'.n.held :: p in v.flight || p in v.n.held)
    && (forall p | p in v.flight || p in v.n.held :: p in applied || p in v'.flight || p in v'.n.held)
  }

  lemma ArrivalMerges(mode: AsyncMode, v: View, w: PendingWrite, ts: Timestamp)
    requires w in v.flight
    ensures Merges(v, Move(mode, v, Arrival(w, ts)), Absorb(mode == Causal, v.n, w).applied)
  {
    AbsorbConserves(mode, v.n, w);
  }

  lemma FromThereMerged(v1: View, n1: nat, log: seq<PendingWrite>, v: View, v': View, applied: seq<PendingWrite>,
                        key: string)
    requires FromThere(v1, n1, log, v, key) && Merges(v, v', applied)
    ensures FromThere(v1, n1, log, v', key)
  {
    FoldIsMaximum(v.n.data, applied);
    if key in v'.n.data && !(key in v.n.data && v'.n.data[key] == v.n.data[key]) {
      assert HasSource(v.n.data, applied, key, v'.n.data[key]);
      var p :| p in applied && p.key == key && AsStored(p.val) == v'.n.data[key];
      assert Due(v1, n1, log, p);
    }
  }

  lemma NotBehindMerged(v1: View, n1: nat, log: seq<PendingWrite>, v: View, v': View, applied: seq<PendingWrite>,
                        key: string)
    requires NotBehind(v1, n1, log, v, key) && Merges(v, v', applied)
    ensures NotBehind(v1, n1, log, v', key)
  {
    FoldIsMaximum(v.n.data, applied);
    assert NotOlder(v'.n.data, v.n.data);
    if key in v1.n.data {
      NotOlderKeeps(v'.n.data, v.n.data, key, v1.n.data[key].ts);
    }
    forall y | Due(v1, n1, log, y) && y.key == key
      ensures y in v'.flight || y in v'.n.held || AtLeast(v'.n.data, key, y.val.ts)
    {
      if !(y in v.flight || y in v.n.held) {
        NotOlderKeeps(v'.n.data, v.n.data, key, y.val.ts);
      }
    }
  }

  lemma FromThereStep(mode: AsyncMode, v1: View, n1: nat, log: seq<PendingWrite>, v: View, key: string, e: Local)
    requires FromThere(v1, n1, log, v, key) && n1 <= |log|
    requires e.Own? ==> e.w.key != key
    requires e.Arrival? ==> e.w in v.flight
    ensures FromThere(v1, n1, Extended(log, e), Move(mode, v, e), key)
  {
    if e.Arrival? {
      ArrivalMerges(mode, v, e.w, e.ts);
      FromThereMerged(v1, n1, log, v, Move(mode, v, e), Absorb(mode == Causal, v.n, e.w).applied, key);
    } else {
      forall y ensures Due(v1, n1, log, y) ==> Due(v1, n1, Extended(log, e), y) {
        DueStays(v1, n1, log, e, y);
      }
      if e.Foreign? {
        DueStays(v1, n1, log, e, e.w);
      }
    }
  }

  lemma NotBehindStep(mode: AsyncMode, v1: View, n1: nat, log: seq<PendingWrite>, v: View, key: string, e: Local)
    requires NotBehind(v1, n1, log, v, key) && n1 <= |log| && !e.Gone?
    requires e.Own? ==> e.w.key != key
    requires e.Arrival? ==> e.w in v.flight
    ensures NotBehind(v1, n1, Extended(log, e), Move(mode, v, e), key)
  {
    if e.Arrival? {
      ArrivalMerges(mode, v, e.w, e.ts);
      NotBehindMerged(v1, n1, log, v, Move(mode, v, e), Absorb(mode == Causal, v.n, e.w).applied, key);
    } else {
      var v' := Move(mode, v, e);
      forall y | Due(v1, n1, Extended(log, e), y) && y.key == key
        ensures y in v'.flight || y in v'.n.held || AtLeast(v'.n.data, key, y.val.ts)
      {
        DueStays(v1, n1, log, e, y);
      }
    }
  }

  /** Node `i` does not write the key any more. */
  predicate NoOwnWrites(more: seq<Action>, i: nat, key: string) {
    forall a | a in more :: Writes(a, key) ==> a.node != i
  }

  lemma StepExtends(mode: AsyncMode, c: State, a: Action, i: nat, key: string)
    requires Shape(c) && i < |c.nodes| && (Writes(a, key) ==> a.node != i)
    ensures var e := EventAt(mode, c, a, i);
            && Step(mode, c, a).log == Extended(c.log, e)
            && (e.Own? ==> e.w.key != key)
            && (e.Gone? ==> Loses(mode, c, a))
  {
    LogGrows(mode, c, a);
    EventFacts(mode, c, a, i);
  }

  lemma FromThereNext(mode: AsyncMode, v1: View, n1: nat, c: State, a: Action, i: nat, key: string)
    requires Shape(c) && i < |c.nodes| && n1 <= |c.log| && (Writes(a, key) ==> a.node != i)
    requires FromThere(v1, n1, c.log, ViewOf(c, i), key)
    ensures FromThere(v1, n1, Step(mode, c, a).log, ViewOf(Step(mode, c, a), i), key)
  {
    StepIsMove(mode, c, a, i);
    EventFacts(mode, c, a, i);
    StepExtends(mode, c, a, i, key);
    FromThereStep(mode, v1, n1, c.log, ViewOf(c, i), key, EventAt(mode, c, a, i));
  }

  lemma {:induction false} LogOnlyGrows(mode: AsyncMode, c: State, run: seq<Action>, more: seq<Action>)
    requires Shape(c)
    ensures Exec(mode, c, run).log <= Exec(mode, c, run + more).log
  {
    if more == [] {
      assert run + more == run;
    } else {
      var before := run + more[..|more| - 1];
      assert (run + more)[..|run + more| - 1] == before;
      LogOnlyGrows(mode, c, run, more[..|more| - 1]);
      LogGrows(mode, Exec(mode, c, before), more[|more| - 1]);
    }
  }

  lemma {:induction false} FromThereOn(mode: AsyncMode, c: State, run: seq<Action>, more: seq<Action>, i: nat,
                                       key: string)
    requires Shape(c) && i < |c.nodes| && NoOwnWrites(more, i, key)
    ensures var s, r := Exec(mode, c, run), Exec(mode, c, run + more);
            FromThere(ViewOf(s, i), |s.log|, r.log, ViewOf(r, i), key)
  {
    if more == [] {
      assert run + more == run;
    } else {
      var before, a := run + more[..|more| - 1], more[|more| - 1];
      assert (run + more)[..|run + more| - 1] == before && a in more;
      FromThereOn(mode, c, run, more[..|more| - 1], i, key);
      LogOnlyGrows(mode, c, run, more[..|more| - 1]);
      var s := Exec(mode, c, run);
      FromThereNext(mode, ViewOf(s, i), |s.log|, Exec(mode, c, before), a, i, key);
    }
  }

  lemma NotBehindNext(mode: AsyncMode, v1: View, n1: nat, c: State, a: Action, i: nat, key: string)
    requires Shape(c) && i < |c.nodes| && n1 <= |c.log| && (Writes(a, key) ==> a.node != i)
    requires NotBehind(v1, n1, c.log, ViewOf(c, i), key) && !Loses(mode, c, a)
    ensures NotBehind(v1, n1, Step(mode, c, a).log, ViewOf(Step(mode, c, a), i), key)
  {
    StepIsMove(mode, c, a, i);
    EventFacts(mode, c, a, i);
    StepExtends(mode, c, a, i, key);
    NotBehindStep(mode, v1, n1, c.log, ViewOf(c, i), key, EventAt(mode, c, a, i));
  }

  lemma {:induction false} NotBehindFrom(mode: AsyncMode, c: State, run: seq<Action>, more: seq<Action>, i: nat,
                                         key: string)
    requires Shape(c) && i < |c.nodes| && NoOwnWrites(more, i, key) && Lossless(mode, c, run + more)
    ensures var s, r := Exec(mode, c, run), Exec(mode, c, run + more);
            NotBehind(ViewOf(s, i), |s.log|, r.log, ViewOf(r, i), key)
  {
    if more == [] {
      assert run + more == run;
    } else {
      var before, a := run + more[..|more| - 1], more[|more| - 1];
      assert (run + more)[..|run + more| - 1] == before && a in more;
      assert Lossless(mode, c, before) && !Loses(mode, Exec(mode, c, before), a);
      NotBehindFrom(mode, c, run, more[..|more| - 1], i, key);
      LogOnlyGrows(mode, c, run, more[..|more| - 1]);
      var s := Exec(mode, c, run);
      NotBehindNext(mode, ViewOf(s, i), |s.log|, Exec(mode, c, before), a, i, key);
    }
  }

  /** The moment's version of its key is at or after `w`, or a write that is is due. */
  ghost predicate Covered(v1: View, n1: nat, log: seq<PendingWrite>, w: PendingWrite) {
    || AtLeast(v1.n.data, w.key, w.val.ts)
    || exists y :: Due(v1, n1, log, y) && y.key == w.key && AfterOrEqual(y.val.ts, w.val.ts)
  }

  /** Every write to the key in the log of that moment, `early`, is covered. */
  ghost predicate KeyCovered(v1: View, early: seq<PendingWrite>, log: seq<PendingWrite>, key: string) {
    forall m | 0 <= m < |early| && early[m].key == key :: Covered(v1, |early|, log, early[m])
  }

  lemma LatestNeedsCover(v1: View, n1: nat, log: seq<PendingWrite>, v: View, w: PendingWrite)
    requires FromThere(v1, n1, log, v, w.key) && AtLeast(v.n.data, w.key, w.val.ts)
    ensures Covered(v1, n1, log, w)
  {
  }

  /** No held write to the key is after the node's version. */
  ghost predicate HeldReached(n: NodeState, key: string) {
    forall h | h in n.held && h.key == key :: AtLeast(n.data, key, h.val.ts)
  }

  lemma CoverSuffices(v1: View, n1: nat, log: seq<PendingWrite>, v: View, w: PendingWrite)
    requires NotBehind(v1, n1, log, v, w.key) && Covered(v1, n1, log, w)
    requires v.flight == multiset{} && HeldReached(v.n, w.key)
    ensures AtLeast(v.n.data, w.key, w.val.ts)
  {
    if AtLeast(v1.n.data, w.key, w.val.ts) {
      CompareIsTotalOrder(v.n.data[w.key].ts, v1.n.data[w.key].ts, w.val.ts);
    } else {
      var y :| Due(v1, n1, log, y) && y.key == w.key && AfterOrEqual(y.val.ts, w.val.ts);
      CompareIsTotalOrder(v.n.data[w.key].ts, y.val.ts, w.val.ts);
    }
  }

  lemma LatestReachesLogged(log: seq<PendingWrite>, d: Data, h: PendingWrite)
    requires Logged(log, h) && KeyAtLatest(log, d, h.key)
    ensures AtLeast(d, h.key, h.val.ts)
  {
    var m :| 0 <= m < |log| && OnTheWire(log[m]) == h;
    assert log[m].key == h.key;
  }

  /**
   Stale writes are allowed here.  From any moment after which node `i` does not write the key itself, it rests at the
   key's latest version exactly when every write issued before was then covered at the node, and what it still holds
   for the key is not later.
   */
  lemma KeyConvergesExactly(mode: AsyncMode, c: State, run: seq<Action>, more: seq<Action>, i: nat, key: string)
    requires Initial(c) && i < |c.nodes| && NoOwnWrites(more, i, key)
    requires Lossless(mode, c, run + more) && Quiescent(Exec(mode, c, run + more))
    ensures var s, r := Exec(mode, c, run), Exec(mode, c, run + more);
            KeyAtLatest(r.log, r.nodes[i].data, key)
            <==> HeldReached(r.nodes[i], key) && KeyCovered(ViewOf(s, i), s.log, r.log, key)
  {
    var s, r := Exec(mode, c, run), Exec(mode, c, run + more);
    FromThereOn(mode, c, run, more, i, key);
    LogOnlyGrows(mode, c, run, more);
    NotBehindFrom(mode, c, run, more, i, key);
    RunsAreProvenanced(mode, c, run + more);
    assert Traced(r.log, ViewOf(r, i));
    assert forall m | 0 <= m < |s.log| :: s.log[m] == r.log[m];
    if KeyAtLatest(r.log, r.nodes[i].data, key) {
      forall h | h in r.nodes[i].held && h.key == key ensures AtLeast(r.nodes[i].data, key, h.val.ts) {
        LatestReachesLogged(r.log, r.nodes[i].data, h);
      }
      forall m | 0 <= m < |s.log| && s.log[m].key == key ensures Covered(ViewOf(s, i), |s.log|, r.log, s.log[m]) {
        LatestNeedsCover(ViewOf(s, i), |s.log|, r.log, ViewOf(r, i), r.log[m]);
      }
    }
    if HeldReached(r.nodes[i], key) && KeyCovered(ViewOf(s, i), s.log, r.log, key) {
      forall m | 0 <= m < |r.log| && r.log[m].key == key ensures AtLeast(r.nodes[i].data, key, r.log[m].val.ts) {
        if m >= |s.log| {
          assert Due(ViewOf(s, i), |s.log|, r.log, OnTheWire(r.log[m]));
        }
        CoverSuffices(ViewOf(s, i), |s.log|, r.log, ViewOf(r, i), r.log[m]);
      }
    }
  }

  /** At the latest versions of all keys, a node has exactly those that were ever written. */
  lemma LatestIsEachKey(log: seq<PendingWrite>, v: View)
    requires Traced(log, v)
    ensures AtLatestVersions(log, v.n.data) <==> forall key :: KeyAtLatest(log, v.n.data, key)
  {
    forall k | k in v.n.data ensures Known(log, |log|, k, v.n.data[k].ts) {
      assert StoredFrom(log, v.done, k, v.n.data[k]);
    }
    if forall key :: KeyAtLatest(log, v.n.data, key) {
      forall m | 0 <= m < |log| ensures AtLeast(v.n.data, log[m].key, log[m].val.ts) {
        assert KeyAtLatest(log, v.n.data, log[m].key);
      }
    }
  }

  /** The same for the whole node, from any moment after which it takes no client writes. */
  lemma NodeConvergesExactly(mode: AsyncMode, c: State, run: seq<Action>, more: seq<Action>, i: nat)
    requires Initial(c) && i < |c.nodes| && NoWritesAt(more, i)
    requires Lossless(mode, c, run + more) && Quiescent(Exec(mode, c, run + more))
    ensures var s, r := Exec(mode, c, run), Exec(mode, c, run + more);
            AtLatestVersions(r.log, r.nodes[i].data)
            <==> forall key :: HeldReached(r.nodes[i], key) && KeyCovered(ViewOf(s, i), s.log, r.log, key)
  {
    var s, r := Exec(mode, c, run), Exec(mode, c, run + more);
    RunsAreProvenanced(mode, c, run + more);
    assert Traced(r.log, ViewOf(r, i));
    LatestIsEachKey(r.log, ViewOf(r, i));
    forall key
      ensures KeyAtLatest(r.log, r.nodes[i].data, key)
              <==> HeldReached(r.nodes[i], key) && KeyCovered(ViewOf(s, i), s.log, r.log, key)
    {
      KeyConvergesExactly(mode, c, run, more, i, key);
    }
  }

  /** So a node rests at the latest version of a key that it never writes exactly when it holds nothing later for it. */
  lemma UnwrittenKeyConverges(mode: AsyncMode, c: State, run: seq<Action>, i: nat, key: string)
    requires Initial(c) && i < |c.nodes| && NoOwnWrites(run, i, key)
    requires Lossless(mode, c, run) && Quiescent(Exec(mode, c, run))
    ensures var r := Exec(mode, c, run); KeyAtLatest(r.log, r.nodes[i].data, key) <==> HeldReached(r.nodes[i], key)
  {
    assert [] + run == run;
    KeyConvergesExactly(mode, c, [], run, i, key);
  }

  /** The version a stale write takes back is that of a logged write, and is gone after it. */
  lemma StaleWriteTakesBack(mode: AsyncMode, s: State, a: Action) returns (m: nat)
    requires Shape(s) && Provenanced(s) && Issued(mode, s, a).Some?
    requires !KeepsVersion(s.nodes[a.node], Issued(mode, s, a).value)
    ensures a.key in s.nodes[a.node].data && m < |s.log| && s.log <= Step(mode, s, a).log
    ensures s.log[m].key == a.key && s.log[m].val.ts == s.nodes[a.node].data[a.key].ts
    ensures !AtLeast(Step(mode, s, a).nodes[a.node].data, a.key, s.log[m].val.ts)
  {
    LogGrows(mode, s, a);
    assert Traced(s.log, ViewOf(s, a.node));
    assert StoredFrom(s.log, s.done[a.node], a.key, s.nodes[a.node].data[a.key]);
    m :| 0 <= m < |s.log| && s.log[m].key == a.key && s.log[m].val.ts == s.nodes[a.node].data[a.key].ts;
  }

  /**
   A tied write is not healed by itself, in any run: when nothing that is due is as late as the version it took back,
   the node is behind on the key at every later moment, at rest or not, with or without losses.
   */
  lemma LoweredKeyStaysBehind(mode: AsyncMode, c: State, run: seq<Action>, a: Action, more: seq<Action>)
    requires Initial(c) && Issued(mode, Exec(mode, c, run), a).Some? && NoOwnWrites(more, a.node, a.key)
    requires !KeepsVersion(Exec(mode, c, run).nodes[a.node], Issued(mode, Exec(mode, c, run), a).value)
    requires var s, s1, r := Exec(mode, c, run), Exec(mode, c, run + [a]), Exec(mode, c, run + [a] + more);
             forall y | Due(ViewOf(s1, a.node), |s1.log|, r.log, y) && y.key == a.key ::
               Before(y.val.ts, s.nodes[a.node].data[a.key].ts)
    ensures var r := Exec(mode, c, run + [a] + more);
            !KeyAtLatest(r.log, r.nodes[a.node].data, a.key)
  {
    var i := a.node;
    var s, s1, r := Exec(mode, c, run), Exec(mode, c, run + [a]), Exec(mode, c, run + [a] + more);
    assert (run + [a])[..|run|] == run;
    RunsAreProvenanced(mode, c, run);
    var m := StaleWriteTakesBack(mode, s, a);
    FromThereOn(mode, c, run + [a], more, i, a.key);
    LogOnlyGrows(mode, c, run + [a], more);
    assert s.log[m] == s1.log[m] == r.log[m];
  }

  // Held for good -------------------------------------------------------------------------------

  lemma MergedTooEarly(d: Data, ps: seq<PendingWrite>, dep: Dependency)
    requires Before(Version(d, dep.key), dep.minTs)
    requires forall p | p in ps && p.key == dep.key :: Before(p.val.ts, dep.minTs)
    ensures Before(Version(ApplyAll(d, ps), dep.key), dep.minTs)
  {
    FoldIsMaximum(d, ps);
    if dep.key in ApplyAll(d, ps) {
      assert HasSource(d, ps, dep.key, ApplyAll(d, ps)[dep.key]);
    }
  }

  /** No order of merging makes `h` ready when neither the contents nor the merged writes are as late as it asks. */
  lemma NeverReady(d: Data, ps: seq<PendingWrite>, h: PendingWrite, dep: Dependency)
    requires Derivation(d, ps) && dep in h.val.deps && Before(Version(d, dep.key), dep.minTs)
    requires forall p | p in ps && p.key == dep.key :: Before(p.val.ts, dep.minTs)
    ensures h !in ps
  {
    if h in ps {
      var i :| 0 <= i < |ps| && ps[i] == h;
      assert ReadyAt(d, ps, i);
      MergedTooEarly(d, ps[..i], dep);
      assert false;
    }
  }

  lemma StaysHeld(v: View, e: Local, h: PendingWrite, dep: Dependency)
    requires h in v.n.held && dep in h.val.deps && Before(Version(v.n.data, dep.key), dep.minTs)
    requires forall p | (p in v.flight || p in v.n.held) && p.key == dep.key :: Before(p.val.ts, dep.minTs)
    requires e.Arrival? ==> e.w in v.flight
    ensures h in Move(Causal, v, e).n.held
  {
    if e.Arrival? {
      AbsorbConserves(Causal, v.n, e.w);
      NeverReady(v.n.data, Absorb(true, v.n, e.w).applied, h, dep);
    }
  }

  /** Nothing that is due, out of a log that can still grow, is as late as `dep` asks. */
  ghost predicate NothingDue(v1: View, n1: nat, log: seq<PendingWrite>, dep: Dependency) {
    forall y | Due(v1, n1, log, y) && y.key == dep.key :: Before(y.val.ts, dep.minTs)
  }

  lemma NothingDueBefore(v1: View, n1: nat, log: seq<PendingWrite>, longer: seq<PendingWrite>, dep: Dependency)
    requires NothingDue(v1, n1, longer, dep) && log <= longer
    ensures NothingDue(v1, n1, log, dep)
  {
    forall y | Due(v1, n1, log, y) ensures Due(v1, n1, longer, y) {
      if m :| n1 <= m < |log| && OnTheWire(log[m]) == y {
        assert longer[m] == log[m];
      }
    }
  }

  lemma StillTooEarly(v1: View, n1: nat, log: seq<PendingWrite>, v: View, dep: Dependency)
    requires FromThere(v1, n1, log, v, dep.key) && NothingDue(v1, n1, log, dep)
    requires Before(Version(v1.n.data, dep.key), dep.minTs) && (dep.key in v1.n.data ==> dep.key in v.n.data)
    ensures Before(Version(v.n.data, dep.key), dep.minTs)
    ensures forall p | (p in v.flight || p in v.n.held) && p.key == dep.key :: Before(p.val.ts, dep.minTs)
  {
  }

  /**
   A held write whose dependency the node is short of, with nothing as late still to reach it and no own write to
   the key, stays held at every later moment of every run, with or without losses.
   */
  lemma {:induction false} HeldForGood(c: State, run: seq<Action>, more: seq<Action>, i: nat,
                                       h: PendingWrite, dep: Dependency)
    requires Shape(c) && i < |c.nodes| && NoOwnWrites(more, i, dep.key)
    requires var s := Exec(Causal, c, run);
             && h in s.nodes[i].held && dep in h.val.deps
             && Before(Version(s.nodes[i].data, dep.key), dep.minTs)
             && NothingDue(ViewOf(s, i), |s.log|, Exec(Causal, c, run + more).log, dep)
    ensures h in Exec(Causal, c, run + more).nodes[i].held
    ensures dep.key in Exec(Causal, c, run).nodes[i].data ==> dep.key in Exec(Causal, c, run + more).nodes[i].data
  {
    if more == [] {
      assert run + more == run;
    } else {
      var init, a := more[..|more| - 1], more[|more| - 1];
      assert (run + more)[..|run + more| - 1] == run + init && a in more;
      var s, q, r := Exec(Causal, c, run), Exec(Causal, c, run + init), Exec(Causal, c, run + more);
      LogGrows(Causal, q, a);
      NothingDueBefore(ViewOf(s, i), |s.log|, q.log, r.log, dep);
      HeldForGood(c, run, init, i, h, dep);
      FromThereOn(Causal, c, run, init, i, dep.key);
      StillTooEarly(ViewOf(s, i), |s.log|, q.log, ViewOf(q, i), dep);
      HeldNext(q, a, i, h, dep);
    }
  }

  lemma HeldNext(c: State, a: Action, i: nat, h: PendingWrite, dep: Dependency)
    requires Shape(c) && i < |c.nodes| && h in c.nodes[i].held && dep in h.val.deps
    requires Before(Version(c.nodes[i].data, dep.key), dep.minTs)
    requires forall p | (p in c.flight[i] || p in c.nodes[i].held) && p.key == dep.key :: Before(p.val.ts, dep.minTs)
    ensures h in Step(Causal, c, a).nodes[i].held
    ensures dep.key in c.nodes[i].data ==> dep.key in Step(Causal, c, a).nodes[i].data
  {
    var v, e := ViewOf(c, i), EventAt(Causal, c, a, i);
    StepIsMove(Causal, c, a, i);
    EventFacts(Causal, c, a, i);
    StaysHeld(v, e, h, dep);
    if e.Arrival? {
      AbsorbConserves(Causal, v.n, e.w);
      FoldIsMaximum(v.n.data, Absorb(true, v.n, e.w).applied);
    }
    assert ViewOf(Step(Causal, c, a), i).n == Step(Causal, c, a).nodes[i];
  }
}
