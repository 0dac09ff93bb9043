/**
 A cluster in which one node takes all client writes: nothing more is needed for it to converge.
 */
module OneWriter {
  import opened Hlc
  import opened KvStore
  import opened CausalBuffer
  import opened BufferTheory
  import opened Cluster
  import opened ClusterViews
  import opened Convergence
  import opened Contents
  import opened ClockTheory

  ghost predicate OnlyWriter(run: seq<Action>, o: nat) {
    forall a | a in run :: IsClientWrite(a) ==> a.node == o
  }

  /** A lone writer is sent nothing, so it meets no tie, and its timestamps increase. */
  ghost predicate LoneWriter(c: State, o: nat)
    requires Shape(c) && o < |c.nodes|
  {
    && c.flight[o] == multiset{}
    && (forall m | 0 <= m < |c.log| :: AfterOrEqual(c.nodes[o].clock, c.log[m].val.ts))
    && (forall m, p | 0 <= m < p < |c.log| :: Before(c.log[m].val.ts, c.log[p].val.ts))
  }

  lemma LoneWriterStep(mode: AsyncMode, c: State, a: Action, o: nat)
    requires Shape(c) && o < |c.nodes| && LoneWriter(c, o) && (IsClientWrite(a) ==> a.node == o)
    ensures LoneWriter(Step(mode, c, a), o)
    ensures a.node == o ==> !TieDelivery(c, a)
  {
    LogGrows(mode, c, a);
    StepIsMove(mode, c, a, o);
    EventFacts(mode, c, a, o);
    if Issued(mode, c, a).Some? {
      SendCharacterised(c.nodes[o].clock, a.now);
      assert ViewOf(Step(mode, c, a), o).flight == c.flight[o];
    }
  }

  lemma {:induction false} LoneWriterRun(mode: AsyncMode, c: State, run: seq<Action>, o: nat)
    requires Initial(c) && o < |c.nodes| && OnlyWriter(run, o)
    ensures LoneWriter(Exec(mode, c, run), o) && TieFreeAt(mode, c, run, o)
  {
    if run == [] {
    } else {
      assert run[|run| - 1] in run;
      LoneWriterRun(mode, c, run[..|run| - 1], o);
      LoneWriterStep(mode, Exec(mode, c, run[..|run| - 1]), run[|run| - 1], o);
    }
  }

  /** With one writer no write takes back a version and timestamps identify writes, whatever the clocks do. */
  lemma OneWriterKeepsVersions(mode: AsyncMode, c: State, run: seq<Action>, o: nat)
    requires Initial(c) && o < |c.nodes| && OnlyWriter(run, o)
    ensures KeepsVersions(mode, c, run) && Unambiguous(Exec(mode, c, run).log)
  {
    LoneWriterRun(mode, c, run, o);
    forall i | 0 <= i < |c.nodes| ensures KeepsVersionsAt(mode, c, run, i) {
      assert i != o ==> NoWritesAt(run, i);
      UntiedNodeKeepsVersions(mode, c, run, i);
    }
    var log := Exec(mode, c, run).log;
    forall p, q | p in log && q in log && p.key == q.key && p.val.ts == q.val.ts
      ensures AsStored(p.val) == AsStored(q.val)
    {
      var m :| 0 <= m < |log| && log[m] == p;
      var l :| 0 <= l < |log| && log[l] == q;
      assert m == l;
    }
  }

  /** One writer, any schedule, any clocks: at rest every node answers every read as the writer does. */
  lemma ReplicasMatchTheWriter(mode: AsyncMode, c: State, run: seq<Action>, o: nat, i: nat, key: string)
    requires Initial(c) && o < |c.nodes| && i < |c.nodes| && OnlyWriter(run, o)
    requires Lossless(mode, c, run) && Quiescent(Exec(mode, c, run)) && NonEmptyPuts(run)
    ensures var r := Exec(mode, c, run);
            && r.nodes[i].held == []
            && r.nodes[i].data == r.nodes[o].data
            && Lookup(r.nodes[i].data, key) == Lookup(r.nodes[o].data, key)
  {
    OneWriterKeepsVersions(mode, c, run, o);
    NothingIsStuck(mode, c, run, i);
    ContentsConverge(mode, c, run);
  }

  // Empty values --------------------------------------------------------------------------------

  ghost predicate AllPlain(d: Data) { forall k | k in d :: Plain(d[k]) }

  lemma {:induction false} SilentNodeIssuesNothing(mode: AsyncMode, c: State, run: seq<Action>, i: nat)
    requires Initial(c) && NoWritesAt(run, i)
    ensures forall m | 0 <= m < |Exec(mode, c, run).log| :: Exec(mode, c, run).origin[m] != i
  {
    if run == [] {
    } else {
      assert run[|run| - 1] in run;
      SilentNodeIssuesNothing(mode, c, run[..|run| - 1], i);
      LogGrows(mode, Exec(mode, c, run[..|run| - 1]), run[|run| - 1]);
    }
  }

  /** A node that takes no client writes stores only plain values. */
  lemma PeersStorePlainValues(mode: AsyncMode, c: State, run: seq<Action>, i: nat)
    requires Initial(c) && i < |c.nodes| && NoWritesAt(run, i)
    ensures AllPlain(Exec(mode, c, run).nodes[i].data)
  {
    OthersValuesArePlain(mode, c, run, i);
    SilentNodeIssuesNothing(mode, c, run, i);
  }

  lemma PlainValuesAgree(c: State, i: nat, j: nat, key: string)
    requires Shape(c) && Grounded(c) && Unambiguous(c.log) && AllAtLatest(c, key) && i < |c.nodes| && j < |c.nodes|
    requires key in c.nodes[i].data && key in c.nodes[j].data
    requires Plain(c.nodes[i].data[key]) && Plain(c.nodes[j].data[key])
    ensures c.nodes[i].data[key] == c.nodes[j].data[key]
  {
    var p := ValueAtLatest(c, i, key);
    var q := ValueAtLatest(c, j, key);
    assert AsStored(p.val) == AsStored(q.val);
  }

  /** Contents agree at rest exactly when the writer is left with no empty value that it did not delete. */
  lemma ReplicasMatchExactly(mode: AsyncMode, c: State, run: seq<Action>, o: nat, i: nat)
    requires Initial(c) && o < |c.nodes| && i < |c.nodes| && i != o && OnlyWriter(run, o)
    requires Lossless(mode, c, run) && Quiescent(Exec(mode, c, run))
    ensures var r := Exec(mode, c, run);
            r.nodes[i].data == r.nodes[o].data <==> AllPlain(r.nodes[o].data)
  {
    var r := Exec(mode, c, run);
    PeersStorePlainValues(mode, c, run, i);
    if AllPlain(r.nodes[o].data) {
      OneWriterKeepsVersions(mode, c, run, o);
      ClusterConverges(mode, c, run, i, o);
      SettledIsLatest(mode, c, run);
      RunsAreGrounded(mode, c, run);
      forall k | k in r.nodes[i].data ensures r.nodes[i].data[k] == r.nodes[o].data[k] {
        assert AllAtLatest(r, k);
        PlainValuesAgree(r, i, o, k);
      }
    }
  }
}
