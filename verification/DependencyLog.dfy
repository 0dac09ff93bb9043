/**
 Every successful read at a causal node becomes a dependency of exactly one write: the node's next.
 */
module DependencyLog {
  import opened KvStore
  import opened Replication
  import opened Cluster
  import opened ClusterViews

  /** The version a successful read at node `i` returns. */
  function ReadBy(s: State, a: Action, i: nat): seq<Dependency>
    requires Shape(s) && i < |s.nodes|
  {
    if a.Get? && a.node == i && Lookup(s.nodes[i].data, a.key).Some?
    then [Dependency(a.key, Lookup(s.nodes[i].data, a.key).value.ts)] else []
  }

  /** The dependencies of the write that node `i` issues. */
  function AttachedBy(s: State, a: Action, i: nat): seq<Dependency>
    requires Shape(s)
  {
    if a.node == i && Issued(Causal, s, a).Some? then Issued(Causal, s, a).value.val.deps else []
  }

  /** The versions that successful reads at node `i` returned over a run, in order. */
  function ReadsAt(c: State, run: seq<Action>, i: nat): seq<Dependency>
    requires Shape(c) && i < |c.nodes|
  {
    if run == [] then [] else
    var init := run[..|run| - 1];
    ReadsAt(c, init, i) + ReadBy(Exec(Causal, c, init), run[|run| - 1], i)
  }

  /** The dependency lists of the writes that node `i` issued over a run, concatenated in order. */
  function AttachedAt(c: State, run: seq<Action>, i: nat): seq<Dependency>
    requires Shape(c)
  {
    if run == [] then [] else
    var init := run[..|run| - 1];
    AttachedAt(c, init, i) + AttachedBy(Exec(Causal, c, init), run[|run| - 1], i)
  }

  lemma RecordedMoves(v: View, e: Local)
    ensures Move(Causal, v, e).n.recorded ==
            if e.Own? then []
            else if e.Read? && Lookup(v.n.data, e.key).Some?
            then v.n.recorded + [Dependency(e.key, Lookup(v.n.data, e.key).value.ts)]
            else v.n.recorded
  {
  }

  /** A write takes all recorded reads and leaves none; a successful read adds itself; nothing else matters. */
  lemma RecordedStep(s: State, a: Action, i: nat)
    requires Shape(s) && i < |s.nodes|
    ensures if a.node == i && Issued(Causal, s, a).Some?
            then AttachedBy(s, a, i) == s.nodes[i].recorded && Step(Causal, s, a).nodes[i].recorded == []
            else && AttachedBy(s, a, i) == []
                 && Step(Causal, s, a).nodes[i].recorded == s.nodes[i].recorded + ReadBy(s, a, i)
    ensures AttachedBy(s, a, i) + Step(Causal, s, a).nodes[i].recorded == s.nodes[i].recorded + ReadBy(s, a, i)
  {
    StepIsMove(Causal, s, a, i);
    EventFacts(Causal, s, a, i);
    RecordedMoves(ViewOf(s, i), EventAt(Causal, s, a, i));
    assert ViewOf(Step(Causal, s, a), i).n == Step(Causal, s, a).nodes[i];
  }

  /** Reads are neither lost, repeated nor reordered: attached ones, then those still recorded, are all of them. */
  lemma {:induction false} ReadsAreConserved(c: State, run: seq<Action>, i: nat)
    requires Initial(c) && i < |c.nodes|
    ensures AttachedAt(c, run, i) + Exec(Causal, c, run).nodes[i].recorded == ReadsAt(c, run, i)
  {
    if run == [] {
    } else {
      var init, a := run[..|run| - 1], run[|run| - 1];
      ReadsAreConserved(c, init, i);
      RecordedStep(Exec(Causal, c, init), a, i);
      Regroup(AttachedAt(c, init, i), AttachedBy(Exec(Causal, c, init), a, i), Exec(Causal, c, run).nodes[i].recorded);
      Regroup(AttachedAt(c, init, i), Exec(Causal, c, init).nodes[i].recorded, ReadBy(Exec(Causal, c, init), a, i));
    }
  }

  lemma Regroup<T>(a: seq<T>, b: seq<T>, c: seq<T>)
    ensures (a + b) + c == a + (b + c)
  {
  }
}
