/**
 Put A, read A, put B at one node of a causal cluster: no replica that has shown B can then fail to show A.
 This is the observation that internal/experiments/experiments.go makes on a replica.
 */
module CausalChains {
  import opened Hlc
  import opened KvStore
  import opened CausalBuffer
  import opened BufferTheory
  import opened Replication
  import opened NodeModel
  import opened Cluster
  import opened ClusterViews
  import opened Provenance
  import opened CausalClosure
  import opened DependencyLog

  /** The cluster after the first `t` actions. */
  function At(c: State, run: seq<Action>, t: nat): (s: State)
    requires Shape(c) && t <= |run|
    ensures Shape(s) && |s.nodes| == |c.nodes|
  {
    Exec(Causal, c, run[..t])
  }

  lemma NextAt(c: State, run: seq<Action>, t: nat)
    requires Shape(c) && t < |run|
    ensures At(c, run, t + 1) == Step(Causal, At(c, run, t), run[t])
  {
    assert run[..t + 1][..t] == run[..t];
  }

  /** `key` is written by action `p` of the run and by no other. */
  ghost predicate WrittenOnce(run: seq<Action>, p: nat, key: string) {
    && p < |run| && run[p].Put? && run[p].key == key && run[p].data != []
    && forall t | 0 <= t < |run| && t != p :: !Writes(run[t], key)
  }

  /** The write that action `p` issues. */
  function WriteOf(c: State, run: seq<Action>, p: nat): PendingWrite
    requires Shape(c) && p < |run| && Issued(Causal, At(c, run, p), run[p]).Some?
  {
    Issued(Causal, At(c, run, p), run[p]).value
  }

  ghost predicate OnlyWrite(log: seq<PendingWrite>, key: string, w: PendingWrite) {
    forall m | 0 <= m < |log| && log[m].key == key :: log[m] == w
  }

  lemma {:induction false} LogHasOneWrite(c: State, run: seq<Action>, p: nat, key: string, t: nat)
    requires Initial(c) && WrittenOnce(run, p, key) && t <= |run|
    requires Issued(Causal, At(c, run, p), run[p]).Some?
    ensures OnlyWrite(At(c, run, t).log, key, WriteOf(c, run, p))
  {
    if t > 0 {
      LogHasOneWrite(c, run, p, key, t - 1);
      OnlyWriteAt(c, run, p, key, t - 1);
    }
  }

  lemma OnlyWriteAt(c: State, run: seq<Action>, p: nat, key: string, t: nat)
    requires Shape(c) && WrittenOnce(run, p, key) && t < |run|
    requires Issued(Causal, At(c, run, p), run[p]).Some?
    requires OnlyWrite(At(c, run, t).log, key, WriteOf(c, run, p))
    ensures OnlyWrite(At(c, run, t + 1).log, key, WriteOf(c, run, p))
  {
    OnlyWriteStep(At(c, run, t), run[t], key, WriteOf(c, run, p));
    NextAt(c, run, t);
  }

  lemma OnlyWriteStep(s: State, a: Action, key: string, w: PendingWrite)
    requires Shape(s) && OnlyWrite(s.log, key, w)
    requires Writes(a, key) && Issued(Causal, s, a).Some? ==> Issued(Causal, s, a).value == w
    ensures OnlyWrite(Step(Causal, s, a).log, key, w)
  {
    LogGrows(Causal, s, a);
    if Issued(Causal, s, a).Some? {
      IssuedIsRequested(Causal, s, a);
    }
  }

  /** A stored version of a key written once is that write. */
  lemma StoredIsTheWrite(c: State, run: seq<Action>, p: nat, key: string, t: nat, i: nat)
    requires Initial(c) && WrittenOnce(run, p, key) && t <= |run| && i < |c.nodes|
    requires Issued(Causal, At(c, run, p), run[p]).Some?
    requires key in At(c, run, t).nodes[i].data
    ensures At(c, run, t).nodes[i].data[key] == WriteOf(c, run, p).val
    ensures WriteOf(c, run, p) in At(c, run, t).done[i]
  {
    var s, w := At(c, run, t), WriteOf(c, run, p);
    LogHasOneWrite(c, run, p, key, t);
    RunsAreProvenanced(Causal, c, run[..t]);
    assert Traced(s.log, ViewOf(s, i));
    assert StoredFrom(s.log, s.done[i], key, s.nodes[i].data[key]);
    assert OnTheWire(w) == w;
  }

  lemma KeyStaysAt(c: State, run: seq<Action>, t: nat, i: nat, key: string)
    requires Shape(c) && t < |run| && i < |c.nodes| && key in At(c, run, t).nodes[i].data
    ensures key in At(c, run, t + 1).nodes[i].data
  {
    var s := At(c, run, t);
    KeyStaysStep(s, run[t], i, key);
    NextAt(c, run, t);
  }

  lemma {:induction false} KeysNeverVanish(c: State, run: seq<Action>, t: nat, u: nat, i: nat, key: string)
    requires Initial(c) && t <= u <= |run| && i < |c.nodes| && key in At(c, run, t).nodes[i].data
    ensures key in At(c, run, u).nodes[i].data
    decreases u
  {
    if t < u {
      KeysNeverVanish(c, run, t, u - 1, i, key);
      KeyStaysAt(c, run, u - 1, i, key);
    }
  }

  lemma KeyStaysStep(s: State, a: Action, i: nat, key: string)
    requires Shape(s) && i < |s.nodes| && key in s.nodes[i].data
    ensures key in Step(Causal, s, a).nodes[i].data
  {
    StepIsMove(Causal, s, a, i);
    KeyStays(ViewOf(s, i), EventAt(Causal, s, a, i), key);
    assert ViewOf(Step(Causal, s, a), i).n == Step(Causal, s, a).nodes[i];
  }

  lemma KeyStays(v: View, e: Local, key: string)
    requires key in v.n.data
    ensures key in Move(Causal, v, e).n.data
  {
    if e.Arrival? {
      AbsorbConserves(Causal, v.n, e.w);
      FoldIsMaximum(v.n.data, Absorb(true, v.n, e.w).applied);
    }
  }

  /** What a node has read stays recorded until it writes. */
  lemma {:induction false} ReadStaysRecorded(c: State, run: seq<Action>, t: nat, u: nat, o: nat, d: Dependency)
    requires Initial(c) && t <= u <= |run| && o < |c.nodes| && d in At(c, run, t).nodes[o].recorded
    requires forall k | t <= k < u :: !(IsClientWrite(run[k]) && run[k].node == o)
    ensures d in At(c, run, u).nodes[o].recorded
    decreases u
  {
    if t < u {
      ReadStaysRecorded(c, run, t, u - 1, o, d);
      ReadStaysAt(c, run, u - 1, o, d);
    }
  }

  lemma ReadStaysAt(c: State, run: seq<Action>, t: nat, o: nat, d: Dependency)
    requires Shape(c) && t < |run| && o < |c.nodes| && d in At(c, run, t).nodes[o].recorded
    requires !(IsClientWrite(run[t]) && run[t].node == o)
    ensures d in At(c, run, t + 1).nodes[o].recorded
  {
    RecordedStep(At(c, run, t), run[t], o);
    NextAt(c, run, t);
  }

  /** Actions `a`, `g`, `b` of the run: node `o` puts `keyA`, reads it, and puts `keyB` as its next write. */
  ghost predicate Chain(c: State, run: seq<Action>, o: nat, a: nat, g: nat, b: nat, keyA: string, keyB: string)
    requires Shape(c)
  {
    && o < |c.nodes| && a < g < b < |run| && keyA != keyB
    && WrittenOnce(run, a, keyA) && WrittenOnce(run, b, keyB)
    && run[a].node == o && run[g] == Get(o, keyA) && run[b].node == o
    && (forall k | g < k < b :: !(IsClientWrite(run[k]) && run[k].node == o))
    && Issued(Causal, At(c, run, a), run[a]).Some?
    && Issued(Causal, At(c, run, b), run[b]).Some?
  }

  lemma OwnWriteIsStored(s: State, a: Action)
    requires Shape(s) && Issued(Causal, s, a).Some?
    ensures a.key in Step(Causal, s, a).nodes[a.node].data
  {
  }

  lemma StoredAfter(c: State, run: seq<Action>, t: nat)
    requires Shape(c) && t < |run| && Issued(Causal, At(c, run, t), run[t]).Some?
    ensures run[t].key in At(c, run, t + 1).nodes[run[t].node].data
  {
    OwnWriteIsStored(At(c, run, t), run[t]);
    NextAt(c, run, t);
  }

  lemma RecordedAfter(c: State, run: seq<Action>, t: nat, o: nat, key: string)
    requires Shape(c) && t < |run| && o < |c.nodes| && run[t] == Get(o, key)
    requires Lookup(At(c, run, t).nodes[o].data, key).Some?
    ensures Dependency(key, At(c, run, t).nodes[o].data[key].ts) in At(c, run, t + 1).nodes[o].recorded
  {
    RecordedStep(At(c, run, t), run[t], o);
    NextAt(c, run, t);
  }

  lemma RecordedIsAttached(c: State, run: seq<Action>, t: nat)
    requires Shape(c) && t < |run| && Issued(Causal, At(c, run, t), run[t]).Some?
    ensures WriteOf(c, run, t).val.deps == At(c, run, t).nodes[run[t].node].recorded
  {
    EventFacts(Causal, At(c, run, t), run[t], run[t].node);
  }

  /** Reading back a key that was written once records that write. */
  lemma ChainIsRead(c: State, run: seq<Action>, o: nat, a: nat, g: nat, keyA: string)
    requires Initial(c) && o < |c.nodes| && a < g < |run| && WrittenOnce(run, a, keyA)
    requires run[a].node == o && run[g] == Get(o, keyA) && Issued(Causal, At(c, run, a), run[a]).Some?
    ensures Dependency(keyA, WriteOf(c, run, a).val.ts) in At(c, run, g + 1).nodes[o].recorded
  {
    StoredAfter(c, run, a);
    KeysNeverVanish(c, run, a + 1, g, o, keyA);
    StoredIsTheWrite(c, run, a, keyA, g, o);
    IssuedIsRequested(Causal, At(c, run, a), run[a]);
    RecordedAfter(c, run, g, o, keyA);
  }

  /** The second write of a chain carries the first as a dependency. */
  lemma ChainIsRecorded(c: State, run: seq<Action>, o: nat, a: nat, g: nat, b: nat, keyA: string, keyB: string)
    requires Initial(c) && Chain(c, run, o, a, g, b, keyA, keyB)
    ensures Dependency(keyA, WriteOf(c, run, a).val.ts) in WriteOf(c, run, b).val.deps
  {
    ChainIsRead(c, run, o, a, g, keyA);
    ReadStaysRecorded(c, run, g + 1, b, o, Dependency(keyA, WriteOf(c, run, a).val.ts));
    RecordedIsAttached(c, run, b);
  }

  // Causes are present --------------------------------------------------------------------------

  /** The keys that a node has read, and those its applied writes depend on, are in its contents. */
  ghost predicate CausesPresent(v: View) {
    && (forall x, d | x in v.done && d in x.val.deps && After(d.minTs, ZERO) :: d.key in v.n.data)
    && (forall d | d in v.n.recorded :: d.key in v.n.data)
  }

  /** A write was applied when its dependencies were met, and a key once present stays. */
  lemma AppliedCauses(data: Data, ps: seq<PendingWrite>, x: PendingWrite, d: Dependency)
    requires Derivation(data, ps) && x in ps && d in x.val.deps && After(d.minTs, ZERO)
    ensures d.key in ApplyAll(data, ps)
  {
    var i :| 0 <= i < |ps| && ps[i] == x;
    assert ReadyAt(data, ps, i);
    assert d.key in ApplyAll(data, ps[..i]);
    assert ps == ps[..i] + ps[i..];
    ApplyAllAppend(data, ps[..i], ps[i..]);
    FoldIsMaximum(ApplyAll(data, ps[..i]), ps[i..]);
  }

  lemma CausesStep(v: View, e: Local)
    requires CausesPresent(v) && (e.Own? ==> e.w.val.deps == v.n.recorded)
    ensures CausesPresent(Move(Causal, v, e))
  {
    var v' := Move(Causal, v, e);
    forall key | key in v.n.data ensures key in v'.n.data {
      KeyStays(v, e, key);
    }
    if e.Arrival? {
      AbsorbConserves(Causal, v.n, e.w);
      var r := Absorb(true, v.n, e.w);
      forall x, d | x in r.applied && d in x.val.deps && After(d.minTs, ZERO) ensures d.key in r.data {
        AppliedCauses(v.n.data, r.applied, x, d);
      }
    }
  }

  /** In every run, ties and losses included, what a node applied or read never lacks its causes there. */
  lemma {:induction false} CausesArePresent(c: State, run: seq<Action>, i: nat)
    requires Initial(c) && i < |c.nodes|
    ensures CausesPresent(ViewOf(Exec(Causal, c, run), i))
  {
    if run == [] {
    } else {
      var s, a := Exec(Causal, c, run[..|run| - 1]), run[|run| - 1];
      CausesArePresent(c, run[..|run| - 1], i);
      StepIsMove(Causal, s, a, i);
      EventFacts(Causal, s, a, i);
      CausesStep(ViewOf(s, i), EventAt(Causal, s, a, i));
    }
  }

  /** A node that has applied the second write of a chain has the key of the first. */
  lemma EffectNeedsCause(c: State, run: seq<Action>, o: nat, a: nat, g: nat, b: nat, keyA: string, keyB: string,
                         i: nat, t: nat)
    requires Initial(c) && Chain(c, run, o, a, g, b, keyA, keyB) && After(WriteOf(c, run, a).val.ts, ZERO)
    requires i < |c.nodes| && t <= |run| && keyB in At(c, run, t).nodes[i].data
    ensures keyA in At(c, run, t).nodes[i].data
  {
    StoredIsTheWrite(c, run, b, keyB, t, i);
    ChainIsRecorded(c, run, o, a, g, b, keyA, keyB);
    CausesArePresent(c, run[..t], i);
    assert WriteOf(c, run, b) in ViewOf(At(c, run, t), i).done;
  }

  /**
   At every replica and for every schedule, with any losses and any clocks: one that answers `keyB` with a value at
   one moment answers `keyA` with the chain's value at that and every later moment.  Only the first write must not
   be stamped at or before the epoch, which the origin's first wall-clock reading rules out when it is not negative.
   */
  lemma ChainsAreNeverSeenInverted(c: State, run: seq<Action>, o: nat, a: nat, g: nat, b: nat, keyA: string,
                                   keyB: string,
                                   i: nat, t: nat, u: nat)
    requires Initial(c) && Chain(c, run, o, a, g, b, keyA, keyB) && After(WriteOf(c, run, a).val.ts, ZERO)
    requires i < |c.nodes| && t <= u <= |run| && Lookup(At(c, run, t).nodes[i].data, keyB).Some?
    ensures Lookup(At(c, run, t).nodes[i].data, keyB).value.data == run[b].data
    ensures var seen := Lookup(At(c, run, u).nodes[i].data, keyA); seen.Some? && seen.value.data == run[a].data
  {
    StoredIsTheWrite(c, run, b, keyB, t, i);
    IssuedIsRequested(Causal, At(c, run, b), run[b]);
    EffectNeedsCause(c, run, o, a, g, b, keyA, keyB, i, t);
    KeysNeverVanish(c, run, t, u, i, keyA);
    StoredIsTheWrite(c, run, a, keyA, u, i);
    IssuedIsRequested(Causal, At(c, run, a), run[a]);
  }

  /** A chain stamped by clocks that were created at or after the epoch meets that condition. */
  lemma EpochStartSuffices(c: State, run: seq<Action>, t: nat)
    requires Initial(c) && StartsAtEpoch(c) && t < |run| && Issued(Causal, At(c, run, t), run[t]).Some?
    ensures After(WriteOf(c, run, t).val.ts, ZERO)
  {
    TimesStayNotNegative(Causal, c, run[..t]);
    EventFacts(Causal, At(c, run, t), run[t], run[t].node);
    SendCharacterised(At(c, run, t).nodes[run[t].node].clock, run[t].now);
  }
}
