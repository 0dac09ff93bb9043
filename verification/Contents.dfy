/**
 What the nodes of a cluster store, and when they agree on it.  Equal versions do not settle that:
 timestamps can coincide, and an empty value travels as a deletion.
 */
module Contents {
  import opened Results
  import opened Hlc
  import opened KvStore
  import opened CausalBuffer
  import opened BufferTheory
  import opened Replication
  import opened NodeModel
  import opened Cluster
  import opened ClusterViews
  import opened Provenance
  import opened Convergence

  // Issued writes are kept ----------------------------------------------------------------------

  /** The node stores `w` as it was issued, or a later version, and its clock has passed `w`. */
  ghost predicate Keeps(n: NodeState, w: PendingWrite) {
    && n.clock.logical >= 0 && AfterOrEqual(n.clock, w.val.ts)
    && w.key in n.data
    && (After(n.data[w.key].ts, w.val.ts) || n.data[w.key] == AsStored(w.val))
  }

  lemma KeptByMove(mode: AsyncMode, v: View, e: Local, now: int64, w: PendingWrite)
    requires Keeps(v.n, w)
    requires e.Own? ==> SendTs(v.n.clock, now) == Ok(e.w.val.ts)
    requires e.Arrival? ==> ReceiveTs(v.n.clock, e.w.val.ts, now) == Ok(e.ts)
    ensures Keeps(Move(mode, v, e).n, w)
  {
    if e.Arrival? {
      AbsorbConserves(mode, v.n, e.w);
      FoldIsMaximum(v.n.data, Absorb(mode == Causal, v.n, e.w).applied);
    }
  }

  lemma KeptByStep(mode: AsyncMode, c: State, a: Action, i: nat, w: PendingWrite)
    requires Shape(c) && i < |c.nodes| && Keeps(c.nodes[i], w)
    ensures Keeps(Step(mode, c, a).nodes[i], w)
  {
    var now := if a.Get? || a.Lose? then 0 else a.now;
    StepIsMove(mode, c, a, i);
    EventFacts(mode, c, a, i);
    KeptByMove(mode, ViewOf(c, i), EventAt(mode, c, a, i), now, w);
    assert ViewOf(Step(mode, c, a), i).n == Step(mode, c, a).nodes[i];
  }

  lemma KeptWhenIssued(mode: AsyncMode, c: State, a: Action)
    requires Shape(c) && Issued(mode, c, a).Some?
    ensures Keeps(Step(mode, c, a).nodes[a.node], Issued(mode, c, a).value)
  {
    StepIsMove(mode, c, a, a.node);
    EventFacts(mode, c, a, a.node);
    assert ViewOf(Step(mode, c, a), a.node).n == Step(mode, c, a).nodes[a.node];
  }

  /** Each issued write is kept by the node that issued it. */
  ghost predicate AllKept(c: State)
    requires Shape(c)
  {
    forall m | 0 <= m < |c.log| :: c.origin[m] < |c.nodes| && Keeps(c.nodes[c.origin[m]], c.log[m])
  }

  /** In every run, ties and losses included, a node stores each write it issued, unaltered, or a later version. */
  lemma {:induction false} IssuersKeepTheirWrites(mode: AsyncMode, c: State, run: seq<Action>)
    requires Initial(c)
    ensures AllKept(Exec(mode, c, run))
  {
    if run == [] {
    } else {
      IssuersKeepTheirWrites(mode, c, run[..|run| - 1]);
      AllKeptStep(mode, Exec(mode, c, run[..|run| - 1]), run[|run| - 1]);
    }
  }

  lemma AllKeptStep(mode: AsyncMode, c: State, a: Action)
    requires Shape(c) && AllKept(c)
    ensures AllKept(Step(mode, c, a))
  {
    var c' := Step(mode, c, a);
    LogGrows(mode, c, a);
    forall m | 0 <= m < |c'.log| ensures c'.origin[m] < |c'.nodes| && Keeps(c'.nodes[c'.origin[m]], c'.log[m]) {
      if m < |c.log| {
        KeptByStep(mode, c, a, c.origin[m], c.log[m]);
      } else {
        KeptWhenIssued(mode, c, a);
      }
    }
  }

  // Plain values --------------------------------------------------------------------------------

  /** A value that its peers decode as it is: a deletion carries no data and nothing else is empty. */
  predicate Plain(v: Value) { v.deleted <==> v.data == [] }

  predicate EmptyPut(w: PendingWrite) { !w.val.deleted && w.val.data == [] }

  ghost predicate DeletionsCarryNoData(log: seq<PendingWrite>) {
    forall m | 0 <= m < |log| :: log[m].val.deleted ==> log[m].val.data == []
  }

  lemma {:induction false} LogDeletionsCarryNoData(mode: AsyncMode, c: State, run: seq<Action>)
    requires Initial(c)
    ensures DeletionsCarryNoData(Exec(mode, c, run).log)
  {
    if run == [] {
    } else {
      LogDeletionsCarryNoData(mode, c, run[..|run| - 1]);
      LogGrows(mode, Exec(mode, c, run[..|run| - 1]), run[|run| - 1]);
    }
  }

  /** Node `i` issued a write to the key that leaves the value `v` there. */
  ghost predicate OwnValue(c: State, i: nat, key: string, v: Value)
    requires Shape(c)
  {
    exists m :: 0 <= m < |c.log| && c.origin[m] == i && c.log[m].key == key && AsStored(c.log[m].val) == v
  }

  /** A stored value that is not plain is one of the node's own writes. */
  ghost predicate PlainOrOwn(c: State, i: nat)
    requires Shape(c) && i < |c.nodes|
  {
    forall k | k in c.nodes[i].data :: Plain(c.nodes[i].data[k]) || OwnValue(c, i, k, c.nodes[i].data[k])
  }

  lemma NewValueIsPlainOrWritten(mode: AsyncMode, log: seq<PendingWrite>, v: View, e: Local, k: string)
    requires Traced(log, v) && (e.Arrival? ==> e.w in v.flight)
    requires var d := Move(mode, v, e).n.data; k in d && !(k in v.n.data && d[k] == v.n.data[k])
    ensures var d := Move(mode, v, e).n.data; Plain(d[k]) || (e.Own? && k == e.w.key && d[k] == AsStored(e.w.val))
  {
    if e.Arrival? {
      ArrivedIsPlain(mode, log, v, e.w, k);
    }
  }

  lemma ArrivedIsPlain(mode: AsyncMode, log: seq<PendingWrite>, v: View, w: PendingWrite, k: string)
    requires Traced(log, v) && w in v.flight
    requires var r := Absorb(mode == Causal, v.n, w); k in r.data && !(k in v.n.data && r.data[k] == v.n.data[k])
    ensures Plain(Absorb(mode == Causal, v.n, w).data[k])
  {
    AbsorbConserves(mode, v.n, w);
    var r := Absorb(mode == Causal, v.n, w);
    FoldIsMaximum(v.n.data, r.applied);
    assert HasSource(v.n.data, r.applied, k, r.data[k]);
    var p :| p in r.applied && p.key == k && AsStored(p.val) == r.data[k];
    assert Logged(log, p);
  }

  lemma OwnValueStays(mode: AsyncMode, c: State, a: Action, i: nat, key: string, v: Value)
    requires Shape(c) && OwnValue(c, i, key, v)
    ensures OwnValue(Step(mode, c, a), i, key, v)
  {
    LogGrows(mode, c, a);
    var m :| 0 <= m < |c.log| && c.origin[m] == i && c.log[m].key == key && AsStored(c.log[m].val) == v;
    assert Step(mode, c, a).log[m] == c.log[m];
  }

  lemma NewValueIsPlainOrOwn(mode: AsyncMode, c: State, a: Action, i: nat, k: string)
    requires Shape(c) && Provenanced(c) && i < |c.nodes|
    requires var d := Step(mode, c, a).nodes[i].data; k in d && !(k in c.nodes[i].data && d[k] == c.nodes[i].data[k])
    ensures var c' := Step(mode, c, a); Plain(c'.nodes[i].data[k]) || OwnValue(c', i, k, c'.nodes[i].data[k])
  {
    var c', v, e := Step(mode, c, a), ViewOf(c, i), EventAt(mode, c, a, i);
    StepIsMove(mode, c, a, i);
    EventFacts(mode, c, a, i);
    LogGrows(mode, c, a);
    assert Traced(c.log, v) && ViewOf(c', i).n == c'.nodes[i];
    NewValueIsPlainOrWritten(mode, c.log, v, e, k);
    if e.Own? {
      assert c'.log[|c.log|] == e.w;
    }
  }

  lemma {:induction false} OthersValuesArePlain(mode: AsyncMode, c: State, run: seq<Action>, i: nat)
    requires Initial(c) && i < |c.nodes|
    ensures PlainOrOwn(Exec(mode, c, run), i)
  {
    if run == [] {
    } else {
      var init, a := run[..|run| - 1], run[|run| - 1];
      var s, d := Exec(mode, c, init), Exec(mode, c, run).nodes[i].data;
      OthersValuesArePlain(mode, c, init, i);
      RunsAreProvenanced(mode, c, init);
      forall k | k in d ensures Plain(d[k]) || OwnValue(Exec(mode, c, run), i, k, d[k]) {
        if !(k in s.nodes[i].data && d[k] == s.nodes[i].data[k]) {
          NewValueIsPlainOrOwn(mode, s, a, i, k);
        } else if !Plain(d[k]) {
          OwnValueStays(mode, s, a, i, k, d[k]);
        }
      }
    }
  }

  // Any state of any run ------------------------------------------------------------------------

  /** What every run has established about where the values that are stored come from. */
  ghost predicate Grounded(c: State)
    requires Shape(c)
  {
    && Provenanced(c) && AllKept(c) && DeletionsCarryNoData(c.log)
    && forall i | 0 <= i < |c.nodes| :: PlainOrOwn(c, i)
  }

  lemma RunsAreGrounded(mode: AsyncMode, c: State, run: seq<Action>)
    requires Initial(c)
    ensures Grounded(Exec(mode, c, run))
  {
    RunsAreProvenanced(mode, c, run);
    IssuersKeepTheirWrites(mode, c, run);
    LogDeletionsCarryNoData(mode, c, run);
    forall i | 0 <= i < |c.nodes| ensures PlainOrOwn(Exec(mode, c, run), i) {
      OthersValuesArePlain(mode, c, run, i);
    }
  }

  ghost predicate LatestTo(log: seq<PendingWrite>, key: string, p: PendingWrite) {
    p in log && p.key == key && IsLatest(log, p)
  }

  lemma AtLatestIsLatest(log: seq<PendingWrite>, d: Data, p: PendingWrite)
    requires KeyAtLatest(log, d, p.key) && p.key in d && d[p.key].ts == p.val.ts
    ensures IsLatest(log, p)
  {
    forall q | q in log && q.key == p.key ensures AfterOrEqual(p.val.ts, q.val.ts) {
      var m :| 0 <= m < |log| && log[m] == q;
      assert AtLeast(d, log[m].key, log[m].val.ts);
    }
  }

  lemma StoredOf(w: PendingWrite, v: Value)
    requires Leaves(w, v)
    ensures v.ts == w.val.ts && (Plain(w.val) ==> v == AsStored(w.val))
    ensures EmptyPut(w) ==> v == (if Plain(v) then Tombstone(w.val.ts) else AsStored(w.val))
  {
  }

  lemma WriteBehind(log: seq<PendingWrite>, v: View, key: string) returns (p: PendingWrite)
    requires Traced(log, v) && key in v.n.data
    ensures p in log && p.key == key
    ensures Leaves(p, v.n.data[key])
  {
    assert StoredFrom(log, v.done, key, v.n.data[key]);
    var m :| 0 <= m < |log| && log[m].key == key && Leaves(log[m], v.n.data[key]);
    p := log[m];
  }

  /** A node at a key's latest version stores a latest write to it, unless that is another node's empty value. */
  lemma ValueAtLatest(c: State, i: nat, key: string) returns (p: PendingWrite)
    requires Shape(c) && Grounded(c) && i < |c.nodes|
    requires KeyAtLatest(c.log, c.nodes[i].data, key) && key in c.nodes[i].data
    ensures LatestTo(c.log, key, p)
    ensures var v := c.nodes[i].data[key];
            && v.ts == p.val.ts
            && v == (if EmptyPut(p) && Plain(v) then Tombstone(p.val.ts) else AsStored(p.val))
  {
    assert Traced(c.log, ViewOf(c, i));
    p := WriteBehind(c.log, ViewOf(c, i), key);
    StoredOf(p, c.nodes[i].data[key]);
    AtLatestIsLatest(c.log, c.nodes[i].data, p);
    assert Plain(p.val) || EmptyPut(p);
  }

  /** A latest write is stored, as it was issued, by the node that issued it. */
  lemma IssuerStoresLatest(c: State, m: nat)
    requires Shape(c) && Grounded(c) && m < |c.log| && IsLatest(c.log, c.log[m])
    ensures c.origin[m] < |c.nodes|
    ensures var d := c.nodes[c.origin[m]].data; c.log[m].key in d && d[c.log[m].key] == AsStored(c.log[m].val)
  {
    var i, w := c.origin[m], c.log[m];
    assert Keeps(c.nodes[i], w);
    assert Traced(c.log, ViewOf(c, i));
    var p := WriteBehind(c.log, ViewOf(c, i), w.key);
    StoredOf(p, c.nodes[i].data[w.key]);
  }

  // Agreement -----------------------------------------------------------------------------------

  predicate EmptyValue(v: Value) { !v.deleted && v.data == [] }

  /** `f`, what an observer sees of a value, tells empty values from plain ones. */
  ghost predicate Discerning<T(!new)>(f: Value -> T) {
    forall v, u | Plain(v) && EmptyValue(u) :: f(v) != f(u)
  }

  /** Node `i` issued a write that an observer cannot tell from `p`. */
  ghost predicate IssuedAlike<T(!new)>(c: State, i: nat, p: PendingWrite, f: Value -> T)
    requires Shape(c)
  {
    exists m :: 0 <= m < |c.log| && c.origin[m] == i && c.log[m].key == p.key && c.log[m].val.ts == p.val.ts
                && f(AsStored(c.log[m].val)) == f(AsStored(p.val))
  }

  /** The latest writes to the key look alike; of an empty one, every node issued its own copy. */
  ghost predicate LatestAlike<T(!new)>(c: State, key: string, f: Value -> T)
    requires Shape(c)
  {
    && (forall p, q | LatestTo(c.log, key, p) && LatestTo(c.log, key, q) :: f(AsStored(p.val)) == f(AsStored(q.val)))
    && (forall p, i | LatestTo(c.log, key, p) && EmptyPut(p) && 0 <= i < |c.nodes| :: IssuedAlike(c, i, p, f))
  }

  /** All nodes have the key, or none does, and an observer sees the same value at all of them. */
  ghost predicate AgreeOn<T(!new)>(c: State, key: string, f: Value -> T) {
    forall i, j | 0 <= i < |c.nodes| && 0 <= j < |c.nodes| ::
      && (key in c.nodes[i].data <==> key in c.nodes[j].data)
      && (key in c.nodes[i].data ==> f(c.nodes[i].data[key]) == f(c.nodes[j].data[key]))
  }

  /** The observer sees different versions as different. */
  ghost predicate ShowsVersion<T(!new)>(f: Value -> T) {
    forall v, u | f(v) == f(u) :: v.ts == u.ts
  }

  ghost predicate AllAtLatest(c: State, key: string) {
    forall i | 0 <= i < |c.nodes| :: KeyAtLatest(c.log, c.nodes[i].data, key)
  }

  lemma AlikeIsSeen<T(!new)>(c: State, key: string, f: Value -> T, i: nat) returns (p: PendingWrite)
    requires Shape(c) && Grounded(c) && LatestAlike(c, key, f) && i < |c.nodes|
    requires KeyAtLatest(c.log, c.nodes[i].data, key) && key in c.nodes[i].data
    ensures LatestTo(c.log, key, p) && f(c.nodes[i].data[key]) == f(AsStored(p.val))
  {
    p := ValueAtLatest(c, i, key);
    if EmptyPut(p) {
      assert IssuedAlike(c, i, p, f);
      var m :| 0 <= m < |c.log| && c.origin[m] == i && c.log[m].key == key && c.log[m].val.ts == p.val.ts
               && f(AsStored(c.log[m].val)) == f(AsStored(p.val));
      IssuerStoresLatest(c, m);
    }
  }

  lemma AlikeAgrees<T(!new)>(c: State, key: string, f: Value -> T)
    requires Shape(c) && Grounded(c) && AllAtLatest(c, key) && LatestAlike(c, key, f)
    ensures AgreeOn(c, key, f)
  {
    forall i, j | 0 <= i < |c.nodes| && 0 <= j < |c.nodes| && key in c.nodes[i].data
      ensures key in c.nodes[j].data && f(c.nodes[i].data[key]) == f(c.nodes[j].data[key])
    {
      var p := AlikeIsSeen(c, key, f, i);
      var m :| 0 <= m < |c.log| && c.log[m] == p;
      assert AtLeast(c.nodes[j].data, key, c.log[m].val.ts);
      var q := AlikeIsSeen(c, key, f, j);
    }
  }

  lemma AgreedEmptyIsIssued<T(!new)>(c: State, key: string, f: Value -> T, p: PendingWrite, i: nat)
    requires Shape(c) && Grounded(c) && Discerning(f) && AgreeOn(c, key, f) && AllAtLatest(c, key)
    requires LatestTo(c.log, key, p) && EmptyPut(p) && i < |c.nodes|
    ensures IssuedAlike(c, i, p, f)
  {
    var m :| 0 <= m < |c.log| && c.log[m] == p;
    IssuerStoresLatest(c, m);
    var v := c.nodes[i].data[key];
    assert f(v) == f(AsStored(p.val)) && EmptyValue(AsStored(p.val));
    assert PlainOrOwn(c, i);
    assert OwnValue(c, i, key, v);
    var q := ValueAtLatest(c, i, key);
  }

  lemma AgreedIsAlike<T(!new)>(c: State, key: string, f: Value -> T)
    requires Shape(c) && Grounded(c) && Discerning(f) && AgreeOn(c, key, f) && AllAtLatest(c, key)
    ensures LatestAlike(c, key, f)
  {
    forall p, q | LatestTo(c.log, key, p) && LatestTo(c.log, key, q) ensures f(AsStored(p.val)) == f(AsStored(q.val)) {
      var m :| 0 <= m < |c.log| && c.log[m] == p;
      var l :| 0 <= l < |c.log| && c.log[l] == q;
      IssuerStoresLatest(c, m);
      IssuerStoresLatest(c, l);
    }
    forall p, i | LatestTo(c.log, key, p) && EmptyPut(p) && 0 <= i < |c.nodes| ensures IssuedAlike(c, i, p, f) {
      AgreedEmptyIsIssued(c, key, f, p, i);
    }
  }

  /** The issuer of a write is not behind it, so nodes that agree on the version are not. */
  lemma AgreedIsLatest<T(!new)>(c: State, key: string, f: Value -> T)
    requires Shape(c) && Grounded(c) && ShowsVersion(f) && AgreeOn(c, key, f)
    ensures AllAtLatest(c, key)
  {
    forall i, m | 0 <= i < |c.nodes| && 0 <= m < |c.log| && c.log[m].key == key
      ensures AtLeast(c.nodes[i].data, key, c.log[m].val.ts)
    {
      assert Keeps(c.nodes[c.origin[m]], c.log[m]);
      assert f(c.nodes[i].data[key]) == f(c.nodes[c.origin[m]].data[key]);
    }
  }

  /**
   When nodes agree on a key, in any state of any run and whatever values were put.  Once all are at its latest
   version: exactly when its latest writes look alike and, if they are empty, every node issued one itself.  To an
   observer who sees versions: exactly when all nodes are at the latest version and this holds.
   */
  lemma KeyAgreesExactly<T(!new)>(mode: AsyncMode, c: State, run: seq<Action>, key: string, f: Value -> T)
    requires Initial(c) && Discerning(f)
    ensures var r := Exec(mode, c, run); AllAtLatest(r, key) ==> (AgreeOn(r, key, f) <==> LatestAlike(r, key, f))
    ensures var r := Exec(mode, c, run);
            ShowsVersion(f) ==> (AgreeOn(r, key, f) <==> AllAtLatest(r, key) && LatestAlike(r, key, f))
  {
    var r := Exec(mode, c, run);
    RunsAreGrounded(mode, c, run);
    if AgreeOn(r, key, f) && ShowsVersion(f) {
      AgreedIsLatest(r, key, f);
    }
    if AllAtLatest(r, key) {
      if LatestAlike(r, key, f) {
        AlikeAgrees(r, key, f);
      }
      if AgreeOn(r, key, f) {
        AgreedIsAlike(r, key, f);
      }
    }
  }

  // Whole contents ------------------------------------------------------------------------------

  function Whole(v: Value): Value { v }

  ghost predicate AllAgree(c: State) {
    forall i, j | 0 <= i < |c.nodes| && 0 <= j < |c.nodes| :: c.nodes[i].data == c.nodes[j].data
  }

  lemma AgreeOnAllKeys(c: State)
    ensures AllAgree(c) <==> forall key :: AgreeOn(c, key, Whole)
  {
    if forall key :: AgreeOn(c, key, Whole) {
      forall i, j | 0 <= i < |c.nodes| && 0 <= j < |c.nodes| ensures c.nodes[i].data == c.nodes[j].data {
        forall key ensures key in c.nodes[i].data <==> key in c.nodes[j].data
                   ensures key in c.nodes[i].data ==> c.nodes[i].data[key] == c.nodes[j].data[key] {
          assert AgreeOn(c, key, Whole);
          assert key in c.nodes[i].data ==> Whole(c.nodes[i].data[key]) == Whole(c.nodes[j].data[key]);
        }
      }
    }
  }

  /** No latest write to a key is an empty put. */
  ghost predicate LatestNotEmpty(log: seq<PendingWrite>) { forall p | p in log && IsLatest(log, p) :: !EmptyPut(p) }

  lemma UnambiguousIsAlike(c: State)
    requires Shape(c) && LatestNotEmpty(c.log)
    ensures LatestUnambiguous(map[], c.log) <==> forall key :: LatestAlike(c, key, Whole)
  {
    var log := c.log;
    if LatestUnambiguous(map[], log) {
      forall key, p, q | LatestTo(log, key, p) && LatestTo(log, key, q)
        ensures Whole(AsStored(p.val)) == Whole(AsStored(q.val))
      {
        assert p.val.ts == q.val.ts;
      }
    }
    if forall key :: LatestAlike(c, key, Whole) {
      forall p, q | p in log && q in log && p.key == q.key && p.val.ts == q.val.ts && IsLatest(log, p)
        ensures AsStored(p.val) == AsStored(q.val)
      {
        assert LatestAlike(c, p.key, Whole);
        assert LatestTo(log, p.key, p) && LatestTo(log, p.key, q);
      }
    }
  }

  ghost predicate ContentsAtLatest(c: State) { forall key :: AllAtLatest(c, key) }

  /**
   In any state of any run all nodes have equal contents exactly when they are at the latest versions and the latest
   writes to each key are alike.
   */
  lemma ContentsAgreeExactly(mode: AsyncMode, c: State, run: seq<Action>)
    requires Initial(c)
    ensures var r := Exec(mode, c, run);
            AllAgree(r) <==> ContentsAtLatest(r) && forall key :: LatestAlike(r, key, Whole)
  {
    var r := Exec(mode, c, run);
    assert ShowsVersion(Whole);
    forall key ensures AgreeOn(r, key, Whole) <==> AllAtLatest(r, key) && LatestAlike(r, key, Whole) {
      KeyAgreesExactly(mode, c, run, key, Whole);
    }
    AgreeOnAllKeys(r);
  }

  /**
   When no latest write is an empty put, that is when each key's latest writes leave one value.  Earlier writes with
   equal timestamps, and earlier empty values, do no harm.
   */
  lemma ContentsConvergeExactly(mode: AsyncMode, c: State, run: seq<Action>)
    requires Initial(c) && LatestNotEmpty(Exec(mode, c, run).log)
    ensures var r := Exec(mode, c, run);
            AllAgree(r) <==> ContentsAtLatest(r) && LatestUnambiguous(map[], r.log)
  {
    ContentsAgreeExactly(mode, c, run);
    UnambiguousIsAlike(Exec(mode, c, run));
  }

  /** A loss-free run is over, and no client write took a version back. */
  ghost predicate Settled(mode: AsyncMode, c: State, run: seq<Action>)
    requires Shape(c)
  {
    KeepsVersions(mode, c, run) && Lossless(mode, c, run) && Quiescent(Exec(mode, c, run))
  }

  lemma SettledIsLatest(mode: AsyncMode, c: State, run: seq<Action>)
    requires Initial(c) && Settled(mode, c, run)
    ensures ContentsAtLatest(Exec(mode, c, run))
  {
    var r := Exec(mode, c, run);
    forall key, i | 0 <= i < |r.nodes| ensures KeyAtLatest(r.log, r.nodes[i].data, key) {
      NodeConverges(mode, c, run, i);
    }
  }

  ghost predicate NonEmptyPuts(run: seq<Action>) { forall a | a in run :: a.Put? ==> a.data != [] }

  lemma {:induction false} NonEmptyPutsAreLogged(mode: AsyncMode, c: State, run: seq<Action>)
    requires Initial(c) && NonEmptyPuts(run)
    ensures forall p | p in Exec(mode, c, run).log :: !EmptyPut(p)
  {
    if run == [] {
    } else {
      NonEmptyPutsAreLogged(mode, c, run[..|run| - 1]);
      assert run[|run| - 1] in run;
      LogGrows(mode, Exec(mode, c, run[..|run| - 1]), run[|run| - 1]);
    }
  }

  /** In particular when timestamps identify the writes of a key and no empty value is put. */
  lemma ContentsConverge(mode: AsyncMode, c: State, run: seq<Action>)
    requires Initial(c) && Settled(mode, c, run)
    requires NonEmptyPuts(run) && Unambiguous(Exec(mode, c, run).log)
    ensures AllAgree(Exec(mode, c, run))
  {
    NonEmptyPutsAreLogged(mode, c, run);
    SettledIsLatest(mode, c, run);
    ContentsConvergeExactly(mode, c, run);
  }
}
