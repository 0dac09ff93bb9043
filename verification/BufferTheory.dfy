/**
 What the buffer's functions compute: last-write-wins folds, sweeps and drains.
 */
module BufferTheory {
  import opened Hlc
  import opened KvStore
  import opened CausalBuffer

  ghost predicate NonNegative(ps: seq<PendingWrite>) {
    forall p | p in ps :: AfterOrEqual(p.val.ts, ZERO)
  }

  /** Two writes to one key with one timestamp leave the same value. */
  ghost predicate Unambiguous(ps: seq<PendingWrite>) {
    forall p, q | p in ps && q in ps && p.key == q.key && p.val.ts == q.val.ts :: AsStored(p.val) == AsStored(q.val)
  }

  /** No write of `ps` to its key is after `p`. */
  ghost predicate IsLatest(ps: seq<PendingWrite>, p: PendingWrite) {
    forall q | q in ps && q.key == p.key :: AfterOrEqual(p.val.ts, q.val.ts)
  }

  /** The same of the writes that decide a key when `ps` is applied to `d`: the latest, if `d` is not as late. */
  ghost predicate LatestUnambiguous(d: Data, ps: seq<PendingWrite>) {
    forall p, q | p in ps && q in ps && p.key == q.key && p.val.ts == q.val.ts
                  && IsLatest(ps, p) && Accepts(d, p.key, p.val.ts) :: AsStored(p.val) == AsStored(q.val)
  }

  ghost predicate SameWrites(ps: seq<PendingWrite>, qs: seq<PendingWrite>) { forall p :: p in ps <==> p in qs }

  ghost predicate AtLeast(d: Data, key: string, ts: Timestamp) { key in d && AfterOrEqual(d[key].ts, ts) }

  ghost predicate SameVersions(a: Data, b: Data) {
    && a.Keys == b.Keys
    && forall k | k in a :: a[k].ts == b[k].ts
  }

  // Last write wins -----------------------------------------------------------------------------

  /** A key's value came from the start or from one of the writes. */
  ghost predicate HasSource(d: Data, ps: seq<PendingWrite>, k: string, v: Value) {
    || (k in d && v == d[k])
    || exists p :: p in ps && p.key == k && AsStored(p.val) == v
  }

  ghost predicate Dominates(r: Data, ps: seq<PendingWrite>) {
    forall p | p in ps :: p.key in r && AfterOrEqual(r[p.key].ts, p.val.ts)
  }

  ghost predicate Extends(r: Data, d: Data) {
    forall k | k in d :: k in r && AfterOrEqual(r[k].ts, d[k].ts) && (r[k].ts == d[k].ts ==> r[k] == d[k])
  }

  ghost predicate Sourced(d: Data, ps: seq<PendingWrite>, r: Data) {
    forall k {:trigger HasSource(d, ps, k, r[k])} | k in r :: HasSource(d, ps, k, r[k])
  }

  /** `r` has each key at the maximum of its value in `d` and of the writes `ps` to it. */
  ghost predicate IsMaximum(d: Data, ps: seq<PendingWrite>, r: Data) {
    Dominates(r, ps) && Extends(r, d) && Sourced(d, ps, r)
  }

  lemma ApplyOneExtends(r: Data, p: PendingWrite)
    ensures Extends(ApplyOne(r, p), r) && Dominates(ApplyOne(r, p), [p])
  {
  }

  lemma ExtendsStep(d: Data, r: Data, r': Data, ps: seq<PendingWrite>)
    requires Extends(r, d) && Extends(r', r)
    ensures Extends(r', d)
    ensures Dominates(r, ps) ==> Dominates(r', ps)
  {
  }

  lemma SourcedStep(d: Data, ps: seq<PendingWrite>, r: Data, p: PendingWrite)
    requires Sourced(d, ps, r)
    ensures Sourced(d, ps + [p], ApplyOne(r, p))
  {
    var r' := ApplyOne(r, p);
    forall k | k in r' ensures HasSource(d, ps + [p], k, r'[k]) {
      if k in r && r'[k] == r[k] {
        assert HasSource(d, ps, k, r[k]);
        if q :| q in ps && q.key == k && AsStored(q.val) == r[k] {
          assert q in ps + [p];
        }
      } else {
        assert p in ps + [p];
      }
    }
  }

  lemma MaximumStep(d: Data, ps: seq<PendingWrite>, r: Data, p: PendingWrite)
    requires IsMaximum(d, ps, r)
    ensures IsMaximum(d, ps + [p], ApplyOne(r, p))
  {
    ApplyOneExtends(r, p);
    ExtendsStep(d, r, ApplyOne(r, p), ps);
    SourcedStep(d, ps, r, p);
  }

  /** After any sequence of writes each key is at the maximum of its start and of the writes to it. */
  lemma {:induction false} FoldIsMaximum(d: Data, ps: seq<PendingWrite>)
    ensures IsMaximum(d, ps, ApplyAll(d, ps))
  {
    if ps == [] {
    } else {
      var init, p := ps[..|ps| - 1], ps[|ps| - 1];
      FoldIsMaximum(d, init);
      MaximumStep(d, init, ApplyAll(d, init), p);
      assert ps == init + [p];
    }
  }

  /** The version map depends only on which writes arrived, not on their order or repetition. */
  lemma SameWritesSameVersions(d: Data, ps: seq<PendingWrite>, qs: seq<PendingWrite>)
    requires SameWrites(ps, qs)
    ensures SameVersions(ApplyAll(d, ps), ApplyAll(d, qs))
  {
    var a, b := ApplyAll(d, ps), ApplyAll(d, qs);
    VersionsBelow(d, ps, qs);
    VersionsBelow(d, qs, ps);
    forall k | k in a ensures a[k].ts == b[k].ts {
      CompareIsTotalOrder(a[k].ts, b[k].ts, a[k].ts);
    }
  }

  lemma VersionsBelow(d: Data, ps: seq<PendingWrite>, qs: seq<PendingWrite>)
    requires forall p | p in ps :: p in qs
    ensures ApplyAll(d, ps).Keys <= ApplyAll(d, qs).Keys
    ensures forall k | k in ApplyAll(d, ps) :: AfterOrEqual(ApplyAll(d, qs)[k].ts, ApplyAll(d, ps)[k].ts)
  {
    FoldIsMaximum(d, ps);
    FoldIsMaximum(d, qs);
    var a, b := ApplyAll(d, ps), ApplyAll(d, qs);
    forall k | k in a ensures k in b && AfterOrEqual(b[k].ts, a[k].ts) {
      assert HasSource(d, ps, k, a[k]);
    }
  }

  /** When the deciding writes of a key leave one value, the contents agree too, tombstones included. */
  lemma SameWritesSameContents(d: Data, ps: seq<PendingWrite>, qs: seq<PendingWrite>)
    requires SameWrites(ps, qs) && LatestUnambiguous(d, ps)
    ensures ApplyAll(d, ps) == ApplyAll(d, qs)
  {
    SameWritesSameVersions(d, ps, qs);
    FoldIsMaximum(d, ps);
    FoldIsMaximum(d, qs);
    var a, b := ApplyAll(d, ps), ApplyAll(d, qs);
    forall k | k in a ensures a[k] == b[k] {
      if !(k in d && d[k].ts == a[k].ts) {
        var p := DecidingWrite(d, ps, a, k);
        var q := DecidingWrite(d, qs, b, k);
      }
    }
  }

  lemma DecidingWrite(d: Data, ps: seq<PendingWrite>, r: Data, k: string) returns (p: PendingWrite)
    requires IsMaximum(d, ps, r) && k in r && !(k in d && d[k].ts == r[k].ts)
    ensures p in ps && p.key == k && AsStored(p.val) == r[k] && IsLatest(ps, p) && Accepts(d, k, p.val.ts)
  {
    assert HasSource(d, ps, k, r[k]);
    p :| p in ps && p.key == k && AsStored(p.val) == r[k];
  }

  /** The first to arrive of the latest writes to a key decides it. */
  lemma FirstLatestDecides(d: Data, ps: seq<PendingWrite>, p: PendingWrite)
    requires p in ps && IsLatest(ps, p) && Accepts(d, p.key, p.val.ts)
    ensures var r := ApplyAll(d, [p] + ps); p.key in r && r[p.key] == AsStored(p.val)
  {
    ApplyAllSingle(d, p);
    ApplyAllAppend(d, [p], ps);
    var d', r := ApplyOne(d, p), ApplyAll(d, [p] + ps);
    FoldIsMaximum(d', ps);
    assert HasSource(d', ps, p.key, r[p.key]);
  }

  /** Contents depend on the set of writes alone exactly when the deciding writes of each key leave one value. */
  lemma ContentsDependOnSetExactly(d: Data, ps: seq<PendingWrite>)
    ensures (forall qs | SameWrites(ps, qs) :: ApplyAll(d, qs) == ApplyAll(d, ps)) <==> LatestUnambiguous(d, ps)
  {
    if LatestUnambiguous(d, ps) {
      forall qs | SameWrites(ps, qs) ensures ApplyAll(d, qs) == ApplyAll(d, ps) {
        SameWritesSameContents(d, ps, qs);
      }
    }
    if forall qs | SameWrites(ps, qs) :: ApplyAll(d, qs) == ApplyAll(d, ps) {
      forall p, q | p in ps && q in ps && p.key == q.key && p.val.ts == q.val.ts
                    && IsLatest(ps, p) && Accepts(d, p.key, p.val.ts) ensures AsStored(p.val) == AsStored(q.val) {
        FirstLatestDecides(d, ps, p);
        FirstLatestDecides(d, ps, q);
        assert SameWrites(ps, [p] + ps) && SameWrites(ps, [q] + ps);
      }
    }
  }

  lemma {:induction false} ApplyAllAppend(d: Data, ps: seq<PendingWrite>, qs: seq<PendingWrite>)
    ensures ApplyAll(d, ps + qs) == ApplyAll(ApplyAll(d, ps), qs)
  {
    if qs == [] {
      assert ps + qs == ps;
    } else {
      var init := qs[..|qs| - 1];
      ApplyAllAppend(d, ps, init);
      assert (ps + qs)[..|ps + qs| - 1] == ps + init;
    }
  }

  // Readiness -----------------------------------------------------------------------------------

  /** The one write that can take readiness away: a negative timestamp on a key the store lacks. */
  lemma ReadinessIsMonotoneExactly(d: Data, p: PendingWrite)
    ensures (forall deps | DepsSatisfied(d, deps) :: DepsSatisfied(ApplyOne(d, p), deps))
            <==> (p.key in d || AfterOrEqual(p.val.ts, ZERO))
  {
    if p.key !in d && Before(p.val.ts, ZERO) {
      var deps := [Dependency(p.key, ZERO)];
      assert DepsSatisfied(d, deps);
      assert !AfterOrEqual(Version(ApplyOne(d, p), deps[0].key), deps[0].minTs);
      assert !DepsSatisfied(ApplyOne(d, p), deps);
    }
  }

  lemma {:induction false} VersionsRise(d: Data, ps: seq<PendingWrite>, key: string)
    requires NonNegative(ps)
    ensures AfterOrEqual(Version(ApplyAll(d, ps), key), Version(d, key))
  {
    FoldIsMaximum(d, ps);
    var r := ApplyAll(d, ps);
    if key in r && key !in d {
      assert HasSource(d, ps, key, r[key]);
    }
  }

  lemma StaysSatisfied(d: Data, ps: seq<PendingWrite>, deps: seq<Dependency>)
    requires NonNegative(ps) && DepsSatisfied(d, deps)
    ensures DepsSatisfied(ApplyAll(d, ps), deps)
  {
    forall i | 0 <= i < |deps| ensures AfterOrEqual(Version(ApplyAll(d, ps), deps[i].key), deps[i].minTs) {
      VersionsRise(d, ps, deps[i].key);
    }
  }

  // Sweeps and drains ---------------------------------------------------------------------------

  /** Each applied write was ready when its turn came. */
  ghost predicate Derivation(d: Data, ps: seq<PendingWrite>) {
    forall i | 0 <= i < |ps| :: ReadyAt(d, ps, i)
  }

  ghost predicate ReadyAt(d: Data, ps: seq<PendingWrite>, i: nat)
    requires i < |ps|
  {
    Ready(ApplyAll(d, ps[..i]), ps[i])
  }

  /** A write that was ready when applied stays ready. */
  lemma AppliedStaysReady(d: Data, ps: seq<PendingWrite>, w: PendingWrite)
    requires NonNegative(ps) && Derivation(d, ps) && w in ps
    ensures Ready(ApplyAll(d, ps), w)
  {
    var i :| 0 <= i < |ps| && ps[i] == w;
    assert ReadyAt(d, ps, i);
    assert ps == ps[..i] + ps[i..];
    ApplyAllAppend(d, ps[..i], ps[i..]);
    StaysSatisfied(ApplyAll(d, ps[..i]), ps[i..], w.val.deps);
  }

  lemma DerivationAppend(d: Data, ps: seq<PendingWrite>, qs: seq<PendingWrite>)
    requires Derivation(d, ps) && Derivation(ApplyAll(d, ps), qs)
    ensures Derivation(d, ps + qs)
  {
    forall i | 0 <= i < |ps + qs| ensures ReadyAt(d, ps + qs, i) {
      if i < |ps| {
        assert ReadyAt(d, ps, i);
        assert (ps + qs)[..i] == ps[..i];
      } else {
        assert ReadyAt(ApplyAll(d, ps), qs, i - |ps|);
        assert (ps + qs)[..i] == ps + qs[..i - |ps|];
        ApplyAllAppend(d, ps, qs[..i - |ps|]);
      }
    }
  }

  /** `r` comes from `d` by applying some of `ps` and keeping the rest: nothing is lost or doubled. */
  ghost predicate Conserves(d: Data, ps: seq<PendingWrite>, r: Progress) {
    && multiset(r.kept) + multiset(r.applied) == multiset(ps)
    && r.data == ApplyAll(d, r.applied)
  }

  /** As well, each write was applied when it was ready. */
  ghost predicate Accounts(d: Data, ps: seq<PendingWrite>, r: Progress) {
    Conserves(d, ps, r) && Derivation(d, r.applied)
  }

  ghost predicate NoneReady(d: Data, ps: seq<PendingWrite>) {
    forall p | p in ps :: !Ready(d, p)
  }

  lemma AccountsForKept(d: Data, ps: seq<PendingWrite>, r: Progress, p: PendingWrite)
    requires Accounts(d, ps, r)
    ensures Accounts(d, ps + [p], r.(kept := r.kept + [p]))
  {
  }

  lemma AccountsForApplied(d: Data, ps: seq<PendingWrite>, r: Progress, p: PendingWrite)
    requires Accounts(d, ps, r) && Ready(r.data, p)
    ensures Accounts(d, ps + [p], Progress(ApplyOne(r.data, p), r.kept, r.applied + [p]))
  {
    ApplyAllSingle(r.data, p);
    ApplyAllAppend(d, r.applied, [p]);
    DerivationAppend(d, r.applied, [p]);
  }

  /** Processing `r.kept` further, together with new arrivals, accounts for everything. */
  lemma AccountsCompose(d: Data, ps: seq<PendingWrite>, r: Progress, more: seq<PendingWrite>, q: Progress)
    requires Accounts(d, ps, r) && Accounts(r.data, r.kept + more, q)
    ensures Accounts(d, ps + more, q.(applied := r.applied + q.applied))
  {
    ApplyAllAppend(d, r.applied, q.applied);
    DerivationAppend(d, r.applied, q.applied);
    calc {
      multiset(q.kept) + multiset(r.applied + q.applied);
      (multiset(q.kept) + multiset(q.applied)) + multiset(r.applied);
      multiset(r.kept + more) + multiset(r.applied);
      multiset(ps) + multiset(more);
    }
  }

  lemma ApplyAllSingle(d: Data, p: PendingWrite)
    ensures ApplyAll(d, [p]) == ApplyOne(d, p)
    ensures Ready(d, p) ==> Derivation(d, [p])
  {
    assert [p][..0] == [];
    assert ApplyAll(d, []) == d;
  }

  lemma {:induction false} SweepAccounts(d: Data, ps: seq<PendingWrite>)
    ensures Accounts(d, ps, Sweep(d, ps))
    ensures Sweep(d, ps).applied == [] ==> Sweep(d, ps) == Progress(d, ps, []) && NoneReady(d, ps)
  {
    if ps == [] {
    } else {
      var init, p := ps[..|ps| - 1], ps[|ps| - 1];
      assert ps == init + [p];
      SweepAccounts(d, init);
      var r := Sweep(d, init);
      if Ready(r.data, p) {
        AccountsForApplied(d, init, r, p);
      } else {
        AccountsForKept(d, init, r, p);
      }
    }
  }

  /** Positions in increasing order, and the entries of `ps` at them. */
  ghost predicate Picks(ps: seq<PendingWrite>, at: seq<nat>, out: seq<PendingWrite>) {
    && |at| == |out|
    && (forall j | 0 <= j < |at| :: at[j] < |ps| && out[j] == ps[at[j]])
    && (forall j, k | 0 <= j < k < |at| :: at[j] < at[k])
  }

  ghost predicate ReadyInTurn(d: Data, ps: seq<PendingWrite>, i: nat)
    requires i < |ps|
  {
    Ready(Sweep(d, ps[..i]).data, ps[i])
  }

  /** A pass takes the entries in order and applies exactly those that are ready at their turn. */
  lemma {:induction false} SweepInOrder(d: Data, ps: seq<PendingWrite>) returns (kept: seq<nat>, applied: seq<nat>)
    ensures Picks(ps, kept, Sweep(d, ps).kept) && Picks(ps, applied, Sweep(d, ps).applied)
    ensures forall i | 0 <= i < |ps| :: (i in applied <==> ReadyInTurn(d, ps, i)) && (i in kept <==> i !in applied)
  {
    if ps == [] {
      kept, applied := [], [];
    } else {
      var n := |ps| - 1;
      var init := ps[..n];
      kept, applied := SweepInOrder(d, init);
      forall i | 0 <= i < n ensures ReadyInTurn(d, ps, i) <==> ReadyInTurn(d, init, i) {
        assert init[..i] == ps[..i];
      }
      if Ready(Sweep(d, init).data, ps[n]) {
        applied := applied + [n];
      } else {
        kept := kept + [n];
      }
    }
  }

  /** Each pass works on what the one before left, and all but the last apply something. */
  ghost predicate Passes(d: Data, ps: seq<PendingWrite>, rs: seq<Progress>)
    decreases |rs|
  {
    && rs != [] && rs[0] == Sweep(d, ps)
    && if rs[0].applied == [] then |rs| == 1 else Passes(rs[0].data, rs[0].kept, rs[1..])
  }

  ghost function AppliedIn(rs: seq<Progress>): seq<PendingWrite> {
    if rs == [] then [] else rs[0].applied + AppliedIn(rs[1..])
  }

  /** A drain is a sequence of passes that ends with the first one that applies nothing. */
  lemma {:induction false} DrainIsPasses(d: Data, ps: seq<PendingWrite>) returns (rs: seq<Progress>)
    ensures Passes(d, ps, rs)
    ensures Drain(d, ps) == Progress(rs[|rs| - 1].data, rs[|rs| - 1].kept, AppliedIn(rs))
    decreases |ps|
  {
    var r := Sweep(d, ps);
    if r.applied == [] {
      rs := [r];
      assert rs[1..] == [];
    } else {
      var rest := DrainIsPasses(r.data, r.kept);
      rs := [r] + rest;
      assert rs[1..] == rest;
    }
  }

  /** A drain applies what it can and leaves nothing ready. */
  lemma {:induction false} DrainAccounts(d: Data, ps: seq<PendingWrite>)
    ensures Accounts(d, ps, Drain(d, ps))
    ensures NoneReady(Drain(d, ps).data, Drain(d, ps).kept)
    decreases |ps|
  {
    SweepAccounts(d, ps);
    var r := Sweep(d, ps);
    if r.applied != [] {
      DrainAccounts(r.data, r.kept);
      assert r.kept + [] == r.kept && ps + [] == ps;
      AccountsCompose(d, ps, r, [], Drain(r.data, r.kept));
    }
  }

  /** One arrival: the writes held or arriving are kept or applied, and after an application none is ready. */
  lemma ReceiveAccounts(d: Data, held: seq<PendingWrite>, p: PendingWrite)
    ensures Accounts(d, held + [p], ReceiveWrite(d, held, p))
    ensures var r := ReceiveWrite(d, held, p);
            if Ready(d, p) then p in r.applied && NoneReady(r.data, r.kept)
            else r == Progress(d, held + [p], [])
  {
    if Ready(d, p) {
      ApplyAllSingle(d, p);
      DrainAccounts(ApplyOne(d, p), held);
      var q := Drain(ApplyOne(d, p), held);
      var first := Progress(ApplyOne(d, p), [], [p]);
      assert Accounts(d, [p], first);
      assert first.kept + held == held;
      AccountsCompose(d, [p], first, held, q);
      assert multiset([p] + held) == multiset(held + [p]);
    } else {
      assert ApplyAll(d, []) == d;
    }
  }

  /** A ready arrival is applied before the passes over what was held. */
  lemma ReceiveInOrder(d: Data, held: seq<PendingWrite>, p: PendingWrite) returns (rs: seq<Progress>)
    requires Ready(d, p)
    ensures Passes(ApplyOne(d, p), held, rs)
    ensures var last := rs[|rs| - 1];
            ReceiveWrite(d, held, p) == Progress(last.data, last.kept, [p] + AppliedIn(rs))
  {
    rs := DrainIsPasses(ApplyOne(d, p), held);
  }
}
