/**
 A run of arrivals at one buffer whose store nobody else writes: what is applied is a least fixpoint,
 so it does not depend on the order of arrival.
 */
module Confluence {
  import opened Hlc
  import opened KvStore
  import opened CausalBuffer
  import opened BufferTheory

  /** The state after the arrivals `ws`, starting from contents `d` and nothing held. */
  function ReceiveAll(d: Data, ws: seq<PendingWrite>): Progress {
    if ws == [] then Progress(d, [], []) else
    var s := ReceiveAll(d, ws[..|ws| - 1]);
    var r := ReceiveWrite(s.data, s.kept, ws[|ws| - 1]);
    r.(applied := s.applied + r.applied)
  }

  lemma ArrivalStep(d: Data, ws: seq<PendingWrite>, s: Progress, w: PendingWrite)
    requires Accounts(d, ws, s) && NoneReady(s.data, s.kept)
    ensures var r := ReceiveWrite(s.data, s.kept, w);
            && Accounts(d, ws + [w], r.(applied := s.applied + r.applied))
            && NoneReady(r.data, r.kept)
  {
    ReceiveAccounts(s.data, s.kept, w);
    AccountsCompose(d, ws, s, [w], ReceiveWrite(s.data, s.kept, w));
  }

  /** Over a whole run every arrival, duplicates included, is held or was handed to the store, exactly once. */
  lemma {:induction false} ArrivalsConserved(d: Data, ws: seq<PendingWrite>)
    ensures Accounts(d, ws, ReceiveAll(d, ws))
    ensures NoneReady(ReceiveAll(d, ws).data, ReceiveAll(d, ws).kept)
  {
    if ws == [] {
    } else {
      var init, w := ws[..|ws| - 1], ws[|ws| - 1];
      ArrivalsConserved(d, init);
      ArrivalStep(d, init, ReceiveAll(d, init), w);
      assert ws == init + [w];
    }
  }

  /** A dependency met by the starting contents or by a write of `ws`. */
  ghost predicate Covered(d: Data, ws: set<PendingWrite>, dep: Dependency) {
    || AfterOrEqual(Version(d, dep.key), dep.minTs)
    || exists w :: w in ws && w.key == dep.key && AfterOrEqual(w.val.ts, dep.minTs)
  }

  ghost predicate AllCovered(d: Data, ws: set<PendingWrite>, deps: seq<Dependency>) {
    forall i | 0 <= i < |deps| :: Covered(d, ws, deps[i])
  }

  /** `s` contains every arrival whose dependencies the start and `s` itself meet. */
  ghost predicate Closed(d: Data, ws: seq<PendingWrite>, s: set<PendingWrite>) {
    forall w | w in ws && AllCovered(d, s, w.val.deps) :: w in s
  }

  lemma ReadyIffCovered(d: Data, ps: seq<PendingWrite>, deps: seq<Dependency>)
    requires NonNegative(ps)
    ensures DepsSatisfied(ApplyAll(d, ps), deps) <==> AllCovered(d, Elements(ps), deps)
  {
    FoldIsMaximum(d, ps);
    var r := ApplyAll(d, ps);
    forall i | 0 <= i < |deps|
      ensures AfterOrEqual(Version(r, deps[i].key), deps[i].minTs) <==> Covered(d, Elements(ps), deps[i])
    {
      var dep := deps[i];
      VersionsRise(d, ps, dep.key);
      if AfterOrEqual(Version(r, dep.key), dep.minTs) {
        if dep.key in r {
          assert HasSource(d, ps, dep.key, r[dep.key]);
        }
      }
    }
  }

  lemma CoveredGrows(d: Data, s: set<PendingWrite>, t: set<PendingWrite>, deps: seq<Dependency>)
    requires s <= t && AllCovered(d, s, deps)
    ensures AllCovered(d, t, deps)
  {
    forall i | 0 <= i < |deps| ensures Covered(d, t, deps[i]) {
      assert Covered(d, s, deps[i]);
    }
  }

  /** A derivation stays inside every closed set. */
  lemma {:induction false} DerivationInClosed(d: Data, ws: seq<PendingWrite>, ps: seq<PendingWrite>,
                                              s: set<PendingWrite>)
    requires NonNegative(ws) && Derivation(d, ps) && Closed(d, ws, s)
    requires forall p | p in ps :: p in ws
    ensures Elements(ps) <= s
  {
    if ps == [] {
    } else {
      var init, p := ps[..|ps| - 1], ps[|ps| - 1];
      assert ps == init + [p];
      forall i | 0 <= i < |init| ensures ReadyAt(d, init, i) {
        assert ReadyAt(d, ps, i) && init[..i] == ps[..i];
      }
      DerivationInClosed(d, ws, init, s);
      assert ReadyAt(d, ps, |init|);
      ReadyIffCovered(d, init, p.val.deps);
      CoveredGrows(d, Elements(init), s, p.val.deps);
    }
  }

  /** The writes handed to the store are the least set of arrivals closed under "dependencies met". */
  lemma AppliedIsLeastFixpoint(d: Data, ws: seq<PendingWrite>)
    requires NonNegative(ws)
    ensures Closed(d, ws, Elements(ReceiveAll(d, ws).applied))
    ensures forall s | Closed(d, ws, s) :: Elements(ReceiveAll(d, ws).applied) <= s
  {
    ArrivalsConserved(d, ws);
    var r := ReceiveAll(d, ws);
    AppliedWereReceived(ws, r);
    var fix := Elements(r.applied);
    forall w | w in ws && AllCovered(d, fix, w.val.deps) ensures w in fix {
      ReadyIffCovered(d, r.applied, w.val.deps);
      assert Ready(r.data, w);
      assert w in multiset(ws);
      assert w in multiset(r.kept) || w in multiset(r.applied);
    }
    forall s | Closed(d, ws, s) ensures fix <= s {
      DerivationInClosed(d, ws, r.applied, s);
    }
  }

  lemma AppliedWereReceived(ws: seq<PendingWrite>, r: Progress)
    requires multiset(r.kept) + multiset(r.applied) == multiset(ws)
    ensures forall p | p in r.applied :: p in ws
  {
    forall p | p in r.applied ensures p in ws {
      assert p in multiset(r.applied);
      assert p in multiset(ws);
    }
  }

  /** Either every copy of `w` was handed to the store or every copy is held. */
  ghost predicate AllOrNothing(ws: seq<PendingWrite>, r: Progress, w: PendingWrite) {
    && multiset(r.kept)[w] == (if w in r.applied then 0 else multiset(ws)[w])
    && multiset(r.applied)[w] == (if w in r.applied then multiset(ws)[w] else 0)
  }

  /** No write is both handed to the store and still held, so the held part is determined by the applied set. */
  lemma HeldDetermined(d: Data, ws: seq<PendingWrite>, w: PendingWrite)
    requires NonNegative(ws)
    ensures AllOrNothing(ws, ReceiveAll(d, ws), w)
  {
    ArrivalsConserved(d, ws);
    var r := ReceiveAll(d, ws);
    AppliedWereReceived(ws, r);
    assert multiset(ws)[w] == multiset(r.kept)[w] + multiset(r.applied)[w];
    if w in r.applied {
      AppliedStaysReady(d, r.applied, w);
      assert w !in r.kept;
    }
  }

  ghost predicate SameOutcome(r: Progress, q: Progress) {
    && SameVersions(r.data, q.data)
    && multiset(r.kept) == multiset(q.kept)
    && multiset(r.applied) == multiset(q.applied)
  }

  /** Every order of arrival ends with the same versions, the same held writes and the same applied writes. */
  lemma OrderOfArrivalIsIrrelevant(d: Data, ws: seq<PendingWrite>, us: seq<PendingWrite>)
    requires NonNegative(ws) && multiset(ws) == multiset(us)
    ensures SameOutcome(ReceiveAll(d, ws), ReceiveAll(d, us))
    ensures LatestUnambiguous(d, ReceiveAll(d, ws).applied) ==> ReceiveAll(d, ws).data == ReceiveAll(d, us).data
  {
    SameElements(ws, us);
    var r, q := ReceiveAll(d, ws), ReceiveAll(d, us);
    AppliedIsLeastFixpoint(d, ws);
    AppliedIsLeastFixpoint(d, us);
    SameClosed(d, ws, us, Elements(r.applied));
    SameClosed(d, ws, us, Elements(q.applied));
    assert Elements(r.applied) == Elements(q.applied);
    forall w ensures w in r.applied <==> w in q.applied {
      assert w in r.applied <==> w in Elements(r.applied);
      assert w in q.applied <==> w in Elements(q.applied);
    }
    forall w
      ensures multiset(r.kept)[w] == multiset(q.kept)[w] && multiset(r.applied)[w] == multiset(q.applied)[w]
    {
      HeldDetermined(d, ws, w);
      HeldDetermined(d, us, w);
    }
    assert multiset(r.kept) == multiset(q.kept) && multiset(r.applied) == multiset(q.applied);
    ArrivalsConserved(d, ws);
    ArrivalsConserved(d, us);
    assert SameWrites(r.applied, q.applied);
    SameWritesSameVersions(d, r.applied, q.applied);
    if LatestUnambiguous(d, r.applied) {
      SameWritesSameContents(d, r.applied, q.applied);
    }
  }

  lemma SameClosed(d: Data, ws: seq<PendingWrite>, us: seq<PendingWrite>, s: set<PendingWrite>)
    requires SameWrites(ws, us)
    ensures Closed(d, ws, s) <==> Closed(d, us, s)
  {
  }

  lemma SameElements(ws: seq<PendingWrite>, us: seq<PendingWrite>)
    requires multiset(ws) == multiset(us)
    ensures SameWrites(ws, us)
  {
    forall w ensures w in ws <==> w in us {
      assert w in ws <==> w in multiset(ws);
      assert w in us <==> w in multiset(us);
    }
  }
}
