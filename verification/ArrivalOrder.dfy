/**
 When the contents that a buffer's arrivals leave depend on their order.  The versions never do; a value does when
 writes with equal timestamps compete for a key, and each of them can be the first to be applied.
 */
module ArrivalOrder {
  import opened Hlc
  import opened KvStore
  import opened CausalBuffer
  import opened BufferTheory
  import opened Confluence

  /** `x` competes with `p`: same key and timestamp, another value. */
  ghost predicate Rival(p: PendingWrite, x: PendingWrite) {
    x.key == p.key && x.val.ts == p.val.ts && AsStored(x.val) != AsStored(p.val)
  }

  /** The arrivals that compete with `p`, or those that do not, in order. */
  ghost function Select(ws: seq<PendingWrite>, p: PendingWrite, rivals: bool): seq<PendingWrite> {
    if ws == [] then [] else
    var init, w := Select(ws[..|ws| - 1], p, rivals), ws[|ws| - 1];
    if Rival(p, w) == rivals then init + [w] else init
  }

  lemma {:induction false} SelectSplits(ws: seq<PendingWrite>, p: PendingWrite)
    ensures multiset(Select(ws, p, false) + Select(ws, p, true)) == multiset(ws)
  {
    if ws == [] {
    } else {
      var init, w := ws[..|ws| - 1], ws[|ws| - 1];
      SelectSplits(init, p);
      assert ws == init + [w];
    }
  }

  lemma {:induction false} SelectCounts(ws: seq<PendingWrite>, p: PendingWrite, rivals: bool, x: PendingWrite)
    ensures multiset(Select(ws, p, rivals))[x] == if Rival(p, x) == rivals then multiset(ws)[x] else 0
  {
    if ws == [] {
    } else {
      var init, w := ws[..|ws| - 1], ws[|ws| - 1];
      SelectCounts(init, p, rivals, x);
      assert ws == init + [w];
    }
  }

  lemma Unrivalled(ws: seq<PendingWrite>, p: PendingWrite)
    ensures forall x :: x in Select(ws, p, false) <==> x in ws && !Rival(p, x)
    ensures NonNegative(ws) ==> NonNegative(Select(ws, p, false))
  {
    forall x ensures x in Select(ws, p, false) <==> x in ws && !Rival(p, x) {
      SelectCounts(ws, p, false, x);
      assert x in Select(ws, p, false) <==> x in multiset(Select(ws, p, false));
      assert x in ws <==> x in multiset(ws);
    }
  }

  /** `p` gets applied even when none of its rivals arrives. */
  ghost predicate CanLead(d: Data, ws: seq<PendingWrite>, p: PendingWrite) {
    p in ReceiveAll(d, Select(ws, p, false)).applied
  }

  /** A write that can decide its key: one of the latest to be applied, later than the start, and able to lead. */
  ghost predicate Leader(d: Data, ws: seq<PendingWrite>, p: PendingWrite) {
    var applied := ReceiveAll(d, ws).applied;
    p in applied && IsLatest(applied, p) && Accepts(d, p.key, p.val.ts) && CanLead(d, ws, p)
  }

  /** The leaders of each key leave one value. */
  ghost predicate LeadersAgree(d: Data, ws: seq<PendingWrite>) {
    forall p, q | Leader(d, ws, p) && Leader(d, ws, q) && p.key == q.key :: AsStored(p.val) == AsStored(q.val)
  }

  // A leader can decide its key -----------------------------------------------------------------

  /** What arrives later only adds to what has been applied. */
  lemma {:induction false} ReceivedStays(d: Data, ws: seq<PendingWrite>, more: seq<PendingWrite>)
    ensures Extends(ReceiveAll(d, ws + more).data, ReceiveAll(d, ws).data)
    ensures Elements(ReceiveAll(d, ws).applied) <= Elements(ReceiveAll(d, ws + more).applied)
  {
    if more == [] {
      assert ws + more == ws;
    } else {
      var before, w := ws + more[..|more| - 1], more[|more| - 1];
      assert (ws + more)[..|ws + more| - 1] == before;
      ReceivedStays(d, ws, more[..|more| - 1]);
      var s := ReceiveAll(d, before);
      ReceiveAccounts(s.data, s.kept, w);
      var r := ReceiveWrite(s.data, s.kept, w);
      FoldIsMaximum(s.data, r.applied);
      ExtendsStep(ReceiveAll(d, ws).data, s.data, r.data, []);
    }
  }

  lemma UnrivalledDecides(d: Data, ps: seq<PendingWrite>, p: PendingWrite)
    requires p in ps && Accepts(d, p.key, p.val.ts)
    requires forall x | x in ps && x.key == p.key :: AfterOrEqual(p.val.ts, x.val.ts) && !Rival(p, x)
    ensures var r := ApplyAll(d, ps); p.key in r && r[p.key] == AsStored(p.val)
  {
    FoldIsMaximum(d, ps);
    assert HasSource(d, ps, p.key, ApplyAll(d, ps)[p.key]);
  }

  /** With its rivals last, a leader is what the key ends up with. */
  lemma LeaderDecides(d: Data, ws: seq<PendingWrite>, p: PendingWrite) returns (us: seq<PendingWrite>)
    requires NonNegative(ws) && Leader(d, ws, p)
    ensures multiset(us) == multiset(ws)
    ensures var r := ReceiveAll(d, us).data; p.key in r && r[p.key] == AsStored(p.val)
  {
    var first := Select(ws, p, false);
    us := first + Select(ws, p, true);
    SelectSplits(ws, p);
    Unrivalled(ws, p);
    OrderOfArrivalIsIrrelevant(d, ws, us);
    ReceivedStays(d, first, Select(ws, p, true));
    var s, r, q := ReceiveAll(d, first), ReceiveAll(d, us), ReceiveAll(d, ws);
    ArrivalsConserved(d, first);
    AppliedWereReceived(first, s);
    SameElements(r.applied, q.applied);
    forall x | x in s.applied && x.key == p.key ensures AfterOrEqual(p.val.ts, x.val.ts) && !Rival(p, x) {
      assert x in Elements(s.applied) && x in r.applied;
    }
    UnrivalledDecides(d, s.applied, p);
    ArrivalsConserved(d, us);
    NoneLater(d, r.applied, p);
  }

  lemma NoneLater(d: Data, ps: seq<PendingWrite>, p: PendingWrite)
    requires forall x | x in ps && x.key == p.key :: AfterOrEqual(p.val.ts, x.val.ts)
    requires Accepts(d, p.key, p.val.ts)
    ensures p.key in ApplyAll(d, ps) ==> AfterOrEqual(p.val.ts, ApplyAll(d, ps)[p.key].ts)
  {
    FoldIsMaximum(d, ps);
    if p.key in ApplyAll(d, ps) {
      assert HasSource(d, ps, p.key, ApplyAll(d, ps)[p.key]);
    }
  }

  // Only a leader decides -----------------------------------------------------------------------

  /** The write that first brings the key to its final version. */
  lemma {:induction false} FirstToReach(d: Data, ps: seq<PendingWrite>, k: string, ts: Timestamp) returns (i: nat)
    requires !AtLeast(d, k, ts) && AtLeast(ApplyAll(d, ps), k, ts)
    ensures i < |ps| && !AtLeast(ApplyAll(d, ps[..i]), k, ts) && AtLeast(ApplyAll(d, ps[..i + 1]), k, ts)
  {
    if ps == [] {
    } else if AtLeast(ApplyAll(d, ps[..|ps| - 1]), k, ts) {
      var init := ps[..|ps| - 1];
      i := FirstToReach(d, init, k, ts);
      assert init[..i] == ps[..i] && init[..i + 1] == ps[..i + 1];
    } else {
      i := |ps| - 1;
      assert ps[..i + 1] == ps;
    }
  }

  lemma ReachedStays(d: Data, ps: seq<PendingWrite>, i: nat, k: string)
    requires i <= |ps| && k in ApplyAll(d, ps[..i])
    ensures Extends(ApplyAll(d, ps), ApplyAll(d, ps[..i]))
  {
    assert ps == ps[..i] + ps[i..];
    ApplyAllAppend(d, ps[..i], ps[i..]);
    FoldIsMaximum(ApplyAll(d, ps[..i]), ps[i..]);
  }

  /** What a key that was written ends up with is the first of its latest writes. */
  lemma FirstDecides(d: Data, ps: seq<PendingWrite>, k: string) returns (i: nat)
    requires var r := ApplyAll(d, ps); k in r && !(k in d && d[k].ts == r[k].ts)
    ensures i < |ps| && ps[i].key == k && AsStored(ps[i].val) == ApplyAll(d, ps)[k]
    ensures IsLatest(ps, ps[i]) && Accepts(d, k, ps[i].val.ts)
    ensures !AtLeast(ApplyAll(d, ps[..i]), k, ps[i].val.ts)
  {
    FoldIsMaximum(d, ps);
    i := FirstToReach(d, ps, k, ApplyAll(d, ps)[k].ts);
    assert ps[..i + 1][..i] == ps[..i] && ps[..i + 1][i] == ps[i];
    ReachedStays(d, ps, i + 1, k);
  }

  lemma NoRivalBefore(d: Data, ps: seq<PendingWrite>, i: nat)
    requires i < |ps| && !AtLeast(ApplyAll(d, ps[..i]), ps[i].key, ps[i].val.ts)
    ensures forall x | x in ps[..i + 1] :: !Rival(ps[i], x)
  {
    FoldIsMaximum(d, ps[..i]);
    forall x | x in ps[..i + 1] ensures !Rival(ps[i], x) {
      assert ps[..i + 1] == ps[..i] + [ps[i]];
    }
  }

  lemma DerivationPrefix(d: Data, ps: seq<PendingWrite>, i: nat)
    requires i <= |ps| && Derivation(d, ps)
    ensures Derivation(d, ps[..i])
  {
    forall j | 0 <= j < i ensures ReadyAt(d, ps[..i], j) {
      assert ReadyAt(d, ps, j) && ps[..i][..j] == ps[..j];
    }
  }

  /** What was applied without rivals is applied when they do not arrive. */
  lemma UnrivalledLeads(d: Data, ws: seq<PendingWrite>, ps: seq<PendingWrite>, p: PendingWrite)
    requires NonNegative(ws) && Derivation(d, ps) && p in ps
    requires forall x | x in ps :: x in ws && !Rival(p, x)
    ensures CanLead(d, ws, p)
  {
    var first := Select(ws, p, false);
    Unrivalled(ws, p);
    AppliedIsLeastFixpoint(d, first);
    DerivationInClosed(d, first, ps, Elements(ReceiveAll(d, first).applied));
    assert p in Elements(ps);
  }

  lemma FirstLeads(d: Data, ws: seq<PendingWrite>, ps: seq<PendingWrite>, i: nat)
    requires NonNegative(ws) && Derivation(d, ps) && i < |ps| && forall x | x in ps :: x in ws
    requires !AtLeast(ApplyAll(d, ps[..i]), ps[i].key, ps[i].val.ts)
    ensures CanLead(d, ws, ps[i])
  {
    NoRivalBefore(d, ps, i);
    DerivationPrefix(d, ps, i + 1);
    assert ps[..i + 1][i] == ps[i];
    UnrivalledLeads(d, ws, ps[..i + 1], ps[i]);
  }

  /** The value of a key that was written comes from a leader. */
  lemma DeciderLeads(d: Data, ws: seq<PendingWrite>, k: string) returns (p: PendingWrite)
    requires NonNegative(ws)
    requires var r := ReceiveAll(d, ws).data; k in r && !(k in d && d[k].ts == r[k].ts)
    ensures Leader(d, ws, p) && p.key == k && ReceiveAll(d, ws).data[k] == AsStored(p.val)
  {
    ArrivalsConserved(d, ws);
    var ps := ReceiveAll(d, ws).applied;
    AppliedWereReceived(ws, ReceiveAll(d, ws));
    var i := FirstDecides(d, ps, k);
    FirstLeads(d, ws, ps, i);
    p := ps[i];
  }

  // Order of arrival ----------------------------------------------------------------------------

  lemma LeadsInAnyOrder(d: Data, ws: seq<PendingWrite>, us: seq<PendingWrite>, p: PendingWrite)
    requires NonNegative(ws) && multiset(ws) == multiset(us) && Leader(d, us, p)
    ensures Leader(d, ws, p)
  {
    OrderOfArrivalIsIrrelevant(d, ws, us);
    SameElements(ReceiveAll(d, ws).applied, ReceiveAll(d, us).applied);
    forall x ensures multiset(Select(ws, p, false))[x] == multiset(Select(us, p, false))[x] {
      SelectCounts(ws, p, false, x);
      SelectCounts(us, p, false, x);
    }
    Unrivalled(ws, p);
    assert multiset(Select(ws, p, false)) == multiset(Select(us, p, false));
    OrderOfArrivalIsIrrelevant(d, Select(ws, p, false), Select(us, p, false));
    SameElements(ReceiveAll(d, Select(ws, p, false)).applied, ReceiveAll(d, Select(us, p, false)).applied);
  }

  lemma AgreedLeadersFixKey(d: Data, ws: seq<PendingWrite>, us: seq<PendingWrite>, k: string)
    requires NonNegative(ws) && NonNegative(us) && multiset(ws) == multiset(us) && LeadersAgree(d, ws)
    requires var r, q := ReceiveAll(d, ws).data, ReceiveAll(d, us).data;
             k in r && k in q && r[k].ts == q[k].ts && !(k in d && d[k].ts == r[k].ts)
    ensures ReceiveAll(d, us).data[k] == ReceiveAll(d, ws).data[k]
  {
    var p := DeciderLeads(d, ws, k);
    var p' := DeciderLeads(d, us, k);
    LeadsInAnyOrder(d, ws, us, p');
  }

  lemma StartIsKept(d: Data, ws: seq<PendingWrite>)
    ensures Extends(ReceiveAll(d, ws).data, d)
  {
    ArrivalsConserved(d, ws);
    FoldIsMaximum(d, ReceiveAll(d, ws).applied);
  }

  lemma AgreedLeadersFixContents(d: Data, ws: seq<PendingWrite>, us: seq<PendingWrite>)
    requires NonNegative(ws) && multiset(ws) == multiset(us) && LeadersAgree(d, ws)
    ensures ReceiveAll(d, us).data == ReceiveAll(d, ws).data
  {
    OrderOfArrivalIsIrrelevant(d, ws, us);
    SameElements(ws, us);
    StartIsKept(d, ws);
    StartIsKept(d, us);
    var r, q := ReceiveAll(d, ws).data, ReceiveAll(d, us).data;
    forall k | k in r && !(k in d && d[k].ts == r[k].ts) ensures r[k] == q[k] {
      AgreedLeadersFixKey(d, ws, us, k);
    }
    SameWhereWritten(d, r, q);
  }

  lemma SameWhereWritten(d: Data, r: Data, q: Data)
    requires SameVersions(r, q) && Extends(r, d) && Extends(q, d)
    requires forall k | k in r && !(k in d && d[k].ts == r[k].ts) :: r[k] == q[k]
    ensures r == q
  {
  }

  /** Every order of arrival leaves the same contents. */
  ghost predicate OrderDoesNotMatter(d: Data, ws: seq<PendingWrite>) {
    forall us | Permutes(us, ws) :: ReceiveAll(d, us).data == ReceiveAll(d, ws).data
  }

  ghost predicate Permutes(us: seq<PendingWrite>, ws: seq<PendingWrite>) { multiset(us) == multiset(ws) }

  /** Contents are the same in every order of arrival exactly when the leaders of each key leave one value. */
  lemma ContentsIgnoreOrderExactly(d: Data, ws: seq<PendingWrite>)
    requires NonNegative(ws)
    ensures OrderDoesNotMatter(d, ws) <==> LeadersAgree(d, ws)
  {
    if LeadersAgree(d, ws) {
      forall us | Permutes(us, ws) ensures ReceiveAll(d, us).data == ReceiveAll(d, ws).data {
        AgreedLeadersFixContents(d, ws, us);
      }
    }
    if OrderDoesNotMatter(d, ws) {
      forall p, q | Leader(d, ws, p) && Leader(d, ws, q) && p.key == q.key ensures AsStored(p.val) == AsStored(q.val) {
        var us := LeaderDecides(d, ws, p);
        var vs := LeaderDecides(d, ws, q);
        assert Permutes(us, ws) && Permutes(vs, ws);
      }
    }
  }
}
