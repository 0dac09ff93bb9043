/**
 A run as one node sees it: every action of the cluster is one local event, or none, at each node.
 */
module ClusterViews {
  import opened Results
  import opened Hlc
  import opened CausalBuffer
  import opened BufferTheory
  import opened Replication
  import opened NodeModel
  import opened Cluster

  datatype View = View(n: NodeState, flight: multiset<PendingWrite>, merged: set<PendingWrite>, done: set<PendingWrite>)

  function ViewOf(c: State, i: nat): View
    requires |c.flight| == |c.merged| == |c.done| == |c.nodes| && i < |c.nodes|
  {
    View(c.nodes[i], c.flight[i], c.merged[i], c.done[i])
  }

  datatype Local =
    | Own(w: PendingWrite)
    | Foreign(w: PendingWrite)
    | Read(key: string)
    | Arrival(w: PendingWrite, ts: Timestamp)
    | Gone(w: PendingWrite)
    | Idle

  function Move(mode: AsyncMode, v: View, e: Local): View {
    match e
    case Own(w) => v.(n := Commit(AfterStamp(mode, v.n, w), w), done := v.done + {OnTheWire(w)})
    case Foreign(w) => v.(flight := v.flight + multiset{OnTheWire(w)})
    case Read(key) => v.(n := AfterRead(mode, v.n, key))
    case Arrival(w, ts) =>
      var r := Absorb(mode == Causal, v.n, w);
      View(v.n.(clock := ts, data := r.data, held := r.kept), v.flight - multiset{w},
           v.merged + Elements(r.applied), v.done + Elements(r.applied))
    case Gone(w) => v.(flight := v.flight - multiset{w})
    case Idle => v
  }

  /** What action `a` is to node `i`. */
  function EventAt(mode: AsyncMode, c: State, a: Action, i: nat): Local
    requires Shape(c)
  {
    if !Enabled(c, a) then Idle
    else if IsClientWrite(a) then IssueAt(Stamped(mode, c.nodes[a.node], a), i == a.node)
    else if i != a.node then Idle
    else if a.Get? then Read(a.key)
    else if a.Lose? then Gone(a.write)
    else
      var ts := ReceiveTs(c.nodes[i].clock, a.write.val.ts, a.now);
      if ts.Ok? then Arrival(a.write, ts.value) else Gone(a.write)
  }

  function IssueAt(s: Result<PendingWrite>, own: bool): Local {
    if s.Err? then Idle else if own then Own(s.value) else Foreign(s.value)
  }

  function LogAfter(mode: AsyncMode, c: State, a: Action): seq<PendingWrite>
    requires Shape(c)
  {
    var w := Issued(mode, c, a);
    if w.Some? then c.log + [w.value] else c.log
  }

  function OriginAfter(mode: AsyncMode, c: State, a: Action): seq<nat>
    requires Shape(c)
  {
    if Issued(mode, c, a).Some? then c.origin + [a.node] else c.origin
  }

  lemma IssueIsMove(mode: AsyncMode, c: State, j: nat, w: PendingWrite, i: nat)
    requires Shape(c) && i < |c.nodes| && j < |c.nodes|
    ensures ViewOf(Issue(mode, c, j, w), i) == Move(mode, ViewOf(c, i), if i == j then Own(w) else Foreign(w))
  {
  }

  lemma WriteIsMove(mode: AsyncMode, c: State, a: Action, i: nat)
    requires Shape(c) && i < |c.nodes| && Enabled(c, a) && IsClientWrite(a)
    ensures ViewOf(Step(mode, c, a), i) == Move(mode, ViewOf(c, i), EventAt(mode, c, a, i))
  {
    var s := Stamped(mode, c.nodes[a.node], a);
    if s.Ok? {
      IssueIsMove(mode, c, a.node, s.value, i);
    }
  }

  lemma AcceptIsMove(mode: AsyncMode, c: State, i: nat, j: nat, w: PendingWrite, now: int64)
    requires Shape(c) && i < |c.nodes| && j < |c.nodes|
    ensures var ts := ReceiveTs(c.nodes[j].clock, w.val.ts, now);
            ViewOf(Accept(mode, c, j, w, now), i) ==
            Move(mode, ViewOf(c, i), if i != j then Idle else if ts.Ok? then Arrival(w, ts.value) else Gone(w))
  {
  }

  lemma ReadIsMove(mode: AsyncMode, c: State, i: nat, j: nat, key: string)
    requires Shape(c) && i < |c.nodes| && j < |c.nodes|
    ensures var c' := c.(nodes := c.nodes[j := AfterRead(mode, c.nodes[j], key)]);
            ViewOf(c', i) == Move(mode, ViewOf(c, i), if i == j then Read(key) else Idle)
  {
  }

  lemma TakeIsMove(mode: AsyncMode, c: State, i: nat, j: nat, w: PendingWrite)
    requires Shape(c) && i < |c.nodes| && j < |c.nodes|
    ensures ViewOf(Take(c, j, w), i) == Move(mode, ViewOf(c, i), if i == j then Gone(w) else Idle)
  {
  }

  /** The cluster's step is, at every node, the local event that `EventAt` names. */
  lemma StepIsMove(mode: AsyncMode, c: State, a: Action, i: nat)
    requires Shape(c) && i < |c.nodes|
    ensures ViewOf(Step(mode, c, a), i) == Move(mode, ViewOf(c, i), EventAt(mode, c, a, i))
  {
    if Enabled(c, a) {
      if IsClientWrite(a) {
        WriteIsMove(mode, c, a, i);
      } else if a.Get? {
        ReadIsMove(mode, c, i, a.node, a.key);
      } else if a.Deliver? {
        AcceptIsMove(mode, c, i, a.node, a.write, a.now);
      } else {
        TakeIsMove(mode, c, i, a.node, a.write);
      }
    }
  }

  lemma LogGrows(mode: AsyncMode, c: State, a: Action)
    requires Shape(c)
    ensures Step(mode, c, a).log == LogAfter(mode, c, a)
    ensures Step(mode, c, a).origin == OriginAfter(mode, c, a)
  {
  }

  /** `w` is the write that a put or a delete asks for: a put's data unaltered, or a deletion without data. */
  ghost predicate Requested(a: Action, w: PendingWrite) {
    && (a.Put? || a.Delete?) && w.key == a.key
    && (a.Put? ==> w.val.data == a.data && !w.val.deleted)
    && (a.Delete? ==> w.val.data == [] && w.val.deleted)
  }

  lemma IssuedIsRequested(mode: AsyncMode, c: State, a: Action)
    requires Shape(c) && Issued(mode, c, a).Some?
    ensures Requested(a, Issued(mode, c, a).value)
  {
  }

  /** The action of the run that asked for the write at each place of the log. */
  ghost predicate LogAnswers(c: State, run: seq<Action>, asked: seq<nat>)
    requires Shape(c)
  {
    && |asked| == |c.log|
    && (forall m | 0 <= m < |asked| ::
          asked[m] < |run| && Requested(run[asked[m]], c.log[m]) && run[asked[m]].node == c.origin[m])
    && (forall m, p | 0 <= m < p < |asked| :: asked[m] < asked[p])
  }

  /** Every write of a run is what some client asked the node that issued it for, in the order of the requests. */
  lemma {:induction false} LogIsTheRequests(mode: AsyncMode, c: State, run: seq<Action>) returns (asked: seq<nat>)
    requires Initial(c)
    ensures LogAnswers(Exec(mode, c, run), run, asked)
  {
    if run == [] {
      asked := [];
    } else {
      var init, a := run[..|run| - 1], run[|run| - 1];
      asked := LogIsTheRequests(mode, c, init);
      LogGrows(mode, Exec(mode, c, init), a);
      if Issued(mode, Exec(mode, c, init), a).Some? {
        IssuedIsRequested(mode, Exec(mode, c, init), a);
        asked := asked + [|run| - 1];
      }
    }
  }

  /** What the local events of a run guarantee. */
  lemma EventFacts(mode: AsyncMode, c: State, a: Action, i: nat)
    requires Shape(c) && i < |c.nodes|
    ensures var e, n := EventAt(mode, c, a, i), c.nodes[i];
            && (e.Own? <==> Issued(mode, c, a).Some? && a.node == i)
            && (e.Foreign? <==> Issued(mode, c, a).Some? && a.node != i)
            && (e.Own? || e.Foreign? ==> Issued(mode, c, a) == Some(e.w))
            && (e.Own? ==> && SendTs(n.clock, a.now) == Ok(e.w.val.ts)
                           && e.w.val.deps == (if mode == Causal then n.recorded else []))
            && (e.Arrival? ==> e.w in c.flight[i] && a == Deliver(i, e.w, a.now)
                               && ReceiveTs(n.clock, e.w.val.ts, a.now) == Ok(e.ts))
            && (e.Gone? ==> e.w in c.flight[i] && Loses(mode, c, a))
  {
  }

  lemma ClockMoves(mode: AsyncMode, v: View, e: Local)
    ensures Move(mode, v, e).n.clock == if e.Own? then e.w.val.ts else if e.Arrival? then e.ts else v.n.clock
  {
  }

  /** A node's clock changes only to a timestamp that its own `Send` or `Receive` returned. */
  lemma ClockOfStep(mode: AsyncMode, c: State, a: Action, i: nat)
    requires Shape(c) && i < |c.nodes|
    ensures var e := EventAt(mode, c, a, i);
            Step(mode, c, a).nodes[i].clock ==
            if e.Own? then e.w.val.ts else if e.Arrival? then e.ts else c.nodes[i].clock
  {
    StepIsMove(mode, c, a, i);
    ClockMoves(mode, ViewOf(c, i), EventAt(mode, c, a, i));
    assert ViewOf(Step(mode, c, a), i).n == Step(mode, c, a).nodes[i];
  }

  /** What an arriving write does to contents, held list and history, in either mode. */
  lemma AbsorbConserves(mode: AsyncMode, n: NodeState, w: PendingWrite)
    ensures Conserves(n.data, n.held + [w], Absorb(mode == Causal, n, w))
    ensures mode == Causal ==> Accounts(n.data, n.held + [w], Absorb(true, n, w))
    ensures var r := Absorb(mode == Causal, n, w);
            && (forall p | p in r.applied :: p == w || p in n.held)
            && (forall p | p in r.kept :: p == w || p in n.held)
            && (forall p | p == w || p in n.held :: p in r.applied || p in r.kept)
            && r.data == ApplyAll(n.data, r.applied)
  {
    var r := Absorb(mode == Causal, n, w);
    if mode == Causal {
      ReceiveAccounts(n.data, n.held, w);
    } else {
      ApplyAllSingle(n.data, w);
    }
    assert multiset(n.held + [w]) == multiset(n.held) + multiset{w};
    forall p ensures p in r.applied || p in r.kept <==> p == w || p in n.held {
      assert p in multiset(r.kept) + multiset(r.applied) <==> p in multiset(n.held) + multiset{w};
      assert p in r.applied <==> p in multiset(r.applied);
      assert p in r.kept <==> p in multiset(r.kept);
      assert p in n.held <==> p in multiset(n.held);
    }
  }
}
