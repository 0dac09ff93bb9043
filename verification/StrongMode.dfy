/**
 Strong mode with one origin that handles its writes one at a time: whatever calls and answers are lost and
 however late calls arrive, a completed write stays visible to every majority.
 */
module StrongMode {
  import opened Results
  import opened Hlc
  import opened KvStore
  import opened CausalBuffer
  import opened BufferTheory
  import opened Replication
  import opened NodeModel
  import opened Provenance
  import opened NodeInvariants

  /** A write whose calls are out, and for each node whether the origin has heard its success. */
  datatype Call = Call(w: PendingWrite, acks: seq<bool>)

  /** `log` and `completed` record the writes stamped and the writes that succeeded, in order. */
  datatype State = State(
    nodes: seq<NodeState>,
    flight: seq<multiset<PendingWrite>>,
    call: Option<Call>,
    log: seq<PendingWrite>,
    completed: seq<PendingWrite>)

  datatype Action =
    | Begin(key: string, data: Bytes, deleted: bool, now: int64)
    | Deliver(node: nat, write: PendingWrite, now: int64, heard: bool)
    | Lose(node: nat, write: PendingWrite)
    | Finish

  ghost predicate Shape(c: State, o: nat) {
    && o < |c.nodes| == |c.flight|
    && (forall i | 0 <= i < |c.nodes| :: c.nodes[i].clock.logical >= 0)
    && (c.call.Some? ==> |c.call.value.acks| == |c.nodes|)
  }

  ghost predicate Initial(c: State, o: nat) {
    && Shape(c, o) && c.call.None? && c.log == c.completed == []
    && forall i | 0 <= i < |c.nodes| :: c.nodes[i] == NewNode(c.nodes[i].clock.wall) && c.flight[i] == multiset{}
  }

  function Quorum(c: State): int
    requires |c.nodes| > 0
  {
    NewHandler(Strong, |c.nodes| - 1).quorum
  }

  /** What the peers' calls report, leaving out the origin itself. */
  function PeerAcks(acks: seq<bool>, o: nat): seq<bool>
    requires o < |acks|
  {
    acks[..o] + acks[o + 1..]
  }

  /** Stamping the write and sending a call to every peer. */
  function Start(c: State, o: nat, a: Action): State
    requires Shape(c, o) && a.Begin?
  {
    var s := Stamp(Strong, c.nodes[o], a.key, a.data, a.deleted, a.now);
    if s.Err? then c else
    var w := s.value;
    State(c.nodes[o := AfterStamp(Strong, c.nodes[o], w)],
          seq(|c.flight|, j requires 0 <= j < |c.flight| =>
            if j == o || Quorum(c) - 1 <= 0 then c.flight[j] else c.flight[j] + multiset{OnTheWire(w)}),
          Some(Call(w, seq(|c.nodes|, i => false))),
          c.log + [w],
          c.completed)
  }

  /** A call reaches peer `i`; it counts if the peer accepts the write and the origin, still waiting, hears so. */
  function Serve(c: State, o: nat, i: nat, w: PendingWrite, now: int64, heard: bool): State
    requires Shape(c, o) && i < |c.nodes|
  {
    var taken := c.(flight := c.flight[i := c.flight[i] - multiset{w}]);
    var r := AfterReplicate(false, c.nodes[i], w, now);
    if r.Err? then taken else
    var counts := heard && Accepts(c.nodes[i].data, w.key, w.val.ts) && c.call.Some? && OnTheWire(c.call.value.w) == w;
    taken.(nodes := c.nodes[i := r.value],
           call := if counts then Some(c.call.value.(acks := c.call.value.acks[i := true])) else c.call)
  }

  /** Every call has reported or failed: the origin stores the write if the quorum was reached. */
  function Conclude(c: State, o: nat): State
    requires Shape(c, o) && c.call.Some?
  {
    var w := c.call.value.w;
    if QuorumReached(Quorum(c), PeerAcks(c.call.value.acks, o)) then
      c.(nodes := c.nodes[o := Commit(c.nodes[o], w)], call := None, completed := c.completed + [w])
    else
      c.(call := None)
  }

  predicate Enabled(c: State, a: Action)
    requires |c.flight| == |c.nodes|
  {
    match a
    case Begin(_, _, _, _) => c.call.None?
    case Deliver(i, w, _, _) => i < |c.nodes| && w in c.flight[i]
    case Lose(i, w) => i < |c.nodes| && w in c.flight[i]
    case Finish => c.call.Some?
  }

  function Step(c: State, o: nat, a: Action): (r: State)
    requires Shape(c, o)
    ensures Shape(r, o) && |r.nodes| == |c.nodes|
  {
    if !Enabled(c, a) then c else
    match a
    case Begin(_, _, _, _) => Start(c, o, a)
    case Deliver(i, w, now, heard) => Serve(c, o, i, w, now, heard)
    case Lose(i, w) => c.(flight := c.flight[i := c.flight[i] - multiset{w}])
    case Finish => Conclude(c, o)
  }

  function Exec(c: State, o: nat, run: seq<Action>): (r: State)
    requires Shape(c, o)
    ensures Shape(r, o) && |r.nodes| == |c.nodes|
  {
    if run == [] then c else Step(Exec(c, o, run[..|run| - 1]), o, run[|run| - 1])
  }

  // What the origin keeps -----------------------------------------------------------------------

  /** `v` is what a stamped write to the key leaves. */
  ghost predicate StoredBy(log: seq<PendingWrite>, key: string, v: Value) {
    exists m :: 0 <= m < |log| && log[m].key == key && Leaves(log[m], v)
  }

  lemma StoredByLonger(log: seq<PendingWrite>, w: PendingWrite, key: string, v: Value)
    requires StoredBy(log, key, v)
    ensures StoredBy(log + [w], key, v)
  {
    var m :| 0 <= m < |log| && log[m].key == key && Leaves(log[m], v);
    assert (log + [w])[m] == log[m];
  }

  ghost predicate Increasing(log: seq<PendingWrite>) {
    forall m, p | 0 <= m < p < |log| :: Before(log[m].val.ts, log[p].val.ts)
  }

  lemma LastIsLatest(log: seq<PendingWrite>, m: nat)
    requires Increasing(log) && m < |log|
    ensures AfterOrEqual(log[|log| - 1].val.ts, log[m].val.ts)
  {
    assert m < |log| - 1 ==> Before(log[m].val.ts, log[|log| - 1].val.ts);
  }

  lemma StoredIsNotLater(log: seq<PendingWrite>, key: string, v: Value)
    requires Increasing(log) && StoredBy(log, key, v)
    ensures |log| > 0 && AfterOrEqual(log[|log| - 1].val.ts, v.ts)
  {
    var m :| 0 <= m < |log| && log[m].key == key && Leaves(log[m], v);
    LastIsLatest(log, m);
  }

  lemma StampIdentifies(log: seq<PendingWrite>, w: PendingWrite, v: Value)
    requires Increasing(log) && w in log && StoredBy(log, w.key, v) && v.ts == w.val.ts
    ensures Leaves(w, v)
  {
    var m :| 0 <= m < |log| && log[m].key == w.key && Leaves(log[m], v);
    var l :| 0 <= l < |log| && log[l] == w;
    assert m == l;
  }

  /** Stamps increase up to the origin's clock, and whatever travels, is stored or completed is a stamped write. */
  ghost predicate Ordered(c: State, o: nat)
    requires Shape(c, o)
  {
    && c.flight[o] == multiset{}
    && Increasing(c.log)
    && (forall m | 0 <= m < |c.log| :: AfterOrEqual(c.nodes[o].clock, c.log[m].val.ts))
    && (forall i, w | 0 <= i < |c.nodes| && w in c.flight[i] :: Logged(c.log, w))
    && (forall i, k | 0 <= i < |c.nodes| && k in c.nodes[i].data :: StoredBy(c.log, k, c.nodes[i].data[k]))
    && (forall w | w in c.completed :: w in c.log)
    && (c.call.Some? ==> |c.log| > 0 && c.log[|c.log| - 1] == c.call.value.w && !c.call.value.acks[o])
  }

  ghost predicate AtVersion(d: Data, w: PendingWrite) { w.key in d && d[w.key].ts == w.val.ts }

  /** An acknowledgement means that the peer is at the write's version. */
  ghost predicate AcksAreTrue(c: State, o: nat)
    requires Shape(c, o)
  {
    c.call.Some? ==>
      forall i | 0 <= i < |c.nodes| && c.call.value.acks[i] :: AtVersion(c.nodes[i].data, c.call.value.w)
  }

  ghost function Holders(c: State, w: PendingWrite): set<nat> {
    set i: nat | i < |c.nodes| && AtLeast(c.nodes[i].data, w.key, w.val.ts)
  }

  /** The nodes that store the write's own value. */
  ghost function Storing(c: State, w: PendingWrite): set<nat> {
    set i: nat | i < |c.nodes| && Stores(c.nodes[i].data, w)
  }

  predicate Stores(d: Data, w: PendingWrite) { w.key in d && Leaves(w, d[w.key]) }

  /** The write's own value, or a later version. */
  predicate StoresOrLater(d: Data, w: PendingWrite) {
    w.key in d && (Leaves(w, d[w.key]) || After(d[w.key].ts, w.val.ts))
  }

  /** A stamp identifies its write, so who is at the version has the value. */
  lemma VersionIsValue(c: State, o: nat, i: nat, w: PendingWrite)
    requires Shape(c, o) && Ordered(c, o) && i < |c.nodes| && w in c.log
    ensures AtVersion(c.nodes[i].data, w) <==> Stores(c.nodes[i].data, w)
    ensures AtLeast(c.nodes[i].data, w.key, w.val.ts) <==> StoresOrLater(c.nodes[i].data, w)
  {
    if AtVersion(c.nodes[i].data, w) {
      StampIdentifies(c.log, w, c.nodes[i].data[w.key]);
    }
  }

  ghost predicate IsMajority(c: State, s: set<nat>) { |s| >= |c.nodes| / 2 + 1 }

  ghost predicate Durable(c: State) { forall w | w in c.completed :: IsMajority(c, Holders(c, w)) }

  lemma OrderedStart(c: State, o: nat, a: Action)
    requires Shape(c, o) && Ordered(c, o) && a.Begin? && c.call.None?
    ensures Ordered(Start(c, o, a), o) && AcksAreTrue(Start(c, o, a), o)
  {
    var s := Stamp(Strong, c.nodes[o], a.key, a.data, a.deleted, a.now);
    if s.Ok? {
      var c', w := Start(c, o, a), s.value;
      SendCharacterised(c.nodes[o].clock, a.now);
      assert c'.log[|c.log|] == w;
      forall i, x | 0 <= i < |c.nodes| && x in c'.flight[i] ensures Logged(c'.log, x) {
        if x in c.flight[i] {
          LoggedStays(c.log, w, x);
        }
      }
      forall i, k | 0 <= i < |c.nodes| && k in c'.nodes[i].data
        ensures StoredBy(c'.log, k, c'.nodes[i].data[k])
      {
        StoredByLonger(c.log, w, k, c.nodes[i].data[k]);
      }
    }
  }

  lemma LoggedIsStoredBy(log: seq<PendingWrite>, w: PendingWrite)
    requires Logged(log, w)
    ensures StoredBy(log, w.key, AsStored(w.val))
  {
    var m :| 0 <= m < |log| && OnTheWire(log[m]) == w;
    assert Leaves(log[m], AsStored(w.val));
  }

  lemma OrderedServe(c: State, o: nat, i: nat, w: PendingWrite, now: int64, heard: bool)
    requires Shape(c, o) && Ordered(c, o) && i < |c.nodes| && w in c.flight[i]
    ensures Ordered(Serve(c, o, i, w, now, heard), o)
  {
    var c' := Serve(c, o, i, w, now, heard);
    assert Logged(c.log, w);
    assert i != o;
    forall j, k | 0 <= j < |c.nodes| && k in c'.nodes[j].data
      ensures StoredBy(c'.log, k, c'.nodes[j].data[k])
    {
      if !(k in c.nodes[j].data && c'.nodes[j].data[k] == c.nodes[j].data[k]) {
        assert j == i && k == w.key && c'.nodes[j].data[k] == AsStored(w.val);
        LoggedIsStoredBy(c.log, w);
      }
    }
  }

  lemma CallIsLatest(c: State, o: nat, w: PendingWrite)
    requires Shape(c, o) && Ordered(c, o) && c.call.Some? && Logged(c.log, w)
    ensures AfterOrEqual(c.call.value.w.val.ts, w.val.ts)
  {
    var m :| 0 <= m < |c.log| && OnTheWire(c.log[m]) == w;
    LastIsLatest(c.log, m);
  }

  /** A peer that has acknowledged stays at the version: nothing later travels. */
  lemma AckStays(d: Data, w: PendingWrite, last: PendingWrite)
    requires AtVersion(d, last) && AfterOrEqual(last.val.ts, w.val.ts)
    ensures AtVersion(ApplyOne(d, w), last)
  {
  }

  lemma AcksServe(c: State, o: nat, i: nat, w: PendingWrite, now: int64, heard: bool)
    requires Shape(c, o) && Ordered(c, o) && AcksAreTrue(c, o) && i < |c.nodes| && w in c.flight[i]
    ensures AcksAreTrue(Serve(c, o, i, w, now, heard), o)
  {
    if c.call.Some? {
      assert Logged(c.log, w);
      CallIsLatest(c, o, w);
      AcksStay(c, o, i, w, now, heard);
    }
  }

  lemma AcksStay(c: State, o: nat, i: nat, w: PendingWrite, now: int64, heard: bool)
    requires Shape(c, o) && AcksAreTrue(c, o) && i < |c.nodes|
    requires c.call.Some? && AfterOrEqual(c.call.value.w.val.ts, w.val.ts)
    ensures AcksAreTrue(Serve(c, o, i, w, now, heard), o)
  {
    var c', last := Serve(c, o, i, w, now, heard), c.call.value.w;
    forall j | 0 <= j < |c.nodes| && c'.call.value.acks[j] ensures AtVersion(c'.nodes[j].data, last) {
      if c.call.value.acks[j] {
        AckStays(c.nodes[j].data, w, last);
      }
    }
  }

  /** The origin's own commit never replaces a later version. */
  lemma CommitIsLatest(c: State, o: nat)
    requires Shape(c, o) && Ordered(c, o) && c.call.Some?
    ensures c.call.value.w.key in c.nodes[o].data ==>
              AfterOrEqual(c.call.value.w.val.ts, c.nodes[o].data[c.call.value.w.key].ts)
  {
    var w := c.call.value.w;
    if w.key in c.nodes[o].data {
      StoredIsNotLater(c.log, w.key, c.nodes[o].data[w.key]);
    }
  }

  lemma OrderedConclude(c: State, o: nat)
    requires Shape(c, o) && Ordered(c, o) && c.call.Some?
    ensures Ordered(Conclude(c, o), o)
  {
    var c', w := Conclude(c, o), c.call.value.w;
    assert c.log[|c.log| - 1] == w && StoredBy(c.log, w.key, AsStored(w.val));
    forall j, k | 0 <= j < |c.nodes| && k in c'.nodes[j].data
      ensures StoredBy(c'.log, k, c'.nodes[j].data[k])
    {
      if !(j == o && k == w.key) {
        assert c'.nodes[j].data[k] == c.nodes[j].data[k];
      }
    }
  }

  // Durability ----------------------------------------------------------------------------------

  ghost predicate NoneOlder(c': State, c: State) {
    && |c'.nodes| == |c.nodes|
    && forall i | 0 <= i < |c.nodes| :: NotOlder(c'.nodes[i].data, c.nodes[i].data)
  }

  lemma ServeLowersNothing(c: State, o: nat, i: nat, w: PendingWrite, now: int64, heard: bool)
    requires Shape(c, o) && i < |c.nodes|
    ensures NoneOlder(Serve(c, o, i, w, now, heard), c)
  {
  }

  lemma ConcludeLowersNothing(c: State, o: nat)
    requires Shape(c, o) && Ordered(c, o) && c.call.Some?
    ensures NoneOlder(Conclude(c, o), c)
  {
    CommitIsLatest(c, o);
  }

  lemma StartLowersNothing(c: State, o: nat, a: Action)
    requires Shape(c, o) && a.Begin?
    ensures NoneOlder(Start(c, o, a), c)
  {
  }

  /** No step lowers a version anywhere: late calls of failed writes are refused. */
  lemma VersionsNeverFall(c: State, o: nat, a: Action)
    requires Shape(c, o) && Ordered(c, o)
    ensures NoneOlder(Step(c, o, a), c)
  {
    if Enabled(c, a) {
      match a
      case Begin(_, _, _, _) => StartLowersNothing(c, o, a);
      case Deliver(i, w, now, heard) => ServeLowersNothing(c, o, i, w, now, heard);
      case Lose(i, w) =>
      case Finish => ConcludeLowersNothing(c, o);
    }
  }

  lemma HoldersGrow(c: State, c': State, w: PendingWrite)
    requires NoneOlder(c', c) && IsMajority(c, Holders(c, w))
    ensures IsMajority(c', Holders(c', w))
  {
    forall i | i in Holders(c, w) ensures i in Holders(c', w) {
      NotOlderKeeps(c'.nodes[i].data, c.nodes[i].data, w.key, w.val.ts);
    }
    SubsetSize(Holders(c, w), Holders(c', w));
  }

  lemma SubsetSize<T>(a: set<T>, b: set<T>)
    requires a <= b
    ensures |a| <= |b|
  {
    assert b == a + (b - a);
  }

  lemma {:induction false} CountWithout(acks: seq<bool>, o: nat)
    requires o < |acks| && !acks[o]
    ensures CountAcks(PeerAcks(acks, o)) == CountAcks(acks)
    decreases |acks|
  {
    var n := |acks| - 1;
    if o == n {
      assert PeerAcks(acks, o) == acks[..n];
    } else {
      CountWithout(acks[..n], o);
      var peers := PeerAcks(acks, o);
      assert peers[..|peers| - 1] == PeerAcks(acks[..n], o);
    }
  }

  lemma StoringHolds(c: State, w: PendingWrite)
    ensures |Storing(c, w)| <= |Holders(c, w)|
  {
    SubsetSize(Storing(c, w), Holders(c, w));
  }

  /** At the moment a write succeeds a majority of the nodes, the origin among them, stores its value. */
  lemma SuccessReachesMajority(c: State, o: nat)
    requires Shape(c, o) && Ordered(c, o) && AcksAreTrue(c, o) && c.call.Some?
    requires QuorumReached(Quorum(c), PeerAcks(c.call.value.acks, o))
    ensures IsMajority(Conclude(c, o), Storing(Conclude(c, o), c.call.value.w))
    ensures IsMajority(Conclude(c, o), Holders(Conclude(c, o), c.call.value.w))
  {
    var c', w, acks := Conclude(c, o), c.call.value.w, c.call.value.acks;
    AckersAreAtVersion(c, o);
    AckersAreEnough(Quorum(c), acks, o);
    SubsetSize(Acked(acks) + {o}, Storing(c', w));
    StoringHolds(c', w);
  }

  lemma AckersAreAtVersion(c: State, o: nat)
    requires Shape(c, o) && Ordered(c, o) && AcksAreTrue(c, o) && c.call.Some?
    requires QuorumReached(Quorum(c), PeerAcks(c.call.value.acks, o))
    ensures Acked(c.call.value.acks) + {o} <= Storing(Conclude(c, o), c.call.value.w)
  {
    var w, acks := c.call.value.w, c.call.value.acks;
    forall i | i in Acked(acks) + {o} ensures i in Storing(Conclude(c, o), w) {
      if i != o {
        assert AtVersion(c.nodes[i].data, w);
        VersionIsValue(c, o, i, w);
      }
    }
  }

  lemma AckersAreEnough(quorum: int, acks: seq<bool>, o: nat)
    requires o < |acks| && !acks[o] && quorum == |acks| / 2 + 1
    requires QuorumReached(quorum, PeerAcks(acks, o))
    ensures |Acked(acks) + {o}| >= quorum
  {
    CountWithout(acks, o);
    CountIsCardinality(acks);
    assert o !in Acked(acks);
  }

  ghost predicate Safe(c: State, o: nat)
    requires Shape(c, o)
  {
    Ordered(c, o) && AcksAreTrue(c, o) && Durable(c)
  }

  lemma SafeStep(c: State, o: nat, a: Action)
    requires Shape(c, o) && Safe(c, o)
    ensures Safe(Step(c, o, a), o)
  {
    var c' := Step(c, o, a);
    if Enabled(c, a) {
      match a
      case Begin(_, _, _, _) => OrderedStart(c, o, a);
      case Deliver(i, w, now, heard) => OrderedServe(c, o, i, w, now, heard); AcksServe(c, o, i, w, now, heard);
      case Lose(i, w) => OrderedLose(c, o, i, w);
      case Finish => OrderedConclude(c, o);
    }
    VersionsNeverFall(c, o, a);
    forall w | w in c'.completed ensures IsMajority(c', Holders(c', w)) {
      if w in c.completed {
        HoldersGrow(c, c', w);
      } else {
        SuccessReachesMajority(c, o);
      }
    }
  }

  lemma OrderedLose(c: State, o: nat, i: nat, w: PendingWrite)
    requires Shape(c, o) && Ordered(c, o) && i < |c.nodes|
    ensures Ordered(c.(flight := c.flight[i := c.flight[i] - multiset{w}]), o)
  {
  }

  lemma {:induction false} EveryRunIsSafe(c: State, o: nat, run: seq<Action>)
    requires Initial(c, o)
    ensures Safe(Exec(c, o, run), o)
  {
    if run == [] {
    } else {
      EveryRunIsSafe(c, o, run[..|run| - 1]);
      SafeStep(Exec(c, o, run[..|run| - 1]), o, run[|run| - 1]);
    }
  }

  function Below(n: nat): (s: set<nat>)
    ensures |s| == n && forall i: nat :: i in s <==> i < n
  {
    if n == 0 then {} else Below(n - 1) + {n - 1}
  }

  lemma MajoritiesMeet(n: nat, s: set<nat>, t: set<nat>)
    requires |s| >= n / 2 + 1 && |t| >= n / 2 + 1
    requires forall i | i in s || i in t :: i < n
    ensures s * t != {}
  {
    SubsetSize(s + t, Below(n));
    assert |s + t| + |s * t| == |s| + |t|;
  }

  /** In every later state every majority contains a node that stores a completed write's value or a later one. */
  lemma EveryMajoritySeesCompletedWrites(c: State, o: nat, run: seq<Action>, w: PendingWrite, majority: set<nat>)
    requires Initial(c, o) && w in Exec(c, o, run).completed
    requires IsMajority(c, majority) && forall j | j in majority :: j < |c.nodes|
    ensures exists i :: i in majority && i < |c.nodes| && StoresOrLater(Exec(c, o, run).nodes[i].data, w)
  {
    EveryRunIsSafe(c, o, run);
    var r := Exec(c, o, run);
    MajoritiesMeet(|c.nodes|, majority, Holders(r, w));
    var i :| i in majority * Holders(r, w);
    VersionIsValue(r, o, i, w);
  }

  /** The moment of success, in every run. */
  lemma EachSuccessIsStoredByMajority(c: State, o: nat, run: seq<Action>)
    requires Initial(c, o)
    requires var s := Exec(c, o, run); s.call.Some? && QuorumReached(Quorum(s), PeerAcks(s.call.value.acks, o))
    ensures var s := Exec(c, o, run);
            && Step(s, o, Finish).completed == s.completed + [s.call.value.w]
            && IsMajority(s, Storing(Step(s, o, Finish), s.call.value.w))
  {
    EveryRunIsSafe(c, o, run);
    SuccessReachesMajority(Exec(c, o, run), o);
  }

  // What was asked for --------------------------------------------------------------------------

  /** `w` is the write that a client asks the origin for. */
  ghost predicate Asked(a: Action, w: PendingWrite) {
    && a.Begin? && w.key == a.key && w.val.data == a.data && w.val.deleted == a.deleted && w.val.deps == []
  }

  lemma StartIsAsked(c: State, o: nat, a: Action)
    requires Shape(c, o) && a.Begin? && c.call.None?
    ensures var c' := Step(c, o, a);
            c' == c || (c'.call.Some? && Asked(a, c'.call.value.w) && c'.log == c.log + [c'.call.value.w])
  {
  }

  /** Every stamped write is what some request of the run asked for. */
  ghost predicate AllAsked(run: seq<Action>, ws: seq<PendingWrite>) {
    forall w | w in ws :: AskedIn(run, w)
  }

  ghost predicate AskedIn(run: seq<Action>, w: PendingWrite) { exists a :: a in run && Asked(a, w) }

  lemma {:induction false} LogIsAsked(c: State, o: nat, run: seq<Action>)
    requires Initial(c, o)
    ensures AllAsked(run, Exec(c, o, run).log)
  {
    if run == [] {
    } else {
      var init, a := run[..|run| - 1], run[|run| - 1];
      LogIsAsked(c, o, init);
      var s, r := Exec(c, o, init), Exec(c, o, run);
      assert a in run;
      forall w | w in r.log ensures AskedIn(run, w) {
        if w in s.log {
          assert AskedIn(init, w);
          var b :| b in init && Asked(b, w);
          assert b in run;
        } else {
          StartIsAsked(s, o, a);
        }
      }
    }
  }

  // The origin's own answers --------------------------------------------------------------------

  /** The contents that these writes leave when stored in order. */
  function Contents(ws: seq<PendingWrite>): Data {
    if ws == [] then map[] else
    var w := ws[|ws| - 1];
    Contents(ws[..|ws| - 1])[w.key := AsStored(w.val)]
  }

  /** The origin stores the writes that succeeded, the last to each key, and nothing of those that failed. */
  lemma {:induction false} OriginStoresCompletedWrites(c: State, o: nat, run: seq<Action>)
    requires Initial(c, o)
    ensures Exec(c, o, run).nodes[o].data == Contents(Exec(c, o, run).completed)
  {
    if run == [] {
    } else {
      var s, a := Exec(c, o, run[..|run| - 1]), run[|run| - 1];
      OriginStoresCompletedWrites(c, o, run[..|run| - 1]);
      EveryRunIsSafe(c, o, run[..|run| - 1]);
      OriginStep(s, o, a);
    }
  }

  lemma OriginStep(c: State, o: nat, a: Action)
    requires Shape(c, o) && Ordered(c, o) && c.nodes[o].data == Contents(c.completed)
    ensures Step(c, o, a).nodes[o].data == Contents(Step(c, o, a).completed)
  {
    if Enabled(c, a) && a.Finish? {
      var w := c.call.value.w;
      assert (c.completed + [w])[..|c.completed|] == c.completed;
    }
  }

  lemma {:induction false} ContentsHaveSource(ws: seq<PendingWrite>, key: string)
    requires key in Contents(ws)
    ensures exists w :: w in ws && w.key == key && Contents(ws)[key] == AsStored(w.val)
  {
    var w := ws[|ws| - 1];
    if w.key != key {
      ContentsHaveSource(ws[..|ws| - 1], key);
    }
  }

  /** What the origin stores under a key is what a request for it asked for: the data put, or a bare tombstone. */
  lemma OriginStoresWhatWasAsked(c: State, o: nat, run: seq<Action>, key: string)
    requires Initial(c, o) && key in Exec(c, o, run).nodes[o].data
    ensures var v := Exec(c, o, run).nodes[o].data[key];
            exists a :: a in run && a.Begin? && a.key == key && v.deleted == a.deleted
                        && v.data == if a.deleted then [] else a.data
  {
    var r := Exec(c, o, run);
    OriginStoresCompletedWrites(c, o, run);
    EveryRunIsSafe(c, o, run);
    LogIsAsked(c, o, run);
    ContentsHaveSource(r.completed, key);
    var w :| w in r.completed && w.key == key && r.nodes[o].data[key] == AsStored(w.val);
    assert AskedIn(run, w);
    var a :| a in run && Asked(a, w);
    assert a.key == key;
  }
}
