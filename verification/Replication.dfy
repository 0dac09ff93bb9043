/**
 Fan-out to the peers and the request that travels to them (internal/replication/replication.go;
 decoding from internal/server/node.go).
 */
module Replication {
  import opened Results
  import opened Hlc
  import opened KvStore
  import opened CausalBuffer

  // A message field that protobuf may leave out is an `Option`.
  datatype ProtoDependency = ProtoDependency(key: string, minTs: Option<Timestamp>)

  datatype ReplicateRequest = ReplicateRequest(
    key: string, value: Bytes, ts: Option<Timestamp>, deps: seq<Option<ProtoDependency>>)

  function EncodeDeps(deps: seq<Dependency>): (r: seq<Option<ProtoDependency>>) {
    seq(|deps|, i requires 0 <= i < |deps| => Some(ProtoDependency(deps[i].key, Some(deps[i].minTs))))
  }

  function Encode(key: string, val: Value, deps: seq<Dependency>): ReplicateRequest {
    ReplicateRequest(key, val.data, Some(val.ts), EncodeDeps(deps))
  }

  method BuildReplicateRequest(key: string, val: Value, deps: seq<Dependency>) returns (req: ReplicateRequest)
    ensures req == Encode(key, val, deps)
    ensures req.key == key && req.value == val.data && req.ts == Some(val.ts) && |req.deps| == |deps|
    ensures forall i | 0 <= i < |deps| :: req.deps[i] == Some(ProtoDependency(deps[i].key, Some(deps[i].minTs)))
  {
    req := ReplicateRequest(key, val.data, Some(val.ts), []);
    for i := 0 to |deps|
      invariant req == Encode(key, val, deps[..i])
    {
      req := req.(deps := req.deps + [Some(ProtoDependency(deps[i].key, Some(deps[i].minTs)))]);
    }
    assert deps[..|deps|] == deps;
  }

  /** Dependencies as the receiver reads them: incomplete entries are skipped. */
  function DecodeDeps(deps: seq<Option<ProtoDependency>>): seq<Dependency> {
    if deps == [] then [] else
    var init, last := DecodeDeps(deps[..|deps| - 1]), deps[|deps| - 1];
    if last.None? || last.value.minTs.None? then init
    else init + [Dependency(last.value.key, last.value.minTs.value)]
  }

  method FromProtoDeps(deps: seq<Option<ProtoDependency>>) returns (out: seq<Dependency>)
    ensures out == DecodeDeps(deps)
  {
    out := [];
    for i := 0 to |deps|
      invariant out == DecodeDeps(deps[..i])
    {
      assert deps[..i + 1][..i] == deps[..i];
      if deps[i].None? || deps[i].value.minTs.None? {
        continue;
      }
      out := out + [Dependency(deps[i].value.key, deps[i].value.minTs.value)];
    }
    assert deps[..|deps|] == deps;
  }

  predicate Complete(e: Option<ProtoDependency>) { e.Some? && e.value.minTs.Some? }

  /** An incomplete entry has no effect, wherever it stands. */
  lemma {:induction false} IncompleteEntriesVanish(before: seq<Option<ProtoDependency>>, e: Option<ProtoDependency>,
                                                   after: seq<Option<ProtoDependency>>)
    requires !Complete(e)
    ensures DecodeDeps(before + [e] + after) == DecodeDeps(before + after)
  {
    if after == [] {
      assert (before + [e] + after)[..|before|] == before + after == before;
    } else {
      var init := after[..|after| - 1];
      IncompleteEntriesVanish(before, e, init);
      assert (before + [e] + after)[..|before| + |after|] == before + [e] + init;
      assert (before + after)[..|before| + |after| - 1] == before + init;
    }
  }

  /** And only they: the entries are those of the decoded list exactly when each is complete. */
  lemma {:induction false} CompleteEntriesRemain(deps: seq<Option<ProtoDependency>>)
    ensures EncodeDeps(DecodeDeps(deps)) == deps <==> forall e | e in deps :: Complete(e)
    ensures |DecodeDeps(deps)| <= |deps|
    ensures |DecodeDeps(deps)| == |deps| ==> forall e | e in deps :: Complete(e)
  {
    if deps == [] {
    } else {
      var init, last := deps[..|deps| - 1], deps[|deps| - 1];
      assert deps == init + [last];
      CompleteEntriesRemain(init);
      if Complete(last) {
        var d := Dependency(last.value.key, last.value.minTs.value);
        assert EncodeDeps(DecodeDeps(init) + [d]) == EncodeDeps(DecodeDeps(init)) + [last];
        if EncodeDeps(DecodeDeps(deps)) == deps {
          assert EncodeDeps(DecodeDeps(init)) == init;
        }
      }
    }
  }

  /** The write a request with a timestamp stands for: an empty value means a deletion. */
  function Decode(req: ReplicateRequest): PendingWrite
    requires req.ts.Some?
  {
    PendingWrite(req.key, Value(req.value, req.ts.value, DecodeDeps(req.deps), |req.value| == 0))
  }

  /** A write as the peers of its origin see it. */
  function OnTheWire(w: PendingWrite): PendingWrite { w.(val := w.val.(deleted := |w.val.data| == 0)) }

  lemma {:induction false} DepsRoundTrip(deps: seq<Dependency>)
    ensures DecodeDeps(EncodeDeps(deps)) == deps
  {
    if deps == [] {
    } else {
      var init := deps[..|deps| - 1];
      DepsRoundTrip(init);
      assert EncodeDeps(deps)[..|deps| - 1] == EncodeDeps(init);
    }
  }

  /** Decoding what was encoded gives back the write, except that its deletion flag becomes "no data". */
  lemma WireRoundTrip(w: PendingWrite)
    ensures Decode(Encode(w.key, w.val, w.val.deps)) == OnTheWire(w)
    ensures Decode(Encode(w.key, w.val, w.val.deps)) == w <==> (w.val.deleted <==> w.val.data == [])
    ensures Decode(Encode(w.key, w.val, [])) == OnTheWire(w).(val := OnTheWire(w).val.(deps := []))
  {
    DepsRoundTrip(w.val.deps);
    DepsRoundTrip([]);
  }

  // Handlers ------------------------------------------------------------------------------------

  datatype Mode = Eventual | Causal | Strong

  datatype Handler =
    | EventualHandler(peers: nat)
    | CausalHandler(peers: nat)
    | StrongHandler(peers: nat, quorum: int)

  function NewHandler(mode: Mode, peers: nat): (h: Handler)
    ensures h.peers == peers
    ensures (h.EventualHandler? <==> mode == Eventual) && (h.CausalHandler? <==> mode == Causal)
  {
    match mode
    case Eventual => EventualHandler(peers)
    case Causal => CausalHandler(peers)
    case Strong => StrongHandler(peers, (peers + 1) / 2 + 1)
  }

  function CountAcks(acks: seq<bool>): nat {
    if acks == [] then 0 else CountAcks(acks[..|acks| - 1]) + (if acks[|acks| - 1] then 1 else 0)
  }

  ghost function Acked(acks: seq<bool>): set<nat> { set i: nat | i < |acks| && acks[i] }

  lemma {:induction false} CountIsCardinality(acks: seq<bool>)
    ensures CountAcks(acks) == |Acked(acks)|
  {
    if acks == [] {
    } else {
      var n := |acks| - 1;
      CountIsCardinality(acks[..n]);
      assert Acked(acks) == Acked(acks[..n]) + (if acks[n] then {n} else {});
    }
  }

  /** Whether a strong write succeeds when peer `i`'s call reports `acks[i]`. */
  predicate QuorumReached(quorum: int, acks: seq<bool>) {
    |acks| == 0 || quorum - 1 <= 0 || CountAcks(acks) >= quorum - 1
  }

  /** With the quorum of `NewHandler`, success means that the origin and the peers that acknowledged are a majority. */
  lemma QuorumIsMajority(peers: nat, acks: seq<bool>)
    requires |acks| == peers
    ensures QuorumReached(NewHandler(Strong, peers).quorum, acks) <==> 2 * (|Acked(acks)| + 1) > peers + 1
  {
    CountIsCardinality(acks);
  }

  /** The request a handler sends; only causal mode ships dependencies. */
  function RequestOf(h: Handler, key: string, val: Value): ReplicateRequest {
    Encode(key, val, if h.CausalHandler? then val.deps else [])
  }

  function Repeated<T>(x: T, n: nat): seq<T> { seq(n, i => x) }

  function FanOut(h: Handler, key: string, val: Value): seq<ReplicateRequest> {
    if h.StrongHandler? && h.quorum - 1 <= 0 then [] else Repeated(RequestOf(h, key, val), h.peers)
  }

  function WriteFails(h: Handler, acks: seq<bool>): bool { h.StrongHandler? && !QuorumReached(h.quorum, acks) }

  /** `sent[i]` is the request that goes to peer `i`; `acks[i]` is what that peer's call reports to a strong write. */
  method OnWrite(h: Handler, key: string, val: Value, acks: seq<bool>)
    returns (sent: seq<ReplicateRequest>, failed: bool)
    requires |acks| == h.peers
    ensures sent == FanOut(h, key, val)
    ensures failed <==> WriteFails(h, acks)
    ensures |sent| == if h.StrongHandler? && h.quorum <= 1 then 0 else h.peers
    ensures forall q | q in sent ::
              && q.key == key && q.value == val.data && q.ts == Some(val.ts)
              && q.deps == EncodeDeps(if h.CausalHandler? then val.deps else [])
    ensures failed <==> h.StrongHandler? && h.peers > 0 && h.quorum > 1 && |Acked(acks)| + 1 < h.quorum
  {
    CountIsCardinality(acks);
    sent := [];
    if h.StrongHandler? {
      if h.peers == 0 {
        return sent, false;
      }
      if h.quorum - 1 <= 0 {
        return sent, false;
      }
    }
    var req := BuildReplicateRequest(key, val, if h.CausalHandler? then val.deps else []);
    for i := 0 to h.peers
      invariant sent == Repeated(req, i)
    {
      sent := sent + [req];
    }
    if !h.StrongHandler? {
      return sent, false;
    }
    var count := 0;
    for i := 0 to |acks|
      invariant count == CountAcks(acks[..i])
    {
      assert acks[..i + 1][..i] == acks[..i];
      if acks[i] {
        count := count + 1;
      }
    }
    assert acks[..|acks|] == acks;
    return sent, count < h.quorum - 1;
  }
}
