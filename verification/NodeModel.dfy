/**
 One node as a value: what each request does to its clock, store, held list and read tracker.
 */
module NodeModel {
  import opened Results
  import opened Hlc
  import opened KvStore
  import opened CausalBuffer
  import opened Replication

  datatype NodeState = NodeState(
    clock: Timestamp, data: Data, held: seq<PendingWrite>, recorded: seq<Dependency>)

  function NewNode(now: int64): NodeState { NodeState(Timestamp(now, 0), map[], [], []) }

  /** The write a client request turns into, once the clock has stamped it. */
  function Stamp(mode: Mode, n: NodeState, key: string, data: Bytes, deleted: bool, now: int64): Result<PendingWrite>
    requires n.clock.logical >= 0
  {
    var ts := SendTs(n.clock, now);
    if ts.Err? then Err(ts.error)
    else Ok(PendingWrite(key, Value(data, ts.value, if mode == Causal then n.recorded else [], deleted)))
  }

  /** Stamping moves the clock and, in causal mode, hands the recorded reads to the write. */
  function AfterStamp(mode: Mode, n: NodeState, w: PendingWrite): NodeState {
    n.(clock := w.val.ts, recorded := if mode == Causal then [] else n.recorded)
  }

  /** A local write replaces the key's value whatever its version, and wakes no held write. */
  function Commit(n: NodeState, w: PendingWrite): NodeState { n.(data := n.data[w.key := AsStored(w.val)]) }

  function AfterRead(mode: Mode, n: NodeState, key: string): NodeState {
    var v := Lookup(n.data, key);
    if v.Some? && mode == Causal then n.(recorded := n.recorded + [Dependency(key, v.value.ts)]) else n
  }

  /** The contents, the held writes and the writes handed to the store when a replicated write arrives. */
  function Absorb(buffered: bool, n: NodeState, w: PendingWrite): Progress {
    if buffered then ReceiveWrite(n.data, n.held, w) else Progress(ApplyOne(n.data, w), n.held, [w])
  }

  function AfterReplicate(buffered: bool, n: NodeState, w: PendingWrite, now: int64): Result<NodeState>
    requires n.clock.logical >= 0
  {
    var ts := ReceiveTs(n.clock, w.val.ts, now);
    if ts.Err? then Err(ts.error) else
    var r := Absorb(buffered, n, w);
    Ok(n.(clock := ts.value, data := r.data, held := r.kept))
  }

  /** What the handler of a mode sends for a stamped write is, for every peer, the write as it looks on the wire. */
  lemma RequestsCarryTheWrite(mode: Mode, peers: nat, n: NodeState, key: string, data: Bytes, deleted: bool, now: int64)
    requires n.clock.logical >= 0 && Stamp(mode, n, key, data, deleted, now).Ok?
    ensures var w := Stamp(mode, n, key, data, deleted, now).value;
            var sent := FanOut(NewHandler(mode, peers), key, w.val);
            && |sent| == peers
            && forall i | 0 <= i < peers :: sent[i].ts.Some? && Decode(sent[i]) == OnTheWire(w)
  {
    WireRoundTrip(Stamp(mode, n, key, data, deleted, now).value);
  }
}
