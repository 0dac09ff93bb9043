/**
 The node object behind the RPCs (internal/server/node.go).  Each method carries out the step that
 `NodeModel` describes; the network appears as the requests a method sends and the answers it gets.
 */
module Server {
  import opened Results
  import opened Hlc
  import opened KvStore
  import opened CausalBuffer
  import opened Replication
  import opened NodeModel

  class ReadTracker {
    var recorded: seq<Dependency>

    constructor New()
      ensures recorded == []
    {
      recorded := [];
    }

    method Record(key: string, ts: Timestamp)
      modifies this
      ensures recorded == old(recorded) + [Dependency(key, ts)]
    {
      recorded := recorded + [Dependency(key, ts)];
    }

    method SnapshotAndClear() returns (out: seq<Dependency>)
      modifies this
      ensures out == old(recorded) && recorded == []
    {
      out := recorded;
      recorded := [];
    }
  }

  datatype GetResponse = GetResponse(value: Bytes, ts: Option<Timestamp>, found: bool)

  function ReadAnswer(n: NodeState, key: string): GetResponse {
    match Lookup(n.data, key)
    case None => GetResponse([], None, false)
    case Some(v) => GetResponse(v.data, Some(v.ts), true)
  }

  class Node {
    const mode: Mode
    const store: Store
    const clock: Clock
    const buffer: Buffer?
    const handler: Handler
    const tracker: ReadTracker?

    ghost function Footprint(): set<object>
      reads if buffer != null then {buffer} else {}
    {
      var fixed: set<object> := {store, clock};
      var tracked: set<object> := if tracker == null then {} else var t: ReadTracker := tracker; {t};
      fixed + tracked + (if buffer == null then {} else var b: Buffer := buffer; {b, b.slots})
    }

    ghost predicate Valid()
      reads Footprint(), if buffer != null then {buffer} else {}
    {
      && clock.Valid()
      && (buffer != null ==> buffer.Valid() && buffer.store == store)
      && (tracker != null <==> mode == Causal)
    }

    ghost function State(): NodeState
      reads Footprint(), if buffer != null then {buffer} else {}
      requires Valid()
    {
      NodeState(clock.Value(), store.data,
                if buffer != null then buffer.Held() else [],
                if tracker != null then tracker.recorded else [])
    }

    /** The reads that the next write will depend on; only causal mode records any. */
    ghost function Recorded(): seq<Dependency>
      reads if tracker != null then {tracker} else {}
    {
      if tracker != null then tracker.recorded else []
    }

    constructor New(mode: Mode, s: Store, clk: Clock, buf: Buffer?, h: Handler)
      requires clk.Valid() && (buf != null ==> buf.Valid() && buf.store == s)
      ensures Valid()
      ensures this.mode == mode && store == s && clock == clk && buffer == buf && handler == h
      ensures State() == NodeState(clk.Value(), s.data, if buf != null then buf.Held() else [], [])
      ensures tracker != null ==> fresh(tracker)
    {
      this.mode := mode;
      store := s;
      clock := clk;
      buffer := buf;
      handler := h;
      if mode == Causal {
        var t := new ReadTracker.New();
        tracker := t;
      } else {
        tracker := null;
      }
    }

    method Put(key: string, value: Bytes, now: int64, acks: seq<bool>)
      returns (r: Result<Timestamp>, sent: seq<ReplicateRequest>)
      requires Valid() && |acks| == handler.peers
      modifies Footprint()
      ensures Valid() && Footprint() == old(Footprint())
      ensures WriteDone(old(State()), State(), Stamp(mode, old(State()), key, value, false, now), acks, r, sent)
      ensures r.Ok? ==> && SendTs(old(clock.Value()), now) == r
                        && store.data == old(store.data)[key := Value(value, r.value, old(Recorded()), false)]
      ensures forall q | q in sent ::
                && q.key == key && q.value == value && q.ts == Some(clock.Value())
                && q.deps == EncodeDeps(if handler.CausalHandler? then old(Recorded()) else [])
      ensures r.Ok? ==> |sent| == if handler.StrongHandler? && handler.quorum <= 1 then 0 else handler.peers
      ensures Refused(old(State()), State(), now, acks, r, sent)
      ensures clock.Value() != old(clock.Value()) ==> Recorded() == []
    {
      var stamped := clock.Send(now);
      if stamped.Err? {
        return Err(stamped.error), [];
      }
      var ts := stamped.value;
      var val := Value(value, ts, [], false);
      if mode == Causal && tracker != null {
        var deps := tracker.SnapshotAndClear();
        val := val.(deps := deps);
      }
      var failed;
      if mode == Strong {
        sent, failed := OnWrite(handler, key, val, acks);
        if failed {
          return Err(QuorumNotReached), sent;
        }
        store.Put(key, val);
      } else {
        store.Put(key, val);
        sent, failed := OnWrite(handler, key, val, acks);
        if failed {
          return Err(QuorumNotReached), sent;
        }
      }
      return Ok(ts), sent;
    }

    method Delete(key: string, now: int64, acks: seq<bool>)
      returns (r: Result<Timestamp>, sent: seq<ReplicateRequest>)
      requires Valid() && |acks| == handler.peers
      modifies Footprint()
      ensures Valid() && Footprint() == old(Footprint())
      ensures WriteDone(old(State()), State(), Stamp(mode, old(State()), key, [], true, now), acks, r, sent)
      ensures r.Ok? ==> && SendTs(old(clock.Value()), now) == r
                        && store.data == old(store.data)[key := Value([], r.value, [], true)]
      ensures forall q | q in sent ::
                && q.key == key && q.value == [] && q.ts == Some(clock.Value())
                && q.deps == EncodeDeps(if handler.CausalHandler? then old(Recorded()) else [])
      ensures r.Ok? ==> |sent| == if handler.StrongHandler? && handler.quorum <= 1 then 0 else handler.peers
      ensures Refused(old(State()), State(), now, acks, r, sent)
      ensures clock.Value() != old(clock.Value()) ==> Recorded() == []
    {
      var stamped := clock.Send(now);
      if stamped.Err? {
        return Err(stamped.error), [];
      }
      var ts := stamped.value;
      var val := Value([], ts, [], true);
      if mode == Causal && tracker != null {
        var deps := tracker.SnapshotAndClear();
        val := val.(deps := deps);
      }
      var failed;
      if mode == Strong {
        sent, failed := OnWrite(handler, key, val, acks);
        if failed {
          return Err(QuorumNotReached), sent;
        }
        store.Delete(key, ts);
      } else {
        store.Delete(key, ts);
        sent, failed := OnWrite(handler, key, val, acks);
        if failed {
          return Err(QuorumNotReached), sent;
        }
      }
      return Ok(ts), sent;
    }

    /** When a client write fails: at a clock that refuses, before anything is done, or short of a strong quorum. */
    ghost predicate Refused(was: NodeState, after: NodeState, now: int64, acks: seq<bool>,
                            r: Result<Timestamp>, sent: seq<ReplicateRequest>)
      requires was.clock.logical >= 0
    {
      && (r == Err(LogicalOverflow) <==> SendTs(was.clock, now).Err?)
      && (r == Err(LogicalOverflow) ==> after == was && sent == [])
      && (r == Err(QuorumNotReached) <==>
            && SendTs(was.clock, now).Ok?
            && handler.StrongHandler? && handler.peers > 0 && handler.quorum > 1 && |Acked(acks)| + 1 < handler.quorum)
      && (r == Err(QuorumNotReached) && mode == Strong ==> after.data == was.data)
      && (r.Err? ==> r.error == LogicalOverflow || r.error == QuorumNotReached)
    }

    /** A client write that the clock refuses changes nothing; a strong one that misses its quorum is not stored. */
    ghost predicate WriteDone(was: NodeState, after: NodeState, stamped: Result<PendingWrite>, acks: seq<bool>,
                              r: Result<Timestamp>, sent: seq<ReplicateRequest>)
    {
      match stamped
      case Err(e) => after == was && r == Err(e) && sent == []
      case Ok(w) =>
        && sent == FanOut(handler, w.key, w.val)
        && r == (if WriteFails(handler, acks) then Err(QuorumNotReached) else Ok(w.val.ts))
        && after == (if mode == Strong && WriteFails(handler, acks) then AfterStamp(mode, was, w)
                  else Commit(AfterStamp(mode, was, w), w))
    }

    method Get(key: string) returns (resp: GetResponse)
      requires Valid()
      modifies Footprint()
      ensures Valid() && Footprint() == old(Footprint())
      ensures resp == if key in store.data && !store.data[key].deleted
                      then GetResponse(store.data[key].data, Some(store.data[key].ts), true)
                      else GetResponse([], None, false)
      ensures store.data == old(store.data) && clock.Value() == old(clock.Value())
      ensures Recorded() == if resp.found && mode == Causal
                            then old(Recorded()) + [Dependency(key, store.data[key].ts)] else old(Recorded())
      ensures resp == ReadAnswer(old(State()), key)
      ensures State() == AfterRead(mode, old(State()), key)
    {
      var val, ok := store.Get(key);
      if !ok {
        return GetResponse([], None, false);
      }
      if mode == Causal && tracker != null {
        tracker.Record(key, val.ts);
      }
      return GetResponse(val.data, Some(val.ts), true);
    }

    /** A request whose timestamp is missing or refused changes nothing; any other is merged or buffered. */
    ghost predicate ReplicateDone(was: NodeState, after: NodeState, req: ReplicateRequest, now: int64, r: Result<bool>)
      requires was.clock.logical >= 0
    {
      if req.ts.None? then r == Ok(false) && after == was else
      var buffered := mode == Causal && buffer != null;
      match AfterReplicate(buffered, was, Decode(req), now)
      case Err(e) => r == Err(e) && after == was
      case Ok(s) => after == s && r == Ok(buffered || Accepts(was.data, req.key, req.ts.value))
    }

    method Replicate(req: ReplicateRequest, now: int64) returns (r: Result<bool>)
      requires Valid()
      modifies Footprint()
      ensures Valid() && fresh(Footprint() - old(Footprint()))
      ensures ReplicateDone(old(State()), State(), req, now, r)
      ensures req.ts.None? ==> r == Ok(false) && State() == old(State())
      ensures req.ts.Some? ==>
                var ts := ReceiveTs(old(clock.Value()), req.ts.value, now);
                if ts.Err? then r == Err(ts.error) && State() == old(State())
                else r.Ok? && clock.Value() == ts.value && Recorded() == old(Recorded())
      ensures req.ts.Some? && r.Ok? && !(mode == Causal && buffer != null) ==>
                var ts := req.ts.value;
                && (r.value <==> req.key !in old(store.data) || After(ts, old(store.data)[req.key].ts))
                && State().held == old(State()).held
                && store.data == if !r.value then old(store.data) else old(store.data)[req.key :=
                     if req.value == [] then Value([], ts, [], true)
                     else Value(req.value, ts, DecodeDeps(req.deps), false)]
      ensures req.ts.Some? && r.Ok? && mode == Causal && buffer != null ==>
                var val := Value(req.value, req.ts.value, DecodeDeps(req.deps), req.value == []);
                var p := ReceiveWrite(old(store.data), old(State()).held, PendingWrite(req.key, val));
                r.value && store.data == p.data && buffer.Held() == p.kept
    {
      if req.ts.None? {
        return Ok(false);
      }
      var inTs := req.ts.value;
      var received := clock.Receive(inTs, now);
      if received.Err? {
        return Err(received.error);
      }
      var deps := FromProtoDeps(req.deps);
      var val := Value(req.value, inTs, deps, |req.value| == 0);
      if mode == Causal && buffer != null {
        var _ := buffer.Receive(req.key, val);
        return Ok(true);
      }
      var ok;
      if val.deleted {
        ok := store.ApplyDelete(req.key, inTs);
      } else {
        ok := store.Apply(req.key, val);
      }
      return Ok(ok);
    }
  }
}
