/**
 The dependency buffer of causal mode (internal/buffer/buffer.go).

 The functions say what the buffer does to the store's contents and to the held list; the class does
 it with the source's in-place compaction of the held slice.
 */
module CausalBuffer {
  import opened Hlc
  import opened KvStore

  datatype PendingWrite = PendingWrite(key: string, val: Value)

  function Elements(ps: seq<PendingWrite>): set<PendingWrite> { set p | p in ps }

  predicate DepsSatisfied(d: Data, deps: seq<Dependency>) {
    forall i | 0 <= i < |deps| :: AfterOrEqual(Version(d, deps[i].key), deps[i].minTs)
  }

  predicate Ready(d: Data, p: PendingWrite) { DepsSatisfied(d, p.val.deps) }

  /** The value a write leaves in the store: a deletion leaves a bare tombstone. */
  function AsStored(val: Value): Value { if val.deleted then Tombstone(val.ts) else val }

  function ApplyOne(d: Data, p: PendingWrite): Data { Merge(d, p.key, AsStored(p.val)) }

  function ApplyAll(d: Data, ps: seq<PendingWrite>): Data {
    if ps == [] then d else ApplyOne(ApplyAll(d, ps[..|ps| - 1]), ps[|ps| - 1])
  }

  /** Contents, held writes in order, and the writes handed to the store so far, in order. */
  datatype Progress = Progress(data: Data, kept: seq<PendingWrite>, applied: seq<PendingWrite>)

  /** One sweep over the held writes: each is applied if ready at its turn and kept otherwise. */
  function Sweep(d: Data, ps: seq<PendingWrite>): (r: Progress)
    ensures |r.kept| + |r.applied| == |ps|
  {
    if ps == [] then Progress(d, [], []) else
    var r := Sweep(d, ps[..|ps| - 1]);
    var p := ps[|ps| - 1];
    if Ready(r.data, p) then Progress(ApplyOne(r.data, p), r.kept, r.applied + [p])
    else r.(kept := r.kept + [p])
  }

  lemma SweepOneMore(d: Data, ps: seq<PendingWrite>, i: nat)
    requires i < |ps|
    ensures var r := Sweep(d, ps[..i]);
            Sweep(d, ps[..i + 1]) == if Ready(r.data, ps[i])
                                     then Progress(ApplyOne(r.data, ps[i]), r.kept, r.applied + [ps[i]])
                                     else r.(kept := r.kept + [ps[i]])
  {
    assert ps[..i + 1][..i] == ps[..i];
  }

  lemma TakeFirst(tail: seq<PendingWrite>, ps: seq<PendingWrite>, i: nat)
    requires i < |ps| && tail == ps[i..]
    ensures tail[0] == ps[i] && tail[1..] == ps[i + 1..]
  {
  }

  /** Sweeps until one makes no progress. */
  function Drain(d: Data, ps: seq<PendingWrite>): Progress
    decreases |ps|
  {
    var r := Sweep(d, ps);
    if r.applied == [] then r else
    var rest := Drain(r.data, r.kept);
    rest.(applied := r.applied + rest.applied)
  }

  lemma DrainAfterSweep(d: Data, ps: seq<PendingWrite>)
    ensures var r := Sweep(d, ps);
            if r.applied == [] then Drain(d, ps) == r
            else && |r.kept| < |ps|
                 && Drain(d, ps).data == Drain(r.data, r.kept).data
                 && Drain(d, ps).kept == Drain(r.data, r.kept).kept
  {
  }

  function ReceiveWrite(d: Data, held: seq<PendingWrite>, p: PendingWrite): Progress {
    if Ready(d, p) then
      var r := Drain(ApplyOne(d, p), held);
      r.(applied := [p] + r.applied)
    else
      Progress(d, held + [p], [])
  }

  class Buffer {
    const store: Store
    var slots: array<PendingWrite>  // backing array of the held slice
    var n: nat                      // length of the held slice

    ghost predicate Valid()
      reads this
    {
      n <= slots.Length
    }

    ghost function Held(): seq<PendingWrite>
      reads this, slots
      requires Valid()
    {
      slots[..n]
    }

    constructor New(s: Store)
      ensures Valid() && store == s && Held() == [] && fresh(slots)
    {
      store := s;
      slots := new PendingWrite[0];
      n := 0;
    }

    method Len() returns (len: nat)
      requires Valid()
      ensures len == |Held()|
    {
      len := n;
    }

    method CheckDeps(deps: seq<Dependency>) returns (ok: bool)
      ensures ok <==> DepsSatisfied(store.data, deps)
      ensures ok <==> forall i | 0 <= i < |deps| ::
                        AfterOrEqual(if deps[i].key in store.data then store.data[deps[i].key].ts else Timestamp(0, 0),
                                     deps[i].minTs)
    {
      for i := 0 to |deps|
        invariant DepsSatisfied(store.data, deps[..i])
      {
        var ts, found := store.GetVersion(deps[i].key);
        if !found {
          ts := Timestamp(0, 0);
        }
        if !AfterOrEqual(ts, deps[i].minTs) {
          return false;
        }
      }
      assert deps[..|deps|] == deps;
      return true;
    }

    method ApplyLocked(key: string, val: Value)
      modifies store
      ensures store.data == ApplyOne(old(store.data), PendingWrite(key, val))
      ensures store.data == if key in old(store.data) && !After(val.ts, old(store.data)[key].ts) then old(store.data)
                            else old(store.data)[key := if val.deleted then Value([], val.ts, [], true) else val]
    {
      if val.deleted {
        var _ := store.ApplyDelete(key, val.ts);
        return;
      }
      var _ := store.Apply(key, val);
    }

    /** Appends in place while the backing array has room and moves to a larger array otherwise. */
    method AppendHeld(p: PendingWrite)
      requires Valid()
      modifies this, slots
      ensures Valid() && Held() == old(Held()) + [p]
      ensures slots == old(slots) || fresh(slots)
    {
      if n == slots.Length {
        var src, len := slots, n;
        var larger := new PendingWrite[2 * len + 1](i reads src => if 0 <= i < src.Length then src[i] else p);
        assert larger[..len] == src[..len];
        slots := larger;
      }
      slots[n] := p;
      n := n + 1;
    }

    /** Writes a kept entry at or before the one being read, so no entry still to be read changes. */
    method Keep(i: nat, j: nat, p: PendingWrite)
      requires j <= i < n <= slots.Length
      modifies slots
      ensures slots[..j + 1] == old(slots[..j]) + [p]
      ensures slots[i + 1..n] == old(slots[i + 1..n])
    {
      slots[j] := p;
    }

    /** One sweep, compacting the kept entries to the front of the array that is being read. */
    method SweepInPlace() returns (progressed: bool)
      requires Valid()
      modifies this`n, slots, store
      ensures Valid()
      ensures var r := Sweep(old(store.data), old(Held()));
              && store.data == r.data && Held() == r.kept && (progressed <==> r.applied != [])
    {
      progressed := false;
      ghost var was, d := Held(), store.data;
      ghost var r := Sweep(d, []);
      var j := 0;
      for i := 0 to n
        invariant j == |r.kept| <= i && n == |was|
        invariant r == Sweep(d, was[..i])
        invariant store.data == r.data
        invariant progressed <==> r.applied != []
        invariant slots[..j] == r.kept
        invariant slots[i..n] == was[i..]
      {
        var p := slots[i];
        TakeFirst(slots[i..n], was, i);
        assert slots[i + 1..n] == was[i + 1..];
        SweepOneMore(d, was, i);
        r := if Ready(r.data, p) then Progress(ApplyOne(r.data, p), r.kept, r.applied + [p])
             else r.(kept := r.kept + [p]);
        var ready := CheckDeps(p.val.deps);
        if ready {
          ApplyLocked(p.key, p.val);
          progressed := true;
        } else {
          Keep(i, j, p);
          j := j + 1;
        }
      }
      assert was[..n] == was;
      n := j;
    }

    method DrainLocked()
      requires Valid()
      modifies this`n, slots, store
      ensures Valid()
      ensures var r := Drain(old(store.data), old(Held())); store.data == r.data && Held() == r.kept
    {
      ghost var end := Drain(store.data, Held());
      while true
        invariant Valid()
        invariant Drain(store.data, Held()).data == end.data && Drain(store.data, Held()).kept == end.kept
        decreases n
      {
        DrainAfterSweep(store.data, Held());
        var progressed := SweepInPlace();
        if !progressed {
          return;
        }
      }
    }

    method Receive(key: string, val: Value) returns (now: bool)
      requires Valid()
      modifies this, slots, store
      ensures Valid() && (slots == old(slots) || fresh(slots))
      ensures var r := ReceiveWrite(old(store.data), old(Held()), PendingWrite(key, val));
              store.data == r.data && Held() == r.kept
      ensures now <==> Ready(old(store.data), PendingWrite(key, val))
      ensures !now ==> store.data == old(store.data) && Held() == old(Held()) + [PendingWrite(key, val)]
    {
      var ready := CheckDeps(val.deps);
      if ready {
        ApplyLocked(key, val);
        DrainLocked();
        return true;
      }
      AppendHeld(PendingWrite(key, val));
      return false;
    }
  }
}
