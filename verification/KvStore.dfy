/**
 The last-write-wins map with tombstones (internal/store/store.go).
 */
module KvStore {
  import opened Hlc
  import opened Results

  newtype byte = x: int | 0 <= x < 256
  type Bytes = seq<byte>

  datatype Dependency = Dependency(key: string, minTs: Timestamp)

  datatype Value = Value(data: Bytes, ts: Timestamp, deps: seq<Dependency>, deleted: bool)

  /** Contents of a store: every key ever written, deleted ones included. */
  type Data = map<string, Value>

  function Tombstone(ts: Timestamp): Value { Value([], ts, [], true) }

  /** The version `GetVersion` reports, with a missing key counted as the zero timestamp. */
  function Version(d: Data, key: string): Timestamp { if key in d then d[key].ts else ZERO }

  /** A replicated write replaces the current value only when its timestamp is strictly later. */
  predicate Accepts(d: Data, key: string, ts: Timestamp) { key in d ==> After(ts, d[key].ts) }

  function Merge(d: Data, key: string, val: Value): Data {
    if Accepts(d, key, val.ts) then d[key := val] else d
  }

  /** What `Get` answers: nothing for a missing or deleted key. */
  function Lookup(d: Data, key: string): Option<Value> {
    if key in d && !d[key].deleted then Some(d[key]) else None
  }

  class Store {
    var data: Data

    constructor New()
      ensures data == map[]
    {
      data := map[];
    }

    method Put(key: string, val: Value)
      modifies this
      ensures data == old(data)[key := val]
    {
      data := data[key := val];
    }

    method Apply(key: string, val: Value) returns (accepted: bool)
      modifies this
      ensures data == if key !in old(data) || After(val.ts, old(data)[key].ts) then old(data)[key := val] else old(data)
      ensures data == Merge(old(data), key, val)
      ensures accepted <==> key !in old(data) || Before(old(data)[key].ts, data[key].ts)
    {
      if key in data {
        var cur := data[key];
        if Compare(val.ts, cur.ts) <= 0 {
          return false;
        }
      }
      data := data[key := val];
      return true;
    }

    method Get(key: string) returns (val: Value, ok: bool)
      ensures ok <==> key in data && !data[key].deleted
      ensures val == if ok then data[key] else Value([], Timestamp(0, 0), [], false)
      ensures Lookup(data, key) == if ok then Some(val) else None
    {
      if key !in data || data[key].deleted {
        return Value([], ZERO, [], false), false;
      }
      return data[key], true;
    }

    method GetVersion(key: string) returns (ts: Timestamp, ok: bool)
      ensures ok <==> key in data
      ensures ts == if ok then data[key].ts else Timestamp(0, 0)
      ensures ts == Version(data, key)
    {
      if key !in data {
        return ZERO, false;
      }
      return data[key].ts, true;
    }

    method Delete(key: string, ts: Timestamp)
      modifies this
      ensures data == old(data)[key := Value([], ts, [], true)]
    {
      data := data[key := Value([], ts, [], true)];
    }

    method ApplyDelete(key: string, ts: Timestamp) returns (accepted: bool)
      modifies this
      ensures data == if key !in old(data) || After(ts, old(data)[key].ts)
                      then old(data)[key := Value([], ts, [], true)] else old(data)
      ensures data == Merge(old(data), key, Tombstone(ts))
      ensures accepted <==> key !in old(data) || Before(old(data)[key].ts, data[key].ts)
    {
      var val := Value([], ts, [], true);
      if key in data {
        var cur := data[key];
        if Compare(ts, cur.ts) <= 0 {
          return false;
        }
      }
      data := data[key := val];
      return true;
    }
  }
}
