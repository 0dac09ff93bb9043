/**
 The observer that reads the same keys from every node (internal/checker/checker.go).
 */
module Checker {
  import opened Results
  import opened BufferTheory
  import opened KvStore
  import opened Server
  import opened Cluster
  import opened Contents

  datatype NodeValue = NodeValue(address: string, value: Bytes, found: bool)
  datatype KeyReport = KeyReport(key: string, consistent: bool, nodes: seq<NodeValue>)
  datatype Report = Report(keysChecked: nat, consistent: bool, keys: seq<KeyReport>)

  /** A read that failed is `None`. */
  type Reading = Option<GetResponse>

  /** No read failed and any two nodes gave the same answer. */
  ghost predicate Agree(row: seq<Reading>) {
    && (forall i | 0 <= i < |row| :: row[i].Some?)
    && (forall i, j | 0 <= i < |row| && 0 <= j < |row| && row[i].Some? && row[j].Some? ::
          row[i].value.found == row[j].value.found && row[i].value.value == row[j].value.value)
  }

  function Seen(address: string, r: Reading): NodeValue {
    if r.None? then NodeValue(address, [], false) else NodeValue(address, r.value.value, r.value.found)
  }

  /** A row of the report: the node's address and what it answered, or nothing found if the read failed. */
  lemma SeenIsTheAnswer(address: string, r: Reading)
    ensures Seen(address, r).address == address
    ensures Seen(address, r).found <==> r.Some? && r.value.found
    ensures Seen(address, r).value == if r.Some? then r.value.value else []
  {
  }

  /** Agreement in full: every read succeeded, and any two answers are the same. */
  lemma AgreeInFull(row: seq<Reading>)
    ensures Agree(row) <==>
            forall i, j | 0 <= i < |row| && 0 <= j < |row| ::
              row[i].Some? && row[j].Some? && row[i].value.found == row[j].value.found
              && row[i].value.value == row[j].value.value
  {
    if forall i, j | 0 <= i < |row| && 0 <= j < |row| ::
         row[i].Some? && row[j].Some? && row[i].value.found == row[j].value.found
         && row[i].value.value == row[j].value.value {
      forall i | 0 <= i < |row| ensures row[i].Some? {
        assert row[i].Some? && row[i].Some?;
      }
    }
  }

  method BytesEqual(a: Bytes, b: Bytes) returns (eq: bool)
    ensures eq <==> a == b
  {
    if |a| != |b| {
      return false;
    }
    for i := 0 to |a|
      invariant a[..i] == b[..i]
    {
      if a[i] != b[i] {
        return false;
      }
    }
    return true;
  }

  /** The report on one key: what each node answered, in order, and whether they agree. */
  ghost predicate Reported(kr: KeyReport, key: string, addresses: seq<string>, row: seq<Reading>) {
    && kr.key == key
    && (kr.consistent <==> Agree(row))
    && |kr.nodes| == |addresses| == |row|
    && forall n | 0 <= n < |row| :: kr.nodes[n] == Seen(addresses[n], row[n])
  }

  /** `answers[k][n]` is what node `n` answered for key `keys[k]`; each answer may date from another moment. */
  method CheckKeys(addresses: seq<string>, keys: seq<string>, answers: seq<seq<Reading>>) returns (report: Report)
    requires |answers| == |keys|
    requires forall k | 0 <= k < |keys| :: |answers[k]| == |addresses|
    ensures report.keysChecked == |keys| == |report.keys|
    ensures report.consistent <==> forall k | 0 <= k < |keys| :: Agree(answers[k])
    ensures forall k | 0 <= k < |keys| :: Reported(report.keys[k], keys[k], addresses, answers[k])
  {
    report := Report(|keys|, true, []);
    for k := 0 to |keys|
      invariant report.keysChecked == |keys| && |report.keys| == k
      invariant report.consistent <==> forall q | 0 <= q < k :: Agree(answers[q])
      invariant forall q | 0 <= q < k :: Reported(report.keys[q], keys[q], addresses, answers[q])
    {
      var row := answers[k];
      var kr := KeyReport(keys[k], true, []);
      var ref: Bytes, refFound, haveRef := [], false, false;
      ghost var first, before := 0, report;
      for n := 0 to |addresses|
        invariant report == before.(consistent := before.consistent && kr.consistent)
        invariant kr.key == keys[k] && |kr.nodes| == n
        invariant forall q | 0 <= q < n :: kr.nodes[q] == Seen(addresses[q], row[q])
        invariant haveRef ==> first < n && Matches(row[first], true, ref, refFound)
        invariant !haveRef ==> forall q | 0 <= q < n :: row[q].None?
        invariant kr.consistent <==> forall q | 0 <= q < n :: Matches(row[q], haveRef, ref, refFound)
      {
        var nv := NodeValue(addresses[n], [], false);
        if row[n].None? {
          kr, report := kr.(consistent := false), report.(consistent := false);
        } else {
          nv := NodeValue(addresses[n], row[n].value.value, row[n].value.found);
        }
        kr := kr.(nodes := kr.nodes + [nv]);
        if row[n].None? {
          continue;
        }
        if !haveRef {
          ref, refFound, haveRef := nv.value, nv.found, true;
          first := n;
          continue;
        }
        var same := BytesEqual(nv.value, ref);
        if nv.found != refFound || !same {
          kr, report := kr.(consistent := false), report.(consistent := false);
        }
      }
      FirstDecides(row, haveRef, ref, refFound, first);
      report := report.(keys := report.keys + [kr]);
    }
  }

  predicate Matches(r: Reading, haveRef: bool, ref: Bytes, refFound: bool) {
    haveRef && r.Some? && r.value.found == refFound && r.value.value == ref
  }

  /** Comparing with one answer is comparing all pairs. */
  lemma FirstDecides(row: seq<Reading>, haveRef: bool, ref: Bytes, refFound: bool, first: int)
    requires haveRef ==> 0 <= first < |row| && Matches(row[first], true, ref, refFound)
    requires !haveRef ==> forall q | 0 <= q < |row| :: row[q].None?
    ensures (forall q | 0 <= q < |row| :: Matches(row[q], haveRef, ref, refFound)) <==> Agree(row)
  {
    if Agree(row) {
      forall q | 0 <= q < |row| ensures Matches(row[q], haveRef, ref, refFound) {
        assert row[q].Some?;
      }
    }
  }

  function ReadAll(c: State, key: string): seq<Reading> {
    seq(|c.nodes|, i requires 0 <= i < |c.nodes| => Some(ReadAnswer(c.nodes[i], key)))
  }

  /** What the checker compares of a stored value. */
  function Shown(v: Value): (bool, Bytes) { if v.deleted then (false, []) else (true, v.data) }

  /**
   Reading a key from every node when all are at its latest version, the checker finds agreement exactly when the
   latest writes to the key show the same and, if they are empty, every node issued one itself.
   */
  lemma CheckerAgreesExactly(mode: AsyncMode, c: State, run: seq<Action>, key: string)
    requires Initial(c) && AllAtLatest(Exec(mode, c, run), key)
    ensures Agree(ReadAll(Exec(mode, c, run), key)) <==> LatestAlike(Exec(mode, c, run), key, Shown)
  {
    var r := Exec(mode, c, run);
    RunsAreGrounded(mode, c, run);
    KeyAgreesExactly(mode, c, run, key, Shown);
    AllHaveTheKey(r, key);
    AgreeIsAgreeOn(r, key);
  }

  lemma AllHaveTheKey(c: State, key: string)
    requires Shape(c) && Grounded(c) && AllAtLatest(c, key)
    ensures forall i, j | 0 <= i < |c.nodes| && 0 <= j < |c.nodes| ::
              key in c.nodes[i].data <==> key in c.nodes[j].data
  {
    forall i, j | 0 <= i < |c.nodes| && 0 <= j < |c.nodes| && key in c.nodes[i].data ensures key in c.nodes[j].data {
      var p := ValueAtLatest(c, i, key);
      var m :| 0 <= m < |c.log| && c.log[m] == p;
      assert AtLeast(c.nodes[j].data, key, c.log[m].val.ts);
    }
  }

  lemma AgreeIsAgreeOn(c: State, key: string)
    requires forall i, j | 0 <= i < |c.nodes| && 0 <= j < |c.nodes| ::
               key in c.nodes[i].data <==> key in c.nodes[j].data
    ensures Agree(ReadAll(c, key)) <==> AgreeOn(c, key, Shown)
  {
    var row := ReadAll(c, key);
    forall i | 0 <= i < |row|
      ensures row[i].Some?
      ensures (row[i].value.found, row[i].value.value) ==
              (if key in c.nodes[i].data then Shown(c.nodes[i].data[key]) else (false, []))
    {
    }
  }

}
