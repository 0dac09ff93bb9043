/**
 The hybrid logical clock (internal/hlc/hlc.go).

 `SendTs` and `ReceiveTs` say what one clock event returns; a successful event leaves the clock at
 the timestamp it returned, a failing one leaves it where it was.  The wall clock is an arbitrary
 input of each event: nothing makes two successive readings increase.
 */
module Hlc {
  import opened Results

  type int64 = x: int | -0x8000_0000_0000_0000 <= x <= 0x7fff_ffff_ffff_ffff
  type int32 = x: int | -0x8000_0000 <= x <= 0x7fff_ffff

  const MAX_LOGICAL: int32 := 0x7fff_ffff

  datatype Timestamp = Timestamp(wall: int64, logical: int32)

  const ZERO: Timestamp := Timestamp(0, 0)

  function Compare(a: Timestamp, b: Timestamp): int {
    if a.wall < b.wall then -1
    else if a.wall > b.wall then 1
    else if a.logical < b.logical then -1
    else if a.logical > b.logical then 1
    else 0
  }

  predicate Before(a: Timestamp, b: Timestamp) { Compare(a, b) < 0 }

  predicate After(a: Timestamp, b: Timestamp) { Compare(a, b) > 0 }

  predicate Equal(a: Timestamp, b: Timestamp) { Compare(a, b) == 0 }

  predicate AfterOrEqual(a: Timestamp, b: Timestamp) { Compare(a, b) >= 0 }

  /** `Compare` is a total order whose equality is equality of timestamps. */
  lemma CompareIsTotalOrder(a: Timestamp, b: Timestamp, c: Timestamp)
    ensures Equal(a, b) <==> a == b
    ensures Before(a, b) <==> After(b, a)
    ensures AfterOrEqual(a, b) <==> !Before(a, b)
    ensures Before(a, b) <==> a.wall < b.wall || (a.wall == b.wall && a.logical < b.logical)
    ensures Before(a, b) && !Before(c, b) ==> Before(a, c)
    ensures AfterOrEqual(a, b) && AfterOrEqual(b, c) ==> AfterOrEqual(a, c)
  {
  }

  function Max(a: int64, b: int64): int64 { if a < b then b else a }

  /** What `Send` answers from clock value `clk` when the wall clock reads `now`. */
  function SendTs(clk: Timestamp, now: int64): Result<Timestamp>
    requires clk.logical >= 0
  {
    var l := Max(clk.wall, now);
    if l != clk.wall then Ok(Timestamp(l, 0))
    else if clk.logical >= MAX_LOGICAL then Err(LogicalOverflow)
    else Ok(Timestamp(l, clk.logical + 1))
  }

  /** What `Receive(msg)` answers.  The arm for an unchanged wall time is tried first, as in the code. */
  function ReceiveTs(clk: Timestamp, msg: Timestamp, now: int64): Result<Timestamp>
    requires clk.logical >= 0
  {
    if msg.logical < 0 then Err(InvalidLogical) else
    var l := Max(Max(clk.wall, msg.wall), now);
    if l == clk.wall then
      if clk.logical >= MAX_LOGICAL then Err(LogicalOverflow) else Ok(Timestamp(l, clk.logical + 1))
    else if l == msg.wall then
      if msg.logical >= MAX_LOGICAL then Err(LogicalOverflow) else Ok(Timestamp(l, msg.logical + 1))
    else
      Ok(Timestamp(l, 0))
  }

  /** The case in which `Receive` increments its own counter although the message's is ahead of it. */
  predicate Tie(clk: Timestamp, msg: Timestamp, now: int64) {
    clk.wall == msg.wall && now <= clk.wall && clk.logical < msg.logical
  }

  lemma SendCharacterised(clk: Timestamp, now: int64)
    requires clk.logical >= 0
    ensures SendTs(clk, now).Err? <==> now <= clk.wall && clk.logical == MAX_LOGICAL
    ensures SendTs(clk, now).Err? ==> SendTs(clk, now).error == LogicalOverflow
    ensures SendTs(clk, now).Ok? ==>
              var ts := SendTs(clk, now).value;
              && After(ts, clk) && 0 <= ts.logical <= MAX_LOGICAL
              && ts.wall >= now && (ts.wall == now || ts.wall == clk.wall)
              && forall t: Timestamp | After(t, clk) && t.wall >= now && t.logical >= 0 :: AfterOrEqual(t, ts)
  {
  }

  /**
   A successful `Receive` moves the clock forward, and ends after the message exactly when this was no tie.  It
   goes no further than that asks.
   */
  lemma ReceiveCharacterised(clk: Timestamp, msg: Timestamp, now: int64)
    requires clk.logical >= 0
    ensures ReceiveTs(clk, msg, now).Err? <==>
              || msg.logical < 0
              || (msg.wall <= clk.wall && now <= clk.wall && clk.logical == MAX_LOGICAL)
              || (clk.wall < msg.wall && now <= msg.wall && msg.logical == MAX_LOGICAL)
    ensures ReceiveTs(clk, msg, now).Err? ==>
              ReceiveTs(clk, msg, now).error == if msg.logical < 0 then InvalidLogical else LogicalOverflow
    ensures ReceiveTs(clk, msg, now).Ok? ==>
              var ts := ReceiveTs(clk, msg, now).value;
              && After(ts, clk) && 0 <= ts.logical <= MAX_LOGICAL
              && ts.wall >= now && ts.wall >= msg.wall
              && (ts.wall == now || ts.wall == clk.wall || ts.wall == msg.wall)
              && (After(ts, msg) <==> !Tie(clk, msg, now))
              && forall t: Timestamp | After(t, clk) && (After(t, msg) || Tie(clk, msg, now)) && t.wall >= now
                                       && t.wall >= msg.wall && t.logical >= 0 :: AfterOrEqual(t, ts)
  {
  }

  // Whole call sequences ------------------------------------------------------------------------

  datatype Event = Send(now: int64) | Receive(msg: Timestamp, now: int64)

  function Answer(clk: Timestamp, e: Event): Result<Timestamp>
    requires clk.logical >= 0
  {
    match e
    case Send(now) => SendTs(clk, now)
    case Receive(msg, now) => ReceiveTs(clk, msg, now)
  }

  /** The clock after an event: a failing event changes nothing. */
  function Tick(clk: Timestamp, e: Event): (r: Timestamp)
    requires clk.logical >= 0
    ensures r.logical >= 0
  {
    var a := Answer(clk, e);
    if a.Ok? then a.value else clk
  }

  /** The clock after a sequence of events. */
  function ClockAfter(clk: Timestamp, es: seq<Event>): (r: Timestamp)
    requires clk.logical >= 0
    ensures r.logical >= 0
  {
    if es == [] then clk else Tick(ClockAfter(clk, es[..|es| - 1]), es[|es| - 1])
  }

  /** Over any call sequence the clock never goes back, and each successful call passes everything before it. */
  lemma {:induction false} ClockNeverGoesBack(clk: Timestamp, es: seq<Event>, i: nat, j: nat)
    requires clk.logical >= 0
    requires i <= j <= |es|
    ensures AfterOrEqual(ClockAfter(clk, es[..j]), ClockAfter(clk, es[..i]))
    ensures i < j && Answer(ClockAfter(clk, es[..j - 1]), es[j - 1]).Ok? ==>
              After(ClockAfter(clk, es[..j]), ClockAfter(clk, es[..i]))
    decreases j
  {
    if i < j {
      assert es[..j][..j - 1] == es[..j - 1];
      ClockNeverGoesBack(clk, es, i, j - 1);
    }
  }

  lemma ClockAfterOneMore(clk: Timestamp, es: seq<Event>, i: nat)
    requires clk.logical >= 0 && i < |es|
    ensures ClockAfter(clk, es[..i + 1]) == Tick(ClockAfter(clk, es[..i]), es[i])
  {
    assert es[..i + 1][..i] == es[..i];
  }

  lemma SuccessPassesClock(clk: Timestamp, e: Event)
    requires clk.logical >= 0
    ensures Answer(clk, e).Ok? ==> After(Answer(clk, e).value, clk)
  {
  }

  /** Two successful calls of one clock, in call order, return strictly increasing timestamps. */
  lemma {:induction false} ReturnedTimestampsIncrease(clk: Timestamp, es: seq<Event>, i: nat, j: nat)
    requires clk.logical >= 0
    requires i < j < |es|
    requires Answer(ClockAfter(clk, es[..i]), es[i]).Ok?
    requires Answer(ClockAfter(clk, es[..j]), es[j]).Ok?
    ensures Before(Answer(ClockAfter(clk, es[..i]), es[i]).value, Answer(ClockAfter(clk, es[..j]), es[j]).value)
  {
    ClockAfterOneMore(clk, es, i);
    ClockAfterOneMore(clk, es, j);
    ClockNeverGoesBack(clk, es, i + 1, j);
    SuccessPassesClock(ClockAfter(clk, es[..j]), es[j]);
  }

  // The clock object ----------------------------------------------------------------------------

  method Max64(vals: seq<int64>) returns (m: int64)
    requires vals != []
    ensures m in vals
    ensures forall v | v in vals :: v <= m
  {
    m := vals[0];
    for i := 1 to |vals|
      invariant m in vals[..i]
      invariant forall v | v in vals[..i] :: v <= m
    {
      assert vals[..i + 1] == vals[..i] + [vals[i]];
      if vals[i] > m {
        m := vals[i];
      }
    }
    assert vals[..|vals|] == vals;
  }

  class Clock {
    var l: int64
    var c: int32

    ghost predicate Valid() reads this { c >= 0 }

    ghost function Value(): Timestamp reads this { Timestamp(l, c) }

    constructor New(now: int64)
      ensures Valid() && Value() == Timestamp(now, 0)
    {
      l := now;
      c := 0;
    }

    method Now() returns (t: Timestamp)
      ensures t == Value()
    {
      t := Timestamp(l, c);
    }

    method Send(now: int64) returns (r: Result<Timestamp>)
      requires Valid()
      modifies this
      ensures Valid()
      ensures Value() == if r.Ok? then r.value else old(Value())
      ensures r == SendTs(old(Value()), now)
      ensures Value() == Tick(old(Value()), Event.Send(now))
    {
      var lPrime := Max64([l, now]);
      assert lPrime == Max(l, now) by { assert l in [l, now] && now in [l, now]; }
      if lPrime == l {
        if c >= MAX_LOGICAL {
          return Err(LogicalOverflow);
        }
        c := c + 1;
      } else {
        c := 0;
      }
      l := lPrime;
      return Ok(Timestamp(l, c));
    }

    method Receive(msg: Timestamp, now: int64) returns (r: Result<Timestamp>)
      requires Valid()
      modifies this
      ensures Valid()
      ensures Value() == if r.Ok? then r.value else old(Value())
      ensures r == ReceiveTs(old(Value()), msg, now)
      ensures Value() == Tick(old(Value()), Event.Receive(msg, now))
    {
      if msg.logical < 0 {
        return Err(InvalidLogical);
      }
      var lPrime := Max64([l, msg.wall, now]);
      assert lPrime == Max(Max(l, msg.wall), now) by {
        assert l in [l, msg.wall, now] && msg.wall in [l, msg.wall, now] && now in [l, msg.wall, now];
      }
      if lPrime == l {
        if c >= MAX_LOGICAL {
          return Err(LogicalOverflow);
        }
        c := c + 1;
      } else if lPrime == msg.wall {
        if msg.logical >= MAX_LOGICAL {
          return Err(LogicalOverflow);
        }
        c := msg.logical + 1;
      } else {
        c := 0;
      }
      l := lPrime;
      return Ok(Timestamp(l, c));
    }
  }
}
