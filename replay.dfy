/**
 `replay_trades` of main.py: load the batches, return at once when there are
 none, otherwise start `prev_ts` at the first batch's timestamp and, per batch,
 sleep `(ts - prev_ts) / SPEED` seconds when that is positive, move `prev_ts`
 on, build the envelope and broadcast it.

 The sleep is recorded instead of awaited. What the connection handlers do
 while the replay waits, and which sends raise, are given per pass by an
 `Activity`.
 */
module Replay {
  import opened Trades
  import opened Batcher
  import opened Subscribers

  /** One iteration of a replay loop: the sleep it awaits (None when it does
      not call `asyncio.sleep`), the envelope, and the broadcast's sends. */
  datatype Emission = Emission(sleep: Option<real>, message: Envelope, sends: seq<Send>)

  /** Seconds slept for an optional sleep. */
  function Pause(sleep: Option<real>): real
  {
    if sleep.Some? then sleep.value else 0.0
  }

  /** The sleep main.py awaits before batch `i`: the distance to the previous
      batch (to itself for the first) divided by the speed, if positive. */
  function EagerSleep(bs: seq<Batch>, i: nat, speed: real): (r: Option<real>)
    requires i < |bs| && speed > 0.0
    ensures r.Some? <==> 0 < i && bs[i - 1].ts < bs[i].ts
    ensures r.Some? ==> r.value > 0.0
  {
    var prev := if i == 0 then bs[0].ts else bs[i - 1].ts;
    var delta := Seconds(bs[i].ts - prev) / speed;
    if delta > 0.0 then Some(delta) else None
  }

  /** Seconds slept before batches 0 .. n-1. */
  function EagerTotal(bs: seq<Batch>, n: nat, speed: real): real
    requires n <= |bs| && speed > 0.0
  {
    if n == 0 then 0.0 else EagerTotal(bs, n - 1, speed) + Pause(EagerSleep(bs, n - 1, speed))
  }

  /** Iteration `i` sleeps as main.py does, builds the envelope of batch `i`
      and offers it to the registry as it stands at pass `i`. */
  predicate EagerStep(e: Emission, bs: seq<Batch>, i: nat, speed: real, start: set<Handle>, a: Activity)
    requires i < |bs| && speed > 0.0
  {
    && e.sleep == EagerSleep(bs, i, speed)
    && e.message == TradesMessage(bs[i])
    && Offered(e.sends, e.message, TargetsAt(start, a, i), a.fails(i))
  }

  /** One iteration per batch, each as `EagerStep` says. */
  predicate EagerReplayed(events: seq<Emission>, bs: seq<Batch>, speed: real, start: set<Handle>, a: Activity)
    requires speed > 0.0
  {
    |events| == |bs| && forall i :: 0 <= i < |events| ==> EagerStep(events[i], bs, i, speed, start, a)
  }

  /** `replay_trades` of main.py over the rows of the sorted table. */
  method ReplayTrades(reg: Registry, rows: seq<Record>, speed: real, a: Activity)
    returns (events: seq<Emission>)
    requires Sorted(rows) && speed > 0.0
    modifies reg
    ensures EagerReplayed(events, Group(rows), speed, old(reg.clients), a)
    ensures reg.clients == Before(old(reg.clients), a, |events|)
    ensures rows == [] ==> events == [] && reg.clients == old(reg.clients)
  {
    var batches := LoadBatches(rows);
    if batches == [] {
      events := [];
      return;
    }
    events := ReplayBatches(reg, batches, speed, a);
  }

  /** The loop of `replay_trades` of main.py over non-empty loaded batches. */
  method ReplayBatches(reg: Registry, batches: seq<Batch>, speed: real, a: Activity)
    returns (events: seq<Emission>)
    requires batches != [] && speed > 0.0
    modifies reg
    ensures EagerReplayed(events, batches, speed, old(reg.clients), a)
    ensures reg.clients == Before(old(reg.clients), a, |events|)
  {
    events := [];
    ghost var start := reg.clients;
    var prevTs := batches[0].ts;
    var i := 0;
    while i < |batches|
      invariant 0 <= i <= |batches|
      invariant prevTs == batches[if i == 0 then 0 else i - 1].ts
      invariant |events| == i
      invariant forall k :: 0 <= k < i ==> EagerStep(events[k], batches, k, speed, start, a)
      invariant reg.clients == Before(start, a, i)
    {
      var b := batches[i];
      var delta := Seconds(b.ts - prevTs) / speed;
      var sleep := if delta > 0.0 then Some(delta) else None;
      prevTs := b.ts;
      var message := TradesMessage(b);
      reg.AddAll(a.joins(i));
      reg.DiscardAll(a.leaves(i));
      var sends := reg.Broadcast(message, a.fails(i));
      var e := Emission(sleep, message, sends);
      assert EagerStep(e, batches, i, speed, start, a);
      ghost var done := events;
      events := events + [e];
      assert forall k :: 0 <= k < i ==> events[k] == done[k];
      i := i + 1;
    }
  }

  /** What main.py sends for a sorted table: one "trades" envelope per distinct
      timestamp, in strictly increasing timestamp order, each carrying exactly
      the (non-empty) rows with its timestamp, in table order. */
  lemma EagerMessages(rows: seq<Record>, events: seq<Emission>, speed: real, start: set<Handle>, a: Activity)
    requires Sorted(rows) && speed > 0.0
    requires EagerReplayed(events, Group(rows), speed, start, a)
    ensures |events| == |TimestampsOf(rows)|
    ensures forall i :: 0 <= i < |events| ==>
      var m := events[i].message;
      m.kind == TradesKind && m.trades != [] && m.trades == Select(rows, m.ts)
    ensures forall i, j :: 0 <= i < j < |events| ==> events[i].message.ts < events[j].message.ts
  {
    var bs := Group(rows);
    GroupIsGrouping(rows);
    forall i | 0 <= i < |events|
      ensures events[i].message == TradesMessage(bs[i]) && bs[i] in bs
    {
      assert EagerStep(events[i], bs, i, speed, start, a);
    }
  }

  /** The first batch goes out without a sleep: its delta is zero. */
  lemma EagerFirstImmediate(bs: seq<Batch>, speed: real)
    requires |bs| > 0 && speed > 0.0
    ensures EagerSleep(bs, 0, speed) == None
  {
  }

  lemma PositiveQuotient(x: real, speed: real)
    requires x > 0.0 && speed > 0.0
    ensures x / speed > 0.0
  {
  }

  /** Every later batch of an ascending sequence is preceded by a sleep of
      the scaled gap to the batch before it. */
  lemma EagerGap(bs: seq<Batch>, i: nat, speed: real)
    requires StrictlyAscending(bs) && 0 < i < |bs| && speed > 0.0
    ensures EagerSleep(bs, i, speed) == Some(Seconds(bs[i].ts - bs[i - 1].ts) / speed)
    ensures Pause(EagerSleep(bs, i, speed)) > 0.0
  {
    assert bs[i - 1].ts < bs[i].ts;
    PositiveQuotient(Seconds(bs[i].ts - bs[i - 1].ts), speed);
  }

  lemma QuotientSum(x: real, y: real, speed: real)
    requires speed > 0.0
    ensures x / speed + y / speed == (x + y) / speed
  {
  }

  /** The sleeps of an ascending replay add up to the span of the timestamps
      divided by the speed. */
  lemma {:induction false} EagerTotalSpan(bs: seq<Batch>, n: nat, speed: real)
    requires StrictlyAscending(bs) && 0 < n <= |bs| && speed > 0.0
    ensures EagerTotal(bs, n, speed) == Seconds(bs[n - 1].ts - bs[0].ts) / speed
  {
    if n == 1 {
      assert EagerTotal(bs, 0, speed) == 0.0;
    } else {
      EagerTotalSpan(bs, n - 1, speed);
      EagerGap(bs, n - 1, speed);
      var a := Seconds(bs[n - 2].ts - bs[0].ts);
      var b := Seconds(bs[n - 1].ts - bs[n - 2].ts);
      assert a + b == Seconds(bs[n - 1].ts - bs[0].ts);
      QuotientSum(a, b, speed);
    }
  }
}
