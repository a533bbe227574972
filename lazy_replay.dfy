/**
 `replay_trades` of task_2/main.py: iterate the groups of the sorted frame;
 `prev_ts` starts unset, so the first group is sent at once; every later group
 waits `max(MIN_DELAY, (ts - prev_ts) / SPEED)` seconds when that is positive;
 `prev_ts` moves to every group's timestamp; then the envelope is broadcast.
 */
module LazyReplay {
  import opened Trades
  import opened Batcher
  import opened Subscribers
  import opened Replay

  function Max(a: real, b: real): real
  {
    if a < b then b else a
  }

  /** The scaled gap between batch `i` and the one before it. */
  function ScaledGap(bs: seq<Batch>, i: nat, speed: real): real
    requires 0 < i < |bs| && speed > 0.0
  {
    Seconds(bs[i].ts - bs[i - 1].ts) / speed
  }

  /** The sleep task_2/main.py awaits before batch `i`. */
  function LazySleep(bs: seq<Batch>, i: nat, speed: real, minDelay: real): (r: Option<real>)
    requires i < |bs| && speed > 0.0
    ensures i == 0 ==> r.None?
    ensures r.Some? ==> r.value > 0.0 && r.value >= minDelay && r.value >= ScaledGap(bs, i, speed)
  {
    if i == 0 then None
    else
      var d := Max(minDelay, ScaledGap(bs, i, speed));
      if d > 0.0 then Some(d) else None
  }

  /** Seconds slept before batches 0 .. n-1. */
  function LazyTotal(bs: seq<Batch>, n: nat, speed: real, minDelay: real): real
    requires n <= |bs| && speed > 0.0
  {
    if n == 0 then 0.0 else LazyTotal(bs, n - 1, speed, minDelay) + Pause(LazySleep(bs, n - 1, speed, minDelay))
  }

  predicate LazyStep(e: Emission, bs: seq<Batch>, i: nat, speed: real, minDelay: real, start: set<Handle>, a: Activity)
    requires i < |bs| && speed > 0.0
  {
    && e.sleep == LazySleep(bs, i, speed, minDelay)
    && e.message == TradesMessage(bs[i])
    && Offered(e.sends, e.message, TargetsAt(start, a, i), a.fails(i))
  }

  predicate LazyReplayed(events: seq<Emission>, bs: seq<Batch>, speed: real, minDelay: real, start: set<Handle>, a: Activity)
    requires speed > 0.0
  {
    |events| == |bs| && forall i :: 0 <= i < |events| ==> LazyStep(events[i], bs, i, speed, minDelay, start, a)
  }

  /** `replay_trades(df)` of task_2/main.py over the rows of the sorted frame. */
  method ReplayTradesLazily(reg: Registry, frame: seq<Record>, speed: real, minDelay: real, a: Activity)
    returns (events: seq<Emission>)
    requires Sorted(frame) && speed > 0.0
    modifies reg
    ensures LazyReplayed(events, Group(frame), speed, minDelay, old(reg.clients), a)
    ensures reg.clients == Before(old(reg.clients), a, |events|)
    ensures frame == [] ==> events == [] && reg.clients == old(reg.clients)
  {
    var groups := Group(frame);
    ghost var start := reg.clients;
    var prevTs: Option<Timestamp> := None;
    events := [];
    var i := 0;
    while i < |groups|
      invariant 0 <= i <= |groups|
      invariant prevTs == if i == 0 then None else Some(groups[i - 1].ts)
      invariant |events| == i
      invariant forall k :: 0 <= k < i ==> LazyStep(events[k], groups, k, speed, minDelay, start, a)
      invariant reg.clients == Before(start, a, i)
    {
      var g := groups[i];
      var sleep: Option<real> := None;
      if prevTs.Some? {
        var delta := Seconds(g.ts - prevTs.value) / speed;
        var sleepS := Max(minDelay, delta);
        if sleepS > 0.0 {
          sleep := Some(sleepS);
        }
      }
      prevTs := Some(g.ts);
      var message := TradesMessage(g);
      reg.AddAll(a.joins(i));
      reg.DiscardAll(a.leaves(i));
      var sends := reg.Broadcast(message, a.fails(i));
      var e := Emission(sleep, message, sends);
      assert LazyStep(e, groups, i, speed, minDelay, start, a);
      ghost var done := events;
      events := events + [e];
      assert forall k :: 0 <= k < i ==> events[k] == done[k];
      i := i + 1;
    }
  }

  /** What task_2/main.py sends for a sorted frame: one "trades" envelope per distinct
      timestamp, in strictly increasing timestamp order, each carrying exactly
      the (non-empty) rows with its timestamp, in table order. */
  lemma LazyMessages(rows: seq<Record>, events: seq<Emission>, speed: real, minDelay: real, start: set<Handle>, a: Activity)
    requires Sorted(rows) && speed > 0.0
    requires LazyReplayed(events, Group(rows), speed, minDelay, start, a)
    ensures |events| == |TimestampsOf(rows)|
    ensures forall i :: 0 <= i < |events| ==>
      var m := events[i].message;
      m.kind == TradesKind && m.trades != [] && m.trades == Select(rows, m.ts)
    ensures forall i, j :: 0 <= i < j < |events| ==> events[i].message.ts < events[j].message.ts
  {
    var bs := Group(rows);
    GroupIsGrouping(rows);
    forall i | 0 <= i < |events|
      ensures events[i].message == TradesMessage(bs[i]) && bs[i] in bs
    {
      assert LazyStep(events[i], bs, i, speed, minDelay, start, a);
    }
  }

  /** The first group is sent without a sleep, whatever the floor. */
  lemma LazyFirstImmediate(bs: seq<Batch>, speed: real, minDelay: real)
    requires |bs| > 0 && speed > 0.0
    ensures LazySleep(bs, 0, speed, minDelay) == None
  {
  }

  /** A later group sleeps exactly when the larger of the floor and the scaled
      gap is positive, and then sleeps that larger value: at least the floor,
      at least the scaled gap, and equal to one of them. */
  lemma LazyDelayBounds(bs: seq<Batch>, i: nat, speed: real, minDelay: real)
    requires 0 < i < |bs| && speed > 0.0
    ensures LazySleep(bs, i, speed, minDelay).Some? <==> (minDelay > 0.0 || ScaledGap(bs, i, speed) > 0.0)
    ensures LazySleep(bs, i, speed, minDelay).Some? ==>
      var d := LazySleep(bs, i, speed, minDelay).value;
      d > 0.0 && d >= minDelay && d >= ScaledGap(bs, i, speed) && (d == minDelay || d == ScaledGap(bs, i, speed))
  {
  }

  /** With strictly ascending groups every group after the first is preceded
      by a sleep. */
  lemma LazyAscendingSleeps(bs: seq<Batch>, i: nat, speed: real, minDelay: real)
    requires StrictlyAscending(bs) && 0 < i < |bs| && speed > 0.0
    ensures LazySleep(bs, i, speed, minDelay).Some?
  {
    assert bs[i - 1].ts < bs[i].ts;
    PositiveQuotient(Seconds(bs[i].ts - bs[i - 1].ts), speed);
  }

  /** The pause before a later group is never below the scaled gap... */
  lemma PauseCoversGap(bs: seq<Batch>, i: nat, speed: real, minDelay: real)
    requires 0 < i < |bs| && speed > 0.0
    ensures Pause(LazySleep(bs, i, speed, minDelay)) >= ScaledGap(bs, i, speed)
  {
  }

  /** ... and never below the floor. */
  lemma PauseCoversFloor(bs: seq<Batch>, i: nat, speed: real, minDelay: real)
    requires 0 < i < |bs| && speed > 0.0
    ensures Pause(LazySleep(bs, i, speed, minDelay)) >= minDelay
  {
  }

  /** The whole replay of n groups sleeps at least the span divided by the
      speed. */
  lemma {:induction false} LazyTotalCoversSpan(bs: seq<Batch>, n: nat, speed: real, minDelay: real)
    requires 0 < n <= |bs| && speed > 0.0
    ensures LazyTotal(bs, n, speed, minDelay) >= Seconds(bs[n - 1].ts - bs[0].ts) / speed
  {
    if n == 1 {
      assert LazyTotal(bs, 0, speed, minDelay) == 0.0;
    } else {
      LazyTotalCoversSpan(bs, n - 1, speed, minDelay);
      PauseCoversGap(bs, n - 1, speed, minDelay);
      var a := Seconds(bs[n - 2].ts - bs[0].ts);
      var b := Seconds(bs[n - 1].ts - bs[n - 2].ts);
      assert a + b == Seconds(bs[n - 1].ts - bs[0].ts);
      QuotientSum(a, b, speed);
    }
  }

  lemma FloorStep(before: real, pause: real, k: real, floor: real)
    requires before >= k * floor && pause >= floor
    ensures before + pause >= (k + 1.0) * floor
  {
    assert (k + 1.0) * floor == k * floor + floor;
  }

  /** ... and at least the floor once per gap. */
  lemma {:induction false} LazyTotalCoversFloor(bs: seq<Batch>, n: nat, speed: real, minDelay: real)
    requires 0 < n <= |bs| && speed > 0.0
    ensures LazyTotal(bs, n, speed, minDelay) >= (n - 1) as real * minDelay
  {
    if n == 1 {
      assert LazyTotal(bs, 0, speed, minDelay) == 0.0;
    } else {
      LazyTotalCoversFloor(bs, n - 1, speed, minDelay);
      PauseCoversFloor(bs, n - 1, speed, minDelay);
      FloorStep(LazyTotal(bs, n - 1, speed, minDelay), Pause(LazySleep(bs, n - 1, speed, minDelay)), (n - 2) as real, minDelay);
      assert (n - 2) as real + 1.0 == (n - 1) as real;
    }
  }

  /** A 5 second gap at speed 5 with no floor waits 1 second. */
  lemma GapAtSpeedFive()
    ensures LazySleep([Batch(0, []), Batch(5 * MicrosPerSecond, [])], 1, 5.0, 0.0) == Some(1.0)
  {
  }

  /** A half-second gap at speed 1 with a 2 second floor waits 2 seconds. */
  lemma GapBelowFloor()
    ensures LazySleep([Batch(0, []), Batch(MicrosPerSecond / 2, [])], 1, 1.0, 2.0) == Some(2.0)
  {
  }
}
