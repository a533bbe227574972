/**
 Worked examples of the grouping and of both delay rules.
 */
module Scenarios {
  import opened Trades
  import opened Batcher
  import opened Replay
  import opened LazyReplay

  /** Two trades at one instant form one batch. */
  lemma GroupOfPair(a: Record, b: Record)
    requires a.ts == b.ts
    ensures Group([a, b]) == [Batch(a.ts, [a, b])]
  {
    var first := Batch(a.ts, [a]);
    assert [a][..0] == [];
    GroupStep([a]);
    assert Group([a]) == [first];
    assert [a, b][..1] == [a];
    GroupStep([a, b]);
    assert [first][..0] == [] && [a] + [b] == [a, b];
  }

  /** ... and a later third trade opens a second batch. */
  lemma GroupOfThree(a: Record, b: Record, c: Record)
    requires a.ts == b.ts && a.ts < c.ts
    ensures Group([a, b, c]) == [Batch(a.ts, [a, b]), Batch(c.ts, [c])]
  {
    GroupOfPair(a, b);
    assert [a, b, c][..2] == [a, b];
    GroupStep([a, b, c]);
  }

  /** Two trades at 10:00:00 and one at 10:00:05, replayed at speed 5 with no
      floor: one batch of two sent at once, then one batch of one a second
      later, under either server. */
  lemma SpeedFiveScenario(a: Record, b: Record, c: Record)
    requires a.ts == b.ts && c.ts == a.ts + 5 * MicrosPerSecond
    ensures Group([a, b, c]) == [Batch(a.ts, [a, b]), Batch(c.ts, [c])]
    ensures EagerSleep(Group([a, b, c]), 0, 5.0) == None
    ensures EagerSleep(Group([a, b, c]), 1, 5.0) == Some(1.0)
    ensures LazySleep(Group([a, b, c]), 0, 5.0, 0.0) == None
    ensures LazySleep(Group([a, b, c]), 1, 5.0, 0.0) == Some(1.0)
  {
    GroupOfThree(a, b, c);
    var gs := [Batch(a.ts, [a, b]), Batch(c.ts, [c])];
    assert Seconds(c.ts - a.ts) == 5.0;
    assert ScaledGap(gs, 1, 5.0) == 1.0;
  }
}
