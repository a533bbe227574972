/**
 Grouping of the timestamp-sorted trade table into one batch per distinct
 timestamp (`load_batches` in main.py, and the `groupby("timestamp", sort=True)`
 that task_2/main.py iterates lazily).

 pandas' groupby collects, for every distinct key in ascending order, the rows
 carrying that key. On a table already sorted by timestamp that is the same as
 one forward pass that either extends the batch being built or opens a new one;
 `Group` is that pass, `Select` is the per-key collection, and the lemmas below
 show that they agree.
 */
module Batcher {
  import opened Trades

  /** The rows whose timestamp is exactly `t`, in table order. */
  function Select(rows: seq<Record>, t: Timestamp): seq<Record>
  {
    if rows == [] then []
    else Select(rows[..|rows| - 1], t) + (if Last(rows).ts == t then [Last(rows)] else [])
  }

  /** The distinct timestamps of the table. */
  function TimestampsOf(rows: seq<Record>): set<Timestamp>
  {
    set r | r in rows :: r.ts
  }

  /** The timestamps the batches are keyed by. */
  function BatchTimestamps(bs: seq<Batch>): set<Timestamp>
  {
    set b | b in bs :: b.ts
  }

  /** All records of all batches, batch after batch. */
  function Flatten(bs: seq<Batch>): seq<Record>
  {
    if bs == [] then [] else Flatten(bs[..|bs| - 1]) + Last(bs).trades
  }

  /** Sum of the batch sizes. */
  function SizeSum(bs: seq<Batch>): nat
  {
    if bs == [] then 0 else SizeSum(bs[..|bs| - 1]) + |Last(bs).trades|
  }

  /** Every batch is non-empty and each of its records carries the batch's timestamp. */
  predicate WellFormed(bs: seq<Batch>)
  {
    forall i :: 0 <= i < |bs| ==>
      |bs[i].trades| > 0 && forall k :: 0 <= k < |bs[i].trades| ==> bs[i].trades[k].ts == bs[i].ts
  }

  /** What grouping a sorted table promises: ascending keys, one batch per
      distinct timestamp, each batch exactly the rows with its key, and no
      row lost or repeated. */
  predicate GroupingOf(bs: seq<Batch>, rows: seq<Record>)
  {
    && StrictlyAscending(bs) && WellFormed(bs)
    && Flatten(bs) == rows && SizeSum(bs) == |rows|
    && |bs| == |TimestampsOf(rows)|
    && forall b :: b in bs ==> b.trades == Select(rows, b.ts)
  }

  /** One step of the forward pass: `r` joins the open batch when it has the
      same timestamp, and opens a new batch otherwise. */
  function Push(bs: seq<Batch>, r: Record): seq<Batch>
  {
    if bs != [] && Last(bs).ts == r.ts then bs[..|bs| - 1] + [Batch(r.ts, Last(bs).trades + [r])]
    else bs + [Batch(r.ts, [r])]
  }

  /** The batches of a table: one `Push` per row, first row first. */
  function Group(rows: seq<Record>): (bs: seq<Batch>)
    ensures |bs| <= |rows| && (bs == [] <==> rows == [])
    ensures rows != [] ==> Last(bs).ts == Last(rows).ts
  {
    if rows == [] then [] else Push(Group(rows[..|rows| - 1]), Last(rows))
  }

  /** `load_batches`: builds the list of (timestamp, trades) pairs. The source
      appends one pair per group that `groupby` has already collected; this
      loop walks the sorted rows one by one and does both jobs at once, by
      extending the open batch or appending a new one. */
  method LoadBatches(rows: seq<Record>) returns (batches: seq<Batch>)
    requires Sorted(rows)
    ensures batches == Group(rows) && GroupingOf(batches, rows)
  {
    batches := [];
    var i := 0;
    while i < |rows|
      invariant 0 <= i <= |rows|
      invariant batches == Group(rows[..i])
    {
      var r := rows[i];
      assert rows[..i + 1][..i] == rows[..i];
      if batches != [] && batches[|batches| - 1].ts == r.ts {
        var open := batches[|batches| - 1];
        batches := batches[..|batches| - 1] + [Batch(open.ts, open.trades + [r])];
      } else {
        batches := batches + [Batch(r.ts, [r])];
      }
      i := i + 1;
    }
    assert rows[..|rows|] == rows;
    GroupIsGrouping(rows);
  }

  /** The forward pass over a sorted table is a grouping of it. */
  lemma GroupIsGrouping(rows: seq<Record>)
    requires Sorted(rows)
    ensures GroupingOf(Group(rows), rows)
  {
    var bs := Group(rows);
    GroupAscending(rows);
    GroupWellFormed(rows);
    GroupFlatten(rows);
    GroupSizes(rows);
    GroupCount(rows);
    GroupSelect(rows);
    forall b | b in bs ensures b.trades == Select(rows, b.ts) {
      var k :| 0 <= k < |bs| && bs[k] == b;
    }
  }

  lemma FlattenPush(bs: seq<Batch>, r: Record)
    ensures Flatten(Push(bs, r)) == Flatten(bs) + [r]
  {
    if bs != [] && Last(bs).ts == r.ts {
      var front := bs[..|bs| - 1];
      var merged := Batch(r.ts, Last(bs).trades + [r]);
      assert (front + [merged])[..|bs| - 1] == front;
    } else {
      assert (bs + [Batch(r.ts, [r])])[..|bs|] == bs;
    }
  }

  /** No record is lost, duplicated or reordered by the grouping. */
  lemma {:induction false} GroupFlatten(rows: seq<Record>)
    ensures Flatten(Group(rows)) == rows
  {
    if rows != [] {
      var front := rows[..|rows| - 1];
      var r := Last(rows);
      assert rows == front + [r];
      GroupFlatten(front);
      GroupStep(rows);
      FlattenPush(Group(front), r);
      assert Flatten(Group(rows)) == front + [r];
    }
  }

  lemma {:induction false} SizeSumIsLength(bs: seq<Batch>)
    ensures SizeSum(bs) == |Flatten(bs)|
  {
    if bs != [] {
      SizeSumIsLength(bs[..|bs| - 1]);
    }
  }

  /** The batch sizes add up to the number of rows. */
  lemma GroupSizes(rows: seq<Record>)
    ensures SizeSum(Group(rows)) == |rows|
  {
    GroupFlatten(rows);
    SizeSumIsLength(Group(rows));
  }

  /** Unfolds `Group` once. */
  lemma GroupStep(rows: seq<Record>)
    requires rows != []
    ensures Group(rows) == Push(Group(rows[..|rows| - 1]), Last(rows))
  {
  }

  /** A push leaves a batch behind that carries the pushed row's timestamp. */
  lemma PushLast(bs: seq<Batch>, r: Record)
    ensures Push(bs, r) != [] && Last(Push(bs, r)).ts == r.ts
    ensures |Push(bs, r)| == if bs != [] && Last(bs).ts == r.ts then |bs| else |bs| + 1
    ensures forall i :: 0 <= i < |bs| - 1 ==> Push(bs, r)[i] == bs[i]
  {
  }

  /** The open batch always carries the timestamp of the last row seen. */
  lemma GroupLast(rows: seq<Record>)
    requires rows != []
    ensures Group(rows) != [] && Last(Group(rows)).ts == Last(rows).ts
  {
    GroupStep(rows);
    PushLast(Group(rows[..|rows| - 1]), Last(rows));
  }

  lemma PushWellFormed(bs: seq<Batch>, r: Record)
    requires WellFormed(bs)
    ensures WellFormed(Push(bs, r))
  {
    var out := Push(bs, r);
    forall i | 0 <= i < |out|
      ensures |out[i].trades| > 0 && forall k :: 0 <= k < |out[i].trades| ==> out[i].trades[k].ts == out[i].ts
    {
      if i < |bs| - 1 || (i == |bs| - 1 && Last(bs).ts != r.ts) {
        assert out[i] == bs[i];
      }
    }
  }

  /** Every batch is non-empty and all its records share the batch's timestamp. */
  lemma {:induction false} GroupWellFormed(rows: seq<Record>)
    ensures WellFormed(Group(rows))
  {
    if rows != [] {
      var front := rows[..|rows| - 1];
      GroupWellFormed(front);
      GroupStep(rows);
      PushWellFormed(Group(front), Last(rows));
    }
  }

  lemma PushAscending(bs: seq<Batch>, r: Record)
    requires StrictlyAscending(bs) && (bs != [] ==> Last(bs).ts <= r.ts)
    ensures StrictlyAscending(Push(bs, r))
  {
    var out := Push(bs, r);
    PushLast(bs, r);
    forall i, j | 0 <= i < j < |out| ensures out[i].ts < out[j].ts {
      if j < |bs| - 1 {
        assert out[i] == bs[i] && out[j] == bs[j];
      } else if j == |out| - 1 && i < |bs| {
        assert out[i].ts == bs[i].ts || i == |bs| - 1;
        if i < |bs| - 1 {
          assert bs[i].ts < bs[|bs| - 1].ts;
        }
      }
    }
  }

  /** On a sorted table the batches come out in strictly increasing timestamp order. */
  lemma {:induction false} GroupAscending(rows: seq<Record>)
    requires Sorted(rows)
    ensures StrictlyAscending(Group(rows))
  {
    if rows != [] {
      var front := rows[..|rows| - 1];
      assert Sorted(front) by {
        forall i, j | 0 <= i < j < |front| ensures front[i].ts <= front[j].ts {
          assert front[i] == rows[i] && front[j] == rows[j];
        }
      }
      GroupAscending(front);
      if front != [] {
        GroupLast(front);
        assert Last(front) == rows[|rows| - 2];
      }
      GroupStep(rows);
      PushAscending(Group(front), Last(rows));
    }
  }

  lemma BatchTimestampsSnoc(front: seq<Batch>, b: Batch)
    ensures BatchTimestamps(front + [b]) == BatchTimestamps(front) + {b.ts}
  {
    var bs := front + [b];
    assert forall x :: x in bs <==> x in front || x == b;
  }

  lemma PushTimestamps(bs: seq<Batch>, r: Record)
    ensures BatchTimestamps(Push(bs, r)) == BatchTimestamps(bs) + {r.ts}
  {
    if bs != [] && Last(bs).ts == r.ts {
      var front := bs[..|bs| - 1];
      assert bs == front + [Last(bs)];
      BatchTimestampsSnoc(front, Last(bs));
      BatchTimestampsSnoc(front, Batch(r.ts, Last(bs).trades + [r]));
    } else {
      BatchTimestampsSnoc(bs, Batch(r.ts, [r]));
    }
  }

  lemma TimestampsOfSnoc(front: seq<Record>, r: Record)
    ensures TimestampsOf(front + [r]) == TimestampsOf(front) + {r.ts}
  {
    var rows := front + [r];
    assert forall x :: x in rows <==> x in front || x == r;
  }

  /** The batch keys are exactly the timestamps present in the table. */
  lemma {:induction false} GroupTimestamps(rows: seq<Record>)
    ensures BatchTimestamps(Group(rows)) == TimestampsOf(rows)
  {
    if rows != [] {
      var front := rows[..|rows| - 1];
      var r := Last(rows);
      assert rows == front + [r];
      GroupTimestamps(front);
      GroupStep(rows);
      PushTimestamps(Group(front), r);
      TimestampsOfSnoc(front, r);
    }
  }

  /** A key above every batch is not among the batch keys. */
  lemma AboveAll(bs: seq<Batch>, t: Timestamp)
    requires forall b :: b in bs ==> b.ts < t
    ensures t !in BatchTimestamps(bs)
  {
  }

  lemma {:induction false} AscendingCard(bs: seq<Batch>)
    requires StrictlyAscending(bs)
    ensures |BatchTimestamps(bs)| == |bs|
  {
    if bs != [] {
      var front := bs[..|bs| - 1];
      var top := Last(bs);
      assert StrictlyAscending(front) by {
        forall i, j | 0 <= i < j < |front| ensures front[i].ts < front[j].ts {
          assert front[i] == bs[i] && front[j] == bs[j];
        }
      }
      AscendingCard(front);
      assert bs == front + [top];
      BatchTimestampsSnoc(front, top);
      forall b | b in front ensures b.ts < top.ts {
        var k :| 0 <= k < |front| && front[k] == b;
        assert bs[k] == b;
      }
      AboveAll(front, top.ts);
    }
  }

  /** On a sorted table there is exactly one batch per distinct timestamp. */
  lemma GroupCount(rows: seq<Record>)
    requires Sorted(rows)
    ensures |Group(rows)| == |TimestampsOf(rows)|
  {
    GroupAscending(rows);
    GroupTimestamps(rows);
    AscendingCard(Group(rows));
  }

  lemma {:induction false} SelectNone(rows: seq<Record>, t: Timestamp)
    requires forall k :: 0 <= k < |rows| ==> rows[k].ts < t
    ensures Select(rows, t) == []
  {
    if rows != [] {
      SelectNone(rows[..|rows| - 1], t);
    }
  }

  /** Unfolds `Select` once. */
  lemma SelectStep(rows: seq<Record>, t: Timestamp)
    requires rows != []
    ensures Select(rows, t) == Select(rows[..|rows| - 1], t) + (if Last(rows).ts == t then [Last(rows)] else [])
  {
  }

  /** A row of a sorted table is at most the last batch key of the rows before it. */
  lemma BelowNext(rows: seq<Record>)
    requires Sorted(rows) && |rows| > 1
    ensures Last(Group(rows[..|rows| - 1])).ts <= Last(rows).ts
  {
    var front := rows[..|rows| - 1];
    assert Last(front) == rows[|rows| - 2];
  }

  /** When the last row opens a new batch, no earlier row has its timestamp. */
  lemma NoEarlierRow(rows: seq<Record>)
    requires Sorted(rows) && rows != []
    requires Group(rows[..|rows| - 1]) == [] || Last(Group(rows[..|rows| - 1])).ts != Last(rows).ts
    ensures Select(rows[..|rows| - 1], Last(rows).ts) == []
  {
    var front := rows[..|rows| - 1];
    var r := Last(rows);
    if front != [] {
      var top := rows[|rows| - 2];
      assert Last(front) == top;
      assert top.ts < r.ts;
      forall k | 0 <= k < |front| ensures front[k].ts < r.ts {
        assert front[k] == rows[k];
        if k < |rows| - 2 {
          assert rows[k].ts <= top.ts;
        }
      }
    }
    SelectNone(front, r.ts);
  }

  lemma SortedFront(rows: seq<Record>)
    requires Sorted(rows) && rows != []
    ensures Sorted(rows[..|rows| - 1])
  {
    var front := rows[..|rows| - 1];
    forall i, j | 0 <= i < j < |front| ensures front[i].ts <= front[j].ts {
      assert front[i] == rows[i] && front[j] == rows[j];
    }
  }

  /** On a sorted table each batch holds exactly the rows with its timestamp,
      in table order: the grouping is pandas' groupby. */
  lemma {:induction false} GroupSelect(rows: seq<Record>)
    requires Sorted(rows)
    ensures forall i :: 0 <= i < |Group(rows)| ==> Group(rows)[i].trades == Select(rows, Group(rows)[i].ts)
  {
    if rows != [] {
      var front := rows[..|rows| - 1];
      var r := Last(rows);
      var bs := Group(front);
      var out := Group(rows);
      SortedFront(rows);
      GroupSelect(front);
      GroupAscending(front);
      GroupStep(rows);
      var merges := bs != [] && Last(bs).ts == r.ts;
      if bs != [] {
        BelowNext(rows);
      }
      if !merges {
        NoEarlierRow(rows);
      }
      forall i | 0 <= i < |out|
        ensures out[i].trades == Select(rows, out[i].ts)
      {
        SelectStep(rows, out[i].ts);
        if i < |bs| && !(i == |bs| - 1 && merges) {
          // an earlier batch: untouched, and its timestamp is below r's
          assert out[i] == bs[i];
          assert bs[i].ts <= Last(bs).ts;
        } else if i < |bs| {
          // the open batch that r joins
          assert out[i] == Batch(r.ts, Last(bs).trades + [r]);
        } else {
          // the batch that r opens
          assert out[i] == Batch(r.ts, [r]);
        }
      }
    }
  }
}
