/**
 The values that flow through the trade-replay server: trade records read from
 the columnar file, the batches they are grouped into, and the envelope that is
 broadcast for each batch.
 */
module Trades {

  datatype Option<T> = None | Some(value: T)

  /** An instant in UTC, counted in microseconds. The model assumes the
      table's timestamps have microsecond resolution: pandas keeps
      nanoseconds, and two rows less than a microsecond apart would be two
      batches there. */
  type Timestamp = int

  /** One row of the trade table: its timestamp and the remaining columns. */
  datatype Record = Record(ts: Timestamp, fields: map<string, string>)

  /** All rows sharing one exact timestamp, in the order of the sorted table. */
  datatype Batch = Batch(ts: Timestamp, trades: seq<Record>)

  /** The JSON object sent for one batch: {"type", "timestamp", "trades"}. */
  datatype Envelope = Envelope(kind: string, ts: Timestamp, trades: seq<Record>)

  const TradesKind: string := "trades"

  const MicrosPerSecond: int := 1000000

  /** The envelope built for a batch (the same in both servers). */
  function TradesMessage(b: Batch): Envelope
  {
    Envelope(TradesKind, b.ts, b.trades)
  }

  /** `timedelta.total_seconds()` of a difference of two timestamps. */
  function Seconds(micros: int): (s: real)
    ensures (s > 0.0 <==> micros > 0) && (s == 0.0 <==> micros == 0)
  {
    micros as real / MicrosPerSecond as real
  }

  function Last<T>(s: seq<T>): T
    requires |s| > 0
  {
    s[|s| - 1]
  }

  /** Timestamps never go down along the sequence. */
  predicate Sorted(rows: seq<Record>)
  {
    forall i, j :: 0 <= i < j < |rows| ==> rows[i].ts <= rows[j].ts
  }

  /** Batch timestamps go strictly up along the sequence. */
  predicate StrictlyAscending(bs: seq<Batch>)
  {
    forall i, j :: 0 <= i < j < |bs| ==> bs[i].ts < bs[j].ts
  }
}
