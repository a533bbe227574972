# Trade replay server and validating client, modelled in Dafny

The system loads a table of trades and sorts it by timestamp. It groups the
trades that share one exact timestamp into a batch. It then replays the
batches over websockets to every connected client, sleeping between batches
in proportion to the gap between their timestamps. There are two servers:

- `main.py` loads all batches up front; the first batch gets a zero delta.
- `task_2/main.py` groups lazily and skips the delay for the first batch. Every
  later delay is raised to a minimum (`MIN_DELAY`).

A validating client, `task_2/client.py`, reads the stream. It stops with an
error on the first message that breaks one of these rules:

- the message is not JSON;
- its timestamp does not parse;
- its timestamp goes backwards;
- one of its trades carries another timestamp;
- one of its trades lacks a required field.

The model has one module per concern:

- `Trades` (trades.dfy) holds the values: records with an integer
  microsecond timestamp, batches, the `"trades"` envelope, and
  `total_seconds` as a `real`.
- `Batcher` (batcher.dfy) holds the grouping. `Group` is the forward pass as
  a function, and `LoadBatches` is `load_batches` as one loop over the sorted rows: it does
  the work of `groupby` and of the `append` loop together, since it extends
  the open batch or appends a new one for each row. Its
  lemmas show that the pass agrees with a per-key selection, which is what
  pandas' `groupby` computes.
- `Subscribers` (subscribers.dfy) holds `clients` as a class `Registry` over
  a `set<Handle>`. Its methods are add, remove (whose `KeyError` is an
  outcome) and the broadcast pass over a snapshot. A set of failing handles
  stands in for the sends that raise.
- An `Activity` gives, for each pass of a replay, the websockets that connect
  and then those that disconnect while the replay waits before that pass, and
  the websockets whose send raises in it. `Before` and `TargetsAt` give the
  registry before each wait and at each snapshot. The replay starts from
  whatever the registry holds; at startup that is the empty set.
- `Replay` (replay.dfy) and `LazyReplay` (lazy_replay.dfy) hold the two
  replay loops. Each loop is a method that records, per batch, the sleep it
  would await, the envelope it builds and the sends of the broadcast. Each
  is proved against a predicate over the batch sequence.
- `Scenarios` (scenarios.dfy) holds a worked example with three trades.
- `Validator` (validator.dfy) holds the client:
  - the pure state machine `Next`/`Run`;
  - a class `StreamValidator` with the client's variables and its loop;
  - an independent description `ValidStream` of the streams the client
    accepts, with a proof that the client accepts exactly those.

## Model

| member | source | states |
|---|---|---|
| Trades.Seconds | main.py:52 | a time difference is positive, zero or negative in seconds exactly as it is in microseconds |
| Batcher.Group | task_2/main.py:22 | the forward grouping pass: no more batches than rows, none exactly when there are no rows, and the last batch has the last row's timestamp |
| Batcher.LoadBatches | main.py:37-41 | the loop builds `Group(rows)` and the result is a grouping of the sorted table: strictly ascending keys, non-empty batches whose records carry the batch key, all rows in order, sizes summing to the row count, one batch per distinct timestamp, each batch exactly the rows with its key |
| Batcher.GroupIsGrouping | task_2/main.py:22 | the single pass over a sorted frame meets every clause of a grouping, which is what `groupby("timestamp", sort=True)` yields |
| Batcher.GroupFlatten | main.py:38-40 | concatenating the batches gives back the table: no row is lost, duplicated or reordered |
| Batcher.GroupSizes | main.py:37-41 | the batch sizes add up to the number of rows |
| Batcher.GroupWellFormed | main.py:38-39 | every batch is non-empty and each of its trades has exactly the batch's timestamp |
| Batcher.GroupAscending | main.py:34-38 | on a sorted table the batch timestamps strictly increase |
| Batcher.GroupTimestamps | main.py:38 | the set of batch keys is the set of timestamps of the table |
| Batcher.GroupCount | main.py:37-41 | on a sorted table there are as many batches as distinct timestamps |
| Batcher.GroupSelect | main.py:38-39 | on a sorted table each batch holds exactly the rows with its timestamp, in table order |
| Subscribers.Registry.constructor | main.py:14 | the registry starts empty |
| Subscribers.Registry.Add | main.py:74 | connecting adds the handle and changes nothing else (task_2/main.py:59 is the same) |
| Subscribers.Registry.AddAll | task_2/main.py:59 | the handlers that connect during a wait each add their socket: the registry gains exactly those handles |
| Subscribers.Registry.DiscardAll | main.py:79 | the handlers that see a disconnect during a wait each take their socket out, with the tolerant removal: the registry loses exactly those handles |
| Subscribers.Registry.Remove | main.py:79 | `clients.remove`, on the disconnect path and after a failed send, takes out the handle and nothing else; it reports `KeyError` exactly when the handle was absent |
| Subscribers.Registry.Discard | task_2/main.py:64 | the tolerant removal used on the disconnect path in the corrected model: the handle is gone, and no error is possible |
| Subscribers.Registry.Broadcast | main.py:64-68 | every member of the snapshot is offered the same message exactly once, and nobody else is; a send fails exactly for the failing handles; afterwards the registry is the old set minus the failing handles |
| Subscribers.OfferedReachesHealthy | task_2/main.py:37-41 | a failing client does not keep the others from being served: every snapshot member outside the failing set receives the message |
| Subscribers.TargetsAtMembers | task_2/main.py:37-41 | a websocket is in the snapshot of pass i exactly when it was registered at the start or connected in some wait up to pass i, and since then has neither disconnected nor failed a send |
| Subscribers.GoneStaysOut | main.py:64-68 | a websocket whose send failed, or that disconnected, is offered nothing in any later pass unless it connects again |
| Subscribers.TargetsShrink | main.py:64-68 | when nobody connects during the replay, the registry only shrinks from one pass to a later one |
| Subscribers.DisconnectAfterDroppedSend | main.py:64-79 | as written: after a failed send has dropped a client, that client's disconnect raises `KeyError` |
| Subscribers.DisconnectAfterDroppedSendDiscarding | task_2/main.py:37-64 | corrected: the same trace with the tolerant removal ends with the client gone and no error |
| Replay.ReplayTrades | main.py:43-68 | one event per batch of the sorted table: the sleep of the delay rule, the envelope with type "trades", that batch's timestamp and trades, offered to the snapshot of that pass, which is the registry after the previous pass's failed sends and after the connects and disconnects of the wait; the registry ends as the last pass left it; an empty table yields no event, no send and no change |
| Replay.ReplayBatches | main.py:49-68 | the loop over non-empty batches with `prev_ts` starting at the first batch's timestamp yields exactly the events `EagerReplayed` describes |
| Replay.EagerSleep | main.py:49-54 | the delay rule of main.py: a batch is preceded by a sleep exactly when it is not the first and its timestamp is later than the previous batch's, and that sleep is positive |
| Replay.EagerMessages | main.py:57-61 | for a sorted table the replay sends one envelope per distinct timestamp; each has type "trades", non-empty trades, and exactly the rows with its timestamp in table order; the envelopes' timestamps strictly increase |
| Replay.EagerFirstImmediate | main.py:49-54 | the first batch is sent without a sleep |
| Replay.EagerGap | main.py:52-55 | for a later batch of an ascending sequence the sleep is the gap to the previous batch divided by the speed, and it is positive |
| Replay.EagerTotalSpan | main.py:49-55 | for an ascending batch sequence, the sleeps before the first n batches add up to the span of their timestamps divided by the speed |
| LazyReplay.ReplayTradesLazily | task_2/main.py:19-41 | one event per group of the sorted frame, with the sleep of the floored delay rule, the envelope of that group, and the broadcast over the snapshot of that pass, taken after the connects and disconnects of the wait; the registry ends as the last pass left it; an empty frame yields no event and leaves the registry unchanged |
| LazyReplay.LazySleep | task_2/main.py:21-28 | the floored delay rule: the first group never sleeps, and a sleep is positive, at least the floor and at least the scaled gap |
| LazyReplay.LazyMessages | task_2/main.py:31-35 | for a sorted frame the replay sends one envelope per distinct timestamp; each has type "trades", non-empty trades, and exactly the rows with its timestamp in frame order; the envelopes' timestamps strictly increase |
| LazyReplay.LazyFirstImmediate | task_2/main.py:21-23 | the first group is sent without a sleep, whatever the floor |
| LazyReplay.LazyDelayBounds | task_2/main.py:24-28 | a later group sleeps if and only if the floor or the scaled gap is positive; the sleep is then positive, at least the floor, at least the scaled gap, and equal to one of them |
| LazyReplay.LazyAscendingSleeps | task_2/main.py:22-28 | with strictly ascending groups every group after the first is preceded by a sleep |
| LazyReplay.PauseCoversGap | task_2/main.py:26-28 | the pause before a later group is at least the scaled gap |
| LazyReplay.PauseCoversFloor | task_2/main.py:26-28 | the pause before a later group is at least the floor |
| LazyReplay.LazyTotalCoversSpan | task_2/main.py:21-29 | the replay of n groups sleeps at least the span of their timestamps divided by the speed |
| LazyReplay.LazyTotalCoversFloor | task_2/main.py:21-29 | the replay of n groups sleeps at least n-1 times the floor |
| LazyReplay.GapAtSpeedFive | task_2/main.py:24-28 | a 5 second gap at speed 5 with floor 0 sleeps 1 second |
| LazyReplay.GapBelowFloor | task_2/main.py:24-28 | a half-second gap at speed 1 with floor 2 sleeps 2 seconds |
| Scenarios.SpeedFiveScenario | main.py:38-55 | two trades at one instant and a third 5 seconds later form two batches (of two, then one); both servers send the first at once and the second after 1 second at speed 5 |
| Validator.Next | task_2/client.py:22-64 | one pass of the loop body: a client that has exited stays as it is; a running result comes only from a running state; `total_msgs` grows by at most one and `total_trades` never goes down |
| Validator.Run | task_2/client.py:21-64 | the loop over a stream: a client still running at the end was running at the start; `total_msgs` grows by at most the number of messages, and neither counter goes down |
| Validator.StreamValidator.constructor | task_2/client.py:15-17 | the client starts with no last timestamp and zero counters |
| Validator.StreamValidator.Step | task_2/client.py:22-64 | the loop body for one message moves the client's variables exactly as `Next` does |
| Validator.StreamValidator.Consume | task_2/client.py:21-64 | the loop over the messages, stopping at the first exit, ends in the state `Run` gives |
| Validator.RejectedAbsorbs | task_2/client.py:25-26 | once the client has exited, no later message changes its state |
| Validator.SkipsOtherTypes | task_2/client.py:28-30 | a JSON message whose type is not "trades" leaves `last_ts` and both counters unchanged |
| Validator.FirstIsInOrder | task_2/client.py:43-45 | the first trades message never fails the ordering check |
| Validator.RejectionReasons | task_2/client.py:42-59 | a strictly earlier timestamp is rejected as going backwards; an equal or later one passes and becomes `last_ts`; then a trade with another timestamp text is a mismatch, and only then a trade missing a required field is rejected |
| Validator.NextOnTrades | task_2/client.py:42-62 | a running client accepts a trades message if and only if it is well formed and not earlier than `last_ts`; acceptance adds 1 message and `len(trades)` trades and moves `last_ts`; rejection leaves the counters alone |
| Validator.RunCounters | task_2/client.py:61-62 | while the client runs, `total_msgs` counts the trades messages received and `total_trades` the trades they carried |
| Validator.RunLastInstant | task_2/client.py:43-46 | while the client runs, `last_ts` is the instant of the last trades message |
| Validator.ValidLastInstant | task_2/client.py:43-46 | in a stream the client accepts, the last instant is the largest instant of any trades message, and it is one of them |
| Validator.ValidExtend | task_2/client.py:42-59 | a stream extended by one message stays acceptable exactly when the message is JSON and, if it is a trades message, well formed and not earlier than any earlier one |
| Validator.AcceptsExactlyValid | task_2/client.py:14-64 | the client runs through a stream without exiting if and only if the stream is valid: all JSON, every trades message well formed, and instants never going down |

## Left out

- Reading the Parquet file, `to_pandas`, `to_datetime` and `sort_values` are not modelled. The model starts from the timestamp-sorted rows, which is a `requires Sorted` on `LoadBatches`, `ReplayTrades` and `ReplayTradesLazily`.
- pandas' default sort is not stable, so the order of rows within one timestamp is the order of the sorted table as given. The model does not relate it to file order.
- Rows whose timestamp is missing (NaT) are not modelled. `groupby` would drop them.
- LazyReplay.ReplayTradesLazily: requires a sorted frame, as `load_dataframe` produces. The sorting that `groupby(sort=True)` does on its own over an unsorted frame is not modelled.
- Timestamps are integer microseconds. pandas keeps nanoseconds, so two rows less than a microsecond apart form two batches in the source, and the model cannot represent them.
- The second file read inside `load_batches` and the extra `load_batches` call at startup are left out. They only repeat work.
- JSON encoding with `json.dumps(default=str)` and `isoformat` is not modelled. An envelope is the value `Envelope(kind, ts, trades)`.
- Decoding with `json.loads`, the `Z` rewrite and `datetime.fromisoformat` are not modelled. A received message arrives decoded, with its timestamp text and the instant it parses to, if any.
- Validator: JSON that is not an object, a `trades` value that is not a list of objects, and comparing a naive timestamp with an aware one all raise past the inner checks into the outer handler. These paths are not modelled.
- Whether the server's output passes the client's per-trade timestamp check is not stated. The two timestamp renderings are library formats.
- asyncio scheduling, `create_task`, the websocket transport, `accept` and the keep-alive receive loop are not modelled. A sleep is recorded, not awaited. The connects and disconnects handled during each wait, and the sends that raise in each pass, are an `Activity` parameter.
- Replay.ReplayTrades: within one wait, the model applies all connects before all disconnects. A websocket that disconnects and then connects again within one wait is a new handle, so no case is lost. The wait before the first pass stands for the connects and disconnects handled before the first broadcast.
- LazyReplay.ReplayTradesLazily: the connects and disconnects of a wait are ordered the same way as in Replay.ReplayTrades.
- Subscribers.Registry.DiscardAll: the handlers use the tolerant removal of the corrected model. With `clients.remove` as written, the handler of a socket that a broadcast already dropped raises `KeyError` (see Findings), but the registry it leaves is the same.
- Subscribers.Registry.Broadcast: a disconnect handled while a pass is suspended in `send_text` is not modelled, because the model is sequential. In the source, a client removed that way and then failing its send makes `clients.remove` raise `KeyError`. That happens inside the `except` clause (main.py:67-68, task_2/main.py:40-41), so the exception ends `replay_trades`, and no client gets any later batch.
- Floating point is not modelled. Delays are exact `real`s, timestamps are integer microseconds, and `total_seconds` is exact division.
- Reading `SPEED` and `MIN_DELAY` from the environment is not modelled. `SPEED > 0` is a precondition; the source never checks it.
- `client.py` only prints each message, so it holds no logic to model.

## Findings

| source | as written | input that shows it | evidently intended | confidence | as-written member | corrected member |
|---|---|---|---|---|---|---|
| task_2/main.py:41 | a failed send removes the client with `clients.remove(ws)`. When that client's handler later sees the disconnect, it calls `clients.remove(ws)` again (task_2/main.py:64, and likewise main.py:68 and main.py:79) | one client connects, its send fails in a broadcast, and then it disconnects | a disconnect of a client the broadcast already dropped is a no-op (`discard`) | not executed | Subscribers.DisconnectAfterDroppedSend | Subscribers.DisconnectAfterDroppedSendDiscarding |
