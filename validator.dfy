/**
 The validating client of task_2/client.py. It reads the server's messages
 one by one and exits with status 1 on the first message that is not JSON,
 whose timestamp does not parse, whose timestamp is earlier than the previous
 trades message's, whose trades carry another timestamp text, or whose trades
 lack one of the required fields. Messages of another "type" are skipped.
 Accepted trades messages move the two counters on.

 JSON decoding and `datetime.fromisoformat` are not modelled: a message comes
 already decoded, with its timestamp text and the instant it parses to, if any.
 */
module Validator {
  import opened Trades

  const RequiredFields: set<string> := {"timestamp", "price", "volume", "ticker"}

  /** A decoded JSON value, as far as the client looks at it. */
  datatype Value = Str(s: string) | NonString

  /** One element of the envelope's "trades" list. */
  datatype Trade = Trade(fields: map<string, Value>)

  /** The envelope's "timestamp": missing or not a string (so `.replace`
      raises), or a string with what `fromisoformat` makes of it (None when
      it raises). */
  datatype Stamp = NotText | Text(text: string, instant: Option<int>)

  /** A received message: not JSON, or an object with its "type" (if any),
      its "timestamp" and its "trades" (empty when absent). */
  datatype Incoming = NotJson | Json(kind: Option<Value>, stamp: Stamp, trades: seq<Trade>)

  /** Which of the five exits the client took. */
  datatype Reason = NonJson | BadTimestamp | Backwards | Mismatch | MissingFields

  datatype Status = Running | Rejected(reason: Reason)

  /** `last_ts`, `total_msgs`, `total_trades`, and whether `sys.exit(1)` ran. */
  datatype State = State(lastTs: Option<int>, totalMsgs: nat, totalTrades: nat, status: Status)

  function Init(): State
  {
    State(None, 0, 0, Running)
  }

  predicate IsTradesMessage(m: Incoming)
  {
    m.Json? && m.kind == Some(Str(TradesKind))
  }

  predicate Parsed(m: Incoming)
  {
    m.Json? && m.stamp.Text? && m.stamp.instant.Some?
  }

  function InstantOf(m: Incoming): int
    requires Parsed(m)
  {
    m.stamp.instant.value
  }

  /** `t.get("timestamp") == ts_str` */
  predicate StampMatches(t: Trade, text: string)
  {
    "timestamp" in t.fields && t.fields["timestamp"] == Str(text)
  }

  /** `not (REQUIRED_FIELDS - t.keys())` */
  predicate HasRequired(t: Trade)
  {
    RequiredFields <= t.fields.Keys
  }

  /** One pass of the `async for` body; a rejected client processes nothing more. */
  function Next(s: State, m: Incoming): (r: State)
    ensures s.status.Rejected? ==> r == s
    ensures r.status.Running? ==> s.status.Running?
    ensures s.totalMsgs <= r.totalMsgs <= s.totalMsgs + 1 && s.totalTrades <= r.totalTrades
  {
    if s.status.Rejected? then s
    else match m
      case NotJson => s.(status := Rejected(NonJson))
      case Json(kind, stamp, trades) =>
        if kind != Some(Str(TradesKind)) then s
        else if !(stamp.Text? && stamp.instant.Some?) then s.(status := Rejected(BadTimestamp))
        else if s.lastTs.Some? && stamp.instant.value < s.lastTs.value then s.(status := Rejected(Backwards))
        else
          var moved := s.(lastTs := stamp.instant);
          if exists k :: 0 <= k < |trades| && !StampMatches(trades[k], stamp.text) then
            moved.(status := Rejected(Mismatch))
          else if exists k :: 0 <= k < |trades| && !HasRequired(trades[k]) then
            moved.(status := Rejected(MissingFields))
          else
            moved.(totalMsgs := s.totalMsgs + 1, totalTrades := s.totalTrades + |trades|)
  }

  /** The state after the messages `ms`, first message first. */
  function Run(s: State, ms: seq<Incoming>): (r: State)
    ensures r.status.Running? ==> s.status.Running?
    ensures s.totalMsgs <= r.totalMsgs <= s.totalMsgs + |ms| && s.totalTrades <= r.totalTrades
  {
    if ms == [] then s else Next(Run(s, ms[..|ms| - 1]), Last(ms))
  }

  // ----- an independent description of the streams the client accepts -----

  /** A trades message the client accepts on its own: its timestamp parses and
      every trade carries that timestamp text and all required fields. */
  predicate WellFormedTrades(m: Incoming)
  {
    Parsed(m) && forall k :: 0 <= k < |m.trades| ==> StampMatches(m.trades[k], m.stamp.text) && HasRequired(m.trades[k])
  }

  /** A trades message the client accepts after a trades message at `last`. */
  predicate Admissible(last: Option<int>, m: Incoming)
  {
    WellFormedTrades(m) && (last.None? || last.value <= InstantOf(m))
  }

  /** A whole stream the client accepts: all JSON, every trades message well
      formed, and the trades messages' instants never going down. */
  predicate ValidStream(ms: seq<Incoming>)
  {
    && (forall i :: 0 <= i < |ms| ==> ms[i].Json?)
    && (forall i :: 0 <= i < |ms| && IsTradesMessage(ms[i]) ==> WellFormedTrades(ms[i]))
    && (forall i, j :: 0 <= i < j < |ms| && IsTradesMessage(ms[i]) && IsTradesMessage(ms[j]) && Parsed(ms[i]) && Parsed(ms[j])
          ==> InstantOf(ms[i]) <= InstantOf(ms[j]))
  }

  /** The instant of the last trades message whose timestamp parsed. */
  function LastInstant(ms: seq<Incoming>): Option<int>
  {
    if ms == [] then None
    else if IsTradesMessage(Last(ms)) && Parsed(Last(ms)) then Some(InstantOf(Last(ms)))
    else LastInstant(ms[..|ms| - 1])
  }

  /** Number of trades messages. */
  function TradesMessageCount(ms: seq<Incoming>): nat
  {
    if ms == [] then 0
    else TradesMessageCount(ms[..|ms| - 1]) + (if IsTradesMessage(Last(ms)) then 1 else 0)
  }

  /** Number of trades carried by the trades messages. */
  function TradeCount(ms: seq<Incoming>): nat
  {
    if ms == [] then 0
    else TradeCount(ms[..|ms| - 1]) + (if IsTradesMessage(Last(ms)) then |Last(ms).trades| else 0)
  }

  // ----- the client as the source runs it -----

  class StreamValidator {
    var lastTs: Option<int>
    var totalMsgs: nat
    var totalTrades: nat
    var status: Status

    function Current(): State
      reads this
    {
      State(lastTs, totalMsgs, totalTrades, status)
    }

    constructor ()
      ensures Current() == Init()
    {
      lastTs, totalMsgs, totalTrades, status := None, 0, 0, Running;
    }

    /** The loop body for one received message. */
    method Step(m: Incoming)
      modifies this
      ensures Current() == Next(old(Current()), m)
    {
      if status.Rejected? {
        return;
      }
      if m.NotJson? {
        status := Rejected(NonJson);
        return;
      }
      if m.kind != Some(Str(TradesKind)) {
        return;
      }
      if !(m.stamp.Text? && m.stamp.instant.Some?) {
        status := Rejected(BadTimestamp);
        return;
      }
      var ts := m.stamp.instant.value;
      if lastTs.Some? && ts < lastTs.value {
        status := Rejected(Backwards);
        return;
      }
      lastTs := Some(ts);
      var k := 0;
      while k < |m.trades|
        invariant 0 <= k <= |m.trades|
        invariant forall j :: 0 <= j < k ==> StampMatches(m.trades[j], m.stamp.text)
      {
        if !StampMatches(m.trades[k], m.stamp.text) {
          status := Rejected(Mismatch);
          return;
        }
        k := k + 1;
      }
      k := 0;
      while k < |m.trades|
        invariant 0 <= k <= |m.trades|
        invariant forall j :: 0 <= j < k ==> HasRequired(m.trades[j])
      {
        if !HasRequired(m.trades[k]) {
          status := Rejected(MissingFields);
          return;
        }
        k := k + 1;
      }
      totalMsgs := totalMsgs + 1;
      totalTrades := totalTrades + |m.trades|;
    }

    /** `async for message in ws`, ending at the end of the stream or at the
        first `sys.exit(1)`. */
    method Consume(ms: seq<Incoming>)
      modifies this
      ensures Current() == Run(old(Current()), ms)
    {
      var i := 0;
      while i < |ms| && status.Running?
        invariant 0 <= i <= |ms|
        invariant Current() == Run(old(Current()), ms[..i])
      {
        assert ms[..i + 1][..i] == ms[..i];
        Step(ms[i]);
        i := i + 1;
      }
      if i < |ms| {
        RejectedAbsorbs(old(Current()), ms[..i], ms[i..]);
        assert ms[..i] + ms[i..] == ms;
      } else {
        assert ms[..i] == ms;
      }
    }
  }

  // ----- properties -----

  /** Rejection is terminal: nothing received afterwards changes the state. */
  lemma {:induction false} RejectedAbsorbs(s: State, done: seq<Incoming>, rest: seq<Incoming>)
    requires Run(s, done).status.Rejected?
    ensures Run(s, done + rest) == Run(s, done)
    decreases |rest|
  {
    if rest != [] {
      var front := rest[..|rest| - 1];
      RejectedAbsorbs(s, done, front);
      var all := done + rest;
      assert all != [] && all[..|all| - 1] == done + front && Last(all) == Last(rest);
      assert Run(s, all) == Next(Run(s, done + front), Last(rest));
    } else {
      assert done + rest == done;
    }
  }

  /** A message of another type is skipped and changes nothing. */
  lemma SkipsOtherTypes(s: State, m: Incoming)
    requires m.Json? && !IsTradesMessage(m)
    ensures Next(s, m) == s
  {
  }

  /** The first trades message never fails the ordering check. */
  lemma FirstIsInOrder(m: Incoming)
    ensures Next(Init(), m).status != Rejected(Backwards)
  {
  }

  /** Which exit a trades message takes: an earlier timestamp exits on the
      ordering check (an equal one passes it), then a trade with another
      timestamp text, then a trade missing a required field. */
  lemma RejectionReasons(s: State, m: Incoming)
    requires s.status.Running? && IsTradesMessage(m) && Parsed(m)
    ensures s.lastTs.Some? && InstantOf(m) < s.lastTs.value ==> Next(s, m).status == Rejected(Backwards)
    ensures (s.lastTs.None? || s.lastTs.value <= InstantOf(m)) ==>
      && Next(s, m).status != Rejected(Backwards)
      && Next(s, m).lastTs == Some(InstantOf(m))
      && ((exists k :: 0 <= k < |m.trades| && !StampMatches(m.trades[k], m.stamp.text))
            ==> Next(s, m).status == Rejected(Mismatch))
      && (((forall k :: 0 <= k < |m.trades| ==> StampMatches(m.trades[k], m.stamp.text))
             && (exists k :: 0 <= k < |m.trades| && !HasRequired(m.trades[k])))
            ==> Next(s, m).status == Rejected(MissingFields))
  {
  }

  /** A running client accepts a trades message exactly when it is admissible
      after the previous instant; acceptance adds one message and its trades
      to the counters and moves `last_ts`, rejection leaves the counters. */
  lemma NextOnTrades(s: State, m: Incoming)
    requires s.status.Running? && IsTradesMessage(m)
    ensures Next(s, m).status.Running? <==> Admissible(s.lastTs, m)
    ensures Next(s, m).status.Running? ==>
      Next(s, m) == State(Some(InstantOf(m)), s.totalMsgs + 1, s.totalTrades + |m.trades|, Running)
    ensures Next(s, m).status.Rejected? ==>
      Next(s, m).totalMsgs == s.totalMsgs && Next(s, m).totalTrades == s.totalTrades
  {
  }

  lemma RunningPrefix(s: State, ms: seq<Incoming>)
    requires ms != [] && Run(s, ms).status.Running?
    ensures Run(s, ms[..|ms| - 1]).status.Running?
  {
  }

  /** While the client runs, `total_msgs` counts the trades messages and
      `total_trades` the trades they carried. */
  lemma {:induction false} RunCounters(s: State, ms: seq<Incoming>)
    requires Run(s, ms).status.Running?
    ensures Run(s, ms).totalMsgs == s.totalMsgs + TradesMessageCount(ms)
    ensures Run(s, ms).totalTrades == s.totalTrades + TradeCount(ms)
  {
    if ms != [] {
      var front := ms[..|ms| - 1];
      RunningPrefix(s, ms);
      RunCounters(s, front);
      if IsTradesMessage(Last(ms)) {
        NextOnTrades(Run(s, front), Last(ms));
      }
    }
  }

  /** While the client runs, `last_ts` is the instant of the last trades message. */
  lemma {:induction false} RunLastInstant(ms: seq<Incoming>)
    requires Run(Init(), ms).status.Running?
    ensures Run(Init(), ms).lastTs == LastInstant(ms)
  {
    if ms != [] {
      var front := ms[..|ms| - 1];
      RunningPrefix(Init(), ms);
      RunLastInstant(front);
      if IsTradesMessage(Last(ms)) {
        NextOnTrades(Run(Init(), front), Last(ms));
      }
    }
  }

  /** In a valid stream the last instant is the largest one, and it is one of them. */
  lemma {:induction false} ValidLastInstant(ms: seq<Incoming>)
    requires ValidStream(ms)
    ensures LastInstant(ms).None? ==> forall i :: 0 <= i < |ms| ==> !IsTradesMessage(ms[i])
    ensures LastInstant(ms).Some? ==>
      && (forall i :: 0 <= i < |ms| && IsTradesMessage(ms[i]) ==> InstantOf(ms[i]) <= LastInstant(ms).value)
      && (exists i :: 0 <= i < |ms| && IsTradesMessage(ms[i]) && InstantOf(ms[i]) == LastInstant(ms).value)
  {
    if ms != [] {
      var front := ms[..|ms| - 1];
      assert ValidStream(front) by {
        forall i | 0 <= i < |front| ensures front[i] == ms[i] { }
      }
      ValidLastInstant(front);
      var m := Last(ms);
      if IsTradesMessage(m) {
        assert ms[|ms| - 1] == m;
      } else {
        if LastInstant(front).Some? {
          var i :| 0 <= i < |front| && IsTradesMessage(front[i]) && InstantOf(front[i]) == LastInstant(front).value;
          assert ms[i] == front[i];
        }
      }
    }
  }

  /** How validity of a stream extends by one message. */
  lemma ValidExtend(p: seq<Incoming>, m: Incoming)
    ensures ValidStream(p + [m]) <==>
      && ValidStream(p)
      && m.Json?
      && (IsTradesMessage(m) ==>
            && WellFormedTrades(m)
            && forall i :: 0 <= i < |p| && IsTradesMessage(p[i]) && Parsed(p[i]) ==> InstantOf(p[i]) <= InstantOf(m))
  {
    var ms := p + [m];
    assert forall i :: 0 <= i < |p| ==> ms[i] == p[i];
    assert ms[|p|] == m;
  }

  /** The client runs to the end of a stream without exiting exactly when the
      stream is valid: its checks are sound and complete for `ValidStream`. */
  lemma {:induction false} AcceptsExactlyValid(ms: seq<Incoming>)
    ensures Run(Init(), ms).status.Running? <==> ValidStream(ms)
  {
    if ms != [] {
      var p := ms[..|ms| - 1];
      var m := Last(ms);
      assert ms == p + [m];
      AcceptsExactlyValid(p);
      ValidExtend(p, m);
      var s := Run(Init(), p);
      if s.status.Running? {
        RunLastInstant(p);
        ValidLastInstant(p);
        if IsTradesMessage(m) {
          NextOnTrades(s, m);
          if Parsed(m) && s.lastTs.Some? {
            var i :| 0 <= i < |p| && IsTradesMessage(p[i]) && InstantOf(p[i]) == s.lastTs.value;
          }
        }
      }
    }
  }
}
