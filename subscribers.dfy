/**
 The set of connected websockets (`clients` in main.py and task_2/main.py),
 the connect and disconnect handling of `websocket_endpoint`, and the
 broadcast pass of `replay_trades`, which walks a copy of the set and drops
 every socket whose send fails.

 Everything here is sequential: the copy `list(clients)` is taken when a pass
 starts, and no connection event happens in the middle of a pass.
 */
module Subscribers {
  import opened Trades

  /** A connected websocket, compared by identity. */
  type Handle = nat

  /** One `send_text` attempt of a broadcast pass; `delivered` is false when it raised. */
  datatype Send = Send(to: Handle, message: Envelope, delivered: bool)

  /** What `clients.remove(ws)` does: remove, or raise `KeyError` when `ws` is absent. */
  datatype Removal = Removed | KeyError

  /** `sends` offers `msg` exactly once to every member of `targets` and to
      nobody else, and a send fails exactly for the members of `failing`. */
  predicate Offered(sends: seq<Send>, msg: Envelope, targets: set<Handle>, failing: set<Handle>)
  {
    && (forall i, j :: 0 <= i < j < |sends| ==> sends[i].to != sends[j].to)
    && (forall i :: 0 <= i < |sends| ==>
          sends[i].to in targets && sends[i].message == msg && sends[i].delivered == (sends[i].to !in failing))
    && (forall h :: h in targets ==> exists i :: 0 <= i < |sends| && sends[i].to == h)
  }

  /** The handles a pass reached successfully. */
  function Reached(sends: seq<Send>): set<Handle>
  {
    set i | 0 <= i < |sends| && sends[i].delivered :: sends[i].to
  }

  /** A failing subscriber does not keep the others from being served: every
      target outside `failing` is reached. */
  lemma OfferedReachesHealthy(sends: seq<Send>, msg: Envelope, targets: set<Handle>, failing: set<Handle>)
    requires Offered(sends, msg, targets, failing)
    ensures Reached(sends) == targets - failing
  {
    forall h | h in targets - failing ensures h in Reached(sends) {
      var i :| 0 <= i < |sends| && sends[i].to == h;
    }
  }

  /** What happens to the registry around pass `i` of a replay, apart from the
      replay itself: the websockets whose handler connects (`joins(i)`) and
      then the ones whose handler sees a disconnect (`leaves(i)`) while the
      replay waits before pass `i`, and the websockets whose send raises
      during pass `i` (`fails(i)`). */
  datatype Activity = Activity(joins: nat -> set<Handle>, leaves: nat -> set<Handle>, fails: nat -> set<Handle>)

  /** The registry while the replay waits before pass `i`: what it held when
      the replay started, or what the previous pass left. */
  function Before(start: set<Handle>, a: Activity, i: nat): set<Handle>
    decreases i, 0
  {
    if i == 0 then start else TargetsAt(start, a, i - 1) - a.fails(i - 1)
  }

  /** The registry when pass `i` takes its snapshot: the connects and then the
      disconnects of the wait applied to `Before`. */
  function TargetsAt(start: set<Handle>, a: Activity, i: nat): set<Handle>
    decreases i, 1
  {
    (Before(start, a, i) + a.joins(i)) - a.leaves(i)
  }

  /** Handle `h` entered the registry in the wait before pass `j`: it was there
      when the replay started or it connected then. */
  predicate Entered(start: set<Handle>, a: Activity, h: Handle, j: nat)
  {
    h in a.joins(j) || (j == 0 && h in start)
  }

  /** From the wait before pass `j` up to pass `i`, `h` saw no disconnect, and
      none of its sends in passes `j` .. `i-1` failed. */
  predicate Kept(a: Activity, h: Handle, j: nat, i: nat)
  {
    forall k :: j <= k <= i ==> h !in a.leaves(k) && (k < i ==> h !in a.fails(k))
  }

  /** A websocket is in the snapshot of pass `i` exactly when it entered at
      some earlier or the same wait and, since then, neither disconnected nor
      failed a send. */
  lemma {:induction false} TargetsAtMembers(start: set<Handle>, a: Activity, i: nat, h: Handle)
    ensures h in TargetsAt(start, a, i) <==> exists j :: 0 <= j <= i && Entered(start, a, h, j) && Kept(a, h, j, i)
  {
    if h in TargetsAt(start, a, i) {
      if h in a.joins(i) || i == 0 {
        assert Entered(start, a, h, i) && Kept(a, h, i, i);
      } else {
        assert h in Before(start, a, i) && h !in a.leaves(i);
        assert Before(start, a, i) == TargetsAt(start, a, i - 1) - a.fails(i - 1);
        TargetsAtMembers(start, a, i - 1, h);
        var j :| 0 <= j <= i - 1 && Entered(start, a, h, j) && Kept(a, h, j, i - 1);
        forall k | j <= k <= i
          ensures h !in a.leaves(k) && (k < i ==> h !in a.fails(k))
        {
          if k < i {
            assert h !in a.leaves(k) && (k < i - 1 ==> h !in a.fails(k));
          }
        }
      }
    }
    if exists j :: 0 <= j <= i && Entered(start, a, h, j) && Kept(a, h, j, i) {
      var j :| 0 <= j <= i && Entered(start, a, h, j) && Kept(a, h, j, i);
      assert h !in a.leaves(i);
      if j < i {
        assert Kept(a, h, j, i - 1);
        TargetsAtMembers(start, a, i - 1, h);
        assert h !in a.fails(i - 1);
      }
    }
  }

  /** A websocket whose send failed, or that disconnected, is offered nothing
      in any later pass unless it connects again. */
  lemma GoneStaysOut(start: set<Handle>, a: Activity, h: Handle, k: nat, m: nat)
    requires (k < m && h in a.fails(k)) || (k <= m && h in a.leaves(k))
    requires forall j :: k < j <= m ==> h !in a.joins(j)
    ensures h !in TargetsAt(start, a, m)
  {
    TargetsAtMembers(start, a, m, h);
    forall j | 0 <= j <= m
      ensures !(Entered(start, a, h, j) && Kept(a, h, j, m))
    {
      if j <= k {
        assert !(h !in a.leaves(k) && (k < m ==> h !in a.fails(k)));
      } else {
        assert h !in a.joins(j);
      }
    }
  }

  /** With nobody connecting during the replay the registry only shrinks from
      one pass to a later one. */
  lemma {:induction false} TargetsShrink(start: set<Handle>, a: Activity, i: nat, j: nat)
    requires i <= j
    requires forall k :: a.joins(k) == {}
    ensures TargetsAt(start, a, j) <= TargetsAt(start, a, i)
  {
    if i < j {
      TargetsShrink(start, a, i, j - 1);
    }
  }

  class Registry {
    var clients: set<Handle>

    /** The module-level `clients = set()`. */
    constructor ()
      ensures clients == {}
    {
      clients := {};
    }

    /** `clients.add(ws)` after the websocket is accepted. */
    method Add(h: Handle)
      modifies this
      ensures clients == old(clients) + {h}
    {
      clients := clients + {h};
    }

    /** The handlers of the websockets `hs` each run `clients.add(ws)`. */
    method AddAll(hs: set<Handle>)
      modifies this
      ensures clients == old(clients) + hs
    {
      var pending := hs;
      while pending != {}
        invariant pending <= hs
        invariant clients == old(clients) + (hs - pending)
        decreases pending
      {
        var h :| h in pending;
        Add(h);
        pending := pending - {h};
      }
    }

    /** The handlers of the websockets `hs` each see the disconnect and take
        their socket out, with the tolerant removal. */
    method DiscardAll(hs: set<Handle>)
      modifies this
      ensures clients == old(clients) - hs
    {
      var pending := hs;
      while pending != {}
        invariant pending <= hs
        invariant clients == old(clients) - (hs - pending)
        decreases pending
      {
        var h :| h in pending;
        Discard(h);
        pending := pending - {h};
      }
    }

    /** `clients.remove(ws)`: on the disconnect path of `websocket_endpoint`
        and after a failed send. Python's `set.remove` raises `KeyError` for a
        handle that is not in the set and leaves the set alone. */
    method Remove(h: Handle) returns (r: Removal)
      modifies this
      ensures r == (if h in old(clients) then Removed else KeyError)
      ensures clients == old(clients) - {h}
    {
      if h in clients {
        clients := clients - {h};
        r := Removed;
      } else {
        r := KeyError;
      }
    }

    /** Removal that tolerates an already removed handle (`set.discard`). */
    method Discard(h: Handle)
      modifies this
      ensures clients == old(clients) - {h}
    {
      clients := clients - {h};
    }

    /** `for ws in list(clients): try send_text except: clients.remove(ws)`.
        `failing` are the handles whose send raises during this pass. */
    method Broadcast(msg: Envelope, failing: set<Handle>) returns (sends: seq<Send>)
      modifies this
      ensures Offered(sends, msg, old(clients), failing)
      ensures clients == old(clients) - failing
    {
      var snapshot := clients;
      var pending := snapshot;
      sends := [];
      while pending != {}
        invariant pending <= snapshot
        invariant clients == snapshot - (snapshot - pending) * failing
        invariant Offered(sends, msg, snapshot - pending, failing)
        decreases pending
      {
        var ws :| ws in pending;
        var ok := ws !in failing;
        ghost var before := sends;
        sends := sends + [Send(ws, msg, ok)];
        if !ok {
          var r := Remove(ws);
          assert r == Removed;
        }
        forall h | h in snapshot - (pending - {ws})
          ensures exists i :: 0 <= i < |sends| && sends[i].to == h
        {
          if h == ws {
            assert sends[|before|].to == h;
          } else {
            assert h in snapshot - pending;
            var i :| 0 <= i < |before| && before[i].to == h;
            assert sends[i].to == h;
          }
        }
        pending := pending - {ws};
      }
      assert snapshot - pending == snapshot;
    }
  }

  /** A send fails, the broadcast drops the socket, and afterwards the
      socket's own handler sees the disconnect and removes it again. */
  method DisconnectAfterDroppedSend(msg: Envelope) returns (r: Removal)
    ensures r == KeyError
  {
    var reg := new Registry();
    reg.Add(7);
    var sends := reg.Broadcast(msg, {7});
    r := reg.Remove(7);
  }

  /** The same trace with the tolerant removal: the handle is gone and no
      error is raised. */
  method DisconnectAfterDroppedSendDiscarding(msg: Envelope) returns (left: set<Handle>)
    ensures left == {}
  {
    var reg := new Registry();
    reg.Add(7);
    var sends := reg.Broadcast(msg, {7});
    reg.Discard(7);
    left := reg.clients;
  }
}
