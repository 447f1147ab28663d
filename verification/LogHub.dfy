/**
The live-log hub: one runner connection and any number of UI connections per run, a capped buffer of the
newest log bytes, and stream_on / stream_off commands to the runner.

RunHub is the object whose critical sections (one method each) run under the hub's mutex. Sends happen
after the mutex is released, so everything here is about what the critical sections decide.
*/
module LogHub {
  import opened Wrappers
  import opened Lines

  const MAX_LOG_BYTES_PER_RUN: nat := 524_288

  type ConnId = nat

  // The state of one run's hub.
  datatype Hub = Hub(runner: Option<ConnId>, uis: seq<ConnId>, buf: Bytes, received: nat,
                     truncated: bool, streaming: bool, updated: int)

  function NewHub(now: int): Hub { Hub(None, [], [], 0, false, false, now) }

  function RemoveFirst(uis: seq<ConnId>, conn: ConnId): seq<ConnId> {
    if uis == [] then []
    else if uis[0] == conn then uis[1..]
    else [uis[0]] + RemoveFirst(uis[1..], conn)
  }

  lemma {:induction false} RemoveFirstAt(uis: seq<ConnId>, conn: ConnId, i: nat)
    requires i <= |uis| && (forall k :: 0 <= k < i ==> uis[k] != conn) && (i < |uis| ==> uis[i] == conn)
    ensures RemoveFirst(uis, conn) == if i < |uis| then uis[..i] + uis[i + 1..] else uis
  {
    if uis == [] || i == 0 {
    } else {
      assert forall k :: 0 <= k < i - 1 ==> uis[1..][k] == uis[k + 1];
      RemoveFirstAt(uis[1..], conn, i - 1);
      assert uis[0] != conn;
      if i < |uis| {
        assert [uis[0]] + (uis[1..][..i - 1] + uis[1..][i..]) == uis[..i] + uis[i + 1..];
      } else {
        assert [uis[0]] + uis[1..] == uis;
      }
    }
  }

  // The newest n bytes of a log.
  function Newest(log: Bytes, n: nat): Bytes { if |log| <= n then log else log[|log| - n..] }

  // ----- The critical sections, on values -----

  function AttachRunner(h: Hub, conn: ConnId, now: int): Hub {
    h.(runner := Some(conn), updated := now, streaming := |h.uis| > 0)
  }

  function DetachRunner(h: Hub, conn: ConnId): Hub {
    if h.runner == Some(conn) then h.(runner := None, streaming := false) else h
  }

  function TurnsOn(h: Hub): bool { h.uis == [] && h.runner.Some? && !h.streaming }

  function AttachUi(h: Hub, conn: ConnId, now: int): Hub {
    h.(uis := h.uis + [conn], updated := now, streaming := h.streaming || TurnsOn(h))
  }

  function TurnsOff(h: Hub, conn: ConnId): bool {
    RemoveFirst(h.uis, conn) == [] && h.runner.Some? && h.streaming
  }

  function DetachUi(h: Hub, conn: ConnId, now: int): Hub {
    h.(uis := RemoveFirst(h.uis, conn), updated := now, streaming := h.streaming && !TurnsOff(h, conn))
  }

  function Append(h: Hub, data: Bytes, now: int): Hub {
    h.(buf := Newest(h.buf + data, MAX_LOG_BYTES_PER_RUN), received := h.received + |data|,
       truncated := h.truncated || |h.buf + data| > MAX_LOG_BYTES_PER_RUN, updated := now)
  }

  // DropRun and Stop: the connections go, the streaming flag stays as it was.
  function Clear(h: Hub): Hub { h.(runner := None, uis := []) }

  // ----- The critical sections, as the hub runs them -----

  class RunHub {
    var runnerConn: Option<ConnId>
    var uis: seq<ConnId>
    var buf: Bytes
    var received: nat
    var truncated: bool
    var streaming: bool
    var updated: int

    ghost function State(): Hub
      reads this
    {
      Hub(runnerConn, uis, buf, received, truncated, streaming, updated)
    }

    constructor (now: int)
      ensures State() == NewHub(now)
    {
      runnerConn, uis, buf, received := None, [], [], 0;
      truncated, streaming, updated := false, false, now;
    }

    // RegisterRunner, on connect: the superseded connection and whether to send stream_on.
    method RegisterRunner(conn: ConnId, now: int) returns (superseded: Option<ConnId>, want: bool)
      modifies this
      ensures State() == AttachRunner(old(State()), conn, now)
      ensures superseded == old(runnerConn) && want == streaming
    {
      superseded := runnerConn;
      runnerConn := Some(conn);
      updated := now;
      want := |uis| > 0;
      streaming := want;
    }

    // RegisterRunner, on disconnect: only the current connection may clear the flag.
    method RunnerGone(conn: ConnId)
      modifies this
      ensures State() == DetachRunner(old(State()), conn)
    {
      if runnerConn == Some(conn) {
        runnerConn := None;
        streaming := false;
      }
    }

    // RegisterUI: the snapshot to send first, and the runner to send stream_on to, if any.
    method RegisterUi(conn: ConnId, now: int) returns (snapshot: Bytes, wasTruncated: bool, command: Option<ConnId>)
      modifies this
      ensures State() == AttachUi(old(State()), conn, now)
      ensures snapshot == buf && wasTruncated == (buf != [] && truncated)
      ensures command == if TurnsOn(old(State())) then runnerConn else None
    {
      uis := uis + [conn];
      updated := now;
      snapshot, wasTruncated, command := [], false, None;
      if |buf| > 0 {
        snapshot := buf;
        wasTruncated := truncated;
      }
      if |uis| == 1 && runnerConn.Some? && !streaming {
        streaming := true;
        command := runnerConn;
      }
    }

    // unregisterUI: the runner to send stream_off to, if any.
    method UnregisterUi(conn: ConnId, now: int) returns (command: Option<ConnId>)
      modifies this
      ensures State() == DetachUi(old(State()), conn, now)
      ensures command == if TurnsOff(old(State()), conn) then runnerConn else None
    {
      var i := 0;
      while i < |uis| && uis[i] != conn
        invariant 0 <= i <= |uis|
        invariant forall k :: 0 <= k < i ==> uis[k] != conn
      {
        i := i + 1;
      }
      RemoveFirstAt(uis, conn, i);
      if i < |uis| {
        uis := uis[..i] + uis[i + 1..];
      }
      command := None;
      if |uis| == 0 && runnerConn.Some? && streaming {
        streaming := false;
        command := runnerConn;
      }
      updated := now;
    }

    // appendAndFanOut: the UIs the new bytes are pushed to.
    method AppendAndFanOut(data: Bytes, now: int) returns (targets: seq<ConnId>)
      modifies this
      ensures State() == Append(old(State()), data, now)
      ensures targets == uis
    {
      buf := buf + data;
      if |buf| > MAX_LOG_BYTES_PER_RUN {
        var overflow := |buf| - MAX_LOG_BYTES_PER_RUN;
        buf := buf[overflow..];
        if !truncated {
          truncated := true;
        }
      }
      received := received + |data|;
      updated := now;
      targets := uis;
    }

    // DropRun and Stop.
    method DropConnections() returns (runner: Option<ConnId>, dropped: seq<ConnId>)
      modifies this
      ensures State() == Clear(old(State()))
      ensures runner == old(runnerConn) && dropped == old(uis)
    {
      runner, dropped := runnerConn, uis;
      runnerConn, uis := None, [];
    }

    // EvictIdle's test, under the hub's lock.
    method IsIdle(cutoff: int) returns (idle: bool)
      ensures idle <==> runnerConn == None && uis == [] && updated < cutoff
    {
      idle := runnerConn.None? && |uis| == 0 && updated < cutoff;
    }
  }
}
