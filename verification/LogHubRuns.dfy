/**
All interleavings of the log hub's critical sections.

A connection's goroutine holds on to the hub object it once looked up, so after DropRun, Stop or an
eviction it may act on a hub that is no longer registered. The runs here allow more than that: every
critical section may run on any hub ever created. What is proved holds for all of them.
*/
module LogHubRuns {
  import opened Wrappers
  import opened Lines
  import opened LogHub

  // What has been decided for a UI connection: where its snapshot starts in the log, whether the
  // snapshot was marked truncated, and all bytes it was given, snapshot first.
  datatype View = View(hub: nat, start: nat, flagged: bool, given: Bytes)

  // logs[i] is everything ever appended to hub i, commands[c] what was decided for runner connection c.
  datatype World = World(hubs: seq<Hub>, logs: seq<Bytes>, runs: map<string, nat>,
                         commands: map<ConnId, seq<bool>>, views: map<ConnId, View>)

  const EMPTY: World := World([], [], map[], map[], map[])

  datatype Event =
    | GetOrCreate(run: string, now: int)
    | RunnerConnects(hub: nat, conn: ConnId, now: int)
    | RunnerDisconnects(hub: nat, conn: ConnId)
    | UiConnects(hub: nat, conn: ConnId, now: int)
    | UiDisconnects(hub: nat, conn: ConnId, now: int)
    | Appends(hub: nat, data: Bytes, now: int)
    | DropsConnections(hub: nat)           // second half of DropRun, or of Stop for one hub
    | Unregisters(run: string)             // first half of DropRun, or an eviction
    | UnregistersAll                       // first half of Stop

  // Every connection registers once, under a fresh identity.
  predicate Enabled(w: World, e: Event) {
    match e
    case RunnerConnects(hub, conn, _) => hub < |w.hubs| && conn !in w.commands
    case UiConnects(hub, conn, _) => hub < |w.hubs| && conn !in w.views
    case RunnerDisconnects(hub, _) => hub < |w.hubs|
    case UiDisconnects(hub, _, _) => hub < |w.hubs|
    case Appends(hub, data, _) => hub < |w.hubs| && data != []
    case DropsConnections(hub) => hub < |w.hubs|
    case _ => true
  }

  function Command(commands: map<ConnId, seq<bool>>, runner: Option<ConnId>, on: bool): map<ConnId, seq<bool>> {
    if runner.Some? && runner.value in commands then commands[runner.value := commands[runner.value] + [on]] else commands
  }

  function FanOut(views: map<ConnId, View>, uis: seq<ConnId>, data: Bytes): map<ConnId, View> {
    map c | c in views :: if c in uis then views[c].(given := views[c].given + data) else views[c]
  }

  function Step(w: World, e: Event): World
    requires Enabled(w, e) && |w.logs| == |w.hubs|
  {
    match e
    case GetOrCreate(run, now) =>
      if run in w.runs then w
      else w.(hubs := w.hubs + [NewHub(now)], logs := w.logs + [[]], runs := w.runs[run := |w.hubs|])
    case RunnerConnects(i, conn, now) =>
      w.(hubs := w.hubs[i := AttachRunner(w.hubs[i], conn, now)],
         commands := w.commands[conn := if |w.hubs[i].uis| > 0 then [true] else []])
    case RunnerDisconnects(i, conn) =>
      w.(hubs := w.hubs[i := DetachRunner(w.hubs[i], conn)])
    case UiConnects(i, conn, now) =>
      var h := w.hubs[i];
      w.(hubs := w.hubs[i := AttachUi(h, conn, now)],
         commands := if TurnsOn(h) then Command(w.commands, h.runner, true) else w.commands,
         views := w.views[conn := View(i, if |h.buf| <= h.received then h.received - |h.buf| else 0,
                                       h.buf != [] && h.truncated, h.buf)])
    case UiDisconnects(i, conn, now) =>
      var h := w.hubs[i];
      w.(hubs := w.hubs[i := DetachUi(h, conn, now)],
         commands := if TurnsOff(h, conn) then Command(w.commands, h.runner, false) else w.commands)
    case Appends(i, data, now) =>
      w.(hubs := w.hubs[i := Append(w.hubs[i], data, now)], logs := w.logs[i := w.logs[i] + data],
         views := FanOut(w.views, w.hubs[i].uis, data))
    case DropsConnections(i) => w.(hubs := w.hubs[i := Clear(w.hubs[i])])
    case Unregisters(run) => w.(runs := w.runs - {run})
    case UnregistersAll => w.(runs := map[])
  }

  // ----- Invariants -----

  // The buffer is the newest bytes of the log, and truncated says whether any are missing.
  ghost predicate BufferExact(h: Hub, log: Bytes) {
    && h.received == |log|
    && h.buf == Newest(log, MAX_LOG_BYTES_PER_RUN)
    && (h.truncated <==> |log| > MAX_LOG_BYTES_PER_RUN)
  }

  // A hub with a runner streams exactly when it has a UI. Without a runner the flag may be stale.
  ghost predicate FlagExact(h: Hub) { h.runner.Some? ==> (h.streaming <==> h.uis != []) }

  // Commands alternate, on first.
  ghost predicate Alternates(commands: seq<bool>) {
    forall k :: 0 <= k < |commands| ==> commands[k] == (k % 2 == 0)
  }

  // What a runner was last told; nothing counts as off.
  function LastTold(commands: seq<bool>): bool { commands != [] && commands[|commands| - 1] }

  ghost predicate RunnerToldFlag(w: World, i: nat)
    requires i < |w.hubs|
  {
    var h := w.hubs[i];
    h.runner.Some? ==> h.runner.value in w.commands && LastTold(w.commands[h.runner.value]) == h.streaming
  }

  ghost predicate RunnersDistinct(hubs: seq<Hub>) {
    forall i, j :: 0 <= i < |hubs| && 0 <= j < |hubs| && hubs[i].runner.Some? && hubs[i].runner == hubs[j].runner ==> i == j
  }

  // A view is one contiguous stretch of its hub's log, and says truncated exactly when it does not
  // start at the beginning.
  ghost predicate Contiguous(v: View, logs: seq<Bytes>) {
    && v.hub < |logs|
    && v.start + |v.given| <= |logs[v.hub]|
    && v.given == logs[v.hub][v.start..v.start + |v.given|]
    && (v.flagged <==> v.start > 0)
  }

  // A connected UI has been given everything up to the current byte.
  ghost predicate UpToDate(w: World, i: nat, ui: ConnId)
    requires i < |w.hubs| == |w.logs|
  {
    && ui in w.views && w.views[ui].hub == i
    && w.views[ui].start + |w.views[ui].given| == |w.logs[i]|
  }

  ghost predicate Inv(w: World) {
    && |w.logs| == |w.hubs|
    && (forall i :: 0 <= i < |w.hubs| ==> BufferExact(w.hubs[i], w.logs[i]))
    && (forall i :: 0 <= i < |w.hubs| ==> FlagExact(w.hubs[i]))
    && (forall i :: 0 <= i < |w.hubs| ==> RunnerToldFlag(w, i))
    && RunnersDistinct(w.hubs)
    && (forall c :: c in w.commands ==> Alternates(w.commands[c]))
    && (forall c :: c in w.views ==> Contiguous(w.views[c], w.logs))
    && (forall i, ui :: 0 <= i < |w.hubs| && ui in w.hubs[i].uis ==> UpToDate(w, i, ui))
  }

  lemma {:induction false} NewestAppend(log: Bytes, data: Bytes, n: nat)
    ensures Newest(Newest(log, n) + data, n) == Newest(log + data, n)
  {
  }

  lemma {:induction false} RemoveFirstMembers(uis: seq<ConnId>, conn: ConnId)
    ensures forall ui :: ui in RemoveFirst(uis, conn) ==> ui in uis
    ensures RemoveFirst(uis, conn) != [] ==> uis != []
  {
    if uis != [] && uis[0] != conn {
      RemoveFirstMembers(uis[1..], conn);
    }
  }

  lemma {:induction false} CommandAlternates(commands: seq<bool>, on: bool)
    requires Alternates(commands) && LastTold(commands) == !on
    ensures Alternates(commands + [on]) && LastTold(commands + [on]) == on
  {
  }

  lemma {:induction false} BufferStep(h: Hub, log: Bytes, data: Bytes, now: int)
    requires BufferExact(h, log)
    ensures BufferExact(Append(h, data, now), log + data)
  {
    NewestAppend(log, data, MAX_LOG_BYTES_PER_RUN);
  }

  lemma {:induction false} ViewStep(v: View, logs: seq<Bytes>, i: nat, data: Bytes, more: bool)
    requires i < |logs| && Contiguous(v, logs)
    requires more ==> v.hub == i && v.start + |v.given| == |logs[i]|
    ensures Contiguous(if more then v.(given := v.given + data) else v, logs[i := logs[i] + data])
  {
    var log := logs[v.hub];
    if v.hub == i {
      assert (log + data)[v.start..v.start + |v.given|] == log[v.start..v.start + |v.given|];
      if more {
        assert (log + data)[v.start..] == log[v.start..] + data;
      }
    }
  }

  // ----- Each critical section keeps the invariants -----

  lemma {:induction false} GetOrCreateKeeps(w: World, run: string, now: int)
    requires Inv(w)
    ensures Inv(Step(w, GetOrCreate(run, now)))
  {
    var w' := Step(w, GetOrCreate(run, now));
    if run !in w.runs {
      forall c | c in w.views ensures Contiguous(w'.views[c], w'.logs) {
        assert w'.logs[w.views[c].hub] == w.logs[w.views[c].hub];
      }
      forall j | 0 <= j < |w'.hubs| ensures RunnerToldFlag(w', j) {
        if j < |w.hubs| { assert RunnerToldFlag(w, j); }
      }
      forall j, ui | 0 <= j < |w'.hubs| && ui in w'.hubs[j].uis ensures UpToDate(w', j, ui) {
        assert UpToDate(w, j, ui);
      }
    }
  }

  lemma {:induction false} RunnerConnectsKeeps(w: World, i: nat, conn: ConnId, now: int)
    requires Inv(w) && Enabled(w, RunnerConnects(i, conn, now))
    ensures Inv(Step(w, RunnerConnects(i, conn, now)))
  {
    var w' := Step(w, RunnerConnects(i, conn, now));
    forall j | 0 <= j < |w.hubs| ensures RunnerToldFlag(w', j) && w.hubs[j].runner != Some(conn) {
      assert RunnerToldFlag(w, j);
    }
    forall j, ui | 0 <= j < |w'.hubs| && ui in w'.hubs[j].uis ensures UpToDate(w', j, ui) {
      assert UpToDate(w, j, ui);
    }
  }

  lemma {:induction false} RunnerDisconnectsKeeps(w: World, i: nat, conn: ConnId)
    requires Inv(w) && Enabled(w, RunnerDisconnects(i, conn))
    ensures Inv(Step(w, RunnerDisconnects(i, conn)))
  {
    var w' := Step(w, RunnerDisconnects(i, conn));
    forall j | 0 <= j < |w.hubs| ensures RunnerToldFlag(w', j) { assert RunnerToldFlag(w, j); }
    forall j, ui | 0 <= j < |w'.hubs| && ui in w'.hubs[j].uis ensures UpToDate(w', j, ui) {
      assert UpToDate(w, j, ui);
    }
  }

  // A command goes to the hub's own runner, and no other hub has that runner.
  lemma {:induction false} CommandKeepsTold(w: World, w': World, i: nat, on: bool)
    requires Inv(w) && i < |w.hubs| && w.hubs[i].runner.Some? && w.hubs[i].streaming == !on
    requires |w'.hubs| == |w.hubs| && w'.commands == Command(w.commands, w.hubs[i].runner, on)
    requires w'.hubs[i].runner == w.hubs[i].runner && w'.hubs[i].streaming == on
    requires forall j :: 0 <= j < |w.hubs| && j != i ==> w'.hubs[j] == w.hubs[j]
    ensures forall j :: 0 <= j < |w'.hubs| ==> RunnerToldFlag(w', j)
    ensures forall c :: c in w'.commands ==> Alternates(w'.commands[c])
  {
    assert RunnerToldFlag(w, i);
    CommandAlternates(w.commands[w.hubs[i].runner.value], on);
    forall j | 0 <= j < |w.hubs| ensures RunnerToldFlag(w', j) { assert RunnerToldFlag(w, j); }
  }

  lemma {:induction false} SnapshotContiguous(h: Hub, log: Bytes, v: View, logs: seq<Bytes>)
    requires BufferExact(h, log) && v.hub < |logs| && logs[v.hub] == log
    requires v.start == h.received - |h.buf| && v.given == h.buf && v.flagged == (h.buf != [] && h.truncated)
    ensures Contiguous(v, logs) && v.start + |v.given| == |log|
  {
  }

  lemma {:induction false} UiConnectsKeeps(w: World, i: nat, conn: ConnId, now: int)
    requires Inv(w) && Enabled(w, UiConnects(i, conn, now))
    ensures Inv(Step(w, UiConnects(i, conn, now)))
  {
    var w' := Step(w, UiConnects(i, conn, now));
    var h, log := w.hubs[i], w.logs[i];
    assert BufferExact(h, log);
    SnapshotContiguous(h, log, w'.views[conn], w.logs);
    if TurnsOn(h) {
      CommandKeepsTold(w, w', i, true);
    } else {
      forall j | 0 <= j < |w.hubs| ensures RunnerToldFlag(w', j) { assert RunnerToldFlag(w, j); }
    }
    forall j, ui | 0 <= j < |w'.hubs| && ui in w'.hubs[j].uis ensures UpToDate(w', j, ui) {
      if ui in w.hubs[j].uis { assert UpToDate(w, j, ui); }
    }
  }

  lemma {:induction false} UiDisconnectsKeeps(w: World, i: nat, conn: ConnId, now: int)
    requires Inv(w) && Enabled(w, UiDisconnects(i, conn, now))
    ensures Inv(Step(w, UiDisconnects(i, conn, now)))
  {
    var w' := Step(w, UiDisconnects(i, conn, now));
    var h := w.hubs[i];
    RemoveFirstMembers(h.uis, conn);
    if TurnsOff(h, conn) {
      CommandKeepsTold(w, w', i, false);
    } else {
      forall j | 0 <= j < |w.hubs| ensures RunnerToldFlag(w', j) { assert RunnerToldFlag(w, j); }
    }
    forall j, ui | 0 <= j < |w'.hubs| && ui in w'.hubs[j].uis ensures UpToDate(w', j, ui) {
      assert UpToDate(w, j, ui);
    }
  }

  lemma {:induction false} AppendsKeeps(w: World, i: nat, data: Bytes, now: int)
    requires Inv(w) && Enabled(w, Appends(i, data, now))
    ensures Inv(Step(w, Appends(i, data, now)))
  {
    var w' := Step(w, Appends(i, data, now));
    BufferStep(w.hubs[i], w.logs[i], data, now);
    forall j | 0 <= j < |w.hubs| ensures RunnerToldFlag(w', j) { assert RunnerToldFlag(w, j); }
    forall c | c in w'.views ensures Contiguous(w'.views[c], w'.logs) {
      var more := c in w.hubs[i].uis;
      if more { assert UpToDate(w, i, c); }
      ViewStep(w.views[c], w.logs, i, data, more);
    }
    forall j, ui | 0 <= j < |w'.hubs| && ui in w'.hubs[j].uis ensures UpToDate(w', j, ui) {
      assert UpToDate(w, j, ui);
      if ui in w.hubs[i].uis { assert UpToDate(w, i, ui); }
    }
  }

  lemma {:induction false} DropsConnectionsKeeps(w: World, i: nat)
    requires Inv(w) && Enabled(w, DropsConnections(i))
    ensures Inv(Step(w, DropsConnections(i)))
  {
    var w' := Step(w, DropsConnections(i));
    forall j | 0 <= j < |w.hubs| ensures RunnerToldFlag(w', j) { assert RunnerToldFlag(w, j); }
    forall j, ui | 0 <= j < |w'.hubs| && ui in w'.hubs[j].uis ensures UpToDate(w', j, ui) {
      assert UpToDate(w, j, ui);
    }
  }

  lemma {:induction false} StepKeeps(w: World, e: Event)
    requires Inv(w) && Enabled(w, e)
    ensures Inv(Step(w, e))
  {
    match e
    case GetOrCreate(run, now) => GetOrCreateKeeps(w, run, now);
    case RunnerConnects(i, conn, now) => RunnerConnectsKeeps(w, i, conn, now);
    case RunnerDisconnects(i, conn) => RunnerDisconnectsKeeps(w, i, conn);
    case UiConnects(i, conn, now) => UiConnectsKeeps(w, i, conn, now);
    case UiDisconnects(i, conn, now) => UiDisconnectsKeeps(w, i, conn, now);
    case Appends(i, data, now) => AppendsKeeps(w, i, data, now);
    case DropsConnections(i) => DropsConnectionsKeeps(w, i);
    case Unregisters(run) =>
      forall j | 0 <= j < |w.hubs| ensures RunnerToldFlag(Step(w, e), j) { assert RunnerToldFlag(w, j); }
      forall j, ui | 0 <= j < |w.hubs| && ui in w.hubs[j].uis ensures UpToDate(Step(w, e), j, ui) { assert UpToDate(w, j, ui); }
    case UnregistersAll =>
      forall j | 0 <= j < |w.hubs| ensures RunnerToldFlag(Step(w, e), j) { assert RunnerToldFlag(w, j); }
      forall j, ui | 0 <= j < |w.hubs| && ui in w.hubs[j].uis ensures UpToDate(Step(w, e), j, ui) { assert UpToDate(w, j, ui); }
  }

  // ----- Every run -----

  // worlds[0] is the empty server and each next world is one critical section later.
  ghost predicate IsRun(events: seq<Event>, worlds: seq<World>) {
    && |worlds| == |events| + 1 && worlds[0] == EMPTY
    && forall k :: 0 <= k < |events| ==>
         |worlds[k].logs| == |worlds[k].hubs| && Enabled(worlds[k], events[k]) && worlds[k + 1] == Step(worlds[k], events[k])
  }

  lemma {:induction false} EveryWorldInvariant(events: seq<Event>, worlds: seq<World>, k: nat)
    requires IsRun(events, worlds) && k < |worlds|
    ensures Inv(worlds[k])
  {
    if k > 0 {
      EveryWorldInvariant(events, worlds, k - 1);
      StepKeeps(worlds[k - 1], events[k - 1]);
      assert worlds[k - 1 + 1] == Step(worlds[k - 1], events[k - 1]);
    }
  }

  // In every reachable state the buffer is exactly the last min(received, cap) bytes ever appended, and
  // truncated holds exactly when more than the cap were.
  lemma {:induction false} BufferIsNewestBytes(events: seq<Event>, worlds: seq<World>, k: nat, i: nat)
    requires IsRun(events, worlds) && k < |worlds| && i < |worlds[k].hubs|
    ensures |worlds[k].logs| == |worlds[k].hubs|
    ensures var h, log := worlds[k].hubs[i], worlds[k].logs[i];
            var n := if h.received < MAX_LOG_BYTES_PER_RUN then h.received else MAX_LOG_BYTES_PER_RUN;
            h.received == |log| && h.buf == log[|log| - n..] && (h.truncated <==> h.received > MAX_LOG_BYTES_PER_RUN)
  {
    EveryWorldInvariant(events, worlds, k);
    assert BufferExact(worlds[k].hubs[i], worlds[k].logs[i]);
  }

  // What a connected UI has been given, snapshot and chunks together, is the log from where its
  // snapshot starts to the current byte: no gap, no overlap; and the snapshot is marked truncated
  // exactly when that is not the first byte.
  lemma {:induction false} UiSeesContiguousLog(events: seq<Event>, worlds: seq<World>, k: nat, i: nat, ui: ConnId)
    requires IsRun(events, worlds) && k < |worlds| && i < |worlds[k].hubs| && ui in worlds[k].hubs[i].uis
    ensures ui in worlds[k].views && |worlds[k].logs| == |worlds[k].hubs|
    ensures var v, log := worlds[k].views[ui], worlds[k].logs[i];
            v.start <= |log| && v.given == log[v.start..] && (v.flagged <==> v.start > 0)
  {
    EveryWorldInvariant(events, worlds, k);
    assert UpToDate(worlds[k], i, ui);
    assert Contiguous(worlds[k].views[ui], worlds[k].logs);
  }

  // Commands decided for one runner connection alternate, stream_on first; while it is some hub's
  // runner, the last one is stream_on exactly when that hub has a UI.
  lemma {:induction false} RunnerIsToldTheTruth(events: seq<Event>, worlds: seq<World>, k: nat, i: nat)
    requires IsRun(events, worlds) && k < |worlds|
    ensures forall c :: c in worlds[k].commands ==> Alternates(worlds[k].commands[c])
    ensures i < |worlds[k].hubs| && worlds[k].hubs[i].runner.Some? ==>
              var h := worlds[k].hubs[i];
              h.runner.value in worlds[k].commands
              && LastTold(worlds[k].commands[h.runner.value]) == h.streaming == (h.uis != [])
  {
    EveryWorldInvariant(events, worlds, k);
    if i < |worlds[k].hubs| {
      assert RunnerToldFlag(worlds[k], i) && FlagExact(worlds[k].hubs[i]);
    }
  }

  // Without a runner the flag says nothing: after a UI, its runner and a DropRun it stays on.
  lemma {:induction false} FlagStaleAfterDrop() returns (events: seq<Event>, worlds: seq<World>)
    ensures IsRun(events, worlds)
    ensures var w := worlds[|worlds| - 1];
            |w.hubs| == 1 && w.hubs[0].runner == None && w.hubs[0].uis == [] && w.hubs[0].streaming
  {
    var e0, e1, e2, e3 := GetOrCreate("run", 0), UiConnects(0, 1, 0), RunnerConnects(0, 2, 0), DropsConnections(0);
    events := [e0, e1, e2, e3];
    var w1 := Step(EMPTY, e0);
    assert w1.hubs == [NewHub(0)];
    var w2 := Step(w1, e1);
    var w3 := Step(w2, e2);
    var w4 := Step(w3, e3);
    worlds := [EMPTY, w1, w2, w3, w4];
  }
}
