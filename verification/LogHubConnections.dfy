/**
Who is connected to a hub, told from the events alone.

A run of the hub is a sequence of critical sections. The laws here read the sequence backwards: a UI is
subscribed, a connection is the runner, a hub is registered, for as long as the events since it came say so.
None of them mentions how a critical section changes the hub.
*/
module LogHubConnections {
  import opened Wrappers
  import opened History
  import opened Lines
  import opened LogHub
  import opened LogHubRuns

  // ----- UIs -----

  function UiJoins(i: nat, conn: ConnId): Event -> bool {
    (e: Event) => e.UiConnects? && e.hub == i && e.conn == conn
  }

  function UiLeaves(i: nat, conn: ConnId): Event -> bool {
    (e: Event) => (e.UiDisconnects? && e.hub == i && e.conn == conn) || e == DropsConnections(i)
  }

  predicate Subscribed(w: World, i: nat, conn: ConnId) { i < |w.hubs| && conn in w.hubs[i].uis }

  ghost predicate NoRepeats(uis: seq<ConnId>) { forall a, b :: 0 <= a < b < |uis| ==> uis[a] != uis[b] }

  // No UI is subscribed twice to a hub.
  ghost predicate SubscribedOnce(w: World) { forall i :: 0 <= i < |w.hubs| ==> NoRepeats(w.hubs[i].uis) }

  lemma {:induction false} RemoveFirstRemoves(uis: seq<ConnId>, conn: ConnId)
    requires NoRepeats(uis)
    ensures NoRepeats(RemoveFirst(uis, conn))
    ensures forall ui :: ui in RemoveFirst(uis, conn) <==> ui in uis && ui != conn
  {
    if uis != [] {
      assert NoRepeats(uis[1..]) && uis[0] !in uis[1..];
      assert uis == [uis[0]] + uis[1..];
      RemoveFirstRemoves(uis[1..], conn);
    }
  }

  lemma {:induction false} UiConnectsSubscribes(w: World, i: nat, conn: ConnId, now: int)
    requires Inv(w) && Enabled(w, UiConnects(i, conn, now)) && SubscribedOnce(w)
    ensures SubscribedOnce(Step(w, UiConnects(i, conn, now)))
    ensures forall j: nat, ui: ConnId :: Subscribed(Step(w, UiConnects(i, conn, now)), j, ui)
                                         <==> (j == i && ui == conn) || Subscribed(w, j, ui)
  {
    var uis := w.hubs[i].uis;
    assert conn in uis ==> UpToDate(w, i, conn);
    assert NoRepeats(uis + [conn]);
    assert Step(w, UiConnects(i, conn, now)).hubs[i].uis == uis + [conn];
  }

  lemma {:induction false} UiDisconnectsUnsubscribes(w: World, i: nat, conn: ConnId, now: int)
    requires Enabled(w, UiDisconnects(i, conn, now)) && |w.logs| == |w.hubs| && SubscribedOnce(w)
    ensures SubscribedOnce(Step(w, UiDisconnects(i, conn, now)))
    ensures forall j: nat, ui: ConnId :: Subscribed(Step(w, UiDisconnects(i, conn, now)), j, ui)
                                         <==> Subscribed(w, j, ui) && !(j == i && ui == conn)
  {
    RemoveFirstRemoves(w.hubs[i].uis, conn);
  }

  lemma {:induction false} OthersSubscribe(w: World, e: Event, i: nat, conn: ConnId)
    requires Enabled(w, e) && |w.logs| == |w.hubs| && SubscribedOnce(w) && !e.UiConnects? && !e.UiDisconnects?
    ensures SubscribedOnce(Step(w, e))
    ensures Subscribed(Step(w, e), i, conn) <==> Subscribed(w, i, conn) && e != DropsConnections(i)
  {
  }

  lemma {:induction false} SubscribersStep(w: World, e: Event, i: nat, conn: ConnId)
    requires Inv(w) && Enabled(w, e) && SubscribedOnce(w)
    ensures SubscribedOnce(Step(w, e))
    ensures Subscribed(Step(w, e), i, conn) <==> UiJoins(i, conn)(e) || (Subscribed(w, i, conn) && !UiLeaves(i, conn)(e))
  {
    match e
    case UiConnects(hub, ui, now) => UiConnectsSubscribes(w, hub, ui, now);
    case UiDisconnects(hub, ui, now) => UiDisconnectsUnsubscribes(w, hub, ui, now);
    case _ => OthersSubscribe(w, e, i, conn);
  }

  // A UI is subscribed to a hub exactly when it connected to it and has neither disconnected nor been
  // dropped with the hub's other connections since; and it is subscribed once.
  lemma {:induction false} SubscribedIffConnected(events: seq<Event>, worlds: seq<World>, k: nat, i: nat, conn: ConnId)
    requires IsRun(events, worlds) && k < |worlds|
    ensures Subscribed(worlds[k], i, conn) <==> Since(events, k, UiJoins(i, conn), UiLeaves(i, conn))
    ensures SubscribedOnce(worlds[k])
  {
    if k > 0 {
      SubscribedIffConnected(events, worlds, k - 1, i, conn);
      EveryWorldInvariant(events, worlds, k - 1);
      SubscribersStep(worlds[k - 1], events[k - 1], i, conn);
      SinceNext(events, k - 1, UiJoins(i, conn), UiLeaves(i, conn));
      assert worlds[k - 1 + 1] == Step(worlds[k - 1], events[k - 1]);
    }
  }

  // The bytes the events before k append to hub i.
  function Appended(events: seq<Event>, k: nat, i: nat): Bytes
    requires k <= |events|
  {
    if k == 0 then []
    else Appended(events, k - 1, i) + (if events[k - 1].Appends? && events[k - 1].hub == i then events[k - 1].data else [])
  }

  lemma {:induction false} LogStep(w: World, e: Event, i: nat)
    requires |w.logs| == |w.hubs| && Enabled(w, e) && i < |w.hubs|
    ensures i < |Step(w, e).logs|
    ensures Step(w, e).logs[i] == w.logs[i] + (if e.Appends? && e.hub == i then e.data else [])
  {
  }

  lemma {:induction false} NewLogStep(w: World, e: Event, i: nat)
    requires |w.logs| == |w.hubs| && Enabled(w, e) && |w.hubs| <= i
    ensures i < |Step(w, e).logs| ==> Step(w, e).logs[i] == []
    ensures !(e.Appends? && e.hub == i)
  {
  }

  // The log of a hub is what was appended to it, in order; before the hub exists nothing is.
  lemma {:induction false} LogIsAppended(events: seq<Event>, worlds: seq<World>, k: nat, i: nat)
    requires IsRun(events, worlds) && k < |worlds|
    ensures |worlds[k].logs| == |worlds[k].hubs|
    ensures Appended(events, k, i) == if i < |worlds[k].hubs| then worlds[k].logs[i] else []
  {
    EveryWorldInvariant(events, worlds, k);
    if k > 0 {
      LogIsAppended(events, worlds, k - 1, i);
      assert worlds[k - 1 + 1] == Step(worlds[k - 1], events[k - 1]);
      if i < |worlds[k - 1].hubs| {
        LogStep(worlds[k - 1], events[k - 1], i);
      } else {
        NewLogStep(worlds[k - 1], events[k - 1], i);
      }
    }
  }

  lemma {:induction false} ViewStartStep(w: World, e: Event, conn: ConnId)
    requires Inv(w) && Enabled(w, e) && conn in w.views
    ensures conn in Step(w, e).views && Step(w, e).views[conn].start == w.views[conn].start
  {
  }

  // Where the snapshot of a UI that connects at j starts: the newest bytes up to the cap.
  lemma {:induction false} SnapshotStart(events: seq<Event>, worlds: seq<World>, j: nat, k: nat, i: nat, conn: ConnId)
    requires IsRun(events, worlds) && j < k < |worlds| && UiJoins(i, conn)(events[j])
    ensures var before := |Appended(events, j, i)|;
            conn in worlds[k].views
            && worlds[k].views[conn].start == if before <= MAX_LOG_BYTES_PER_RUN then 0 else before - MAX_LOG_BYTES_PER_RUN
  {
    if j == k - 1 {
      LogIsAppended(events, worlds, j, i);
      BufferIsNewestBytes(events, worlds, j, i);
      assert worlds[j + 1] == Step(worlds[j], events[j]);
    } else {
      SnapshotStart(events, worlds, j, k - 1, i, conn);
      EveryWorldInvariant(events, worlds, k - 1);
      ViewStartStep(worlds[k - 1], events[k - 1], conn);
      assert worlds[k - 1 + 1] == Step(worlds[k - 1], events[k - 1]);
    }
  }

  // A UI that connected at j and has not gone since has been given, snapshot and chunks together, the
  // log from the newest bytes there were at j to the current byte; the snapshot is marked truncated
  // exactly when that is not the whole log.
  lemma {:induction false} ConnectedUiSeesLog(events: seq<Event>, worlds: seq<World>, j: nat, k: nat, i: nat, conn: ConnId)
    requires IsRun(events, worlds) && j < k < |worlds|
    requires UiJoins(i, conn)(events[j]) && forall m :: j < m < k ==> !UiLeaves(i, conn)(events[m])
    ensures conn in worlds[k].views
    ensures var before := |Appended(events, j, i)|;
            var start := if before <= MAX_LOG_BYTES_PER_RUN then 0 else before - MAX_LOG_BYTES_PER_RUN;
            var log := Appended(events, k, i);
            start <= |log| && worlds[k].views[conn].given == log[start..] && (worlds[k].views[conn].flagged <==> start > 0)
  {
    SubscribedIffConnected(events, worlds, k, i, conn);
    assert Subscribed(worlds[k], i, conn);
    UiSeesContiguousLog(events, worlds, k, i, conn);
    SnapshotStart(events, worlds, j, k, i, conn);
    LogIsAppended(events, worlds, k, i);
    EveryWorldInvariant(events, worlds, k);
  }

  // ----- Runners -----

  function RunnerTakes(i: nat, conn: ConnId): Event -> bool {
    (e: Event) => e.RunnerConnects? && e.hub == i && e.conn == conn
  }

  function RunnerLoses(i: nat, conn: ConnId): Event -> bool {
    (e: Event) => (e.RunnerConnects? && e.hub == i) || e == RunnerDisconnects(i, conn) || e == DropsConnections(i)
  }

  predicate IsRunner(w: World, i: nat, conn: ConnId) { i < |w.hubs| && w.hubs[i].runner == Some(conn) }

  lemma {:induction false} RunnerStep(w: World, e: Event, i: nat, conn: ConnId)
    requires Inv(w) && Enabled(w, e)
    ensures IsRunner(Step(w, e), i, conn)
            <==> RunnerTakes(i, conn)(e) || (IsRunner(w, i, conn) && !RunnerLoses(i, conn)(e))
  {
  }

  // A hub's runner is the last one to connect, until it disconnects or is dropped: a superseded
  // connection that goes away later takes nothing with it.
  lemma {:induction false} RunnerIffCurrent(events: seq<Event>, worlds: seq<World>, k: nat, i: nat, conn: ConnId)
    requires IsRun(events, worlds) && k < |worlds|
    ensures IsRunner(worlds[k], i, conn) <==> Since(events, k, RunnerTakes(i, conn), RunnerLoses(i, conn))
  {
    if k > 0 {
      RunnerIffCurrent(events, worlds, k - 1, i, conn);
      EveryWorldInvariant(events, worlds, k - 1);
      RunnerStep(worlds[k - 1], events[k - 1], i, conn);
      SinceNext(events, k - 1, RunnerTakes(i, conn), RunnerLoses(i, conn));
      assert worlds[k - 1 + 1] == Step(worlds[k - 1], events[k - 1]);
    }
  }

  // ----- Idle times -----

  // The event gives hub i a new time: it creates the hub, or is about one of its connections or bytes.
  predicate Touches(w: World, e: Event, i: nat) {
    match e
    case GetOrCreate(run, _) => run !in w.runs && i == |w.hubs|
    case RunnerConnects(hub, _, _) => hub == i
    case UiConnects(hub, _, _) => hub == i
    case UiDisconnects(hub, _, _) => hub == i
    case Appends(hub, _, _) => hub == i
    case _ => false
  }

  lemma {:induction false} UpdatedStep(w: World, e: Event, i: nat)
    requires |w.logs| == |w.hubs| && Enabled(w, e) && i < |Step(w, e).hubs|
    ensures Touches(w, e, i) ==> Step(w, e).hubs[i].updated == e.now
    ensures !Touches(w, e, i) ==> i < |w.hubs| && Step(w, e).hubs[i].updated == w.hubs[i].updated
  {
  }

  // The time an eviction goes by is that of the last event that created or touched the hub.
  lemma {:induction false} UpdatedByLastTouch(events: seq<Event>, worlds: seq<World>, k: nat, i: nat) returns (j: nat)
    requires IsRun(events, worlds) && k < |worlds| && i < |worlds[k].hubs|
    ensures j < k && Touches(worlds[j], events[j], i) && worlds[k].hubs[i].updated == events[j].now
    ensures forall m :: j < m < k ==> !Touches(worlds[m], events[m], i)
  {
    assert worlds[k - 1 + 1] == Step(worlds[k - 1], events[k - 1]);
    UpdatedStep(worlds[k - 1], events[k - 1], i);
    if Touches(worlds[k - 1], events[k - 1], i) {
      j := k - 1;
    } else {
      j := UpdatedByLastTouch(events, worlds, k - 1, i);
    }
  }

  // ----- Registered hubs -----

  function Unregistering(run: string): Event -> bool {
    (e: Event) => e == Unregisters(run) || e == UnregistersAll
  }

  // A run that has been looked up since it was last unregistered keeps the hub it got: a later lookup
  // creates none.
  lemma {:induction false} RunKeepsItsHub(events: seq<Event>, worlds: seq<World>, j: nat, k: nat, run: string)
    requires IsRun(events, worlds) && j < k < |worlds|
    requires events[j].GetOrCreate? && events[j].run == run && forall m :: j < m < k ==> !Unregistering(run)(events[m])
    ensures run in worlds[j + 1].runs && run in worlds[k].runs && worlds[k].runs[run] == worlds[j + 1].runs[run]
  {
    assert worlds[k - 1 + 1] == Step(worlds[k - 1], events[k - 1]);
    if j < k - 1 {
      RunKeepsItsHub(events, worlds, j, k - 1, run);
      assert !Unregistering(run)(events[k - 1]);
    }
  }

  function LooksUp(run: string): Event -> bool { (e: Event) => e.GetOrCreate? && e.run == run }

  lemma {:induction false} RegisteredStep(w: World, e: Event, run: string)
    requires Enabled(w, e) && |w.logs| == |w.hubs|
    ensures run in Step(w, e).runs <==> LooksUp(run)(e) || (run in w.runs && !Unregistering(run)(e))
  {
  }

  // A run is registered exactly when it has been looked up since it was last unregistered.
  lemma {:induction false} RegisteredIffLookedUp(events: seq<Event>, worlds: seq<World>, k: nat, run: string)
    requires IsRun(events, worlds) && k < |worlds|
    ensures run in worlds[k].runs <==> Since(events, k, LooksUp(run), Unregistering(run))
  {
    if k > 0 {
      RegisteredIffLookedUp(events, worlds, k - 1, run);
      RegisteredStep(worlds[k - 1], events[k - 1], run);
      SinceNext(events, k - 1, LooksUp(run), Unregistering(run));
      assert worlds[k - 1 + 1] == Step(worlds[k - 1], events[k - 1]);
    }
  }

  // No two runs share a hub.
  lemma {:induction false} RunsShareNoHub(events: seq<Event>, worlds: seq<World>, k: nat)
    requires IsRun(events, worlds) && k < |worlds|
    ensures forall run :: run in worlds[k].runs ==> worlds[k].runs[run] < |worlds[k].hubs|
    ensures forall run, other :: run in worlds[k].runs && other in worlds[k].runs && run != other
                                 ==> worlds[k].runs[run] != worlds[k].runs[other]
  {
    if k > 0 {
      RunsShareNoHub(events, worlds, k - 1);
      assert worlds[k - 1 + 1] == Step(worlds[k - 1], events[k - 1]);
    }
  }
}
