/**
All interleavings of the deletion worker with the requests that mark and unmark runs, the indexer, the
ticker and a shutdown. Every listing, every storage delete and every row delete may fail.
*/
module RunDeleterRuns {
  import opened Wrappers
  import opened History
  import opened RunDeleter

  // Where the worker is. Listing: about to list the queue. Removing: the objects of run are deleted, the
  // rows of its id are not yet.
  datatype Worker = Listing | Draining(todo: seq<RunKey>) | Removing(run: RunKey, todo: seq<RunKey>) | Parked | Exited

  // marked: the rows each request has marked and not kicked for yet. waiting: marked and kicked, and not
  // listed since. The last two fields are history; the code does not have them.
  datatype World = World(rows: Index, storage: set<RunKey>, worker: Worker, kick: bool, cancelled: bool,
                         marked: map<nat, set<RunKey>>, waiting: set<RunKey>, listFailed: bool)

  // The worker starts with a pass of its own.
  predicate IsInitial(w: World) {
    w.worker == Listing && !w.kick && !w.cancelled && w.marked == map[] && w.waiting == {} && !w.listFailed
  }

  datatype Event =
    | Mark(request: nat, id: RunId, now: int) | Kick(request: nat)
    | Unmark(id: RunId) | Upsert(run: RunKey, pk: nat, running: bool) | Upload(run: RunKey) | Cancel
    | Wake | Tick | ListOk(queue: seq<RunKey>) | ListFails
    | StorageOk | StorageFails(recorded: bool) | RowOk | RowFails(recorded: bool) | StopEarly | DrainEnds | Exit

  predicate ByWorker(e: Event) {
    e.Wake? || e.Tick? || e.ListOk? || e.ListFails? || e.StorageOk? || e.StorageFails? || e.RowOk? || e.RowFails?
    || e.StopEarly? || e.DrainEnds? || e.Exit?
  }

  ghost predicate Enabled(w: World, e: Event) {
    match e
    case Mark(_, id, _) => Markable(w.rows, id)
    case Kick(request) => request in w.marked
    case Wake => w.worker.Parked? && w.kick
    case Tick => w.worker.Parked?
    case ListOk(queue) => w.worker.Listing? && IsQueue(queue, w.rows)
    case ListFails => w.worker.Listing?
    case StorageOk => w.worker.Draining? && w.worker.todo != []
    case StorageFails(_) => w.worker.Draining? && w.worker.todo != []
    case RowOk => w.worker.Removing? && Indexed(w.rows, w.worker.run.id)
    case RowFails(_) => w.worker.Removing?
    case StopEarly => w.worker.Draining? && w.cancelled
    case DrainEnds => w.worker.Draining? && w.worker.todo == []
    case Exit => w.worker.Parked? && w.cancelled
    case _ => true
  }

  function MarkedBy(w: World, request: nat): set<RunKey> { if request in w.marked then w.marked[request] else {} }

  ghost function Step(w: World, e: Event): World
    requires Enabled(w, e)
  {
    match e
    case Mark(request, id, now) =>
      var rows := RunDeleter.Marked(w.rows, id, now);
      w.(rows := rows, marked := w.marked[request := MarkedBy(w, request) + QueuedRows(rows, id)])
    case Kick(request) =>
      w.(kick := true, waiting := w.waiting + w.marked[request], marked := w.marked - {request})
    case Unmark(id) => w.(rows := Unmarked(w.rows, id))
    case Upsert(run, pk, running) =>
      w.(rows := w.rows[run := if run in w.rows then w.rows[run].(running := running) else Row(pk, None, running, NoError)])
    case Upload(run) => w.(storage := w.storage + {run})
    case Cancel => w.(cancelled := true)
    case Wake => w.(kick := false, worker := Listing)
    case Tick => w.(worker := Listing)
    case ListOk(queue) => w.(worker := Draining(queue), waiting := {}, listFailed := false)
    case ListFails => w.(worker := Parked, listFailed := true)
    case StorageOk => w.(storage := w.storage - {w.worker.todo[0]}, worker := Removing(w.worker.todo[0], w.worker.todo[1..]))
    case StorageFails(recorded) => w.(rows := NotedIn(w, w.worker.todo[0].id, StorageFailed, recorded), worker := Draining(w.worker.todo[1..]))
    case RowOk => w.(rows := WithoutId(w.rows, w.worker.run.id), worker := Draining(w.worker.todo))
    case RowFails(recorded) => w.(rows := NotedIn(w, w.worker.run.id, IndexFailed, recorded), worker := Draining(w.worker.todo))
    case StopEarly => w.(worker := Parked)
    case DrainEnds => w.(worker := Parked)
    case Exit => w.(worker := Exited)
  }

  function QueuedRows(rows: Index, id: RunId): set<RunKey> { set k | k in rows && k.id == id && rows[k].queuedAt.Some? }

  // A deletion cut short by a shutdown is not recorded, and recording may fail.
  function NotedIn(w: World, id: RunId, error: DeletionError, recorded: bool): Index {
    if !w.cancelled && recorded then Noted(w.rows, id, error) else w.rows
  }

  ghost predicate IsRun(events: seq<Event>, worlds: seq<World>) {
    && |worlds| == |events| + 1 && IsInitial(worlds[0])
    && forall k :: 0 <= k < |events| ==> Follows(worlds[k], events[k], worlds[k + 1])
  }

  ghost predicate Follows(w: World, e: Event, w': World) { Enabled(w, e) && w' == Step(w, e) }

  // ----- No wake-up is lost -----

  // A run that waits to be listed has a wake-up on its way, unless the worker is gone or its last listing failed.
  predicate WakeupPending(w: World) {
    w.waiting != {} ==> w.kick || w.worker.Listing? || w.worker.Exited? || (w.worker.Parked? && w.listFailed)
  }

  lemma {:induction false} WakeupStaysPending(events: seq<Event>, worlds: seq<World>, k: nat)
    requires IsRun(events, worlds) && k < |worlds|
    ensures WakeupPending(worlds[k])
    ensures worlds[k].listFailed ==> exists j :: 0 <= j < k && events[j].ListFails?
  {
    if k > 0 {
      WakeupStaysPending(events, worlds, k - 1);
      assert Follows(worlds[k - 1], events[k - 1], worlds[k - 1 + 1]);
      if worlds[k].listFailed && !worlds[k - 1].listFailed {
        assert events[k - 1].ListFails?;
      }
    }
  }

  // A run stops waiting only by a listing.
  lemma {:induction false} WaitsUntilListed(events: seq<Event>, worlds: seq<World>, i: nat, k: nat, run: RunKey) returns (j: nat)
    requires IsRun(events, worlds) && i < k < |worlds|
    requires run in worlds[i].waiting && run !in worlds[k].waiting
    ensures i <= j < k && events[j].ListOk?
    decreases k
  {
    assert Follows(worlds[k - 1], events[k - 1], worlds[k - 1 + 1]);
    if run in worlds[k - 1].waiting {
      j := k - 1;
    } else {
      j := WaitsUntilListed(events, worlds, i, k - 1, run);
    }
  }

  ghost predicate AttemptsAt(w: World, e: Event, run: RunKey) {
    (e.StorageOk? || e.StorageFails?) && w.worker.Draining? && w.worker.todo != [] && w.worker.todo[0] == run
  }

  predicate OnTheList(w: World, run: RunKey) { (w.worker.Draining? || w.worker.Removing?) && run in w.worker.todo }

  // A pass leaves out no run of its list unless the server shuts down.
  lemma {:induction false} ListedIsAttempted(events: seq<Event>, worlds: seq<World>, i: nat, k: nat, run: RunKey) returns (j: nat)
    requires IsRun(events, worlds) && i < k < |worlds|
    requires OnTheList(worlds[i], run) && !OnTheList(worlds[k], run)
    requires forall m :: i <= m < k ==> !events[m].StopEarly?
    ensures i <= j < k && AttemptsAt(worlds[j], events[j], run)
    decreases k
  {
    assert Follows(worlds[k - 1], events[k - 1], worlds[k - 1 + 1]);
    if OnTheList(worlds[k - 1], run) {
      var todo := worlds[k - 1].worker.todo;
      assert todo == [todo[0]] + todo[1..];
      j := k - 1;
    } else {
      j := ListedIsAttempted(events, worlds, i, k - 1, run);
    }
  }

  lemma {:induction false} CancelStays(w: World, e: Event, w': World)
    requires Follows(w, e, w') && w.cancelled
    ensures w'.cancelled
  {
  }

  lemma {:induction false} StopNeedsCancel(events: seq<Event>, worlds: seq<World>, i: nat, k: nat)
    requires IsRun(events, worlds) && i <= k < |worlds| && worlds[i].cancelled
    ensures worlds[k].cancelled
    decreases k
  {
    if i < k {
      StopNeedsCancel(events, worlds, i, k - 1);
      CancelStays(worlds[k - 1], events[k - 1], worlds[k - 1 + 1]);
    }
  }

  // A request marks a run and kicks. Whenever the worker is parked again with nothing in the channel and
  // its last listing worked, a listing has happened after the kick; and if the run was still queued then,
  // its deletion was attempted, shutdown aside.
  lemma {:induction false} NoWakeupIsLost(events: seq<Event>, worlds: seq<World>, i: nat, k: nat, run: RunKey) returns (list: nat)
    requires IsRun(events, worlds) && i < k < |worlds|
    requires events[i].Kick? && run in MarkedBy(worlds[i], events[i].request)
    requires worlds[k].worker.Parked? && !worlds[k].kick && !worlds[k].listFailed
    ensures i < list < k && events[list].ListOk?
    ensures run in worlds[list].rows && worlds[list].rows[run].queuedAt.Some? && !worlds[k].cancelled ==>
              exists j :: list < j < k && AttemptsAt(worlds[j], events[j], run)
  {
    assert Follows(worlds[i], events[i], worlds[i + 1]);
    WakeupStaysPending(events, worlds, k);
    list := WaitsUntilListed(events, worlds, i + 1, k, run);
    assert Follows(worlds[list], events[list], worlds[list + 1]);
    if run in worlds[list].rows && worlds[list].rows[run].queuedAt.Some? && !worlds[k].cancelled {
      assert OnTheList(worlds[list + 1], run);
      forall m | list + 1 <= m < k ensures !events[m].StopEarly? {
        assert Follows(worlds[m], events[m], worlds[m + 1]);
        if worlds[m].cancelled { StopNeedsCancel(events, worlds, m, k); }
      }
      var j := ListedIsAttempted(events, worlds, list + 1, k, run);
    }
  }

  // Where listings never fail, a parked worker with an empty channel has nothing waiting.
  lemma {:induction false} ParkedMeansNothingWaits(events: seq<Event>, worlds: seq<World>, k: nat)
    requires IsRun(events, worlds) && k < |worlds| && forall j :: 0 <= j < |events| ==> !events[j].ListFails?
    requires worlds[k].worker.Parked? && !worlds[k].kick
    ensures worlds[k].waiting == {}
  {
    WakeupStaysPending(events, worlds, k);
  }

  // A failed listing does strand a kicked run, until the next tick.
  lemma {:induction false} FailedListingStrands(w0: World, run: RunKey) returns (events: seq<Event>, worlds: seq<World>)
    requires IsInitial(w0) && run in w0.rows && Waits(w0.rows[run])
    ensures IsRun(events, worlds)
    ensures var w := worlds[|worlds| - 1]; w.worker.Parked? && !w.kick && run in w.waiting && Enabled(w, Tick)
  {
    events := [Mark(0, run.id, 0), Kick(0), ListFails, Wake, ListFails];
    var w1 := Step(w0, events[0]);
    assert run in w1.rows && w1.rows[run].queuedAt.Some? && run in w1.marked[0];
    var w2 := Step(w1, events[1]);
    var w3 := Step(w2, events[2]);
    var w4 := Step(w3, events[3]);
    var w5 := Step(w4, events[4]);
    worlds := [w0, w1, w2, w3, w4, w5];
  }

  // ----- A row's place in the queue -----

  // The row is in the queue, at the place that its time and primary key give it.
  predicate HasPlace(w: World, row: RunKey, since: int, pk: nat) {
    row in w.rows && w.rows[row].queuedAt == Some(since) && w.rows[row].pk == pk
  }

  type Turn = Moment<World, Event>

  // A mark of the row's id that finds the row waiting.
  function GetsPlace(row: RunKey, since: int, pk: nat): Turn -> bool {
    (m: Turn) =>
      && m.event.Mark? && m.event.id == row.id && m.event.now == since
      && row in m.state.rows && m.state.rows[row].queuedAt.None? && !m.state.rows[row].running && m.state.rows[row].pk == pk
  }

  function LosesPlace(row: RunKey): Turn -> bool {
    (m: Turn) =>
      m.event == Unmark(row.id) || (m.event.RowOk? && m.state.worker.Removing? && m.state.worker.run.id == row.id)
  }

  lemma {:induction false} PlaceStep(w: World, e: Event, w': World, row: RunKey, since: int, pk: nat)
    requires Follows(w, e, w')
    ensures HasPlace(w', row, since, pk)
            <==> GetsPlace(row, since, pk)(Moment(w, e)) || (HasPlace(w, row, since, pk) && !LosesPlace(row)(Moment(w, e)))
  {
  }

  // Nothing among the first k steps took the row out of the queue.
  ghost predicate KeptFromStart(moments: seq<Turn>, k: nat, row: RunKey)
    requires k <= |moments|
  {
    forall m :: 0 <= m < k ==> !LosesPlace(row)(moments[m])
  }

  // A row has its place in the queue since the mark that found it waiting, or from the start: later marks
  // leave it there, and it loses it by an unmark or a row delete of its id alone.
  lemma {:induction false} PlaceIffMarked(events: seq<Event>, worlds: seq<World>, k: nat, row: RunKey, since: int, pk: nat)
    requires IsRun(events, worlds) && k < |worlds|
    ensures HasPlace(worlds[k], row, since, pk)
            <==> Since(Moments(events, worlds), k, GetsPlace(row, since, pk), LosesPlace(row))
                 || (HasPlace(worlds[0], row, since, pk) && KeptFromStart(Moments(events, worlds), k, row))
  {
    if k > 0 {
      PlaceIffMarked(events, worlds, k - 1, row, since, pk);
      PlaceNext(events, worlds, k - 1, row, since, pk);
      SinceNext(Moments(events, worlds), k - 1, GetsPlace(row, since, pk), LosesPlace(row));
    }
  }

  lemma {:induction false} PlaceNext(events: seq<Event>, worlds: seq<World>, k: nat, row: RunKey, since: int, pk: nat)
    requires IsRun(events, worlds) && k < |events|
    ensures var m := Moments(events, worlds)[k];
            HasPlace(worlds[k + 1], row, since, pk)
            <==> GetsPlace(row, since, pk)(m) || (HasPlace(worlds[k], row, since, pk) && !LosesPlace(row)(m))
  {
    PlaceStep(worlds[k], events[k], worlds[k + 1], row, since, pk);
  }

  // ----- What a row's error says -----

  // The error that the step gives the row, if it does.
  function NewError(m: Turn, row: RunKey): Option<DeletionError> {
    var w, e := m.state, m.event;
    match e
    case Mark(_, id, _) => if id == row.id && row in w.rows && Waits(w.rows[row]) then Some(NoError) else None
    case Unmark(id) => if id == row.id && row in w.rows && w.rows[row].queuedAt.Some? then Some(NoError) else None
    case Upsert(run, _, _) => if run == row && row !in w.rows then Some(NoError) else None
    case StorageFails(recorded) =>
      if w.worker.Draining? && w.worker.todo != [] && w.worker.todo[0].id == row.id && row in w.rows && recorded && !w.cancelled
      then Some(StorageFailed) else None
    case RowFails(recorded) =>
      if w.worker.Removing? && w.worker.run.id == row.id && row in w.rows && recorded && !w.cancelled
      then Some(IndexFailed) else None
    case _ => None
  }

  function Errs(row: RunKey, error: DeletionError): Turn -> bool { (m: Turn) => NewError(m, row) == Some(error) }

  function ErrsAnew(row: RunKey): Turn -> bool {
    (m: Turn) => NewError(m, row).Some? || (m.event.RowOk? && m.state.worker.Removing? && m.state.worker.run.id == row.id)
  }

  predicate HasError(w: World, row: RunKey, error: DeletionError) { row in w.rows && w.rows[row].error == error }

  lemma {:induction false} ErrorStep(w: World, e: Event, w': World, row: RunKey, error: DeletionError)
    requires Follows(w, e, w')
    ensures HasError(w', row, error) <==> Errs(row, error)(Moment(w, e)) || (HasError(w, row, error) && !ErrsAnew(row)(Moment(w, e)))
  {
  }

  // A row shows the failure of the last attempt at its id that could be recorded, until a mark queues the
  // row anew or an unmark takes it out of the queue.
  lemma {:induction false} ErrorIsLast(events: seq<Event>, worlds: seq<World>, k: nat, row: RunKey, error: DeletionError)
    requires IsRun(events, worlds) && k < |worlds| && row !in worlds[0].rows
    ensures HasError(worlds[k], row, error) <==> Since(Moments(events, worlds), k, Errs(row, error), ErrsAnew(row))
  {
    if k > 0 {
      ErrorIsLast(events, worlds, k - 1, row, error);
      ErrorNext(events, worlds, k - 1, row, error);
      SinceNext(Moments(events, worlds), k - 1, Errs(row, error), ErrsAnew(row));
    }
  }

  lemma {:induction false} ErrorNext(events: seq<Event>, worlds: seq<World>, k: nat, row: RunKey, error: DeletionError)
    requires IsRun(events, worlds) && k < |events|
    ensures var m := Moments(events, worlds)[k];
            HasError(worlds[k + 1], row, error) <==> Errs(row, error)(m) || (HasError(worlds[k], row, error) && !ErrsAnew(row)(m))
  {
    ErrorStep(worlds[k], events[k], worlds[k + 1], row, error);
  }

  // ----- First queued, first deleted -----

  predicate OnPass(w: World) { w.worker.Draining? || w.worker.Removing? }

  lemma {:induction false} TodoShrinks(w: World, e: Event, w': World)
    requires Follows(w, e, w') && OnPass(w') && !e.ListOk?
    ensures OnPass(w)
    ensures w'.worker.todo == w.worker.todo || (w.worker.todo != [] && w'.worker.todo == w.worker.todo[1..])
  {
  }

  lemma {:induction false} DropOneMore(todo: seq<RunKey>, done: nat)
    requires done < |todo|
    ensures todo[done..][1..] == todo[done + 1..]
  {
  }

  // Within a pass the list is worked off from its head.
  lemma {:induction false} TodoIsRest(events: seq<Event>, worlds: seq<World>, i: nat, m: nat) returns (done: nat)
    requires IsRun(events, worlds) && i <= m < |worlds| && OnPass(worlds[m])
    requires forall j :: i <= j < m ==> !events[j].ListOk?
    ensures OnPass(worlds[i]) && done <= |worlds[i].worker.todo| && worlds[m].worker.todo == worlds[i].worker.todo[done..]
    decreases m
  {
    done := 0;
    if i < m {
      TodoShrinks(worlds[m - 1], events[m - 1], worlds[m - 1 + 1]);
      done := TodoIsRest(events, worlds, i, m - 1);
      if worlds[m].worker.todo != worlds[m - 1].worker.todo {
        DropOneMore(worlds[i].worker.todo, done);
        done := done + 1;
      }
    }
  }

  // Within a pass, the run attempted earlier was queued earlier, or at the same time with a lower key.
  lemma {:induction false} OldestFirst(events: seq<Event>, worlds: seq<World>, list: nat, i: nat, j: nat, first: RunKey, second: RunKey)
    requires IsRun(events, worlds) && list < i < j < |events| && events[list].ListOk?
    requires forall m :: list < m < j ==> !events[m].ListOk?
    requires AttemptsAt(worlds[i], events[i], first) && AttemptsAt(worlds[j], events[j], second)
    ensures var rows := worlds[list].rows;
            && first in rows && rows[first].queuedAt.Some? && second in rows && rows[second].queuedAt.Some?
            && (rows[first].queuedAt.value < rows[second].queuedAt.value
                || (rows[first].queuedAt.value == rows[second].queuedAt.value && rows[first].pk <= rows[second].pk))
  {
    var queue := events[list].queue;
    assert Follows(worlds[list], events[list], worlds[list + 1]) && Follows(worlds[i], events[i], worlds[i + 1]);
    var a := TodoIsRest(events, worlds, list + 1, i);
    var b := TodoIsRest(events, worlds, i + 1, j);
    assert queue[a] == first && worlds[i + 1].worker.todo == queue[a..][1..] == queue[a + 1..];
    assert queue[a + 1..][b..] == queue[a + 1 + b..];
    assert queue[a + 1 + b] == second && first in queue && second in queue;
  }

  // ----- Storage first -----

  lemma {:induction false} ReachesRemoving(w: World, e: Event, w': World)
    requires Follows(w, e, w') && w'.worker.Removing?
    ensures if e.StorageOk? then w'.worker.run !in w'.storage else !ByWorker(e) && w.worker == w'.worker
  {
  }

  // Before a row is removed, the last thing the worker did was delete that run's objects.
  lemma {:induction false} RemovingFollowsStorage(events: seq<Event>, worlds: seq<World>, k: nat) returns (j: nat)
    requires IsRun(events, worlds) && k < |worlds| && worlds[k].worker.Removing?
    ensures j < k && events[j].StorageOk? && worlds[j + 1].worker == worlds[k].worker
    ensures worlds[k].worker.run !in worlds[j + 1].storage
    ensures forall m :: j < m < k ==> !ByWorker(events[m])
  {
    assert k > 0;
    ReachesRemoving(worlds[k - 1], events[k - 1], worlds[k - 1 + 1]);
    if events[k - 1].StorageOk? {
      j := k - 1;
    } else {
      j := RemovingFollowsStorage(events, worlds, k - 1);
    }
  }

  lemma {:induction false} StaysDeleted(events: seq<Event>, worlds: seq<World>, j: nat, k: nat, run: RunKey)
    requires IsRun(events, worlds) && j <= k < |worlds| && run !in worlds[j].storage
    requires forall m :: j <= m < k ==> events[m] != Upload(run)
    ensures run !in worlds[k].storage
    decreases k
  {
    if j < k {
      StaysDeleted(events, worlds, j, k - 1, run);
      assert Follows(worlds[k - 1], events[k - 1], worlds[k - 1 + 1]);
    }
  }

  // A row goes, and its own storage delete was the last thing the worker did.
  ghost predicate OwnDeleteJustBefore(events: seq<Event>, worlds: seq<World>, k: nat, row: RunKey)
    requires k < |events| && |worlds| == |events| + 1
  {
    exists j :: 0 <= j < k && AttemptsAt(worlds[j], events[j], row) && events[j].StorageOk? && QuietBetween(events, j, k)
  }

  // The worker did nothing in between.
  ghost predicate QuietBetween(events: seq<Event>, j: nat, k: nat)
    requires k <= |events|
  {
    forall m :: j < m < k ==> !ByWorker(events[m])
  }

  ghost predicate Leaves(w: World, w': World, row: RunKey) { row in w.rows && row !in w'.rows }

  // No other row has the run's id.
  ghost predicate Alone(rows: Index, run: RunKey) { forall k :: k in rows && k.id == run.id ==> k == run }

  // Rows leave by row deletes alone, and then all rows of the worker's run's id.
  lemma {:induction false} RowsLeaveById(w: World, e: Event, w': World, row: RunKey)
    requires Follows(w, e, w') && Leaves(w, w', row)
    ensures e.RowOk? && w.worker.Removing? && row.id == w.worker.run.id
  {
  }

  lemma {:induction false} LastDelete(events: seq<Event>, worlds: seq<World>, k: nat, row: RunKey)
    requires IsRun(events, worlds) && k < |events| && worlds[k].worker.Removing?
    ensures OwnDeleteJustBefore(events, worlds, k, row) <==> row == worlds[k].worker.run
  {
    var j := RemovingFollowsStorage(events, worlds, k);
    assert Follows(worlds[j], events[j], worlds[j + 1]);
    assert AttemptsAt(worlds[j], events[j], worlds[k].worker.run) && QuietBetween(events, j, k);
    if OwnDeleteJustBefore(events, worlds, k, row) {
      var i :| 0 <= i < k && AttemptsAt(worlds[i], events[i], row) && events[i].StorageOk? && QuietBetween(events, i, k);
      assert ByWorker(events[i]) && ByWorker(events[j]);
    }
  }

  // However deletions fail and whenever the server stops: at a row delete, every row that leaves the index
  // does so right after its own storage delete if and only if no other row shares the deleted run's id.
  lemma {:induction false} RowsGoLastIffAlone(events: seq<Event>, worlds: seq<World>, k: nat)
    requires IsRun(events, worlds) && k < |events| && events[k].RowOk?
    ensures worlds[k].worker.Removing?
    ensures (forall row :: Leaves(worlds[k], worlds[k + 1], row) ==> OwnDeleteJustBefore(events, worlds, k, row))
            <==> Alone(worlds[k].rows, worlds[k].worker.run)
  {
    var w, w' := worlds[k], worlds[k + 1];
    assert Follows(w, events[k], w');
    if Alone(w.rows, w.worker.run) {
      forall row | Leaves(w, w', row) ensures OwnDeleteJustBefore(events, worlds, k, row) {
        RowsLeaveById(w, events[k], w', row);
        LastDelete(events, worlds, k, row);
      }
    } else {
      var row :| row in w.rows && row.id == w.worker.run.id && row != w.worker.run;
      LastDelete(events, worlds, k, row);
      assert Leaves(w, w', row);
    }
  }

  // What the worker has yet to do is still indexed, each run once.
  ghost predicate WorkIsIndexed(w: World) {
    && (w.worker.Draining? || w.worker.Removing? ==>
          && (forall run :: run in w.worker.todo ==> run in w.rows)
          && (forall i, j :: 0 <= i < j < |w.worker.todo| ==> w.worker.todo[i] != w.worker.todo[j]))
    && (w.worker.Removing? ==> w.worker.run in w.rows && w.worker.run !in w.worker.todo)
  }

  lemma {:induction false} WorkStaysIndexed(w: World, e: Event, w': World)
    requires Follows(w, e, w') && UniqueIds(w.rows) && WorkIsIndexed(w)
    ensures WorkIsIndexed(w')
  {
    if e.StorageOk? || e.StorageFails? {
      var todo := w.worker.todo;
      assert todo[0] in todo && forall run :: run in todo[1..] ==> run in todo;
      forall i | 0 <= i < |todo[1..]| ensures todo[1..][i] != todo[0] { assert todo[1..][i] == todo[i + 1]; }
    }
  }

  lemma {:induction false} UniqueWorkIsIndexed(events: seq<Event>, worlds: seq<World>, k: nat)
    requires IsRun(events, worlds) && k < |worlds| && forall m :: 0 <= m < k ==> UniqueIds(worlds[m].rows)
    ensures WorkIsIndexed(worlds[k])
  {
    if k > 0 {
      UniqueWorkIsIndexed(events, worlds, k - 1);
      WorkStaysIndexed(worlds[k - 1], events[k - 1], worlds[k - 1 + 1]);
    }
  }

  // In particular, while no id is ever indexed under two paths: whatever step a row leaves at is a row
  // delete right after its own storage delete, and unless a runner uploaded the run anew since, it has no
  // objects left.
  lemma {:induction false} RowGoesLast(events: seq<Event>, worlds: seq<World>, k: nat, row: RunKey) returns (j: nat)
    requires IsRun(events, worlds) && k < |events| && forall m :: 0 <= m <= k ==> UniqueIds(worlds[m].rows)
    requires Leaves(worlds[k], worlds[k + 1], row)
    ensures events[k].RowOk?
    ensures j < k && events[j].StorageOk? && AttemptsAt(worlds[j], events[j], row) && QuietBetween(events, j, k)
    ensures (forall m :: j < m < k ==> events[m] != Upload(row)) ==> row !in worlds[k + 1].storage
  {
    assert Follows(worlds[k], events[k], worlds[k + 1]);
    RowsLeaveById(worlds[k], events[k], worlds[k + 1], row);
    UniqueWorkIsIndexed(events, worlds, k);
    assert row == worlds[k].worker.run;
    j := RemovingFollowsStorage(events, worlds, k);
    assert Follows(worlds[j], events[j], worlds[j + 1]);
    if forall m :: j < m < k ==> events[m] != Upload(row) {
      StaysDeleted(events, worlds, j + 1, k, row);
    }
  }

  // Two queued runs of one id: the first one's row delete takes the second one's row.
  lemma {:induction false} CascadeTakesBoth(deleted: RunKey, other: RunKey, w0: World)
    requires deleted.id == other.id && deleted != other
    requires w0 == World(map[deleted := Row(0, Some(0), false, NoError), other := Row(1, Some(1), false, NoError)],
                         {deleted, other}, Listing, false, false, map[], {}, false)
    ensures Follows(w0, ListOk([deleted, other]), w0.(worker := Draining([deleted, other])))
    ensures Follows(w0.(worker := Draining([deleted, other])), StorageOk, w0.(storage := {other}, worker := Removing(deleted, [other])))
    ensures Follows(w0.(storage := {other}, worker := Removing(deleted, [other])), RowOk,
                    w0.(rows := map[], storage := {other}, worker := Draining([other])))
  {
    var queue := [deleted, other];
    assert IsQueue(queue, w0.rows) && queue[1..] == [other];
    assert {deleted, other} - {deleted} == {other};
    assert deleted in w0.rows && WithoutId(w0.rows, deleted.id) == map[];
  }

  lemma {:induction false} OneMore(events: seq<Event>, worlds: seq<World>, e: Event, next: World) returns (longer: seq<World>)
    requires IsRun(events, worlds) && Follows(worlds[|worlds| - 1], e, next)
    ensures longer == worlds + [next] && IsRun(events + [e], longer)
  {
    longer := worlds + [next];
  }

  lemma {:induction false} CascadeRun(deleted: RunKey, other: RunKey) returns (worlds: seq<World>)
    requires deleted.id == other.id && deleted != other
    ensures IsRun([ListOk([deleted, other]), StorageOk, RowOk], worlds)
    ensures deleted in worlds[0].rows && other in worlds[0].rows
    ensures worlds[3] == World(map[], {other}, Draining([other]), false, false, map[], {}, false)
  {
    var w0 := World(map[deleted := Row(0, Some(0), false, NoError), other := Row(1, Some(1), false, NoError)],
                    {deleted, other}, Listing, false, false, map[], {}, false);
    CascadeTakesBoth(deleted, other, w0);
    worlds := [w0, w0.(worker := Draining([deleted, other])), w0.(storage := {other}, worker := Removing(deleted, [other])),
               w0.(rows := map[], storage := {other}, worker := Draining([other]))];
  }

  // And where one is: the row of the other path goes without a storage delete of its own, and a shutdown
  // leaves it so.
  lemma {:induction false} SharedIdLosesRow(deleted: RunKey, other: RunKey) returns (worlds: seq<World>)
    requires deleted.id == other.id && deleted != other
    ensures IsRun([ListOk([deleted, other]), StorageOk, RowOk] + [Cancel] + [StopEarly], worlds)
    ensures deleted in worlds[0].rows && other in worlds[0].rows
    ensures other !in worlds[5].rows && other in worlds[5].storage && worlds[5].worker == Parked && worlds[5].cancelled
  {
    worlds := CascadeRun(deleted, other);
    var events := [ListOk([deleted, other]), StorageOk, RowOk];
    var w := worlds[3].(cancelled := true);
    worlds := OneMore(events, worlds, Cancel, w);
    worlds := OneMore(events + [Cancel], worlds, StopEarly, w.(worker := Parked));
  }
}
