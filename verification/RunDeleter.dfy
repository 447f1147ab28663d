/**
The deletion queue: requests mark runs in the index and wake a worker through a one-slot channel; the
worker lists the queue and deletes run by run, storage first, then the index rows.

The index and the storage tell runs apart by discovery path and run id. Requests, error notes and the row
delete go by the run id alone, so they reach every path that has the id.

The class has the code with nothing else happening meanwhile, RunDeleterRuns all interleavings.
*/
module RunDeleter {
  import opened Wrappers

  type RunId = string

  datatype RunKey = RunKey(path: string, id: RunId)

  datatype DeletionError = NoError | StorageFailed | IndexFailed

  // pk is the row's primary key.
  datatype Row = Row(pk: nat, queuedAt: Option<int>, running: bool, error: DeletionError)

  type Index = map<RunKey, Row>

  predicate Indexed(rows: Index, id: RunId) { exists k :: k in rows && k.id == id }

  // No two paths have a run of the same id.
  ghost predicate UniqueIds(rows: Index) { forall j, k :: j in rows && k in rows && j.id == k.id ==> j == k }

  /* Marking. */

  predicate Waits(row: Row) { row.queuedAt.None? && !row.running }

  predicate IsFirst(rows: Index, key: RunKey)
    requires key in rows
  {
    forall k :: k in rows && k.id == key.id ==> rows[key].pk <= rows[k].pk
  }

  // MarkRunForDeletion succeeds when it can queue a row, and otherwise if the id's first row is queued already.
  predicate Markable(rows: Index, id: RunId) {
    exists k :: k in rows && k.id == id && (Waits(rows[k]) || (IsFirst(rows, k) && rows[k].queuedAt.Some?))
  }

  function Marked(rows: Index, id: RunId, now: int): Index {
    map k | k in rows :: if k.id == id && Waits(rows[k]) then rows[k].(queuedAt := Some(now), error := NoError) else rows[k]
  }

  function Unmarked(rows: Index, id: RunId): Index {
    map k | k in rows :: if k.id == id && rows[k].queuedAt.Some? then rows[k].(queuedAt := None, error := NoError) else rows[k]
  }

  // The index after marking some ids, where the database fails for some of them.
  function MarkedAll(rows: Index, ids: seq<RunId>, works: nat -> bool, now: int): Index {
    if ids == [] then rows
    else
      var n := |ids| - 1;
      var before := MarkedAll(rows, ids[..n], works, now);
      if works(n) then Marked(before, ids[n], now) else before
  }

  // The ids whose marking fails: each finds the index as the ones before it left it.
  function Refused(rows: Index, ids: seq<RunId>, works: nat -> bool, now: int): seq<RunId> {
    if ids == [] then []
    else
      var n := |ids| - 1;
      Refused(rows, ids[..n], works, now)
      + (if works(n) && Markable(MarkedAll(rows, ids[..n], works, now), ids[n]) then [] else [ids[n]])
  }

  predicate DistinctKeys(rows: Index) { forall j, k :: j in rows && k in rows && rows[j].pk == rows[k].pk ==> j == k }

  // The first row of the id, in the order of the primary keys, is still running and not queued.
  predicate FirstStillRuns(rows: Index, id: RunId) {
    exists k :: k in rows && k.id == id && IsFirst(rows, k) && rows[k].queuedAt.None? && rows[k].running
  }

  lemma {:induction false} FirstExists(rows: Index, id: RunId, among: set<RunKey>) returns (first: RunKey)
    requires among != {} && forall k :: k in among ==> k in rows && k.id == id
    ensures first in among && forall k :: k in among ==> rows[first].pk <= rows[k].pk
  {
    var one :| one in among;
    first := one;
    if among != {one} {
      var best := FirstExists(rows, id, among - {one});
      if rows[best].pk < rows[one].pk {
        first := best;
      }
    }
  }

  lemma {:induction false} FirstOfId(rows: Index, id: RunId) returns (first: RunKey)
    requires Indexed(rows, id)
    ensures first in rows && first.id == id && IsFirst(rows, first)
  {
    var one :| one in rows && one.id == id;
    var among := set k | k in rows && k.id == id;
    assert one in among;
    first := FirstExists(rows, id, among);
    forall k | k in rows && k.id == first.id ensures rows[first].pk <= rows[k].pk {
      assert k in among;
    }
  }

  lemma {:induction false} FirstIsOne(rows: Index, j: RunKey, k: RunKey)
    requires DistinctKeys(rows) && j in rows && k in rows && j.id == k.id && IsFirst(rows, j) && IsFirst(rows, k)
    ensures j == k
  {
    assert rows[j].pk <= rows[k].pk && rows[k].pk <= rows[j].pk;
  }

  // Marking an id that was marked before is accepted exactly when its first row is not still running.
  lemma {:induction false} MarkableAgainIff(rows: Index, id: RunId, now: int)
    requires DistinctKeys(rows) && Indexed(rows, id)
    ensures Markable(Marked(rows, id, now), id) <==> !FirstStillRuns(rows, id)
  {
    var first := FirstOfId(rows, id);
    FirstDecides(rows, id, first);
    MarkedFirst(rows, id, now, first);
  }

  lemma {:induction false} FirstDecides(rows: Index, id: RunId, first: RunKey)
    requires DistinctKeys(rows) && first in rows && first.id == id && IsFirst(rows, first)
    ensures FirstStillRuns(rows, id) <==> rows[first].queuedAt.None? && rows[first].running
  {
    if k :| k in rows && k.id == id && IsFirst(rows, k) && rows[k].queuedAt.None? && rows[k].running {
      FirstIsOne(rows, first, k);
    }
  }

  lemma {:induction false} MarkedFirst(rows: Index, id: RunId, now: int, first: RunKey)
    requires DistinctKeys(rows) && first in rows && first.id == id && IsFirst(rows, first)
    ensures Markable(Marked(rows, id, now), id) <==> !(rows[first].queuedAt.None? && rows[first].running)
  {
    var after := Marked(rows, id, now);
    assert IsFirst(after, first);
    if Markable(after, id) {
      var k :| k in after && k.id == id && (Waits(after[k]) || (IsFirst(after, k) && after[k].queuedAt.Some?));
      assert IsFirst(rows, k);
      FirstIsOne(rows, first, k);
    }
  }

  // Marking looks at, and changes, rows of the id alone.
  ghost predicate SameOfId(a: Index, b: Index, id: RunId) {
    a.Keys == b.Keys && forall k :: k in a && k.id == id ==> a[k] == b[k]
  }

  lemma {:induction false} MarkableByOwnRows(a: Index, b: Index, id: RunId)
    requires SameOfId(a, b, id) && Markable(a, id)
    ensures Markable(b, id)
  {
    var k :| k in a && k.id == id && (Waits(a[k]) || (IsFirst(a, k) && a[k].queuedAt.Some?));
    assert IsFirst(a, k) ==> IsFirst(b, k);
  }

  // The id was named, and the database did its part, among the first i of the request.
  ghost predicate NamedBefore(ids: seq<RunId>, works: nat -> bool, i: nat, id: RunId)
    requires i <= |ids|
  {
    exists j :: 0 <= j < i && ids[j] == id && works(j)
  }

  // However often the id was named before, its rows are those of one mark.
  lemma {:induction false} MarksOfOneId(rows: Index, ids: seq<RunId>, works: nat -> bool, now: int, i: nat, id: RunId)
    requires i <= |ids|
    ensures SameOfId(MarkedAll(rows, ids[..i], works, now), if NamedBefore(ids, works, i, id) then Marked(rows, id, now) else rows, id)
  {
    if i > 0 {
      MarksOfOneId(rows, ids, works, now, i - 1, id);
      assert ids[..i][..i - 1] == ids[..i - 1];
      if NamedBefore(ids, works, i, id) && !NamedBefore(ids, works, i - 1, id) {
        var j :| 0 <= j < i && ids[j] == id && works(j);
        assert j == i - 1;
      }
      if NamedBefore(ids, works, i - 1, id) {
        var j :| 0 <= j < i - 1 && ids[j] == id && works(j);
      }
      if ids[i - 1] == id && works(i - 1) {
        assert NamedBefore(ids, works, i, id);
      }
    }
  }

  ghost predicate RefusedAt(rows: Index, ids: seq<RunId>, works: nat -> bool, now: int, i: nat)
    requires i < |ids|
  {
    !(works(i) && Markable(MarkedAll(rows, ids[..i], works, now), ids[i]))
  }

  // The i-th mention is refused exactly when the database fails, or the id cannot be marked from the start, or
  // it was named before and its first row is still running.
  lemma {:induction false} RefusedIff(rows: Index, ids: seq<RunId>, works: nat -> bool, now: int, i: nat)
    requires DistinctKeys(rows) && i < |ids|
    ensures RefusedAt(rows, ids, works, now, i) <==>
            !works(i) || !Markable(rows, ids[i]) || (NamedBefore(ids, works, i, ids[i]) && FirstStillRuns(rows, ids[i]))
  {
    var id := ids[i];
    var state := MarkedAll(rows, ids[..i], works, now);
    MarksOfOneId(rows, ids, works, now, i, id);
    var like := if NamedBefore(ids, works, i, id) then Marked(rows, id, now) else rows;
    if Markable(state, id) { MarkableByOwnRows(state, like, id); }
    if Markable(like, id) { MarkableByOwnRows(like, state, id); }
    if Indexed(rows, id) {
      MarkableAgainIff(rows, id, now);
      if !Markable(rows, id) { UnmarkableFirstRuns(rows, id); }
    }
  }

  lemma {:induction false} UnmarkableFirstRuns(rows: Index, id: RunId)
    requires Indexed(rows, id) && !Markable(rows, id)
    ensures FirstStillRuns(rows, id)
  {
    var first := FirstOfId(rows, id);
    assert !Waits(rows[first]);
  }

  // Marking is refused for exactly the ids that are not indexed, and those whose first row is still running
  // while no other row waits.
  lemma {:induction false} UnmarkableIff(rows: Index, id: RunId)
    requires DistinctKeys(rows)
    ensures !Markable(rows, id) <==>
            !Indexed(rows, id)
            || (FirstStillRuns(rows, id) && forall k :: k in rows && k.id == id ==> rows[k].queuedAt.Some? || rows[k].running)
  {
    if Indexed(rows, id) && !Markable(rows, id) {
      UnmarkableFirstRuns(rows, id);
      forall k | k in rows && k.id == id ensures rows[k].queuedAt.Some? || rows[k].running { assert !Waits(rows[k]); }
    }
    if k :| k in rows && k.id == id && (Waits(rows[k]) || (IsFirst(rows, k) && rows[k].queuedAt.Some?)) {
      if !Waits(rows[k]) {
        FirstDecides(rows, id, k);
      }
    }
  }

  // Where ids are unique, a run can be marked unless it is running and not queued.
  lemma {:induction false} MarkableWhenUnique(rows: Index, run: RunKey)
    requires UniqueIds(rows) && run in rows
    ensures Markable(rows, run.id) <==> rows[run].queuedAt.Some? || !rows[run].running
  {
    assert IsFirst(rows, run);
  }

  // A mark leaves out the rows that are queued already or still running, and gives the others their place.
  ghost predicate Queued(before: Row, now: int, after: Row) {
    if before.queuedAt.Some? || before.running then after == before
    else after.pk == before.pk && after.queuedAt == Some(now) && !after.running && after.error == NoError
  }

  // After a request every row is as it was, or queued by it.
  ghost predicate QueuedByRequest(rows: Index, ids: seq<RunId>, works: nat -> bool, now: int, after: Index) {
    && after.Keys == rows.Keys
    && forall k :: k in rows ==>
         if NamedBefore(ids, works, |ids|, k.id) then Queued(rows[k], now, after[k]) else after[k] == rows[k]
  }

  lemma {:induction false} MarkedAllQueues(rows: Index, ids: seq<RunId>, works: nat -> bool, now: int)
    ensures QueuedByRequest(rows, ids, works, now, MarkedAll(rows, ids, works, now))
  {
    MarksOfOneId(rows, ids, works, now, |ids|, "");
    assert ids[..|ids|] == ids;
    forall k | k in rows
      ensures if NamedBefore(ids, works, |ids|, k.id) then Queued(rows[k], now, MarkedAll(rows, ids, works, now)[k])
              else MarkedAll(rows, ids, works, now)[k] == rows[k]
    {
      MarksOfOneId(rows, ids, works, now, |ids|, k.id);
    }
  }

  // An unmark takes back the mark that queued the rows.
  lemma {:induction false} UnmarkUndoesMark(rows: Index, id: RunId, now: int)
    requires forall k :: k in rows && k.id == id ==> rows[k].queuedAt.None? && rows[k].error == NoError
    ensures Unmarked(Marked(rows, id, now), id) == rows
  {
    var back := Unmarked(Marked(rows, id, now), id);
    forall k | k in rows ensures back[k] == rows[k] {}
  }

  ghost predicate RefusedSomewhere(rows: Index, ids: seq<RunId>, works: nat -> bool, now: int, id: RunId) {
    exists i :: 0 <= i < |ids| && ids[i] == id && RefusedAt(rows, ids, works, now, i)
  }

  // The ids a request reports as refused.
  lemma {:induction false} RefusedMembers(rows: Index, ids: seq<RunId>, works: nat -> bool, now: int, id: RunId)
    ensures id in Refused(rows, ids, works, now) <==> RefusedSomewhere(rows, ids, works, now, id)
  {
    if ids != [] {
      RefusedMembers(rows, ids[..|ids| - 1], works, now, id);
      RefusedByLast(rows, ids, works, now, id);
    }
  }

  lemma {:induction false} RefusedByLast(rows: Index, ids: seq<RunId>, works: nat -> bool, now: int, id: RunId)
    requires ids != []
    ensures var n := |ids| - 1;
            RefusedSomewhere(rows, ids, works, now, id) <==>
            RefusedSomewhere(rows, ids[..n], works, now, id) || (ids[n] == id && RefusedAt(rows, ids, works, now, n))
  {
    var n := |ids| - 1;
    if RefusedSomewhere(rows, ids, works, now, id) {
      var i :| 0 <= i < |ids| && ids[i] == id && RefusedAt(rows, ids, works, now, i);
      if i < n {
        RefusedEarlier(rows, ids, works, now, i);
      }
    }
    if RefusedSomewhere(rows, ids[..n], works, now, id) {
      var i :| 0 <= i < n && ids[..n][i] == id && RefusedAt(rows, ids[..n], works, now, i);
      RefusedEarlier(rows, ids, works, now, i);
    }
  }

  lemma {:induction false} RefusedEarlier(rows: Index, ids: seq<RunId>, works: nat -> bool, now: int, i: nat)
    requires i < |ids| - 1
    ensures ids[..|ids| - 1][i] == ids[i]
    ensures RefusedAt(rows, ids[..|ids| - 1], works, now, i) == RefusedAt(rows, ids, works, now, i)
  {
    assert ids[..|ids| - 1][..i] == ids[..i];
  }

  // In a request that names no id twice, exactly the ids that could not be marked from the start are refused.
  lemma {:induction false} RefusedAreUnmarkable(rows: Index, ids: seq<RunId>, works: nat -> bool, now: int, id: RunId)
    requires DistinctKeys(rows)
    requires (forall i, j :: 0 <= i < j < |ids| ==> ids[i] != ids[j]) && forall k :: works(k)
    ensures id in Refused(rows, ids, works, now) <==> id in ids && !Markable(rows, id)
  {
    RefusedMembers(rows, ids, works, now, id);
    forall i | 0 <= i < |ids| ensures RefusedAt(rows, ids, works, now, i) <==> !Markable(rows, ids[i]) {
      RefusedIff(rows, ids, works, now, i);
    }
  }

  // Naming an accepted id twice gets it refused exactly when its first row is still running.
  lemma {:induction false} SecondMentionRefused(rows: Index, id: RunId, works: nat -> bool, now: int)
    requires DistinctKeys(rows) && Markable(rows, id) && forall k :: works(k)
    ensures Refused(rows, [id, id], works, now) == if FirstStillRuns(rows, id) then [id] else []
  {
    var ids := [id, id];
    RefusedIff(rows, ids, works, now, 0);
    RefusedIff(rows, ids, works, now, 1);
    assert ids[0] == id && works(0) && NamedBefore(ids, works, 1, id);
    assert ids[..1] == [id] && ids[..0] == [id][..0] == [];
    assert Refused(rows, [id], works, now) == [];
  }

  // That takes no more than two paths with one id, the earlier row still running.
  lemma {:induction false} TwoPathsRefuse(early: RunKey, late: RunKey, works: nat -> bool, now: int)
    requires early != late && early.id == late.id && forall k :: works(k)
    ensures var rows := map[early := Row(0, None, true, NoError), late := Row(1, None, false, NoError)];
            Markable(rows, early.id) && Refused(rows, [early.id, early.id], works, now) == [early.id]
  {
    var rows := map[early := Row(0, None, true, NoError), late := Row(1, None, false, NoError)];
    assert late in rows && Waits(rows[late]) && early in rows && IsFirst(rows, early);
    SecondMentionRefused(rows, early.id, works, now);
  }

  /* Deleting. */

  // What ListRunsPendingDeletion returns: every queued row, longest queued first, the primary key breaking ties.
  ghost predicate IsQueue(queue: seq<RunKey>, rows: Index) {
    && (forall k :: k in queue <==> k in rows && rows[k].queuedAt.Some?)
    && (forall i, j :: 0 <= i < j < |queue| ==> queue[i] != queue[j])
    && (forall i, j :: 0 <= i < j < |queue| && queue[i] in rows && queue[j] in rows ==> NotLater(rows[queue[i]], rows[queue[j]]))
  }

  predicate NotLater(a: Row, b: Row) {
    a.queuedAt.Some? && b.queuedAt.Some? ==>
      a.queuedAt.value < b.queuedAt.value || (a.queuedAt.value == b.queuedAt.value && a.pk <= b.pk)
  }

  // DeleteRunCascade goes by the run id.
  function WithoutId(rows: Index, id: RunId): Index { map k | k in rows && k.id != id :: rows[k] }

  function Noted(rows: Index, id: RunId, error: DeletionError): Index {
    map k | k in rows :: if k.id == id then rows[k].(error := error) else rows[k]
  }

  // The k-th operation meets the k-th answer.
  datatype Environment = Environment(storageDeletes: nat -> bool, rowDeletes: nat -> bool, records: nat -> bool, cancelled: nat -> bool)

  // Recording an error goes wrong with the environment, and is left out on a shutdown.
  function NotedAt(env: Environment, clock: nat, rows: Index, id: RunId, error: DeletionError): Index {
    if !env.cancelled(clock) && env.records(clock) then Noted(rows, id, error) else rows
  }

  ghost predicate Undisturbed(env: Environment) { forall k :: !env.cancelled(k) }

  ghost predicate AllDeletesWork(env: Environment) { forall k :: env.storageDeletes(k) && env.rowDeletes(k) }

  ghost predicate AllErrorsRecorded(env: Environment) { forall k :: env.records(k) }

  // One attempt at a run deletes its objects and every row of its id, or leaves the rows and their places
  // in the queue.
  ghost predicate Attempted(run: RunKey, rows: Index, storage: set<RunKey>, rows': Index, storage': set<RunKey>) {
    || (rows' == WithoutId(rows, run.id) && storage' == storage - {run})
    || ((storage' == storage || storage' == storage - {run}) && (rows' == rows || exists error :: rows' == Noted(rows, run.id, error)))
  }

  ghost predicate Reaches(runs: seq<RunKey>, key: RunKey) { exists i :: 0 <= i < |runs| && runs[i].id == key.id }

  // A run of runs that shares key's id and has no objects left.
  ghost predicate Cleared(runs: seq<RunKey>, key: RunKey, storage: set<RunKey>) {
    exists i :: 0 <= i < |runs| && runs[i].id == key.id && runs[i] !in storage
  }

  // What a pass over some runs may have done: objects of those runs only, rows of their ids only, and none
  // of these without the objects of one of the runs; on the rows left no more than an error.
  ghost predicate PassOver(runs: seq<RunKey>, rows: Index, storage: set<RunKey>, rows': Index, storage': set<RunKey>) {
    && rows'.Keys <= rows.Keys && storage' <= storage
    && (forall k :: k in rows && k !in rows' ==> Cleared(runs, k, storage'))
    && (forall k :: k in storage && k !in storage' ==> k in runs)
    && (forall k :: k in rows' ==> rows'[k] == if Reaches(runs, k) then rows[k].(error := rows'[k].error) else rows[k])
  }

  lemma {:induction false} PassOneMore(runs: seq<RunKey>, run: RunKey, rows: Index, storage: set<RunKey>,
                                       rows': Index, storage': set<RunKey>, rows'': Index, storage'': set<RunKey>)
    requires PassOver(runs, rows, storage, rows', storage') && Attempted(run, rows', storage', rows'', storage'')
    ensures PassOver(runs + [run], rows, storage, rows'', storage'')
  {
    var more := runs + [run];
    forall k | k in rows && k !in rows'' ensures Cleared(more, k, storage'') {
      if k !in rows' {
        var i :| 0 <= i < |runs| && runs[i].id == k.id && runs[i] !in storage';
        assert more[i] == runs[i];
      } else {
        assert more[|runs|].id == k.id;
      }
    }
    forall k | k in rows'' ensures rows''[k] == if Reaches(more, k) then rows[k].(error := rows''[k].error) else rows[k] {
      if Reaches(runs, k) {
        var i :| 0 <= i < |runs| && runs[i].id == k.id;
        assert more[i] == runs[i];
      } else if k.id == run.id {
        assert more[|runs|].id == k.id;
      }
    }
  }

  ghost predicate AllGone(runs: seq<RunKey>, rows: Index, storage: set<RunKey>) {
    forall k :: k in runs ==> k !in rows && k !in storage
  }

  // Every row of the id has an error.
  ghost predicate Flagged(rows: Index, id: RunId) { forall k :: k in rows && k.id == id ==> rows[k].error != NoError }

  ghost predicate AllFlagged(runs: seq<RunKey>, rows: Index) { forall k :: k in runs ==> Flagged(rows, k.id) }

  lemma {:induction false} GoneOneMore(runs: seq<RunKey>, run: RunKey, rows: Index, storage: set<RunKey>)
    requires AllGone(runs, rows, storage)
    ensures AllGone(runs + [run], WithoutId(rows, run.id), storage - {run})
  {
  }

  lemma {:induction false} FlaggedOneMore(runs: seq<RunKey>, run: RunKey, rows: Index, storage: set<RunKey>, rows': Index, storage': set<RunKey>)
    requires AllFlagged(runs, rows) && Attempted(run, rows, storage, rows', storage') && Flagged(rows', run.id)
    ensures AllFlagged(runs + [run], rows')
  {
    forall k | k in runs + [run] ensures Flagged(rows', k.id) {
      if k.id != run.id {
        assert k in runs && Flagged(rows, k.id);
      }
    }
  }

  // With unique ids a pass removes no row without its own objects, and only rows of the queue.
  lemma {:induction false} UniqueIdsGoLast(runs: seq<RunKey>, rows: Index, storage: set<RunKey>, rows': Index, storage': set<RunKey>, key: RunKey)
    requires PassOver(runs, rows, storage, rows', storage') && UniqueIds(rows)
    requires forall k :: k in runs ==> k in rows
    requires key in rows && key !in rows'
    ensures key in runs && key !in storage'
  {
    var i :| 0 <= i < |runs| && runs[i].id == key.id && runs[i] !in storage';
    assert runs[i] in runs;
  }

  class Server {
    const env: Environment
    var rows: Index
    var storage: set<RunKey>  // runs that have objects
    var kick: bool            // the channel's one slot is taken
    var clock: nat

    constructor (env: Environment, rows: Index, storage: set<RunKey>)
      ensures this.env == env && this.rows == rows && this.storage == storage && !kick
    {
      this.env, this.rows, this.storage, kick, clock := env, rows, storage, false, 0;
    }

    method KickRunDeleter()
      modifies `kick
      ensures kick
    {
      if !kick {
        kick := true;
      }
    }

    // handleDeleteRuns, past its checks of the request; works(i) says whether the database does for the i-th id.
    method HandleDeleteRuns(ids: seq<RunId>, works: nat -> bool, now: int) returns (queued: nat, errors: seq<RunId>)
      modifies `rows, `kick
      ensures rows == MarkedAll(old(rows), ids, works, now)
      ensures QueuedByRequest(old(rows), ids, works, now, rows)
      ensures errors == Refused(old(rows), ids, works, now) && queued == |ids| - |errors|
      ensures kick == (old(kick) || queued > 0)
    {
      queued, errors := 0, [];
      var i := 0;
      while i < |ids|
        invariant 0 <= i <= |ids| && queued + |errors| == i && kick == old(kick)
        invariant rows == MarkedAll(old(rows), ids[..i], works, now)
        invariant errors == Refused(old(rows), ids[..i], works, now)
      {
        assert ids[..i + 1][..i] == ids[..i];
        if works(i) && Markable(rows, ids[i]) {
          queued := queued + 1;
        } else {
          errors := errors + [ids[i]];
        }
        if works(i) {
          rows := Marked(rows, ids[i], now);
        }
        i := i + 1;
      }
      assert ids[..i] == ids;
      MarkedAllQueues(old(rows), ids, works, now);
      if queued > 0 {
        KickRunDeleter();
      }
    }

    method RecordDeletionError(id: RunId, error: DeletionError)
      modifies `rows, `clock
      ensures rows == NotedAt(env, old(clock), old(rows), id, error)
      ensures clock == old(clock) + 1
    {
      if !env.cancelled(clock) && env.records(clock) {
        rows := Noted(rows, id, error);
      }
      clock := clock + 1;
    }

    method DeleteQueuedRun(run: RunKey)
      modifies `rows, `storage, `clock
      ensures Attempted(run, old(rows), old(storage), rows, storage)
      ensures AllDeletesWork(env) ==> rows == WithoutId(old(rows), run.id) && storage == old(storage) - {run}
      ensures Undisturbed(env) && AllErrorsRecorded(env) ==> Flagged(rows, run.id)
      ensures !env.storageDeletes(old(clock)) ==>
                storage == old(storage) && rows == NotedAt(env, old(clock) + 1, old(rows), run.id, StorageFailed)
      ensures env.storageDeletes(old(clock)) ==> storage == old(storage) - {run}
      ensures env.storageDeletes(old(clock)) && !env.rowDeletes(old(clock) + 1) ==>
                rows == NotedAt(env, old(clock) + 2, old(rows), run.id, IndexFailed)
      ensures env.storageDeletes(old(clock)) && env.rowDeletes(old(clock) + 1) ==> rows == WithoutId(old(rows), run.id)
    {
      var ok := env.storageDeletes(clock);
      clock := clock + 1;
      if !ok {
        RecordDeletionError(run.id, StorageFailed);
        return;
      }
      storage := storage - {run};
      ok := env.rowDeletes(clock) && Indexed(rows, run.id);
      clock := clock + 1;
      if !ok {
        RecordDeletionError(run.id, IndexFailed);
        assert !Indexed(old(rows), run.id) ==> Noted(old(rows), run.id, IndexFailed) == old(rows) == WithoutId(old(rows), run.id);
        return;
      }
      rows := WithoutId(rows, run.id);
    }

    // One turn of the loop, after the runs done so far.
    method DeleteNext(ghost runs: seq<RunKey>, run: RunKey, ghost rows0: Index, ghost storage0: set<RunKey>)
      requires PassOver(runs, rows0, storage0, rows, storage)
      modifies `rows, `storage, `clock
      ensures PassOver(runs + [run], rows0, storage0, rows, storage)
      ensures AllDeletesWork(env) && AllGone(runs, old(rows), old(storage)) ==> AllGone(runs + [run], rows, storage)
      ensures Undisturbed(env) && AllErrorsRecorded(env) && AllFlagged(runs, old(rows)) ==> AllFlagged(runs + [run], rows)
    {
      DeleteQueuedRun(run);
      PassOneMore(runs, run, rows0, storage0, old(rows), old(storage), rows, storage);
      if AllDeletesWork(env) && AllGone(runs, old(rows), old(storage)) {
        GoneOneMore(runs, run, old(rows), old(storage));
      }
      if Undisturbed(env) && AllErrorsRecorded(env) && AllFlagged(runs, old(rows)) {
        FlaggedOneMore(runs, run, old(rows), old(storage), rows, storage);
      }
    }

    // queue is what the listing returned, None if it failed; done says how far down the queue the pass came.
    method DrainDeletionQueue(queue: Option<seq<RunKey>>) returns (ghost done: nat)
      requires queue.Some? ==> IsQueue(queue.value, rows)
      modifies `rows, `storage, `clock
      ensures queue.None? ==> rows == old(rows) && storage == old(storage)
      ensures queue.Some? ==> done <= |queue.value| && PassOver(queue.value[..done], old(rows), old(storage), rows, storage)
      ensures queue.Some? && Undisturbed(env) ==> done == |queue.value|
      ensures queue.Some? && AllDeletesWork(env) ==> AllGone(queue.value[..done], rows, storage)
      ensures queue.Some? && Undisturbed(env) && AllErrorsRecorded(env) ==> AllFlagged(queue.value, rows)
    {
      done := 0;
      if queue.None? {
        return;
      }
      var runs := queue.value;
      var i := 0;
      while i < |runs|
        invariant done == i <= |runs|
        invariant PassOver(runs[..i], old(rows), old(storage), rows, storage)
        invariant AllDeletesWork(env) ==> AllGone(runs[..i], rows, storage)
        invariant Undisturbed(env) && AllErrorsRecorded(env) ==> AllFlagged(runs[..i], rows)
      {
        if env.cancelled(clock) {
          return;
        }
        assert runs[..i + 1] == runs[..i] + [runs[i]];
        DeleteNext(runs[..i], runs[i], old(rows), old(storage));
        i := i + 1;
        done := i;
      }
      assert runs[..i] == runs;
    }
  }
}
