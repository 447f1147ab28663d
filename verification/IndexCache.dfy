/**
The cached /index response. The body is keyed by the store's runs generation, a counter the store bumps
after it commits a change to the runs table.

Requests, changes and bumps interleave freely. Commit and bump are two steps, as they are in the store,
and bumps may come in another order than their commits.
*/
module IndexCache {
  import opened Wrappers

  /* The response. */

  // The columns that the handler treats in a way of their own stand for all of them.
  datatype RunRow = RunRow(id: string, timestamp: int, steps: string, metadata: string, deletionRequestedAt: Option<int>)

  type Table = seq<RunRow>   // as a listing returns it

  datatype Entry = Entry(id: string, timestamp: int, steps: string, metadata: Option<string>, deletionRequestedAt: int)

  datatype Body = Body(generated: int, entries: seq<Entry>)

  function EntryOf(run: RunRow, validJson: string -> bool): Entry {
    Entry(run.id, run.timestamp,
          if run.steps != "" && validJson(run.steps) then run.steps else "{}",
          if run.metadata != "" && validJson(run.metadata) then Some(run.metadata) else None,
          if run.deletionRequestedAt.Some? then run.deletionRequestedAt.value else 0)
  }

  ghost predicate Shows(entries: seq<Entry>, runs: Table, validJson: string -> bool) {
    |entries| == |runs| && forall i :: 0 <= i < |runs| ==> entries[i] == EntryOf(runs[i], validJson)
  }

  // Nothing of the row is replaced by a default that another row may have too.
  predicate Plain(run: RunRow, validJson: string -> bool) {
    && run.steps != "" && validJson(run.steps)
    && (run.metadata == "" || validJson(run.metadata))
    && run.deletionRequestedAt != Some(0)
  }

  // The entries of plain rows say everything about them: a body shows one such table only.
  lemma {:induction false} PlainTablesShown(entries: seq<Entry>, runs: Table, others: Table, validJson: string -> bool)
    requires Shows(entries, runs, validJson) && Shows(entries, others, validJson)
    requires forall run :: run in runs + others ==> Plain(run, validJson)
    ensures runs == others
  {
    forall i | 0 <= i < |runs|
      ensures runs[i] == others[i]
    {
      var run, other := runs[i], others[i];
      assert run in runs + others && other in runs + others;
      assert entries[i] == EntryOf(run, validJson) == EntryOf(other, validJson);
    }
  }

  /* The cache. */

  datatype Cache = Cache(gen: nat, body: Option<Body>)

  function Lookup(c: Cache, gen: nat): Option<Body> { if c.gen == gen then c.body else None }

  function Store(c: Cache, gen: nat, body: Body): Cache {
    if c.body.None? || gen >= c.gen then Cache(gen, Some(body)) else c
  }

  class IndexServer {
    const validJson: string -> bool
    var indexCacheGen: nat
    var indexCacheBody: Option<Body>

    ghost function State(): Cache
      reads this
    {
      Cache(indexCacheGen, indexCacheBody)
    }

    constructor (validJson: string -> bool)
      ensures this.validJson == validJson && State() == Cache(0, None)
    {
      this.validJson := validJson;
      indexCacheGen, indexCacheBody := 0, None;
    }

    method CachedIndex(gen: nat) returns (body: Option<Body>)
      ensures body == Lookup(State(), gen)
    {
      if indexCacheBody.Some? && indexCacheGen == gen {
        return indexCacheBody;
      }
      return None;
    }

    method StoreCachedIndex(gen: nat, body: Body)
      modifies this
      ensures State() == Store(old(State()), gen, body)
    {
      if indexCacheBody.None? || gen >= indexCacheGen {
        indexCacheGen := gen;
        indexCacheBody := Some(body);
      }
    }

    method BuildBody(runs: Table, now: int) returns (body: Body)
      ensures body.generated == now && Shows(body.entries, runs, validJson)
      ensures |body.entries| == |runs|
      ensures forall i :: 0 <= i < |runs| ==> body.entries[i].id == runs[i].id && body.entries[i].timestamp == runs[i].timestamp
      ensures forall i :: 0 <= i < |runs| ==>
                var stored := runs[i].steps;
                body.entries[i].steps == if stored != "" && validJson(stored) then stored else "{}"
      ensures forall i :: 0 <= i < |runs| ==>
                var stored := runs[i].metadata;
                body.entries[i].metadata == if stored != "" && validJson(stored) then Some(stored) else None
      ensures forall i :: 0 <= i < |runs| ==>
                var stored := runs[i].deletionRequestedAt;
                body.entries[i].deletionRequestedAt == if stored.Some? then stored.value else 0
    {
      var entries: seq<Entry> := [];
      var i := 0;
      while i < |runs|
        invariant 0 <= i <= |runs| && Shows(entries, runs[..i], validJson)
      {
        var run := runs[i];
        var steps := run.steps;
        if |steps| == 0 || !validJson(steps) {
          steps := "{}";
        }
        var metadata := None;
        if run.metadata != "" && validJson(run.metadata) {
          metadata := Some(run.metadata);
        }
        var deletionRequestedAt := 0;
        if run.deletionRequestedAt.Some? {
          deletionRequestedAt := run.deletionRequestedAt.value;
        }
        entries := entries + [Entry(run.id, run.timestamp, steps, metadata, deletionRequestedAt)];
        i := i + 1;
      }
      assert runs[..i] == runs;
      return Body(now, entries);
    }

    // handleIndex with nothing else happening meanwhile; None is the error response.
    method HandleIndex(gen: nat, listed: Option<Table>, now: int) returns (response: Option<Body>)
      modifies this
      ensures var hit := Lookup(old(State()), gen);
        && (hit.Some? ==> response == hit && State() == old(State()))
        && (hit.None? && listed.None? ==> response == None && State() == old(State()))
        && (hit.None? && listed.Some? ==>
              && response.Some? && response.value.generated == now && Shows(response.value.entries, listed.value, validJson)
              && State() == Store(old(State()), gen, response.value))
      ensures old(indexCacheBody).Some? && old(indexCacheGen) == gen ==> response == old(indexCacheBody)
      ensures !(old(indexCacheBody).Some? && old(indexCacheGen) == gen) && listed.Some? ==>
                && response.Some? && |response.value.entries| == |listed.value|
                && forall i :: 0 <= i < |listed.value| ==>
                     var entry, run := response.value.entries[i], listed.value[i];
                     && entry.id == run.id && entry.timestamp == run.timestamp
                     && entry.steps == (if run.steps != "" && validJson(run.steps) then run.steps else "{}")
                     && entry.metadata == (if run.metadata != "" && validJson(run.metadata) then Some(run.metadata) else None)
                     && entry.deletionRequestedAt == (if run.deletionRequestedAt.Some? then run.deletionRequestedAt.value else 0)
    {
      response := CachedIndex(gen);
      if response.Some? || listed.None? {
        return;
      }
      var body := BuildBody(listed.value, now);
      StoreCachedIndex(gen, body);
      return Some(body);
    }
  }

  /* All interleavings. */

  // Where a request is; gen is the generation it read first.
  datatype Request = Began(gen: nat) | Missed(gen: nat) | Built(gen: nat, body: Body) | Served(gen: nat, body: Body) | Failed(gen: nat)

  // tables[k] is the table after the k-th commit; bumps lists the commits announced so far, in the
  // order of their bumps, so the generation is its length.
  datatype World = World(tables: seq<Table>, bumps: seq<nat>, cache: Cache, requests: map<nat, Request>)

  function Initial(table: Table): World { World([table], [], Cache(0, None), map[]) }

  datatype Event =
    | Commit(table: Table)
    | Bump(commit: nat)
    | Begin(id: nat)
    | Look(id: nat)
    | List(id: nat, body: Body)
    | ListFails(id: nat)
    | Finish(id: nat)

  ghost predicate Enabled(w: World, e: Event, validJson: string -> bool) {
    match e
    case Commit(_) => true
    case Bump(commit) => 1 <= commit < |w.tables| && commit !in w.bumps
    case Begin(id) => id !in w.requests
    case Look(id) => id in w.requests && w.requests[id].Began?
    case List(id, body) => id in w.requests && w.requests[id].Missed? && w.tables != [] && Shows(body.entries, w.tables[|w.tables| - 1], validJson)
    case ListFails(id) => id in w.requests && w.requests[id].Missed?
    case Finish(id) => id in w.requests && w.requests[id].Built?
  }

  ghost function Step(w: World, e: Event, validJson: string -> bool): World
    requires Enabled(w, e, validJson)
  {
    match e
    case Commit(table) => w.(tables := w.tables + [table])
    case Bump(commit) => w.(bumps := w.bumps + [commit])
    case Begin(id) => w.(requests := w.requests[id := Began(|w.bumps|)])
    case Look(id) =>
      var gen := w.requests[id].gen;
      var hit := Lookup(w.cache, gen);
      w.(requests := w.requests[id := if hit.Some? then Served(gen, hit.value) else Missed(gen)])
    case List(id, body) => w.(requests := w.requests[id := Built(w.requests[id].gen, body)])
    case ListFails(id) => w.(requests := w.requests[id := Failed(w.requests[id].gen)])
    case Finish(id) =>
      var r := w.requests[id];
      w.(cache := Store(w.cache, r.gen, r.body), requests := w.requests[id := Served(r.gen, r.body)])
  }

  // The body shows version v of the table, and v has every change announced by generation gen.
  ghost predicate ReflectsVersion(w: World, gen: nat, body: Body, v: nat, validJson: string -> bool) {
    && gen <= |w.bumps| && v < |w.tables| && Shows(body.entries, w.tables[v], validJson)
    && forall i :: 0 <= i < gen ==> w.bumps[i] <= v
  }

  ghost predicate Reflects(w: World, gen: nat, body: Body, validJson: string -> bool) {
    exists v :: ReflectsVersion(w, gen, body, v, validJson)
  }

  ghost predicate RequestSound(w: World, r: Request, validJson: string -> bool) {
    r.gen <= |w.bumps| && (r.Built? || r.Served? ==> Reflects(w, r.gen, r.body, validJson))
  }

  ghost predicate BumpsSound(w: World) {
    && (forall i :: 0 <= i < |w.bumps| ==> 1 <= w.bumps[i] < |w.tables|)
    && (forall i, j :: 0 <= i < j < |w.bumps| ==> w.bumps[i] != w.bumps[j])
  }

  ghost predicate Inv(w: World, validJson: string -> bool) {
    && w.tables != [] && BumpsSound(w)
    && (w.cache.body.Some? ==> Reflects(w, w.cache.gen, w.cache.body.value, validJson))
    && (forall id :: id in w.requests ==> RequestSound(w, w.requests[id], validJson))
  }

  // More commits and more bumps take nothing back.
  lemma {:induction false} ReflectsGrows(w: World, w': World, gen: nat, body: Body, validJson: string -> bool)
    requires Reflects(w, gen, body, validJson) && w.tables <= w'.tables && w.bumps <= w'.bumps
    ensures Reflects(w', gen, body, validJson)
  {
    var v :| ReflectsVersion(w, gen, body, v, validJson);
    assert ReflectsVersion(w', gen, body, v, validJson);
  }

  lemma {:induction false} GrowthKeeps(w: World, w': World, validJson: string -> bool)
    requires Inv(w, validJson) && w.tables <= w'.tables && w.bumps <= w'.bumps && BumpsSound(w')
    requires w'.cache == w.cache && w'.requests == w.requests
    ensures Inv(w', validJson)
  {
    if w.cache.body.Some? {
      ReflectsGrows(w, w', w.cache.gen, w.cache.body.value, validJson);
    }
    forall id | id in w.requests ensures RequestSound(w', w.requests[id], validJson) {
      var r := w.requests[id];
      assert RequestSound(w, r, validJson);
      if r.Built? || r.Served? {
        ReflectsGrows(w, w', r.gen, r.body, validJson);
      }
    }
  }

  lemma {:induction false} StepKeeps(w: World, e: Event, validJson: string -> bool)
    requires Inv(w, validJson) && Enabled(w, e, validJson)
    ensures Inv(Step(w, e, validJson), validJson)
  {
    var w' := Step(w, e, validJson);
    if e.Commit? || e.Bump? {
      GrowthKeeps(w, w', validJson);
    } else {
      if e.List? {
        assert RequestSound(w, w.requests[e.id], validJson);
        assert ReflectsVersion(w', w.requests[e.id].gen, e.body, |w.tables| - 1, validJson);
      }
      if w'.cache.body.Some? {
        assert Reflects(w, w'.cache.gen, w'.cache.body.value, validJson) by {
          if e.Finish? { assert RequestSound(w, w.requests[e.id], validJson); }
        }
        ReflectsGrows(w, w', w'.cache.gen, w'.cache.body.value, validJson);
      }
      forall id | id in w'.requests ensures RequestSound(w', w'.requests[id], validJson) {
        var r := w'.requests[id];
        if id in w.requests { assert RequestSound(w, w.requests[id], validJson); }
        if (r.Built? || r.Served?) && !(e.List? && id == e.id) {
          ReflectsGrows(w, w', r.gen, r.body, validJson);
        }
      }
    }
  }

  // worlds[0] is a fresh server, and each next world is one event later.
  ghost predicate IsRun(events: seq<Event>, worlds: seq<World>, validJson: string -> bool) {
    && |worlds| == |events| + 1 && |worlds[0].tables| == 1 && worlds[0] == Initial(worlds[0].tables[0])
    && forall k :: 0 <= k < |events| ==>
         Enabled(worlds[k], events[k], validJson) && worlds[k + 1] == Step(worlds[k], events[k], validJson)
  }

  lemma {:induction false} EveryWorldInvariant(events: seq<Event>, worlds: seq<World>, k: nat, validJson: string -> bool)
    requires IsRun(events, worlds, validJson) && k < |worlds|
    ensures Inv(worlds[k], validJson)
  {
    if k > 0 {
      EveryWorldInvariant(events, worlds, k - 1, validJson);
      StepKeeps(worlds[k - 1], events[k - 1], validJson);
      assert worlds[k - 1 + 1] == Step(worlds[k - 1], events[k - 1], validJson);
    }
  }

  // n different commits, none above v, none the initial version: n is at most v.
  lemma {:induction false} DistinctFit(s: seq<nat>, v: nat)
    requires forall i :: 0 <= i < |s| ==> 1 <= s[i] <= v
    requires forall i, j :: 0 <= i < j < |s| ==> s[i] != s[j]
    ensures |s| <= v
    decreases v
  {
    if s != [] {
      assert 1 <= s[0] <= v;
      if v in s {
        var k :| 0 <= k < |s| && s[k] == v;
        DistinctFit(s[..k] + s[k + 1..], v - 1);
      } else {
        forall i | 0 <= i < |s| ensures 1 <= s[i] <= v - 1 { var x := s[i]; assert x in s; }
        DistinctFit(s, v - 1);
      }
    }
  }

  // A request remembers the generation current when it began.
  lemma {:induction false} GenerationIsFromTheStart(events: seq<Event>, worlds: seq<World>, i: nat, k: nat, id: nat, validJson: string -> bool)
    requires IsRun(events, worlds, validJson) && i < k < |worlds| && events[i] == Begin(id)
    ensures id in worlds[k].requests && worlds[k].requests[id].gen == |worlds[i].bumps|
    decreases k
  {
    assert worlds[k - 1 + 1] == Step(worlds[k - 1], events[k - 1], validJson);
    if i < k - 1 {
      GenerationIsFromTheStart(events, worlds, i, k - 1, id, validJson);
    }
  }

  // Every request began, and the changes announced by then are the first of those announced now.
  lemma {:induction false} EveryRequestBegan(events: seq<Event>, worlds: seq<World>, k: nat, id: nat, validJson: string -> bool) returns (i: nat)
    requires IsRun(events, worlds, validJson) && k < |worlds| && id in worlds[k].requests
    ensures i < k && events[i] == Begin(id)
  {
    assert k > 0;
    assert worlds[k - 1 + 1] == Step(worlds[k - 1], events[k - 1], validJson);
    if id in worlds[k - 1].requests {
      i := EveryRequestBegan(events, worlds, k - 1, id, validJson);
    } else {
      i := k - 1;
    }
  }

  lemma {:induction false} BumpsOnlyGrow(events: seq<Event>, worlds: seq<World>, i: nat, k: nat, validJson: string -> bool)
    requires IsRun(events, worlds, validJson) && i <= k < |worlds|
    ensures worlds[i].bumps <= worlds[k].bumps
    decreases k
  {
    if i < k {
      BumpsOnlyGrow(events, worlds, i, k - 1, validJson);
      assert worlds[k - 1 + 1] == Step(worlds[k - 1], events[k - 1], validJson);
    }
  }

  // Every response shows a version of the table between the generation at the moment its request began and the
  // last commit, and that version has every change that was announced at that moment.
  lemma {:induction false} ResponsesAreFresh(events: seq<Event>, worlds: seq<World>, k: nat, id: nat, validJson: string -> bool)
      returns (begun: nat, v: nat)
    requires IsRun(events, worlds, validJson) && k < |worlds| && id in worlds[k].requests && worlds[k].requests[id].Served?
    ensures begun < k && events[begun] == Begin(id)
    ensures var w, r := worlds[k], worlds[k].requests[id];
      && |worlds[begun].bumps| == r.gen <= v < |w.tables| && Shows(r.body.entries, w.tables[v], validJson)
      && forall c :: c in worlds[begun].bumps ==> c <= v
  {
    EveryWorldInvariant(events, worlds, k, validJson);
    begun := EveryRequestBegan(events, worlds, k, id, validJson);
    GenerationIsFromTheStart(events, worlds, begun, k, id, validJson);
    BumpsOnlyGrow(events, worlds, begun, k, validJson);
    var w, r := worlds[k], worlds[k].requests[id];
    assert RequestSound(w, r, validJson);
    v :| ReflectsVersion(w, r.gen, r.body, v, validJson);
    DistinctFit(w.bumps[..r.gen], v);
    assert worlds[begun].bumps == w.bumps[..r.gen];
  }

  // So once every change has been announced, a request shows the table as it is.
  lemma {:induction false} QuietMeansCurrent(events: seq<Event>, worlds: seq<World>, k: nat, id: nat, validJson: string -> bool)
    requires IsRun(events, worlds, validJson) && k < |worlds| && id in worlds[k].requests && worlds[k].requests[id].Served?
    requires worlds[k].requests[id].gen == |worlds[k].tables| - 1
    ensures Shows(worlds[k].requests[id].body.entries, worlds[k].tables[|worlds[k].tables| - 1], validJson)
  {
    var _, v := ResponsesAreFresh(events, worlds, k, id, validJson);
  }

  // A slow build never replaces a newer body: neither the cached body nor its generation is ever lost.
  lemma {:induction false} CacheNeverGoesBack(events: seq<Event>, worlds: seq<World>, i: nat, k: nat, validJson: string -> bool)
    requires IsRun(events, worlds, validJson) && i <= k < |worlds|
    ensures worlds[i].cache.body.Some? ==> worlds[k].cache.body.Some? && worlds[i].cache.gen <= worlds[k].cache.gen
    decreases k
  {
    if i < k {
      CacheNeverGoesBack(events, worlds, i, k - 1, validJson);
      assert worlds[k - 1 + 1] == Step(worlds[k - 1], events[k - 1], validJson);
    }
  }

  lemma {:induction false} OneMore(events: seq<Event>, worlds: seq<World>, e: Event, next: World, validJson: string -> bool)
      returns (longer: seq<World>)
    requires IsRun(events, worlds, validJson)
    requires Enabled(worlds[|worlds| - 1], e, validJson) && next == Step(worlds[|worlds| - 1], e, validJson)
    ensures longer == worlds + [next] && IsRun(events + [e], longer, validJson)
  {
    longer := worlds + [next];
  }

  // One request on a fresh server, served and cached.
  lemma {:induction false} OneRequest(before: Table, validJson: string -> bool, body: Body) returns (worlds: seq<World>)
    requires Shows(body.entries, before, validJson)
    ensures IsRun([Begin(0), Look(0), List(0, body), Finish(0)], worlds, validJson)
    ensures worlds[4] == World([before], [], Cache(0, Some(body)), map[0 := Served(0, body)])
  {
    var t, empty := [before], Cache(0, None);
    worlds := [Initial(before), World(t, [], empty, map[0 := Began(0)]), World(t, [], empty, map[0 := Missed(0)]),
               World(t, [], empty, map[0 := Built(0, body)]), World(t, [], Cache(0, Some(body)), map[0 := Served(0, body)])];
  }

  // ----- Which responses miss a change -----

  function LastTable(w: World): Table
    requires w.tables != []
  {
    w.tables[|w.tables| - 1]
  }

  ghost predicate Stale(w: World, body: Body, validJson: string -> bool)
    requires w.tables != []
  {
    !Shows(body.entries, LastTable(w), validJson)
  }

  // The cache, or a build about to be stored there, has a body of the current generation that misses a change.
  ghost predicate HoldsStale(w: World, validJson: string -> bool)
    requires w.tables != []
  {
    || (w.cache.body.Some? && w.cache.gen == |w.bumps| && Stale(w, w.cache.body.value, validJson))
    || exists b :: b in w.requests && w.requests[b].Built? && w.requests[b].gen == |w.bumps| && Stale(w, w.requests[b].body, validJson)
  }

  // What may happen from w on while no more changes are committed.
  ghost predicate IsQuietRun(w: World, events: seq<Event>, worlds: seq<World>, validJson: string -> bool) {
    && |worlds| == |events| + 1 && worlds[0] == w
    && forall k :: 0 <= k < |events| ==>
         !events[k].Commit? && Enabled(worlds[k], events[k], validJson) && worlds[k + 1] == Step(worlds[k], events[k], validJson)
  }

  // A request new in w gets a body that misses a change.
  ghost predicate ServesStale(w: World, id: nat, events: seq<Event>, worlds: seq<World>, validJson: string -> bool)
    requires w.tables != []
  {
    && IsQuietRun(w, events, worlds, validJson)
    && var last := worlds[|events|];
       id in last.requests && last.requests[id].Served? && Stale(w, last.requests[id].body, validJson)
  }

  // From w on, whatever is or will be of w's generation or a later one shows the last table.
  ghost predicate StaysFresh(w: World, now: World, id: nat, validJson: string -> bool)
    requires w.tables != []
  {
    && now.tables == w.tables && |w.bumps| <= |now.bumps|
    && (now.cache.body.Some? && now.cache.gen >= |w.bumps| ==> !Stale(w, now.cache.body.value, validJson))
    && (forall b :: b in now.requests && now.requests[b].Built? && now.requests[b].gen >= |w.bumps| ==>
          !Stale(w, now.requests[b].body, validJson))
    && (id in now.requests ==> now.requests[id].gen >= |w.bumps|)
    && (id in now.requests && now.requests[id].Served? ==> !Stale(w, now.requests[id].body, validJson))
  }

  lemma {:induction false} FreshStep(w: World, now: World, e: Event, id: nat, validJson: string -> bool)
    requires w.tables != [] && StaysFresh(w, now, id, validJson) && Enabled(now, e, validJson) && !e.Commit?
    ensures StaysFresh(w, Step(now, e, validJson), id, validJson)
  {
  }

  lemma {:induction false} FreshAlong(w: World, id: nat, events: seq<Event>, worlds: seq<World>, k: nat, validJson: string -> bool)
    requires w.tables != [] && IsQuietRun(w, events, worlds, validJson) && k < |worlds| && StaysFresh(w, w, id, validJson)
    ensures StaysFresh(w, worlds[k], id, validJson)
  {
    if k > 0 {
      FreshAlong(w, id, events, worlds, k - 1, validJson);
      FreshStep(w, worlds[k - 1], events[k - 1], id, validJson);
      assert worlds[k - 1 + 1] == Step(worlds[k - 1], events[k - 1], validJson);
    }
  }

  // A sound world that holds nothing stale starts out fresh: nothing in it is of a later generation.
  lemma {:induction false} NothingStaleStartsFresh(w: World, id: nat, validJson: string -> bool)
    requires Inv(w, validJson) && id !in w.requests && !HoldsStale(w, validJson)
    ensures StaysFresh(w, w, id, validJson)
  {
    forall b | b in w.requests && w.requests[b].Built? && w.requests[b].gen >= |w.bumps| ensures !Stale(w, w.requests[b].body, validJson) {
      assert RequestSound(w, w.requests[b], validJson);
    }
  }

  lemma {:induction false} CachedStaleIsServed(w: World, id: nat, validJson: string -> bool) returns (worlds: seq<World>)
    requires w.tables != [] && id !in w.requests
    requires w.cache.body.Some? && w.cache.gen == |w.bumps| && Stale(w, w.cache.body.value, validJson)
    ensures ServesStale(w, id, [Begin(id), Look(id)], worlds, validJson)
  {
    var began := Step(w, Begin(id), validJson);
    worlds := [w, began, Step(began, Look(id), validJson)];
  }

  lemma {:induction false} BuiltStaleIsServed(w: World, b: nat, id: nat, validJson: string -> bool) returns (worlds: seq<World>)
    requires Inv(w, validJson) && id !in w.requests && b in w.requests
    requires w.requests[b].Built? && w.requests[b].gen == |w.bumps| && Stale(w, w.requests[b].body, validJson)
    ensures ServesStale(w, id, [Finish(b), Begin(id), Look(id)], worlds, validJson)
  {
    var stored := Step(w, Finish(b), validJson);
    assert stored.cache == Cache(|w.bumps|, Some(w.requests[b].body));
    var rest := CachedStaleIsServed(stored, id, validJson);
    worlds := [w] + rest;
    var events := [Finish(b), Begin(id), Look(id)];
    forall k | 0 <= k < 3
      ensures !events[k].Commit? && Enabled(worlds[k], events[k], validJson) && worlds[k + 1] == Step(worlds[k], events[k], validJson)
    {
      if k > 0 {
        assert events[k] == [Begin(id), Look(id)][k - 1] && worlds[k] == rest[k - 1] && worlds[k + 1] == rest[k - 1 + 1];
      }
    }
  }

  // In every reachable state: while no more changes are committed, a new request can get a response that misses
  // one if and only if the cache, or a build about to be stored, has such a body of the current generation.
  lemma {:induction false} MissesChangeIff(events: seq<Event>, worlds: seq<World>, k: nat, id: nat, validJson: string -> bool)
    requires IsRun(events, worlds, validJson) && k < |worlds| && id !in worlds[k].requests
    ensures worlds[k].tables != []
    ensures (exists more, later :: ServesStale(worlds[k], id, more, later, validJson)) <==> HoldsStale(worlds[k], validJson)
  {
    EveryWorldInvariant(events, worlds, k, validJson);
    var w := worlds[k];
    if HoldsStale(w, validJson) {
      if w.cache.body.Some? && w.cache.gen == |w.bumps| && Stale(w, w.cache.body.value, validJson) {
        var later := CachedStaleIsServed(w, id, validJson);
      } else {
        var b :| b in w.requests && w.requests[b].Built? && w.requests[b].gen == |w.bumps| && Stale(w, w.requests[b].body, validJson);
        var later := BuiltStaleIsServed(w, b, id, validJson);
      }
    } else {
      NothingStaleStartsFresh(w, id, validJson);
      forall more, later | ServesStale(w, id, more, later, validJson) ensures false {
        FreshAlong(w, id, more, later, |more|, validJson);
      }
    }
  }

  // Such a state is one commit away from a cached response: the commit is not announced yet, and the next
  // request is served the body from before it.
  lemma {:induction false} UnannouncedChangeMayBeMissing(before: Table, after: Table, validJson: string -> bool, body: Body)
      returns (events: seq<Event>, worlds: seq<World>)
    requires Shows(body.entries, before, validJson) && !Shows(body.entries, after, validJson)
    ensures IsRun(events, worlds, validJson) && |events| == 7
    ensures worlds[5].tables == [before, after] && HoldsStale(worlds[5], validJson) && events[5] == Begin(1)
    ensures worlds[7].tables == [before, after] && !Shows(body.entries, worlds[7].tables[1], validJson)
    ensures 1 in worlds[7].requests && worlds[7].requests[1] == Served(0, body)
  {
    worlds := OneRequest(before, validJson, body);
    events := [Begin(0), Look(0), List(0, body), Finish(0)];
    var w := World([before, after], [], worlds[4].cache, worlds[4].requests);
    worlds := OneMore(events, worlds, Commit(after), w, validJson);
    events := events + [Commit(after)];
    worlds := OneMore(events, worlds, Begin(1), w.(requests := w.requests[1 := Began(0)]), validJson);
    events := events + [Begin(1)];
    worlds := OneMore(events, worlds, Look(1), w.(requests := w.requests[1 := Served(0, body)]), validJson);
    events := events + [Look(1)];
  }
}
