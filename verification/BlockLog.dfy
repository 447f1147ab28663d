/**
The block-log collector: lines are reassembled from arbitrary chunks of a log stream, parsed, and matched
by block hash with tests registered before or after their log arrives.

A line parser may keep state, so its answer to a line is a function of all lines it has been given.
*/
module BlockLog {
  import opened Wrappers
  import opened Lines
  import opened History

  type Payload = Bytes

  // parse answers for the last of the lines given so far; hashOf reads the block hash out of a payload.
  datatype Parser = Parser(parse: seq<Bytes> -> Option<Payload>, hashOf: Payload -> Option<string>)

  datatype Entry = Entry(hash: string, payload: Payload)

  // The log entry completed by the last line, if any.
  function Completed(parser: Parser, lines: seq<Bytes>): Option<Entry> {
    match parser.parse(lines)
    case None => None
    case Some(payload) =>
      match parser.hashOf(payload)
      case None => None
      case Some(hash) => Some(Entry(hash, payload))
  }

  // pending: registered, log awaited. unmatched: logged, registration awaited.
  datatype Books = Books(pending: map<string, string>, blockLogs: map<string, Payload>, unmatched: map<string, Payload>)

  datatype State = State(lineBuf: Bytes, seen: seq<Bytes>, books: Books)

  const EMPTY: State := State([], [], Books(map[], map[], map[]))

  function Register(b: Books, test: string, hash: string): Books {
    if hash in b.unmatched then
      Books(b.pending, b.blockLogs[test := b.unmatched[hash]], b.unmatched - {hash})
    else b.(pending := b.pending[hash := test])
  }

  function Log(b: Books, e: Entry): Books {
    if e.hash in b.pending then
      Books(b.pending - {e.hash}, b.blockLogs[b.pending[e.hash] := e.payload], b.unmatched)
    else b.(unmatched := b.unmatched[e.hash := e.payload])
  }

  function FirstNewline(s: Bytes): (i: nat)
    requires NEWLINE in s
    ensures i < |s| && s[i] == NEWLINE && NewlineFree(s[..i])
  {
    if s[0] == NEWLINE then 0 else 1 + FirstNewline(s[1..])
  }

  // One turn of the processing loop: the first complete line is cut off, parsed and matched.
  function TakeLine(parser: Parser, s: State): State
    requires NEWLINE in s.lineBuf
  {
    var i := FirstNewline(s.lineBuf);
    var seen := s.seen + [s.lineBuf[..i]];
    State(s.lineBuf[i + 1..], seen,
          match Completed(parser, seen) case None => s.books case Some(e) => Log(s.books, e))
  }

  // Processing until no complete line is left.
  function Settle(parser: Parser, s: State): State
    decreases |s.lineBuf|
  {
    if NEWLINE in s.lineBuf then Settle(parser, TakeLine(parser, s)) else s
  }

  function Receive(s: State, chunk: Bytes): State { s.(lineBuf := s.lineBuf + chunk) }

  class Collector {
    const parser: Parser
    var pendingHashes: map<string, string>
    var blockLogs: map<string, Payload>
    var unmatched: map<string, Payload>
    var lineBuf: Bytes
    var seen: seq<Bytes>  // what the parser has been given

    ghost function Snapshot(): State
      reads this
    {
      State(lineBuf, seen, Books(pendingHashes, blockLogs, unmatched))
    }

    constructor (parser: Parser)
      ensures this.parser == parser && Snapshot() == EMPTY
    {
      this.parser := parser;
      pendingHashes, blockLogs, unmatched, lineBuf, seen := map[], map[], map[], [], [];
    }

    method RegisterBlockHash(test: string, hash: string)
      modifies this
      ensures Snapshot() == old(Snapshot()).(books := Register(old(Snapshot()).books, test, hash))
    {
      if hash in unmatched {
        blockLogs := blockLogs[test := unmatched[hash]];
        unmatched := unmatched - {hash};
        return;
      }
      pendingHashes := pendingHashes[hash := test];
    }

    method GetBlockLogs() returns (logs: map<string, Payload>)
      ensures logs == blockLogs
    {
      logs := blockLogs;
    }

    // A chunk the downstream writer refused is not processed at all.
    method Write(p: Bytes, downstreamOk: bool) returns (n: nat, ok: bool)
      modifies this
      ensures n == |p| && ok == downstreamOk
      ensures Snapshot() == if downstreamOk then Settle(parser, Receive(old(Snapshot()), p)) else old(Snapshot())
    {
      n, ok := |p|, downstreamOk;
      if !downstreamOk {
        return;
      }
      lineBuf := lineBuf + p;
      while true
        invariant Settle(parser, Snapshot()) == Settle(parser, Receive(old(Snapshot()), p))
        decreases |lineBuf|
      {
        var idx := FindNewline();
        if idx == |lineBuf| {
          break;
        }
        ProcessLine(idx);
      }
    }

    // The first newline's position, the buffer's length for none.
    method FindNewline() returns (idx: nat)
      ensures idx <= |lineBuf| && (NEWLINE in lineBuf <==> idx < |lineBuf|)
      ensures NEWLINE in lineBuf ==> idx == FirstNewline(lineBuf)
    {
      idx := 0;
      while idx < |lineBuf| && lineBuf[idx] != NEWLINE
        invariant 0 <= idx <= |lineBuf|
        invariant NewlineFree(lineBuf[..idx])
      {
        idx := idx + 1;
      }
      if idx < |lineBuf| {
        FirstNewlineUnique(lineBuf, idx);
      } else {
        assert lineBuf[..idx] == lineBuf;
      }
    }

    // One turn of the loop.
    method ProcessLine(idx: nat)
      requires NEWLINE in lineBuf && idx == FirstNewline(lineBuf)
      modifies this
      ensures Snapshot() == TakeLine(parser, old(Snapshot())) && |lineBuf| < old(|lineBuf|)
    {
      var line := lineBuf[..idx];
      lineBuf := lineBuf[idx + 1..];
      seen := seen + [line];
      var payload := parser.parse(seen);
      if payload.Some? {
        var hash := parser.hashOf(payload.value);
        if hash.Some? {
          MatchOrBuffer(hash.value, payload.value);
        }
      }
    }

    // The locked part of Write: the payload goes to its test, or waits for one.
    method MatchOrBuffer(hash: string, payload: Payload)
      modifies this
      ensures Snapshot() == old(Snapshot()).(books := Log(old(Snapshot()).books, Entry(hash, payload)))
    {
      if hash in pendingHashes {
        blockLogs := blockLogs[pendingHashes[hash] := payload];
        pendingHashes := pendingHashes - {hash};
      } else {
        unmatched := unmatched[hash := payload];
      }
    }
  }

  lemma {:induction false} FirstNewlineUnique(s: Bytes, i: nat)
    requires i < |s| && s[i] == NEWLINE && NewlineFree(s[..i])
    ensures NEWLINE in s && FirstNewline(s) == i
  {
    var b := s[i];
    assert b in s;
  }

  // ----- Interleavings -----

  // Register, chunk arrival and the processing of one line each run under a lock of their own; a line
  // is processed at any time while a complete one is buffered.
  datatype Event = Registers(test: string, hash: string) | Arrives(chunk: Bytes) | Processes

  predicate Enabled(s: State, e: Event) { e.Processes? ==> NEWLINE in s.lineBuf }

  function Step(parser: Parser, s: State, e: Event): State
    requires Enabled(s, e)
  {
    match e
    case Registers(test, hash) => s.(books := Register(s.books, test, hash))
    case Arrives(chunk) => Receive(s, chunk)
    case Processes => TakeLine(parser, s)
  }

  ghost predicate IsRun(parser: Parser, events: seq<Event>, states: seq<State>) {
    && |states| == |events| + 1 && states[0] == EMPTY
    && forall k :: 0 <= k < |events| ==> Enabled(states[k], events[k]) && states[k + 1] == Step(parser, states[k], events[k])
  }

  function Stream(events: seq<Event>): Bytes {
    if events == [] then []
    else
      var n := |events| - 1;
      Stream(events[..n]) + (if events[n].Arrives? then events[n].chunk else [])
  }

  // Who registered which hash, and what was logged for which.
  function Registered(events: seq<Event>): map<string, string> {
    if events == [] then map[]
    else
      var n := |events| - 1;
      if events[n].Registers? then Registered(events[..n])[events[n].hash := events[n].test] else Registered(events[..n])
  }

  function Logged(parser: Parser, lines: seq<Bytes>): map<string, Payload> {
    if lines == [] then map[]
    else
      var before := Logged(parser, lines[..|lines| - 1]);
      match Completed(parser, lines) case None => before case Some(e) => before[e.hash := e.payload]
  }

  // ----- Nothing of the stream is lost -----

  lemma {:induction false} TakeLineSplits(parser: Parser, s: State)
    requires NEWLINE in s.lineBuf
    ensures var s' := TakeLine(parser, s); s'.seen + Split(s'.lineBuf) == s.seen + Split(s.lineBuf)
  {
    var i := FirstNewline(s.lineBuf);
    var line, rest := s.lineBuf[..i], s.lineBuf[i + 1..];
    assert s.lineBuf == line + [NEWLINE] + rest;
    SplitLine(line, rest);
  }

  // In every state the processed lines and the buffered bytes are the stream, cut at its newlines.
  lemma {:induction false} LinesRebuildStream(parser: Parser, events: seq<Event>, states: seq<State>)
    requires IsRun(parser, events, states)
    ensures var s := states[|events|]; s.seen + Split(s.lineBuf) == Split(Stream(events))
  {
    var n := |events| - 1;
    if events != [] {
      var front := states[..n + 1];
      assert IsRun(parser, events[..n], front);
      LinesRebuildStream(parser, events[..n], front);
      assert states[n + 1] == Step(parser, states[n], events[n]);
      match events[n]
      case Registers(_, _) => assert Stream(events[..n]) + [] == Stream(events[..n]);
      case Arrives(chunk) =>
        SplitAppend(Stream(events[..n]), chunk);
        SplitAppend(states[n].lineBuf, chunk);
        GlueFront(states[n].seen, Split(states[n].lineBuf), Split(chunk));
      case Processes =>
        assert Stream(events[..n]) + [] == Stream(events[..n]);
        TakeLineSplits(parser, states[n]);
    }
  }

  lemma {:induction false} GlueFront(front: seq<Bytes>, a: seq<Bytes>, b: seq<Bytes>)
    requires |a| >= 1 && |b| >= 1
    ensures Glue(front + a, b) == front + Glue(a, b)
  {
    assert (front + a)[..|front + a| - 1] == front + a[..|a| - 1];
  }

  // Joined back with newlines they are the bytes written, in order and none missing.
  lemma {:induction false} NothingLost(parser: Parser, events: seq<Event>, states: seq<State>)
    requires IsRun(parser, events, states)
    ensures var s := states[|events|]; Join(s.seen + Split(s.lineBuf)) == Stream(events)
    ensures NewlineFree(states[|events|].lineBuf) ==> Split(states[|events|].lineBuf) == [states[|events|].lineBuf]
  {
    LinesRebuildStream(parser, events, states);
    JoinSplit(Stream(events));
    if NewlineFree(states[|events|].lineBuf) {
      SplitNewlineFree(states[|events|].lineBuf);
    }
  }

  // ----- Every hash waits on one side only -----

  ghost predicate OneSided(b: Books) { forall hash :: !(hash in b.pending && hash in b.unmatched) }

  // In every reachable state, whatever is registered or logged how often.
  lemma {:induction false} PendingAndUnmatchedDisjoint(parser: Parser, events: seq<Event>, states: seq<State>)
    requires IsRun(parser, events, states)
    ensures OneSided(states[|events|].books)
  {
    if events != [] {
      var n := |events| - 1;
      assert IsRun(parser, events[..n], states[..n + 1]);
      PendingAndUnmatchedDisjoint(parser, events[..n], states[..n + 1]);
      assert states[n + 1] == Step(parser, states[n], events[n]);
    }
  }

  // ----- What waits and what is matched, in any run -----

  type Turn = Moment<State, Event>

  // The log entry that the step completes, if any.
  function LoggedAt(parser: Parser, m: Turn): Option<Entry> {
    if m.event.Processes? && NEWLINE in m.state.lineBuf then
      Completed(parser, m.state.seen + [m.state.lineBuf[..FirstNewline(m.state.lineBuf)]])
    else None
  }

  // The step registers the hash or completes a log of it.
  function About(parser: Parser, hash: string): Turn -> bool {
    (m: Turn) => (m.event.Registers? && m.event.hash == hash)
                   || (LoggedAt(parser, m).Some? && LoggedAt(parser, m).value.hash == hash)
  }

  function RegistersFirst(test: string, hash: string): Turn -> bool {
    (m: Turn) => m.event == Registers(test, hash) && hash !in m.state.books.unmatched
  }

  function LogsFirst(parser: Parser, e: Entry): Turn -> bool {
    (m: Turn) => LoggedAt(parser, m) == Some(e) && e.hash !in m.state.books.pending
  }

  // The payload the step delivers to the test, if it matches a registration of it with a log.
  function Delivered(parser: Parser, m: Turn, test: string): Option<Payload> {
    var books := m.state.books;
    if m.event.Registers? then
      if m.event.test == test && m.event.hash in books.unmatched then Some(books.unmatched[m.event.hash]) else None
    else
      match LoggedAt(parser, m)
      case None => None
      case Some(e) => if e.hash in books.pending && books.pending[e.hash] == test then Some(e.payload) else None
  }

  function Delivers(parser: Parser, test: string, payload: Payload): Turn -> bool {
    (m: Turn) => Delivered(parser, m, test) == Some(payload)
  }

  function DeliversAnew(parser: Parser, test: string): Turn -> bool { (m: Turn) => Delivered(parser, m, test).Some? }

  predicate Has<K, V(==)>(entries: map<K, V>, key: K, value: V) { key in entries && entries[key] == value }

  lemma {:induction false} PendingStep(parser: Parser, m: Turn, test: string, hash: string)
    requires Enabled(m.state, m.event) && OneSided(m.state.books)
    ensures Has(Step(parser, m.state, m.event).books.pending, hash, test)
            <==> RegistersFirst(test, hash)(m) || (Has(m.state.books.pending, hash, test) && !About(parser, hash)(m))
  {
  }

  lemma {:induction false} UnmatchedStep(parser: Parser, m: Turn, e: Entry)
    requires Enabled(m.state, m.event) && OneSided(m.state.books)
    ensures Has(Step(parser, m.state, m.event).books.unmatched, e.hash, e.payload)
            <==> LogsFirst(parser, e)(m) || (Has(m.state.books.unmatched, e.hash, e.payload) && !About(parser, e.hash)(m))
  {
  }

  lemma {:induction false} DeliveryStep(parser: Parser, m: Turn, test: string, payload: Payload)
    requires Enabled(m.state, m.event)
    ensures Has(Step(parser, m.state, m.event).books.blockLogs, test, payload)
            <==> Delivers(parser, test, payload)(m)
                 || (Has(m.state.books.blockLogs, test, payload) && !DeliversAnew(parser, test)(m))
  {
  }

  lemma {:induction false} BooksAt(parser: Parser, events: seq<Event>, states: seq<State>, k: nat)
    requires IsRun(parser, events, states) && k <= |events|
    ensures OneSided(states[k].books)
    ensures k < |events| ==> Enabled(states[k], events[k]) && states[k + 1] == Step(parser, states[k], events[k])
  {
    assert IsRun(parser, events[..k], states[..k + 1]);
    PendingAndUnmatchedDisjoint(parser, events[..k], states[..k + 1]);
  }

  // A test waits for a log exactly when its registration found none waiting and was the last thing to
  // happen to the hash: a later registration of the hash takes its place.
  lemma {:induction false} PendingIffRegisteredLast(parser: Parser, events: seq<Event>, states: seq<State>, k: nat, test: string, hash: string)
    requires IsRun(parser, events, states) && k <= |events|
    ensures Has(states[k].books.pending, hash, test)
            <==> Since(Moments(events, states), k, RegistersFirst(test, hash), About(parser, hash))
  {
    if k > 0 {
      PendingIffRegisteredLast(parser, events, states, k - 1, test, hash);
      BooksAt(parser, events, states, k - 1);
      PendingStep(parser, Moments(events, states)[k - 1], test, hash);
      SinceNext(Moments(events, states), k - 1, RegistersFirst(test, hash), About(parser, hash));
    }
  }

  // A log waits for a test exactly when it found none waiting and was the last thing to happen to its
  // hash: a later log of the hash takes its place.
  lemma {:induction false} UnmatchedIffLoggedLast(parser: Parser, events: seq<Event>, states: seq<State>, k: nat, e: Entry)
    requires IsRun(parser, events, states) && k <= |events|
    ensures Has(states[k].books.unmatched, e.hash, e.payload)
            <==> Since(Moments(events, states), k, LogsFirst(parser, e), About(parser, e.hash))
  {
    if k > 0 {
      UnmatchedIffLoggedLast(parser, events, states, k - 1, e);
      BooksAt(parser, events, states, k - 1);
      UnmatchedStep(parser, Moments(events, states)[k - 1], e);
      SinceNext(Moments(events, states), k - 1, LogsFirst(parser, e), About(parser, e.hash));
    }
  }

  // A test's block log is what was last delivered to it.
  lemma {:induction false} LogIsLastDelivered(parser: Parser, events: seq<Event>, states: seq<State>, k: nat, test: string, payload: Payload)
    requires IsRun(parser, events, states) && k <= |events|
    ensures Has(states[k].books.blockLogs, test, payload)
            <==> Since(Moments(events, states), k, Delivers(parser, test, payload), DeliversAnew(parser, test))
  {
    if k > 0 {
      LogIsLastDelivered(parser, events, states, k - 1, test, payload);
      BooksAt(parser, events, states, k - 1);
      DeliveryStep(parser, Moments(events, states)[k - 1], test, payload);
      SinceNext(Moments(events, states), k - 1, Delivers(parser, test, payload), DeliversAnew(parser, test));
    }
  }

  // ----- Confluence -----

  // No hash and no test name is registered twice.
  ghost predicate RegistersOnce(events: seq<Event>) {
    events == [] ||
    var n := |events| - 1;
    RegistersOnce(events[..n]) &&
    (events[n].Registers? ==> Fresh(Registered(events[..n]), events[n].test, events[n].hash))
  }

  ghost predicate Fresh(registered: map<string, string>, test: string, hash: string) {
    hash !in registered && forall h :: h in registered ==> registered[h] != test
  }

  // No hash is logged twice.
  ghost predicate LogsOnce(parser: Parser, lines: seq<Bytes>) {
    lines == [] ||
    var front := lines[..|lines| - 1];
    LogsOnce(parser, front) &&
    (Completed(parser, lines).Some? ==> Completed(parser, lines).value.hash !in Logged(parser, front))
  }

  ghost predicate Injective(registered: map<string, string>) {
    forall g, h :: g in registered && h in registered && registered[g] == registered[h] ==> g == h
  }

  lemma {:induction false} RegistersOnceInjective(events: seq<Event>)
    requires RegistersOnce(events)
    ensures Injective(Registered(events))
  {
    if events != [] {
      RegistersOnceInjective(events[..|events| - 1]);
    }
  }

  // The tests whose hash was both registered and logged, with their payloads.
  ghost predicate LogsExact(logs: map<string, Payload>, registered: map<string, string>, logged: map<string, Payload>) {
    && (forall h :: h in registered && h in logged ==> registered[h] in logs && logs[registered[h]] == logged[h])
    && (forall test :: test in logs ==> exists h :: h in registered && h in logged && registered[h] == test)
  }

  // The books that registrations and logs determine, in whatever order they came: a registration waits
  // until its log is there, a log waits until its registration is, and the rest is matched.
  ghost predicate Reflect(b: Books, registered: map<string, string>, logged: map<string, Payload>) {
    && b.pending == registered - logged.Keys
    && b.unmatched == logged - registered.Keys
    && LogsExact(b.blockLogs, registered, logged)
  }

  lemma {:induction false} RegisterMatched(logs: map<string, Payload>, registered: map<string, string>, logged: map<string, Payload>, test: string, hash: string)
    requires LogsExact(logs, registered, logged) && Fresh(registered, test, hash) && hash in logged
    ensures LogsExact(logs[test := logged[hash]], registered[hash := test], logged)
  {
    var logs', more := logs[test := logged[hash]], registered[hash := test];
    forall t | t in logs' ensures exists h :: h in more && h in logged && more[h] == t {
      if t == test {
        assert more[hash] == t;
      } else {
        var h :| h in registered && h in logged && registered[h] == t;
        assert more[h] == t;
      }
    }
  }

  lemma {:induction false} RegisterWaits(logs: map<string, Payload>, registered: map<string, string>, logged: map<string, Payload>, test: string, hash: string)
    requires LogsExact(logs, registered, logged) && Fresh(registered, test, hash) && hash !in logged
    ensures LogsExact(logs, registered[hash := test], logged)
  {
    var more := registered[hash := test];
    forall t | t in logs ensures exists h :: h in more && h in logged && more[h] == t {
      var h :| h in registered && h in logged && registered[h] == t;
      assert more[h] == t;
    }
  }

  lemma {:induction false} RegisterReflects(b: Books, registered: map<string, string>, logged: map<string, Payload>, test: string, hash: string)
    requires Reflect(b, registered, logged) && Fresh(registered, test, hash)
    ensures Reflect(Register(b, test, hash), registered[hash := test], logged)
  {
    if hash in logged {
      MapsAfterMatch(registered, logged, test, hash);
      RegisterMatched(b.blockLogs, registered, logged, test, hash);
    } else {
      MapsAfterWait(registered, logged, test, hash);
      RegisterWaits(b.blockLogs, registered, logged, test, hash);
    }
  }

  lemma {:induction false} MapsAfterMatch(registered: map<string, string>, logged: map<string, Payload>, test: string, hash: string)
    requires hash in logged && hash !in registered
    ensures registered[hash := test] - logged.Keys == registered - logged.Keys
    ensures logged - registered[hash := test].Keys == (logged - registered.Keys) - {hash}
  {
  }

  lemma {:induction false} MapsAfterWait(registered: map<string, string>, logged: map<string, Payload>, test: string, hash: string)
    requires hash !in logged && hash !in registered
    ensures registered[hash := test] - logged.Keys == (registered - logged.Keys)[hash := test]
    ensures logged - registered[hash := test].Keys == logged - registered.Keys
  {
  }

  lemma {:induction false} LogMatched(logs: map<string, Payload>, registered: map<string, string>, logged: map<string, Payload>, e: Entry)
    requires LogsExact(logs, registered, logged) && Injective(registered) && e.hash in registered && e.hash !in logged
    ensures LogsExact(logs[registered[e.hash] := e.payload], registered, logged[e.hash := e.payload])
  {
    var logs', more := logs[registered[e.hash] := e.payload], logged[e.hash := e.payload];
    forall t | t in logs' ensures exists h :: h in registered && h in more && registered[h] == t {
      if t == registered[e.hash] {
        assert e.hash in more;
      } else {
        var h :| h in registered && h in logged && registered[h] == t;
        assert h in more;
      }
    }
  }

  lemma {:induction false} LogUnmatched(logs: map<string, Payload>, registered: map<string, string>, logged: map<string, Payload>, e: Entry)
    requires LogsExact(logs, registered, logged) && e.hash !in registered
    ensures LogsExact(logs, registered, logged[e.hash := e.payload])
  {
    var more := logged[e.hash := e.payload];
    forall t | t in logs ensures exists h :: h in registered && h in more && registered[h] == t {
      var h :| h in registered && h in logged && registered[h] == t;
      assert h in more;
    }
  }

  lemma {:induction false} LogReflects(b: Books, registered: map<string, string>, logged: map<string, Payload>, e: Entry)
    requires Reflect(b, registered, logged) && Injective(registered) && e.hash !in logged
    ensures Reflect(Log(b, e), registered, logged[e.hash := e.payload])
  {
    var more := logged[e.hash := e.payload];
    if e.hash in registered {
      LogMatched(b.blockLogs, registered, logged, e);
      assert b.pending - {e.hash} == registered - more.Keys;
      assert b.unmatched == more - registered.Keys;
    } else {
      LogUnmatched(b.blockLogs, registered, logged, e);
      assert b.pending == registered - more.Keys;
      assert b.unmatched[e.hash := e.payload] == more - registered.Keys;
    }
  }

  // In every state of every run the books are those of the registrations made and the lines processed.
  lemma {:induction false} BooksReflectRun(parser: Parser, events: seq<Event>, states: seq<State>)
    requires IsRun(parser, events, states)
    requires RegistersOnce(events) && LogsOnce(parser, states[|events|].seen)
    ensures Reflect(states[|events|].books, Registered(events), Logged(parser, states[|events|].seen))
  {
    if events != [] {
      var n := |events| - 1;
      var s, e := states[n], events[n];
      assert IsRun(parser, events[..n], states[..n + 1]);
      assert states[n + 1] == Step(parser, s, e);
      if e.Processes? {
        var seen := states[n + 1].seen;
        assert seen[..|seen| - 1] == s.seen;
      }
      BooksReflectRun(parser, events[..n], states[..n + 1]);
      match e
      case Registers(test, hash) =>
        RegisterReflects(s.books, Registered(events[..n]), Logged(parser, s.seen), test, hash);
      case Arrives(_) =>
      case Processes =>
        var seen := states[n + 1].seen;
        if Completed(parser, seen).Some? {
          RegistersOnceInjective(events[..n]);
          LogReflects(s.books, Registered(events[..n]), Logged(parser, s.seen), Completed(parser, seen).value);
        }
    }
  }

  // The lines of a stream that a newline has completed.
  function CompleteLines(stream: Bytes): seq<Bytes> { Split(stream)[..|Split(stream)| - 1] }

  // When every complete line has been processed, the block logs are exactly the payloads of the tests
  // whose hash was both registered and logged in the stream: how the stream was chunked, when each line
  // was processed and when each test was registered make no difference.
  lemma {:induction false} CollectorConfluent(parser: Parser, events: seq<Event>, states: seq<State>)
    requires IsRun(parser, events, states) && NewlineFree(states[|events|].lineBuf)
    requires RegistersOnce(events) && LogsOnce(parser, CompleteLines(Stream(events)))
    ensures Reflect(states[|events|].books, Registered(events), Logged(parser, CompleteLines(Stream(events))))
  {
    var s := states[|events|];
    LinesRebuildStream(parser, events, states);
    SplitNewlineFree(s.lineBuf);
    assert (s.seen + [s.lineBuf])[..|s.seen|] == s.seen;
    BooksReflectRun(parser, events, states);
  }

  // Two complete runs over the same stream with the same registrations, in any orders and chunkings,
  // return the same block logs.
  lemma {:induction false} SameInputsSameLogs(parser: Parser, e1: seq<Event>, s1: seq<State>, e2: seq<Event>, s2: seq<State>)
    requires IsRun(parser, e1, s1) && NewlineFree(s1[|e1|].lineBuf) && RegistersOnce(e1)
    requires IsRun(parser, e2, s2) && NewlineFree(s2[|e2|].lineBuf) && RegistersOnce(e2)
    requires Stream(e1) == Stream(e2) && Registered(e1) == Registered(e2)
    requires LogsOnce(parser, CompleteLines(Stream(e1)))
    ensures s1[|e1|].books == s2[|e2|].books
  {
    CollectorConfluent(parser, e1, s1);
    CollectorConfluent(parser, e2, s2);
    var logged := Logged(parser, CompleteLines(Stream(e1)));
    LogsUnique(s1[|e1|].books.blockLogs, s2[|e2|].books.blockLogs, Registered(e1), logged);
  }

  lemma {:induction false} LogsUnique(a: map<string, Payload>, b: map<string, Payload>, registered: map<string, string>, logged: map<string, Payload>)
    requires LogsExact(a, registered, logged) && LogsExact(b, registered, logged)
    ensures a == b
  {
    forall test | test in a ensures test in b && a[test] == b[test] {
      var h :| h in registered && h in logged && registered[h] == test;
    }
    forall test | test in b ensures test in a {
      var h :| h in registered && h in logged && registered[h] == test;
    }
  }

  // One Write is a chunk's arrival followed by line processing until no complete line is left.
  lemma {:induction false} SettleIsProcessing(parser: Parser, s: State) returns (states: seq<State>)
    ensures |states| >= 1 && states[0] == s && states[|states| - 1] == Settle(parser, s)
    ensures forall k :: 0 <= k < |states| - 1 ==> NEWLINE in states[k].lineBuf && states[k + 1] == TakeLine(parser, states[k])
    ensures NewlineFree(Settle(parser, s).lineBuf)
    decreases |s.lineBuf|
  {
    if NEWLINE in s.lineBuf {
      var rest := SettleIsProcessing(parser, TakeLine(parser, s));
      states := [s] + rest;
    } else {
      states := [s];
    }
  }

  // One log per hash is needed: with two, the second replaces the first if the test registers last, and
  // is set aside if the test registers in between.
  lemma {:induction false} RepeatedLogDependsOnOrder(test: string, first: Entry, second: Entry)
    requires first.hash == second.hash && first.payload != second.payload
    ensures Register(Log(Log(EMPTY.books, first), second), test, first.hash).blockLogs == map[test := second.payload]
    ensures Log(Register(Log(EMPTY.books, first), test, first.hash), second).blockLogs == map[test := first.payload]
  {
  }
}
