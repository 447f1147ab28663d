/**
Replaying a bundle against an execution client, line by line, with bounded patience for a client that
answers SYNCING or ACCEPTED.

The client is modelled after the Engine API specification (src/engine/paris.md of ethereum/execution-apis,
"Payload validation" and "engine_forkchoiceUpdatedV1"): a payload whose parent is unknown is never VALID, a
head that is unknown is never VALID, and a client may take any number of requests to get there.
*/
module Replay {
  import opened Wrappers
  import opened Lines
  import opened Bundle
  import opened BundleFile

  const REPLAY_SYNCING_RETRIES: nat := 60

  datatype Status = Valid | Syncing | Accepted | Invalid

  // A client's behaviour: lag(k) is how many times it stalls on the k-th request it resolves, and accepts
  // says which stalls are ACCEPTED rather than SYNCING. fails says at which attempt of that request the call
  // itself fails, and cancels after which one the replay is cancelled while it waits.
  datatype Client = Client(lag: nat -> nat, accepts: (nat, nat) -> bool, fails: (nat, nat) -> bool, cancels: (nat, nat) -> bool)

  // resolved counts the requests answered VALID so far, stalls those stalled on the current one.
  datatype Node = Node(known: set<string>, head: string, resolved: nat, stalls: nat)

  function Stall(c: Client, n: Node): Status { if c.accepts(n.resolved, n.stalls) then Accepted else Syncing }

  // Whether the node can process the request at all, and its state once it has.
  predicate Processable(n: Node, l: Line) {
    match l
    case NewPayload(_, p) => PayloadBlockRef(p).Success? && PayloadBlockRef(p).value.parentHash in n.known
    case ForkchoiceUpdated(_, hash) => hash in n.known
  }

  function Processed(n: Node, l: Line): Node
    requires Processable(n, l)
  {
    match l
    case NewPayload(_, p) => Node(n.known + {PayloadBlockRef(p).value.hash}, n.head, n.resolved + 1, 0)
    case ForkchoiceUpdated(_, hash) => Node(n.known, hash, n.resolved + 1, 0)
  }

  function Respond(c: Client, n: Node, l: Line): (Status, Node) {
    if l.NewPayload? && PayloadBlockRef(l.payload).Failure? then (Invalid, n)
    else if !Processable(n, l) then (Stall(c, n), n)
    else if n.stalls < c.lag(n.resolved) then (Stall(c, n), n.(stalls := n.stalls + 1))
    else (Valid, Processed(n, l))
  }

  datatype CallError = Transport | Cancelled | StillWaiting(status: Status, retries: nat) | Rejected(status: Status)

  datatype ReplayError = BadLine(line: nat) | LineFailed(line: nat, cause: CallError)

  // One request from a given attempt on.
  function CallOutcome(c: Client, n: Node, l: Line, attempt: nat): (Option<CallError>, Node)
    requires attempt <= REPLAY_SYNCING_RETRIES
    decreases REPLAY_SYNCING_RETRIES - attempt
  {
    if c.fails(n.resolved, attempt) then (Some(Transport), n)
    else
      var (status, n') := Respond(c, n, l);
      match status
      case Valid => (None, n')
      case Invalid => (Some(CallError.Rejected(status)), n')
      case _ =>
        if attempt >= REPLAY_SYNCING_RETRIES then (Some(StillWaiting(status, attempt)), n')
        else if c.cancels(n.resolved, attempt) then (Some(Cancelled), n')
        else CallOutcome(c, n', l, attempt + 1)
  }

  function ReplayOutcome(c: Client, d: Decoder, n: Node, lines: seq<Bytes>): (Option<ReplayError>, Node) {
    if lines == [] then (None, n)
    else
      var k := |lines| - 1;
      var (error, n') := ReplayOutcome(c, d, n, lines[..k]);
      if error.Some? then (error, n')
      else
        match d.request(lines[k])
        case None => (Some(BadLine(k)), n')
        case Some(l) =>
          var (cause, n'') := CallOutcome(c, n', l, 0);
          (if cause.Some? then Some(LineFailed(k, cause.value)) else None, n'')
  }

  class EngineClient {
    const client: Client
    const decoder: Decoder
    var node: Node

    constructor (client: Client, decoder: Decoder, node: Node)
      ensures this.client == client && this.decoder == decoder && this.node == node
    {
      this.client, this.decoder, this.node := client, decoder, node;
    }

    method Call(l: Line) returns (status: Status)
      modifies this
      ensures (status, node) == Respond(client, old(node), l)
    {
      var (s, n) := Respond(client, node, l);
      status, node := s, n;
    }

    // Sends one request until it is VALID, tolerating a bounded number of stalls.
    method ReplayCall(l: Line) returns (error: Option<CallError>)
      modifies this
      ensures (error, node) == CallOutcome(client, old(node), l, 0)
    {
      var attempt := 0;
      while true
        invariant 0 <= attempt <= REPLAY_SYNCING_RETRIES
        invariant CallOutcome(client, old(node), l, 0) == CallOutcome(client, node, l, attempt)
        decreases REPLAY_SYNCING_RETRIES - attempt
      {
        if client.fails(node.resolved, attempt) {
          return Some(Transport);
        }
        var status := Call(l);
        match status {
          case Valid =>
            return None;
          case Invalid =>
            return Some(CallError.Rejected(status));
          case _ =>
            if attempt >= REPLAY_SYNCING_RETRIES {
              return Some(StillWaiting(status, attempt));
            }
            if client.cancels(node.resolved, attempt) {
              return Some(Cancelled);
            }
        }
        attempt := attempt + 1;
      }
    }

    method ReplayBundle(lines: seq<Bytes>) returns (error: Option<ReplayError>)
      modifies this
      ensures (error, node) == ReplayOutcome(client, decoder, old(node), lines)
    {
      for i := 0 to |lines|
        invariant ReplayOutcome(client, decoder, old(node), lines[..i]) == (None, node)
      {
        assert lines[..i + 1][..i] == lines[..i];
        var request := decoder.request(lines[i]);
        if request.None? {
          OutcomeSticks(client, decoder, old(node), lines, i + 1);
          return Some(BadLine(i));
        }
        var cause := ReplayCall(request.value);
        if cause.Some? {
          OutcomeSticks(client, decoder, old(node), lines, i + 1);
          return Some(LineFailed(i, cause.value));
        }
      }
      assert lines[..|lines|] == lines;
      return None;
    }
  }

  // A replay stops at its first error.
  lemma {:induction false} OutcomeSticks(c: Client, d: Decoder, n: Node, lines: seq<Bytes>, k: nat)
    requires k <= |lines| && ReplayOutcome(c, d, n, lines[..k]).0.Some?
    ensures ReplayOutcome(c, d, n, lines) == ReplayOutcome(c, d, n, lines[..k])
    decreases |lines|
  {
    if k < |lines| {
      assert lines[..|lines| - 1][..k] == lines[..k];
      OutcomeSticks(c, d, n, lines[..|lines| - 1], k);
    } else {
      assert lines[..k] == lines;
    }
  }

  // The same over decoded requests: what lines that all decode come to.
  function RunOutcome(c: Client, n: Node, requests: seq<Line>): (Option<ReplayError>, Node) {
    if requests == [] then (None, n)
    else
      var k := |requests| - 1;
      var (error, n') := RunOutcome(c, n, requests[..k]);
      if error.Some? then (error, n') else Next(c, n', requests[k], k)
  }

  function Next(c: Client, n: Node, request: Line, k: nat): (Option<ReplayError>, Node) {
    var (cause, n') := CallOutcome(c, n, request, 0);
    (if cause.Some? then Some(LineFailed(k, cause.value)) else None, n')
  }

  lemma {:induction false} DecodedOutcome(c: Client, render: Line -> Bytes, d: Decoder, n: Node, requests: seq<Line>)
    requires Faithful(render, d, requests)
    ensures ReplayOutcome(c, d, n, Rendered(render, requests)) == RunOutcome(c, n, requests)
  {
    if requests != [] {
      var k := |requests| - 1;
      DecodedOutcome(c, render, d, n, requests[..k]);
      assert Rendered(render, requests)[..k] == Rendered(render, requests[..k]);
      assert d.request(render(requests[k])) == Some(requests[k]);
    }
  }

  lemma {:induction false} RunSnoc(c: Client, n: Node, requests: seq<Line>, request: Line)
    ensures RunOutcome(c, n, requests + [request]) ==
            if RunOutcome(c, n, requests).0.Some? then RunOutcome(c, n, requests)
            else Next(c, RunOutcome(c, n, requests).1, request, |requests|)
  {
    assert (requests + [request])[..|requests|] == requests;
  }

  lemma {:induction false} RunPair(c: Client, n: Node, requests: seq<Line>, first: Line, second: Line)
    ensures var before := RunOutcome(c, n, requests);
            RunOutcome(c, n, requests + [first, second]) ==
            if before.0.Some? then before
            else
              var mid := Next(c, before.1, first, |requests|);
              if mid.0.Some? then mid else Next(c, mid.1, second, |requests| + 1)
  {
    assert requests + [first, second] == requests + [first] + [second];
    RunSnoc(c, n, requests, first);
    RunSnoc(c, n, requests + [first], second);
  }

  // ----- One request -----

  // The client stalls at most 60 times on the k-th request, and nothing interrupts the attempts up to that.
  ghost predicate SmoothFrom(c: Client, k: nat, attempt: nat) {
    && c.lag(k) <= REPLAY_SYNCING_RETRIES
    && (forall a :: attempt <= a <= c.lag(k) ==> !c.fails(k, a))
    && (forall a :: attempt <= a < c.lag(k) ==> !c.cancels(k, a))
  }

  // An error that leaves open whether the client could have got there.
  predicate GaveUp(error: CallError) {
    error == Transport || error == Cancelled || (error.StillWaiting? && error.retries == REPLAY_SYNCING_RETRIES)
  }

  // A processable request goes through exactly when it is smooth.
  lemma {:induction false} StallsTolerated(c: Client, n: Node, l: Line, attempt: nat)
    requires Processable(n, l) && attempt <= REPLAY_SYNCING_RETRIES && n.stalls == attempt <= c.lag(n.resolved)
    ensures SmoothFrom(c, n.resolved, attempt) ==> CallOutcome(c, n, l, attempt) == (None, Processed(n, l))
    ensures !SmoothFrom(c, n.resolved, attempt) ==>
              CallOutcome(c, n, l, attempt).0.Some? && GaveUp(CallOutcome(c, n, l, attempt).0.value)
    decreases REPLAY_SYNCING_RETRIES - attempt
  {
    var k := n.resolved;
    if !c.fails(k, attempt) && attempt < c.lag(k) && attempt < REPLAY_SYNCING_RETRIES && !c.cancels(k, attempt) {
      StallsTolerated(c, n.(stalls := n.stalls + 1), l, attempt + 1);
    }
  }

  // A client that is never interrupted on a request and could process it gives up on exactly those it stalls on
  // more than 60 times.
  lemma {:induction false} ExactlySixtyTolerated(c: Client, n: Node, l: Line)
    requires Processable(n, l) && n.stalls == 0 && forall a :: !c.fails(n.resolved, a) && !c.cancels(n.resolved, a)
    ensures CallOutcome(c, n, l, 0).0 == None <==> c.lag(n.resolved) <= REPLAY_SYNCING_RETRIES
  {
    StallsTolerated(c, n, l, 0);
  }

  // A request the client cannot process is given up on, after 60 retries if nothing interrupts, with the client
  // as it was.
  lemma {:induction false} UnprocessableFails(c: Client, n: Node, l: Line, attempt: nat)
    requires !Processable(n, l) && attempt <= REPLAY_SYNCING_RETRIES
    requires l.NewPayload? ==> PayloadBlockRef(l.payload).Success?
    ensures CallOutcome(c, n, l, attempt).1 == n
    ensures CallOutcome(c, n, l, attempt).0.Some? && GaveUp(CallOutcome(c, n, l, attempt).0.value)
    ensures (forall a :: !c.fails(n.resolved, a) && !c.cancels(n.resolved, a)) ==>
              CallOutcome(c, n, l, attempt).0 == Some(StillWaiting(Stall(c, n), REPLAY_SYNCING_RETRIES))
    decreases REPLAY_SYNCING_RETRIES - attempt
  {
    if !c.fails(n.resolved, attempt) && attempt < REPLAY_SYNCING_RETRIES && !c.cancels(n.resolved, attempt) {
      UnprocessableFails(c, n, l, attempt + 1);
    }
  }

  // ----- A whole bundle -----

  ghost predicate Linked(kept: seq<Payload>)
    requires Refs(kept)
  {
    forall i :: 0 < i < |kept| ==> PayloadBlockRef(kept[i]).value.parentHash == PayloadBlockRef(kept[i - 1]).value.hash
  }

  function HashesOf(kept: seq<Payload>): set<string>
    requires Refs(kept)
  {
    if kept == [] then {} else HashesOf(kept[..|kept| - 1]) + {PayloadBlockRef(kept[|kept| - 1]).value.hash}
  }

  // The client after replaying kept in full.
  function Advanced(n: Node, kept: seq<Payload>): Node
    requires Refs(kept)
  {
    Node(n.known + HashesOf(kept), if kept == [] then n.head else PayloadBlockRef(kept[|kept| - 1]).value.hash,
         n.resolved + 2 * |kept|, 0)
  }

  ghost predicate Tolerable(c: Client, n: Node, lines: nat) {
    forall k :: n.resolved <= k < n.resolved + lines ==> SmoothFrom(c, k, 0)
  }

  ghost predicate GivesUpAt(outcome: (Option<ReplayError>, Node), line: nat) {
    outcome.0.Some? && outcome.0.value.LineFailed? && outcome.0.value.line == line && GaveUp(outcome.0.value.cause)
  }

  lemma {:induction false} BundleLinesLength(kept: seq<Payload>)
    requires Refs(kept)
    ensures |BundleLines(kept)| == 2 * |kept|
  {
    if kept != [] {
      BundleLinesLength(kept[..|kept| - 1]);
    }
  }

  lemma {:induction false} BundleLinesSnoc(kept: seq<Payload>)
    requires kept != [] && Refs(kept)
    ensures BundleLines(kept) == BundleLines(kept[..|kept| - 1]) + [LastPair(kept)[0], LastPair(kept)[1]]
  {
  }

  lemma {:induction false} TipKnown(n: Node, kept: seq<Payload>)
    requires kept != [] && Refs(kept) && Linked(kept) && PayloadBlockRef(kept[0]).value.parentHash in n.known
    ensures Processable(Advanced(n, kept[..|kept| - 1]), LastPair(kept)[0])
    ensures Processable(Processed(Advanced(n, kept[..|kept| - 1]), LastPair(kept)[0]), LastPair(kept)[1])
    ensures Processed(Processed(Advanced(n, kept[..|kept| - 1]), LastPair(kept)[0]), LastPair(kept)[1]) == Advanced(n, kept)
  {
    var m := |kept| - 1;
    if m > 0 {
      assert PayloadBlockRef(kept[m - 1]).value.hash in HashesOf(kept[..m]);
    }
    assert n.known + HashesOf(kept[..m]) + {PayloadBlockRef(kept[m]).value.hash} == n.known + HashesOf(kept);
  }

  lemma {:induction false} NextRequest(c: Client, n: Node, request: Line, k: nat)
    requires Processable(n, request) && n.stalls == 0
    ensures SmoothFrom(c, n.resolved, 0) ==> Next(c, n, request, k) == (None, Processed(n, request))
    ensures !SmoothFrom(c, n.resolved, 0) ==> GivesUpAt(Next(c, n, request, k), k)
  {
    StallsTolerated(c, n, request, 0);
  }

  // While the client stays within the tolerance, the replay follows the chain block by block.
  lemma {:induction false} ReplayFollowsChain(c: Client, n: Node, kept: seq<Payload>)
    requires Refs(kept) && Linked(kept) && n.stalls == 0
    requires kept != [] ==> PayloadBlockRef(kept[0]).value.parentHash in n.known
    requires Tolerable(c, n, 2 * |kept|)
    ensures RunOutcome(c, n, BundleLines(kept)) == (None, Advanced(n, kept))
  {
    if kept != [] {
      var m := |kept| - 1;
      ReplayFollowsChain(c, n, kept[..m]);
      var at, np, fcu := Advanced(n, kept[..m]), LastPair(kept)[0], LastPair(kept)[1];
      TipKnown(n, kept);
      BundleLinesSnoc(kept);
      RunPair(c, n, BundleLines(kept[..m]), np, fcu);
      assert SmoothFrom(c, n.resolved + 2 * m, 0) && SmoothFrom(c, n.resolved + 2 * m + 1, 0);
      NextRequest(c, at, np, 2 * m);
      NextRequest(c, Processed(at, np), fcu, 2 * m + 1);
      BundleLinesLength(kept[..m]);
    } else {
      assert n.known + {} == n.known;
    }
  }

  lemma {:induction false} FirstGivesUp(c: Client, n: Node, requests: seq<Line>, at: Node, first: Line, second: Line)
    requires RunOutcome(c, n, requests) == (None, at) && at.stalls == 0
    requires Processable(at, first) && !SmoothFrom(c, at.resolved, 0)
    ensures GivesUpAt(RunOutcome(c, n, requests + [first, second]), |requests|)
  {
    NextRequest(c, at, first, |requests|);
    RunPair(c, n, requests, first, second);
  }

  lemma {:induction false} SecondGivesUp(c: Client, n: Node, requests: seq<Line>, at: Node, first: Line, second: Line)
    requires RunOutcome(c, n, requests) == (None, at) && at.stalls == 0
    requires Processable(at, first) && Processable(Processed(at, first), second)
    requires SmoothFrom(c, at.resolved, 0) && !SmoothFrom(c, at.resolved + 1, 0)
    ensures GivesUpAt(RunOutcome(c, n, requests + [first, second]), |requests| + 1)
  {
    NextRequest(c, at, first, |requests|);
    NextRequest(c, Processed(at, first), second, |requests| + 1);
    RunPair(c, n, requests, first, second);
  }

  // Two more requests, the first that is not smooth among them.
  lemma {:induction false} PairGivesUp(c: Client, n: Node, requests: seq<Line>, at: Node, first: Line, second: Line, k: nat)
    requires RunOutcome(c, n, requests) == (None, at) && at.stalls == 0 && at.resolved == n.resolved + |requests|
    requires Processable(at, first) && Processable(Processed(at, first), second)
    requires |requests| <= k <= |requests| + 1 && Tolerable(c, n, k) && !SmoothFrom(c, n.resolved + k, 0)
    ensures GivesUpAt(RunOutcome(c, n, requests + [first, second]), k)
  {
    if k == |requests| {
      FirstGivesUp(c, n, requests, at, first, second);
    } else {
      assert SmoothFrom(c, n.resolved + |requests|, 0);
      SecondGivesUp(c, n, requests, at, first, second);
    }
  }

  lemma {:induction false} FrontReaches(c: Client, n: Node, kept: seq<Payload>)
    requires kept != [] && Refs(kept) && Linked(kept) && n.stalls == 0
    requires PayloadBlockRef(kept[0]).value.parentHash in n.known && Tolerable(c, n, 2 * (|kept| - 1))
    ensures var requests, at := BundleLines(kept[..|kept| - 1]), Advanced(n, kept[..|kept| - 1]);
            RunOutcome(c, n, requests) == (None, at) && |requests| == 2 * (|kept| - 1) && at.resolved == n.resolved + |requests|
  {
    ReplayFollowsChain(c, n, kept[..|kept| - 1]);
    BundleLinesLength(kept[..|kept| - 1]);
  }

  lemma {:induction false} GivesUpInLastPair(c: Client, n: Node, kept: seq<Payload>, k: nat)
    requires kept != [] && Refs(kept) && Linked(kept) && n.stalls == 0
    requires PayloadBlockRef(kept[0]).value.parentHash in n.known
    requires 2 * (|kept| - 1) <= k < 2 * |kept| && Tolerable(c, n, k) && !SmoothFrom(c, n.resolved + k, 0)
    ensures GivesUpAt(RunOutcome(c, n, BundleLines(kept)), k)
  {
    FrontReaches(c, n, kept);
    TipKnown(n, kept);
    var requests, pair := BundleLines(kept[..|kept| - 1]), LastPair(kept);
    PairGivesUp(c, n, requests, Advanced(n, kept[..|kept| - 1]), pair[0], pair[1], k);
    BundleLinesSnoc(kept);
  }

  lemma {:induction false} GivesUpBeforePair(c: Client, n: Node, requests: seq<Line>, first: Line, second: Line, k: nat)
    requires GivesUpAt(RunOutcome(c, n, requests), k)
    ensures GivesUpAt(RunOutcome(c, n, requests + [first, second]), k)
  {
    RunPair(c, n, requests, first, second);
  }

  // Otherwise it gives up on the first line that is not smooth.
  lemma {:induction false} ReplayGivesUp(c: Client, n: Node, kept: seq<Payload>, k: nat)
    requires kept != [] && Refs(kept) && Linked(kept) && n.stalls == 0
    requires PayloadBlockRef(kept[0]).value.parentHash in n.known
    requires k < 2 * |kept| && Tolerable(c, n, k) && !SmoothFrom(c, n.resolved + k, 0)
    ensures GivesUpAt(RunOutcome(c, n, BundleLines(kept)), k)
  {
    if k < 2 * (|kept| - 1) {
      var front := kept[..|kept| - 1];
      ReplayGivesUp(c, n, front, k);
      BundleLinesSnoc(kept);
      GivesUpBeforePair(c, n, BundleLines(front), LastPair(kept)[0], LastPair(kept)[1], k);
    } else {
      GivesUpInLastPair(c, n, kept, k);
    }
  }

  // A client without the start block fails on the first line and is left as it was.
  lemma {:induction false} ReplayNeedsStart(c: Client, n: Node, kept: seq<Payload>)
    requires kept != [] && Refs(kept) && PayloadBlockRef(kept[0]).value.parentHash !in n.known
    ensures var outcome := RunOutcome(c, n, BundleLines(kept)); GivesUpAt(outcome, 0) && outcome.1 == n
  {
    var m := |kept| - 1;
    BundleLinesSnoc(kept);
    RunPair(c, n, BundleLines(kept[..m]), LastPair(kept)[0], LastPair(kept)[1]);
    if m == 0 {
      UnprocessableFails(c, n, LastPair(kept)[0], 0);
    } else {
      ReplayNeedsStart(c, n, kept[..m]);
    }
  }

  lemma {:induction false} FirstIntolerable(c: Client, n: Node, lines: nat) returns (k: nat)
    requires !Tolerable(c, n, lines)
    ensures k < lines && Tolerable(c, n, k) && !SmoothFrom(c, n.resolved + k, 0)
  {
    k := 0;
    while k < lines && SmoothFrom(c, n.resolved + k, 0)
      invariant k <= lines && Tolerable(c, n, k)
    {
      k := k + 1;
    }
  }

  // The round trip: what the streaming writer wrote is read back line for line, and replaying it on a
  // client succeeds exactly when the client has the start block and every line is smooth: at most 60 stalls, and
  // no failed call or cancellation before it is through. Its head is then the recorded end block.
  lemma {:induction false} WriteReadReplay(c: Client, render: Line -> Bytes, d: Decoder, n: Node, ps: seq<Payload>)
    requires n.stalls == 0 && Faithful(render, d, BundleLines(Stream(ps).kept))
    requires Stream(ps).kept != [] && Refs(Stream(ps).kept) && Linked(Stream(ps).kept)
    ensures SummarizeBundle(Stream(ps).kept).Success?
    ensures var kept := Stream(ps).kept;
            var info, lines := SummarizeBundle(kept).value, NonBlank(d, Split(FileBytes(render, BundleLines(kept))));
            var (error, after) := ReplayOutcome(c, d, n, lines);
            && lines == Rendered(render, BundleLines(kept))
            && (error == None <==> info.startBlockHash in n.known && Tolerable(c, n, |lines|))
            && (error == None ==> after.head == info.endBlockHash && after.known == n.known + HashesOf(kept))
  {
    var kept := Stream(ps).kept;
    ReadBackIsWritten(render, d, BundleLines(kept));
    DecodedOutcome(c, render, d, n, BundleLines(kept));
    BundleLinesLength(kept);
    if PayloadBlockRef(kept[0]).value.parentHash !in n.known {
      ReplayNeedsStart(c, n, kept);
    } else if Tolerable(c, n, 2 * |kept|) {
      ReplayFollowsChain(c, n, kept);
    } else {
      var k := FirstIntolerable(c, n, 2 * |kept|);
      ReplayGivesUp(c, n, kept, k);
    }
  }
}
