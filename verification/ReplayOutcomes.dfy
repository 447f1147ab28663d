/**
What every outcome of a replay means: for any client, any state of it and any lines, which attempt ended a
request and why, and which line ended the replay.
*/
module ReplayOutcomes {
  import opened Wrappers
  import opened Lines
  import opened Bundle
  import opened BundleFile
  import opened Replay

  // ----- One request -----

  predicate Malformed(l: Line) { l.NewPayload? && PayloadBlockRef(l.payload).Failure? }

  // The client stalls on attempt a of a request that comes to it in state n.
  predicate StallsOn(c: Client, n: Node, l: Line, a: nat) {
    !Malformed(l) && (Processable(n, l) ==> n.stalls + a < c.lag(n.resolved))
  }

  // Attempts first to a - 1 were answered, all with stalls, and the replay waited after each.
  ghost predicate Retried(c: Client, n: Node, l: Line, first: nat, a: nat) {
    forall b :: first <= b < a ==> !c.fails(n.resolved, b) && StallsOn(c, n, l, b) && !c.cancels(n.resolved, b)
  }

  // Where a request leaves the client that was not through after a stalls.
  function Waiting(n: Node, l: Line, a: nat): Node { if Processable(n, l) then n.(stalls := n.stalls + a) else n }

  // Attempt a is the last one, and this is its outcome.
  ghost predicate EndsAt(c: Client, n: Node, l: Line, a: nat, error: Option<CallError>, after: Node) {
    var k := n.resolved;
    if c.fails(k, a) then error == Some(Transport) && after == Waiting(n, l, a)
    else if Malformed(l) then error == Some(CallError.Rejected(Invalid)) && after == n
    else if !StallsOn(c, n, l, a) then Processable(n, l) && error == None && after == Processed(n, l)
    else
      && after == Waiting(n, l, a + 1)
      && (if a == 60 then error.Some? && error.value.StillWaiting? && error.value.retries == 60 && error.value.status in {Syncing, Accepted}
          else c.cancels(k, a) && error == Some(Cancelled))
  }

  lemma {:induction false} CallEndsFrom(c: Client, n: Node, l: Line, attempt: nat, at: Node) returns (a: nat)
    requires attempt <= 60 && at == Waiting(n, l, attempt)
    ensures attempt <= a <= 60 && Retried(c, n, l, attempt, a)
    ensures var (error, after) := CallOutcome(c, at, l, attempt); EndsAt(c, n, l, a, error, after)
    decreases 60 - attempt
  {
    a := attempt;
    if !c.fails(n.resolved, attempt) && StallsOn(c, n, l, attempt) && attempt < 60 && !c.cancels(n.resolved, attempt) {
      a := CallEndsFrom(c, n, l, attempt + 1, Waiting(n, l, attempt + 1));
    }
  }

  // Every request ends at some attempt, with the outcome of that attempt.
  lemma {:induction false} CallEnds(c: Client, n: Node, l: Line) returns (a: nat)
    ensures a <= 60 && Retried(c, n, l, 0, a)
    ensures var (error, after) := CallOutcome(c, n, l, 0); EndsAt(c, n, l, a, error, after)
  {
    a := CallEndsFrom(c, n, l, 0, n);
  }

  // At attempt a the client answers VALID, after stalls only and with nothing in the way.
  ghost predicate ValidAt(c: Client, n: Node, l: Line, a: nat) {
    Retried(c, n, l, 0, a) && !c.fails(n.resolved, a) && !Malformed(l) && !StallsOn(c, n, l, a)
  }

  lemma {:induction false} ValidOnce(c: Client, n: Node, l: Line, a: nat, b: nat)
    requires Retried(c, n, l, 0, a) && (c.fails(n.resolved, a) || !StallsOn(c, n, l, a) || c.cancels(n.resolved, a) || a == 60)
    requires b <= 60 && ValidAt(c, n, l, b)
    ensures a == b
  {
  }

  // Success means that the client could process the request, answered it VALID within 60 retries and has
  // processed it; a payload that does not decode is rejected as INVALID, unless its call fails, and leaves
  // the client as it was.
  lemma {:induction false} CallOutcomeMeans(c: Client, n: Node, l: Line)
    ensures var (error, after) := CallOutcome(c, n, l, 0);
            && (error == None <==> Processable(n, l) && exists a: nat :: a <= 60 && ValidAt(c, n, l, a))
            && (error == None ==> after == Processed(n, l))
            && (error == Some(CallError.Rejected(Invalid)) <==> Malformed(l) && !c.fails(n.resolved, 0))
            && (Malformed(l) ==> after == n)
            && (error.Some? && error.value.Rejected? ==> error.value.status == Invalid)
  {
    var a := CallEnds(c, n, l);
    var (error, after) := CallOutcome(c, n, l, 0);
    if error == None {
      assert ValidAt(c, n, l, a);
    }
    forall other: nat | other <= 60 && ValidAt(c, n, l, other)
      ensures other == a
    {
      ValidOnce(c, n, l, a, other);
    }
    assert 0 < a ==> StallsOn(c, n, l, 0);
  }

  // The other errors: the call failed, the replay was cancelled while it waited, or the client still
  // stalled on the sixtieth retry.
  lemma {:induction false} CallErrorMeans(c: Client, n: Node, l: Line) returns (a: nat)
    requires CallOutcome(c, n, l, 0).0.Some?
    ensures a <= 60 && Retried(c, n, l, 0, a)
    ensures match CallOutcome(c, n, l, 0).0.value
            case Transport => c.fails(n.resolved, a)
            case Cancelled => a < 60 && c.cancels(n.resolved, a) && StallsOn(c, n, l, a)
            case StillWaiting(status, retries) => retries == a == 60 && StallsOn(c, n, l, 60) && status in {Syncing, Accepted}
            case Rejected(status) => a == 0 && Malformed(l) && status == Invalid
  {
    a := CallEnds(c, n, l);
    assert 0 < a ==> StallsOn(c, n, l, 0);
  }

  // ----- A whole bundle -----

  // The line decodes, the client answers VALID and has processed the request.
  ghost predicate GoesThrough(c: Client, d: Decoder, n: Node, line: Bytes, after: Node) {
    match d.request(line)
    case None => false
    case Some(l) => Processable(n, l) && (exists a: nat :: a <= 60 && ValidAt(c, n, l, a)) && after == Processed(n, l)
  }

  // The first k lines go through, and take the client from state to state.
  ghost predicate Through(c: Client, d: Decoder, n: Node, lines: seq<Bytes>, k: nat, nodes: seq<Node>) {
    && k <= |lines| && |nodes| == k + 1 && nodes[0] == n
    && forall i :: 0 <= i < k ==> GoesThrough(c, d, nodes[i], lines[i], nodes[i + 1])
  }

  // The line that ends a replay at a client in state n, with its cause.
  ghost predicate StopsAt(c: Client, d: Decoder, n: Node, line: Bytes, k: nat, error: ReplayError, after: Node) {
    match d.request(line)
    case None => error == BadLine(k) && after == n
    case Some(l) =>
      && (!Processable(n, l) || forall a: nat :: a <= 60 ==> !ValidAt(c, n, l, a))
      && error.LineFailed? && error.line == k && (Some(error.cause), after) == CallOutcome(c, n, l, 0)
  }

  lemma {:induction false} LineEnds(c: Client, d: Decoder, n: Node, lines: seq<Bytes>)
    requires lines != [] && ReplayOutcome(c, d, n, lines[..|lines| - 1]).0 == None
    ensures var k, at := |lines| - 1, ReplayOutcome(c, d, n, lines[..|lines| - 1]).1;
            var (error, after) := ReplayOutcome(c, d, n, lines);
            if error == None then GoesThrough(c, d, at, lines[k], after) else StopsAt(c, d, at, lines[k], k, error.value, after)
  {
    var k, at := |lines| - 1, ReplayOutcome(c, d, n, lines[..|lines| - 1]).1;
    if d.request(lines[k]).Some? {
      CallOutcomeMeans(c, at, d.request(lines[k]).value);
    }
  }

  lemma {:induction false} ThroughOneMore(c: Client, d: Decoder, n: Node, lines: seq<Bytes>, k: nat, nodes: seq<Node>, after: Node)
    requires Through(c, d, n, lines, k, nodes) && k < |lines| && GoesThrough(c, d, nodes[k], lines[k], after)
    ensures Through(c, d, n, lines, k + 1, nodes + [after])
  {
  }

  // A replay gets through the lines before the one that ends it, and ends at the first that does not decode
  // or is not answered VALID; without such a line it succeeds.
  lemma {:induction false} ReplayEnds(c: Client, d: Decoder, n: Node, lines: seq<Bytes>) returns (k: nat, nodes: seq<Node>)
    ensures Through(c, d, n, lines, k, nodes)
    ensures var (error, after) := ReplayOutcome(c, d, n, lines);
            if k == |lines| then error == None && after == nodes[k]
            else error.Some? && StopsAt(c, d, nodes[k], lines[k], k, error.value, after)
    decreases |lines|
  {
    if lines == [] {
      k, nodes := 0, [n];
    } else {
      var front := lines[..|lines| - 1];
      k, nodes := ReplayEnds(c, d, n, front);
      assert forall i :: 0 <= i < |front| ==> front[i] == lines[i];
      if k == |front| {
        LineEnds(c, d, n, lines);
        var (error, after) := ReplayOutcome(c, d, n, lines);
        if error == None {
          ThroughOneMore(c, d, n, lines, k, nodes, after);
          k, nodes := k + 1, nodes + [after];
        }
      }
    }
  }

  predicate Imports(d: Decoder, line: Bytes, hash: string) {
    match d.request(line)
    case Some(NewPayload(_, p)) => PayloadBlockRef(p).Success? && PayloadBlockRef(p).value.hash == hash
    case _ => false
  }

  predicate SetsHead(d: Decoder, line: Bytes) { d.request(line).Some? && d.request(line).value.ForkchoiceUpdated? }

  ghost predicate ImportedAmong(d: Decoder, lines: seq<Bytes>, k: nat, hash: string)
    requires k <= |lines|
  {
    exists i :: 0 <= i < k && Imports(d, lines[i], hash)
  }

  // No line from i up to k sets the head.
  ghost predicate NoHeadSet(d: Decoder, lines: seq<Bytes>, i: nat, k: nat)
    requires k <= |lines|
  {
    forall j :: i <= j < k ==> !SetsHead(d, lines[j])
  }

  lemma {:induction false} LineChanges(c: Client, d: Decoder, n: Node, line: Bytes, after: Node, hash: string)
    requires GoesThrough(c, d, n, line, after)
    ensures hash in after.known <==> hash in n.known || Imports(d, line, hash)
    ensures after.head == if SetsHead(d, line) then d.request(line).value.hash else n.head
    ensures after.resolved == n.resolved + 1
  {
  }

  lemma {:induction false} ThroughFront(c: Client, d: Decoder, n: Node, lines: seq<Bytes>, k: nat, nodes: seq<Node>)
    requires Through(c, d, n, lines, k, nodes) && k > 0
    ensures Through(c, d, n, lines, k - 1, nodes[..k]) && GoesThrough(c, d, nodes[k - 1], lines[k - 1], nodes[k])
  {
    assert nodes[k - 1 + 1] == nodes[k];
  }

  lemma {:induction false} KnownAfter(c: Client, d: Decoder, n: Node, lines: seq<Bytes>, k: nat, nodes: seq<Node>, hash: string)
    requires Through(c, d, n, lines, k, nodes)
    ensures hash in nodes[k].known <==> hash in n.known || ImportedAmong(d, lines, k, hash)
    ensures nodes[k].resolved == n.resolved + k
    decreases k
  {
    if k > 0 {
      ThroughFront(c, d, n, lines, k, nodes);
      KnownAfter(c, d, n, lines, k - 1, nodes[..k], hash);
      LineChanges(c, d, nodes[k - 1], lines[k - 1], nodes[k], hash);
      assert nodes[..k][k - 1] == nodes[k - 1];
      assert ImportedAmong(d, lines, k, hash) <==> ImportedAmong(d, lines, k - 1, hash) || Imports(d, lines[k - 1], hash);
    }
  }

  lemma {:induction false} HeadAfter(c: Client, d: Decoder, n: Node, lines: seq<Bytes>, k: nat, nodes: seq<Node>)
    requires Through(c, d, n, lines, k, nodes)
    ensures NoHeadSet(d, lines, 0, k) ==> nodes[k].head == n.head
    ensures forall i: nat :: i < k && SetsHead(d, lines[i]) && NoHeadSet(d, lines, i + 1, k) ==>
              nodes[k].head == d.request(lines[i]).value.hash
    decreases k
  {
    if k > 0 {
      ThroughFront(c, d, n, lines, k, nodes);
      HeadAfter(c, d, n, lines, k - 1, nodes[..k]);
      LineChanges(c, d, nodes[k - 1], lines[k - 1], nodes[k], "");
      assert nodes[..k][k - 1] == nodes[k - 1];
      forall i: nat | i < k && SetsHead(d, lines[i]) && NoHeadSet(d, lines, i + 1, k)
        ensures nodes[k].head == d.request(lines[i]).value.hash
      {
        if i < k - 1 { assert NoHeadSet(d, lines, i + 1, k - 1); }
      }
    }
  }

  // The lines that went through leave the client with the blocks they import and the head set last.
  lemma {:induction false} ThroughState(c: Client, d: Decoder, n: Node, lines: seq<Bytes>, k: nat, nodes: seq<Node>)
    requires Through(c, d, n, lines, k, nodes)
    ensures forall hash :: hash in nodes[k].known <==> hash in n.known || ImportedAmong(d, lines, k, hash)
    ensures NoHeadSet(d, lines, 0, k) ==> nodes[k].head == n.head
    ensures forall i: nat :: i < k && SetsHead(d, lines[i]) && NoHeadSet(d, lines, i + 1, k) ==>
              nodes[k].head == d.request(lines[i]).value.hash
    ensures nodes[k].resolved == n.resolved + k
  {
    forall hash
      ensures hash in nodes[k].known <==> hash in n.known || ImportedAmong(d, lines, k, hash)
    {
      KnownAfter(c, d, n, lines, k, nodes, hash);
    }
    KnownAfter(c, d, n, lines, k, nodes, "");
    HeadAfter(c, d, n, lines, k, nodes);
  }
}
