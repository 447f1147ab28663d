/**
The bundle on disk: reading its request lines back, and recovering its end block by scanning the tail
of the file in doubling windows instead of reading all of it.

Text trimming and JSON decoding of one line are a parameter (Decoder); nothing is assumed of it except
where a lemma says that it undoes the writer's encoding.
*/
module BundleFile {
  import opened Wrappers
  import opened Lines
  import opened Bundle

  const TAIL_CHUNK: nat := 0x80_0000    // 8 MiB
  const TAIL_MAX: nat := 0x2000_0000    // 512 MiB

  // block is the block an engine_newPayload request line names, None for any other or malformed line.
  datatype Decoder = Decoder(trim: Bytes -> Bytes, block: Bytes -> Option<BlockRef>, request: Bytes -> Option<Line>)

  function LineBlock(d: Decoder, line: Bytes): Option<BlockRef> {
    if d.trim(line) == [] then None else d.block(d.trim(line))
  }

  // ----- The last payload line of a list of lines -----

  // The block of the last line naming one.
  function LastBlock(d: Decoder, lines: seq<Bytes>): Option<BlockRef> {
    if lines == [] then None
    else if LineBlock(d, lines[|lines| - 1]).Some? then LineBlock(d, lines[|lines| - 1])
    else LastBlock(d, lines[..|lines| - 1])
  }

  // The line is not blank, and what is left after trimming names a block.
  predicate Names(d: Decoder, line: Bytes, ref: BlockRef) {
    d.trim(line) != [] && d.block(d.trim(line)) == Some(ref)
  }

  ghost predicate IsLastNamed(d: Decoder, lines: seq<Bytes>, ref: BlockRef) {
    exists i :: 0 <= i < |lines| && Names(d, lines[i], ref) && forall j, other :: i < j < |lines| ==> !Names(d, lines[j], other)
  }

  lemma {:induction false} LastBlockMeans(d: Decoder, lines: seq<Bytes>)
    ensures LastBlock(d, lines) == None ==> forall i, ref :: 0 <= i < |lines| ==> !Names(d, lines[i], ref)
    ensures LastBlock(d, lines).Some? ==> IsLastNamed(d, lines, LastBlock(d, lines).value)
  {
    if lines != [] {
      var n := |lines| - 1;
      LastBlockMeans(d, lines[..n]);
      if LineBlock(d, lines[n]).Some? {
        assert Names(d, lines[n], LastBlock(d, lines).value);
      } else if LastBlock(d, lines).Some? {
        var ref := LastBlock(d, lines).value;
        var i :| 0 <= i < n && Names(d, lines[..n][i], ref) && forall j, other :: i < j < n ==> !Names(d, lines[..n][j], other);
        assert Names(d, lines[i], ref);
        forall j, other | i < j < |lines| ensures !Names(d, lines[j], other) {
          if j < n { assert lines[..n][j] == lines[j]; }
        }
      } else {
        forall i, ref | 0 <= i < |lines| ensures !Names(d, lines[i], ref) {
          if i < n { assert lines[..n][i] == lines[i]; }
        }
      }
    }
  }

  method LastPayloadRef(d: Decoder, lines: seq<Bytes>) returns (ref: Option<BlockRef>)
    ensures ref == LastBlock(d, lines)
    ensures ref == None ==> forall i, other :: 0 <= i < |lines| ==> !Names(d, lines[i], other)
    ensures ref.Some? ==> IsLastNamed(d, lines, ref.value)
  {
    LastBlockMeans(d, lines);
    var i := |lines| - 1;
    assert lines[..i + 1] == lines;
    while i >= 0
      invariant -1 <= i < |lines|
      invariant LastBlock(d, lines) == LastBlock(d, lines[..i + 1])
    {
      var line := d.trim(lines[i]);
      assert lines[..i + 1][..i] == lines[..i];
      if line != [] {
        ref := d.block(line);
        if ref.Some? {
          return;
        }
      }
      i := i - 1;
    }
    return None;
  }

  lemma {:induction false} LastBlockAppend(d: Decoder, front: seq<Bytes>, back: seq<Bytes>)
    ensures LastBlock(d, front + back) == if LastBlock(d, back).Some? then LastBlock(d, back) else LastBlock(d, front)
  {
    if back == [] {
      assert front + back == front;
    } else {
      assert (front + back)[..|front + back| - 1] == front + back[..|back| - 1];
      LastBlockAppend(d, front, back[..|back| - 1]);
    }
  }

  // ----- The window scan -----

  // The whole lines within the last window bytes: all of them when the window covers the file, and
  // otherwise without the first piece, which may be cut.
  function TailLines(file: Bytes, window: nat): seq<Bytes> {
    if window >= |file| then Split(file) else Split(file[|file| - window..])[1..]
  }

  datatype TailError = NoPayloadInBundle | NoPayloadInTail(window: nat)

  // An absent file is no error and no info. A derived info carries only the end block.
  method DeriveBundleInfo(d: Decoder, file: Option<Bytes>) returns (r: Result<Option<BundleInfo>, TailError>)
    ensures file.None? ==> r == Success(None)
    ensures file.Some? ==>
              match LastBlock(d, TailLines(file.value, TAIL_MAX))
              case Some(ref) => r == Success(Some(BundleInfo(0, 0, "", ref.number, ref.hash)))
              case None => r == Failure(if TAIL_MAX >= |file.value| then NoPayloadInBundle else NoPayloadInTail(TAIL_MAX))
  {
    if file.None? {
      return Success(None);
    }
    var size := |file.value|;
    var window := TAIL_CHUNK;
    while true
      invariant IsWindow(window)
      decreases TAIL_MAX - window
    {
      var from := if size < window then 0 else size - window;
      var buf := file.value[from..];
      var lines := Split(buf);
      if from > 0 {
        lines := lines[1..];
      }
      assert lines == TailLines(file.value, window) by {
        if from == 0 { assert buf == file.value; }
      }
      WiderWindowAgrees(d, file.value, window, TAIL_MAX);
      var ref := LastPayloadRef(d, lines);
      if ref.Some? {
        return Success(Some(BundleInfo(0, 0, "", ref.value.number, ref.value.hash)));
      }
      if from == 0 {
        return Failure(NoPayloadInBundle);
      }
      if window >= TAIL_MAX {
        return Failure(NoPayloadInTail(window));
      }
      window := window * 2;
    }
  }

  // 8 MiB doubled up to six times.
  predicate IsWindow(w: nat) {
    w == 0x80_0000 || w == 0x100_0000 || w == 0x200_0000 || w == 0x400_0000 || w == 0x800_0000
    || w == 0x1000_0000 || w == 0x2000_0000
  }

  lemma {:induction false} PiecesAfterCut(a: Bytes, b: Bytes) returns (front: seq<Bytes>)
    ensures |front| >= 1 && Split(a + b) == front + Split(b)[1..]
  {
    SplitAppend(a, b);
    front := Split(a)[..|Split(a)| - 1] + [Split(a)[|Split(a)| - 1] + Split(b)[0]];
  }

  lemma {:induction false} PiecesOfTail(whole: Bytes, narrow: nat) returns (front: seq<Bytes>)
    requires narrow <= |whole|
    ensures |front| >= 1 && Split(whole) == front + Split(whole[|whole| - narrow..])[1..]
  {
    var cut := |whole| - narrow;
    assert whole == whole[..cut] + whole[cut..];
    front := PiecesAfterCut(whole[..cut], whole[cut..]);
  }

  lemma {:induction false} NarrowTailOfFile(file: Bytes, narrow: nat, wide: nat) returns (front: seq<Bytes>)
    requires narrow < |file| <= wide
    ensures TailLines(file, wide) == front + TailLines(file, narrow)
  {
    front := PiecesOfTail(file, narrow);
  }

  lemma {:induction false} NarrowTailOfWindow(file: Bytes, narrow: nat, wide: nat) returns (front: seq<Bytes>)
    requires narrow <= wide < |file|
    ensures TailLines(file, wide) == front + TailLines(file, narrow)
  {
    var whole := file[|file| - wide..];
    assert whole[|whole| - narrow..] == file[|file| - narrow..];
    var glued := PiecesOfTail(whole, narrow);
    front := glued[1..];
    DropFirst(glued, TailLines(file, narrow));
  }

  // The lines of a narrower window end the lines of a wider one.
  lemma {:induction false} NarrowTailIsSuffix(file: Bytes, narrow: nat, wide: nat) returns (front: seq<Bytes>)
    requires narrow <= wide
    ensures TailLines(file, wide) == front + TailLines(file, narrow)
  {
    if narrow >= |file| {
      front := [];
      assert front + TailLines(file, narrow) == TailLines(file, narrow);
    } else if wide >= |file| {
      front := NarrowTailOfFile(file, narrow, wide);
    } else {
      front := NarrowTailOfWindow(file, narrow, wide);
    }
  }

  lemma {:induction false} DropFirst(a: seq<Bytes>, b: seq<Bytes>)
    requires a != []
    ensures (a + b)[1..] == a[1..] + b
  {
  }

  lemma {:induction false} WiderWindowAgrees(d: Decoder, file: Bytes, narrow: nat, wide: nat)
    requires narrow <= wide
    ensures LastBlock(d, TailLines(file, narrow)).Some? ==> LastBlock(d, TailLines(file, wide)) == LastBlock(d, TailLines(file, narrow))
  {
    var front := NarrowTailIsSuffix(file, narrow, wide);
    LastBlockAppend(d, front, TailLines(file, narrow));
  }

  // A block found in any window is the one a full read would find, cut first and last lines included.
  lemma {:induction false} FoundInTailIsLastInFile(d: Decoder, file: Bytes, window: nat)
    requires LastBlock(d, TailLines(file, window)).Some?
    ensures LastBlock(d, Split(file)) == LastBlock(d, TailLines(file, window))
  {
    if window < |file| {
      WiderWindowAgrees(d, file, window, |file|);
    }
  }

  // ----- A finished bundle -----

  const NEW_PAYLOAD_PREFIX := "engine_newPayload"

  function LineRef(l: Line): Option<BlockRef> {
    match l
    case NewPayload(_, p) =>
      if NEW_PAYLOAD_PREFIX <= p.method_ && PayloadBlockRef(p).Success? then Some(PayloadBlockRef(p).value) else None
    case ForkchoiceUpdated(_, _) => None
  }

  // The decoder undoes the encoding of these request lines, which are single, non-blank lines of text.
  ghost predicate Faithful(render: Line -> Bytes, d: Decoder, lines: seq<Line>) {
    && d.trim([]) == []
    && forall i :: 0 <= i < |lines| ==> Undone(render, d, lines[i])
  }

  ghost predicate Undone(render: Line -> Bytes, d: Decoder, l: Line) {
    && NewlineFree(render(l)) && d.trim(render(l)) != []
    && d.request(render(l)) == Some(l) && d.block(d.trim(render(l))) == LineRef(l)
  }

  function Position(lines: seq<Line>, l: Line): nat {
    if lines == [] || lines[0] == l then 0 else 1 + Position(lines[1..], l)
  }

  lemma {:induction false} PositionFinds(lines: seq<Line>, i: nat)
    requires i < |lines|
    ensures Position(lines, lines[i]) < |lines| && lines[Position(lines, lines[i])] == lines[i]
  {
    if lines[0] != lines[i] {
      PositionFinds(lines[1..], i - 1);
    }
  }

  function Ones(n: nat): (r: Bytes)
    ensures |r| == n && NewlineFree(r)
  {
    seq(n, _ => 1)
  }

  function LineNumbered(lines: seq<Line>, text: Bytes): Option<Line> {
    if 1 <= |text| <= |lines| then Some(lines[|text| - 1]) else None
  }

  // There are such encodings, for any lines: number them in unary.
  lemma {:induction false} FaithfulEncodingExists(lines: seq<Line>) returns (render: Line -> Bytes, d: Decoder)
    ensures Faithful(render, d, lines)
  {
    render := l => Ones(Position(lines, l) + 1);
    d := Decoder(text => text,
                 text => match LineNumbered(lines, text) case Some(l) => LineRef(l) case None => None,
                 text => LineNumbered(lines, text));
    forall i | 0 <= i < |lines| ensures Undone(render, d, lines[i]) {
      PositionFinds(lines, i);
    }
  }

  lemma {:induction false} FaithfulPart(render: Line -> Bytes, d: Decoder, front: seq<Line>, part: seq<Line>, back: seq<Line>)
    requires Faithful(render, d, front + part + back)
    ensures Faithful(render, d, part)
  {
    var all := front + part + back;
    forall i | 0 <= i < |part| ensures Undone(render, d, part[i]) {
      assert all[|front| + i] == part[i];
    }
  }

  function Rendered(render: Line -> Bytes, lines: seq<Line>): (r: seq<Bytes>)
    ensures |r| == |lines| && forall i :: 0 <= i < |lines| ==> r[i] == render(lines[i])
  {
    seq(|lines|, i requires 0 <= i < |lines| => render(lines[i]))
  }

  function FileBytes(render: Line -> Bytes, lines: seq<Line>): Bytes { Terminated(Rendered(render, lines)) }

  // The pair of lines of the last payload.
  function LastPair(kept: seq<Payload>): seq<Line>
    requires kept != [] && Refs(kept)
  {
    PayloadRequestLines(kept[|kept| - 1], |kept|).value
  }

  lemma {:induction false} TerminatedAppend(a: seq<Bytes>, b: seq<Bytes>)
    ensures Terminated(a + b) == Terminated(a) + Terminated(b)
  {
    if a == [] {
      assert a + b == b;
    } else {
      assert (a + b)[1..] == a[1..] + b;
      TerminatedAppend(a[1..], b);
      assert a[0] + [NEWLINE] + (Terminated(a[1..]) + Terminated(b)) == (a[0] + [NEWLINE] + Terminated(a[1..])) + Terminated(b);
    }
  }

  lemma {:induction false} TerminatedEnd(lines: seq<Bytes>) returns (front: Bytes)
    requires lines != []
    ensures Terminated(lines) == front + [NEWLINE]
  {
    var n := |lines| - 1;
    TerminatedAppend(lines[..n], [lines[n]]);
    assert lines == lines[..n] + [lines[n]];
    assert Terminated([lines[n]]) == lines[n] + [NEWLINE] + [] == lines[n] + [NEWLINE];
    front := Terminated(lines[..n]) + lines[n];
    assert Terminated(lines[..n]) + (lines[n] + [NEWLINE]) == front + [NEWLINE];
  }

  // Whatever comes before them, the last pair of lines names the last payload's block.
  lemma {:induction false} PairNamesBlock(render: Line -> Bytes, d: Decoder, kept: seq<Payload>, before: seq<Bytes>)
    requires kept != [] && Refs(kept) && NEW_PAYLOAD_PREFIX <= kept[|kept| - 1].method_
    requires Faithful(render, d, LastPair(kept))
    ensures LastBlock(d, before + Split(FileBytes(render, LastPair(kept)))) == Some(PayloadBlockRef(kept[|kept| - 1]).value)
  {
    var pair := LastPair(kept);
    var np, fcu := render(pair[0]), render(pair[1]);
    var lines := Rendered(render, pair);
    assert lines == [np, fcu];
    assert Undone(render, d, pair[0]) && Undone(render, d, pair[1]);
    SplitTerminated(lines);
    var pieces := before + Split(FileBytes(render, pair));
    assert pieces == before + [np] + [fcu] + [[]];
    var n := |before|;
    assert pieces[..n + 2] == before + [np] + [fcu] && (before + [np] + [fcu])[..n + 1] == before + [np];
    assert LineBlock(d, []) == None && LineBlock(d, fcu) == None;
    assert LineBlock(d, np) == Some(PayloadBlockRef(kept[|kept| - 1]).value);
    assert LastBlock(d, pieces) == LastBlock(d, before + [np] + [fcu]);
    assert (before + [np] + [fcu])[n + 1] == fcu && (before + [np])[n] == np && (before + [np])[..n] == before;
    assert LastBlock(d, before + [np] + [fcu]) == LastBlock(d, before + [np]);
    assert LastBlock(d, before + [np]) == LineBlock(d, np);
  }

  lemma {:induction false} RenderedAppend(render: Line -> Bytes, a: seq<Line>, b: seq<Line>)
    ensures FileBytes(render, a + b) == FileBytes(render, a) + FileBytes(render, b)
  {
    assert Rendered(render, a + b) == Rendered(render, a) + Rendered(render, b);
    TerminatedAppend(Rendered(render, a), Rendered(render, b));
  }

  // Reading a finished bundle whole finds the end block its writer recorded.
  lemma {:induction false} FinishedBundleEnd(render: Line -> Bytes, d: Decoder, kept: seq<Payload>)
    requires Faithful(render, d, BundleLines(kept)) && kept != [] && Refs(kept) && NEW_PAYLOAD_PREFIX <= kept[|kept| - 1].method_
    ensures SummarizeBundle(kept).Success?
    ensures LastBlock(d, Split(FileBytes(render, BundleLines(kept)))) == Some(PayloadBlockRef(kept[|kept| - 1]).value)
    ensures var ref, info := PayloadBlockRef(kept[|kept| - 1]).value, SummarizeBundle(kept).value;
            ref.number == info.endBlockNumber && ref.hash == info.endBlockHash
  {
    var front, pair := BundleLines(kept[..|kept| - 1]), LastPair(kept);
    RenderedAppend(render, front, pair);
    assert front + pair + [] == BundleLines(kept);
    FaithfulPart(render, d, front, pair, []);
    var head, tail := FileBytes(render, front), FileBytes(render, pair);
    SplitAppend(head, tail);
    if front == [] {
      assert head + tail == tail;
      PairNamesBlock(render, d, kept, []);
      assert [] + Split(tail) == Split(tail);
    } else {
      var text := TerminatedEnd(Rendered(render, front));
      SplitAfterNewline(text, tail);
      PairNamesBlock(render, d, kept, Split(text));
    }
  }

  lemma {:induction false} SplitAfterNewline(text: Bytes, rest: Bytes)
    ensures Split(text + [NEWLINE] + rest) == Split(text) + Split(rest)
  {
    SplitAppend(text, [NEWLINE] + rest);
    assert text + ([NEWLINE] + rest) == text + [NEWLINE] + rest;
    assert ([NEWLINE] + rest)[1..] == rest;
    var pieces := Split(text);
    assert pieces[|pieces| - 1] + [] == pieces[|pieces| - 1];
    assert pieces == pieces[..|pieces| - 1] + [pieces[|pieces| - 1]];
  }

  // The tail scan finds it too whenever the last pair of lines is shorter than the widest window; so
  // with shorter lines DeriveBundleInfo returns exactly the writer's end block, on a file of any size.
  lemma {:induction false} FinishedBundleTail(render: Line -> Bytes, d: Decoder, kept: seq<Payload>, window: nat)
    requires Faithful(render, d, BundleLines(kept)) && kept != [] && Refs(kept) && NEW_PAYLOAD_PREFIX <= kept[|kept| - 1].method_
    requires |FileBytes(render, LastPair(kept))| < window
    ensures LastBlock(d, TailLines(FileBytes(render, BundleLines(kept)), window)) == Some(PayloadBlockRef(kept[|kept| - 1]).value)
  {
    var file := FileBytes(render, BundleLines(kept));
    FinishedBundleEnd(render, d, kept);
    if window < |file| {
      var front, pair := BundleLines(kept[..|kept| - 1]), LastPair(kept);
      RenderedAppend(render, front, pair);
      assert front + pair + [] == BundleLines(kept);
      FaithfulPart(render, d, front, pair, []);
      var head, tail := FileBytes(render, front), FileBytes(render, pair);
      assert head != [];
      var text := TerminatedEnd(Rendered(render, front));
      var before := TailAfterNewline(text, tail, window);
      PairNamesBlock(render, d, kept, before);
    }
  }

  lemma {:induction false} TailAfterNewline(text: Bytes, tail: Bytes, window: nat) returns (before: seq<Bytes>)
    requires |tail| < window < |text + [NEWLINE] + tail|
    ensures TailLines(text + [NEWLINE] + tail, window) == before + Split(tail)
  {
    var file := text + [NEWLINE] + tail;
    var cut := |file| - window;
    assert file[cut..] == text[cut..] + [NEWLINE] + tail;
    SplitAfterNewline(text[cut..], tail);
    before := Split(text[cut..])[1..];
  }

  // ----- Reading the request lines back -----

  function NonBlank(d: Decoder, lines: seq<Bytes>): seq<Bytes> {
    if lines == [] then []
    else
      var n := |lines| - 1;
      NonBlank(d, lines[..n]) + (if d.trim(lines[n]) != [] then [lines[n]] else [])
  }

  ghost predicate AreNonBlank(d: Decoder, lines: seq<Bytes>, at: set<nat>) {
    forall i: nat :: i in at <==> i < |lines| && d.trim(lines[i]) != []
  }

  lemma {:induction false} NonBlankLast(d: Decoder, lines: seq<Bytes>, at: set<nat>)
    requires lines != [] && AreNonBlank(d, lines[..|lines| - 1], at)
    ensures AreNonBlank(d, lines, if d.trim(lines[|lines| - 1]) != [] then at + {|lines| - 1} else at)
  {
    forall i: nat | i < |lines| - 1 ensures lines[..|lines| - 1][i] == lines[i] {}
  }

  // What NonBlank picks are the lines that are not blank, in order.
  lemma {:induction false} NonBlankPicks(d: Decoder, lines: seq<Bytes>) returns (at: seq<nat>)
    ensures PicksAt(lines, at, NonBlank(d, lines)) && AreNonBlank(d, lines, Places(at))
  {
    at := [];
    if lines != [] {
      var n := |lines| - 1;
      var before := NonBlankPicks(d, lines[..n]);
      PicksLast(lines, before, NonBlank(d, lines[..n]));
      NonBlankLast(d, lines, Places(before));
      PlacesSnoc(before, n);
      at := if d.trim(lines[n]) != [] then before + [n] else before;
      assert NonBlank(d, lines) == NonBlank(d, lines[..n]) + (if d.trim(lines[n]) != [] then [lines[n]] else []);
    }
  }

  method ReadRequestLines(d: Decoder, data: Bytes) returns (lines: seq<Bytes>, ghost at: seq<nat>)
    ensures lines == NonBlank(d, Split(data))
    ensures PicksAt(Split(data), at, lines) && AreNonBlank(d, Split(data), Places(at))
  {
    var raw := Split(data);
    at := NonBlankPicks(d, raw);
    lines := [];
    for i := 0 to |raw|
      invariant lines == NonBlank(d, raw[..i])
    {
      assert raw[..i + 1][..i] == raw[..i];
      if d.trim(raw[i]) != [] {
        lines := lines + [raw[i]];
      }
    }
    assert raw[..|raw|] == raw;
  }

  lemma {:induction false} NonBlankKeepsAll(d: Decoder, lines: seq<Bytes>)
    requires forall i :: 0 <= i < |lines| ==> d.trim(lines[i]) != []
    ensures NonBlank(d, lines) == lines
  {
    if lines != [] {
      NonBlankKeepsAll(d, lines[..|lines| - 1]);
    }
  }

  // Reading back what was written gives exactly the lines written.
  lemma {:induction false} ReadBackIsWritten(render: Line -> Bytes, d: Decoder, lines: seq<Line>)
    requires Faithful(render, d, lines)
    ensures NonBlank(d, Split(FileBytes(render, lines))) == Rendered(render, lines)
  {
    var rendered := Rendered(render, lines);
    SplitTerminated(rendered);
    NonBlankKeepsAll(d, rendered);
    assert (rendered + [[]])[..|rendered|] == rendered;
  }
}
