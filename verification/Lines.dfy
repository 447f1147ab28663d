/** Byte streams cut into newline-terminated lines. */
module Lines {
  type Byte = b: int | 0 <= b < 256

  type Bytes = seq<Byte>

  const NEWLINE: Byte := 10

  predicate NewlineFree(line: Bytes) { NEWLINE !in line }

  // strings.Split(s, "\n"): one more piece than there are newlines, so never empty.
  function Split(s: Bytes): (pieces: seq<Bytes>)
    ensures |pieces| >= 1
  {
    if s == [] then [[]]
    else
      var rest := Split(s[1..]);
      if s[0] == NEWLINE then [[]] + rest else [[s[0]] + rest[0]] + rest[1..]
  }

  // The pieces with a newline between each two.
  function Join(pieces: seq<Bytes>): Bytes
    requires |pieces| >= 1
  {
    if |pieces| == 1 then pieces[0] else pieces[0] + [NEWLINE] + Join(pieces[1..])
  }

  // Lines as a writer leaves them: each one followed by a newline.
  function Terminated(lines: seq<Bytes>): Bytes {
    if lines == [] then [] else lines[0] + [NEWLINE] + Terminated(lines[1..])
  }

  lemma {:induction false} JoinHead(pieces: seq<Bytes>, b: Byte)
    requires |pieces| >= 1
    ensures Join([[b] + pieces[0]] + pieces[1..]) == [b] + Join(pieces)
  {
    var more := [[b] + pieces[0]] + pieces[1..];
    assert more[1..] == pieces[1..];
    if |pieces| > 1 {
      assert Join(more) == ([b] + pieces[0]) + [NEWLINE] + Join(pieces[1..]);
    }
  }

  // Splitting loses nothing.
  lemma {:induction false} JoinSplit(s: Bytes)
    ensures Join(Split(s)) == s
  {
    if s != [] {
      var rest := Split(s[1..]);
      JoinSplit(s[1..]);
      if s[0] == NEWLINE {
        assert ([[]] + rest)[1..] == rest;
        assert Join([[]] + rest) == [] + [NEWLINE] + Join(rest);
      } else {
        JoinHead(rest, s[0]);
      }
      assert s == [s[0]] + s[1..];
    }
  }

  // Pieces of a stream continued by pieces of another: the last of the front absorbs the first of the back.
  function Glue(a: seq<Bytes>, b: seq<Bytes>): (g: seq<Bytes>)
    requires |a| >= 1 && |b| >= 1
    ensures |g| == |a| + |b| - 1
  {
    a[..|a| - 1] + [a[|a| - 1] + b[0]] + b[1..]
  }

  lemma {:induction false} GlueCons(x: Bytes, a: seq<Bytes>, b: seq<Bytes>)
    requires |a| >= 1 && |b| >= 1
    ensures Glue([x] + a, b) == [x] + Glue(a, b)
  {
    assert ([x] + a)[..|a|] == [x] + a[..|a| - 1];
  }

  lemma {:induction false} GlueHead(x: Byte, a: seq<Bytes>, b: seq<Bytes>)
    requires |a| >= 1 && |b| >= 1
    ensures Glue([[x] + a[0]] + a[1..], b) == [[x] + Glue(a, b)[0]] + Glue(a, b)[1..]
  {
    if |a| == 1 {
      assert [[x] + a[0]] + a[1..] == [[x] + a[0]];
      assert [x] + (a[0] + b[0]) == ([x] + a[0]) + b[0];
    } else {
      assert a == [a[0]] + a[1..];
      GlueCons([x] + a[0], a[1..], b);
      GlueCons(a[0], a[1..], b);
    }
  }

  lemma {:induction false} SplitAppend(a: Bytes, b: Bytes)
    ensures Split(a + b) == Glue(Split(a), Split(b))
  {
    if a == [] {
      assert a + b == b;
      assert [] + Split(b)[0] == Split(b)[0];
    } else {
      SplitAppend(a[1..], b);
      assert (a + b)[1..] == a[1..] + b;
      if a[0] == NEWLINE {
        GlueCons([], Split(a[1..]), Split(b));
      } else {
        GlueHead(a[0], Split(a[1..]), Split(b));
      }
    }
  }

  lemma {:induction false} SplitNewlineFree(line: Bytes)
    requires NewlineFree(line)
    ensures Split(line) == [line]
  {
    if line != [] {
      assert line == [line[0]] + line[1..];
      SplitNewlineFree(line[1..]);
    }
  }

  // One more terminated line in front is one more piece in front.
  lemma {:induction false} SplitLine(line: Bytes, rest: Bytes)
    requires NewlineFree(line)
    ensures Split(line + [NEWLINE] + rest) == [line] + Split(rest)
  {
    SplitNewlineFree(line);
    SplitAppend(line, [NEWLINE] + rest);
    assert line + ([NEWLINE] + rest) == line + [NEWLINE] + rest;
    assert ([NEWLINE] + rest)[1..] == rest;
    assert Split([NEWLINE] + rest) == [[]] + Split(rest);
    assert line + [] == line;
  }

  lemma {:induction false} SplitTerminated(lines: seq<Bytes>)
    requires forall i :: 0 <= i < |lines| ==> NewlineFree(lines[i])
    ensures Split(Terminated(lines)) == lines + [[]]
  {
    if lines != [] {
      SplitTerminated(lines[1..]);
      SplitLine(lines[0], Terminated(lines[1..]));
    }
  }
}
