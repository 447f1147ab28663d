/**
The pre-run replay bundle: the buffered writer (collect, sort stably by block number, drop repeated
hashes, write) and the streaming writer that replaced it, which holds one payload at a time.

JSON is abstracted to what the decoders look at: a payload's first parameter decodes or not, and each
field it asks for has the wrong type, does not parse, or has a value. File contents are line values.
*/
module Bundle {
  import opened Wrappers

  const TWO_64: int := 0x1_0000_0000_0000_0000

  type Uint64 = n: int | 0 <= n < 0x1_0000_0000_0000_0000

  datatype NumberField = NotText | NotHex | Number(value: Uint64)

  // A text field of the wrong JSON type is None; an absent one is "".
  datatype Params =
    | NoParams
    | NotAnObject
    | Execution(blockNumber: NumberField, blockHash: Option<string>, parentHash: Option<string>)

  datatype Payload = Payload(method_: string, params: Params)

  datatype BlockRef = BlockRef(number: Uint64, hash: string, parentHash: string)

  datatype Line = NewPayload(id: nat, payload: Payload) | ForkchoiceUpdated(id: nat, hash: string)

  datatype WriteError = BadPayload | OutOfOrder(number: Uint64, after: Uint64) | NoBlockHash | NoPayloads

  // payloadBlockRef: every field must decode, and the number must parse.
  function PayloadBlockRef(p: Payload): Result<BlockRef, WriteError> {
    match p.params
    case Execution(Number(number), Some(hash), Some(parentHash)) => Success(BlockRef(number, hash, parentHash))
    case _ => Failure(BadPayload)
  }

  // payloadRequestLines: only the hash matters, and it must not be empty.
  function PayloadRequestLines(p: Payload, id: nat): Result<seq<Line>, WriteError> {
    match p.params
    case Execution(_, Some(hash), _) =>
      if hash == "" then Failure(NoBlockHash) else Success([NewPayload(id, p), ForkchoiceUpdated(id, hash)])
    case _ => Failure(BadPayload)
  }

  // ----- Info -----

  datatype BundleInfo = BundleInfo(payloads: nat, startBlockNumber: Uint64, startBlockHash: string,
                                   endBlockNumber: Uint64, endBlockHash: string)
  {
    predicate Contiguous() {
      payloads % TWO_64 == (endBlockNumber - startBlockNumber) % TWO_64
    }
  }

  function Summarize(first: BlockRef, last: BlockRef, count: nat): BundleInfo {
    BundleInfo(count, (first.number - 1) % TWO_64, first.parentHash, last.number, last.hash)
  }

  function SummarizeBundle(ordered: seq<Payload>): Result<BundleInfo, WriteError> {
    if ordered == [] then Failure(NoPayloads)
    else
      match (PayloadBlockRef(ordered[0]), PayloadBlockRef(ordered[|ordered| - 1]))
      case (Success(first), Success(last)) => Success(Summarize(first, last, |ordered|))
      case _ => Failure(BadPayload)
  }

  // kept are the elements of s at some places, in order.
  ghost predicate PicksAt<T(!new)>(s: seq<T>, at: seq<nat>, kept: seq<T>) {
    && |at| == |kept| && (forall i, j :: 0 <= i < j < |at| ==> at[i] < at[j])
    && (forall j :: 0 <= j < |at| ==> at[j] < |s| && kept[j] == s[at[j]])
  }

  ghost function Places(at: seq<nat>): set<nat> { set i | i in at }

  lemma {:induction false} PlacesSnoc(at: seq<nat>, i: nat)
    ensures Places(at + [i]) == Places(at) + {i}
  {
  }

  lemma {:induction false} PicksLast<T(!new)>(s: seq<T>, at: seq<nat>, kept: seq<T>)
    requires s != [] && PicksAt(s[..|s| - 1], at, kept)
    ensures PicksAt(s, at, kept) && PicksAt(s, at + [|s| - 1], kept + [s[|s| - 1]])
  {
  }

  // ----- The buffered path -----

  datatype Keyed = Keyed(payload: Payload, number: Uint64, hash: string)

  // What sortAndDedupPayloads decodes: it never looks at parentHash.
  function KeyOf(p: Payload): Option<Keyed> {
    match p.params
    case Execution(Number(number), Some(hash), _) => Some(Keyed(p, number, hash))
    case _ => None
  }

  ghost predicate AllKeyed(ps: seq<Payload>) { forall i :: 0 <= i < |ps| ==> KeyOf(ps[i]).Some? }

  function Keys(ps: seq<Payload>): (ks: seq<Keyed>)
    requires AllKeyed(ps)
    ensures |ks| == |ps| && forall i :: 0 <= i < |ps| ==> ks[i] == KeyOf(ps[i]).value
  {
    seq(|ps|, i requires 0 <= i < |ps| => KeyOf(ps[i]).value)
  }

  function Payloads(ks: seq<Keyed>): (ps: seq<Payload>)
    ensures |ps| == |ks| && forall i :: 0 <= i < |ks| ==> ps[i] == ks[i].payload
  {
    seq(|ks|, i requires 0 <= i < |ks| => ks[i].payload)
  }

  // Where a stable sort puts x: after everything not above it.
  function InsertAt(ks: seq<Keyed>, x: Keyed): (i: nat)
    requires SortedByNumber(ks)
    ensures i <= |ks|
    ensures forall j :: 0 <= j < i ==> ks[j].number <= x.number
    ensures forall j :: i <= j < |ks| ==> ks[j].number > x.number
  {
    if ks == [] || ks[|ks| - 1].number <= x.number then |ks| else InsertAt(ks[..|ks| - 1], x)
  }

  ghost predicate SortedByNumber(ks: seq<Keyed>) { forall i, j :: 0 <= i < j < |ks| ==> ks[i].number <= ks[j].number }

  function InsertStable(ks: seq<Keyed>, x: Keyed): (r: seq<Keyed>)
    requires SortedByNumber(ks)
    ensures SortedByNumber(r) && |r| == |ks| + 1
  {
    var at := InsertAt(ks, x);
    ks[..at] + [x] + ks[at..]
  }

  function StableSort(ks: seq<Keyed>): (r: seq<Keyed>)
    ensures SortedByNumber(r) && |r| == |ks|
  {
    if ks == [] then [] else InsertStable(StableSort(ks[..|ks| - 1]), ks[|ks| - 1])
  }

  function IfNumber(k: Keyed, number: Uint64): seq<Keyed> { if k.number == number then [k] else [] }

  function WithNumber(ks: seq<Keyed>, number: Uint64): seq<Keyed> {
    if ks == [] then [] else WithNumber(ks[..|ks| - 1], number) + IfNumber(ks[|ks| - 1], number)
  }

  lemma {:induction false} WithNumberSnoc(ks: seq<Keyed>, k: Keyed, number: Uint64)
    ensures WithNumber(ks + [k], number) == WithNumber(ks, number) + IfNumber(k, number)
  {
    assert (ks + [k])[..|ks|] == ks;
  }

  lemma {:induction false} Commute(s: seq<Keyed>, u: seq<Keyed>, w: seq<Keyed>)
    requires u == [] || w == []
    ensures (s + u) + w == (s + w) + u
  {
  }

  lemma {:induction false} LastOfAppend(a: seq<Keyed>, b: seq<Keyed>)
    requires b != []
    ensures a + b == (a + b[..|b| - 1]) + [b[|b| - 1]]
  {
  }

  // Putting x in front of payloads with higher numbers leaves every number's own order alone.
  lemma {:induction false} WithNumberInsert(a: seq<Keyed>, x: Keyed, b: seq<Keyed>, number: Uint64)
    requires forall j :: 0 <= j < |b| ==> b[j].number > x.number
    ensures WithNumber(a + [x] + b, number) == WithNumber(a + b, number) + IfNumber(x, number)
  {
    if b == [] {
      assert a + [x] + b == a + [x] && a + b == a;
      WithNumberSnoc(a, x, number);
    } else {
      var n := |b| - 1;
      WithNumberInsert(a, x, b[..n], number);
      LastOfAppend(a + [x], b);
      LastOfAppend(a, b);
      WithNumberSnoc(a + [x] + b[..n], b[n], number);
      WithNumberSnoc(a + b[..n], b[n], number);
      Commute(WithNumber(a + b[..n], number), IfNumber(x, number), IfNumber(b[n], number));
    }
  }

  lemma {:induction false} InsertIsStable(ks: seq<Keyed>, x: Keyed, number: Uint64)
    requires SortedByNumber(ks)
    ensures WithNumber(InsertStable(ks, x), number) == WithNumber(ks, number) + IfNumber(x, number)
  {
    var at := InsertAt(ks, x);
    WithNumberInsert(ks[..at], x, ks[at..], number);
    assert ks[..at] + ks[at..] == ks;
  }

  lemma {:induction false} InsertKeepsContents(ks: seq<Keyed>, x: Keyed)
    requires SortedByNumber(ks)
    ensures multiset(InsertStable(ks, x)) == multiset(ks) + multiset{x}
  {
    var at := InsertAt(ks, x);
    assert multiset(ks[..at] + [x] + ks[at..]) == multiset(ks[..at] + ks[at..]) + multiset{x};
    assert ks[..at] + ks[at..] == ks;
  }

  // StableSort is a stable sort: it permutes, and payloads of one number keep their order.
  lemma {:induction false} StableSortIsStable(ks: seq<Keyed>, number: Uint64)
    ensures WithNumber(StableSort(ks), number) == WithNumber(ks, number)
  {
    if ks != [] {
      var n := |ks| - 1;
      StableSortIsStable(ks[..n], number);
      InsertIsStable(StableSort(ks[..n]), ks[n], number);
    }
  }

  lemma {:induction false} PermutesOneMore(front: seq<Keyed>, sorted: seq<Keyed>, k: Keyed)
    requires SortedByNumber(sorted) && multiset(sorted) == multiset(front)
    ensures multiset(InsertStable(sorted, k)) == multiset(front + [k])
  {
    InsertKeepsContents(sorted, k);
  }

  lemma {:induction false} StableSortPermutes(ks: seq<Keyed>)
    ensures multiset(StableSort(ks)) == multiset(ks)
  {
    if ks != [] {
      var n := |ks| - 1;
      StableSortPermutes(ks[..n]);
      PermutesOneMore(ks[..n], StableSort(ks[..n]), ks[n]);
      assert ks[..n] + [ks[n]] == ks;
    }
  }

  function Hashes(ks: seq<Keyed>): set<string> {
    if ks == [] then {} else Hashes(ks[..|ks| - 1]) + {ks[|ks| - 1].hash}
  }

  // First occurrences by hash; payloads without a hash are never dropped.
  function Dedup(ks: seq<Keyed>): seq<Keyed> {
    if ks == [] then []
    else
      var n := |ks| - 1;
      if IsRepeat(ks[..n], ks[n]) then Dedup(ks[..n]) else Dedup(ks[..n]) + [ks[n]]
  }

  predicate IsRepeat(ks: seq<Keyed>, k: Keyed) { k.hash != "" && k.hash in Hashes(ks) }

  // The buffered path never looks at the parent's hash.
  predicate NumberAndHashDecode(p: Payload) {
    p.params.Execution? && p.params.blockNumber.Number? && p.params.blockHash.Some?
  }

  method DecodeKeys(payloads: seq<Payload>) returns (r: Result<seq<Keyed>, WriteError>)
    ensures r.Success? <==> AllKeyed(payloads)
    ensures r.Success? ==> r.value == Keys(payloads)
    ensures r.Success? <==> forall i :: 0 <= i < |payloads| ==> NumberAndHashDecode(payloads[i])
    ensures r.Success? ==> forall i :: 0 <= i < |payloads| ==>
              r.value[i] == Keyed(payloads[i], payloads[i].params.blockNumber.value, payloads[i].params.blockHash.value)
  {
    var keyed: seq<Keyed> := [];
    for i := 0 to |payloads|
      invariant AllKeyed(payloads[..i]) && keyed == Keys(payloads[..i])
    {
      var key := KeyOf(payloads[i]);
      if key.None? {
        return Failure(BadPayload);
      }
      keyed := keyed + [key.value];
    }
    assert payloads[..|payloads|] == payloads;
    return Success(keyed);
  }

  method SortAndDedupPayloads(payloads: seq<Payload>) returns (r: Result<seq<Payload>, WriteError>)
    ensures r.Success? <==> AllKeyed(payloads)
    ensures r.Success? ==> r.value == Payloads(Dedup(StableSort(Keys(payloads))))
  {
    var keyed := DecodeKeys(payloads);
    if keyed.Failure? {
      return Failure(keyed.error);
    }
    var out := DropRepeats(StableSort(keyed.value));
    return Success(out);
  }

  method DropRepeats(sorted: seq<Keyed>) returns (out: seq<Payload>)
    ensures out == Payloads(Dedup(sorted))
  {
    out := [];
    var seen: set<string> := {};
    for i := 0 to |sorted|
      invariant out == Payloads(Dedup(sorted[..i]))
      invariant seen == Hashes(sorted[..i])
    {
      var k := sorted[i];
      DedupSnoc(sorted[..i], k);
      HashesSnoc(sorted[..i], k);
      assert sorted[..i + 1] == sorted[..i] + [k];
      if !(k.hash != "" && k.hash in seen) {
        out := out + [k.payload];
      }
      seen := seen + {k.hash};
    }
    assert sorted[..|sorted|] == sorted;
  }

  lemma {:induction false} DedupSnoc(ks: seq<Keyed>, k: Keyed)
    ensures Dedup(ks + [k]) == if IsRepeat(ks, k) then Dedup(ks) else Dedup(ks) + [k]
    ensures Payloads(Dedup(ks + [k])) == if IsRepeat(ks, k) then Payloads(Dedup(ks)) else Payloads(Dedup(ks)) + [k.payload]
  {
    assert (ks + [k])[..|ks|] == ks;
  }

  lemma {:induction false} HashesSnoc(ks: seq<Keyed>, k: Keyed)
    ensures Hashes(ks + [k]) == Hashes(ks) + {k.hash}
  {
    assert (ks + [k])[..|ks|] == ks;
  }

  // The lines of payloads that all have a hash, numbered from 1.
  function BundleLines(ps: seq<Payload>): seq<Line> {
    if ps == [] then []
    else
      var n := |ps| - 1;
      BundleLines(ps[..n]) + match PayloadRequestLines(ps[n], n + 1) case Success(lines) => lines case Failure(_) => []
  }

  ghost predicate AllHaveLines(ps: seq<Payload>) {
    forall i :: 0 <= i < |ps| ==> PayloadRequestLines(ps[i], i + 1).Success?
  }

  // The payload names its block's hash, whatever its other fields are.
  predicate NamesHash(p: Payload) { p.params.Execution? && p.params.blockHash.Some? && p.params.blockHash.value != "" }

  // The k-th payload's pair of lines: the payload itself and its hash, both under the number k + 1.
  ghost predicate PairAt(lines: seq<Line>, p: Payload, k: nat)
    requires NamesHash(p) && 2 * k + 1 < |lines|
  {
    lines[2 * k] == NewPayload(k + 1, p) && lines[2 * k + 1] == ForkchoiceUpdated(k + 1, p.params.blockHash.value)
  }

  ghost predicate PairsOf(lines: seq<Line>, ps: seq<Payload>) {
    && |lines| == 2 * |ps|
    && forall k :: 0 <= k < |ps| ==> NamesHash(ps[k]) && PairAt(lines, ps[k], k)
  }

  // The lines of a bundle are one pair for every payload, in order.
  lemma {:induction false} BundleLinesArePairs(ps: seq<Payload>)
    ensures AllHaveLines(ps) <==> forall k :: 0 <= k < |ps| ==> NamesHash(ps[k])
    ensures AllHaveLines(ps) ==> PairsOf(BundleLines(ps), ps)
  {
    if AllHaveLines(ps) && ps != [] {
      var n := |ps| - 1;
      assert ps[n] == ps[..n + 1][n];
      BundleLinesArePairs(ps[..n]);
      PairsSnoc(BundleLines(ps[..n]), ps[..n], ps[n], PayloadRequestLines(ps[n], n + 1).value);
      assert ps[..n] + [ps[n]] == ps;
    }
  }

  lemma {:induction false} PairsSnoc(lines: seq<Line>, ps: seq<Payload>, p: Payload, pair: seq<Line>)
    requires PairsOf(lines, ps) && NamesHash(p)
    requires pair == [NewPayload(|ps| + 1, p), ForkchoiceUpdated(|ps| + 1, p.params.blockHash.value)]
    ensures PairsOf(lines + pair, ps + [p])
  {
    forall k | 0 <= k < |ps + [p]|
      ensures NamesHash((ps + [p])[k]) && PairAt(lines + pair, (ps + [p])[k], k)
    {
      if k < |ps| { assert PairAt(lines, ps[k], k); }
    }
  }

  method WriteRequestBundle(payloads: seq<Payload>) returns (r: Result<seq<Line>, WriteError>)
    ensures r.Success? <==> AllHaveLines(payloads)
    ensures r.Success? ==> r.value == BundleLines(payloads)
    ensures r.Success? <==> forall k :: 0 <= k < |payloads| ==> NamesHash(payloads[k])
    ensures r.Success? ==> PairsOf(r.value, payloads)
  {
    BundleLinesArePairs(payloads);
    var file: seq<Line> := [];
    for i := 0 to |payloads|
      invariant AllHaveLines(payloads[..i])
      invariant file == BundleLines(payloads[..i])
    {
      var lines := PayloadRequestLines(payloads[i], i + 1);
      if lines.Failure? {
        return Failure(lines.error);
      }
      assert payloads[..i + 1][..i] == payloads[..i];
      file := file + lines.value;
    }
    assert payloads[..|payloads|] == payloads;
    return Success(file);
  }

  // ----- The streaming path -----

  datatype Verdict = Kept | Duplicate | Rejected(error: WriteError)

  ghost predicate HasHash(kept: seq<Payload>, hash: string) {
    exists i :: 0 <= i < |kept| && KeyOf(kept[i]).Some? && KeyOf(kept[i]).value.hash == hash
  }

  // What emit decides about p once it has kept some payloads.
  ghost function Admit(kept: seq<Payload>, p: Payload): Verdict {
    match PayloadBlockRef(p)
    case Failure(error) => Rejected(error)
    case Success(ref) =>
      if ref.hash != "" && HasHash(kept, ref.hash) then Duplicate
      else if kept != [] && KeyOf(kept[|kept| - 1]).Some? && ref.number <= KeyOf(kept[|kept| - 1]).value.number then
        Rejected(OutOfOrder(ref.number, KeyOf(kept[|kept| - 1]).value.number))
      else if ref.hash == "" then Rejected(NoBlockHash)
      else Kept
  }

  // Every field of the payload's block decodes.
  predicate Decodes(p: Payload) {
    p.params.Execution? && p.params.blockNumber.Number? && p.params.blockHash.Some? && p.params.parentHash.Some?
  }

  ghost predicate HashOnFile(kept: seq<Payload>, p: Payload)
    requires Decodes(p)
  {
    exists q :: q in kept && q.params.Execution? && q.params.blockHash == p.params.blockHash
  }

  // The payload stands on a higher block than the last one kept.
  predicate GoesHigher(kept: seq<Payload>, p: Payload)
    requires Decodes(p) && (kept != [] ==> Decodes(kept[|kept| - 1]))
  {
    kept == [] || p.params.blockNumber.value > kept[|kept| - 1].params.blockNumber.value
  }

  // What the writer decides, read off the payloads' own fields.
  lemma {:induction false} AdmitMeans(kept: seq<Payload>, p: Payload)
    requires forall i :: 0 <= i < |kept| ==> Decodes(kept[i])
    ensures Admit(kept, p) == Rejected(BadPayload) <==> !Decodes(p)
    ensures Decodes(p) ==>
              var verdict, unnamed := Admit(kept, p), p.params.blockHash == Some("");
              && (verdict == Duplicate <==> !unnamed && HashOnFile(kept, p))
              && (verdict == Kept <==> !unnamed && !HashOnFile(kept, p) && GoesHigher(kept, p))
              && (verdict == Rejected(NoBlockHash) <==> unnamed && GoesHigher(kept, p))
              && (verdict.Rejected? && verdict.error.OutOfOrder? <==> (unnamed || !HashOnFile(kept, p)) && !GoesHigher(kept, p))
              && (verdict.Rejected? && verdict.error.OutOfOrder? ==>
                    verdict.error == OutOfOrder(p.params.blockNumber.value, kept[|kept| - 1].params.blockNumber.value))
  {
    if Decodes(p) {
      HashOnFileIff(kept, p);
    }
  }

  lemma {:induction false} HashOnFileIff(kept: seq<Payload>, p: Payload)
    requires (forall i :: 0 <= i < |kept| ==> Decodes(kept[i])) && Decodes(p)
    ensures HashOnFile(kept, p) <==> HasHash(kept, p.params.blockHash.value)
  {
    if HashOnFile(kept, p) {
      var q :| q in kept && q.params.Execution? && q.params.blockHash == p.params.blockHash;
      var i :| 0 <= i < |kept| && kept[i] == q;
      assert KeyOf(kept[i]).value.hash == p.params.blockHash.value;
    }
    if HasHash(kept, p.params.blockHash.value) {
      var i :| 0 <= i < |kept| && KeyOf(kept[i]).Some? && KeyOf(kept[i]).value.hash == p.params.blockHash.value;
      var q := kept[i];
      assert q in kept;
    }
  }

  // The summary names the block before the first payload and the last payload's block.
  lemma {:induction false} SummaryMeans(ordered: seq<Payload>)
    ensures SummarizeBundle(ordered) == Failure(NoPayloads) <==> ordered == []
    ensures ordered != [] ==>
              var first, last := ordered[0], ordered[|ordered| - 1];
              (SummarizeBundle(ordered) == Failure(BadPayload) <==> !Decodes(first) || !Decodes(last))
              && (Decodes(first) && Decodes(last) ==>
                    SummarizeBundle(ordered).Success?
                    && var info := SummarizeBundle(ordered).value;
                    && info.payloads == |ordered|
                    && info.startBlockHash == first.params.parentHash.value
                    && info.startBlockNumber == (if first.params.blockNumber.value == 0 then TWO_64 else first.params.blockNumber.value as int) - 1
                    && info.endBlockHash == last.params.blockHash.value
                    && info.endBlockNumber == last.params.blockNumber.value)
  {
  }

  // The payloads emit can accept: every field decodes and there is a hash.
  predicate HasRef(p: Payload) {
    PayloadBlockRef(p).Success? && PayloadBlockRef(p).value.hash != ""
  }

  ghost predicate Refs(ps: seq<Payload>) { forall i :: 0 <= i < |ps| ==> HasRef(ps[i]) }

  ghost predicate Remembers(kept: seq<Payload>, seen: set<string>) {
    forall hash :: hash in seen <==> HasHash(kept, hash)
  }

  // What the writer's fields say of the payloads it has written.
  ghost predicate Tracks(kept: seq<Payload>, file: seq<Line>, last: Uint64, seen: set<string>, first: BlockRef, latest: BlockRef) {
    && file == BundleLines(kept)
    && Remembers(kept, seen)
    && Refs(kept)
    && (kept != [] ==>
          && first == PayloadBlockRef(kept[0]).value
          && latest == PayloadBlockRef(kept[|kept| - 1]).value
          && last == latest.number)
  }

  lemma {:induction false} RememberOne(kept: seq<Payload>, seen: set<string>, p: Payload)
    requires Remembers(kept, seen) && HasRef(p)
    ensures Remembers(kept + [p], seen + {PayloadBlockRef(p).value.hash})
  {
    var more := kept + [p];
    forall hash | HasHash(kept, hash) || hash == PayloadBlockRef(p).value.hash ensures HasHash(more, hash) {
      if HasHash(kept, hash) {
        var i :| 0 <= i < |kept| && KeyOf(kept[i]).Some? && KeyOf(kept[i]).value.hash == hash;
        assert more[i] == kept[i];
      } else {
        assert KeyOf(more[|kept|]).value.hash == hash;
      }
    }
  }

  lemma {:induction false} TrackOne(kept: seq<Payload>, file: seq<Line>, last: Uint64, seen: set<string>,
                                    first: BlockRef, latest: BlockRef, p: Payload)
    requires Tracks(kept, file, last, seen, first, latest) && HasRef(p)
    ensures PayloadRequestLines(p, |kept| + 1).Success?
    ensures var ref := PayloadBlockRef(p).value;
            Tracks(kept + [p], file + PayloadRequestLines(p, |kept| + 1).value, ref.number, seen + {ref.hash},
                   if kept == [] then ref else first, ref)
  {
    assert (kept + [p])[..|kept|] == kept;
    RememberOne(kept, seen, p);
  }

  // The fields emit looks at decide what Admit decides from the kept payloads.
  lemma {:induction false} FieldsDecide(kept: seq<Payload>, seen: set<string>, last: Uint64, p: Payload)
    requires Remembers(kept, seen) && Refs(kept)
    requires kept != [] ==> last == PayloadBlockRef(kept[|kept| - 1]).value.number
    ensures match PayloadBlockRef(p)
            case Failure(error) => Admit(kept, p) == Rejected(error)
            case Success(ref) =>
              Admit(kept, p) ==
              if ref.hash != "" && ref.hash in seen then Duplicate
              else if kept != [] && ref.number <= last then Rejected(OutOfOrder(ref.number, last))
              else if ref.hash == "" then Rejected(NoBlockHash)
              else Kept
  {
  }

  class BundleWriter {
    var file: seq<Line>
    var nextId: nat
    var last: Uint64
    var seen: set<string>
    var count: nat
    var first: BlockRef
    var latest: BlockRef
    ghost var kept: seq<Payload>  // the payloads written so far

    ghost predicate Valid()
      reads this
    {
      count == |kept| && nextId == count + 1 && Tracks(kept, file, last, seen, first, latest)
    }

    constructor ()
      ensures Valid() && kept == []
    {
      file, nextId, last, seen, count := [], 1, 0, {}, 0;
      first, latest := BlockRef(0, "", ""), BlockRef(0, "", "");
      kept := [];
    }

    method Emit(p: Payload) returns (error: Option<WriteError>)
      requires Valid()
      modifies this
      ensures Valid()
      ensures match Admit(old(kept), p)
              case Kept => error == None && kept == old(kept) + [p]
              case Duplicate => error == None && kept == old(kept)
              case Rejected(e) => error == Some(e) && kept == old(kept)
    {
      FieldsDecide(kept, seen, last, p);
      var ref := PayloadBlockRef(p);
      if ref.Failure? {
        return Some(ref.error);
      }
      if ref.value.hash != "" && ref.value.hash in seen {
        return None;
      }
      if count > 0 && ref.value.number <= last {
        return Some(OutOfOrder(ref.value.number, last));
      }
      var lines := PayloadRequestLines(p, nextId);
      if lines.Failure? {
        return Some(lines.error);
      }
      Record(p, ref.value, lines.value);
      return None;
    }

    // The writing half of emit.
    method Record(ghost p: Payload, ref: BlockRef, lines: seq<Line>)
      requires Valid() && HasRef(p) && PayloadBlockRef(p) == Success(ref) && PayloadRequestLines(p, nextId) == Success(lines)
      modifies this
      ensures Valid() && kept == old(kept) + [p]
    {
      TrackOne(kept, file, last, seen, first, latest, p);
      file := file + lines;
      if ref.hash != "" {
        seen := seen + {ref.hash};
      }
      if count == 0 {
        first := ref;
      }
      latest := ref;
      last := ref.number;
      nextId := nextId + 1;
      count := count + 1;
      kept := kept + [p];
    }

    // info builds what SummarizeBundle would from the whole list.
    method Info() returns (r: Result<BundleInfo, WriteError>)
      requires Valid()
      ensures r == SummarizeBundle(kept)
    {
      if count == 0 {
        return Failure(NoPayloads);
      }
      return Success(Summarize(first, latest, count));
    }

    // The driver's loop: emit in order, stop at the first error.
    method EmitAll(ps: seq<Payload>) returns (error: Option<WriteError>)
      requires Valid() && kept == []
      modifies this
      ensures Valid() && Streamed(kept, error) == Stream(ps)
    {
      for i := 0 to |ps|
        invariant Valid() && Stream(ps[..i]) == Streamed(kept, None)
      {
        assert ps[..i + 1][..i] == ps[..i];
        error := Emit(ps[i]);
        if error.Some? {
          StreamStops(ps, i + 1);
          return error;
        }
      }
      assert ps[..|ps|] == ps;
      return None;
    }
  }

  datatype StreamResult = Streamed(kept: seq<Payload>, error: Option<WriteError>)

  // What a fresh writer has kept after being fed ps, and the error it stopped at.
  ghost function Stream(ps: seq<Payload>): StreamResult {
    if ps == [] then Streamed([], None)
    else
      var n := |ps| - 1;
      var before := Stream(ps[..n]);
      if before.error.Some? then before
      else
        match Admit(before.kept, ps[n])
        case Kept => Streamed(before.kept + [ps[n]], None)
        case Duplicate => before
        case Rejected(error) => Streamed(before.kept, Some(error))
  }

  lemma {:induction false} StreamSnoc(ps: seq<Payload>, p: Payload)
    ensures Stream(ps + [p]) ==
            if Stream(ps).error.Some? then Stream(ps)
            else
              match Admit(Stream(ps).kept, p)
              case Kept => Streamed(Stream(ps).kept + [p], None)
              case Duplicate => Stream(ps)
              case Rejected(error) => Streamed(Stream(ps).kept, Some(error))
  {
    assert (ps + [p])[..|ps|] == ps;
  }

  lemma {:induction false} StreamStops(ps: seq<Payload>, k: nat)
    requires k <= |ps| && Stream(ps[..k]).error.Some?
    ensures Stream(ps) == Stream(ps[..k])
    decreases |ps|
  {
    if k < |ps| {
      var n := |ps| - 1;
      assert ps[..n][..k] == ps[..k];
      StreamStops(ps[..n], k);
    } else {
      assert ps[..k] == ps;
    }
  }
}
