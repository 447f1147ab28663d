/**
The streaming bundle writer against the buffered one it replaced: which payload sequences it accepts,
that it then writes the same bundle, and what its block range says.
*/
module BundleRefinement {
  import opened Wrappers
  import opened Bundle

  // What chains give: a block hash belongs to one block number.
  ghost predicate HashDeterminesNumber(ks: seq<Keyed>) {
    forall i, j :: 0 <= i < |ks| && 0 <= j < |ks| && ks[i].hash == ks[j].hash != "" ==> ks[i].number == ks[j].number
  }

  ghost predicate IsFirstOfHash(ks: seq<Keyed>, i: nat)
    requires i < |ks|
  {
    forall j :: 0 <= j < i ==> ks[j].hash != ks[i].hash
  }

  // No payload stands on a lower number than the first one with its hash.
  ghost predicate FirstIsLowest(ks: seq<Keyed>) {
    forall i, j :: 0 <= i < j < |ks| && IsFirstOfHash(ks, i) && ks[i].hash == ks[j].hash != "" ==> ks[i].number <= ks[j].number
  }

  ghost predicate Ascends(ks: seq<Keyed>) {
    forall i, j :: 0 <= i < j < |ks| ==> ks[i].number < ks[j].number
  }

  function NumberOf(p: Payload): Uint64
    requires PayloadBlockRef(p).Success?
  {
    PayloadBlockRef(p).value.number
  }

  // ----- Dedup -----

  lemma {:induction false} HashAt(ks: seq<Keyed>, i: nat)
    requires i < |ks|
    ensures ks[i].hash in Hashes(ks)
  {
    if i < |ks| - 1 {
      HashAt(ks[..|ks| - 1], i);
    }
  }

  lemma {:induction false} HashIndex(ks: seq<Keyed>, hash: string) returns (i: nat)
    requires hash in Hashes(ks)
    ensures i < |ks| && ks[i].hash == hash
  {
    var n := |ks| - 1;
    if ks[n].hash == hash {
      i := n;
    } else {
      i := HashIndex(ks[..n], hash);
    }
  }

  // Every payload is represented in Dedup by one with its hash, or by itself when it has none.
  lemma {:induction false} DedupRepresents(ks: seq<Keyed>, i: nat) returns (j: nat)
    requires i < |ks|
    ensures j < |Dedup(ks)| && Dedup(ks)[j].hash == ks[i].hash && (ks[i].hash == "" ==> Dedup(ks)[j] == ks[i])
  {
    var n := |ks| - 1;
    if i < n {
      j := DedupRepresents(ks[..n], i);
    } else if IsRepeat(ks[..n], ks[n]) {
      var k := HashIndex(ks[..n], ks[n].hash);
      j := DedupRepresents(ks[..n], k);
    } else {
      j := |Dedup(ks[..n])|;
    }
  }

  lemma {:induction false} DedupFromInput(ks: seq<Keyed>, j: nat)
    requires j < |Dedup(ks)|
    ensures Dedup(ks)[j] in ks
  {
    var n := |ks| - 1;
    if j < |Dedup(ks[..n])| {
      DedupFromInput(ks[..n], j);
      assert Dedup(ks)[j] == Dedup(ks[..n])[j];
    }
  }

  lemma {:induction false} FirstOf(ks: seq<Keyed>, j: nat) returns (i: nat)
    requires j < |ks|
    ensures i <= j && IsFirstOfHash(ks, i) && ks[i].hash == ks[j].hash
  {
    if k :| 0 <= k < j && ks[k].hash == ks[j].hash {
      i := FirstOf(ks, k);
    } else {
      i := j;
    }
  }

  // Dedup holds the first of every hash,
  lemma {:induction false} FirstInDedup(ks: seq<Keyed>, i: nat)
    requires i < |ks| && IsFirstOfHash(ks, i)
    ensures ks[i] in Dedup(ks)
  {
    var n := |ks| - 1;
    if i < n {
      assert IsFirstOfHash(ks[..n], i);
      FirstInDedup(ks[..n], i);
    } else if ks[n].hash in Hashes(ks[..n]) {
      var k := HashIndex(ks[..n], ks[n].hash);
      assert false;
    }
  }

  // and of the payloads with one hash no other.
  lemma {:induction false} DedupHasFirst(ks: seq<Keyed>, d: Keyed) returns (i: nat)
    requires d in Dedup(ks) && d.hash != ""
    ensures i < |ks| && ks[i] == d && IsFirstOfHash(ks, i)
  {
    var n := |ks| - 1;
    if d in Dedup(ks[..n]) {
      i := DedupHasFirst(ks[..n], d);
      assert ks[i] == d;
    } else {
      i := n;
      forall j | 0 <= j < n ensures ks[j].hash != d.hash { HashAt(ks[..n], j); }
    }
  }

  lemma {:induction false} RepeatIffNotFirst(ks: seq<Keyed>)
    requires ks != []
    ensures IsRepeat(ks[..|ks| - 1], ks[|ks| - 1]) <==> ks[|ks| - 1].hash != "" && !IsFirstOfHash(ks, |ks| - 1)
  {
    var n := |ks| - 1;
    if ks[n].hash in Hashes(ks[..n]) {
      var j := HashIndex(ks[..n], ks[n].hash);
      assert ks[j].hash == ks[n].hash;
    }
    if !IsFirstOfHash(ks, n) {
      var j :| 0 <= j < n && ks[j].hash == ks[n].hash;
      HashAt(ks[..n], j);
    }
  }

  ghost predicate IsNew(ks: seq<Keyed>, i: nat)
    requires i < |ks|
  {
    ks[i].hash == "" || IsFirstOfHash(ks, i)
  }

  // The places are those of the payloads without a hash and of the first ones of every other hash.
  ghost predicate AreNewPlaces(ks: seq<Keyed>, at: set<nat>) {
    forall i: nat :: i in at <==> i < |ks| && IsNew(ks, i)
  }

  lemma {:induction false} NewPlacesLast(ks: seq<Keyed>, at: set<nat>)
    requires ks != [] && AreNewPlaces(ks[..|ks| - 1], at)
    ensures AreNewPlaces(ks, if IsNew(ks, |ks| - 1) then at + {|ks| - 1} else at)
  {
    forall i: nat | i < |ks| - 1 ensures IsNew(ks[..|ks| - 1], i) == IsNew(ks, i) {}
  }

  // Dropping repeats keeps, in order, exactly the payloads without a hash and the first of every other hash.
  lemma {:induction false} DedupKeepsFirsts(ks: seq<Keyed>) returns (at: seq<nat>)
    ensures PicksAt(ks, at, Dedup(ks)) && AreNewPlaces(ks, Places(at))
  {
    at := [];
    if ks != [] {
      var n := |ks| - 1;
      at := DedupKeepsFirsts(ks[..n]);
      PicksLast(ks, at, Dedup(ks[..n]));
      NewPlacesLast(ks, Places(at));
      PlacesSnoc(at, n);
      RepeatIffNotFirst(ks);
      if !IsRepeat(ks[..n], ks[n]) {
        at := at + [n];
      }
    }
  }

  lemma {:induction false} DedupAllRepeats(a: seq<Keyed>, b: seq<Keyed>)
    requires forall y :: y in b ==> y.hash != "" && y.hash in Hashes(a)
    ensures Dedup(a + b) == Dedup(a)
  {
    if b == [] {
      assert a + b == a;
    } else {
      var n := |b| - 1;
      LastOfAppend(a, b);
      assert b[n] in b;
      DedupAllRepeats(a, b[..n]);
      HashesAppend(a, b[..n]);
      DedupSnoc(a + b[..n], b[n]);
    }
  }

  // Dropping a repeat: it makes no difference where after its first occurrence it stands.
  lemma {:induction false} DedupDropsRepeat(a: seq<Keyed>, x: Keyed, b: seq<Keyed>)
    requires x.hash != "" && x.hash in Hashes(a)
    ensures Dedup(a + [x] + b) == Dedup(a + b)
  {
    if b == [] {
      assert a + [x] + b == a + [x] && a + b == a;
      DedupSnoc(a, x);
    } else {
      var n := |b| - 1;
      DedupDropsRepeat(a, x, b[..n]);
      LastOfAppend(a + [x], b);
      LastOfAppend(a, b);
      DedupSnoc(a + [x] + b[..n], b[n]);
      DedupSnoc(a + b[..n], b[n]);
      HashesOfInsert(a, x, b[..n]);
    }
  }

  lemma {:induction false} HashesAppend(a: seq<Keyed>, b: seq<Keyed>)
    ensures Hashes(a + b) == Hashes(a) + Hashes(b)
  {
    if b == [] {
      assert a + b == a;
    } else {
      LastOfAppend(a, b);
      HashesAppend(a, b[..|b| - 1]);
      HashesSnoc(a + b[..|b| - 1], b[|b| - 1]);
    }
  }

  lemma {:induction false} HashesOfInsert(a: seq<Keyed>, x: Keyed, b: seq<Keyed>)
    requires x.hash in Hashes(a)
    ensures Hashes(a + [x] + b) == Hashes(a + b)
  {
    HashesAppend(a + [x], b);
    HashesAppend(a, b);
    HashesSnoc(a, x);
  }

  // ----- Sorting changes nothing that an ascending stream kept -----

  lemma {:induction false} InsertAddsHash(ks: seq<Keyed>, x: Keyed)
    requires SortedByNumber(ks)
    ensures Hashes(InsertStable(ks, x)) == Hashes(ks) + {x.hash}
  {
    var at := InsertAt(ks, x);
    var below, above := ks[..at], ks[at..];
    HashesAppend(below + [x], above);
    HashesSnoc(below, x);
    HashesAppend(below, above);
    assert below + above == ks;
  }

  lemma {:induction false} SortKeepsHashes(ks: seq<Keyed>)
    ensures Hashes(StableSort(ks)) == Hashes(ks)
  {
    if ks != [] {
      SortKeepsHashes(ks[..|ks| - 1]);
      InsertAddsHash(StableSort(ks[..|ks| - 1]), ks[|ks| - 1]);
    }
  }

  lemma {:induction false} SortKeepsMembers(ks: seq<Keyed>, k: Keyed)
    ensures k in StableSort(ks) <==> k in ks
  {
    StableSortPermutes(ks);
    assert k in StableSort(ks) <==> k in multiset(StableSort(ks));
    assert k in ks <==> k in multiset(ks);
  }

  // A repeat goes after a lower payload with its hash.
  lemma {:induction false} InsertRepeat(ks: seq<Keyed>, x: Keyed, i: nat)
    requires SortedByNumber(ks) && x.hash != "" && i < |ks| && ks[i].hash == x.hash && ks[i].number <= x.number
    ensures Dedup(InsertStable(ks, x)) == Dedup(ks)
  {
    var at := InsertAt(ks, x);
    var below, above := ks[..at], ks[at..];
    HashAt(below, i);
    assert below + above == ks;
    DedupDropsRepeat(below, x, above);
  }

  lemma {:induction false} DedupNewAmongRepeats(below: seq<Keyed>, x: Keyed, above: seq<Keyed>)
    requires forall y :: y in above ==> y.hash != "" && y.hash in Hashes(below)
    requires !IsRepeat(below, x)
    ensures Dedup(below + [x] + above) == Dedup(below + above) + [x]
  {
    HashesSnoc(below, x);
    DedupAllRepeats(below, above);
    DedupAllRepeats(below + [x], above);
    DedupSnoc(below, x);
  }

  // A payload that repeats one not above x.
  ghost predicate RepeatsLow(ks: seq<Keyed>, x: Keyed, y: Keyed) {
    y.hash != "" && exists i :: 0 <= i < |ks| && ks[i].hash == y.hash && ks[i].number <= x.number
  }

  lemma {:induction false} LowHashBelow(ks: seq<Keyed>, x: Keyed, y: Keyed)
    requires SortedByNumber(ks) && RepeatsLow(ks, x, y)
    ensures y.hash in Hashes(ks[..InsertAt(ks, x)])
  {
    var i :| 0 <= i < |ks| && ks[i].hash == y.hash && ks[i].number <= x.number;
    HashAt(ks[..InsertAt(ks, x)], i);
  }

  // A new payload goes before nothing but repeats of lower ones.
  lemma {:induction false} InsertNew(ks: seq<Keyed>, x: Keyed)
    requires SortedByNumber(ks) && !IsRepeat(ks, x)
    requires forall i :: 0 <= i < |ks| && ks[i].number > x.number ==> RepeatsLow(ks, x, ks[i])
    ensures Dedup(InsertStable(ks, x)) == Dedup(ks) + [x]
  {
    var at := InsertAt(ks, x);
    var below, above := ks[..at], ks[at..];
    assert below + above == ks;
    HashesAppend(below, above);
    forall i | at <= i < |ks| ensures ks[i].hash != "" && ks[i].hash in Hashes(below) {
      LowHashBelow(ks, x, ks[i]);
    }
    DedupNewAmongRepeats(below, x, above);
  }

  // With ascending first occurrences, the first payload of an earlier one's hash is below a new one.
  lemma {:induction false} FirstBelowNew(ks: seq<Keyed>, x: Keyed, k: Keyed) returns (first: Keyed)
    requires FirstIsLowest(ks) && Ascends(Dedup(ks) + [x]) && k in ks
    ensures first in ks && first.number < x.number && first.hash == k.hash
    ensures k.hash == "" ==> first == k
  {
    var i :| 0 <= i < |ks| && ks[i] == k;
    var j := DedupRepresents(ks, i);
    first := Dedup(ks)[j];
    DedupFromInput(ks, j);
    assert (Dedup(ks) + [x])[j] == first && (Dedup(ks) + [x])[|Dedup(ks)|] == x;
  }

  lemma {:induction false} SortingRepeat(front: seq<Keyed>, x: Keyed)
    requires FirstIsLowest(front + [x]) && IsRepeat(front, x)
    ensures Dedup(InsertStable(StableSort(front), x)) == Dedup(StableSort(front))
  {
    var h := HashIndex(front, x.hash);
    var i := FirstOf(front, h);
    assert IsFirstOfHash(front + [x], i) && (front + [x])[i] == front[i] && (front + [x])[|front|] == x;
    var first := front[i];
    assert first in front;
    SortKeepsMembers(front, first);
    var sorted := StableSort(front);
    var m :| 0 <= m < |sorted| && sorted[m] == first;
    InsertRepeat(sorted, x, m);
  }

  lemma {:induction false} FirstIsLowestPrefix(front: seq<Keyed>, x: Keyed)
    requires FirstIsLowest(front + [x])
    ensures FirstIsLowest(front)
  {
    var ks := front + [x];
    forall i, j | 0 <= i < j < |front| && IsFirstOfHash(front, i) && front[i].hash == front[j].hash != "" ensures front[i].number <= front[j].number {
      assert IsFirstOfHash(ks, i) && ks[i] == front[i] && ks[j] == front[j];
    }
  }

  lemma {:induction false} SortingNew(front: seq<Keyed>, x: Keyed)
    requires FirstIsLowest(front) && Ascends(Dedup(front) + [x]) && !IsRepeat(front, x)
    ensures Dedup(InsertStable(StableSort(front), x)) == Dedup(StableSort(front)) + [x]
  {
    var sorted := StableSort(front);
    SortKeepsHashes(front);
    forall m | 0 <= m < |sorted| && sorted[m].number > x.number ensures RepeatsLow(sorted, x, sorted[m]) {
      var y := sorted[m];
      SortKeepsMembers(front, y);
      var first := FirstBelowNew(front, x, y);
      SortKeepsMembers(front, first);
      var i :| 0 <= i < |sorted| && sorted[i] == first;
    }
    InsertNew(sorted, x);
  }

  lemma {:induction false} SortingAscendingStream(ks: seq<Keyed>)
    requires FirstIsLowest(ks) && Ascends(Dedup(ks))
    ensures Dedup(StableSort(ks)) == Dedup(ks)
  {
    if ks != [] {
      var front, x := ks[..|ks| - 1], ks[|ks| - 1];
      assert ks == front + [x];
      AscendsSnoc(Dedup(front), x);
      FirstIsLowestPrefix(front, x);
      SortingAscendingStream(front);
      if IsRepeat(front, x) {
        SortingRepeat(front, x);
      } else {
        SortingNew(front, x);
      }
    }
  }

  // Sorted by number, the first of a hash is the lowest.
  lemma {:induction false} SortedFirstIsLowest(ks: seq<Keyed>, d: Keyed, k: Keyed)
    requires SortedByNumber(ks) && d in Dedup(ks) && k in ks && d.hash == k.hash != ""
    ensures d.number <= k.number
  {
    var i := DedupHasFirst(ks, d);
    var j :| 0 <= j < |ks| && ks[j] == k;
    assert i <= j;
  }

  // If sorting changes nothing, every first occurrence was the lowest of its hash.
  lemma {:induction false} UnchangedMeansLowest(ks: seq<Keyed>)
    requires Dedup(StableSort(ks)) == Dedup(ks)
    ensures FirstIsLowest(ks)
  {
    forall i, j | 0 <= i < j < |ks| && IsFirstOfHash(ks, i) && ks[i].hash == ks[j].hash != "" ensures ks[i].number <= ks[j].number {
      FirstInDedup(ks, i);
      var k := ks[j];
      assert k in ks;
      SortKeepsMembers(ks, k);
      SortedFirstIsLowest(StableSort(ks), ks[i], k);
    }
  }

  // ----- What the streaming writer accepts -----

  lemma {:induction false} KeysOfRefs(ps: seq<Payload>)
    requires Refs(ps)
    ensures AllKeyed(ps)
    ensures forall i :: 0 <= i < |ps| ==> Keys(ps)[i].number == PayloadBlockRef(ps[i]).value.number
    ensures forall i :: 0 <= i < |ps| ==> Keys(ps)[i].hash == PayloadBlockRef(ps[i]).value.hash != ""
  {
  }

  // While it accepts, the writer keeps exactly the first occurrences.
  ghost predicate KeepsFirsts(ps: seq<Payload>) {
    AllKeyed(ps) && Stream(ps) == Streamed(Payloads(Dedup(Keys(ps))), None) && Ascends(Dedup(Keys(ps)))
  }

  lemma {:induction false} HasHashOfKept(ks: seq<Keyed>, hash: string)
    requires forall i :: 0 <= i < |ks| ==> KeyOf(ks[i].payload) == Some(ks[i])
    ensures HasHash(Payloads(Dedup(ks)), hash) <==> hash in Hashes(ks)
  {
    var kept := Payloads(Dedup(ks));
    forall j | 0 <= j < |kept| ensures KeyOf(kept[j]) == Some(Dedup(ks)[j]) { DedupFromInput(ks, j); }
    if hash in Hashes(ks) {
      var i := HashIndex(ks, hash);
      var j := DedupRepresents(ks, i);
      assert KeyOf(kept[j]).value.hash == hash;
    }
    if HasHash(kept, hash) {
      var j :| 0 <= j < |kept| && KeyOf(kept[j]).Some? && KeyOf(kept[j]).value.hash == hash;
      DedupFromInput(ks, j);
      var i :| 0 <= i < |ks| && ks[i] == Dedup(ks)[j];
      HashAt(ks, i);
    }
  }

  lemma {:induction false} AscendsSnoc(ks: seq<Keyed>, x: Keyed)
    ensures Ascends(ks + [x]) <==> Ascends(ks) && (ks == [] || ks[|ks| - 1].number < x.number)
  {
    var more := ks + [x];
    if Ascends(more) {
      forall i, j | 0 <= i < j < |ks| ensures ks[i].number < ks[j].number {
        assert more[i] == ks[i] && more[j] == ks[j];
      }
      if ks != [] {
        assert more[|ks| - 1] == ks[|ks| - 1] && more[|ks|] == x;
      }
    }
  }

  // The writer's verdict, in terms of the first occurrences it holds.
  lemma {:induction false} VerdictAfterFirsts(ks: seq<Keyed>, p: Payload, x: Keyed)
    requires forall i :: 0 <= i < |ks| ==> KeyOf(ks[i].payload) == Some(ks[i])
    requires PayloadBlockRef(p).Success? && KeyOf(p) == Some(x) && x.hash != ""
    ensures var firsts, verdict := Dedup(ks), Admit(Payloads(Dedup(ks)), p);
            if IsRepeat(ks, x) then verdict == Duplicate
            else if firsts != [] && x.number <= firsts[|firsts| - 1].number then verdict.Rejected?
            else verdict == Kept
  {
    HasHashOfKept(ks, x.hash);
    var firsts := Dedup(ks);
    if firsts != [] {
      DedupFromInput(ks, |firsts| - 1);
      assert KeyOf(Payloads(firsts)[|firsts| - 1]) == Some(firsts[|firsts| - 1]);
    }
  }

  lemma {:induction false} StreamAfterFirsts(ps: seq<Payload>, p: Payload)
    requires Refs(ps) && HasRef(p) && AllKeyed(ps)
    requires Stream(ps) == Streamed(Payloads(Dedup(Keys(ps))), None)
    ensures var firsts, x := Dedup(Keys(ps)), KeyOf(p).value;
            if IsRepeat(Keys(ps), x) then Stream(ps + [p]) == Stream(ps)
            else if firsts != [] && x.number <= firsts[|firsts| - 1].number then
              Stream(ps + [p]).error.Some? && Stream(ps + [p]).kept == Stream(ps).kept
            else Stream(ps + [p]) == Streamed(Stream(ps).kept + [p], None)
  {
    VerdictAfterFirsts(Keys(ps), p, KeyOf(p).value);
    StreamSnoc(ps, p);
  }

  // One more payload after an accepted prefix.
  lemma {:induction false} AdmitAfterFirsts(ps: seq<Payload>, p: Payload)
    requires Refs(ps + [p]) && KeepsFirsts(ps)
    ensures AllKeyed(ps + [p])
    ensures Ascends(Dedup(Keys(ps + [p]))) ==> KeepsFirsts(ps + [p])
    ensures !Ascends(Dedup(Keys(ps + [p]))) ==> Stream(ps + [p]).error.Some? && Stream(ps + [p]).kept == Stream(ps).kept
  {
    KeysSnoc(ps, p);
    var ks, x := Keys(ps), KeyOf(p).value;
    StreamAfterFirsts(ps, p);
    DedupSnoc(ks, x);
    AcceptsWhileAscending(Stream(ps), Stream(ps + [p]), Dedup(ks), Dedup(ks + [x]), IsRepeat(ks, x), x, p);
  }

  // The same of any first occurrences, before and after a payload.
  lemma {:induction false} AcceptsWhileAscending(before: StreamResult, after: StreamResult, firsts: seq<Keyed>, more: seq<Keyed>,
                                                 repeat: bool, x: Keyed, p: Payload)
    requires before == Streamed(Payloads(firsts), None) && Ascends(firsts) && x.payload == p
    requires more == if repeat then firsts else firsts + [x]
    requires if repeat then after == before
             else if firsts != [] && x.number <= firsts[|firsts| - 1].number then after.error.Some? && after.kept == before.kept
             else after == Streamed(before.kept + [p], None)
    ensures Ascends(more) ==> after == Streamed(Payloads(more), None)
    ensures !Ascends(more) ==> after.error.Some? && after.kept == before.kept
  {
    AscendsSnoc(firsts, x);
    assert Payloads(firsts + [x]) == Payloads(firsts) + [x.payload];
  }

  lemma {:induction false} KeysSnoc(ps: seq<Payload>, p: Payload)
    requires Refs(ps + [p])
    ensures Refs(ps) && HasRef(p) && AllKeyed(ps) && AllKeyed(ps + [p])
    ensures Keys(ps + [p]) == Keys(ps) + [KeyOf(p).value]
  {
    var more := ps + [p];
    assert more[|ps|] == p && more[..|ps|] == ps;
    forall i | 0 <= i < |ps| ensures HasRef(ps[i]) { assert more[i] == ps[i]; }
  }

  lemma {:induction false} AscendsPrefix(ps: seq<Payload>, p: Payload)
    requires Refs(ps + [p])
    ensures AllKeyed(ps) && AllKeyed(ps + [p])
    ensures Ascends(Dedup(Keys(ps + [p]))) ==> Ascends(Dedup(Keys(ps)))
  {
    KeysSnoc(ps, p);
    DedupSnoc(Keys(ps), KeyOf(p).value);
    AscendsSnoc(Dedup(Keys(ps)), KeyOf(p).value);
  }

  // Well-formed payloads are all accepted exactly when their first occurrences ascend, and the writer
  // then holds those first occurrences.
  lemma {:induction false} StreamAcceptsAscending(ps: seq<Payload>)
    requires Refs(ps)
    ensures AllKeyed(ps)
    ensures Stream(ps).error == None <==> Ascends(Dedup(Keys(ps)))
    ensures Stream(ps).error == None ==> KeepsFirsts(ps)
  {
    KeysOfRefs(ps);
    if ps != [] {
      var n := |ps| - 1;
      assert ps == ps[..n] + [ps[n]];
      StreamAcceptsAscending(ps[..n]);
      AscendsPrefix(ps[..n], ps[n]);
      if Stream(ps[..n]).error == None {
        AdmitAfterFirsts(ps[..n], ps[n]);
      }
    }
  }

  // Otherwise the bundle stops at the first break: it holds the first occurrences of the longest
  // prefix whose first occurrences ascend.
  lemma {:induction false} StreamStopsAtBreak(ps: seq<Payload>) returns (k: nat)
    requires Refs(ps) && Stream(ps).error.Some?
    ensures k < |ps| && KeepsFirsts(ps[..k]) && Stream(ps).kept == Stream(ps[..k]).kept
    ensures AllKeyed(ps[..k + 1]) && !Ascends(Dedup(Keys(ps[..k + 1])))
  {
    var n := |ps| - 1;
    var front := ps[..n];
    assert ps == front + [ps[n]];
    assert Refs(front);
    StreamAcceptsAscending(front);
    if Stream(front).error.Some? {
      k := StreamStopsAtBreak(front);
      assert front[..k] == ps[..k] && front[..k + 1] == ps[..k + 1];
    } else {
      k := n;
      AdmitAfterFirsts(front, ps[n]);
      assert ps[..n + 1] == ps;
    }
  }

  lemma {:induction false} AcceptedHasRefs(ps: seq<Payload>)
    requires Stream(ps).error == None
    ensures Refs(ps)
  {
    if ps != [] {
      AcceptedHasRefs(ps[..|ps| - 1]);
      forall i | 0 <= i < |ps| ensures PayloadBlockRef(ps[i]).Success? && PayloadBlockRef(ps[i]).value.hash != "" {
        if i < |ps| - 1 { assert ps[i] == ps[..|ps| - 1][i]; }
      }
    }
  }

  // ----- The refinement -----

  lemma {:induction false} PayloadsInjective(a: seq<Keyed>, b: seq<Keyed>)
    requires forall k :: k in a + b ==> KeyOf(k.payload) == Some(k)
    ensures Payloads(a) == Payloads(b) ==> a == b
  {
    if Payloads(a) == Payloads(b) {
      forall i | 0 <= i < |a| ensures a[i] == b[i] {
        assert Payloads(a)[i] == Payloads(b)[i];
        assert (a + b)[i] == a[i] && (a + b)[|a| + i] == b[i];
        var x, y := a[i], b[i];
        assert x in a + b && y in a + b;
      }
    }
  }

  lemma {:induction false} DedupKeysTheirPayloads(ps: seq<Payload>, ks: seq<Keyed>)
    requires AllKeyed(ps) && forall k :: k in ks ==> k in Keys(ps)
    ensures forall k :: k in Dedup(ks) ==> KeyOf(k.payload) == Some(k)
  {
    forall k | k in Dedup(ks) ensures KeyOf(k.payload) == Some(k) {
      var j :| 0 <= j < |Dedup(ks)| && Dedup(ks)[j] == k;
      DedupFromInput(ks, j);
      var i :| 0 <= i < |ps| && Keys(ps)[i] == k;
    }
  }

  // Exactly when: the payloads of an accepted sequence are those that sorting and deduplicating gives if
  // and only if none of them stands on a lower number than the first one with its hash.
  lemma {:induction false} RefinesIffFirstIsLowest(ps: seq<Payload>)
    requires Stream(ps).error == None
    ensures AllKeyed(ps)
    ensures Payloads(Dedup(StableSort(Keys(ps)))) == Stream(ps).kept <==> FirstIsLowest(Keys(ps))
  {
    AcceptedHasRefs(ps);
    StreamAcceptsAscending(ps);
    var ks := Keys(ps);
    if FirstIsLowest(ks) {
      SortingAscendingStream(ks);
    }
    if Payloads(Dedup(StableSort(ks))) == Stream(ps).kept {
      forall k | k in StableSort(ks) ensures k in ks { SortKeepsMembers(ks, k); }
      DedupKeysTheirPayloads(ps, StableSort(ks));
      DedupKeysTheirPayloads(ps, ks);
      PayloadsInjective(Dedup(StableSort(ks)), Dedup(ks));
      UnchangedMeansLowest(ks);
    }
  }

  lemma {:induction false} LowestIfDetermined(ks: seq<Keyed>)
    requires FirstIsLowest(ks) || HashDeterminesNumber(ks)
    ensures FirstIsLowest(ks)
  {
  }

  // In particular where a hash determines its block number: sorting, deduplicating and writing the same
  // sequence succeeds and produces the payloads, lines and summary the streaming writer holds.
  lemma {:induction false} StreamingRefinesBuffered(ps: seq<Payload>)
    requires Stream(ps).error == None
    requires AllKeyed(ps) ==> FirstIsLowest(Keys(ps)) || HashDeterminesNumber(Keys(ps))
    ensures AllKeyed(ps)
    ensures Payloads(Dedup(StableSort(Keys(ps)))) == Stream(ps).kept
    ensures AllHaveLines(Stream(ps).kept)
    ensures Refs(Stream(ps).kept) && (ps != [] ==> SummarizeBundle(Stream(ps).kept).Success?)
  {
    AcceptedHasRefs(ps);
    RefinesIffFirstIsLowest(ps);
    LowestIfDetermined(Keys(ps));
    StreamAcceptsAscending(ps);
    KeptHasRefs(ps);
    if ps != [] {
      var _ := DedupRepresents(Keys(ps), 0);
    }
  }

  lemma {:induction false} KeptHasRefs(ps: seq<Payload>)
    requires Refs(ps) && KeepsFirsts(ps)
    ensures Refs(Stream(ps).kept) && AllHaveLines(Stream(ps).kept)
    ensures forall j :: 0 <= j < |Dedup(Keys(ps))| ==> NumberOf(Stream(ps).kept[j]) == Dedup(Keys(ps))[j].number
  {
    var firsts, kept := Dedup(Keys(ps)), Stream(ps).kept;
    forall j | 0 <= j < |kept|
      ensures PayloadBlockRef(kept[j]).Success? && PayloadBlockRef(kept[j]).value.hash != "" && NumberOf(kept[j]) == firsts[j].number
    {
      DedupFromInput(Keys(ps), j);
    }
  }

  // What goes wrong otherwise: the streaming writer keeps the higher block and the buffered one the lower.
  lemma {:induction false} SharedHashBreaksRefinement(high: Payload, low: Payload)
    requires HasRef(high) && HasRef(low)
    requires PayloadBlockRef(high).value.hash == PayloadBlockRef(low).value.hash && NumberOf(low) < NumberOf(high)
    ensures Stream([high, low]) == Streamed([high], None)
    ensures AllKeyed([high, low]) && Payloads(Dedup(StableSort(Keys([high, low])))) == [low]
  {
    StreamTwo(high, low);
    assert [high, low][0] == high && [high, low][1] == low;
    BufferedKeepsLower([high, low]);
  }

  lemma {:induction false} KeysOfTwo(ps: seq<Payload>)
    requires |ps| == 2 && Refs(ps)
    ensures AllKeyed(ps) && Keys(ps) == [KeyOf(ps[0]).value, KeyOf(ps[1]).value]
  {
  }

  lemma {:induction false} PayloadsOfOne(k: Keyed)
    ensures Payloads([k]) == [k.payload]
  {
  }

  lemma {:induction false} BufferedKeepsLower(ps: seq<Payload>)
    requires |ps| == 2 && Refs(ps) && PayloadBlockRef(ps[0]).value.hash == PayloadBlockRef(ps[1]).value.hash
    requires NumberOf(ps[1]) < NumberOf(ps[0])
    ensures AllKeyed(ps) && Payloads(Dedup(StableSort(Keys(ps)))) == [ps[1]]
  {
    KeysOfTwo(ps);
    LowerRepeatWins(KeyOf(ps[0]).value, KeyOf(ps[1]).value);
    PayloadsOfOne(KeyOf(ps[1]).value);
  }

  lemma {:induction false} StreamTwo(p: Payload, q: Payload)
    requires HasRef(p) && HasRef(q) && PayloadBlockRef(p).value.hash == PayloadBlockRef(q).value.hash
    ensures Stream([p, q]) == Streamed([p], None)
  {
    assert [p, q][0] == p && [p, q][1] == q;
    assert [p, q][..1] == [p] && [p][..0] == [];
    assert Stream([p]) == Streamed([] + [p], None);
    assert HasHash([p], PayloadBlockRef(q).value.hash) by { assert KeyOf([p][0]).Some?; }
  }

  lemma {:induction false} LowerRepeatWins(high: Keyed, low: Keyed)
    requires low.number < high.number && low.hash == high.hash != ""
    ensures Dedup(StableSort([high, low])) == [low]
  {
    assert [high, low][..1] == [high] && [high][..0] == [];
    assert InsertStable([], high) == [high];
    assert InsertAt([high], low) == 0;
    assert InsertStable([high], low) == [low, high];
    assert [] + [low] == [low] && [low] + [high] == [low, high];
    DedupSnoc([], low);
    HashesSnoc([], low);
    DedupSnoc([low], high);
  }

  // ----- Contiguity -----

  ghost predicate AscendingBlocks(kept: seq<Payload>) {
    Refs(kept) && forall i, j :: 0 <= i < j < |kept| ==> NumberOf(kept[i]) < NumberOf(kept[j])
  }

  lemma {:induction false} AscendingSpan(kept: seq<Payload>, i: nat)
    requires AscendingBlocks(kept) && i < |kept|
    ensures NumberOf(kept[i]) >= NumberOf(kept[0]) + i
  {
    if i > 0 {
      AscendingSpan(kept, i - 1);
    }
  }

  lemma {:induction false} AscendingSpanBack(kept: seq<Payload>, i: nat)
    requires AscendingBlocks(kept) && i < |kept|
    ensures NumberOf(kept[i]) <= NumberOf(kept[|kept| - 1]) - (|kept| - 1 - i)
    decreases |kept| - i
  {
    if i < |kept| - 1 {
      AscendingSpanBack(kept, i + 1);
    }
  }

  lemma {:induction false} AcceptedAscends(ps: seq<Payload>)
    requires Stream(ps).error == None
    ensures AscendingBlocks(Stream(ps).kept)
  {
    AcceptedHasRefs(ps);
    StreamAcceptsAscending(ps);
    KeptHasRefs(ps);
  }

  // Contiguous, computed from a count and two numbers in wrapping arithmetic, says of a streamed bundle
  // exactly that its k-th block number is StartBlockNumber + 1 + k (again wrapping, for a first block 0).
  lemma {:induction false} ContiguousMeansNoGap(kept: seq<Payload>)
    requires AscendingBlocks(kept) && kept != []
    ensures SummarizeBundle(kept).Success?
    ensures var info := SummarizeBundle(kept).value;
            info.Contiguous() <==>
            forall i :: 0 <= i < |kept| ==> NumberOf(kept[i]) == (info.startBlockNumber + 1 + i) % TWO_64
  {
    var info, n := SummarizeBundle(kept).value, |kept| - 1;
    var first, last := NumberOf(kept[0]), NumberOf(kept[n]);
    AscendingSpan(kept, n);
    assert (info.startBlockNumber + 1) % TWO_64 == first;
    SpanModulo(first, last, |kept|);
    if last - first == n {
      forall i | 0 <= i < |kept| ensures NumberOf(kept[i]) == first + i {
        AscendingSpan(kept, i);
        AscendingSpanBack(kept, i);
      }
    }
    if last - first != n {
      assert NumberOf(kept[n]) != (info.startBlockNumber + 1 + n) % TWO_64;
    }
  }

  lemma {:induction false} SpanModulo(first: Uint64, last: Uint64, count: nat)
    requires first + count - 1 <= last && count > 0
    ensures count % TWO_64 == (last - (first - 1) % TWO_64) % TWO_64 <==> last - first == count - 1
  {
  }

  ghost predicate Emits(kept: seq<Payload>, block: int)
    requires Refs(kept)
  {
    exists i :: 0 <= i < |kept| && NumberOf(kept[i]) == block
  }

  // In terms of block numbers alone: from a first block of at least 1, Contiguous holds exactly when the
  // emitted numbers are StartBlockNumber+1 through EndBlockNumber, none missing.
  lemma {:induction false} ContiguousMeansWholeRange(ps: seq<Payload>)
    requires Stream(ps).error == None && Stream(ps).kept != []
    requires AscendingBlocks(Stream(ps).kept) ==> NumberOf(Stream(ps).kept[0]) >= 1
    ensures AscendingBlocks(Stream(ps).kept) && SummarizeBundle(Stream(ps).kept).Success?
    ensures var kept, info := Stream(ps).kept, SummarizeBundle(Stream(ps).kept).value;
            info.Contiguous() <==>
            forall block :: Emits(kept, block) <==> info.startBlockNumber + 1 <= block <= info.endBlockNumber
  {
    AcceptedAscends(ps);
    WholeRangeIffContiguous(Stream(ps).kept);
  }

  lemma {:induction false} EmittedWithinRange(kept: seq<Payload>, block: int)
    requires AscendingBlocks(kept) && Emits(kept, block)
    ensures NumberOf(kept[0]) <= block <= NumberOf(kept[|kept| - 1])
  {
    var i :| 0 <= i < |kept| && NumberOf(kept[i]) == block;
    AscendingSpan(kept, i);
    AscendingSpanBack(kept, i);
  }

  lemma {:induction false} WholeRangeIffContiguous(kept: seq<Payload>)
    requires AscendingBlocks(kept) && kept != [] && NumberOf(kept[0]) >= 1
    ensures SummarizeBundle(kept).Success?
    ensures var info := SummarizeBundle(kept).value;
            info.Contiguous() <==>
            forall block :: Emits(kept, block) <==> info.startBlockNumber + 1 <= block <= info.endBlockNumber
  {
    ContiguousMeansNoGap(kept);
    var info, first, n := SummarizeBundle(kept).value, NumberOf(kept[0]), |kept| - 1;
    if info.Contiguous() {
      forall block ensures Emits(kept, block) <==> first <= block <= info.endBlockNumber {
        if first <= block <= info.endBlockNumber {
          NoGapEmits(kept, block);
        } else if Emits(kept, block) {
          EmittedWithinRange(kept, block);
        }
      }
    } else if forall block :: Emits(kept, block) <==> first <= block <= info.endBlockNumber {
      WholeRangeHasNoGap(kept, n);
    }
  }

  lemma {:induction false} NoGapEmits(kept: seq<Payload>, block: int)
    requires AscendingBlocks(kept) && kept != [] && NumberOf(kept[0]) >= 1
    requires SummarizeBundle(kept).Success? && SummarizeBundle(kept).value.Contiguous()
    requires NumberOf(kept[0]) <= block <= NumberOf(kept[|kept| - 1])
    ensures Emits(kept, block)
  {
    var first, n := NumberOf(kept[0]), |kept| - 1;
    AscendingSpan(kept, n);
    SpanModulo(first, NumberOf(kept[n]), |kept|);
    AscendingSpan(kept, block - first);
    AscendingSpanBack(kept, block - first);
    assert NumberOf(kept[block - first]) == block;
  }

  lemma {:induction false} WholeRangeHasNoGap(kept: seq<Payload>, i: nat)
    requires AscendingBlocks(kept) && i < |kept|
    requires forall block :: NumberOf(kept[0]) <= block <= NumberOf(kept[|kept| - 1]) ==> Emits(kept, block)
    ensures NumberOf(kept[i]) == NumberOf(kept[0]) + i
  {
    if i > 0 {
      WholeRangeHasNoGap(kept, i - 1);
      var block := NumberOf(kept[0]) + i;
      AscendingSpan(kept, i);
      AscendingSpanBack(kept, i);
      assert Emits(kept, block);
      var j :| 0 <= j < |kept| && NumberOf(kept[j]) == block;
      AscendingSpan(kept, j);
      assert j <= i;
    }
  }

  // ----- Contiguity of a buffered bundle -----

  ghost predicate Covers(numbers: seq<int>, low: int, high: int) {
    forall block :: low <= block <= high ==> block in numbers
  }

  ghost predicate NoRepeat(numbers: seq<int>) { forall i, j :: 0 <= i < j < |numbers| ==> numbers[i] != numbers[j] }

  ghost predicate NonDecreasing(numbers: seq<int>) { forall i, j :: 0 <= i < j < |numbers| ==> numbers[i] <= numbers[j] }

  // Sorted numbers that cover their range never step by more than one.
  lemma {:induction false} CoveredStep(numbers: seq<int>, i: nat)
    requires NonDecreasing(numbers) && i + 1 < |numbers| && Covers(numbers, numbers[0], numbers[|numbers| - 1])
    ensures numbers[i + 1] <= numbers[i] + 1
  {
    var block := numbers[i] + 1;
    if block <= numbers[|numbers| - 1] {
      assert block in numbers;
      var j :| 0 <= j < |numbers| && numbers[j] == block;
      assert i < j;
    }
  }

  lemma {:induction false} CoveredClimb(numbers: seq<int>, i: nat)
    requires NonDecreasing(numbers) && i < |numbers| && Covers(numbers, numbers[0], numbers[|numbers| - 1])
    ensures numbers[i] <= numbers[0] + i
    ensures forall r :: 0 <= r < i && numbers[r] == numbers[r + 1] ==> numbers[i] <= numbers[0] + i - 1
  {
    if i > 0 {
      CoveredClimb(numbers, i - 1);
      CoveredStep(numbers, i - 1);
    }
  }

  lemma {:induction false} StrictClimb(numbers: seq<int>, i: nat)
    requires NonDecreasing(numbers) && NoRepeat(numbers) && i < |numbers|
    ensures numbers[0] + i <= numbers[i] <= numbers[|numbers| - 1] - (|numbers| - 1 - i)
  {
    ClimbUp(numbers, 0, i);
    ClimbUp(numbers, i, |numbers| - 1);
  }

  lemma {:induction false} ClimbUp(numbers: seq<int>, i: nat, j: nat)
    requires NonDecreasing(numbers) && NoRepeat(numbers) && i <= j < |numbers|
    ensures numbers[i] + (j - i) <= numbers[j]
    decreases j
  {
    if i < j {
      ClimbUp(numbers, i, j - 1);
      assert numbers[j - 1] <= numbers[j] && numbers[j - 1] != numbers[j];
    }
  }

  // As many sorted numbers as their range is wide cover it exactly when none repeats.
  lemma {:induction false} CoveredIffNoRepeat(numbers: seq<int>)
    requires NonDecreasing(numbers) && numbers != [] && numbers[|numbers| - 1] - numbers[0] == |numbers| - 1
    ensures Covers(numbers, numbers[0], numbers[|numbers| - 1]) <==> NoRepeat(numbers)
  {
    var n := |numbers| - 1;
    if NoRepeat(numbers) {
      forall block | numbers[0] <= block <= numbers[n] ensures block in numbers {
        StrictClimb(numbers, block - numbers[0]);
        assert numbers[block - numbers[0]] == block;
      }
    }
    if Covers(numbers, numbers[0], numbers[n]) {
      CoveredClimb(numbers, n);
      forall i, j | 0 <= i < j < |numbers| ensures numbers[i] != numbers[j] {
        assert numbers[i] != numbers[i + 1];
      }
    }
  }

  function NumbersOf(ks: seq<Keyed>): (r: seq<int>)
    ensures |r| == |ks| && forall i :: 0 <= i < |ks| ==> r[i] == ks[i].number
  {
    seq(|ks|, i requires 0 <= i < |ks| => ks[i].number as int)
  }

  lemma {:induction false} DedupStaysSorted(ks: seq<Keyed>)
    requires SortedByNumber(ks)
    ensures SortedByNumber(Dedup(ks))
  {
    if ks != [] {
      var n := |ks| - 1;
      DedupStaysSorted(ks[..n]);
      forall i | 0 <= i < |Dedup(ks[..n])| ensures Dedup(ks[..n])[i].number <= ks[n].number { DedupFromInput(ks[..n], i); }
    }
  }

  // What the buffered path writes.
  function Buffered(ps: seq<Payload>): seq<Keyed>
    requires AllKeyed(ps)
  {
    Dedup(StableSort(Keys(ps)))
  }

  lemma {:induction false} BufferedIsSorted(ps: seq<Payload>)
    requires AllKeyed(ps)
    ensures SortedByNumber(Buffered(ps)) && forall k :: k in Buffered(ps) ==> KeyOf(k.payload) == Some(k)
  {
    var sorted := StableSort(Keys(ps));
    DedupStaysSorted(sorted);
    forall k | k in sorted ensures k in Keys(ps) { SortKeepsMembers(Keys(ps), k); }
    DedupKeysTheirPayloads(ps, sorted);
  }

  // A buffered bundle that passes the test, from a first block of at least 1, covers its range if and only if
  // no number is in it twice: whatever passes with a repeated number has a block missing.
  lemma {:induction false} BufferedContiguity(ps: seq<Payload>)
    requires AllKeyed(ps) && 0 < |Buffered(ps)| < TWO_64 && Buffered(ps)[0].number >= 1
    requires SummarizeBundle(Payloads(Buffered(ps))).Success? && SummarizeBundle(Payloads(Buffered(ps))).value.Contiguous()
    ensures var info, numbers := SummarizeBundle(Payloads(Buffered(ps))).value, NumbersOf(Buffered(ps));
            Covers(numbers, info.startBlockNumber + 1, info.endBlockNumber) <==> NoRepeat(numbers)
  {
    BufferedIsSorted(ps);
    SortedBundleContiguity(Buffered(ps));
  }

  lemma {:induction false} SortedBundleContiguity(ks: seq<Keyed>)
    requires SortedByNumber(ks) && 0 < |ks| < TWO_64 && forall k :: k in ks ==> KeyOf(k.payload) == Some(k)
    requires SummarizeBundle(Payloads(ks)).Success? && SummarizeBundle(Payloads(ks)).value.Contiguous() && ks[0].number >= 1
    ensures var info := SummarizeBundle(Payloads(ks)).value;
            Covers(NumbersOf(ks), info.startBlockNumber + 1, info.endBlockNumber) <==> NoRepeat(NumbersOf(ks))
  {
    var first, last := ks[0], ks[|ks| - 1];
    assert first in ks && last in ks;
    SummaryNumbers(first, last, Payloads(ks));
    WideAsCount(first.number, last.number, |ks|);
    CoveredIffNoRepeat(NumbersOf(ks));
  }

  lemma {:induction false} SummaryNumbers(first: Keyed, last: Keyed, ps: seq<Payload>)
    requires ps != [] && SummarizeBundle(ps).Success? && first.payload == ps[0] && last.payload == ps[|ps| - 1]
    requires KeyOf(first.payload) == Some(first) && KeyOf(last.payload) == Some(last)
    ensures var info := SummarizeBundle(ps).value;
            info.payloads == |ps| && info.startBlockNumber == (first.number - 1) % TWO_64 && info.endBlockNumber == last.number
  {
  }

  lemma {:induction false} WideAsCount(first: Uint64, last: Uint64, count: nat)
    requires 1 <= first <= last && 0 < count < TWO_64 && count % TWO_64 == (last - (first - 1) % TWO_64) % TWO_64
    ensures last - first == count - 1 && (first - 1) % TWO_64 == first - 1
  {
  }

  // Such bundles exist: the buffered path lets two blocks of one number through, and then three payloads
  // numbered n, n, n+2 pass although block n+1 is missing.
  lemma {:induction false} BufferedContiguityMisleads(ps: seq<Payload>)
    requires |ps| == 3 && Refs(ps)
    requires 1 <= NumberOf(ps[0]) == NumberOf(ps[1]) == NumberOf(ps[2]) - 2
    requires PayloadBlockRef(ps[0]).value.hash != PayloadBlockRef(ps[1]).value.hash
    requires PayloadBlockRef(ps[0]).value.hash != PayloadBlockRef(ps[2]).value.hash
    requires PayloadBlockRef(ps[1]).value.hash != PayloadBlockRef(ps[2]).value.hash
    ensures AllKeyed(ps) && Payloads(Dedup(StableSort(Keys(ps)))) == ps
    ensures SummarizeBundle(ps).Success? && SummarizeBundle(ps).value.Contiguous()
    ensures !Emits(ps, NumberOf(ps[0]) + 1)
  {
    BufferedKeepsThree(ps);
    LooksContiguous(ps);
  }

  lemma {:induction false} LooksContiguous(ps: seq<Payload>)
    requires |ps| == 3 && Refs(ps) && 1 <= NumberOf(ps[0]) == NumberOf(ps[1]) == NumberOf(ps[2]) - 2
    ensures SummarizeBundle(ps).Success? && SummarizeBundle(ps).value.Contiguous()
    ensures !Emits(ps, NumberOf(ps[0]) + 1)
  {
    SpanModulo(NumberOf(ps[0]), NumberOf(ps[2]), 3);
  }

  lemma {:induction false} BufferedKeepsThree(ps: seq<Payload>)
    requires |ps| == 3 && Refs(ps) && NumberOf(ps[0]) <= NumberOf(ps[1]) <= NumberOf(ps[2])
    requires PayloadBlockRef(ps[0]).value.hash != PayloadBlockRef(ps[1]).value.hash
    requires PayloadBlockRef(ps[0]).value.hash != PayloadBlockRef(ps[2]).value.hash
    requires PayloadBlockRef(ps[1]).value.hash != PayloadBlockRef(ps[2]).value.hash
    ensures AllKeyed(ps) && Payloads(Dedup(StableSort(Keys(ps)))) == ps
  {
    var a, b, c := KeyOf(ps[0]).value, KeyOf(ps[1]).value, KeyOf(ps[2]).value;
    assert Keys(ps) == [a, b, c];
    ThreeKept(a, b, c);
    assert Payloads(Keys(ps)) == ps;
  }

  lemma {:induction false} ThreeKept(a: Keyed, b: Keyed, c: Keyed)
    requires a.number <= b.number <= c.number && a.hash != b.hash && a.hash != c.hash && b.hash != c.hash
    ensures Dedup(StableSort([a, b, c])) == [a, b, c]
  {
    assert [a] + [b] == [a, b] && [a, b] + [c] == [a, b, c];
    OneKept(a);
    SortSnocAtEnd([a], b);
    SortSnocAtEnd([a, b], c);
    HashesSnoc([a], b);
    DedupSnoc([a], b);
    DedupSnoc([a, b], c);
  }

  lemma {:induction false} OneKept(a: Keyed)
    ensures StableSort([a]) == [a] && Dedup([a]) == [a] && Hashes([a]) == {a.hash}
  {
    assert [] + [a] == [a];
    SortSnocAtEnd([], a);
    HashesSnoc([], a);
    DedupSnoc([], a);
  }

  lemma {:induction false} SortSnocAtEnd(ks: seq<Keyed>, k: Keyed)
    requires StableSort(ks) == ks && (ks == [] || ks[|ks| - 1].number <= k.number)
    ensures StableSort(ks + [k]) == ks + [k]
  {
    assert (ks + [k])[..|ks|] == ks;
  }
}
