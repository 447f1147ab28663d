/**
Choosing and checking cpusets against the host's physical cores (`pkg/cputopology/select.go`).

Select draws at random; every random choice is left open here (`:|`), so what is proved of Select holds
for every shuffle. Library sorting is the insertion sort SortInts, of which only its contract is used.
*/
module CpuSelect {
  import opened Shuffling
  import opened Wrappers

  datatype Cpu = Cpu(id: int, core: int, socket: int, numa: int)

  // Core ids repeat across sockets, so a physical core is a pair.
  datatype CoreKey = CoreKey(socket: int, core: int)

  datatype Mode = Any | FullCores | OneThreadPerCore | Other(name: string)

  datatype SelectError = CountTooSmall | NotEnoughCpus | NoFullCores | NotEnoughCores | UnknownSelectMode

  datatype CheckError =
    | UnknownCpu(id: int)
    | PartialCore(key: CoreKey, used: nat, threads: nat)
    | SharedCore(key: CoreKey, used: nat, first: int)
    | UnknownCheckMode

  function KeyOf(c: Cpu): CoreKey { CoreKey(c.socket, c.core) }

  ghost predicate HasCpu(cpus: seq<Cpu>, id: int) { exists i :: 0 <= i < |cpus| && cpus[i].id == id }

  ghost predicate DistinctIds(cpus: seq<Cpu>) {
    forall i, j :: 0 <= i < j < |cpus| ==> cpus[i].id != cpus[j].id
  }

  ghost predicate NoDup<T>(s: seq<T>) { forall i, j :: 0 <= i < j < |s| ==> s[i] != s[j] }

  ghost predicate Ascending(s: seq<int>) { forall i, j :: 0 <= i < j < |s| ==> s[i] < s[j] }

  // ----- Sorting -----

  ghost predicate Sorted(s: seq<int>) { forall i, j :: 0 <= i < j < |s| ==> s[i] <= s[j] }

  function Insert(x: int, s: seq<int>): seq<int> {
    if s == [] || x <= s[0] then [x] + s else [s[0]] + Insert(x, s[1..])
  }

  lemma {:induction false} InsertContents(x: int, s: seq<int>)
    ensures multiset(Insert(x, s)) == multiset(s) + multiset{x}
  {
    if s != [] && x > s[0] {
      InsertContents(x, s[1..]);
      assert s == [s[0]] + s[1..];
    }
  }

  lemma {:induction false} InsertSorted(x: int, s: seq<int>)
    requires Sorted(s)
    ensures Sorted(Insert(x, s))
  {
    if s != [] && x > s[0] {
      InsertSorted(x, s[1..]);
      InsertContents(x, s[1..]);
      var rest := Insert(x, s[1..]);
      forall k | 0 <= k < |rest| ensures s[0] <= rest[k] {
        assert rest[k] in multiset(rest);
        if rest[k] != x {
          assert rest[k] in multiset(s[1..]);
          assert rest[k] in s[1..];
        }
      }
    }
  }

  function SortInts(s: seq<int>): seq<int> {
    if s == [] then [] else Insert(s[|s| - 1], SortInts(s[..|s| - 1]))
  }

  lemma {:induction false} SortIntsCorrect(s: seq<int>)
    ensures Sorted(SortInts(s)) && multiset(SortInts(s)) == multiset(s)
    ensures |SortInts(s)| == |s|
    ensures forall x :: x in SortInts(s) <==> x in s
  {
    if s != [] {
      var n := |s| - 1;
      var rest := SortInts(s[..n]);
      SortIntsCorrect(s[..n]);
      InsertSorted(s[n], rest);
      InsertContents(s[n], rest);
      assert s == s[..n] + [s[n]];
    }
    PermutationKeeps(SortInts(s), s);
  }

  lemma NoDupIsMultiplicity<T(!new)>(s: seq<T>)
    ensures NoDup(s) <==> forall x :: multiset(s)[x] <= 1
  {
    if NoDup(s) {
      forall x ensures multiset(s)[x] <= 1 { NoDupCount(s, x); }
    } else {
      var i, j :| 0 <= i < j < |s| && s[i] == s[j];
      assert s == s[..j] + [s[j]] + s[j + 1..];
      assert s[i] in s[..j];
      assert multiset(s)[s[i]] >= 2;
    }
  }

  lemma {:induction false} NoDupCount<T>(s: seq<T>, x: T)
    requires NoDup(s)
    ensures multiset(s)[x] <= 1
  {
    if s != [] {
      var n := |s| - 1;
      assert s == s[..n] + [s[n]];
      NoDupCount(s[..n], x);
      assert s[n] !in s[..n];
    }
  }

  lemma NoDupAppend<T>(a: seq<T>, b: seq<T>)
    requires NoDup(a) && NoDup(b) && forall x :: x in a ==> x !in b
    ensures NoDup(a + b)
  {
    forall i, j | 0 <= i < j < |a + b| ensures (a + b)[i] != (a + b)[j] {
      if i < |a| <= j {
        assert a[i] in a && b[j - |a|] in b;
      }
    }
  }

  lemma SortedNoDupAscends(s: seq<int>)
    requires NoDup(s)
    ensures Ascending(SortInts(s))
  {
    SortIntsCorrect(s);
    PermutationKeeps(s, SortInts(s));
  }

  // ----- Grouping threads by physical core -----

  // The threads of one core, in host order.
  function ThreadIds(cpus: seq<Cpu>, key: CoreKey): seq<int> {
    if cpus == [] then []
    else
      var n := |cpus| - 1;
      ThreadIds(cpus[..n], key) + (if KeyOf(cpus[n]) == key then [cpus[n].id] else [])
  }

  lemma {:induction false} ThreadIdsMembers(cpus: seq<Cpu>, key: CoreKey)
    ensures forall id :: id in ThreadIds(cpus, key) <==> exists i :: 0 <= i < |cpus| && cpus[i].id == id && KeyOf(cpus[i]) == key
  {
    if cpus != [] {
      var n := |cpus| - 1;
      ThreadIdsMembers(cpus[..n], key);
      assert cpus == cpus[..n] + [cpus[n]];
    }
  }

  // keys names every physical core once, and cores lists their threads in ascending order.
  ghost predicate IsGrouping(cpus: seq<Cpu>, keys: seq<CoreKey>, cores: seq<seq<int>>) {
    && |keys| == |cores|
    && NoDup(keys)
    && (forall k :: 0 <= k < |cores| ==> cores[k] == SortInts(ThreadIds(cpus, keys[k])))
    && (forall k :: 0 <= k < |keys| ==> ThreadIds(cpus, keys[k]) != [])
    && (forall i :: 0 <= i < |cpus| ==> KeyOf(cpus[i]) in keys)
  }

  ghost predicate Grouped(cpus: seq<Cpu>, byCore: map<CoreKey, seq<int>>) {
    && (forall key :: key in byCore ==> byCore[key] == ThreadIds(cpus, key) && byCore[key] != [])
    && (forall key :: key !in byCore ==> ThreadIds(cpus, key) == [])
    && (forall i :: 0 <= i < |cpus| ==> KeyOf(cpus[i]) in byCore)
  }

  function AddThread(byCore: map<CoreKey, seq<int>>, c: Cpu): map<CoreKey, seq<int>> {
    byCore[KeyOf(c) := (if KeyOf(c) in byCore then byCore[KeyOf(c)] else []) + [c.id]]
  }

  lemma AddThreadGroups(cpus: seq<Cpu>, byCore: map<CoreKey, seq<int>>, c: Cpu)
    requires Grouped(cpus, byCore)
    ensures Grouped(cpus + [c], AddThread(byCore, c))
  {
    var more := cpus + [c];
    assert more[..|cpus|] == cpus;
    forall key ensures ThreadIds(more, key) == ThreadIds(cpus, key) + (if KeyOf(c) == key then [c.id] else []) {}
  }

  // The physical cores in the order of their first threads.
  function FirstSeen(cpus: seq<Cpu>): seq<CoreKey> {
    if cpus == [] then []
    else
      var n := |cpus| - 1;
      var before := FirstSeen(cpus[..n]);
      if KeyOf(cpus[n]) in before then before else before + [KeyOf(cpus[n])]
  }

  lemma {:induction false} FirstSeenNoDup(cpus: seq<Cpu>)
    ensures NoDup(FirstSeen(cpus))
  {
    if cpus != [] {
      FirstSeenNoDup(cpus[..|cpus| - 1]);
    }
  }

  lemma {:induction false} FirstSeenIff(cpus: seq<Cpu>, key: CoreKey)
    ensures key in FirstSeen(cpus) <==> ThreadIds(cpus, key) != []
  {
    if cpus != [] {
      FirstSeenIff(cpus[..|cpus| - 1], key);
    }
  }

  lemma {:induction false} FirstSeenHas(cpus: seq<Cpu>, i: nat)
    requires i < |cpus|
    ensures KeyOf(cpus[i]) in FirstSeen(cpus)
  {
    var n := |cpus| - 1;
    if i < n {
      FirstSeenHas(cpus[..n], i);
    }
  }

  function CoresOf(cpus: seq<Cpu>, keys: seq<CoreKey>): (cores: seq<seq<int>>)
    ensures |cores| == |keys| && forall k :: 0 <= k < |keys| ==> cores[k] == SortInts(ThreadIds(cpus, keys[k]))
  {
    seq(|keys|, k requires 0 <= k < |keys| => SortInts(ThreadIds(cpus, keys[k])))
  }

  // Any order of the cores is a grouping.
  lemma {:induction false} ShuffledGroups(cpus: seq<Cpu>, keys: seq<CoreKey>)
    requires multiset(keys) == multiset(FirstSeen(cpus))
    ensures IsGrouping(cpus, keys, CoresOf(cpus, keys))
  {
    FirstSeenNoDup(cpus);
    PermutationKeeps(FirstSeen(cpus), keys);
    forall k | 0 <= k < |keys| ensures ThreadIds(cpus, keys[k]) != [] {
      var key := keys[k];
      assert key in keys;
      FirstSeenIff(cpus, key);
    }
    forall i | 0 <= i < |cpus| ensures KeyOf(cpus[i]) in keys {
      FirstSeenHas(cpus, i);
    }
  }

  method GroupThreads(cpus: seq<Cpu>) returns (byCore: map<CoreKey, seq<int>>, order: seq<CoreKey>)
    ensures Grouped(cpus, byCore) && order == FirstSeen(cpus)
    ensures forall key :: key in order <==> key in byCore
  {
    byCore, order := map[], [];
    for i := 0 to |cpus|
      invariant order == FirstSeen(cpus[..i]) && forall key :: key in order <==> key in byCore
      invariant Grouped(cpus[..i], byCore)
    {
      var key := KeyOf(cpus[i]);
      assert cpus[..i + 1] == cpus[..i] + [cpus[i]] && cpus[..i + 1][..i] == cpus[..i];
      if key !in byCore {
        order := order + [key];
      }
      AddThreadGroups(cpus[..i], byCore, cpus[i]);
      byCore := AddThread(byCore, cpus[i]);
    }
    assert cpus[..|cpus|] == cpus;
  }

  // The random order of the cores.
  method ShuffleKeys(order: seq<CoreKey>) returns (keys: seq<CoreKey>, ghost draws: seq<nat>)
    ensures Draws(draws, |order|) && keys == ShuffleBy(order, draws)
  {
    var shuffled := new CoreKey[|order|](k requires 0 <= k < |order| => order[k]);
    assert shuffled[..] == order;
    var drawn := RandomDraws(|order|);
    Shuffle(shuffled, drawn);
    return shuffled[..], drawn;
  }

  method PhysicalCores(cpus: seq<Cpu>) returns (cores: seq<seq<int>>, ghost keys: seq<CoreKey>, ghost draws: seq<nat>)
    ensures IsGrouping(cpus, keys, cores) && cores == CoresOf(cpus, keys)
    ensures Draws(draws, |FirstSeen(cpus)|) && keys == ShuffleBy(FirstSeen(cpus), draws)
  {
    var byCore, order := GroupThreads(cpus);
    var shuffled;
    shuffled, draws := ShuffleKeys(order);
    keys := shuffled;
    ShufflePermutes(order, draws);
    ShuffledGroups(cpus, keys);
    forall k | 0 <= k < |keys| ensures keys[k] in byCore { ElementsStay(order, keys, k); }
    cores := SortedThreads(cpus, byCore, shuffled);
  }

  method SortedThreads(ghost cpus: seq<Cpu>, byCore: map<CoreKey, seq<int>>, keys: seq<CoreKey>) returns (cores: seq<seq<int>>)
    requires Grouped(cpus, byCore) && forall k :: 0 <= k < |keys| ==> keys[k] in byCore
    ensures cores == CoresOf(cpus, keys)
  {
    cores := [];
    for k := 0 to |keys|
      invariant |cores| == k && forall m :: 0 <= m < k ==> cores[m] == SortInts(ThreadIds(cpus, keys[m]))
    {
      cores := cores + [SortInts(byCore[keys[k]])];
    }
  }

  lemma {:induction false} ElementsStay(order: seq<CoreKey>, keys: seq<CoreKey>, k: nat)
    requires multiset(keys) == multiset(order) && k < |keys|
    ensures keys[k] in order
  {
    assert keys[k] in multiset(keys);
  }

  lemma PermutationKeeps<T(!new)>(s: seq<T>, t: seq<T>)
    requires multiset(s) == multiset(t)
    ensures |s| == |t| && (NoDup(s) ==> NoDup(t)) && forall x :: x in s <==> x in t
  {
    NoDupIsMultiplicity(s);
    NoDupIsMultiplicity(t);
    assert |multiset(s)| == |s| && |multiset(t)| == |t|;
    forall x ensures x in s <==> x in t {
      assert x in s <==> x in multiset(s);
      assert x in t <==> x in multiset(t);
    }
  }

  // ----- Filling a count with whole cores -----

  ghost predicate Picks(cores: seq<seq<int>>, from: nat, idx: seq<nat>) {
    && (forall a :: 0 <= a < |idx| ==> from <= idx[a] < |cores|)
    && (forall a, b :: 0 <= a < b < |idx| ==> idx[a] < idx[b])
  }

  ghost function Threads(cores: seq<seq<int>>, idx: seq<nat>): nat
    requires forall a :: 0 <= a < |idx| ==> idx[a] < |cores|
  {
    if idx == [] then 0 else |cores[idx[0]]| + Threads(cores, idx[1..])
  }

  ghost function Gather(cores: seq<seq<int>>, idx: seq<nat>): seq<seq<int>>
    requires forall a :: 0 <= a < |idx| ==> idx[a] < |cores|
  {
    seq(|idx|, a requires 0 <= a < |idx| => cores[idx[a]])
  }

  ghost predicate FillsExactly(cores: seq<seq<int>>, idx: seq<nat>, count: nat) {
    Picks(cores, 0, idx) && Threads(cores, idx) == count
  }

  ghost function CanFill(cores: seq<seq<int>>, i: nat, s: nat): bool
    requires i <= |cores|
    decreases |cores| - i
  {
    if i == |cores| then s == 0
    else CanFill(cores, i + 1, s) || (s >= |cores[i]| && CanFill(cores, i + 1, s - |cores[i]|))
  }

  lemma {:induction false} PicksCanFill(cores: seq<seq<int>>, i: nat, idx: seq<nat>)
    requires i <= |cores| && Picks(cores, i, idx)
    ensures CanFill(cores, i, Threads(cores, idx))
    decreases |cores| - i
  {
    if i < |cores| {
      if idx != [] && idx[0] == i {
        PicksCanFill(cores, i + 1, idx[1..]);
      } else {
        PicksCanFill(cores, i + 1, idx);
      }
    } else {
      assert idx == [];
    }
  }

  lemma {:induction false} ThreadsSnoc(cores: seq<seq<int>>, idx: seq<nat>, i: nat)
    requires i < |cores| && forall a :: 0 <= a < |idx| ==> idx[a] < |cores|
    ensures Threads(cores, idx + [i]) == Threads(cores, idx) + |cores[i]|
  {
    if idx != [] {
      assert (idx + [i])[1..] == idx[1..] + [i];
      ThreadsSnoc(cores, idx[1..], i);
    }
  }

  ghost predicate RowFilled(canFill: array2<bool>, cores: seq<seq<int>>, i: nat)
    requires i < canFill.Length0 == |cores| + 1
    reads canFill
  {
    forall t :: 0 <= t < canFill.Length1 ==> canFill[i, t] == CanFill(cores, i, t)
  }

  ghost predicate IsFillTable(canFill: array2<bool>, cores: seq<seq<int>>, count: nat)
    reads canFill
  {
    && canFill.Length0 == |cores| + 1 && canFill.Length1 == count + 1
    && forall k :: 0 <= k <= |cores| ==> RowFilled(canFill, cores, k)
  }

  // canFill[i, s] reports whether cores[i..] can reach the sum s exactly.
  method FillTable(cores: seq<seq<int>>, count: nat) returns (canFill: array2<bool>)
    ensures fresh(canFill) && IsFillTable(canFill, cores, count)
  {
    var n := |cores|;
    canFill := new bool[n + 1, count + 1]((i, s) => i == n && s == 0);
    var i := n;
    while i > 0
      invariant 0 <= i <= n
      invariant forall k :: i <= k <= n ==> RowFilled(canFill, cores, k)
    {
      i := i - 1;
      label Before:
      FillRow(canFill, cores, i);
      forall k | i < k <= n ensures RowFilled(canFill, cores, k) {
        assert old@Before(RowFilled(canFill, cores, k));
      }
    }
  }

  // The inner loop: one row from the row after it.
  method FillRow(canFill: array2<bool>, cores: seq<seq<int>>, i: nat)
    requires i < |cores| && canFill.Length0 == |cores| + 1 && RowFilled(canFill, cores, i + 1)
    modifies canFill
    ensures RowFilled(canFill, cores, i)
    ensures forall k, t :: 0 <= k <= |cores| && k != i && 0 <= t < canFill.Length1 ==> canFill[k, t] == old(canFill[k, t])
  {
    var size := |cores[i]|;
    for s := 0 to canFill.Length1
      invariant forall t :: 0 <= t < s ==> canFill[i, t] == CanFill(cores, i, t)
      invariant forall k, t :: 0 <= k <= |cores| && k != i && 0 <= t < canFill.Length1 ==> canFill[k, t] == old(canFill[k, t])
    {
      assert old(RowFilled(canFill, cores, i + 1));
      canFill[i, s] := canFill[i + 1, s] || (s >= size && canFill[i + 1, s - size]);
      assert canFill[i, s] == CanFill(cores, i, s);
    }
  }

  // The cores the walk picks, from core i on.
  ghost function Walk(cores: seq<seq<int>>, i: nat, remaining: nat): seq<nat>
    requires i <= |cores|
    decreases |cores| - i
  {
    if i == |cores| || remaining == 0 then []
    else if |cores[i]| <= remaining && CanFill(cores, i + 1, remaining - |cores[i]|) then
      [i] + Walk(cores, i + 1, remaining - |cores[i]|)
    else Walk(cores, i + 1, remaining)
  }

  // Where the walk is at core i: what it has picked so far, and that the rest can still be filled.
  ghost predicate Walking(cores: seq<seq<int>>, count: nat, i: nat, idx: seq<nat>, remaining: nat) {
    && i <= |cores| && remaining <= count && (remaining > 0 ==> CanFill(cores, i, remaining))
    && Picks(cores, 0, idx) && (forall a :: 0 <= a < |idx| ==> idx[a] < i)
    && Threads(cores, idx) == count - remaining
    && idx + Walk(cores, i, remaining) == Walk(cores, 0, count)
  }

  lemma {:induction false} WalkPicks(cores: seq<seq<int>>, count: nat, i: nat, idx: seq<nat>, remaining: nat)
    requires i < |cores| && remaining > 0 && Walking(cores, count, i, idx, remaining)
    requires |cores[i]| <= remaining && CanFill(cores, i + 1, remaining - |cores[i]|)
    ensures Walking(cores, count, i + 1, idx + [i], remaining - |cores[i]|)
    ensures Gather(cores, idx + [i]) == Gather(cores, idx) + [cores[i]]
  {
    ThreadsSnoc(cores, idx, i);
    assert idx + Walk(cores, i, remaining) == (idx + [i]) + Walk(cores, i + 1, remaining - |cores[i]|);
  }

  lemma {:induction false} WalkSkips(cores: seq<seq<int>>, count: nat, i: nat, idx: seq<nat>, remaining: nat)
    requires i < |cores| && remaining > 0 && Walking(cores, count, i, idx, remaining)
    requires !(|cores[i]| <= remaining && CanFill(cores, i + 1, remaining - |cores[i]|))
    ensures Walking(cores, count, i + 1, idx, remaining)
  {
  }

  method FillWholeCores(cores: seq<seq<int>>, count: nat)
    returns (picked: Option<seq<seq<int>>>, ghost idx: seq<nat>)
    ensures picked.None? <==> !exists ix :: FillsExactly(cores, ix, count)
    ensures picked.Some? ==> FillsExactly(cores, idx, count) && picked.value == Gather(cores, idx)
    ensures picked.Some? ==> idx == Walk(cores, 0, count)
  {
    var n := |cores|;
    idx := [];
    var canFill := FillTable(cores, count);
    assert RowFilled(canFill, cores, 0);
    if !canFill[0, count] {
      forall ix | FillsExactly(cores, ix, count) ensures false { PicksCanFill(cores, 0, ix); }
      return None, idx;
    }
    var chosen: seq<seq<int>> := [];
    var remaining := count;
    var i := 0;
    while i < n && remaining > 0
      invariant 0 <= i <= n && 0 <= remaining
      invariant IsFillTable(canFill, cores, count)
      invariant Walking(cores, count, i, idx, remaining) && chosen == Gather(cores, idx)
    {
      var size := |cores[i]|;
      assert RowFilled(canFill, cores, i + 1);
      if remaining >= size && canFill[i + 1, remaining - size] {
        WalkPicks(cores, count, i, idx, remaining);
        chosen := chosen + [cores[i]];
        idx := idx + [i];
        remaining := remaining - size;
      } else {
        WalkSkips(cores, count, i, idx, remaining);
      }
      i := i + 1;
    }
    assert FillsExactly(cores, idx, count);
    return Some(chosen), idx;
  }

  // ----- Every combination can come up -----

  function TotalThreads(cores: seq<seq<int>>): nat { if cores == [] then 0 else |cores[0]| + TotalThreads(cores[1..]) }

  lemma {:induction false} FrontCanFill(chosen: seq<seq<int>>, rest: seq<seq<int>>, i: nat)
    requires i <= |chosen|
    ensures CanFill(chosen + rest, i, TotalThreads(chosen[i..]))
    decreases |chosen| - i
  {
    var cores := chosen + rest;
    if i == |chosen| {
      PicksCanFill(cores, i, []);
    } else {
      FrontCanFill(chosen, rest, i + 1);
      assert chosen[i..][1..] == chosen[i + 1..] && cores[i] == chosen[i];
    }
  }

  // Cores that fill the count, put first, are what the walk picks.
  lemma {:induction false} WalkTakesFront(chosen: seq<seq<int>>, rest: seq<seq<int>>, i: nat)
    requires i <= |chosen| && forall k :: 0 <= k < |chosen| ==> chosen[k] != []
    ensures Walk(chosen + rest, i, TotalThreads(chosen[i..])) == seq(|chosen| - i, k requires 0 <= k < |chosen| - i => i + k)
    decreases |chosen| - i
  {
    if i < |chosen| {
      WalkTakesFront(chosen, rest, i + 1);
      FrontCanFill(chosen, rest, i + 1);
      assert chosen[i..][1..] == chosen[i + 1..] && (chosen + rest)[i] == chosen[i];
    }
  }

  // The cores from i on that idx leaves out.
  function Others(cores: seq<seq<int>>, i: nat, idx: seq<nat>): seq<seq<int>>
    requires i <= |cores|
    decreases |cores| - i
  {
    if i == |cores| then []
    else if idx != [] && idx[0] == i then Others(cores, i + 1, idx[1..])
    else [cores[i]] + Others(cores, i + 1, idx)
  }

  lemma {:induction false} GatherHead(cores: seq<seq<int>>, idx: seq<nat>)
    requires idx != [] && forall a :: 0 <= a < |idx| ==> idx[a] < |cores|
    ensures Gather(cores, idx) == [cores[idx[0]]] + Gather(cores, idx[1..])
    ensures multiset(Gather(cores, idx)) == multiset{cores[idx[0]]} + multiset(Gather(cores, idx[1..]))
  {
  }

  lemma {:induction false} ChosenAndOthers(cores: seq<seq<int>>, i: nat, idx: seq<nat>)
    requires i <= |cores| && Picks(cores, i, idx)
    ensures multiset(Gather(cores, idx)) + multiset(Others(cores, i, idx)) == multiset(cores[i..])
    decreases |cores| - i
  {
    if i < |cores| {
      assert cores[i..] == [cores[i]] + cores[i + 1..];
      if idx != [] && idx[0] == i {
        ChosenAndOthers(cores, i + 1, idx[1..]);
        GatherHead(cores, idx);
      } else {
        ChosenAndOthers(cores, i + 1, idx);
      }
    } else {
      assert idx == [];
    }
  }

  lemma {:induction false} GatherTotal(cores: seq<seq<int>>, idx: seq<nat>)
    requires forall a :: 0 <= a < |idx| ==> idx[a] < |cores|
    ensures TotalThreads(Gather(cores, idx)) == Threads(cores, idx)
  {
    if idx != [] {
      GatherTotal(cores, idx[1..]);
      assert Gather(cores, idx)[1..] == Gather(cores, idx[1..]);
    }
  }

  // Whatever cores fill the count, there is an order of all cores for which the walk picks just these.
  lemma {:induction false} AnyCombinationComesUp(cores: seq<seq<int>>, idx: seq<nat>, count: nat) returns (order: seq<seq<int>>)
    requires FillsExactly(cores, idx, count) && forall k :: 0 <= k < |cores| ==> cores[k] != []
    ensures multiset(order) == multiset(cores)
    ensures FillsExactly(order, Walk(order, 0, count), count)
    ensures Gather(order, Walk(order, 0, count)) == Gather(cores, idx)
  {
    var chosen := Gather(cores, idx);
    var rest := Others(cores, 0, idx);
    order := chosen + rest;
    ChosenAndOthers(cores, 0, idx);
    assert cores[0..] == cores && chosen[0..] == chosen;
    GatherTotal(cores, idx);
    WalkTakesFront(chosen, rest, 0);
    var walk := Walk(order, 0, count);
    assert |walk| == |chosen| && forall k :: 0 <= k < |walk| ==> walk[k] == k;
    assert Gather(order, walk) == chosen;
    GatherTotal(order, walk);
  }

  lemma {:induction false} SwapCores(cpus: seq<Cpu>, keys: seq<CoreKey>, i: nat, j: nat)
    requires i < |keys| && j < |keys|
    ensures CoresOf(cpus, Swap(keys, i, j)) == Swap(CoresOf(cpus, keys), i, j)
  {
  }

  lemma {:induction false} ShuffleFirstCores(cpus: seq<Cpu>, keys: seq<CoreKey>, i: nat, draws: seq<nat>)
    requires i <= |keys| && i <= |draws| && Draws(draws[..i], i)
    ensures CoresOf(cpus, ShuffleFirst(keys, i, draws)) == ShuffleFirst(CoresOf(cpus, keys), i, draws)
    decreases i
  {
    if i > 0 {
      assert draws[..i][..i - 1] == draws[..i - 1] && draws[..i][i - 1] == draws[i - 1];
      SwapCores(cpus, keys, i - 1, draws[i - 1]);
      ShuffleFirstCores(cpus, Swap(keys, i - 1, draws[i - 1]), i - 1, draws);
    }
  }

  // And that order can be drawn: whatever cores of the host fill the count, some draws of the shuffle make the
  // walk pick just these.
  lemma {:induction false} AnyCombinationIsDrawn(cpus: seq<Cpu>, idx: seq<nat>, count: nat) returns (draws: seq<nat>)
    requires FillsExactly(CoresOf(cpus, FirstSeen(cpus)), idx, count)
    ensures Draws(draws, |FirstSeen(cpus)|)
    ensures var cores := CoresOf(cpus, ShuffleBy(FirstSeen(cpus), draws));
      && FillsExactly(cores, Walk(cores, 0, count), count)
      && Gather(cores, Walk(cores, 0, count)) == Gather(CoresOf(cpus, FirstSeen(cpus)), idx)
  {
    var keys, cores := FirstSeen(cpus), CoresOf(cpus, FirstSeen(cpus));
    ShuffledGroups(cpus, keys);
    GroupingNonEmpty(cpus, keys, cores);
    var order := AnyCombinationComesUp(cores, idx, count);
    draws := EveryOrderIsDrawn(cores, order);
    assert draws[..|keys|] == draws;
    ShuffleFirstCores(cpus, keys, |keys|, draws);
  }

  // ----- What Check counts -----

  // Which core each known id is on; a repeated host id is taken at its last entry.
  function HostCores(cpus: seq<Cpu>): map<int, CoreKey> {
    if cpus == [] then map[]
    else
      var n := |cpus| - 1;
      HostCores(cpus[..n])[cpus[n].id := KeyOf(cpus[n])]
  }

  // How many entries of cpuset are on a core.
  function Used(host: map<int, CoreKey>, cpuset: seq<int>, key: CoreKey): nat {
    if cpuset == [] then 0
    else
      var n := |cpuset| - 1;
      Used(host, cpuset[..n], key) + (if cpuset[n] in host && host[cpuset[n]] == key then 1 else 0)
  }

  ghost predicate CoreAccepted(cpus: seq<Cpu>, used: nat, key: CoreKey, mode: Mode) {
    match mode
    case FullCores => used == |ThreadIds(cpus, key)|
    case OneThreadPerCore => used <= 1
    case _ => false
  }

  // The condition under which Check returns nil.
  ghost predicate Accepts(cpus: seq<Cpu>, cpuset: seq<int>, mode: Mode) {
    var host := HostCores(cpus);
    mode == Any ||
    ((forall id :: id in cpuset ==> id in host) &&
     (forall key :: Used(host, cpuset, key) > 0 ==> CoreAccepted(cpus, Used(host, cpuset, key), key, mode)))
  }

  lemma {:induction false} HostCoresMembers(cpus: seq<Cpu>)
    ensures forall id :: id in HostCores(cpus) <==> HasCpu(cpus, id)
    ensures DistinctIds(cpus) ==> forall i :: 0 <= i < |cpus| ==>
              cpus[i].id in HostCores(cpus) && HostCores(cpus)[cpus[i].id] == KeyOf(cpus[i])
    ensures forall id :: id in HostCores(cpus) ==> id in ThreadIds(cpus, HostCores(cpus)[id])
  {
    if cpus != [] {
      var n := |cpus| - 1;
      HostCoresMembers(cpus[..n]);
      assert cpus == cpus[..n] + [cpus[n]];
    }
  }

  // A counter map, zero where a key is absent.
  function Count(m: map<CoreKey, nat>, key: CoreKey): nat { if key in m then m[key] else 0 }

  ghost predicate CountsThreads(cpus: seq<Cpu>, m: map<CoreKey, nat>) {
    forall key :: Count(m, key) == |ThreadIds(cpus, key)|
  }

  ghost predicate CountsUsed(host: map<int, CoreKey>, cpuset: seq<int>, m: map<CoreKey, nat>) {
    && (forall key :: Count(m, key) == Used(host, cpuset, key))
    && (forall key :: key in m ==> m[key] > 0)
  }

  lemma CountThread(cpus: seq<Cpu>, m: map<CoreKey, nat>, c: Cpu)
    requires CountsThreads(cpus, m)
    ensures CountsThreads(cpus + [c], m[KeyOf(c) := Count(m, KeyOf(c)) + 1])
    ensures HostCores(cpus + [c]) == HostCores(cpus)[c.id := KeyOf(c)]
  {
    assert (cpus + [c])[..|cpus|] == cpus;
    forall key ensures |ThreadIds(cpus + [c], key)| == |ThreadIds(cpus, key)| + (if KeyOf(c) == key then 1 else 0) {}
  }

  lemma CountUse(host: map<int, CoreKey>, cpuset: seq<int>, m: map<CoreKey, nat>, id: int)
    requires CountsUsed(host, cpuset, m) && id in host
    ensures CountsUsed(host, cpuset + [id], m[host[id] := Count(m, host[id]) + 1])
  {
    assert (cpuset + [id])[..|cpuset|] == cpuset;
    forall key ensures Used(host, cpuset + [id], key) == Used(host, cpuset, key) + (if host[id] == key then 1 else 0) {}
  }

  method CountHost(cpus: seq<Cpu>) returns (byId: map<int, CoreKey>, threadsPerCore: map<CoreKey, nat>)
    ensures byId == HostCores(cpus) && CountsThreads(cpus, threadsPerCore)
  {
    byId, threadsPerCore := map[], map[];
    for i := 0 to |cpus|
      invariant byId == HostCores(cpus[..i]) && CountsThreads(cpus[..i], threadsPerCore)
    {
      CountThread(cpus[..i], threadsPerCore, cpus[i]);
      assert cpus[..i + 1] == cpus[..i] + [cpus[i]];
      byId := byId[cpus[i].id := KeyOf(cpus[i])];
      threadsPerCore := threadsPerCore[KeyOf(cpus[i]) := Count(threadsPerCore, KeyOf(cpus[i])) + 1];
    }
    assert cpus[..|cpus|] == cpus;
  }

  // The first entry that has a property.
  ghost predicate FirstWhere(cpuset: seq<int>, id: int, has: int -> bool) {
    exists i :: 0 <= i < |cpuset| && cpuset[i] == id && has(id) && forall j :: 0 <= j < i ==> !has(cpuset[j])
  }

  function OnCore(host: map<int, CoreKey>, key: CoreKey): int -> bool { (id: int) => id in host && host[id] == key }

  function OffHost(host: map<int, CoreKey>): int -> bool { (id: int) => id !in host }

  lemma {:induction false} UnusedBefore(host: map<int, CoreKey>, cpuset: seq<int>, i: nat, key: CoreKey)
    requires i <= |cpuset| && Used(host, cpuset[..i], key) == 0
    ensures forall j :: 0 <= j < i ==> !OnCore(host, key)(cpuset[j])
  {
    if i > 0 {
      assert cpuset[..i][..i - 1] == cpuset[..i - 1];
      UnusedBefore(host, cpuset, i - 1, key);
    }
  }

  // Counts the cpuset's entries per core, stopping at the first unknown id.
  method CountCpuset(byId: map<int, CoreKey>, cpuset: seq<int>)
    returns (unknown: Option<int>, usedPerCore: map<CoreKey, nat>, firstThread: map<CoreKey, int>)
    ensures unknown.Some? ==> FirstWhere(cpuset, unknown.value, OffHost(byId))
    ensures unknown.None? ==> (forall id :: id in cpuset ==> id in byId) && CountsUsed(byId, cpuset, usedPerCore)
    ensures unknown.None? ==> forall key :: key in usedPerCore ==>
              key in firstThread && FirstWhere(cpuset, firstThread[key], OnCore(byId, key))
  {
    usedPerCore, firstThread := map[], map[];
    for i := 0 to |cpuset|
      invariant forall j :: 0 <= j < i ==> cpuset[j] in byId
      invariant CountsUsed(byId, cpuset[..i], usedPerCore)
      invariant forall key :: key in usedPerCore ==>
                  key in firstThread && FirstWhere(cpuset, firstThread[key], OnCore(byId, key))
    {
      var id := cpuset[i];
      if id !in byId {
        return Some(id), usedPerCore, firstThread;
      }
      var key := byId[id];
      if key !in usedPerCore {
        assert Count(usedPerCore, key) == 0;
        UnusedBefore(byId, cpuset, i, key);
        firstThread := firstThread[key := id];
      }
      CountUse(byId, cpuset[..i], usedPerCore, id);
      assert cpuset[..i + 1] == cpuset[..i] + [id];
      usedPerCore := usedPerCore[key := Count(usedPerCore, key) + 1];
    }
    assert cpuset[..|cpuset|] == cpuset;
    return None, usedPerCore, firstThread;
  }

  // Why Check refuses: what each error says is true of the cpuset.
  ghost predicate ErrorHolds(cpus: seq<Cpu>, cpuset: seq<int>, mode: Mode, error: CheckError) {
    var host := HostCores(cpus);
    match error
    case UnknownCpu(id) => FirstWhere(cpuset, id, OffHost(host))
    case PartialCore(key, used, threads) =>
      mode == FullCores && used == Used(host, cpuset, key) && threads == |ThreadIds(cpus, key)| && used != threads
    case SharedCore(key, used, first) =>
      mode == OneThreadPerCore && used == Used(host, cpuset, key) && used > 1
      && FirstWhere(cpuset, first, OnCore(host, key))
    case UnknownCheckMode => mode.Other? && cpuset != []
  }

  // The verdict on all counted cores is the verdict on the cpuset.
  lemma {:induction false} CoresDecide(cpus: seq<Cpu>, cpuset: seq<int>, used: map<CoreKey, nat>, mode: Mode)
    requires mode != Any && CountsUsed(HostCores(cpus), cpuset, used) && forall id :: id in cpuset ==> id in HostCores(cpus)
    ensures Accepts(cpus, cpuset, mode) <==> forall key :: key in used ==> CoreAccepted(cpus, used[key], key, mode)
    ensures forall key :: key in used ==> used[key] == Used(HostCores(cpus), cpuset, key) > 0
  {
    var host := HostCores(cpus);
    forall key | key in used ensures used[key] == Used(host, cpuset, key) > 0 {
      assert Count(used, key) == Used(host, cpuset, key);
    }
    forall key | Used(host, cpuset, key) > 0 ensures key in used { assert Count(used, key) > 0; }
  }

  method Check(cpus: seq<Cpu>, cpuset: seq<int>, mode: Mode) returns (error: Option<CheckError>)
    ensures error.None? <==> Accepts(cpus, cpuset, mode)
    ensures error.Some? ==> ErrorHolds(cpus, cpuset, mode, error.value)
    ensures mode == Any ==> error == None
    ensures mode.Other? ==> (error == None <==> cpuset == [])
  {
    if mode == Any {
      return None;
    }
    if mode.Other? && cpuset != [] { NonEmptyUses(cpus, cpuset, mode.name); }
    var byId, threadsPerCore := CountHost(cpus);
    var unknown, usedPerCore, firstThread := CountCpuset(byId, cpuset);
    if unknown.Some? {
      return Some(UnknownCpu(unknown.value));
    }
    CoresDecide(cpus, cpuset, usedPerCore, mode);
    error := CheckCores(cpus, cpuset, mode, usedPerCore, threadsPerCore, firstThread);
  }

  // What the counters say of each used core.
  ghost predicate Counted(cpus: seq<Cpu>, cpuset: seq<int>, key: CoreKey, used: nat, threads: nat, first: int) {
    used == Used(HostCores(cpus), cpuset, key) > 0 && threads == |ThreadIds(cpus, key)|
    && FirstWhere(cpuset, first, OnCore(HostCores(cpus), key))
  }

  // The loop over the used cores, up to the first refusal.
  method CheckCores(ghost cpus: seq<Cpu>, ghost cpuset: seq<int>, mode: Mode, usedPerCore: map<CoreKey, nat>,
                    threadsPerCore: map<CoreKey, nat>, firstThread: map<CoreKey, int>) returns (error: Option<CheckError>)
    requires mode != Any
    requires forall key :: key in usedPerCore ==>
               key in firstThread && Counted(cpus, cpuset, key, usedPerCore[key], Count(threadsPerCore, key), firstThread[key])
    ensures error.None? <==> forall key :: key in usedPerCore ==> CoreAccepted(cpus, usedPerCore[key], key, mode)
    ensures error.Some? ==> ErrorHolds(cpus, cpuset, mode, error.value)
  {
    var keys := usedPerCore.Keys;
    while keys != {}
      invariant keys <= usedPerCore.Keys
      invariant forall key :: key in usedPerCore && key !in keys ==> CoreAccepted(cpus, usedPerCore[key], key, mode)
      decreases |keys|
    {
      var key :| key in keys;
      error := CheckCore(cpus, cpuset, mode, key, usedPerCore[key], Count(threadsPerCore, key), firstThread[key]);
      if error.Some? {
        return error;
      }
      keys := keys - {key};
    }
    return None;
  }

  // One turn of the loop over the used cores.
  method CheckCore(ghost cpus: seq<Cpu>, ghost cpuset: seq<int>, mode: Mode, key: CoreKey, used: nat, threads: nat, first: int)
    returns (error: Option<CheckError>)
    requires mode != Any && Counted(cpus, cpuset, key, used, threads, first)
    ensures error.None? <==> CoreAccepted(cpus, used, key, mode)
    ensures error.Some? ==> ErrorHolds(cpus, cpuset, mode, error.value)
  {
    match mode {
      case FullCores =>
        if used != threads {
          return Some(PartialCore(key, used, threads));
        }
      case OneThreadPerCore =>
        if used > 1 {
          return Some(SharedCore(key, used, first));
        }
      case _ =>
        return Some(UnknownCheckMode);
    }
    return None;
  }

  // ----- What acceptance means on the set of ids -----

  ghost function AsSet(ids: seq<int>): set<int> { set id | id in ids }

  ghost function IdsOn(host: map<int, CoreKey>, ids: set<int>, key: CoreKey): set<int> {
    set id | id in ids && id in host && host[id] == key
  }

  lemma {:induction false} UsedIsSetSize(host: map<int, CoreKey>, cpuset: seq<int>, key: CoreKey)
    requires NoDup(cpuset)
    ensures Used(host, cpuset, key) == |IdsOn(host, AsSet(cpuset), key)|
  {
    if cpuset != [] {
      var n := |cpuset| - 1;
      UsedIsSetSize(host, cpuset[..n], key);
      assert cpuset == cpuset[..n] + [cpuset[n]];
      var before, after := IdsOn(host, AsSet(cpuset[..n]), key), IdsOn(host, AsSet(cpuset), key);
      if cpuset[n] in host && host[cpuset[n]] == key {
        assert after == before + {cpuset[n]};
        assert cpuset[n] !in before;
      } else {
        assert after == before;
      }
    } else {
      assert IdsOn(host, AsSet(cpuset), key) == {};
    }
  }

  lemma {:induction false} ThreadIdsNoDup(cpus: seq<Cpu>, key: CoreKey)
    requires DistinctIds(cpus)
    ensures NoDup(ThreadIds(cpus, key))
  {
    if cpus != [] {
      var n := |cpus| - 1;
      ThreadIdsNoDup(cpus[..n], key);
      ThreadIdsMembers(cpus[..n], key);
      assert cpus[n].id !in ThreadIds(cpus[..n], key);
      NoDupAppend(ThreadIds(cpus[..n], key), if KeyOf(cpus[n]) == key then [cpus[n].id] else []);
    }
  }

  lemma ThreadsOnCore(cpus: seq<Cpu>, key: CoreKey)
    requires DistinctIds(cpus)
    ensures forall id :: id in ThreadIds(cpus, key) ==> id in HostCores(cpus) && HostCores(cpus)[id] == key
    ensures forall id :: id in HostCores(cpus) && HostCores(cpus)[id] == key ==> id in ThreadIds(cpus, key)
    ensures |ThreadIds(cpus, key)| == |IdsOn(HostCores(cpus), HostCores(cpus).Keys, key)|
  {
    var host, threads := HostCores(cpus), ThreadIds(cpus, key);
    HostCoresMembers(cpus);
    ThreadIdsMembers(cpus, key);
    ThreadIdsNoDup(cpus, key);
    UsedIsSetSize(host, threads, key);
    forall id | id in threads ensures id in host && host[id] == key {
      var i :| 0 <= i < |cpus| && cpus[i].id == id && KeyOf(cpus[i]) == key;
    }
    UsedOfOneCore(host, threads, key, key);
    forall id | id in host && host[id] == key ensures id in threads {
      assert id in ThreadIds(cpus, host[id]);
    }
    var all, used := IdsOn(host, host.Keys, key), IdsOn(host, AsSet(threads), key);
    assert forall id :: id in used ==> id in all;
    assert forall id :: id in all ==> id in used;
    assert used == all;
  }

  lemma {:induction false} UsedOfOneCore(host: map<int, CoreKey>, ids: seq<int>, on: CoreKey, key: CoreKey)
    requires forall id :: id in ids ==> id in host && host[id] == on
    ensures Used(host, ids, key) == if key == on then |ids| else 0
  {
    if ids != [] {
      var n := |ids| - 1;
      var last := ids[n];
      assert last in ids;
      UsedOfOneCore(host, ids[..n], on, key);
    }
  }

  lemma PickMissing<T>(a: set<T>, b: set<T>) returns (x: T)
    requires a <= b && a != b
    ensures x in b && x !in a
  {
    x :| x in b && x !in a;
  }

  lemma SubsetOfSameSize<T>(a: set<T>, b: set<T>)
    requires a <= b && |a| == |b|
    ensures a == b
  {
    if a != b {
      var x := PickMissing(a, b);
      assert a <= b - {x};
      SubsetSize(a, b - {x});
    }
  }

  lemma SubsetSize<T>(a: set<T>, b: set<T>)
    requires a <= b
    ensures |a| <= |b|
  {
    assert b == a + (b - a);
  }

  // Two threads of one physical core.
  predicate Siblings(a: Cpu, b: Cpu) { a.socket == b.socket && a.core == b.core }

  ghost predicate AllKnown(cpus: seq<Cpu>, cpuset: seq<int>) { forall id :: id in cpuset ==> HasCpu(cpus, id) }

  // full_cores: a duplicate-free cpuset passes exactly when the host has all its CPUs and it is closed under
  // siblings.
  lemma FullCoresMeaning(cpus: seq<Cpu>, cpuset: seq<int>)
    requires DistinctIds(cpus) && NoDup(cpuset)
    ensures Accepts(cpus, cpuset, FullCores) <==>
            AllKnown(cpus, cpuset) &&
            forall i, j :: 0 <= i < |cpus| && 0 <= j < |cpus| && Siblings(cpus[i], cpus[j]) && cpus[i].id in cpuset
                           ==> cpus[j].id in cpuset
  {
    HostCoresMembers(cpus);
    if AllKnown(cpus, cpuset) {
      KnownFullCores(cpus, cpuset);
      assert forall i, j :: 0 <= i < |cpus| && 0 <= j < |cpus| ==> (KeyOf(cpus[i]) == KeyOf(cpus[j]) <==> Siblings(cpus[i], cpus[j]));
    }
  }

  // one_thread_per_core: exactly when it has all its CPUs and no two different ones in it are siblings.
  lemma OneThreadMeaning(cpus: seq<Cpu>, cpuset: seq<int>)
    requires DistinctIds(cpus) && NoDup(cpuset)
    ensures Accepts(cpus, cpuset, OneThreadPerCore) <==>
            AllKnown(cpus, cpuset) &&
            forall i, j :: 0 <= i < j < |cpus| && Siblings(cpus[i], cpus[j]) ==> !(cpus[i].id in cpuset && cpus[j].id in cpuset)
  {
    HostCoresMembers(cpus);
    if AllKnown(cpus, cpuset) {
      KnownOneThread(cpus, cpuset);
      assert forall i, j :: 0 <= i < j < |cpus| ==> (KeyOf(cpus[i]) == KeyOf(cpus[j]) <==> Siblings(cpus[i], cpus[j]));
    }
  }

  lemma {:induction false} KnownFullCores(cpus: seq<Cpu>, cpuset: seq<int>)
    requires DistinctIds(cpus) && NoDup(cpuset) && AllKnown(cpus, cpuset)
    ensures Accepts(cpus, cpuset, FullCores) <==>
            forall i, j :: 0 <= i < |cpus| && 0 <= j < |cpus| && KeyOf(cpus[i]) == KeyOf(cpus[j]) && cpus[i].id in cpuset
                           ==> cpus[j].id in cpuset
  {
    var host, ids := HostCores(cpus), AsSet(cpuset);
    HostCoresMembers(cpus);
    if Accepts(cpus, cpuset, FullCores) {
      forall i, j | 0 <= i < |cpus| && 0 <= j < |cpus| && KeyOf(cpus[i]) == KeyOf(cpus[j]) && cpus[i].id in cpuset
        ensures cpus[j].id in cpuset
      {
        var key := KeyOf(cpus[i]);
        UsedIsSetSize(host, cpuset, key);
        ThreadsOnCore(cpus, key);
        assert cpus[i].id in IdsOn(host, ids, key);
        assert Used(host, cpuset, key) > 0;
        SubsetOfSameSize(IdsOn(host, ids, key), IdsOn(host, host.Keys, key));
        assert cpus[j].id in IdsOn(host, host.Keys, key);
      }
    } else {
      var key :| Used(host, cpuset, key) > 0 && Used(host, cpuset, key) != |ThreadIds(cpus, key)|;
      UsedIsSetSize(host, cpuset, key);
      ThreadsOnCore(cpus, key);
      var used, all := IdsOn(host, ids, key), IdsOn(host, host.Keys, key);
      assert used != all && used <= all && used != {};
      var a :| a in used;
      var b := PickMissing(used, all);
      var i :| 0 <= i < |cpus| && cpus[i].id == a;
      assert HasCpu(cpus, b);
      var j :| 0 <= j < |cpus| && cpus[j].id == b;
    }
  }

  lemma {:induction false} KnownOneThread(cpus: seq<Cpu>, cpuset: seq<int>)
    requires DistinctIds(cpus) && NoDup(cpuset) && AllKnown(cpus, cpuset)
    ensures Accepts(cpus, cpuset, OneThreadPerCore) <==>
            forall i, j :: 0 <= i < j < |cpus| && KeyOf(cpus[i]) == KeyOf(cpus[j])
                           ==> !(cpus[i].id in cpuset && cpus[j].id in cpuset)
  {
    var host, ids := HostCores(cpus), AsSet(cpuset);
    HostCoresMembers(cpus);
    if Accepts(cpus, cpuset, OneThreadPerCore) {
      forall i, j | 0 <= i < j < |cpus| && KeyOf(cpus[i]) == KeyOf(cpus[j]) && cpus[i].id in cpuset && cpus[j].id in cpuset
        ensures false
      {
        var key := KeyOf(cpus[i]);
        UsedIsSetSize(host, cpuset, key);
        assert {cpus[i].id, cpus[j].id} <= IdsOn(host, ids, key);
        SubsetSize({cpus[i].id, cpus[j].id}, IdsOn(host, ids, key));
      }
    } else {
      var key :| Used(host, cpuset, key) > 1;
      UsedIsSetSize(host, cpuset, key);
      var used := IdsOn(host, ids, key);
      var a :| a in used;
      assert |used - {a}| > 0;
      var b :| b in used - {a};
      assert HasCpu(cpus, a) && HasCpu(cpus, b);
      var i :| 0 <= i < |cpus| && cpus[i].id == a;
      var j :| 0 <= j < |cpus| && cpus[j].id == b;
      assert KeyOf(cpus[i]) == key == KeyOf(cpus[j]);
    }
  }

  // ----- Whatever Select returns is accepted -----

  ghost predicate IsSelection(cpus: seq<Cpu>, ids: seq<int>, count: int) {
    |ids| == count && NoDup(ids) && forall id :: id in ids ==> HasCpu(cpus, id)
  }

  function Concat(pieces: seq<seq<int>>): seq<int> {
    if pieces == [] then [] else Concat(pieces[..|pieces| - 1]) + pieces[|pieces| - 1]
  }

  // Each piece is a duplicate-free set of threads of one core, no core twice.
  ghost predicate WellPlaced(host: map<int, CoreKey>, pieces: seq<seq<int>>, keys: seq<CoreKey>) {
    && |pieces| == |keys| && NoDup(keys)
    && forall a :: 0 <= a < |pieces| ==>
         NoDup(pieces[a]) && forall id :: id in pieces[a] ==> id in host && host[id] == keys[a]
  }

  lemma {:induction false} UsedAppend(host: map<int, CoreKey>, a: seq<int>, b: seq<int>, key: CoreKey)
    ensures Used(host, a + b, key) == Used(host, a, key) + Used(host, b, key)
  {
    if b == [] {
      assert a + b == a;
    } else {
      var n := |b| - 1;
      assert (a + b)[..|a + b| - 1] == a + b[..n];
      UsedAppend(host, a, b[..n], key);
    }
  }

  lemma {:induction false} PiecesUse(host: map<int, CoreKey>, pieces: seq<seq<int>>, keys: seq<CoreKey>)
    requires WellPlaced(host, pieces, keys)
    ensures NoDup(Concat(pieces))
    ensures forall id :: id in Concat(pieces) ==> id in host && host[id] in keys
    ensures forall key :: key !in keys ==> Used(host, Concat(pieces), key) == 0
    ensures forall a :: 0 <= a < |pieces| ==> Used(host, Concat(pieces), keys[a]) == |pieces[a]|
  {
    if pieces != [] {
      var n := |pieces| - 1;
      var front := Concat(pieces[..n]);
      assert WellPlaced(host, pieces[..n], keys[..n]);
      PiecesUse(host, pieces[..n], keys[..n]);
      assert keys == keys[..n] + [keys[n]];
      assert keys[n] !in keys[..n];
      NoDupAppend(front, pieces[n]);
      forall key ensures Used(host, Concat(pieces), key) == Used(host, front, key) + (if key == keys[n] then |pieces[n]| else 0) {
        UsedAppend(host, front, pieces[n], key);
        UsedOfOneCore(host, pieces[n], keys[n], key);
      }
    }
  }

  lemma {:induction false} UsedInsert(host: map<int, CoreKey>, x: int, s: seq<int>, key: CoreKey)
    ensures Used(host, Insert(x, s), key) == Used(host, s + [x], key)
  {
    UsedAppend(host, s, [x], key);
    if s == [] || x <= s[0] {
      UsedAppend(host, [x], s, key);
    } else {
      UsedInsert(host, x, s[1..], key);
      UsedAppend(host, s[1..], [x], key);
      UsedAppend(host, [s[0]], s[1..], key);
      UsedAppend(host, [s[0]], Insert(x, s[1..]), key);
      assert s == [s[0]] + s[1..];
    }
  }

  lemma {:induction false} UsedSort(host: map<int, CoreKey>, s: seq<int>, key: CoreKey)
    ensures Used(host, SortInts(s), key) == Used(host, s, key)
  {
    if s != [] {
      var n := |s| - 1;
      UsedSort(host, s[..n], key);
      UsedInsert(host, s[n], SortInts(s[..n]), key);
      UsedSnoc(host, SortInts(s[..n]), s[n], key);
      UsedSnoc(host, s[..n], s[n], key);
      assert s == s[..n] + [s[n]];
    }
  }

  lemma {:induction false} UsedSnoc(host: map<int, CoreKey>, s: seq<int>, x: int, key: CoreKey)
    ensures Used(host, s + [x], key) == Used(host, s, key) + (if x in host && host[x] == key then 1 else 0)
  {
    assert (s + [x])[..|s|] == s;
  }

  lemma {:induction false} ConcatLength(cores: seq<seq<int>>, idx: seq<nat>)
    requires forall a :: 0 <= a < |idx| ==> idx[a] < |cores|
    ensures |Concat(Gather(cores, idx))| == Threads(cores, idx)
  {
    if idx != [] {
      var n := |idx| - 1;
      ConcatLength(cores, idx[..n]);
      ThreadsSnoc(cores, idx[..n], idx[n]);
      assert idx == idx[..n] + [idx[n]];
      assert Gather(cores, idx)[..n] == Gather(cores, idx[..n]);
    }
  }

  // Sorting the threads of well-placed pieces gives an accepted selection.
  lemma SortedPiecesAccepted(cpus: seq<Cpu>, pieces: seq<seq<int>>, keys: seq<CoreKey>, mode: Mode)
    requires DistinctIds(cpus) && WellPlaced(HostCores(cpus), pieces, keys)
    requires forall a :: 0 <= a < |pieces| ==> CoreAccepted(cpus, |pieces[a]|, keys[a], mode)
    ensures var ids := SortInts(Concat(pieces));
            IsSelection(cpus, ids, |Concat(pieces)|) && Ascending(ids) && Accepts(cpus, ids, mode)
  {
    var host, ids := HostCores(cpus), SortInts(Concat(pieces));
    PiecesUse(host, pieces, keys);
    SortIntsCorrect(Concat(pieces));
    SortedNoDupAscends(Concat(pieces));
    HostCoresMembers(cpus);
    forall key | Used(host, ids, key) > 0 ensures CoreAccepted(cpus, Used(host, ids, key), key, mode) {
      UsedSort(host, Concat(pieces), key);
      assert key in keys;
    }
  }

  lemma CoreThreads(cpus: seq<Cpu>, keys: seq<CoreKey>, cores: seq<seq<int>>, k: nat)
    requires DistinctIds(cpus) && IsGrouping(cpus, keys, cores) && k < |cores|
    ensures NoDup(cores[k]) && |cores[k]| == |ThreadIds(cpus, keys[k])| > 0
    ensures forall id :: id in cores[k] ==> id in HostCores(cpus) && HostCores(cpus)[id] == keys[k]
    ensures forall i :: 0 <= i < |cpus| && KeyOf(cpus[i]) == keys[k] ==> cores[k][0] <= cpus[i].id
  {
    SortIntsCorrect(ThreadIds(cpus, keys[k]));
    ThreadIdsNoDup(cpus, keys[k]);
    ThreadsOnCore(cpus, keys[k]);
    ThreadIdsMembers(cpus, keys[k]);
    SortedNoDupAscends(ThreadIds(cpus, keys[k]));
    forall i | 0 <= i < |cpus| && KeyOf(cpus[i]) == keys[k] ensures cores[k][0] <= cpus[i].id {
      assert cpus[i].id in ThreadIds(cpus, keys[k]);
      assert cpus[i].id in cores[k];
    }
  }

  lemma FullCoresSound(cpus: seq<Cpu>, keys: seq<CoreKey>, cores: seq<seq<int>>, idx: seq<nat>, count: nat)
    requires DistinctIds(cpus) && IsGrouping(cpus, keys, cores) && FillsExactly(cores, idx, count)
    ensures var ids := SortInts(Concat(Gather(cores, idx)));
            IsSelection(cpus, ids, count) && Ascending(ids) && Accepts(cpus, ids, FullCores)
  {
    var pieces := Gather(cores, idx);
    var pieceKeys := seq(|idx|, a requires 0 <= a < |idx| => keys[idx[a]]);
    forall a | 0 <= a < |idx| ensures NoDup(pieces[a]) && CoreAccepted(cpus, |pieces[a]|, pieceKeys[a], FullCores)
      ensures forall id :: id in pieces[a] ==> id in HostCores(cpus) && HostCores(cpus)[id] == pieceKeys[a]
    {
      CoreThreads(cpus, keys, cores, idx[a]);
    }
    ConcatLength(cores, idx);
    SortedPiecesAccepted(cpus, pieces, pieceKeys, FullCores);
  }

  // The lowest thread of each of the first count cores.
  function LowestThreads(cores: seq<seq<int>>, count: nat): seq<seq<int>>
    requires count <= |cores| && forall k :: 0 <= k < |cores| ==> cores[k] != []
  {
    seq(count, k requires 0 <= k < count => [cores[k][0]])
  }

  lemma {:induction false} ConcatSingles(pieces: seq<seq<int>>)
    requires forall a :: 0 <= a < |pieces| ==> |pieces[a]| == 1
    ensures |Concat(pieces)| == |pieces|
    ensures forall a :: 0 <= a < |pieces| ==> Concat(pieces)[a] == pieces[a][0]
  {
    if pieces != [] {
      ConcatSingles(pieces[..|pieces| - 1]);
    }
  }

  ghost predicate LowestOnCore(cpus: seq<Cpu>, id: int) {
    forall i, j :: 0 <= i < |cpus| && 0 <= j < |cpus| && cpus[i].id == id && Siblings(cpus[i], cpus[j]) ==> id <= cpus[j].id
  }

  lemma GroupingNonEmpty(cpus: seq<Cpu>, keys: seq<CoreKey>, cores: seq<seq<int>>)
    requires IsGrouping(cpus, keys, cores)
    ensures forall k :: 0 <= k < |cores| ==> cores[k] != []
  {
    forall k | 0 <= k < |cores| ensures cores[k] != [] { SortIntsCorrect(ThreadIds(cpus, keys[k])); }
  }

  lemma LowestThread(cpus: seq<Cpu>, keys: seq<CoreKey>, cores: seq<seq<int>>, k: nat)
    requires DistinctIds(cpus) && IsGrouping(cpus, keys, cores) && k < |cores| && cores[k] != []
    ensures cores[k][0] in HostCores(cpus) && HostCores(cpus)[cores[k][0]] == keys[k]
    ensures LowestOnCore(cpus, cores[k][0])
  {
    CoreThreads(cpus, keys, cores, k);
    assert cores[k][0] in cores[k];
    HostCoresMembers(cpus);
  }

  lemma LowestThreadsPlaced(cpus: seq<Cpu>, keys: seq<CoreKey>, cores: seq<seq<int>>, count: nat)
    requires DistinctIds(cpus) && IsGrouping(cpus, keys, cores) && count <= |cores|
    requires forall k :: 0 <= k < |cores| ==> cores[k] != []
    ensures WellPlaced(HostCores(cpus), LowestThreads(cores, count), keys[..count])
    ensures forall a :: 0 <= a < count ==> LowestOnCore(cpus, LowestThreads(cores, count)[a][0])
  {
    forall k | 0 <= k < count
      ensures cores[k][0] in HostCores(cpus) && HostCores(cpus)[cores[k][0]] == keys[k] && LowestOnCore(cpus, cores[k][0])
    {
      LowestThread(cpus, keys, cores, k);
    }
  }

  lemma OneThreadSound(cpus: seq<Cpu>, keys: seq<CoreKey>, cores: seq<seq<int>>, count: nat)
    requires DistinctIds(cpus) && IsGrouping(cpus, keys, cores) && count <= |cores|
    requires forall k :: 0 <= k < |cores| ==> cores[k] != []
    ensures var ids := SortInts(Concat(LowestThreads(cores, count)));
            && IsSelection(cpus, ids, count) && Ascending(ids) && Accepts(cpus, ids, OneThreadPerCore)
            && forall id :: id in ids ==> LowestOnCore(cpus, id)
  {
    var pieces := LowestThreads(cores, count);
    LowestThreadsPlaced(cpus, keys, cores, count);
    ConcatSingles(pieces);
    SortIntsCorrect(Concat(pieces));
    SortedPiecesAccepted(cpus, pieces, keys[..count], OneThreadPerCore);
  }

  // ----- When Select fails, nothing would have been accepted -----

  ghost function UsedTotal(host: map<int, CoreKey>, cpuset: seq<int>, keys: seq<CoreKey>): nat {
    if keys == [] then 0 else Used(host, cpuset, keys[0]) + UsedTotal(host, cpuset, keys[1..])
  }

  lemma {:induction false} UsedTotalSnoc(host: map<int, CoreKey>, cpuset: seq<int>, id: int, keys: seq<CoreKey>)
    requires NoDup(keys) && id in host
    ensures UsedTotal(host, cpuset + [id], keys) == UsedTotal(host, cpuset, keys) + (if host[id] in keys then 1 else 0)
  {
    if keys != [] {
      UsedTotalSnoc(host, cpuset, id, keys[1..]);
      UsedAppend(host, cpuset, [id], keys[0]);
      UsedOfOneCore(host, [id], host[id], keys[0]);
      assert keys == [keys[0]] + keys[1..];
    }
  }

  lemma {:induction false} UsedTotalEmpty(host: map<int, CoreKey>, keys: seq<CoreKey>)
    ensures UsedTotal(host, [], keys) == 0
  {
    if keys != [] {
      UsedTotalEmpty(host, keys[1..]);
    }
  }

  // Every entry of the cpuset is counted on exactly one core.
  lemma {:induction false} UsedTotalIsLength(host: map<int, CoreKey>, cpuset: seq<int>, keys: seq<CoreKey>)
    requires NoDup(keys) && forall id :: id in cpuset ==> id in host && host[id] in keys
    ensures UsedTotal(host, cpuset, keys) == |cpuset|
  {
    if cpuset == [] {
      UsedTotalEmpty(host, keys);
    } else {
      var n := |cpuset| - 1;
      assert cpuset == cpuset[..n] + [cpuset[n]];
      UsedTotalIsLength(host, cpuset[..n], keys);
      UsedTotalSnoc(host, cpuset[..n], cpuset[n], keys);
    }
  }

  lemma {:induction false} WholeCoresCanFill(cpus: seq<Cpu>, cpuset: seq<int>, keys: seq<CoreKey>, cores: seq<seq<int>>, k: nat)
    requires IsGrouping(cpus, keys, cores) && k <= |cores| && Accepts(cpus, cpuset, FullCores)
    ensures CanFill(cores, k, UsedTotal(HostCores(cpus), cpuset, keys[k..]))
    decreases |cores| - k
  {
    if k < |cores| {
      WholeCoresCanFill(cpus, cpuset, keys, cores, k + 1);
      SortIntsCorrect(ThreadIds(cpus, keys[k]));
      assert keys[k..][1..] == keys[k + 1..];
    }
  }

  lemma {:induction false} CanFillPicks(cores: seq<seq<int>>, i: nat, s: nat) returns (idx: seq<nat>)
    requires i <= |cores| && CanFill(cores, i, s)
    ensures Picks(cores, i, idx) && Threads(cores, idx) == s
    decreases |cores| - i
  {
    if i == |cores| {
      idx := [];
    } else if CanFill(cores, i + 1, s) {
      idx := CanFillPicks(cores, i + 1, s);
    } else {
      var rest := CanFillPicks(cores, i + 1, s - |cores[i]|);
      idx := [i] + rest;
      assert idx[1..] == rest;
    }
  }

  lemma KnownIdsHaveKeys(cpus: seq<Cpu>, cpuset: seq<int>, keys: seq<CoreKey>, cores: seq<seq<int>>)
    requires IsGrouping(cpus, keys, cores) && forall id :: id in cpuset ==> id in HostCores(cpus)
    ensures forall id :: id in cpuset ==> HostCores(cpus)[id] in keys
  {
    HostCoresMembers(cpus);
    forall id | id in cpuset ensures HostCores(cpus)[id] in keys {
      ThreadIdsMembers(cpus, HostCores(cpus)[id]);
    }
  }

  lemma FullCoresComplete(cpus: seq<Cpu>, cpuset: seq<int>, keys: seq<CoreKey>, cores: seq<seq<int>>)
    requires IsGrouping(cpus, keys, cores) && Accepts(cpus, cpuset, FullCores)
    ensures exists idx :: FillsExactly(cores, idx, |cpuset|)
  {
    KnownIdsHaveKeys(cpus, cpuset, keys, cores);
    UsedTotalIsLength(HostCores(cpus), cpuset, keys);
    WholeCoresCanFill(cpus, cpuset, keys, cores, 0);
    assert keys[0..] == keys;
    var idx := CanFillPicks(cores, 0, |cpuset|);
    assert FillsExactly(cores, idx, |cpuset|);
  }

  lemma {:induction false} UsedTotalAtMost(cpus: seq<Cpu>, cpuset: seq<int>, keys: seq<CoreKey>)
    requires Accepts(cpus, cpuset, OneThreadPerCore)
    ensures UsedTotal(HostCores(cpus), cpuset, keys) <= |keys|
  {
    if keys != [] {
      UsedTotalAtMost(cpus, cpuset, keys[1..]);
    }
  }

  lemma OneThreadComplete(cpus: seq<Cpu>, cpuset: seq<int>, keys: seq<CoreKey>, cores: seq<seq<int>>)
    requires IsGrouping(cpus, keys, cores) && Accepts(cpus, cpuset, OneThreadPerCore)
    ensures |cpuset| <= |cores|
  {
    KnownIdsHaveKeys(cpus, cpuset, keys, cores);
    UsedTotalIsLength(HostCores(cpus), cpuset, keys);
    UsedTotalAtMost(cpus, cpuset, keys);
  }

  lemma {:induction false} SelectionAtMostHost(cpus: seq<Cpu>, cpuset: seq<int>)
    requires NoDup(cpuset) && forall id :: id in cpuset ==> HasCpu(cpus, id)
    ensures |cpuset| <= |cpus|
  {
    var ids := set i | 0 <= i < |cpus| :: cpus[i].id;
    assert forall id :: id in cpuset ==> id in ids;
    ImageSize(cpus);
    SeqSetSize(cpuset);
    SubsetSize(AsSet(cpuset), ids);
  }

  lemma {:induction false} ImageSize(cpus: seq<Cpu>)
    ensures |set i | 0 <= i < |cpus| :: cpus[i].id| <= |cpus|
  {
    if cpus != [] {
      var n := |cpus| - 1;
      ImageSize(cpus[..n]);
      var before, after := set i | 0 <= i < n :: cpus[..n][i].id, set i | 0 <= i < |cpus| :: cpus[i].id;
      assert after <= before + {cpus[n].id};
      SubsetSize(after, before + {cpus[n].id});
    }
  }

  lemma {:induction false} SeqSetSize(s: seq<int>)
    requires NoDup(s)
    ensures |AsSet(s)| == |s|
  {
    if s != [] {
      var n := |s| - 1;
      SeqSetSize(s[..n]);
      assert s == s[..n] + [s[n]];
      assert AsSet(s) == AsSet(s[..n]) + {s[n]};
      assert s[n] !in s[..n];
    }
  }

  lemma NonEmptyUses(cpus: seq<Cpu>, cpuset: seq<int>, name: string)
    requires cpuset != []
    ensures !Accepts(cpus, cpuset, Other(name))
  {
    var host, id := HostCores(cpus), cpuset[0];
    if id in host {
      assert cpuset == [id] + cpuset[1..];
      UsedAppend(host, [id], cpuset[1..], host[id]);
      UsedOfOneCore(host, [id], host[id], host[id]);
    }
  }

  // ----- Select -----

  // Why Select refuses; what it refuses is never a count that some accepted cpuset has.
  ghost predicate RefusalHolds(cpus: seq<Cpu>, count: int, mode: Mode, error: SelectError) {
    match error
    case CountTooSmall => count < 1
    case NotEnoughCpus => count >= 1 && count > |cpus|
    case NoFullCores => mode == FullCores && 1 <= count <= |cpus|
    case NotEnoughCores => mode == OneThreadPerCore && 1 <= count <= |cpus|
    case UnknownSelectMode => mode.Other? && 1 <= count <= |cpus|
  }

  ghost predicate Acceptable(cpus: seq<Cpu>, ids: seq<int>, count: int, mode: Mode) {
    IsSelection(cpus, ids, count) && Accepts(cpus, ids, mode)
  }

  function HostIds(cpus: seq<Cpu>): (ids: seq<int>)
    ensures |ids| == |cpus| && forall i :: 0 <= i < |cpus| ==> ids[i] == cpus[i].id
  {
    seq(|cpus|, i requires 0 <= i < |cpus| => cpus[i].id)
  }

  method ShuffleIds(cpus: seq<Cpu>) returns (ids: seq<int>, ghost draws: seq<nat>)
    ensures Draws(draws, |cpus|) && ids == ShuffleBy(HostIds(cpus), draws)
  {
    var shuffled := new int[|cpus|](i requires 0 <= i < |cpus| => cpus[i].id);
    assert shuffled[..] == HostIds(cpus);
    var drawn := RandomDraws(|cpus|);
    Shuffle(shuffled, drawn);
    return shuffled[..], drawn;
  }

  lemma AnySound(cpus: seq<Cpu>, shuffled: seq<int>, count: nat)
    requires DistinctIds(cpus) && count <= |cpus|
    requires multiset(shuffled) == multiset(HostIds(cpus))
    ensures |shuffled| == |cpus|
    ensures var ids := SortInts(shuffled[..count]); Acceptable(cpus, ids, count, Any) && Ascending(ids)
  {
    var all := HostIds(cpus);
    PermutationKeeps(all, shuffled);
    SortIntsCorrect(shuffled[..count]);
    SortedNoDupAscends(shuffled[..count]);
    forall id | id in shuffled ensures HasCpu(cpus, id) {
      assert id in all;
    }
  }

  method SelectAny(cpus: seq<Cpu>, count: nat) returns (ids: seq<int>, ghost draws: seq<nat>)
    requires count <= |cpus|
    ensures Draws(draws, |cpus|) && IsDrawnFrom(ids, ShuffleBy(HostIds(cpus), draws), count)
    ensures DistinctIds(cpus) ==> Acceptable(cpus, ids, count, Any) && Ascending(ids)
  {
    var shuffled;
    shuffled, draws := ShuffleIds(cpus);
    ShufflePermutes(HostIds(cpus), draws);
    assert |shuffled| == |multiset(shuffled)| == |multiset(HostIds(cpus))| == |cpus|;
    ids := SortInts(shuffled[..count]);
    if DistinctIds(cpus) {
      AnySound(cpus, shuffled, count);
    }
  }

  // The first count of the shuffled ids, sorted.
  ghost predicate IsDrawnFrom(ids: seq<int>, shuffled: seq<int>, count: nat) {
    count <= |shuffled| && ids == SortInts(shuffled[..count])
  }

  // The cores in the order that the draws give them.
  function DrawnCores(cpus: seq<Cpu>, draws: seq<nat>): seq<seq<int>>
    requires Draws(draws, |FirstSeen(cpus)|)
  {
    CoresOf(cpus, ShuffleBy(FirstSeen(cpus), draws))
  }

  // The cores the walk picks, as one sorted set of threads.
  ghost function WalkedThreads(cores: seq<seq<int>>, count: nat): seq<int>
    requires FillsExactly(cores, Walk(cores, 0, count), count)
  {
    SortInts(Concat(Gather(cores, Walk(cores, 0, count))))
  }

  method SelectFullCores(cpus: seq<Cpu>, count: nat) returns (ids: Option<seq<int>>, ghost draws: seq<nat>)
    ensures ids.None? ==> !exists s :: Acceptable(cpus, s, count, FullCores)
    ensures ids.Some? && DistinctIds(cpus) ==> Acceptable(cpus, ids.value, count, FullCores) && Ascending(ids.value)
    ensures Draws(draws, |FirstSeen(cpus)|)
    ensures ids.Some? ==>
              && FillsExactly(DrawnCores(cpus, draws), Walk(DrawnCores(cpus, draws), 0, count), count)
              && ids.value == WalkedThreads(DrawnCores(cpus, draws), count)
  {
    var cores;
    ghost var keys;
    cores, keys, draws := PhysicalCores(cpus);
    var picked, idx := FillWholeCores(cores, count);
    if picked.None? {
      forall s | Acceptable(cpus, s, count, FullCores) ensures false { FullCoresComplete(cpus, s, keys, cores); }
      return None, draws;
    }
    if DistinctIds(cpus) {
      FullCoresSound(cpus, keys, cores, idx, count);
    }
    return Some(SortInts(Concat(picked.value))), draws;
  }

  ghost predicate IsLowestOf(ids: seq<int>, cores: seq<seq<int>>, count: nat) {
    count <= |cores| && (forall k :: 0 <= k < |cores| ==> cores[k] != []) && ids == SortInts(Concat(LowestThreads(cores, count)))
  }

  method SelectOneThreadPerCore(cpus: seq<Cpu>, count: nat) returns (ids: Option<seq<int>>, ghost draws: seq<nat>)
    ensures ids.None? ==> !exists s :: Acceptable(cpus, s, count, OneThreadPerCore)
    ensures ids.Some? && DistinctIds(cpus) ==>
              && Acceptable(cpus, ids.value, count, OneThreadPerCore) && Ascending(ids.value)
              && forall id :: id in ids.value ==> LowestOnCore(cpus, id)
    ensures Draws(draws, |FirstSeen(cpus)|)
    ensures ids.Some? ==> IsLowestOf(ids.value, DrawnCores(cpus, draws), count)
  {
    var cores;
    ghost var keys;
    cores, keys, draws := PhysicalCores(cpus);
    if count > |cores| {
      forall s | Acceptable(cpus, s, count, OneThreadPerCore) ensures false { OneThreadComplete(cpus, s, keys, cores); }
      return None, draws;
    }
    GroupingNonEmpty(cpus, keys, cores);
    if DistinctIds(cpus) {
      OneThreadSound(cpus, keys, cores, count);
    }
    return Some(SortInts(Concat(LowestThreads(cores, count)))), draws;
  }

  // A selection that some draws make.
  ghost predicate DrawnBy(cpus: seq<Cpu>, ids: seq<int>, count: nat, mode: Mode, draws: seq<nat>) {
    match mode
    case Any => Draws(draws, |cpus|) && IsDrawnFrom(ids, ShuffleBy(HostIds(cpus), draws), count)
    case FullCores =>
      && Draws(draws, |FirstSeen(cpus)|)
      && FillsExactly(DrawnCores(cpus, draws), Walk(DrawnCores(cpus, draws), 0, count), count)
      && ids == WalkedThreads(DrawnCores(cpus, draws), count)
    case OneThreadPerCore => Draws(draws, |FirstSeen(cpus)|) && IsLowestOf(ids, DrawnCores(cpus, draws), count)
    case Other(_) => false
  }

  // Sound and complete against Check, for every host with distinct ids and every random choice: a
  // success is a sorted, accepted set of exactly count host CPUs, and a refusal means there is none.
  method Select(cpus: seq<Cpu>, count: int, mode: Mode) returns (r: Result<seq<int>, SelectError>, ghost draws: seq<nat>)
    ensures DistinctIds(cpus) ==> (r.Success? <==> count >= 1 && exists ids :: Acceptable(cpus, ids, count, mode))
    ensures DistinctIds(cpus) && r.Success? ==> Acceptable(cpus, r.value, count, mode) && Ascending(r.value)
    ensures DistinctIds(cpus) && r.Success? && mode == OneThreadPerCore ==> forall id :: id in r.value ==> LowestOnCore(cpus, id)
    ensures r.Failure? ==> RefusalHolds(cpus, count, mode, r.error)
    ensures r.Success? ==> count >= 1 && DrawnBy(cpus, r.value, count, mode, draws)
  {
    draws := [];
    if count < 1 {
      return Failure(CountTooSmall), draws;
    }
    if count > |cpus| {
      forall ids | Acceptable(cpus, ids, count, mode) ensures false { SelectionAtMostHost(cpus, ids); }
      return Failure(NotEnoughCpus), draws;
    }
    match mode {
      case Any =>
        var ids;
        ids, draws := SelectAny(cpus, count);
        return Success(ids), draws;
      case FullCores =>
        var ids;
        ids, draws := SelectFullCores(cpus, count);
        if ids.None? {
          return Failure(NoFullCores), draws;
        }
        return Success(ids.value), draws;
      case OneThreadPerCore =>
        var ids;
        ids, draws := SelectOneThreadPerCore(cpus, count);
        if ids.None? {
          return Failure(NotEnoughCores), draws;
        }
        return Success(ids.value), draws;
      case Other(name) =>
        forall ids | Acceptable(cpus, ids, count, mode) ensures false { NonEmptyUses(cpus, ids, name); }
        return Failure(UnknownSelectMode), draws;
    }
  }
}
