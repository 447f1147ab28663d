/**
What Select can draw: not only is everything it returns accepted, everything acceptable can come up.
*/
module CpuDraws {
  import opened Shuffling
  import opened Wrappers
  import opened CpuSelect

  // ----- Any front can be drawn -----

  function Without<T(==)>(s: seq<T>, front: seq<T>): seq<T> {
    if s == [] then []
    else
      var n := |s| - 1;
      Without(s[..n], front) + (if s[n] in front then [] else [s[n]])
  }

  lemma {:induction false} WithoutMembers<T>(s: seq<T>, front: seq<T>)
    requires NoDup(s)
    ensures NoDup(Without(s, front)) && forall x :: x in Without(s, front) <==> x in s && x !in front
  {
    if s != [] {
      var n := |s| - 1;
      WithoutMembers(s[..n], front);
      assert s == s[..n] + [s[n]];
      assert s[n] !in s[..n];
      NoDupAppend(Without(s[..n], front), if s[n] in front then [] else [s[n]]);
    }
  }

  lemma {:induction false} NoDupIn<T>(s: seq<T>, x: T)
    requires NoDup(s)
    ensures multiset(s)[x] == if x in s then 1 else 0
  {
    NoDupCount(s, x);
    assert x in s <==> x in multiset(s);
  }

  lemma {:induction false} SameMembersSameBag<T(!new)>(s: seq<T>, t: seq<T>)
    requires NoDup(s) && NoDup(t) && forall x :: x in s <==> x in t
    ensures multiset(s) == multiset(t)
  {
    forall x: T ensures multiset(s)[x] == multiset(t)[x] {
      NoDupIn(s, x);
      NoDupIn(t, x);
    }
  }

  // Some draws put any chosen elements first.
  lemma {:induction false} FrontIsDrawn<T(!new)>(s: seq<T>, front: seq<T>) returns (draws: seq<nat>)
    requires NoDup(s) && NoDup(front) && forall x :: x in front ==> x in s
    ensures Draws(draws, |s|) && |front| <= |ShuffleBy(s, draws)| && ShuffleBy(s, draws)[..|front|] == front
  {
    WithoutMembers(s, front);
    var order := front + Without(s, front);
    NoDupAppend(front, Without(s, front));
    SameMembersSameBag(order, s);
    draws := EveryOrderIsDrawn(s, order);
    assert order[..|front|] == front;
  }

  // ----- Sorted sets -----

  lemma {:induction false} LowestInBag(a: seq<int>, b: seq<int>)
    requires Sorted(a) && Sorted(b) && a != [] && b != [] && multiset(a) == multiset(b)
    ensures a[0] <= b[0]
  {
    assert b[0] in multiset(b);
    var k :| 0 <= k < |a| && a[k] == b[0];
  }

  lemma {:induction false} BagOfRest(s: seq<int>)
    requires s != []
    ensures multiset(s) == multiset(s[1..]) + multiset{s[0]}
  {
    assert s == [s[0]] + s[1..];
  }

  lemma {:induction false} SortedBagUnique(a: seq<int>, b: seq<int>)
    requires Sorted(a) && Sorted(b) && multiset(a) == multiset(b)
    ensures a == b
  {
    assert |a| == |multiset(a)| == |multiset(b)| == |b|;
    if a != [] {
      LowestInBag(a, b);
      LowestInBag(b, a);
      BagOfRest(a);
      BagOfRest(b);
      CancelOne(multiset(a[1..]), multiset(b[1..]), a[0]);
      SortedBagUnique(a[1..], b[1..]);
      assert a == [a[0]] + a[1..] && b == [b[0]] + b[1..];
    }
  }

  lemma {:induction false} SortOfAscending(s: seq<int>)
    requires Ascending(s)
    ensures SortInts(s) == s
  {
    SortIntsCorrect(s);
    SortedBagUnique(SortInts(s), s);
  }

  lemma {:induction false} AscendingUnique(a: seq<int>, b: seq<int>)
    requires Ascending(a) && Ascending(b) && |a| == |b| && forall x :: x in a ==> x in b
    ensures a == b
  {
    SeqSetSize(a);
    SeqSetSize(b);
    SubsetOfSameSize(AsSet(a), AsSet(b));
    assert forall x :: x in b ==> x in AsSet(a);
    SameMembersSameBag(a, b);
    SortedBagUnique(a, b);
  }

  // ----- any -----

  lemma {:induction false} AnyIsDrawn(cpus: seq<Cpu>, ids: seq<int>) returns (draws: seq<nat>)
    requires DistinctIds(cpus) && IsSelection(cpus, ids, |ids|) && Ascending(ids)
    ensures DrawnBy(cpus, ids, |ids|, Any, draws)
  {
    var all := HostIds(cpus);
    forall id | id in ids ensures id in all {
      var i :| 0 <= i < |cpus| && cpus[i].id == id;
      assert all[i] == id;
    }
    draws := FrontIsDrawn(all, ids);
    SortOfAscending(ids);
  }

  // ----- one_thread_per_core -----

  // The cores of some ids, in the ids' order.
  function KeysOf(host: map<int, CoreKey>, ids: seq<int>): (keys: seq<CoreKey>)
    requires forall k :: 0 <= k < |ids| ==> ids[k] in host
    ensures |keys| == |ids| && forall k :: 0 <= k < |ids| ==> keys[k] == host[ids[k]]
  {
    seq(|ids|, k requires 0 <= k < |ids| => host[ids[k]])
  }

  lemma {:induction false} OneThreadKeysDiffer(cpus: seq<Cpu>, ids: seq<int>)
    requires Accepts(cpus, ids, OneThreadPerCore)
    ensures forall k :: 0 <= k < |ids| ==> ids[k] in HostCores(cpus)
    ensures NoDup(KeysOf(HostCores(cpus), ids))
  {
    var host := HostCores(cpus);
    forall k | 0 <= k < |ids| ensures ids[k] in host { var id := ids[k]; assert id in ids; }
    forall i, j | 0 <= i < j < |ids| && host[ids[i]] == host[ids[j]] ensures false {
      UsedTwice(host, ids, i, j, host[ids[i]]);
    }
  }

  lemma {:induction false} UsedTwice(host: map<int, CoreKey>, ids: seq<int>, i: nat, j: nat, key: CoreKey)
    requires i < j < |ids| && ids[i] in host && ids[j] in host && host[ids[i]] == key == host[ids[j]]
    ensures Used(host, ids, key) >= 2
  {
    assert ids == ids[..i] + [ids[i]] + ids[i + 1..j] + [ids[j]] + ids[j + 1..];
    UsedAppend(host, ids[..i] + [ids[i]] + ids[i + 1..j] + [ids[j]], ids[j + 1..], key);
    UsedSnoc(host, ids[..i] + [ids[i]] + ids[i + 1..j], ids[j], key);
    UsedAppend(host, ids[..i] + [ids[i]], ids[i + 1..j], key);
    UsedSnoc(host, ids[..i], ids[i], key);
  }

  // The lowest thread of a core is the only one.
  lemma {:induction false} LowestIsFirst(cpus: seq<Cpu>, keys: seq<CoreKey>, cores: seq<seq<int>>, k: nat, id: int)
    requires DistinctIds(cpus) && IsGrouping(cpus, keys, cores) && k < |cores|
    requires LowestOnCore(cpus, id) && id in HostCores(cpus) && HostCores(cpus)[id] == keys[k]
    ensures cores[k] != [] && cores[k][0] == id
  {
    CoreThreads(cpus, keys, cores, k);
    LowestThread(cpus, keys, cores, k);
    HostCoresMembers(cpus);
    var first := cores[k][0];
    var i :| 0 <= i < |cpus| && cpus[i].id == id;
    var j :| 0 <= j < |cpus| && cpus[j].id == first;
    assert Siblings(cpus[i], cpus[j]) && Siblings(cpus[j], cpus[i]);
  }

  lemma {:induction false} LowestAreIds(cpus: seq<Cpu>, keys: seq<CoreKey>, cores: seq<seq<int>>, ids: seq<int>)
    requires DistinctIds(cpus) && IsGrouping(cpus, keys, cores) && |ids| <= |cores| && Ascending(ids)
    requires forall k :: 0 <= k < |ids| ==> ids[k] in HostCores(cpus) && HostCores(cpus)[ids[k]] == keys[k] && LowestOnCore(cpus, ids[k])
    ensures IsLowestOf(ids, cores, |ids|)
  {
    GroupingNonEmpty(cpus, keys, cores);
    forall k | 0 <= k < |ids| ensures cores[k][0] == ids[k] { LowestIsFirst(cpus, keys, cores, k, ids[k]); }
    ConcatSingles(LowestThreads(cores, |ids|));
    assert Concat(LowestThreads(cores, |ids|)) == ids;
    SortOfAscending(ids);
  }

  lemma {:induction false} OneThreadIsDrawn(cpus: seq<Cpu>, ids: seq<int>) returns (draws: seq<nat>)
    requires DistinctIds(cpus) && Accepts(cpus, ids, OneThreadPerCore) && Ascending(ids)
    requires forall id :: id in ids ==> LowestOnCore(cpus, id)
    ensures DrawnBy(cpus, ids, |ids|, OneThreadPerCore, draws)
  {
    OneThreadKeysDiffer(cpus, ids);
    HostCoresMembers(cpus);
    var order, front := FirstSeen(cpus), KeysOf(HostCores(cpus), ids);
    FirstSeenNoDup(cpus);
    forall key | key in front ensures key in order {
      var k :| 0 <= k < |front| && front[k] == key;
      assert ids[k] in ThreadIds(cpus, key);
      FirstSeenIff(cpus, key);
    }
    draws := FrontIsDrawn(order, front);
    var keys := ShuffleBy(order, draws);
    ShufflePermutes(order, draws);
    ShuffledGroups(cpus, keys);
    forall k | 0 <= k < |ids|
      ensures HostCores(cpus)[ids[k]] == keys[k] && LowestOnCore(cpus, ids[k])
    {
      assert keys[..|front|][k] == front[k];
      var id := ids[k];
      assert id in ids;
    }
    LowestAreIds(cpus, keys, CoresOf(cpus, keys), ids);
  }

  // ----- full_cores -----

  lemma {:induction false} UsedCoreIsFull(cpus: seq<Cpu>, cpuset: seq<int>, keys: seq<CoreKey>, cores: seq<seq<int>>, k: nat)
    requires IsGrouping(cpus, keys, cores) && k < |cores| && Accepts(cpus, cpuset, FullCores)
    ensures Used(HostCores(cpus), cpuset, keys[k]) > 0 ==> Used(HostCores(cpus), cpuset, keys[k]) == |cores[k]|
  {
    SortIntsCorrect(ThreadIds(cpus, keys[k]));
  }

  lemma {:induction false} PicksCons(cores: seq<seq<int>>, k: nat, idx: seq<nat>)
    requires k < |cores| && Picks(cores, k + 1, idx)
    ensures Picks(cores, k, idx) && Picks(cores, k, [k] + idx)
    ensures Threads(cores, [k] + idx) == |cores[k]| + Threads(cores, idx)
  {
    assert ([k] + idx)[1..] == idx;
  }

  // The places of the cores that a cpuset uses.
  lemma {:induction false} UsedCores(cpus: seq<Cpu>, cpuset: seq<int>, keys: seq<CoreKey>, cores: seq<seq<int>>, k: nat) returns (idx: seq<nat>)
    requires IsGrouping(cpus, keys, cores) && k <= |cores| && Accepts(cpus, cpuset, FullCores)
    ensures Picks(cores, k, idx) && Threads(cores, idx) == UsedTotal(HostCores(cpus), cpuset, keys[k..])
    ensures forall a :: 0 <= a < |idx| ==> Used(HostCores(cpus), cpuset, keys[idx[a]]) > 0
    decreases |cores| - k
  {
    if k == |cores| {
      idx := [];
    } else {
      var rest := UsedCores(cpus, cpuset, keys, cores, k + 1);
      UsedCoreIsFull(cpus, cpuset, keys, cores, k);
      PicksCons(cores, k, rest);
      assert keys[k..][1..] == keys[k + 1..];
      idx := if Used(HostCores(cpus), cpuset, keys[k]) > 0 then [k] + rest else rest;
    }
  }

  lemma {:induction false} ConcatMember(pieces: seq<seq<int>>, id: int) returns (a: nat)
    requires id in Concat(pieces)
    ensures a < |pieces| && id in pieces[a]
  {
    var n := |pieces| - 1;
    if id in pieces[n] {
      a := n;
    } else {
      a := ConcatMember(pieces[..n], id);
    }
  }

  lemma {:induction false} UsedHasOne(host: map<int, CoreKey>, cpuset: seq<int>, key: CoreKey) returns (id: int)
    requires Used(host, cpuset, key) > 0
    ensures id in cpuset && id in host && host[id] == key
  {
    var n := |cpuset| - 1;
    if cpuset[n] in host && host[cpuset[n]] == key {
      id := cpuset[n];
    } else {
      id := UsedHasOne(host, cpuset[..n], key);
    }
  }

  // All threads of a core that an accepted cpuset uses are in it.
  lemma {:induction false} UsedCoreIsIn(cpus: seq<Cpu>, ids: seq<int>, key: CoreKey, id: int)
    requires DistinctIds(cpus) && NoDup(ids) && Accepts(cpus, ids, FullCores)
    requires Used(HostCores(cpus), ids, key) > 0 && id in HostCores(cpus) && HostCores(cpus)[id] == key
    ensures id in ids
  {
    FullCoresMeaning(cpus, ids);
    HostCoresMembers(cpus);
    var one := UsedHasOne(HostCores(cpus), ids, key);
    assert HasCpu(cpus, one) && HasCpu(cpus, id);
    var i :| 0 <= i < |cpus| && cpus[i].id == one;
    var j :| 0 <= j < |cpus| && cpus[j].id == id;
    assert Siblings(cpus[i], cpus[j]);
  }

  lemma {:induction false} GatheredAreIn(cpus: seq<Cpu>, keys: seq<CoreKey>, cores: seq<seq<int>>, ids: seq<int>, idx: seq<nat>, id: int)
    requires DistinctIds(cpus) && IsGrouping(cpus, keys, cores) && Picks(cores, 0, idx)
    requires NoDup(ids) && Accepts(cpus, ids, FullCores)
    requires forall a :: 0 <= a < |idx| ==> Used(HostCores(cpus), ids, keys[idx[a]]) > 0
    requires id in Concat(Gather(cores, idx))
    ensures id in ids
  {
    var a := ConcatMember(Gather(cores, idx), id);
    CoreThreads(cpus, keys, cores, idx[a]);
    UsedCoreIsIn(cpus, ids, keys[idx[a]], id);
  }

  lemma {:induction false} FullCoresIsDrawn(cpus: seq<Cpu>, ids: seq<int>) returns (draws: seq<nat>)
    requires DistinctIds(cpus) && Accepts(cpus, ids, FullCores) && Ascending(ids)
    ensures DrawnBy(cpus, ids, |ids|, FullCores, draws)
  {
    var keys := FirstSeen(cpus);
    var cores := CoresOf(cpus, keys);
    ShuffledGroups(cpus, keys);
    KnownIdsHaveKeys(cpus, ids, keys, cores);
    UsedTotalIsLength(HostCores(cpus), ids, keys);
    assert keys[0..] == keys;
    var idx := UsedCores(cpus, ids, keys, cores, 0);
    var picked := SortInts(Concat(Gather(cores, idx)));
    FullCoresSound(cpus, keys, cores, idx, |ids|);
    SortIntsCorrect(Concat(Gather(cores, idx)));
    forall id | id in picked ensures id in ids { GatheredAreIn(cpus, keys, cores, ids, idx, id); }
    AscendingUnique(picked, ids);
    draws := AnyCombinationIsDrawn(cpus, idx, |ids|);
  }

  lemma {:induction false} AnyDrawnIsAcceptable(cpus: seq<Cpu>, ids: seq<int>, count: nat, draws: seq<nat>)
    requires DistinctIds(cpus) && DrawnBy(cpus, ids, count, Any, draws)
    ensures Acceptable(cpus, ids, count, Any) && Ascending(ids)
  {
    ShufflePermutes(HostIds(cpus), draws);
    var shuffled := ShuffleBy(HostIds(cpus), draws);
    assert |shuffled| == |multiset(shuffled)| == |multiset(HostIds(cpus))| == |cpus|;
    AnySound(cpus, shuffled, count);
  }

  lemma {:induction false} DrawnCoresGroup(cpus: seq<Cpu>, draws: seq<nat>)
    requires Draws(draws, |FirstSeen(cpus)|)
    ensures IsGrouping(cpus, ShuffleBy(FirstSeen(cpus), draws), DrawnCores(cpus, draws))
  {
    ShufflePermutes(FirstSeen(cpus), draws);
    ShuffledGroups(cpus, ShuffleBy(FirstSeen(cpus), draws));
  }

  lemma {:induction false} CoresDrawnAreAcceptable(cpus: seq<Cpu>, ids: seq<int>, count: nat, mode: Mode, draws: seq<nat>)
    requires DistinctIds(cpus) && DrawnBy(cpus, ids, count, mode, draws) && mode != Any
    ensures Acceptable(cpus, ids, count, mode) && Ascending(ids)
    ensures mode == OneThreadPerCore ==> forall id :: id in ids ==> LowestOnCore(cpus, id)
  {
    var keys, cores := ShuffleBy(FirstSeen(cpus), draws), DrawnCores(cpus, draws);
    DrawnCoresGroup(cpus, draws);
    if mode == FullCores {
      FullCoresSound(cpus, keys, cores, Walk(cores, 0, count), count);
    } else {
      OneThreadSound(cpus, keys, cores, count);
    }
  }

  // What Select can return, exactly: the sorted, accepted sets of the count asked for, and of these, for one
  // thread per core, the ones of lowest threads.
  lemma {:induction false} EverySelectionIsDrawn(cpus: seq<Cpu>, ids: seq<int>, count: nat, mode: Mode)
    requires DistinctIds(cpus) && 1 <= count
    ensures (exists draws :: DrawnBy(cpus, ids, count, mode, draws))
            <==> Acceptable(cpus, ids, count, mode) && Ascending(ids)
                 && (mode == OneThreadPerCore ==> forall id :: id in ids ==> LowestOnCore(cpus, id))
  {
    forall draws | DrawnBy(cpus, ids, count, mode, draws)
      ensures Acceptable(cpus, ids, count, mode) && Ascending(ids)
      ensures mode == OneThreadPerCore ==> forall id :: id in ids ==> LowestOnCore(cpus, id)
    {
      if mode == Any {
        AnyDrawnIsAcceptable(cpus, ids, count, draws);
      } else {
        CoresDrawnAreAcceptable(cpus, ids, count, mode, draws);
      }
    }
    if Acceptable(cpus, ids, count, mode) && Ascending(ids) && (mode == OneThreadPerCore ==> forall id :: id in ids ==> LowestOnCore(cpus, id)) {
      match mode
      case Any => var draws := AnyIsDrawn(cpus, ids);
      case FullCores => var draws := FullCoresIsDrawn(cpus, ids);
      case OneThreadPerCore => var draws := OneThreadIsDrawn(cpus, ids);
      case Other(name) => NonEmptyUses(cpus, ids, name);
    }
  }
}
