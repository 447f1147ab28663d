/**
What it takes to put a machine back: settings recorded in state files, the moments at which a process may
die without losing any, and what a new process makes of the files it finds.
*/
module CpuRecovery {
  import opened Wrappers
  import opened CpuHost

  /* What the settings of a machine have to do with the ones it had at first, base. */

  // Every file of every CPU can be read and holds something.
  predicate AllComplete(base: CpuMap) { forall c :: c in base ==> Complete(base[c]) }

  predicate Ordered(sysfs: CpuMap) { forall c :: c in sysfs ==> sysfs[c].min <= sysfs[c].max }

  predicate Truthful(base: CpuMap, recorded: CpuMap) {
    forall c :: c in recorded ==> recorded[c] == if c in base then base[c] else UNREADABLE
  }

  predicate DiskTruthful(base: CpuMap, disk: map<string, CpuMap>) { forall p :: p in disk ==> Truthful(base, disk[p]) }

  // Any CPU that is not as it was at first has been recorded.
  predicate Covers(base: CpuMap, sysfs: CpuMap, recorded: CpuMap) {
    sysfs.Keys == base.Keys && forall c :: c in base && sysfs[c] != base[c] ==> c in recorded
  }

  // Nothing would be lost if the process died now: one state file has all it takes.
  ghost predicate CrashSafe(base: CpuMap, now: Moment) {
    && now.sysfs.Keys == base.Keys && DiskTruthful(base, now.disk)
    && (now.sysfs == base || exists p :: p in now.disk && Covers(base, now.sysfs, now.disk[p]))
  }

  // No recorded CPU has its lower limit above the upper limit it had at first.
  predicate Restorable(base: CpuMap, recorded: CpuMap, sysfs: CpuMap) {
    forall c :: c in recorded && c in base && c in sysfs ==> sysfs[c].min <= base[c].max
  }

  lemma {:induction false} SameKeysSameMap(base: CpuMap, sysfs: CpuMap)
    requires sysfs.Keys == base.Keys && forall c :: c in base ==> sysfs[c] == base[c]
    ensures sysfs == base
  {
    assert forall c :: c in sysfs ==> sysfs[c] == base[c];
  }

  /* Where every write is let through. */

  // The machine after a new process went through the state files it found.
  function RecoveredAll(sysfs: CpuMap, disk: map<string, CpuMap>, paths: seq<string>): CpuMap {
    if paths == [] then sysfs
    else
      var n := |paths| - 1;
      var before := RecoveredAll(sysfs, disk, paths[..n]);
      if paths[n] in disk then Recovered(before, disk[paths[n]]) else before
  }

  // Reading a file back never takes a CPU further away, and settles the CPUs in it.
  lemma {:induction false} FileBringsBack(base: CpuMap, sysfs: CpuMap, file: CpuMap)
    requires AllComplete(base) && sysfs.Keys == base.Keys && Truthful(base, file)
    ensures Recovered(sysfs, file).Keys == base.Keys
    ensures forall c :: c in base ==> Recovered(sysfs, file)[c] == if c in file then base[c] else sysfs[c]
  {
    forall c | c in base ensures Recovered(sysfs, file)[c] == if c in file then base[c] else sysfs[c] {
      if c in file {
        assert file[c] == base[c] && Complete(base[c]);
      }
    }
  }

  lemma {:induction false} FilesBringBack(base: CpuMap, sysfs: CpuMap, disk: map<string, CpuMap>, paths: seq<string>, c: int)
    requires AllComplete(base) && DiskTruthful(base, disk) && sysfs.Keys == base.Keys && c in base
    ensures RecoveredAll(sysfs, disk, paths).Keys == base.Keys
    ensures RecoveredAll(sysfs, disk, paths)[c] == if Records(disk, paths, c) > 0 then base[c] else sysfs[c]
  {
    if paths != [] {
      var n := |paths| - 1;
      FilesBringBack(base, sysfs, disk, paths[..n], c);
      if paths[n] in disk {
        FileBringsBack(base, RecoveredAll(sysfs, disk, paths[..n]), disk[paths[n]]);
      }
    }
  }

  // How many of the files have a CPU.
  function Records(disk: map<string, CpuMap>, paths: seq<string>, c: int): nat {
    if paths == [] then 0
    else
      var n := |paths| - 1;
      Records(disk, paths[..n], c) + (if paths[n] in disk && c in disk[paths[n]] then 1 else 0)
  }

  lemma {:induction false} FoundInRecords(disk: map<string, CpuMap>, paths: seq<string>, p: string, c: int)
    requires p in paths && p in disk && c in disk[p]
    ensures Records(disk, paths, c) > 0
  {
    var n := |paths| - 1;
    if paths[n] != p {
      FoundInRecords(disk, paths[..n], p, c);
    }
  }

  // At a moment that is safe to crash at, what differs is in a file.
  lemma {:induction false} DifferentIsRecorded(base: CpuMap, now: Moment, paths: seq<string>, c: int)
    requires CrashSafe(base, now) && (forall p :: p in now.disk ==> p in paths)
    requires c in base && now.sysfs[c] != base[c]
    ensures Records(now.disk, paths, c) > 0
  {
    var p :| p in now.disk && Covers(base, now.sysfs, now.disk[p]);
    FoundInRecords(now.disk, paths, p, c);
  }

  // From any moment that is safe to crash at, going through all files in any order gives the first settings back.
  lemma {:induction false} CrashRecovers(base: CpuMap, now: Moment, paths: seq<string>)
    requires AllComplete(base) && CrashSafe(base, now) && forall p :: p in now.disk ==> p in paths
    ensures RecoveredAll(now.sysfs, now.disk, paths) == base
  {
    var after := RecoveredAll(now.sysfs, now.disk, paths);
    forall c | c in base ensures after.Keys == base.Keys && after[c] == base[c] {
      FilesBringBack(base, now.sysfs, now.disk, paths, c);
      if now.sysfs[c] != base[c] {
        DifferentIsRecorded(base, now, paths, c);
      }
    }
    RecoveredKeys(now.sysfs, now.disk, paths);
    SameKeysSameMap(base, after);
  }

  lemma {:induction false} RecoveredKeys(sysfs: CpuMap, disk: map<string, CpuMap>, paths: seq<string>)
    ensures RecoveredAll(sysfs, disk, paths).Keys == sysfs.Keys
    ensures StrictRecoveredAll(sysfs, disk, paths).Keys == sysfs.Keys
  {
    if paths != [] {
      RecoveredKeys(sysfs, disk, paths[..|paths| - 1]);
    }
  }

  /* On a strict kernel. */

  function StrictRecoveredAll(sysfs: CpuMap, disk: map<string, CpuMap>, paths: seq<string>): CpuMap {
    if paths == [] then sysfs
    else
      var n := |paths| - 1;
      var before := StrictRecoveredAll(sysfs, disk, paths[..n]);
      if paths[n] in disk then StrictRecovered(before, disk[paths[n]]) else before
  }

  // A CPU after so many attempts at its first settings.
  function Attempts(now: Settings, first: Settings, n: nat): Settings {
    if n == 0 then now else StrictRestored(Attempts(now, first, n - 1), first)
  }

  // One attempt is enough unless the lower limit is above the first upper one; two always are.
  lemma {:induction false} AttemptsSettle(now: Settings, first: Settings, n: nat)
    requires Complete(first) && first.min <= first.max && now.min <= now.max
    ensures Attempts(now, first, n) == first <==> now == first || n >= 2 || (n == 1 && now.min <= first.max)
  {
    StrictSettlesIff(now, first);
    if n == 1 {
      assert Attempts(now, first, 0) == now;
    } else if n >= 2 {
      SettledAfterTwo(now, first, n);
    }
  }

  lemma {:induction false} SettledAfterTwo(now: Settings, first: Settings, n: nat)
    requires Complete(first) && first.min <= first.max && now.min <= now.max && n >= 2
    ensures Attempts(now, first, n) == first
  {
    StrictSettlesIff(now, first);
    StrictSettlesIff(first, first);
    if n == 2 {
      assert Attempts(now, first, 0) == now;
      assert Attempts(now, first, 1) == StrictRestored(now, first);
    } else {
      SettledAfterTwo(now, first, n - 1);
    }
  }

  lemma {:induction false} FilesAreAttempts(base: CpuMap, sysfs: CpuMap, disk: map<string, CpuMap>, paths: seq<string>, c: int)
    requires DiskTruthful(base, disk) && sysfs.Keys == base.Keys && c in base
    ensures c in StrictRecoveredAll(sysfs, disk, paths)
    ensures StrictRecoveredAll(sysfs, disk, paths)[c] == Attempts(sysfs[c], base[c], Records(disk, paths, c))
  {
    if paths != [] {
      FilesAreAttempts(base, sysfs, disk, paths[..|paths| - 1], c);
    }
  }

  // Every CPU whose lower limit is above its first upper one is in two of the files.
  ghost predicate Settleable(base: CpuMap, sysfs: CpuMap, disk: map<string, CpuMap>, paths: seq<string>) {
    forall c :: c in base && c in sysfs && sysfs[c].min > base[c].max ==> Records(disk, paths, c) >= 2
  }

  // From a moment that is safe to crash at, a strict kernel lets the cleanup finish exactly when no lower limit
  // is above its first upper one, except for CPUs that two files have.
  lemma {:induction false} StrictRecoversIff(base: CpuMap, now: Moment, paths: seq<string>)
    requires AllComplete(base) && Ordered(base) && Ordered(now.sysfs)
    requires CrashSafe(base, now) && forall p :: p in now.disk ==> p in paths
    ensures StrictRecoveredAll(now.sysfs, now.disk, paths) == base <==> Settleable(base, now.sysfs, now.disk, paths)
  {
    var after := StrictRecoveredAll(now.sysfs, now.disk, paths);
    RecoveredKeys(now.sysfs, now.disk, paths);
    forall c | c in base
      ensures after[c] == base[c] <==> (now.sysfs[c].min > base[c].max ==> Records(now.disk, paths, c) >= 2)
    {
      FilesAreAttempts(base, now.sysfs, now.disk, paths, c);
      AttemptsSettle(now.sysfs[c], base[c], Records(now.disk, paths, c));
      if now.sysfs[c] != base[c] {
        DifferentIsRecorded(base, now, paths, c);
      }
    }
    if Settleable(base, now.sysfs, now.disk, paths) {
      SameKeysSameMap(base, after);
    }
  }

  // Where no CPU is in two files, exactly when no lower limit is above its first upper one.
  lemma {:induction false} StrictRecoversIffRestorable(base: CpuMap, now: Moment, paths: seq<string>)
    requires AllComplete(base) && Ordered(base) && Ordered(now.sysfs)
    requires CrashSafe(base, now) && forall p :: p in now.disk ==> p in paths
    requires forall c :: c in base ==> Records(now.disk, paths, c) <= 1
    ensures StrictRecoveredAll(now.sysfs, now.disk, paths) == base <==> Restorable(base, base, now.sysfs)
  {
    StrictRecoversIff(base, now, paths);
  }

  // A CPU pinned above its first upper limit, with all it takes on file, does not come back.
  lemma {:induction false} PinnedHighStays(cpu: int, first: Settings, governor: string, khz: nat, path: string)
    requires Complete(first) && first.min <= first.max < khz
    ensures var base, sysfs, disk := map[cpu := first], map[cpu := Settings(governor, khz, khz)], map[path := map[cpu := first]];
      && CrashSafe(base, Moment(sysfs, disk))
      && StrictRecoveredAll(sysfs, disk, [path]) == map[cpu := Settings(first.governor, first.min, khz)]
      && StrictRecoveredAll(sysfs, disk, [path]) != base
  {
    var base, sysfs, disk := map[cpu := first], map[cpu := Settings(governor, khz, khz)], map[path := map[cpu := first]];
    assert Covers(base, sysfs, disk[path]);
    var paths := [path];
    assert paths[..|paths| - 1] == [] && StrictRecoveredAll(sysfs, disk, []) == sysfs;
    StrictSettlesIff(sysfs[cpu], first);
    var after := StrictRecoveredAll(sysfs, disk, paths);
    assert after[cpu] == Settings(first.governor, first.min, khz) != base[cpu];
  }

  /* The cleanup. */

  // CleanupOrphanedCPUFreqState, on the files a directory listing gave.
  method CleanupOrphanedState(host: Host, paths: seq<string>)
    requires forall i, j :: 0 <= i < j < |paths| ==> paths[i] != paths[j]
    modifies host
    ensures AcceptsAll(host.env) ==> host.sysfs == RecoveredAll(old(host.sysfs), old(host.disk), paths)
    ensures StrictKernel(host.env) ==> host.sysfs == StrictRecoveredAll(old(host.sysfs), old(host.disk), paths)
    ensures AlwaysRemoves(host.env) ==> forall p :: p in paths ==> p !in host.disk
  {
    var i := 0;
    while i < |paths|
      invariant 0 <= i <= |paths|
      invariant AcceptsAll(host.env) ==> host.sysfs == RecoveredAll(old(host.sysfs), old(host.disk), paths[..i])
      invariant StrictKernel(host.env) ==> host.sysfs == StrictRecoveredAll(old(host.sysfs), old(host.disk), paths[..i])
      invariant forall k :: i <= k < |paths| ==> (paths[k] in host.disk <==> paths[k] in old(host.disk))
      invariant forall p :: p in host.disk ==> p in old(host.disk) && host.disk[p] == old(host.disk)[p]
      invariant AlwaysRemoves(host.env) ==> forall p :: p in paths[..i] ==> p !in host.disk
    {
      assert paths[..i + 1][..i] == paths[..i];
      if paths[i] in host.disk {
        host.RestoreFromStateFile(paths[i]);
      }
      i := i + 1;
    }
    assert paths[..i] == paths;
  }

  // A process dies at a safe moment; the next one cleans up.
  method CrashAndRecover(ghost base: CpuMap, crash: Moment, env: Environment, paths: seq<string>) returns (host: Host)
    requires AllComplete(base) && CrashSafe(base, crash) && forall p :: p in crash.disk ==> p in paths
    requires forall i, j :: 0 <= i < j < |paths| ==> paths[i] != paths[j]
    ensures AcceptsAll(env) ==> host.sysfs == base
    ensures StrictKernel(env) && Ordered(base) && Ordered(crash.sysfs) ==>
              (host.sysfs == base <==> Settleable(base, crash.sysfs, crash.disk, paths))
  {
    host := new Host(env, map[], None, crash.sysfs, crash.disk);
    CleanupOrphanedState(host, paths);
    CrashRecovers(base, crash, paths);
    if Ordered(base) && Ordered(crash.sysfs) {
      StrictRecoversIff(base, crash, paths);
    }
  }

  // The failing case: a CPU pinned above its first upper limit keeps the upper limit, and the only file that
  // knew better is gone.
  method RecoveryStrands(cpu: int, first: Settings, governor: string, khz: nat, path: string, env: Environment) returns (host: Host)
    requires Complete(first) && first.min <= first.max < khz
    ensures CrashSafe(map[cpu := first], Moment(map[cpu := Settings(governor, khz, khz)], map[path := map[cpu := first]]))
    ensures StrictKernel(env) ==> host.sysfs == map[cpu := Settings(first.governor, first.min, khz)]
    ensures AlwaysRemoves(env) ==> host.disk == map[]
  {
    var file := map[cpu := first];
    assert Covers(map[cpu := first], map[cpu := Settings(governor, khz, khz)], map[path := file][path]);
    host := new Host(env, map[], None, map[cpu := Settings(governor, khz, khz)], map[path := file]);
    host.RestoreFromStateFile(path);
    StrictSettlesIff(Settings(governor, khz, khz), first);
    assert map[path := file] - {path} == map[];
  }
}
