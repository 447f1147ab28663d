/**
The machine the CPU-frequency manager works on: per-CPU governor and scaling limits in sysfs, and the
cache directory that holds state files.

Whether a write, a save or a removal succeeds is up to the environment, which may decide each one
differently; a refused operation changes nothing.
*/
module CpuHost {
  import opened Wrappers

  datatype Settings = Settings(governor: string, min: nat, max: nat)

  // Recorded for a CPU whose files cannot be read.
  const UNREADABLE := Settings("", 0, 0)

  type CpuMap = map<int, Settings>

  datatype Write = Governor(name: string) | ScalingMin(khz: nat) | ScalingMax(khz: nat)

  // The k-th operation of a run meets the k-th answer.
  datatype Environment = Environment(accepts: (nat, Settings, Write) -> bool, saves: nat -> Option<string>, removes: nat -> bool)

  function Written(s: Settings, w: Write): Settings {
    match w
    case Governor(name) => s.(governor := name)
    case ScalingMin(khz) => s.(min := khz)
    case ScalingMax(khz) => s.(max := khz)
  }

  // A kernel that refuses exactly the writes that would leave scaling_min above scaling_max.
  predicate KernelRule(s: Settings, w: Write) {
    match w
    case Governor(_) => true
    case ScalingMin(khz) => khz <= s.max
    case ScalingMax(khz) => s.min <= khz
  }

  ghost predicate StrictKernel(env: Environment) { forall k, s, w :: env.accepts(k, s, w) == KernelRule(s, w) }

  ghost predicate AcceptsAll(env: Environment) { forall k, s, w :: env.accepts(k, s, w) }

  ghost predicate AlwaysRemoves(env: Environment) { forall k :: env.removes(k) }

  ghost predicate AlwaysSaves(env: Environment) { forall k :: env.saves(k).Some? }

  datatype Moment = Moment(sysfs: CpuMap, disk: map<string, CpuMap>)

  // The two differ on one CPU at most.
  ghost predicate Elsewhere(before: CpuMap, after: CpuMap, cpu: int) {
    after.Keys == before.Keys && forall c :: c in after && c != cpu ==> after[c] == before[c]
  }

  lemma {:induction false} OneUpdate(before: CpuMap, after: CpuMap, cpu: int)
    requires Elsewhere(before, after, cpu) && cpu in after
    ensures after == before[cpu := after[cpu]]
  {
    assert forall c :: c in after ==> after[c] == before[cpu := after[cpu]][c];
  }

  // What happened since left the directory alone and sysfs, except for one CPU, too.
  ghost predicate OnlyTouches(past: seq<Moment>, history: seq<Moment>, sysfs: CpuMap, disk: map<string, CpuMap>, cpu: int) {
    && |past| <= |history| && history[..|past|] == past
    && forall k :: |past| <= k < |history| ==> history[k].disk == disk && Elsewhere(sysfs, history[k].sysfs, cpu)
  }

  // Map iteration comes in any order.
  method PickOne<T(==)>(s: set<T>) returns (x: T)
    requires s != {}
    ensures x in s
  {
    x :| x in s;
  }

  class Host {
    const env: Environment
    const bounds: map<int, (nat, nat)>   // cpuinfo_min_freq and cpuinfo_max_freq
    const online: Option<seq<int>>
    var sysfs: CpuMap
    var disk: map<string, CpuMap>
    var clock: nat
    ghost var history: seq<Moment>  // the machine after every operation so far

    constructor (env: Environment, bounds: map<int, (nat, nat)>, online: Option<seq<int>>, sysfs: CpuMap, disk: map<string, CpuMap>)
      ensures this.env == env && this.bounds == bounds && this.online == online
      ensures this.sysfs == sysfs && this.disk == disk && history == []
    {
      this.env, this.bounds, this.online, this.sysfs, this.disk, this.clock := env, bounds, online, sysfs, disk, 0;
      this.history := [];
    }

    method WriteCpu(cpu: int, w: Write) returns (ok: bool)
      modifies this
      ensures ok == (cpu in old(sysfs) && env.accepts(old(clock), old(sysfs)[cpu], w))
      ensures sysfs == if ok then old(sysfs)[cpu := Written(old(sysfs)[cpu], w)] else old(sysfs)
      ensures disk == old(disk) && history == old(history) + [Moment(sysfs, disk)]
      ensures Elsewhere(old(sysfs), sysfs, cpu) && OnlyTouches(old(history), history, old(sysfs), disk, cpu)
    {
      ok := cpu in sysfs && env.accepts(clock, sysfs[cpu], w);
      if ok {
        sysfs := sysfs[cpu := Written(sysfs[cpu], w)];
      }
      clock := clock + 1;
      history := history + [Moment(sysfs, disk)];
    }

    function Capture(cpu: int): Settings
      reads this
    {
      if cpu in sysfs then sysfs[cpu] else UNREADABLE
    }

    // SaveState: the path it wrote, None on failure. A path may be reused.
    method SaveState(settings: CpuMap) returns (path: Option<string>)
      modifies this
      ensures path == env.saves(old(clock)) && clock == old(clock) + 1 && sysfs == old(sysfs)
      ensures disk == if path.Some? then old(disk)[path.value := settings] else old(disk)
      ensures history == old(history) + [Moment(sysfs, disk)]
    {
      path := env.saves(clock);
      if path.Some? {
        disk := disk[path.value := settings];
      }
      clock := clock + 1;
      history := history + [Moment(sysfs, disk)];
    }

    method RemoveStateFile(path: string) returns (ok: bool)
      modifies this
      ensures ok == env.removes(old(clock)) && sysfs == old(sysfs)
      ensures disk == if ok then old(disk) - {path} else old(disk)
      ensures history == old(history) + [Moment(sysfs, disk)]
    {
      ok := env.removes(clock);
      if ok {
        disk := disk - {path};
      }
      clock := clock + 1;
      history := history + [Moment(sysfs, disk)];
    }

    // Writes back one CPU's recorded settings, maximum before minimum; true if nothing was refused.
    // Fields that could not be captured are skipped.
    method RestoreCpu(cpu: int, s: Settings) returns (ok: bool)
      modifies this
      ensures disk == old(disk) && Elsewhere(old(sysfs), sysfs, cpu)
      ensures OnlyTouches(old(history), history, old(sysfs), disk, cpu)
      ensures cpu in sysfs && ok ==> sysfs[cpu] == Restored(old(sysfs)[cpu], s)
      ensures cpu !in sysfs && s == UNREADABLE ==> ok
      ensures AcceptsAll(env) && cpu in sysfs ==> ok
      ensures StrictKernel(env) && cpu in sysfs ==>
                sysfs[cpu] == StrictRestored(old(sysfs)[cpu], s) && (ok <==> AllLetThrough(old(sysfs)[cpu], s))
    {
      ok := true;
      if s.governor != "" {
        var done := WriteCpu(cpu, Governor(s.governor));
        ok := ok && done;
      }
      if s.max > 0 {
        var done := WriteCpu(cpu, ScalingMax(s.max));
        ok := ok && done;
      }
      if s.min > 0 {
        var done := WriteCpu(cpu, ScalingMin(s.min));
        ok := ok && done;
      }
    }

    // RestoreFromStateFile: a new process finishes what a dead one left behind.
    method RestoreFromStateFile(path: string)
      requires path in disk
      modifies this
      ensures sysfs.Keys == old(sysfs).Keys
      ensures AcceptsAll(env) ==> sysfs == Recovered(old(sysfs), old(disk)[path])
      ensures StrictKernel(env) ==> sysfs == StrictRecovered(old(sysfs), old(disk)[path])
      ensures disk == old(disk) || disk == old(disk) - {path}
      ensures AlwaysRemoves(env) ==> disk == old(disk) - {path}
    {
      var settings := disk[path];
      var cpus := settings.Keys;
      while cpus != {}
        invariant cpus <= settings.Keys && sysfs.Keys == old(sysfs).Keys && disk == old(disk)
        invariant AcceptsAll(env) ==> sysfs == Recovered(old(sysfs), settings - cpus)
        invariant StrictKernel(env) ==> sysfs == StrictRecovered(old(sysfs), settings - cpus)
        decreases |cpus|
      {
        var cpu := PickOne(cpus);
        label Before:
        var _ := RestoreCpu(cpu, settings[cpu]);
        OneMoreRecovered(old(sysfs), settings, cpus, cpu, old@Before(sysfs), sysfs);
        cpus := cpus - {cpu};
      }
      assert settings - cpus == settings;
      var _ := RemoveStateFile(path);
    }
  }

  // Everything was captured.
  predicate Complete(s: Settings) { s.governor != "" && s.min > 0 && s.max > 0 }

  function Restored(now: Settings, s: Settings): Settings {
    Settings(if s.governor != "" then s.governor else now.governor,
             if s.min > 0 then s.min else now.min,
             if s.max > 0 then s.max else now.max)
  }

  // What a strict kernel makes of the three writes.
  function StrictRestored(now: Settings, s: Settings): Settings {
    var max := if s.max > 0 && now.min <= s.max then s.max else now.max;
    Settings(if s.governor != "" then s.governor else now.governor,
             if s.min > 0 && s.min <= max then s.min else now.min, max)
  }

  predicate AllLetThrough(now: Settings, s: Settings) {
    (s.max > 0 ==> now.min <= s.max) && (s.min > 0 ==> s.min <= StrictRestored(now, s).max)
  }

  // Complete, ordered settings come back exactly when the lower limit is not above the recorded upper one;
  // otherwise the upper limit stays where it was. A second attempt then succeeds.
  lemma {:induction false} StrictSettlesIff(now: Settings, s: Settings)
    requires Complete(s) && s.min <= s.max && now.min <= now.max
    ensures AllLetThrough(now, s) <==> now.min <= s.max
    ensures StrictRestored(now, s) == s <==> now.min <= s.max
    ensures StrictRestored(now, s) == if now.min <= s.max then s else s.(max := now.max)
    ensures StrictRestored(StrictRestored(now, s), s) == s
  {
  }

  function Recovered(sysfs: CpuMap, file: CpuMap): CpuMap {
    map cpu | cpu in sysfs :: if cpu in file then Restored(sysfs[cpu], file[cpu]) else sysfs[cpu]
  }

  function StrictRecovered(sysfs: CpuMap, file: CpuMap): CpuMap {
    map cpu | cpu in sysfs :: if cpu in file then StrictRestored(sysfs[cpu], file[cpu]) else sysfs[cpu]
  }

  lemma {:induction false} OneMoreRecovered(start: CpuMap, file: CpuMap, todo: set<int>, cpu: int, before: CpuMap, after: CpuMap)
    requires cpu in todo && todo <= file.Keys && Elsewhere(before, after, cpu)
    ensures before == Recovered(start, file - todo) && (cpu in after ==> after[cpu] == Restored(before[cpu], file[cpu])) ==>
              after == Recovered(start, file - (todo - {cpu}))
    ensures before == StrictRecovered(start, file - todo) && (cpu in after ==> after[cpu] == StrictRestored(before[cpu], file[cpu])) ==>
              after == StrictRecovered(start, file - (todo - {cpu}))
  {
    assert (file - (todo - {cpu})).Keys == (file - todo).Keys + {cpu};
    if before == Recovered(start, file - todo) && (cpu in after ==> after[cpu] == Restored(before[cpu], file[cpu])) {
      assert forall c :: c in after ==> after[c] == Recovered(start, file - (todo - {cpu}))[c];
    }
    if before == StrictRecovered(start, file - todo) && (cpu in after ==> after[cpu] == StrictRestored(before[cpu], file[cpu])) {
      assert forall c :: c in after ==> after[c] == StrictRecovered(start, file - (todo - {cpu}))[c];
    }
  }
}
