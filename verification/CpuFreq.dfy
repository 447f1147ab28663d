/**
The CPU-frequency manager: capture what a CPU was set to before touching it, pin it, and put everything
back, even after partial failures or a crash of the process.
*/
module CpuFreq {
  import opened Wrappers
  import opened CpuHost
  import opened CpuRecovery

  // frequency and governor as configured; "" leaves them alone.
  datatype Config = Config(frequency: string, governor: string)

  datatype ApplyError =
    | OnlineUnknown | BadFrequency | GovernorRefused(cpu: int)
    | BoundsUnknown(cpu: int) | OutOfRange(cpu: int) | FrequencyRefused(cpu: int)

  /* What the frequency text asks for. */

  // MAX stands for each CPU's own hardware maximum.
  datatype Frequency = Unchanged | Unparsable | Max | Khz(khz: nat)

  datatype Request = Request(frequency: Frequency, governor: string)

  // White space as strings.TrimSpace has it.
  predicate IsSpace(c: char) {
    var n := c as int;
    9 <= n <= 13 || n == 32 || n == 0x85 || n == 0xA0 || n == 0x1680 || 0x2000 <= n <= 0x200A
    || n == 0x2028 || n == 0x2029 || n == 0x202F || n == 0x205F || n == 0x3000
  }

  function TrimLeft(s: string): string { if s != "" && IsSpace(s[0]) then TrimLeft(s[1..]) else s }

  function TrimRight(s: string): string { if s != "" && IsSpace(s[|s| - 1]) then TrimRight(s[..|s| - 1]) else s }

  function Trim(s: string): string { TrimRight(TrimLeft(s)) }

  // strings.ToUpper(s) == "MAX"
  predicate SaysMax(s: string) {
    |s| == 3 && (s[0] == 'M' || s[0] == 'm') && (s[1] == 'A' || s[1] == 'a') && (s[2] == 'X' || s[2] == 'x')
  }

  // ParseFrequency: it trims before it looks for MAX, for which it answers 0. khzOf reads a number with or
  // without a unit.
  function ParseFrequency(khzOf: string -> Option<nat>, text: string): Option<nat> {
    var trimmed := Trim(text);
    if trimmed == "" then None
    else if SaysMax(trimmed) then Some(0)
    else if khzOf(trimmed) == Some(0) then None
    else khzOf(trimmed)
  }

  // What Apply makes of it: it looks for MAX in the text as it is.
  function Classify(khzOf: string -> Option<nat>, text: string): Frequency {
    if text == "" then Unchanged
    else
      match ParseFrequency(khzOf, text)
      case None => Unparsable
      case Some(khz) => if SaysMax(text) then Max else Khz(khz)
  }

  predicate AllSpace(s: string) { forall i :: 0 <= i < |s| ==> IsSpace(s[i]) }

  lemma {:induction false} TrimLeftCuts(s: string) returns (front: string)
    ensures s == front + TrimLeft(s) && AllSpace(front)
    ensures TrimLeft(s) != "" ==> !IsSpace(TrimLeft(s)[0])
  {
    if s != "" && IsSpace(s[0]) {
      var rest := TrimLeftCuts(s[1..]);
      front := [s[0]] + rest;
      assert s == [s[0]] + s[1..];
    } else {
      front := "";
    }
  }

  lemma {:induction false} TrimRightCuts(s: string) returns (back: string)
    ensures s == TrimRight(s) + back && AllSpace(back)
    ensures TrimRight(s) != "" ==> !IsSpace(TrimRight(s)[|TrimRight(s)| - 1])
  {
    if s != "" && IsSpace(s[|s| - 1]) {
      var rest := TrimRightCuts(s[..|s| - 1]);
      back := rest + [s[|s| - 1]];
      assert s == s[..|s| - 1] + [s[|s| - 1]];
    } else {
      back := "";
    }
  }

  // Trimming takes white space off both ends, and all of it.
  lemma {:induction false} TrimCuts(s: string) returns (front: string, back: string)
    ensures s == front + Trim(s) + back && AllSpace(front) && AllSpace(back)
    ensures Trim(s) != "" ==> !IsSpace(Trim(s)[0]) && !IsSpace(Trim(s)[|Trim(s)| - 1])
  {
    front := TrimLeftCuts(s);
    back := TrimRightCuts(TrimLeft(s));
    assert s == front + (Trim(s) + back);
    if Trim(s) != "" {
      assert Trim(s)[0] == TrimLeft(s)[0];
    }
  }

  // A number is asked for exactly as it reads, and it is above zero; what reads as none is refused.
  lemma {:induction false} NumbersAreTakenAsRead(khzOf: string -> Option<nat>, text: string)
    requires text != "" && !SaysMax(Trim(text))
    ensures var read := if Trim(text) == "" then None else khzOf(Trim(text));
            Classify(khzOf, text) == if read.Some? && read.value > 0 then Khz(read.value) else Unparsable
  {
    if SaysMax(text) {
      TrimKeepsMax(text);
    }
  }

  lemma {:induction false} TrimKeepsMax(text: string)
    requires SaysMax(text)
    ensures Trim(text) == text
  {
  }

  // A text that reads MAX once trimmed is honoured exactly when it needs no trimming; with white space around
  // it, it asks for 0 kHz.
  lemma {:induction false} MaxHonouredIffUnpadded(khzOf: string -> Option<nat>, text: string)
    requires SaysMax(Trim(text))
    ensures Classify(khzOf, text) == Max <==> Trim(text) == text
    ensures Trim(text) != text ==> Classify(khzOf, text) == Khz(0)
  {
    if SaysMax(text) {
      TrimKeepsMax(text);
    }
  }

  datatype Call = ApplyCall(config: Option<Config>, cpus: seq<int>) | RestoreCall

  /* What every moment of a call keeps. */

  // Where a call started: what had happened before, and the records of the last save that worked.
  datatype Start = Start(past: seq<Moment>, backup: CpuMap)

  // The records are on file, or no longer needed.
  ghost predicate Backed(base: CpuMap, backup: CpuMap, now: Moment) {
    now.sysfs == base || backup == map[] || exists p :: p in now.disk && backup.Keys <= now.disk[p].Keys
  }

  // Whatever differs is in memory; the files are true, and none of what a save once wrote is missing; and if
  // all of memory was saved, the process may die.
  ghost predicate Guarded(base: CpuMap, memory: CpuMap, saved: bool, backup: CpuMap, now: Moment) {
    && Covers(base, now.sysfs, memory) && DiskTruthful(base, now.disk) && Backed(base, backup, now)
    && (saved ==> CrashSafe(base, now))
  }

  ghost predicate GuardedSince(base: CpuMap, memory: CpuMap, saved: bool, start: Start, history: seq<Moment>) {
    && |start.past| <= |history| && history[..|start.past|] == start.past
    && forall k :: |start.past| <= k < |history| ==> Guarded(base, memory, saved, start.backup, history[k])
  }

  function WithoutFile(disk: map<string, CpuMap>, path: Option<string>): map<string, CpuMap> {
    if path.Some? then disk - {path.value} else disk
  }

  // The state files that are not the manager's own.
  function OtherFiles(disk: map<string, CpuMap>, path: Option<string>): set<string> { WithoutFile(disk, path).Keys }

  // The records as the state file has them; nothing was saved yet if there are none.
  predicate OnFile(path: Option<string>, disk: map<string, CpuMap>, records: CpuMap) {
    records == map[] || (path.Some? && path.value in disk && disk[path.value] == records)
  }

  // A file with records that contain the backup guards a moment.
  lemma {:induction false} FileGuards(base: CpuMap, memory: CpuMap, records: CpuMap, path: Option<string>, backup: CpuMap, now: Moment)
    requires Covers(base, now.sysfs, memory) && DiskTruthful(base, now.disk)
    requires OnFile(path, now.disk, records) && backup.Keys <= records.Keys
    ensures Guarded(base, memory, records == memory, backup, now)
  {
    if records != map[] {
      assert records == memory ==> Covers(base, now.sysfs, now.disk[path.value]);
      assert backup.Keys <= now.disk[path.value].Keys;
    } else {
      assert backup == map[];
      if memory == map[] {
        SameKeysSameMap(base, now.sysfs);
      }
    }
  }

  lemma {:induction false} GuardedOneMore(base: CpuMap, memory: CpuMap, saved: bool, start: Start, history: seq<Moment>, now: Moment)
    requires GuardedSince(base, memory, saved, start, history) && Guarded(base, memory, saved, start.backup, now)
    ensures GuardedSince(base, memory, saved, start, history + [now])
  {
    assert (history + [now])[..|start.past|] == history[..|start.past|];
  }

  // With a CPU recorded, whatever is done to it alone keeps the machine guarded.
  lemma {:induction false} TouchStaysGuarded(base: CpuMap, memory: CpuMap, onFile: CpuMap, path: Option<string>, start: Start,
                                             before: seq<Moment>, history: seq<Moment>, sysfs: CpuMap, disk: map<string, CpuMap>, cpu: int)
    requires Covers(base, sysfs, memory) && cpu in memory && DiskTruthful(base, disk)
    requires OnFile(path, disk, onFile) && start.backup.Keys <= onFile.Keys
    requires OnlyTouches(before, history, sysfs, disk, cpu)
    requires GuardedSince(base, memory, onFile == memory, start, before)
    ensures GuardedSince(base, memory, onFile == memory, start, history)
  {
    assert history[..|start.past|] == history[..|before|][..|start.past|];
    forall k | |start.past| <= k < |history| ensures Guarded(base, memory, onFile == memory, start.backup, history[k]) {
      if k < |before| {
        assert history[k] == history[..|before|][k] == before[k];
      } else {
        FileGuards(base, memory, onFile, path, start.backup, history[k]);
      }
    }
  }

  // Every moment since is safe to crash at.
  ghost predicate SafeSince(base: CpuMap, past: seq<Moment>, history: seq<Moment>) {
    && |past| <= |history| && history[..|past|] == past
    && forall k :: |past| <= k < |history| ==> CrashSafe(base, history[k])
  }

  // The first settings were back at some moment from i up to k.
  ghost predicate BackBetween(base: CpuMap, i: nat, k: nat, history: seq<Moment>) {
    exists j :: i <= j <= k && j < |history| && history[j].sysfs == base
  }

  // Until the first settings were back, what a save once wrote has been on file at every moment since.
  ghost predicate BackedSince(base: CpuMap, backup: CpuMap, past: seq<Moment>, history: seq<Moment>) {
    && |past| <= |history| && history[..|past|] == past
    && forall k :: |past| <= k < |history| ==>
         DiskTruthful(base, history[k].disk) && (Backed(base, backup, history[k]) || BackBetween(base, |past|, k, history))
  }

  lemma {:induction false} SafeOnceMore(base: CpuMap, memory: CpuMap, past: seq<Moment>, start: Start, history: seq<Moment>)
    requires SafeSince(base, past, start.past) && GuardedSince(base, memory, true, start, history)
    ensures SafeSince(base, past, history)
  {
    var before := start.past;
    assert history[..|past|] == history[..|before|][..|past|];
    forall k | |past| <= k < |history| ensures CrashSafe(base, history[k]) {
      if k < |before| {
        assert history[k] == history[..|before|][k] == before[k];
      } else {
        assert Guarded(base, memory, true, start.backup, history[k]);
      }
    }
  }

  lemma {:induction false} BackBetweenLonger(base: CpuMap, i: nat, k: nat, before: seq<Moment>, history: seq<Moment>)
    requires BackBetween(base, i, k, before) && |before| <= |history| && history[..|before|] == before
    ensures forall m :: m >= k ==> BackBetween(base, i, m, history)
  {
    var j :| i <= j <= k && j < |before| && before[j].sysfs == base;
    assert history[j] == history[..|before|][j];
  }

  // The backup is part of what is on file now, or no longer needed.
  ghost predicate StillBacked(base: CpuMap, backup: CpuMap, onFile: CpuMap, from: nat, history: seq<Moment>) {
    backup.Keys <= onFile.Keys || (history != [] && BackBetween(base, from, |history| - 1, history))
  }

  lemma {:induction false} StillBackedLater(base: CpuMap, backup: CpuMap, start: Start, onFile: CpuMap, from: nat, history: seq<Moment>)
    requires from <= |start.past| <= |history| && history[..|start.past|] == start.past
    requires StillBacked(base, backup, start.backup, from, start.past)
    requires || start.backup.Keys <= onFile.Keys
             || (|history| > |start.past| && history[|history| - 1].sysfs == base)
    ensures StillBacked(base, backup, onFile, from, history)
  {
    if !(backup.Keys <= start.backup.Keys) {
      BackBetweenLonger(base, from, |start.past| - 1, start.past, history);
    } else if !(start.backup.Keys <= onFile.Keys) {
      assert BackBetween(base, from, |history| - 1, history);
    }
  }

  lemma {:induction false} BackedOnceMore(base: CpuMap, memory: CpuMap, saved: bool, backup: CpuMap, past: seq<Moment>, start: Start, history: seq<Moment>)
    requires BackedSince(base, backup, past, start.past) && GuardedSince(base, memory, saved, start, history)
    requires StillBacked(base, backup, start.backup, |past|, start.past)
    ensures BackedSince(base, backup, past, history)
  {
    var before := start.past;
    assert history[..|past|] == history[..|before|][..|past|];
    if before != [] && BackBetween(base, |past|, |before| - 1, before) {
      BackBetweenLonger(base, |past|, |before| - 1, before, history);
    }
    forall k | |past| <= k < |history|
      ensures DiskTruthful(base, history[k].disk) && (Backed(base, backup, history[k]) || BackBetween(base, |past|, k, history))
    {
      if k < |before| {
        assert history[k] == history[..|before|][k] == before[k];
        if BackBetween(base, |past|, k, before) {
          BackBetweenLonger(base, |past|, k, before, history);
        }
      } else {
        assert Guarded(base, memory, saved, start.backup, history[k]);
        if backup.Keys <= start.backup.Keys && backup != map[] && history[k].sysfs != base {
          assert start.backup != map[];
          var p :| p in history[k].disk && start.backup.Keys <= history[k].disk[p].Keys;
          assert backup.Keys <= history[k].disk[p].Keys;
        }
      }
    }
  }

  /* What Apply is meant to do. */

  function Governed(sysfs: CpuMap, cpus: seq<int>, governor: string): CpuMap {
    map c | c in sysfs :: if c in cpus then sysfs[c].(governor := governor) else sysfs[c]
  }

  predicate InRange(frequency: Frequency, bounds: map<int, (nat, nat)>, cpu: int) {
    cpu in bounds && match frequency
      case Max => bounds[cpu].0 <= bounds[cpu].1
      case Khz(khz) => bounds[cpu].0 <= khz <= bounds[cpu].1
      case _ => false
  }

  function Target(frequency: Frequency, bounds: map<int, (nat, nat)>, cpu: int): nat {
    if frequency.Khz? then frequency.khz else if cpu in bounds then bounds[cpu].1 else 0
  }

  function Pinned(sysfs: CpuMap, cpus: seq<int>, frequency: Frequency, bounds: map<int, (nat, nat)>): CpuMap {
    map c | c in sysfs :: if c in cpus then Settings(sysfs[c].governor, Target(frequency, bounds, c), Target(frequency, bounds, c))
                          else sysfs[c]
  }

  lemma {:induction false} GovernedSnoc(sysfs: CpuMap, cpus: seq<int>, cpu: int, governor: string)
    requires cpu in sysfs
    ensures Governed(sysfs, cpus, governor)[cpu].(governor := governor) == sysfs[cpu].(governor := governor)
    ensures Governed(sysfs, cpus + [cpu], governor) == Governed(sysfs, cpus, governor)[cpu := sysfs[cpu].(governor := governor)]
  {
  }

  lemma {:induction false} PinnedSnoc(sysfs: CpuMap, cpus: seq<int>, cpu: int, frequency: Frequency, bounds: map<int, (nat, nat)>)
    requires cpu in sysfs
    ensures var khz := Target(frequency, bounds, cpu);
      && Pinned(sysfs, cpus, frequency, bounds)[cpu].governor == sysfs[cpu].governor
      && Pinned(sysfs, cpus + [cpu], frequency, bounds) ==
         Pinned(sysfs, cpus, frequency, bounds)[cpu := Settings(sysfs[cpu].governor, khz, khz)]
  {
  }

  lemma {:induction false} PinnedStaysOrdered(sysfs: CpuMap, cpus: seq<int>, frequency: Frequency, bounds: map<int, (nat, nat)>)
    requires Ordered(sysfs)
    ensures Ordered(Pinned(sysfs, cpus, frequency, bounds))
  {
  }

  // What a request comes to, CPU by CPU: both limits at the number asked for, or at the CPU's own maximum for
  // MAX, within its hardware range; the governor asked for, or the one it had.
  lemma {:induction false} AppliedMeans(request: Request, cpus: seq<int>, sysfs: CpuMap, bounds: map<int, (nat, nat)>, c: int)
    requires Feasible(request, cpus, sysfs, bounds) && c in sysfs
    ensures Applied(request, cpus, sysfs, bounds).Keys == sysfs.Keys
    ensures var s := Applied(request, cpus, sysfs, bounds)[c];
      && (c !in cpus ==> s == sysfs[c])
      && (c in cpus ==> s.governor == if request.governor != "" then request.governor else sysfs[c].governor)
      && (c in cpus && request.frequency.Unchanged? ==> s.min == sysfs[c].min && s.max == sysfs[c].max)
      && (c in cpus && request.frequency.Khz? ==>
            s.min == s.max == request.frequency.khz && c in bounds && bounds[c].0 <= s.min <= bounds[c].1)
      && (c in cpus && request.frequency.Max? ==> c in bounds && s.min == s.max == bounds[c].1 && bounds[c].0 <= s.min)
  {
  }

  predicate AllInRange(cpus: seq<int>, sysfs: CpuMap, frequency: Frequency, bounds: map<int, (nat, nat)>) {
    forall c :: c in cpus ==> c in sysfs && InRange(frequency, bounds, c)
  }

  predicate SameOutside(cpus: seq<int>, before: CpuMap, after: CpuMap) {
    after.Keys == before.Keys && forall c :: c in after && c !in cpus ==> after[c] == before[c]
  }

  // What was asked for can be had: readable CPUs, a target within each one's hardware range.
  predicate Feasible(config: Request, cpus: seq<int>, sysfs: CpuMap, bounds: map<int, (nat, nat)>) {
    && !config.frequency.Unparsable?
    && (config.governor != "" ==> forall c :: c in cpus ==> c in sysfs)
    && (!config.frequency.Unchanged? ==> AllInRange(cpus, sysfs, config.frequency, bounds))
  }

  function Applied(config: Request, cpus: seq<int>, sysfs: CpuMap, bounds: map<int, (nat, nat)>): CpuMap {
    var governed := if config.governor != "" then Governed(sysfs, cpus, config.governor) else sysfs;
    if config.frequency.Unchanged? then governed else Pinned(governed, cpus, config.frequency, bounds)
  }

  lemma {:induction false} RestorableStep(base: CpuMap, recorded: CpuMap, cpus: set<int>, cpu: int, sysfs: CpuMap)
    requires cpu in cpus && cpu in recorded
    ensures Restorable(base, recorded - (cpus - {cpu}), sysfs) <==>
            Restorable(base, recorded - cpus, sysfs) && (cpu in base && cpu in sysfs ==> sysfs[cpu].min <= base[cpu].max)
  {
    assert (recorded - (cpus - {cpu})).Keys == (recorded - cpus).Keys + {cpu};
  }

  // How far a strict kernel has let the loop of Restore come, with cpus still to do.
  predicate Progress(base: CpuMap, recorded: CpuMap, cpus: set<int>, before: CpuMap, now: CpuMap, ok: bool) {
    && (ok <==> Restorable(base, recorded - cpus, before))
    && Ordered(now) && Restorable(base, recorded - cpus, now)
    && now.Keys == before.Keys && forall c :: c in cpus && c in now ==> now[c] == before[c]
  }

  lemma {:induction false} ProgressStep(base: CpuMap, recorded: CpuMap, cpus: set<int>, cpu: int, before: CpuMap,
                                        now: CpuMap, next: CpuMap, ok: bool, done: bool)
    requires Progress(base, recorded, cpus, before, now, ok) && Ordered(base) && now.Keys == base.Keys
    requires cpu in cpus && cpus <= recorded.Keys && Elsewhere(now, next, cpu)
    requires cpu !in base ==> done
    requires cpu in base ==> (done <==> now[cpu].min <= base[cpu].max) && next[cpu].min == base[cpu].min <= next[cpu].max
    ensures Progress(base, recorded, cpus - {cpu}, before, next, ok && done)
  {
    RestorableStep(base, recorded, cpus, cpu, before);
    RestorableStep(base, recorded, cpus, cpu, next);
    forall c | c in recorded - cpus && c in base && c in next ensures next[c].min <= base[c].max {
      assert c != cpu && next[c] == now[c];
    }
  }

  lemma {:induction false} GovernedStaysOrdered(sysfs: CpuMap, cpus: seq<int>, governor: string)
    ensures Ordered(sysfs) ==> Ordered(Governed(sysfs, cpus, governor))
  {
  }

  // The state directory after the new file was written and, only then, the previous one removed.
  function Refreshed(disk: map<string, CpuMap>, env: Environment, clock: nat, previous: Option<string>, memory: CpuMap): map<string, CpuMap> {
    match env.saves(clock)
    case None => disk
    case Some(path) =>
      if previous.Some? && previous.value != path && env.removes(clock + 1) then disk[path := memory] - {previous.value}
      else disk[path := memory]
  }

  function SavedAt(env: Environment, clock: nat, previous: Option<string>): Option<string> {
    if env.saves(clock).Some? then env.saves(clock) else previous
  }

  lemma {:induction false} RefreshedIsTidy(disk: map<string, CpuMap>, env: Environment, clock: nat, previous: Option<string>, memory: CpuMap)
    requires AlwaysRemoves(env)
    ensures OtherFiles(Refreshed(disk, env, clock, previous, memory), SavedAt(env, clock, previous)) <= OtherFiles(disk, previous)
  {
  }

  // What an error says is so.
  predicate ErrorFits(error: ApplyError, config: Request, cpus: seq<int>, bounds: map<int, (nat, nat)>) {
    match error
    case OnlineUnknown => false
    case BadFrequency => config.frequency.Unparsable?
    case GovernorRefused(c) => config.governor != "" && c in cpus
    case BoundsUnknown(c) => c in cpus && c !in bounds
    case OutOfRange(c) =>
      && c in cpus && c in bounds
      && (config.frequency.Khz? ==> config.frequency.khz < bounds[c].0 || config.frequency.khz > bounds[c].1)
      && (config.frequency.Max? ==> bounds[c].0 > bounds[c].1)
      && !config.frequency.Unchanged?
    case FrequencyRefused(c) => c in cpus && InRange(config.frequency, bounds, c)
  }

  /* The manager. */

  class Manager {
    const host: Host
    var originalSettings: Option<CpuMap>
    var stateFile: Option<string>
    const khzOf: string -> Option<nat>
    ghost const base: CpuMap
    ghost var onFile: CpuMap  // what the last save that worked wrote, until everything is restored

    constructor (host: Host, khzOf: string -> Option<nat>)
      requires AllComplete(host.sysfs) && DiskTruthful(host.sysfs, host.disk)
      ensures Valid() && this.host == host && this.khzOf == khzOf && base == host.sysfs
      ensures Saved() && originalSettings == None
    {
      this.host, this.khzOf := host, khzOf;
      originalSettings, stateFile := None, None;
      base, onFile := host.sysfs, map[];
    }

    function Memory(): CpuMap
      reads this
    {
      if originalSettings.Some? then originalSettings.value else map[]
    }

    // Every record is on file.
    ghost predicate Saved()
      reads this
    {
      onFile == Memory()
    }

    // Between calls: what differs is in memory, with its first values, and what was saved is in the state file.
    ghost predicate Valid()
      reads this, host
    {
      && AllComplete(base) && DiskTruthful(base, host.disk)
      && Truthful(base, Memory()) && Covers(base, host.sysfs, Memory())
      && (originalSettings.None? ==> stateFile.None?)
      && OnFile(stateFile, host.disk, onFile) && onFile.Keys <= Memory().Keys
    }

    // Sets both limits of a CPU, in the order the kernel lets through.
    method PinCpu(cpu: int, khz: nat) returns (ok: bool)
      modifies host
      ensures host.disk == old(host.disk) && Elsewhere(old(host.sysfs), host.sysfs, cpu)
      ensures OnlyTouches(old(host.history), host.history, old(host.sysfs), host.disk, cpu)
      ensures ok ==> cpu in host.sysfs && host.sysfs[cpu] == Settings(old(host.sysfs)[cpu].governor, khz, khz)
      ensures StrictKernel(host.env) && cpu in host.sysfs ==>
                (ok <==> khz <= old(host.sysfs)[cpu].max || old(host.sysfs)[cpu].min <= khz)
      ensures StrictKernel(host.env) && Ordered(old(host.sysfs)) ==> Ordered(host.sysfs)
    {
      ok := host.WriteCpu(cpu, ScalingMin(khz));
      if !ok {
        ok := host.WriteCpu(cpu, ScalingMax(khz));
        if ok {
          ok := host.WriteCpu(cpu, ScalingMin(khz));
        }
      } else {
        ok := host.WriteCpu(cpu, ScalingMax(khz));
      }
    }

    // Records every CPU not seen before, as it is now.
    method CaptureNew(cpus: seq<int>) returns (captured: bool)
      requires Valid()
      modifies `originalSettings
      ensures originalSettings.Some? && Truthful(base, Memory())
      ensures Memory().Keys == (set c | c in cpus) + old(Memory()).Keys
      ensures !captured ==> Memory() == old(Memory())
    {
      var recorded := if originalSettings.Some? then originalSettings.value else map[];
      captured := false;
      var i := 0;
      while i < |cpus|
        invariant 0 <= i <= |cpus| && originalSettings == old(originalSettings)
        invariant Truthful(base, recorded)
        invariant recorded.Keys == (set c | c in cpus[..i]) + old(Memory()).Keys
        invariant !captured ==> recorded == old(Memory())
      {
        assert cpus[..i + 1] == cpus[..i] + [cpus[i]];
        if cpus[i] !in recorded {
          recorded := recorded[cpus[i] := host.Capture(cpus[i])];
          captured := true;
        }
        i := i + 1;
      }
      originalSettings := Some(recorded);
    }

    // Writes the new state file before it removes the previous one.
    method RefreshStateFile()
      requires originalSettings.Some? && DiskTruthful(base, host.disk)
      requires Truthful(base, Memory()) && Covers(base, host.sysfs, Memory())
      requires OnFile(stateFile, host.disk, onFile) && onFile.Keys <= Memory().Keys
      modifies `stateFile, `onFile, host
      ensures host.sysfs == old(host.sysfs) && DiskTruthful(base, host.disk)
      ensures OnFile(stateFile, host.disk, onFile) && onFile.Keys <= Memory().Keys && old(onFile).Keys <= onFile.Keys
      ensures host.disk == Refreshed(old(host.disk), host.env, old(host.clock), old(stateFile), Memory())
      ensures GuardedSince(base, Memory(), Saved(), Start(old(host.history), old(onFile)), host.history)
      ensures stateFile == SavedAt(host.env, old(host.clock), old(stateFile))
      ensures AlwaysSaves(host.env) ==> Saved()
    {
      ghost var start := Start(host.history, onFile);
      var path := host.SaveState(originalSettings.value);
      var previous := stateFile;
      if path.Some? {
        onFile := originalSettings.value;
        stateFile := path;
      }
      MomentGuarded(start, start.past);
      if path.Some? && previous.Some? && previous != path {
        ghost var history := host.history;
        var _ := host.RemoveStateFile(previous.value);
        MomentGuarded(start, history);
      }
    }

    // The latest moment is guarded by the state file.
    lemma MomentGuarded(start: Start, before: seq<Moment>)
      requires Covers(base, host.sysfs, Memory()) && DiskTruthful(base, host.disk)
      requires OnFile(stateFile, host.disk, onFile) && start.backup.Keys <= onFile.Keys
      requires GuardedSince(base, Memory(), Saved(), start, before) && host.history == before + [Moment(host.sysfs, host.disk)]
      ensures GuardedSince(base, Memory(), Saved(), start, host.history)
    {
      FileGuards(base, Memory(), onFile, stateFile, start.backup, Moment(host.sysfs, host.disk));
      GuardedOneMore(base, Memory(), Saved(), start, before, Moment(host.sysfs, host.disk));
    }

    // A machine on which every recorded CPU may be touched without losing anything.
    ghost predicate Armed(cpus: seq<int>, start: Start)
      reads this, host
    {
      && Valid() && GuardedSince(base, Memory(), Saved(), start, host.history) && start.backup.Keys <= onFile.Keys
      && forall c :: c in cpus ==> c in Memory()
    }

    method SetGovernor(cpu: int, governor: string, ghost start: Start) returns (ok: bool)
      requires Armed([cpu], start)
      modifies host
      ensures Armed([cpu], start) && host.disk == old(host.disk) && Elsewhere(old(host.sysfs), host.sysfs, cpu)
      ensures ok ==> cpu in host.sysfs && host.sysfs[cpu] == old(host.sysfs)[cpu].(governor := governor)
      ensures StrictKernel(host.env) ==> (ok <==> cpu in host.sysfs)
      ensures StrictKernel(host.env) && Ordered(old(host.sysfs)) ==> Ordered(host.sysfs)
    {
      ok := host.WriteCpu(cpu, Governor(governor));
      assert cpu in [cpu];
      TouchStaysGuarded(base, Memory(), onFile, stateFile, start, old(host.history), host.history,
                        old(host.sysfs), host.disk, cpu);
    }

    method SetGovernors(cpus: seq<int>, governor: string, ghost start: Start) returns (r: Option<ApplyError>)
      requires Armed(cpus, start)
      modifies host
      ensures Armed(cpus, start) && host.disk == old(host.disk)
      ensures r.None? ==> (forall c :: c in cpus ==> c in host.sysfs) && host.sysfs == Governed(old(host.sysfs), cpus, governor)
      ensures r.Some? ==> r.value.GovernorRefused? && r.value.cpu in cpus
      ensures StrictKernel(host.env) && (forall c :: c in cpus ==> c in host.sysfs) ==> r.None?
      ensures SameOutside(cpus, old(host.sysfs), host.sysfs)
      ensures StrictKernel(host.env) && Ordered(old(host.sysfs)) ==> Ordered(host.sysfs)
    {
      var i := 0;
      while i < |cpus|
        invariant 0 <= i <= |cpus|
        invariant Armed(cpus, start) && host.disk == old(host.disk)
        invariant StrictKernel(host.env) && Ordered(old(host.sysfs)) ==> Ordered(host.sysfs)
        invariant forall c :: c in cpus[..i] ==> c in host.sysfs
        invariant host.sysfs == Governed(old(host.sysfs), cpus[..i], governor)
      {
        var cpu := cpus[i];
        assert cpus[..i + 1] == cpus[..i] + [cpu];
        label Before:
        var ok := SetGovernor(cpu, governor, start);
        if !ok {
          return Some(GovernorRefused(cpu));
        }
        OneUpdate(old@Before(host.sysfs), host.sysfs, cpu);
        GovernedSnoc(old(host.sysfs), cpus[..i], cpu, governor);
        i := i + 1;
      }
      assert cpus[..i] == cpus;
      return None;
    }

    method SetFrequency(cpu: int, frequency: Frequency, ghost start: Start) returns (r: Option<ApplyError>)
      requires Armed([cpu], start) && (frequency.Max? || frequency.Khz?)
      modifies host
      ensures Armed([cpu], start) && host.disk == old(host.disk) && Elsewhere(old(host.sysfs), host.sysfs, cpu)
      ensures r.None? ==>
                && cpu in host.sysfs && InRange(frequency, host.bounds, cpu)
                && var khz := Target(frequency, host.bounds, cpu);
                   host.sysfs == old(host.sysfs)[cpu := Settings(old(host.sysfs)[cpu].governor, khz, khz)]
      ensures r.None? ==>
                && cpu in host.sysfs && cpu in host.bounds && host.bounds[cpu].0 <= host.sysfs[cpu].min <= host.bounds[cpu].1
                && host.sysfs[cpu].min == host.sysfs[cpu].max == (if frequency.Khz? then frequency.khz else host.bounds[cpu].1)
      ensures r.Some? ==> forall governor :: ErrorFits(r.value, Request(frequency, governor), [cpu], host.bounds)
      ensures r.Some? && StrictKernel(host.env) && cpu in host.sysfs && InRange(frequency, host.bounds, cpu) ==>
                old(host.sysfs)[cpu].min > old(host.sysfs)[cpu].max
      ensures StrictKernel(host.env) && Ordered(old(host.sysfs)) ==> Ordered(host.sysfs)
    {
      if cpu !in host.bounds {
        return Some(BoundsUnknown(cpu));
      }
      var khz := if frequency.Max? then host.bounds[cpu].1 else frequency.khz;
      if khz < host.bounds[cpu].0 || khz > host.bounds[cpu].1 {
        return Some(OutOfRange(cpu));
      }
      var ok := PinCpu(cpu, khz);
      assert cpu in [cpu];
      TouchStaysGuarded(base, Memory(), onFile, stateFile, start, old(host.history), host.history,
                        old(host.sysfs), host.disk, cpu);
      if ok {
        OneUpdate(old(host.sysfs), host.sysfs, cpu);
      }
      return if ok then None else Some(FrequencyRefused(cpu));
    }

    method SetFrequencies(cpus: seq<int>, frequency: Frequency, ghost start: Start) returns (r: Option<ApplyError>)
      requires Armed(cpus, start) && (frequency.Max? || frequency.Khz?)
      modifies host
      ensures Armed(cpus, start) && host.disk == old(host.disk)
      ensures r.None? ==> forall c :: c in cpus ==>
                && c in host.sysfs && c in host.bounds && host.sysfs[c].governor == old(host.sysfs)[c].governor
                && host.sysfs[c].min == host.sysfs[c].max == (if frequency.Khz? then frequency.khz else host.bounds[c].1)
                && host.bounds[c].0 <= host.sysfs[c].min <= host.bounds[c].1
      ensures r.Some? ==> forall governor :: ErrorFits(r.value, Request(frequency, governor), cpus, host.bounds)
      ensures r.None? ==> AllInRange(cpus, old(host.sysfs), frequency, host.bounds)
      ensures r.None? ==> host.sysfs == Pinned(old(host.sysfs), cpus, frequency, host.bounds)
      ensures StrictKernel(host.env) && Ordered(old(host.sysfs)) && AllInRange(cpus, old(host.sysfs), frequency, host.bounds) ==>
                r.None?
      ensures SameOutside(cpus, old(host.sysfs), host.sysfs)
      ensures StrictKernel(host.env) && Ordered(old(host.sysfs)) ==> Ordered(host.sysfs)
    {
      var i := 0;
      while i < |cpus|
        invariant 0 <= i <= |cpus|
        invariant Armed(cpus, start) && host.disk == old(host.disk)
        invariant StrictKernel(host.env) && Ordered(old(host.sysfs)) ==> Ordered(host.sysfs)
        invariant AllInRange(cpus[..i], old(host.sysfs), frequency, host.bounds)
        invariant host.sysfs == Pinned(old(host.sysfs), cpus[..i], frequency, host.bounds)
      {
        var cpu := cpus[i];
        assert cpus[..i + 1] == cpus[..i] + [cpu];
        r := SetFrequency(cpu, frequency, start);
        if r.Some? {
          if StrictKernel(host.env) && Ordered(old(host.sysfs)) {
            PinnedStaysOrdered(old(host.sysfs), cpus[..i], frequency, host.bounds);
          }
          return;
        }
        PinnedSnoc(old(host.sysfs), cpus[..i], cpu, frequency, host.bounds);
        i := i + 1;
      }
      assert cpus[..i] == cpus;
      return None;
    }

    // The part of Apply after the capture.
    method Change(config: Request, cpus: seq<int>, ghost start: Start) returns (r: Option<ApplyError>)
      requires Armed(cpus, start)
      modifies host
      ensures Armed(cpus, start) && SameOutside(cpus, old(host.sysfs), host.sysfs) && host.disk == old(host.disk)
      ensures StrictKernel(host.env) && Ordered(old(host.sysfs)) ==> Ordered(host.sysfs)
      ensures r.Some? ==> ErrorFits(r.value, config, cpus, host.bounds)
      ensures r.None? ==> Feasible(config, cpus, old(host.sysfs), host.bounds)
      ensures r.None? ==> host.sysfs == Applied(config, cpus, old(host.sysfs), host.bounds)
      ensures StrictKernel(host.env) && Ordered(old(host.sysfs)) && Feasible(config, cpus, old(host.sysfs), host.bounds) ==> r.None?
    {
      if config.frequency.Unparsable? {
        return Some(BadFrequency);
      }
      if config.governor != "" {
        r := SetGovernors(cpus, config.governor, start);
        if r.Some? {
          return;
        }
      }
      if !config.frequency.Unchanged? {
        GovernedStaysOrdered(old(host.sysfs), cpus, config.governor);
        r := SetFrequencies(cpus, config.frequency, start);
        return;
      }
      return None;
    }

    method Apply(config: Option<Config>, requested: seq<int>) returns (r: Option<ApplyError>)
      requires Valid()
      modifies this, host
      ensures Valid() && GuardedSince(base, Memory(), Saved(), Start(old(host.history), old(onFile)), host.history)
      ensures AlwaysSaves(host.env) && old(Saved()) ==> Saved()
      ensures old(onFile).Keys <= onFile.Keys
      ensures StrictKernel(host.env) && Ordered(old(host.sysfs)) ==> Ordered(host.sysfs)
      ensures AlwaysRemoves(host.env) ==> OtherFiles(host.disk, stateFile) <= OtherFiles(old(host.disk), old(stateFile))
      ensures config.None? ==> r.None? && host.sysfs == old(host.sysfs) && Memory() == old(Memory())
      ensures config.Some? && requested == [] && host.online.None? ==>
                r == Some(OnlineUnknown) && host.sysfs == old(host.sysfs) && Memory() == old(Memory())
      ensures config.Some? && (requested != [] || host.online.Some?) ==>
                var cpus := if requested != [] then requested else host.online.value;
                var request := Request(Classify(khzOf, config.value.frequency), config.value.governor);
                && Memory().Keys == (set c | c in cpus) + old(Memory()).Keys
                && SameOutside(cpus, old(host.sysfs), host.sysfs)
                && (r.Some? ==> ErrorFits(r.value, request, cpus, host.bounds))
                && (r.None? ==> Feasible(request, cpus, old(host.sysfs), host.bounds))
                && (r.None? ==> host.sysfs == Applied(request, cpus, old(host.sysfs), host.bounds))
                && (r.None? ==> forall c :: c in cpus && c in host.sysfs ==>
                      host.sysfs[c].governor == if config.value.governor != "" then config.value.governor else old(host.sysfs)[c].governor)
                && (r.None? && request.frequency.Khz? ==> forall c :: c in cpus ==>
                      c in host.sysfs && host.sysfs[c].min == host.sysfs[c].max == request.frequency.khz)
                && (r.None? && request.frequency.Max? ==> forall c :: c in cpus ==>
                      c in host.sysfs && c in host.bounds && host.sysfs[c].min == host.sysfs[c].max == host.bounds[c].1)
                && (r.None? && request.frequency.Unchanged? ==> forall c :: c in cpus && c in host.sysfs ==>
                      host.sysfs[c].min == old(host.sysfs)[c].min && host.sysfs[c].max == old(host.sysfs)[c].max)
                && (StrictKernel(host.env) && Ordered(old(host.sysfs)) && Feasible(request, cpus, old(host.sysfs), host.bounds) ==>
                      r.None?)
    {
      if config.None? {
        return None;
      }
      var cpus := requested;
      if cpus == [] {
        if host.online.None? {
          return Some(OnlineUnknown);
        }
        cpus := host.online.value;
      }
      var request := Request(Classify(khzOf, config.value.frequency), config.value.governor);
      r := ApplyTo(request, cpus);
      if r.None? {
        forall c | c in host.sysfs { AppliedMeans(request, cpus, old(host.sysfs), host.bounds, c); }
      }
    }

    // Capture, save, change.
    method ApplyTo(request: Request, cpus: seq<int>) returns (r: Option<ApplyError>)
      requires Valid()
      modifies this, host
      ensures Valid() && GuardedSince(base, Memory(), Saved(), Start(old(host.history), old(onFile)), host.history)
      ensures AlwaysSaves(host.env) && old(Saved()) ==> Saved()
      ensures old(onFile).Keys <= onFile.Keys
      ensures AlwaysRemoves(host.env) ==> OtherFiles(host.disk, stateFile) <= OtherFiles(old(host.disk), old(stateFile))
      ensures StrictKernel(host.env) && Ordered(old(host.sysfs)) ==> Ordered(host.sysfs)
      ensures Memory().Keys == (set c | c in cpus) + old(Memory()).Keys
      ensures SameOutside(cpus, old(host.sysfs), host.sysfs)
      ensures r.Some? ==> ErrorFits(r.value, request, cpus, host.bounds)
      ensures r.None? ==> Feasible(request, cpus, old(host.sysfs), host.bounds)
      ensures r.None? ==> host.sysfs == Applied(request, cpus, old(host.sysfs), host.bounds)
      ensures StrictKernel(host.env) && Ordered(old(host.sysfs)) && Feasible(request, cpus, old(host.sysfs), host.bounds) ==> r.None?
    {
      ghost var start := Start(host.history, onFile);
      var captured := CaptureNew(cpus);
      if captured {
        if AlwaysRemoves(host.env) { RefreshedIsTidy(host.disk, host.env, host.clock, stateFile, Memory()); }
        RefreshStateFile();
      }
      assert Armed(cpus, start);
      r := Change(request, cpus, start);
    }

    /* Restore. */

    method RestoreOne(cpu: int, ghost start: Start) returns (ok: bool)
      requires Armed([], start) && cpu in Memory()
      modifies host
      ensures Armed([], start) && host.disk == old(host.disk) && Elsewhere(old(host.sysfs), host.sysfs, cpu)
      ensures cpu in base && ok ==> host.sysfs[cpu] == base[cpu]
      ensures cpu !in base || AcceptsAll(host.env) ==> ok
      ensures StrictKernel(host.env) && Ordered(base) && Ordered(old(host.sysfs)) && cpu in base ==>
                && (ok <==> old(host.sysfs)[cpu].min <= base[cpu].max)
                && host.sysfs[cpu].min == base[cpu].min <= host.sysfs[cpu].max
    {
      if cpu in base {
        if base[cpu].min <= base[cpu].max && host.sysfs[cpu].min <= host.sysfs[cpu].max {
          StrictSettlesIff(host.sysfs[cpu], base[cpu]);
        }
      }
      ok := host.RestoreCpu(cpu, originalSettings.value[cpu]);
      TouchStaysGuarded(base, Memory(), onFile, stateFile, start, old(host.history), host.history,
                        old(host.sysfs), host.disk, cpu);
    }

    method RestoreCpus(ghost start: Start) returns (ok: bool)
      requires originalSettings.Some? && Armed([], start)
      modifies host
      ensures Armed([], start) && host.disk == old(host.disk)
      ensures ok ==> host.sysfs == base
      ensures AcceptsAll(host.env) ==> ok
      ensures StrictKernel(host.env) && Ordered(base) && Ordered(old(host.sysfs)) ==>
                && (ok <==> Restorable(base, Memory(), old(host.sysfs)))
                && Ordered(host.sysfs) && Restorable(base, Memory(), host.sysfs)
    {
      ok := true;
      var cpus := originalSettings.value.Keys;
      while cpus != {}
        invariant cpus <= Memory().Keys && Armed([], start) && host.disk == old(host.disk)
        invariant ok ==> forall c :: c in base && c !in cpus ==> host.sysfs[c] == base[c]
        invariant AcceptsAll(host.env) ==> ok
        invariant StrictKernel(host.env) && Ordered(base) && Ordered(old(host.sysfs)) ==>
                    Progress(base, Memory(), cpus, old(host.sysfs), host.sysfs, ok)
        decreases |cpus|
      {
        var cpu := PickOne(cpus);
        label Before:
        var done := RestoreOne(cpu, start);
        if StrictKernel(host.env) && Ordered(base) && Ordered(old(host.sysfs)) {
          ProgressStep(base, Memory(), cpus, cpu, old(host.sysfs), old@Before(host.sysfs), host.sysfs, ok, done);
        }
        ok := ok && done;
        cpus := cpus - {cpu};
      }
      assert Memory() - cpus == Memory();
      if ok {
        SameKeysSameMap(base, host.sysfs);
      }
    }

    method RestoreSettings() returns (ok: bool)
      requires Valid()
      modifies this, host
      ensures Valid() && GuardedSince(base, old(Memory()), old(Saved()), Start(old(host.history), old(onFile)), host.history)
      ensures ok ==> host.sysfs == base && originalSettings.None? && stateFile.None? && onFile == map[]
      ensures ok && old(onFile) != map[] ==> |host.history| > |old(host.history)| && host.history[|host.history| - 1].sysfs == base
      ensures ok && AlwaysRemoves(host.env) ==> host.disk == WithoutFile(old(host.disk), old(stateFile))
      ensures !ok ==> originalSettings == old(originalSettings) && stateFile == old(stateFile) && onFile == old(onFile)
      ensures !ok ==> host.disk == old(host.disk)
      ensures AlwaysRemoves(host.env) ==> OtherFiles(host.disk, stateFile) <= OtherFiles(old(host.disk), old(stateFile))
      ensures AcceptsAll(host.env) ==> ok
      ensures StrictKernel(host.env) && Ordered(base) && Ordered(old(host.sysfs)) ==>
                && (ok <==> Restorable(base, old(Memory()), old(host.sysfs)))
                && Ordered(host.sysfs) && Restorable(base, old(Memory()), host.sysfs)
    {
      if originalSettings.None? {
        SameKeysSameMap(base, host.sysfs);
        return true;
      }
      ok := RestoreCpus(Start(host.history, onFile));
      if !ok {
        return;
      }
      if stateFile.Some? {
        var _ := host.RemoveStateFile(stateFile.value);
        stateFile := None;
      }
      originalSettings := None;
      onFile := map[];
    }

    method Restore() returns (ok: bool)
      requires Valid()
      modifies this, host
      ensures Valid() && GuardedSince(base, old(Memory()), old(Saved()), Start(old(host.history), old(onFile)), host.history)
      ensures AlwaysRemoves(host.env) ==> OtherFiles(host.disk, stateFile) <= OtherFiles(old(host.disk), old(stateFile))
      ensures ok ==> host.sysfs == base
    {
      ok := RestoreSettings();
    }

    // Restore and, where that was refused, the one that Stop makes: two calls bring everything back.
    method RestoreThenStop() returns (first: bool)
      requires Valid() && StrictKernel(host.env) && Ordered(base) && Ordered(host.sysfs)
      modifies this, host
      ensures Valid() && host.sysfs == base && originalSettings.None?
      ensures AlwaysRemoves(host.env) ==> OtherFiles(host.disk, stateFile) <= OtherFiles(old(host.disk), old(stateFile))
      ensures first <==> Restorable(base, old(Memory()), old(host.sysfs))
    {
      first := RestoreSettings();
      if originalSettings.Some? {
        var second := RestoreSettings();
        assert second;
      }
    }

    // Any number of applies and restores, whatever each one meets. Where saves work, no point of the run is
    // unsafe to crash at; where they do not, what was saved before stays on file until all of it is restored.
    method Run(calls: seq<Call>)
      requires Valid()
      modifies this, host
      ensures Valid()
      ensures AlwaysSaves(host.env) && old(Saved()) ==> SafeSince(base, old(host.history), host.history)
      ensures BackedSince(base, old(onFile), old(host.history), host.history)
      ensures AlwaysRemoves(host.env) ==> OtherFiles(host.disk, stateFile) <= OtherFiles(old(host.disk), old(stateFile))
      ensures StrictKernel(host.env) && Ordered(base) && Ordered(old(host.sysfs)) ==> Ordered(host.sysfs)
    {
      var i := 0;
      while i < |calls|
        invariant Valid()
        invariant AlwaysSaves(host.env) && old(Saved()) ==> Saved() && SafeSince(base, old(host.history), host.history)
        invariant BackedSince(base, old(onFile), old(host.history), host.history)
        invariant StillBacked(base, old(onFile), onFile, |old(host.history)|, host.history)
        invariant AlwaysRemoves(host.env) ==> OtherFiles(host.disk, stateFile) <= OtherFiles(old(host.disk), old(stateFile))
        invariant StrictKernel(host.env) && Ordered(base) && Ordered(old(host.sysfs)) ==> Ordered(host.sysfs)
      {
        Step(calls[i], old(onFile), old(host.history));
        i := i + 1;
      }
    }

    method Step(call: Call, ghost backup: CpuMap, ghost past: seq<Moment>)
      requires Valid() && BackedSince(base, backup, past, host.history)
      requires StillBacked(base, backup, onFile, |past|, host.history)
      modifies this, host
      ensures Valid() && BackedSince(base, backup, past, host.history)
      ensures StillBacked(base, backup, onFile, |past|, host.history)
      ensures AlwaysSaves(host.env) && old(Saved()) ==> Saved()
      ensures AlwaysSaves(host.env) && old(Saved()) && SafeSince(base, past, old(host.history)) ==> SafeSince(base, past, host.history)
      ensures AlwaysRemoves(host.env) ==> OtherFiles(host.disk, stateFile) <= OtherFiles(old(host.disk), old(stateFile))
      ensures StrictKernel(host.env) && Ordered(base) && Ordered(old(host.sysfs)) ==> Ordered(host.sysfs)
    {
      ghost var start, saved, memory := Start(host.history, onFile), Saved(), Memory();
      match call {
        case ApplyCall(config, cpus) =>
          var _ := Apply(config, cpus);
          saved, memory := Saved(), Memory();
        case RestoreCall =>
          var _ := RestoreSettings();
      }
      BackedOnceMore(base, memory, saved, backup, past, start, host.history);
      StillBackedLater(base, backup, start, onFile, |past|, host.history);
      if AlwaysSaves(host.env) && old(Saved()) && SafeSince(base, past, start.past) {
        SafeOnceMore(base, memory, past, start, host.history);
      }
    }

    // After any run, however its applies ended, two calls suffice.
    method RunThenRestore(calls: seq<Call>) returns (first: bool)
      requires Valid() && StrictKernel(host.env) && Ordered(base) && Ordered(host.sysfs)
      modifies this, host
      ensures Valid() && host.sysfs == base && originalSettings.None?
      ensures AlwaysRemoves(host.env) ==> host.disk.Keys <= OtherFiles(old(host.disk), old(stateFile))
    {
      Run(calls);
      first := RestoreThenStop();
    }
  }

  // A manager that has pinned a fresh machine's CPU at a hardware maximum above its first upper limit.
  method PinHigh(cpu: int, first: Settings, khz: nat, env: Environment, khzOf: string -> Option<nat>)
      returns (host: Host, manager: Manager)
    requires StrictKernel(env) && Complete(first) && first.min <= first.max < khz
    ensures fresh(host) && fresh(manager) && manager.host == host && host.env == env && manager.Valid()
    ensures manager.base == map[cpu := first] && cpu in manager.Memory()
    ensures cpu in host.sysfs && host.sysfs[cpu].min == khz && Ordered(host.sysfs)
  {
    host := new Host(env, map[cpu := (first.min, khz)], None, map[cpu := first], map[]);
    manager := new Manager(host, khzOf);
    TrimKeepsMax("MAX");
    assert Classify(khzOf, "MAX") == Max;
    var _ := manager.Apply(Some(Config("MAX", "")), [cpu]);
  }

  // Where one Restore is not enough: a CPU pinned above its first upper limit on a strict kernel. The first
  // call is refused that limit, the second one gets it.
  method PinnedHighTakesTwo(cpu: int, first: Settings, khz: nat, env: Environment, khzOf: string -> Option<nat>)
      returns (host: Host, one: bool)
    requires StrictKernel(env) && Complete(first) && first.min <= first.max < khz
    ensures !one && host.sysfs == map[cpu := first]
  {
    var manager;
    host, manager := PinHigh(cpu, first, khz, env, khzOf);
    one := manager.RestoreThenStop();
  }
}
