/** The scan loop reading the kernel maps: what the tracker compares on the BPF path (daemon/src/main.rs,
    daemon/src/bpf_cpu_tracker.rs). The view is that of one PID; all others enter as `ForgetOther`. */
module BpfPath {
  import opened Base
  import opened Tracker
  import opened History
  import S = Sched

  datatype Joint = Joint(sched: S.State, slot: Slot)

  datatype Move =
    | Switch(cpu: nat, next: u32, startTime: u64, at: u64)
    | Visit(clear: bool)
    | Unlisted
    | ForgetOther(other: u32)

  datatype Reading = Reading(starttime: u64, cpuNs: u64)

  /** Both map lookups have to succeed. */
  function Read(m: S.Maps, pid: u32): Option<Reading> {
    if pid in m.runtime && pid in m.birth then Some(Reading(m.birth[pid], m.runtime[pid])) else None
  }

  predicate Enabled(pid: u32, j: Joint, move: Move) {
    match move
    case Switch(cpu, next, startTime, at) => S.Enabled(j.sched, S.Switch(cpu, next, startTime, at))
    case ForgetOther(other) => other != pid
    case _ => true
  }

  function Next(cfg: Config, pid: u32, j: Joint, move: Move): Joint
    requires Enabled(pid, j, move)
  {
    match move
    case Switch(cpu, next, startTime, at) => j.(sched := S.Next(j.sched, S.Switch(cpu, next, startTime, at)))
    case Visit(clear) =>
      var r := Read(j.sched.maps, pid);
      if r.Some? then j.(slot := SlotStep(cfg, pid, j.slot, Seen(r.value.starttime, r.value.cpuNs, clear)))
      else Joint(S.Next(j.sched, S.Forget(pid)), SlotStep(cfg, pid, j.slot, Gone))
    case Unlisted => j.(slot := SlotStep(cfg, pid, j.slot, Unseen))
    case ForgetOther(other) => j.(sched := S.Next(j.sched, S.Forget(other)))
  }

  function After(cfg: Config, pid: u32, j: Joint, moves: seq<Move>): Option<Joint> {
    if |moves| == 0 then Some(j)
    else
      var before := After(cfg, pid, j, moves[..|moves| - 1]);
      var move := moves[|moves| - 1];
      if before.Some? && Enabled(pid, before.value, move) then Some(Next(cfg, pid, before.value, move)) else None
  }

  /** The group's on-CPU time fits the 64-bit counter (some 584 years of it). */
  predicate Fits(pid: u32, j: Joint) { S.Of(j.sched.done, pid) < U64_LIMIT }

  /** The snapshot the tracker holds was read from the very entries the maps hold now. */
  predicate Linked(pid: u32, j: Joint) {
    j.slot.snap.Some? ==>
      var r := Read(j.sched.maps, pid);
      r.Some? && j.slot.snap.value.starttime == r.value.starttime && j.slot.snap.value.cpuNs <= r.value.cpuNs
  }

  predicate Inv(pid: u32, j: Joint) { S.Inv(j.sched, pid) && Linked(pid, j) }

  /** Between forgets the birth entry is constant and the runtime entry never goes back. */
  lemma {:induction false} EntriesOnlyGrow(s: S.State, step: S.Step, pid: u32)
    requires pid != 0 && step.Switch? && S.Enabled(s, step) && S.Inv(s, pid)
    requires S.Of(S.Next(s, step).done, pid) < U64_LIMIT
    ensures var m, m' := s.maps, S.Next(s, step).maps;
            && (pid in m.birth ==> pid in m'.birth && m'.birth[pid] == m.birth[pid])
            && (pid in m.runtime ==> pid in m'.runtime && m'.runtime[pid] >= m.runtime[pid])
  {
    S.BooksStep(s, step, pid);
  }

  lemma {:induction false} StepInv(cfg: Config, pid: u32, j: Joint, move: Move)
    requires pid != 0 && Enabled(pid, j, move) && Inv(pid, j) && Fits(pid, Next(cfg, pid, j, move))
    ensures Inv(pid, Next(cfg, pid, j, move))
    ensures Read(j.sched.maps, pid).Some? ==>
            var r, r' := Read(j.sched.maps, pid), Read(Next(cfg, pid, j, move).sched.maps, pid);
            r'.Some? && r'.value.starttime == r.value.starttime && r'.value.cpuNs >= r.value.cpuNs
  {
    hide S.Next, S.Inv, S.Enabled;
    match move
    case Switch(cpu, next, startTime, at) =>
      var step := S.Switch(cpu, next, startTime, at);
      S.StepInv(j.sched, step, pid);
      EntriesOnlyGrow(j.sched, step, pid);
    case Visit(_) => ForgetOk(j.sched, pid, pid);
    case Unlisted =>
    case ForgetOther(other) => ForgetOk(j.sched, pid, other);
  }

  lemma {:induction false} ForgetOk(s: S.State, pid: u32, other: u32)
    requires pid != 0 && S.Inv(s, pid)
    ensures S.Enabled(s, S.Forget(other)) && S.Inv(S.Next(s, S.Forget(other)), pid)
    ensures pid != other ==> Read(S.Next(s, S.Forget(other)).maps, pid) == Read(s.maps, pid)
  {
    S.StepInv(s, S.Forget(other), pid);
  }

  ghost predicate FitsThroughout(cfg: Config, pid: u32, j: Joint, moves: seq<Move>) {
    forall n | 0 <= n <= |moves| ::
      After(cfg, pid, j, moves[..n]).Some? ==> Fits(pid, After(cfg, pid, j, moves[..n]).value)
  }

  /** Along any run the link holds, and entries once readable stay readable with the same birth: the daemon never
      forgets a PID it can read. */
  lemma {:induction false} RunInv(cfg: Config, pid: u32, j: Joint, moves: seq<Move>)
    requires pid != 0 && Inv(pid, j) && FitsThroughout(cfg, pid, j, moves)
    ensures var r := After(cfg, pid, j, moves);
            r.Some? ==>
            && Inv(pid, r.value)
            && (Read(j.sched.maps, pid).Some? ==>
                  var a, b := Read(j.sched.maps, pid), Read(r.value.sched.maps, pid);
                  b.Some? && b.value.starttime == a.value.starttime && b.value.cpuNs >= a.value.cpuNs)
  {
    hide Next, Enabled, Inv, Fits, Read;
    if |moves| > 0 && After(cfg, pid, j, moves).Some? {
      var n := |moves| - 1;
      assert moves[..|moves|] == moves;
      assert forall m | 0 <= m <= n :: moves[..n][..m] == moves[..m];
      RunInv(cfg, pid, j, moves[..n]);
      StepInv(cfg, pid, After(cfg, pid, j, moves[..n]).value, moves[n]);
    }
  }

  function Start(now: u64, tgids: seq<u32>): Joint { Joint(S.Load(now, tgids), EMPTY_SLOT) }

  /** On every run the tracker never compares snapshots across a forget: whenever it has a previous snapshot the
      delta is the exact difference and the start times agree, so the PID-reuse guard never fires on this path. */
  lemma {:induction false} DeltaIsExact(cfg: Config, pid: u32, now: u64, tgids: seq<u32>, moves: seq<Move>)
    requires pid != 0 && FitsThroughout(cfg, pid, Start(now, tgids), moves)
    ensures var j := After(cfg, pid, Start(now, tgids), moves);
            j.Some? && j.value.slot.snap.Some? ==>
            var r := Read(j.value.sched.maps, pid);
            r.Some?
            && j.value.slot.snap.value.starttime == r.value.starttime
            && DeltaOf(j.value.slot, ProcSnapshot(pid, r.value.starttime, r.value.cpuNs))
               == r.value.cpuNs - j.value.slot.snap.value.cpuNs
  {
    hide S.Inv, S.Load, Fits, After;
    S.LoadInv(now, tgids, pid);
    RunInv(cfg, pid, Start(now, tgids), moves);
  }

  // ---------------------------------------------------------------- what the start time means

  /** Start time of the first task of the group to be switched in since load or the last forget. */
  function FirstStart(steps: seq<S.Step>, tgid: u32): Option<u64> {
    if |steps| == 0 then None
    else
      var before := FirstStart(steps[..|steps| - 1], tgid);
      match steps[|steps| - 1]
      case Forget(t) => if t == tgid then None else before
      case Switch(_, next, startTime, _) => if before.None? && next == tgid then Some(startTime) else before
  }

  /** The birth entry is that first start time, however often the PID has been recycled since. */
  lemma {:induction false} BirthIsFirstStart(now: u64, tgids: seq<u32>, steps: seq<S.Step>, tgid: u32)
    requires tgid != 0
    ensures var s := S.After(S.Load(now, tgids), steps);
            s.Some? ==> FirstStart(steps, tgid)
                        == if tgid in s.value.maps.birth then Some(s.value.maps.birth[tgid]) else None
  {
    if |steps| > 0 {
      BirthIsFirstStart(now, tgids, steps[..|steps| - 1], tgid);
    }
  }

  lemma {:induction false} AfterOne(cfg: Config, pid: u32, j: Joint, moves: seq<Move>, move: Move)
    requires After(cfg, pid, j, moves).Some? && Enabled(pid, After(cfg, pid, j, moves).value, move)
    ensures After(cfg, pid, j, moves + [move]) == Some(Next(cfg, pid, After(cfg, pid, j, moves).value, move))
  {
    hide Next, Enabled;
    assert (moves + [move])[..|moves|] == moves;
  }

  /** PID 7 runs a task born at b1, is visited, is recycled for a task born at b2, and is visited again. */
  function ReuseMoves(b1: u64, b2: u64): seq<Move> {
    [Switch(0, 7, b1, 0)] + [Switch(0, 0, 0, 1)] + [Visit(false)]
    + [Switch(0, 7, b2, 2)] + [Switch(0, 0, 0, 3)] + [Visit(false)]
  }

  /** The first task's life up to the visit. */
  lemma {:induction false} FirstLife(cfg: Config, b1: u64)
    ensures var j := After(cfg, 7, Start(0, [0]), [Switch(0, 7, b1, 0)] + [Switch(0, 0, 0, 1)] + [Visit(false)]);
            && j.Some? && j.value.sched.now == 1 && j.value.sched.cpus == [S.Running(0, 1)]
            && j.value.sched.maps == S.Maps(map[7 := 1], map[7 := 0], map[7 := b1])
            && j.value.slot == Slot(Some(ProcSnapshot(7, b1, 1)), Some(0), None)
  {
    var start := Start(0, [0]);
    var a, b, v := Switch(0, 7, b1, 0), Switch(0, 0, 0, 1), Visit(false);
    assert After(cfg, 7, start, []) == Some(start);
    hide After, CpuNs, WakeupNs, WrapU64;
    AfterOne(cfg, 7, start, [], a);
    assert [] + [a] == [a];
    AfterOne(cfg, 7, start, [a], b);
    AfterOne(cfg, 7, start, [a] + [b], v);
    FirstVisit(cfg);
  }

  /** A PID recycled while the maps still hold it: the second visit still reads the first task's start time, and the
      tracker takes the new process for the old one, one nanosecond of CPU time on. */
  lemma {:induction false} ReuseGoesUnnoticed(cfg: Config, b1: u64, b2: u64)
    requires b1 != b2
    ensures var j := After(cfg, 7, Start(0, [0]), ReuseMoves(b1, b2));
            && j.Some? && Read(j.value.sched.maps, 7) == Some(Reading(b1, 2))
            && j.value.slot.snap == Some(ProcSnapshot(7, b1, 2))
            && (CpuNs(cfg) > 0 ==> j.value.slot.idle == Some(1))
  {
    hide After, CpuNs, WakeupNs, Start, WrapU64;
    var start := Start(0, [0]);
    var life := [Switch(0, 7, b1, 0)] + [Switch(0, 0, 0, 1)] + [Visit(false)];
    var d, e := Switch(0, 7, b2, 2), Switch(0, 0, 0, 3);
    FirstLife(cfg, b1);
    AfterOne(cfg, 7, start, life, d);
    AfterOne(cfg, 7, start, life + [d], e);
    AfterOne(cfg, 7, start, life + [d] + [e], Visit(false));
  }

  lemma FirstVisit(cfg: Config)
    ensures CpuNs(cfg) < U64_MAX
  {
    ThresholdIsNotSentinel(cfg.cpuDeltaThreshold);
  }
}
