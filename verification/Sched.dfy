/** The sched_switch accumulator (daemon/src/bpf/cpu_tracker.bpf.c) against the CPU time tasks really get.

Many CPUs and threads share one start stamp per thread group. A switch is one atomic step and the clock is monotone.
`done` books in full every interval a CPU has completed for a group since load or the last forget; `lost` books what
the accumulator misses of it. */
module Sched {
  import opened Base

  /** The kernel maps. */
  datatype Maps = Maps(runtime: map<u32, u64>, start: map<u32, u64>, birth: map<u32, u64>)

  const NO_MAPS := Maps(map[], map[], map[])

  /** u64 subtraction as the kernel does it. */
  function WrappingSub(a: u64, b: u64): u64 { if a >= b then a - b else a + U64_LIMIT - b }

  function Accounted(m: Maps, prev: u32, now: u64): Maps {
    if prev == 0 || prev !in m.start then m
    else
      var delta := WrappingSub(now, m.start[prev]);
      m.(runtime := m.runtime[prev := if prev in m.runtime then WrapU64(m.runtime[prev] + delta) else delta])
  }

  function Marked(m: Maps, next: u32, startTime: u64, now: u64): Maps {
    if next == 0 then m
    else m.(start := m.start[next := now],
            birth := if next in m.birth then m.birth else m.birth[next := startTime])
  }

  function Forgotten(m: Maps, tgid: u32): Maps {
    Maps(m.runtime - {tgid}, m.start - {tgid}, m.birth - {tgid})
  }

  class BpfMaps {
    var runtime: map<u32, u64>
    var start: map<u32, u64>
    var birth: map<u32, u64>

    ghost function Value(): Maps
      reads this
    {
      Maps(runtime, start, birth)
    }

    constructor ()
      ensures Value() == NO_MAPS
    {
      runtime, start, birth := map[], map[], map[];
    }

    method HandleSchedSwitch(prevTgid: u32, nextTgid: u32, nextStartTime: u64, now: u64)
      modifies this
      ensures Value() == Marked(Accounted(old(Value()), prevTgid, now), nextTgid, nextStartTime, now)
    {
      if prevTgid != 0 {
        if prevTgid in start {
          var delta := if now >= start[prevTgid] then now - start[prevTgid] else now + U64_LIMIT - start[prevTgid];
          if prevTgid in runtime {
            runtime := runtime[prevTgid := WrapU64(runtime[prevTgid] + delta)];
          } else {
            runtime := runtime[prevTgid := delta];
          }
        }
      }
      if nextTgid != 0 {
        start := start[nextTgid := now];
        if nextTgid !in birth {
          birth := birth[nextTgid := nextStartTime];
        }
      }
    }

    method Forget(pid: u32)
      modifies this
      ensures Value() == Forgotten(old(Value()), pid)
    {
      runtime := runtime - {pid};
      start := start - {pid};
      birth := birth - {pid};
    }
  }

  // ---------------------------------------------------------------- what really happens

  /** A CPU has been running a task of this group since then, counted from load or the last forget. */
  datatype Running = Running(tgid: u32, since: u64)

  datatype State = State(now: u64, cpus: seq<Running>, done: map<u32, nat>, lost: map<u32, nat>, maps: Maps)

  datatype Step =
    | Switch(cpu: nat, next: u32, startTime: u64, at: u64)
    | Forget(tgid: u32)

  function Of(m: map<u32, nat>, tgid: u32): nat { if tgid in m then m[tgid] else 0 }

  /** The program loads at an arbitrary instant, with arbitrary tasks on the CPUs. */
  function Load(now: u64, tgids: seq<u32>): State {
    State(now, seq(|tgids|, i requires 0 <= i < |tgids| => Running(tgids[i], now)), map[], map[], NO_MAPS)
  }

  predicate Enabled(s: State, step: Step) {
    step.Switch? ==> step.cpu < |s.cpus| && step.at >= s.now
  }

  /** What the accumulator misses of the interval that ends now. */
  function Missed(s: State, prev: Running, at: u64): nat {
    if prev.tgid == 0 || at < prev.since then 0
    else if prev.tgid !in s.maps.start then at - prev.since
    else SaturatingSub(s.maps.start[prev.tgid], prev.since)
  }

  function Next(s: State, step: Step): State
    requires Enabled(s, step)
  {
    match step
    case Switch(cpu, next, startTime, at) =>
      var prev := s.cpus[cpu];
      State(at, s.cpus[cpu := Running(next, at)],
            s.done[prev.tgid := Of(s.done, prev.tgid) + SaturatingSub(at, prev.since)],
            s.lost[prev.tgid := Of(s.lost, prev.tgid) + Missed(s, prev, at)],
            Marked(Accounted(s.maps, prev.tgid, at), next, startTime, at))
    case Forget(tgid) =>
      State(s.now,
            seq(|s.cpus|, i requires 0 <= i < |s.cpus| =>
              if s.cpus[i].tgid == tgid then Running(tgid, s.now) else s.cpus[i]),
            s.done[tgid := 0], s.lost[tgid := 0], Forgotten(s.maps, tgid))
  }

  function After(s: State, steps: seq<Step>): Option<State> {
    if |steps| == 0 then Some(s)
    else
      var before := After(s, steps[..|steps| - 1]);
      var step := steps[|steps| - 1];
      if before.Some? && Enabled(before.value, step) then Some(Next(before.value, step)) else None
  }

  /** What user space reads, an absent entry counting as nothing. */
  function Runtime(m: Maps, tgid: u32): u64 { if tgid in m.runtime then m.runtime[tgid] else 0 }

  // ---------------------------------------------------------------- the multi-CPU invariant

  /** The shared start stamp is never older than any interval still running for the group. */
  predicate StampOk(s: State, tgid: u32) {
    && (tgid in s.maps.start ==>
          && s.maps.start[tgid] <= s.now
          && forall c | 0 <= c < |s.cpus| && s.cpus[c].tgid == tgid :: s.cpus[c].since <= s.maps.start[tgid])
    && (forall c | 0 <= c < |s.cpus| && s.cpus[c].tgid == tgid :: s.cpus[c].since <= s.now)
  }

  predicate BooksOk(s: State, tgid: u32) {
    && Of(s.lost, tgid) <= Of(s.done, tgid)
    && Runtime(s.maps, tgid) == WrapU64(Of(s.done, tgid) - Of(s.lost, tgid))
  }

  predicate Inv(s: State, tgid: u32) { StampOk(s, tgid) && BooksOk(s, tgid) }

  lemma {:induction false} LoadInv(now: u64, tgids: seq<u32>, tgid: u32)
    ensures Inv(Load(now, tgids), tgid)
  {
  }

  lemma {:induction false} StampStep(s: State, step: Step, tgid: u32)
    requires tgid != 0 && Enabled(s, step) && StampOk(s, tgid)
    ensures StampOk(Next(s, step), tgid)
  {
  }

  lemma MarkedRuntime(m: Maps, next: u32, startTime: u64, now: u64)
    ensures Marked(m, next, startTime, now).runtime == m.runtime
  {
  }

  lemma {:induction false} OwnSwitch(s: State, step: Step, tgid: u32)
    requires tgid != 0 && step.Switch? && Enabled(s, step) && s.cpus[step.cpu].tgid == tgid
    requires StampOk(s, tgid) && BooksOk(s, tgid)
    ensures BooksOk(Next(s, step), tgid)
  {
    hide WrapU64, Marked;
    MarkedRuntime(Accounted(s.maps, tgid, step.at), step.next, step.startTime, step.at);
    if tgid in s.maps.start {
      WrapAdd(Of(s.done, tgid) - Of(s.lost, tgid), step.at - s.maps.start[tgid]);
    }
  }

  lemma {:induction false} BooksStep(s: State, step: Step, tgid: u32)
    requires tgid != 0 && Enabled(s, step) && StampOk(s, tgid) && BooksOk(s, tgid)
    ensures BooksOk(Next(s, step), tgid)
  {
    hide WrapU64, Marked, StampOk;
    if step.Switch? && s.cpus[step.cpu].tgid == tgid {
      OwnSwitch(s, step, tgid);
    } else if step.Switch? {
      MarkedRuntime(Accounted(s.maps, s.cpus[step.cpu].tgid, step.at), step.next, step.startTime, step.at);
    }
  }

  /** A switch on any CPU, or a forget, keeps the stamp fresh and the books straight. */
  lemma {:induction false} StepInv(s: State, step: Step, tgid: u32)
    requires tgid != 0 && Enabled(s, step) && Inv(s, tgid)
    ensures Inv(Next(s, step), tgid)
  {
    hide Next;
    StampStep(s, step, tgid);
    BooksStep(s, step, tgid);
  }

  lemma {:induction false} RunInv(s: State, steps: seq<Step>, tgid: u32)
    requires tgid != 0 && Inv(s, tgid)
    ensures After(s, steps).Some? ==> Inv(After(s, steps).value, tgid)
  {
    hide Inv, Next, Enabled;
    if |steps| > 0 && After(s, steps).Some? {
      RunInv(s, steps[..|steps| - 1], tgid);
      StepInv(After(s, steps[..|steps| - 1]).value, steps[|steps| - 1], tgid);
    }
  }

  // ---------------------------------------------------------------- true on-CPU time

  /** Time the CPUs have spent on the group in intervals that still run at the given instant. */
  function InProgress(cpus: seq<Running>, tgid: u32, now: u64): nat {
    if |cpus| == 0 then 0
    else
      var n := |cpus| - 1;
      InProgress(cpus[..n], tgid, now) + if cpus[n].tgid == tgid then SaturatingSub(now, cpus[n].since) else 0
  }

  function OnCpu(s: State, tgid: u32, now: u64): nat { Of(s.done, tgid) + InProgress(s.cpus, tgid, now) }

  /** CPUs running a task of the group. */
  function Width(cpus: seq<Running>, tgid: u32): nat {
    if |cpus| == 0 then 0
    else Width(cpus[..|cpus| - 1], tgid) + if cpus[|cpus| - 1].tgid == tgid then 1 else 0
  }

  /** `OnCpu` is the true integral: while no CPU switches it grows by one second per second and running CPU. */
  lemma {:induction false} OnCpuGrows(cpus: seq<Running>, tgid: u32, a: u64, b: u64)
    requires a <= b && forall c | 0 <= c < |cpus| && cpus[c].tgid == tgid :: cpus[c].since <= a
    ensures InProgress(cpus, tgid, b) == InProgress(cpus, tgid, a) + (b - a) * Width(cpus, tgid)
  {
    if |cpus| > 0 {
      var n := |cpus| - 1;
      OnCpuGrows(cpus[..n], tgid, a, b);
      if cpus[n].tgid == tgid {
        OneMore(b - a, Width(cpus[..n], tgid));
      }
    }
  }

  lemma OneMore(d: nat, w: nat)
    ensures d * (w + 1) == d * w + d
  {
  }

  lemma {:induction false} InProgressUpdate(cpus: seq<Running>, c: nat, r: Running, tgid: u32, now: u64)
    requires c < |cpus|
    ensures InProgress(cpus[c := r], tgid, now) + (if cpus[c].tgid == tgid then SaturatingSub(now, cpus[c].since) else 0)
            == InProgress(cpus, tgid, now) + if r.tgid == tgid then SaturatingSub(now, r.since) else 0
  {
    var n := |cpus| - 1;
    if c < n {
      InProgressUpdate(cpus[..n], c, r, tgid, now);
      assert cpus[c := r][..n] == cpus[..n][c := r];
    } else {
      assert cpus[c := r][..n] == cpus[..n];
    }
  }

  /** ... and a switch moves time between books but does not create or destroy any. */
  lemma {:induction false} SwitchKeepsOnCpu(s: State, step: Step, tgid: u32)
    requires step.Switch? && Enabled(s, step)
    ensures OnCpu(Next(s, step), tgid, step.at) == OnCpu(s, tgid, step.at)
  {
    InProgressUpdate(s.cpus, step.cpu, Running(step.next, step.at), tgid, step.at);
  }

  /** For any number of CPUs and threads and any interleaving, the counter never exceeds the group's true on-CPU
      time since load or the last forget; it is that time less what was booked as lost, modulo 2^64. */
  lemma {:induction false} NeverOvercounts(now: u64, tgids: seq<u32>, steps: seq<Step>, tgid: u32)
    requires tgid != 0
    ensures var s := After(Load(now, tgids), steps);
            s.Some? ==>
            && Runtime(s.value.maps, tgid) <= OnCpu(s.value, tgid, s.value.now)
            && Of(s.value.lost, tgid) <= Of(s.value.done, tgid)
            && Runtime(s.value.maps, tgid) == WrapU64(Of(s.value.done, tgid) - Of(s.value.lost, tgid))
  {
    hide Load, After;
    LoadInv(now, tgids, tgid);
    RunInv(Load(now, tgids), steps, tgid);
  }

  // ---------------------------------------------------------------- when the count is exact

  /** At most one CPU runs the group. */
  predicate Solo(s: State, tgid: u32) {
    forall c, d | 0 <= c < d < |s.cpus| :: !(s.cpus[c].tgid == tgid && s.cpus[d].tgid == tgid)
  }

  predicate OffCpu(s: State, tgid: u32) { forall c | 0 <= c < |s.cpus| :: s.cpus[c].tgid != tgid }

  /** Nothing is lost so far, and an interval still running began at the stamp. */
  predicate Exact(s: State, tgid: u32) {
    && Of(s.lost, tgid) == 0
    && forall c | 0 <= c < |s.cpus| && s.cpus[c].tgid == tgid ::
         tgid in s.maps.start && s.maps.start[tgid] == s.cpus[c].since
  }

  /** The group never runs on two CPUs at a time and is never forgotten while it runs. */
  ghost predicate SoloRun(s: State, steps: seq<Step>, tgid: u32) {
    forall n | 0 <= n <= |steps| :: After(s, steps[..n]).Some? ==>
      var t := After(s, steps[..n]).value;
      Solo(t, tgid) && (n < |steps| && steps[n] == Forget(tgid) ==> OffCpu(t, tgid))
  }

  lemma {:induction false} StepExact(s: State, step: Step, tgid: u32)
    requires tgid != 0 && Enabled(s, step) && Exact(s, tgid) && Solo(s, tgid) && Solo(Next(s, step), tgid)
    requires step == Forget(tgid) ==> OffCpu(s, tgid)
    ensures Exact(Next(s, step), tgid)
  {
    if step.Switch? {
      assert Next(s, step).cpus[step.cpu].tgid == step.next;
    }
  }

  /** One thread at a time, tracked from a moment it was off the CPU: the counter is exactly the completed on-CPU
      time, modulo 2^64. */
  lemma {:induction false} SoloIsExact(now: u64, tgids: seq<u32>, steps: seq<Step>, tgid: u32)
    requires tgid != 0 && tgid !in tgids && SoloRun(Load(now, tgids), steps, tgid)
    ensures var s := After(Load(now, tgids), steps);
            s.Some? ==> Runtime(s.value.maps, tgid) == WrapU64(Of(s.value.done, tgid))
  {
    hide Next, Enabled, Solo, OffCpu, StampOk, SoloRun, After;
    var s := Load(now, tgids);
    if After(s, steps).Some? {
      ExactRun(s, steps, tgid);
      LoadInv(now, tgids, tgid);
      RunInv(s, steps, tgid);
    }
  }

  lemma {:induction false} ExactRun(s: State, steps: seq<Step>, tgid: u32)
    requires tgid != 0 && Exact(s, tgid) && SoloRun(s, steps, tgid)
    ensures After(s, steps).Some? ==> Exact(After(s, steps).value, tgid)
  {
    hide Next, Enabled, Exact, Solo, OffCpu;
    var n := |steps| - 1;
    if |steps| > 0 && After(s, steps).Some? {
      assert steps[..|steps|] == steps;
      assert forall m | 0 <= m <= n :: steps[..n][..m] == steps[..m];
      ExactRun(s, steps[..n], tgid);
      StepExact(After(s, steps[..n]).value, steps[n], tgid);
    }
  }

  // The condition for an exact count speaks of the steps alone: what runs where since when, and the last switch-in.

  function Clock(now: u64, steps: seq<Step>): u64 {
    if |steps| == 0 then now
    else if steps[|steps| - 1].Switch? then steps[|steps| - 1].at else Clock(now, steps[..|steps| - 1])
  }

  function CpusAfter(now: u64, tgids: seq<u32>, steps: seq<Step>): (cpus: seq<Running>)
    ensures |cpus| == |tgids|
  {
    if |steps| == 0 then seq(|tgids|, i requires 0 <= i < |tgids| => Running(tgids[i], now))
    else
      var front := steps[..|steps| - 1];
      var cpus := CpusAfter(now, tgids, front);
      match steps[|steps| - 1]
      case Switch(cpu, next, _, at) => if cpu < |cpus| then cpus[cpu := Running(next, at)] else cpus
      case Forget(tgid) =>
        seq(|cpus|, i requires 0 <= i < |cpus| =>
          if cpus[i].tgid == tgid then Running(tgid, Clock(now, front)) else cpus[i])
  }

  /** When a thread of the group last came on a CPU, since load or the last forget. */
  function LastIn(steps: seq<Step>, tgid: u32): Option<u64> {
    if |steps| == 0 then None
    else
      var before := LastIn(steps[..|steps| - 1], tgid);
      match steps[|steps| - 1]
      case Forget(t) => if t == tgid then None else before
      case Switch(_, next, _, at) => if next == tgid then Some(at) else before
  }

  /** The state of the world and the group's stamp follow from the steps. */
  lemma {:induction false} StampIsLastIn(now: u64, tgids: seq<u32>, steps: seq<Step>, tgid: u32)
    requires tgid != 0
    ensures var s := After(Load(now, tgids), steps);
            s.Some? ==>
            && s.value.now == Clock(now, steps) && s.value.cpus == CpusAfter(now, tgids, steps)
            && LastIn(steps, tgid) == if tgid in s.value.maps.start then Some(s.value.maps.start[tgid]) else None
  {
    if |steps| > 0 {
      StampIsLastIn(now, tgids, steps[..|steps| - 1], tgid);
    }
  }

  /** The switch takes a thread of the group off a CPU although a sibling came on since that thread did, or although
      none came on at all: the thread ran when the program loaded or the group was forgotten. */
  predicate Misses(cpus: seq<Running>, lastIn: Option<u64>, step: Step, tgid: u32) {
    && step.Switch? && step.cpu < |cpus| && cpus[step.cpu].tgid == tgid
    && cpus[step.cpu].since < if lastIn.Some? then lastIn.value else step.at
  }

  /** No switch since load or the last forget misses anything. */
  predicate MissesNothing(now: u64, tgids: seq<u32>, steps: seq<Step>, tgid: u32) {
    if |steps| == 0 || steps[|steps| - 1] == Forget(tgid) then true
    else
      var front := steps[..|steps| - 1];
      && MissesNothing(now, tgids, front, tgid)
      && !Misses(CpusAfter(now, tgids, front), LastIn(front, tgid), steps[|steps| - 1], tgid)
  }

  lemma {:induction false} LossStep(s: State, step: Step, tgid: u32)
    requires tgid != 0 && Enabled(s, step) && StampOk(s, tgid) && step != Forget(tgid)
    ensures var lastIn := if tgid in s.maps.start then Some(s.maps.start[tgid]) else None;
            Of(Next(s, step).lost, tgid) == 0 <==> Of(s.lost, tgid) == 0 && !Misses(s.cpus, lastIn, step, tgid)
  {
    hide Marked, Accounted, Forgotten;
  }

  lemma {:induction false} LossExactly(now: u64, tgids: seq<u32>, steps: seq<Step>, tgid: u32)
    requires tgid != 0
    ensures var s := After(Load(now, tgids), steps);
            s.Some? ==> Inv(s.value, tgid) && (Of(s.value.lost, tgid) == 0 <==> MissesNothing(now, tgids, steps, tgid))
  {
    if |steps| == 0 {
      LoadInv(now, tgids, tgid);
    } else if After(Load(now, tgids), steps).Some? {
      hide Misses, Inv, Load, CpusAfter, LastIn;
      var front, last := steps[..|steps| - 1], steps[|steps| - 1];
      var s := After(Load(now, tgids), front).value;
      LossExactly(now, tgids, front, tgid);
      StepInv(s, last, tgid);
      StampIsLastIn(now, tgids, front, tgid);
      if last != Forget(tgid) {
        assert StampOk(s, tgid) by { InvStamp(s, tgid); }
        LossStep(s, last, tgid);
      }
    }
  }

  lemma InvStamp(s: State, tgid: u32)
    requires Inv(s, tgid)
    ensures StampOk(s, tgid) && BooksOk(s, tgid)
  {
  }

  /** While the completed on-CPU time fits 64 bits, the counter shows exactly that time if and only if no switch took a
      thread off after a sibling had come on, or before any thread had come on since load or forget. */
  lemma {:induction false} CountExactly(now: u64, tgids: seq<u32>, steps: seq<Step>, tgid: u32)
    requires tgid != 0
    ensures var s := After(Load(now, tgids), steps);
            s.Some? && Of(s.value.done, tgid) < U64_LIMIT ==>
            (Runtime(s.value.maps, tgid) == Of(s.value.done, tgid) <==> MissesNothing(now, tgids, steps, tgid))
  {
    hide Load, After, MissesNothing, StampOk;
    LossExactly(now, tgids, steps, tgid);
  }

  lemma {:induction false} AfterOne(s: State, steps: seq<Step>, step: Step)
    requires After(s, steps).Some? && Enabled(After(s, steps).value, step)
    ensures After(s, steps + [step]) == Some(Next(After(s, steps).value, step))
  {
    hide Next, Enabled;
    assert (steps + [step])[..|steps|] == steps;
  }

  /** Two threads of one group that overlap: five of the fifteen nanoseconds are lost. */
  lemma {:induction false} OverlapUndercounts()
    ensures var s := After(Load(0, [0, 0]), [Switch(0, 7, 1, 0), Switch(1, 7, 1, 5), Switch(0, 0, 0, 10), Switch(1, 0, 0, 10)]);
            s.Some? && Of(s.value.done, 7) == 15 && Runtime(s.value.maps, 7) == 10
  {
    var s0 := Load(0, [0, 0]);
    var a, b, c, d := Switch(0, 7, 1, 0), Switch(1, 7, 1, 5), Switch(0, 0, 0, 10), Switch(1, 0, 0, 10);
    assert After(s0, []) == Some(s0);
    hide After, WrapU64;
    AfterOne(s0, [], a);
    assert [] + [a] == [a];
    AfterOne(s0, [a], b);
    AfterOne(s0, [a] + [b], c);
    AfterOne(s0, [a] + [b] + [c], d);
    assert [a, b, c, d] == [a] + [b] + [c] + [d];
  }
}
