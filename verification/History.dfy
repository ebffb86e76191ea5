/** What a PID's whole history says about it, and the promises of the tracker over every run.

A history has one observation per scan cycle. Nothing here is incremental: the definitions look back
over the history, while `SlotAfter` replays what the tracker does cycle by cycle. */
module History {
  import opened Base
  import opened Tracker

  datatype Config = Config(
    idleCyclesThreshold: u32,
    cpuDeltaThreshold: u64,
    wakeupDeltaThreshold: u64,
    minRssMib: u64,
    dryRun: bool)

  // Thresholds are configured in ticks of 10 ms and compared in nanoseconds.

  function CpuNs(cfg: Config): u64 { WrapU64(cfg.cpuDeltaThreshold * 10_000_000) }

  function WakeupNs(cfg: Config): u64 { WrapU64(cfg.wakeupDeltaThreshold * 10_000_000) }

  /** A threshold given in ticks never collides with the first-observation sentinel: it is even. */
  lemma ThresholdIsNotSentinel(ticks: u64)
    ensures WrapU64(ticks * 10_000_000) != U64_MAX
  {
    WrapKeepsEven(ticks * 10_000_000);
  }

  /** One PID in one cycle. `clear` says that nothing but the tracker can stop this page-out:
      the RSS floor is met, no veto applies and the kernel accepts every batch. */
  datatype Obs =
    | Unseen
    | Gone
    | Seen(starttime: u64, cpuNs: u64, clear: bool)

  // ---------------------------------------------------------------- looking back

  /** CPU time burnt in cycle i, when cycle i - 1 saw the same incarnation. */
  function Delta(h: seq<Obs>, i: nat): (d: Option<u64>)
    requires i < |h|
    ensures d.Some? ==> i > 0 && h[i].Seen? && h[i - 1].Seen? && h[i].starttime == h[i - 1].starttime
  {
    if i > 0 && h[i].Seen? && h[i - 1].Seen? && h[i].starttime == h[i - 1].starttime
    then Some(SaturatingSub(h[i].cpuNs, h[i - 1].cpuNs))
    else None
  }

  predicate Idle(cfg: Config, h: seq<Obs>, i: nat)
    requires i < |h|
  {
    Delta(h, i).Some? && Delta(h, i).value <= CpuNs(cfg)
  }

  /** The incarnation goes on through cycle i without real user activity. */
  predicate Undisturbed(cfg: Config, h: seq<Obs>, i: nat)
    requires i < |h|
  {
    Delta(h, i).Some? && (Delta(h, i).value <= WakeupNs(cfg) || Delta(h, i).value == U64_MAX)
  }

  predicate UndisturbedFrom(cfg: Config, h: seq<Obs>, k: nat) {
    forall j | k <= j < |h| :: Undisturbed(cfg, h, j)
  }

  /** Length of the trailing run of idle cycles. */
  function IdleRun(cfg: Config, h: seq<Obs>): (n: nat)
    ensures n <= |h|
    ensures forall i | |h| - n <= i < |h| :: Idle(cfg, h, i)
    ensures n < |h| ==> !Idle(cfg, h, |h| - n - 1)
  {
    if |h| > 0 && Idle(cfg, h, |h| - 1) then
      var m := IdleRun(cfg, h[..|h| - 1]);
      assert forall i | 0 <= i < |h| - 1 :: Idle(cfg, h[..|h| - 1], i) == Idle(cfg, h, i);
      m + 1
    else 0
  }

  /** A page-out succeeded in some earlier cycle and nothing has disturbed the incarnation since. */
  ghost predicate Flagged(cfg: Config, h: seq<Obs>)
    decreases |h|, 0
  {
    exists k | 0 < k < |h| :: PagedOut(cfg, h[..k]) && UndisturbedFrom(cfg, h, k)
  }

  /** The last cycle of the history pages the PID out. */
  ghost predicate PagedOut(cfg: Config, h: seq<Obs>)
    decreases |h|, 1
  {
    && |h| > 0
    && Idle(cfg, h, |h| - 1)
    && WrapU32(IdleRun(cfg, h)) >= cfg.idleCyclesThreshold
    && !Flagged(cfg, h)
    && h[|h| - 1].clear
  }

  /** What the tracker must hold about a PID with this history. */
  ghost function SlotByHistory(cfg: Config, pid: u32, h: seq<Obs>): Slot {
    if |h| == 0 || !h[|h| - 1].Seen? then EMPTY_SLOT
    else Slot(Some(ProcSnapshot(pid, h[|h| - 1].starttime, h[|h| - 1].cpuNs)),
              Some(WrapU32(IdleRun(cfg, h))),
              if PagedOut(cfg, h) || Flagged(cfg, h) then Some(true) else None)
  }

  // ---------------------------------------------------------------- the two bars in configured ticks

  /** A tick is ten million nanoseconds, and the product wraps at 2^64. */
  lemma {:induction false} BarsInTicks(cfg: Config)
    ensures CpuNs(cfg) == cfg.cpuDeltaThreshold * 10_000_000 % 0x1_0000_0000_0000_0000
    ensures WakeupNs(cfg) == cfg.wakeupDeltaThreshold * 10_000_000 % 0x1_0000_0000_0000_0000
    ensures cfg.cpuDeltaThreshold * 10_000_000 < U64_LIMIT ==> CpuNs(cfg) == cfg.cpuDeltaThreshold * 10_000_000
    ensures cfg.wakeupDeltaThreshold * 10_000_000 < U64_LIMIT ==> WakeupNs(cfg) == cfg.wakeupDeltaThreshold * 10_000_000
  {
    hide WrapU64;
    WrapU64IsRemainder(cfg.cpuDeltaThreshold * 10_000_000);
    WrapU64IsRemainder(cfg.wakeupDeltaThreshold * 10_000_000);
  }

  /** Cycle i saw the same incarnation as the cycle before. */
  predicate Continues(h: seq<Obs>, i: nat)
    requires i < |h|
  {
    i > 0 && h[i].Seen? && h[i - 1].Seen? && h[i].starttime == h[i - 1].starttime
  }

  /** A cycle is idle exactly if the same incarnation burnt at most the configured ticks since the cycle before. */
  lemma {:induction false} IdleExactly(cfg: Config, h: seq<Obs>, i: nat)
    requires i < |h|
    ensures Idle(cfg, h, i) <==>
            Continues(h, i) && h[i].cpuNs <= h[i - 1].cpuNs + cfg.cpuDeltaThreshold * 10_000_000 % 0x1_0000_0000_0000_0000
  {
    hide WrapU64;
    BarsInTicks(cfg);
  }

  /** A cycle is disturbed exactly if the PID was unobserved in it or the one before, changed its start time, or burnt
      more than the configured wakeup ticks; a jump of the counter by all of 2^64 - 1 is not told from a first sight. */
  lemma {:induction false} DisturbedExactly(cfg: Config, h: seq<Obs>, i: nat)
    requires i < |h|
    ensures !Undisturbed(cfg, h, i) <==>
            || !Continues(h, i)
            || (h[i].cpuNs > h[i - 1].cpuNs + cfg.wakeupDeltaThreshold * 10_000_000 % 0x1_0000_0000_0000_0000
                && h[i].cpuNs != h[i - 1].cpuNs + 0xFFFF_FFFF_FFFF_FFFF)
  {
    hide WrapU64;
    BarsInTicks(cfg);
  }

  // ---------------------------------------------------------------- cycle by cycle

  /** Whether the tracker lets the page-out of a freshly updated slot go ahead. */
  predicate Eligible(cfg: Config, before: Slot, snap: ProcSnapshot) {
    var after := UpdatedSlot(before, snap, CpuNs(cfg), WakeupNs(cfg));
    && DeltaOf(before, snap) <= CpuNs(cfg)
    && after.idle.value >= cfg.idleCyclesThreshold
    && after.flag != Some(true)
  }

  /** What one scan cycle does to the slot of one PID. */
  function SlotStep(cfg: Config, pid: u32, slot: Slot, obs: Obs): Slot {
    match obs
    case Unseen => EMPTY_SLOT
    case Gone => EMPTY_SLOT
    case Seen(starttime, cpuNs, clear) =>
      var snap := ProcSnapshot(pid, starttime, cpuNs);
      var after := UpdatedSlot(slot, snap, CpuNs(cfg), WakeupNs(cfg));
      if Eligible(cfg, slot, snap) && clear then after.(flag := Some(true)) else after
  }

  function SlotAfter(cfg: Config, pid: u32, h: seq<Obs>): Slot {
    if |h| == 0 then EMPTY_SLOT
    else SlotStep(cfg, pid, SlotAfter(cfg, pid, h[..|h| - 1]), h[|h| - 1])
  }

  // ---------------------------------------------------------------- the two agree

  /** Looking back from a prefix sees the same deltas. */
  lemma PrefixDelta(h: seq<Obs>, n: nat, i: nat)
    requires i < n <= |h|
    ensures Delta(h[..n], i) == Delta(h, i)
  {
  }

  /** The flag seen by the last cycle is the flag left by the cycle before, unless that cycle was disturbed. */
  lemma {:induction false} FlagCarries(cfg: Config, h: seq<Obs>)
    requires |h| > 0
    ensures var p := h[..|h| - 1];
            Flagged(cfg, h) <==> (PagedOut(cfg, p) || Flagged(cfg, p)) && Undisturbed(cfg, h, |h| - 1)
  {
    var n := |h| - 1;
    var p := h[..n];
    forall k: nat | k <= n
      ensures p[..k] == h[..k]
      ensures UndisturbedFrom(cfg, h, k) <==> UndisturbedFrom(cfg, p, k) && Undisturbed(cfg, h, n)
    {
      assert forall j | k <= j < n :: Undisturbed(cfg, p, j) == Undisturbed(cfg, h, j);
    }
    assert p[..n] == p && UndisturbedFrom(cfg, p, n);
  }

  /** The delta the tracker computes from the history's slot is the history's own delta. */
  lemma {:induction false} DeltaAgrees(cfg: Config, pid: u32, h: seq<Obs>)
    requires |h| > 0 && h[|h| - 1].Seen?
    ensures var last := h[|h| - 1];
            var d := DeltaOf(SlotByHistory(cfg, pid, h[..|h| - 1]), ProcSnapshot(pid, last.starttime, last.cpuNs));
            d == if Delta(h, |h| - 1).Some? then Delta(h, |h| - 1).value else U64_MAX
  {
    var p := h[..|h| - 1];
    assert |p| > 0 ==> p[|p| - 1] == h[|h| - 2];
  }

  lemma {:induction false} UpdateAgrees(cfg: Config, pid: u32, h: seq<Obs>)
    requires |h| > 0 && h[|h| - 1].Seen?
    ensures var last := h[|h| - 1];
            var snap := ProcSnapshot(pid, last.starttime, last.cpuNs);
            UpdatedSlot(SlotByHistory(cfg, pid, h[..|h| - 1]), snap, CpuNs(cfg), WakeupNs(cfg))
            == Slot(Some(snap), Some(WrapU32(IdleRun(cfg, h))), if Flagged(cfg, h) then Some(true) else None)
  {
    var p := h[..|h| - 1];
    DeltaAgrees(cfg, pid, h);
    FlagCarries(cfg, h);
    ThresholdIsNotSentinel(cfg.cpuDeltaThreshold);
    WrapAdd32(IdleRun(cfg, p), 1);
    assert |p| > 0 ==> p[|p| - 1] == h[|h| - 2];
  }

  /** After any run, what the tracker holds about a PID is a function of the PID's whole history. */
  lemma {:induction false} TrackerIsHistory(cfg: Config, pid: u32, h: seq<Obs>)
    ensures SlotAfter(cfg, pid, h) == SlotByHistory(cfg, pid, h)
  {
    if |h| > 0 && h[|h| - 1].Seen? {
      TrackerIsHistory(cfg, pid, h[..|h| - 1]);
      DeltaAgrees(cfg, pid, h);
      UpdateAgrees(cfg, pid, h);
      ThresholdIsNotSentinel(cfg.cpuDeltaThreshold);
    }
  }
}
