/** One pass of the decision pipeline over the targets of a cycle (daemon/src/main.rs). */
module Scan {
  import opened Base
  import opened Compressor
  import opened Signals
  import opened Tracker
  import opened History
  import Scanner

  datatype Reading = Reading(starttime: u64, cpuNs: u64)

  /** One target of one cycle together with all that the system answers about it: its CPU reading (None
      when it has gone away), its RSS, the browser reports that came in since the previous target, the two
      clocks at the veto query, and the page-out oracle. */
  datatype Visit = Visit(
    target: Scanner.Target,
    reading: Option<Reading>,
    rssMib: u64,
    arrivals: seq<Arrival>,
    now: nat,
    wallMs: u64,
    env: PageOutEnv)

  datatype Decision =
    | Exited
    | Active
    | WarmingUp
    | AlreadyCompressed
    | LowRss
    | Vetoed(veto: Veto)
    | Compressed(outcome: CompressOutcome)
    | DryRun(outcome: CompressOutcome)
    | Incomplete(outcome: CompressOutcome)
    | Failed

  /** The signal server's parameters, when it runs. */
  datatype SignalParams = SignalParams(ttl: nat, graceMs: u64)

  function VetoFor(sig: Option<SignalParams>, log: seq<Arrival>, v: Visit): Option<Veto> {
    if sig.None? then None
    else VetoByLog(log, sig.value.ttl, sig.value.graceMs, v.target.profile, v.now, v.wallMs)
  }

  /** What happens to a visit the tracker lets through. */
  function Gate(cfg: Config, sig: Option<SignalParams>, log: seq<Arrival>, v: Visit): Decision {
    if v.rssMib < cfg.minRssMib then LowRss
    else if VetoFor(sig, log, v).Some? then Vetoed(VetoFor(sig, log, v).value)
    else
      match CompressResult(v.env, cfg.dryRun)
      case None => Failed
      case Some(o) => if o.IsRealSuccess() then Compressed(o) else if o.wasDryRun then DryRun(o) else Incomplete(o)
  }

  /** The page-out calls behind a decision: all batches of the target when there was a page-out, else none. */
  function CallsOf(d: Decision, env: PageOutEnv): seq<seq<Region>> {
    if (d.Compressed? || d.Incomplete?) && env.smaps.Some? then Chunks(env.smaps.value) else []
  }

  /** Which outcome a visit has that the tracker lets through, in terms of what the system answered. */
  lemma {:induction false} GateExactly(cfg: Config, sig: Option<SignalParams>, log: seq<Arrival>, v: Visit)
    ensures var d, veto := Gate(cfg, sig, log, v), VetoFor(sig, log, v);
            var free := v.rssMib >= cfg.minRssMib && veto.None?;
            var readable := v.env.smaps.Some?;
            && (d.LowRss? <==> v.rssMib < cfg.minRssMib)
            && (d.Vetoed? <==> v.rssMib >= cfg.minRssMib && veto.Some?) && (d.Vetoed? ==> veto == Some(d.veto))
            && (d.Failed? <==> free && (!readable || (!cfg.dryRun && !v.env.pidfd)))
            && (d.DryRun? <==> free && readable && cfg.dryRun)
            && (d.Compressed? <==>
                && free && readable && !cfg.dryRun && v.env.pidfd && |v.env.smaps.value| > 0
                && forall i: nat | i < |Chunks(v.env.smaps.value)| :: v.env.kernel(i) >= 0)
            && (d.Incomplete? <==>
                && free && readable && !cfg.dryRun && v.env.pidfd
                && (|v.env.smaps.value| == 0
                    || exists i: nat | i < |Chunks(v.env.smaps.value)| :: v.env.kernel(i) < 0))
  {
    hide VetoFor, Chunks;
    RealSuccessExactly(v.env, cfg.dryRun);
  }

  /** What a visit adds to the history of its PID. */
  function ObsOf(cfg: Config, sig: Option<SignalParams>, log: seq<Arrival>, v: Visit): Obs {
    if v.reading.None? then Gone
    else Seen(v.reading.value.starttime, v.reading.value.cpuNs, Gate(cfg, sig, log, v).Compressed?)
  }

  /** The decision taken from the slot at hand. */
  function DecisionFrom(cfg: Config, sig: Option<SignalParams>, slot: Slot, log: seq<Arrival>, v: Visit): Decision {
    if v.reading.None? then Exited
    else
      var snap := ProcSnapshot(v.target.pid, v.reading.value.starttime, v.reading.value.cpuNs);
      var after := UpdatedSlot(slot, snap, CpuNs(cfg), WakeupNs(cfg));
      if DeltaOf(slot, snap) > CpuNs(cfg) then Active
      else if after.idle.value < cfg.idleCyclesThreshold then WarmingUp
      else if after.flag == Some(true) then AlreadyCompressed
      else Gate(cfg, sig, log, v)
  }

  /** With a snapshot of the same start time at hand a target is active exactly if it burnt more than the configured
      ticks since, at 10^7 ns each and modulo 2^64, and an update drops the flag exactly if it burnt more than the
      configured wakeup ticks. */
  lemma {:induction false} BurnDecides(cfg: Config, sig: Option<SignalParams>, slot: Slot, log: seq<Arrival>, v: Visit)
    requires v.reading.Some? && slot.snap.Some? && slot.snap.value.starttime == v.reading.value.starttime
    ensures var before, now := slot.snap.value.cpuNs, v.reading.value.cpuNs;
            var snap := ProcSnapshot(v.target.pid, v.reading.value.starttime, now);
            var idleBar := cfg.cpuDeltaThreshold * 10_000_000 % 0x1_0000_0000_0000_0000;
            var wakeupBar := cfg.wakeupDeltaThreshold * 10_000_000 % 0x1_0000_0000_0000_0000;
            && (DecisionFrom(cfg, sig, slot, log, v).Active? <==> now > before + idleBar)
            && (UpdatedSlot(slot, snap, CpuNs(cfg), WakeupNs(cfg)).flag ==
                if now > before + wakeupBar && now != before + 0xFFFF_FFFF_FFFF_FFFF then None else slot.flag)
  {
    hide WrapU64;
    BarsInTicks(cfg);
    GateIsNotActive(cfg, sig, log, v);
  }

  lemma GateIsNotActive(cfg: Config, sig: Option<SignalParams>, log: seq<Arrival>, v: Visit)
    ensures !Gate(cfg, sig, log, v).Active?
  {
  }

  /** Without such a snapshot, on first sight or after the PID was recycled, a target is active and loses any flag. */
  lemma {:induction false} FirstSightIsActive(cfg: Config, sig: Option<SignalParams>, slot: Slot, log: seq<Arrival>, v: Visit)
    requires v.reading.Some?
    requires slot == EMPTY_SLOT || (slot.snap.Some? && slot.snap.value.starttime != v.reading.value.starttime)
    ensures var snap := ProcSnapshot(v.target.pid, v.reading.value.starttime, v.reading.value.cpuNs);
            && DecisionFrom(cfg, sig, slot, log, v).Active?
            && UpdatedSlot(slot, snap, CpuNs(cfg), WakeupNs(cfg)) == Slot(Some(snap), Some(0), None)
  {
    ThresholdIsNotSentinel(cfg.cpuDeltaThreshold);
  }

  /** The decision the whole history of the PID, this cycle included, calls for. */
  ghost function DecisionByHistory(cfg: Config, h: seq<Obs>, gate: Decision): Decision
    requires |h| > 0
  {
    if !h[|h| - 1].Seen? then Exited
    else if !Idle(cfg, h, |h| - 1) then Active
    else if WrapU32(IdleRun(cfg, h)) < cfg.idleCyclesThreshold then WarmingUp
    else if Flagged(cfg, h) then AlreadyCompressed
    else gate
  }

  lemma {:induction false} DecisionAgrees(
      cfg: Config, sig: Option<SignalParams>, h: seq<Obs>, log: seq<Arrival>, v: Visit)
    ensures DecisionFrom(cfg, sig, SlotAfter(cfg, v.target.pid, h), log, v)
            == DecisionByHistory(cfg, h + [ObsOf(cfg, sig, log, v)], Gate(cfg, sig, log, v))
  {
    hide Gate, PagedOut, Flagged;
    var pid := v.target.pid;
    var g := h + [ObsOf(cfg, sig, log, v)];
    assert g[..|h|] == h;
    TrackerIsHistory(cfg, pid, h);
    if v.reading.Some? {
      DeltaAgrees(cfg, pid, g);
      UpdateAgrees(cfg, pid, g);
      ThresholdIsNotSentinel(cfg.cpuDeltaThreshold);
    }
  }

  // ---------------------------------------------------------------- runs

  function LogAfter(log: seq<Arrival>, visits: seq<Visit>): seq<Arrival> {
    if |visits| == 0 then log
    else LogAfter(log, visits[..|visits| - 1]) + visits[|visits| - 1].arrivals
  }

  /** What a cycle, so far, adds to the history of a PID. */
  function ObsIn(cfg: Config, sig: Option<SignalParams>, log: seq<Arrival>, visits: seq<Visit>, pid: u32): Obs {
    if |visits| == 0 then Unseen
    else if visits[|visits| - 1].target.pid == pid
    then ObsOf(cfg, sig, LogAfter(log, visits), visits[|visits| - 1])
    else ObsIn(cfg, sig, log, visits[..|visits| - 1], pid)
  }

  function RunLog(run: seq<seq<Visit>>): seq<Arrival> {
    if |run| == 0 then [] else LogAfter(RunLog(run[..|run| - 1]), run[|run| - 1])
  }

  function HistoryOf(cfg: Config, sig: Option<SignalParams>, run: seq<seq<Visit>>, pid: u32): (h: seq<Obs>)
    ensures |h| == |run|
  {
    if |run| == 0 then []
    else HistoryOf(cfg, sig, run[..|run| - 1], pid)
         + [ObsIn(cfg, sig, RunLog(run[..|run| - 1]), run[|run| - 1], pid)]
  }

  predicate Distinct(visits: seq<Visit>) {
    forall i, j | 0 <= i < j < |visits| :: visits[i].target.pid != visits[j].target.pid
  }

  /** Latest query instant once the visits are done. */
  function Horizon(h: nat, visits: seq<Visit>): nat {
    if |visits| == 0 then h else visits[|visits| - 1].now
  }

  function RunHorizon(run: seq<seq<Visit>>): nat {
    if |run| == 0 then 0 else Horizon(RunHorizon(run[..|run| - 1]), run[|run| - 1])
  }

  predicate InTime(h: nat, visits: seq<Visit>) {
    && (forall k | 0 <= k < |visits| :: h <= visits[k].now)
    && (forall i, j | 0 <= i < j < |visits| :: visits[i].now <= visits[j].now)
  }

  /** Cycle c visits each PID at most once and the monotonic clock never goes back. */
  predicate CycleOk(run: seq<seq<Visit>>, c: nat)
    requires c < |run|
  {
    Distinct(run[c]) && InTime(RunHorizon(run[..c]), run[c])
  }

  /** A PID not among the visits is unseen; one that is shows up with its own visit's observation. */
  lemma {:induction false} ObsInMeans(
      cfg: Config, sig: Option<SignalParams>, log: seq<Arrival>, visits: seq<Visit>, k: nat)
    requires Distinct(visits) && k < |visits|
    ensures ObsIn(cfg, sig, log, visits, visits[k].target.pid)
            == ObsOf(cfg, sig, LogAfter(log, visits[..k + 1]), visits[k])
  {
    var n := |visits| - 1;
    if k < n {
      ObsInMeans(cfg, sig, log, visits[..n], k);
      assert visits[..n][..k + 1] == visits[..k + 1];
    } else {
      assert visits[..k + 1] == visits;
    }
  }

  lemma {:induction false} UnseenMeans(
      cfg: Config, sig: Option<SignalParams>, log: seq<Arrival>, visits: seq<Visit>, pid: u32)
    ensures ObsIn(cfg, sig, log, visits, pid).Unseen? <==> forall k | 0 <= k < |visits| :: visits[k].target.pid != pid
  {
    if |visits| > 0 && visits[|visits| - 1].target.pid != pid {
      UnseenMeans(cfg, sig, log, visits[..|visits| - 1], pid);
    }
  }

  // ---------------------------------------------------------------- counters

  datatype Counter =
    | Scans | TargetsSeen | Compressions | BytesPagedOut | BytesSkipped
    | SkipsWarmup | SkipsActive | SkipsAlreadyCompressed | SkipsLowRss | SkipsBrowserSignals | Errors

  /** What a decision adds to a counter. */
  function Amount(c: Counter, d: Decision): nat {
    match c
    case Scans => 0
    case TargetsSeen => 0
    case Compressions => if d.Compressed? then 1 else 0
    case BytesPagedOut => if d.Compressed? then d.outcome.bytesAdvised else 0
    case BytesSkipped => if d.Compressed? then d.outcome.bytesSkipped else 0
    case SkipsWarmup => if d.WarmingUp? then 1 else 0
    case SkipsActive => if d.Active? then 1 else 0
    case SkipsAlreadyCompressed => if d.AlreadyCompressed? then 1 else 0
    case SkipsLowRss => if d.LowRss? then 1 else 0
    case SkipsBrowserSignals => if d.Vetoed? then 1 else 0
    case Errors => if d.Incomplete? || d.Failed? then 1 else 0
  }

  function Amounts(c: Counter, ds: seq<Decision>): nat {
    if |ds| == 0 then 0 else Amounts(c, ds[..|ds| - 1]) + Amount(c, ds[|ds| - 1])
  }

  function CycleAmount(c: Counter, ds: seq<Decision>): nat {
    if c == Scans then 1 else if c == TargetsSeen then |ds| else Amounts(c, ds)
  }

  function RunAmount(c: Counter, dss: seq<seq<Decision>>): nat {
    if |dss| == 0 then 0 else RunAmount(c, dss[..|dss| - 1]) + CycleAmount(c, dss[|dss| - 1])
  }

  /** Decisions that no counter records: exited processes and dry runs. */
  function Unbooked(ds: seq<Decision>): nat {
    if |ds| == 0 then 0
    else Unbooked(ds[..|ds| - 1]) + if ds[|ds| - 1].Exited? || ds[|ds| - 1].DryRun? then 1 else 0
  }

  function RunUnbooked(dss: seq<seq<Decision>>): nat {
    if |dss| == 0 then 0 else RunUnbooked(dss[..|dss| - 1]) + Unbooked(dss[|dss| - 1])
  }

  /** The kind of decision an outcome counter stands for. */
  predicate IsKind(c: Counter, d: Decision) {
    match d
    case Exited => false
    case Active => c == SkipsActive
    case WarmingUp => c == SkipsWarmup
    case AlreadyCompressed => c == SkipsAlreadyCompressed
    case LowRss => c == SkipsLowRss
    case Vetoed(_) => c == SkipsBrowserSignals
    case Compressed(_) => c == Compressions
    case DryRun(_) => false
    case Incomplete(_) => c == Errors
    case Failed => c == Errors
  }

  /** The positions of the decisions of a kind. */
  function Places(c: Counter, ds: seq<Decision>): (r: set<nat>)
    ensures forall i: nat :: i in r <==> i < |ds| && IsKind(c, ds[i])
  {
    if |ds| == 0 then {}
    else Places(c, ds[..|ds| - 1]) + if IsKind(c, ds[|ds| - 1]) then {|ds| - 1} else {}
  }

  /** Each outcome counter counts the decisions of its own kind. */
  lemma {:induction false} CountersCount(c: Counter, ds: seq<Decision>)
    requires c !in {Scans, TargetsSeen, BytesPagedOut, BytesSkipped}
    ensures Amounts(c, ds) == |Places(c, ds)|
  {
    if |ds| > 0 {
      hide Amount, IsKind;
      CountersCount(c, ds[..|ds| - 1]);
      AmountByKind(c, ds[|ds| - 1]);
    }
  }

  lemma AmountByKind(c: Counter, d: Decision)
    requires c !in {Scans, TargetsSeen, BytesPagedOut, BytesSkipped}
    ensures Amount(c, d) == if IsKind(c, d) then 1 else 0
  {
  }

  lemma OneCounterEach(d: Decision)
    ensures Amount(SkipsActive, d) + Amount(SkipsWarmup, d) + Amount(SkipsAlreadyCompressed, d)
            + Amount(SkipsLowRss, d) + Amount(SkipsBrowserSignals, d) + Amount(Compressions, d) + Amount(Errors, d)
            == if d.Exited? || d.DryRun? then 0 else 1
  {
  }

  lemma {:induction false} CycleIsAccounted(ds: seq<Decision>)
    ensures |ds| == Amounts(SkipsActive, ds) + Amounts(SkipsWarmup, ds) + Amounts(SkipsAlreadyCompressed, ds)
                    + Amounts(SkipsLowRss, ds) + Amounts(SkipsBrowserSignals, ds)
                    + Amounts(Compressions, ds) + Amounts(Errors, ds) + Unbooked(ds)
  {
    hide Amount;
    if |ds| > 0 {
      CycleIsAccounted(ds[..|ds| - 1]);
      OneCounterEach(ds[|ds| - 1]);
    }
  }

  lemma RunAmountSplit(c: Counter, dss: seq<seq<Decision>>)
    requires |dss| > 0
    ensures RunAmount(c, dss) == RunAmount(c, dss[..|dss| - 1]) + CycleAmount(c, dss[|dss| - 1])
  {
  }

  lemma CycleTargets(ds: seq<Decision>)
    ensures CycleAmount(TargetsSeen, ds) == |ds|
    ensures forall c | c != Scans && c != TargetsSeen :: CycleAmount(c, ds) == Amounts(c, ds)
  {
  }

  /** Over any run every target seen ends in exactly one counter, or is an exit or a dry run. */
  lemma {:induction false} EveryTargetIsAccounted(dss: seq<seq<Decision>>)
    ensures RunAmount(TargetsSeen, dss)
            == RunAmount(SkipsActive, dss) + RunAmount(SkipsWarmup, dss) + RunAmount(SkipsAlreadyCompressed, dss)
               + RunAmount(SkipsLowRss, dss) + RunAmount(SkipsBrowserSignals, dss)
               + RunAmount(Compressions, dss) + RunAmount(Errors, dss) + RunUnbooked(dss)
  {
    hide Amounts, Unbooked, Amount;
    if |dss| > 0 {
      hide RunAmount, CycleAmount;
      var front, last := dss[..|dss| - 1], dss[|dss| - 1];
      EveryTargetIsAccounted(front);
      CycleIsAccounted(last);
      forall c
        ensures RunAmount(c, dss) == RunAmount(c, front) + CycleAmount(c, last)
      {
        RunAmountSplit(c, dss);
      }
      CycleTargets(last);
    }
  }

  type Cells = map<Counter, u64>

  function Cell(cells: Cells, c: Counter): u64 { if c in cells then cells[c] else 0 }

  /** An atomic fetch_add. */
  function Bump(cells: Cells, c: Counter, n: u64): Cells { cells[c := WrapU64(Cell(cells, c) + n)] }

  /** Each counter has grown by what the decisions add to it, modulo 2^64. */
  ghost predicate Booked(before: Cells, after: Cells, ds: seq<Decision>) {
    forall c :: Cell(after, c) == WrapU64(Cell(before, c) + Amounts(c, ds))
  }

  ghost predicate CycleBooked(before: Cells, after: Cells, ds: seq<Decision>) {
    forall c :: Cell(after, c) == WrapU64(Cell(before, c) + CycleAmount(c, ds))
  }

  /** Each counter holds its total over a run, modulo 2^64. */
  ghost predicate Totals(cells: Cells, dss: seq<seq<Decision>>) {
    forall c :: Cell(cells, c) == WrapU64(RunAmount(c, dss))
  }

  lemma {:induction false} BookedSnoc(before: Cells, mid: Cells, after: Cells, ds: seq<Decision>, d: Decision)
    requires Booked(before, mid, ds) && forall c :: Cell(after, c) == WrapU64(Cell(mid, c) + Amount(c, d))
    ensures Booked(before, after, ds + [d])
  {
    hide Cell, Amount, WrapU64;
    assert (ds + [d])[..|ds|] == ds;
    forall c
      ensures Cell(after, c) == WrapU64(Cell(before, c) + Amounts(c, ds + [d]))
    {
      WrapAdd(Cell(before, c) + Amounts(c, ds), Amount(c, d));
    }
  }

  lemma {:induction false} OnlyTargetsInAmounts(ds: seq<Decision>)
    ensures Amounts(Scans, ds) == 0 && Amounts(TargetsSeen, ds) == 0
  {
    if |ds| > 0 {
      OnlyTargetsInAmounts(ds[..|ds| - 1]);
    }
  }

  lemma {:induction false} CycleBooks(before: Cells, after: Cells, ds: seq<Decision>)
    requires Booked(Bump(Bump(before, Scans, 1), TargetsSeen, WrapU64(|ds|)), after, ds)
    ensures CycleBooked(before, after, ds)
  {
    hide Amounts;
    var begun := Bump(Bump(before, Scans, 1), TargetsSeen, WrapU64(|ds|));
    OnlyTargetsInAmounts(ds);
    forall c
      ensures Cell(after, c) == WrapU64(Cell(before, c) + CycleAmount(c, ds))
    {
      assert Cell(after, c) == WrapU64(Cell(begun, c) + Amounts(c, ds));
      WrapAdd(|ds|, Cell(before, TargetsSeen));
    }
  }

  /** Cycle by cycle each counter stays its total over all decisions so far. */
  lemma {:induction false} CountersHoldTotals(before: Cells, after: Cells, dss: seq<seq<Decision>>, ds: seq<Decision>)
    requires Totals(before, dss) && CycleBooked(before, after, ds)
    ensures Totals(after, dss + [ds])
  {
    hide Cell, CycleAmount, WrapU64;
    assert (dss + [ds])[..|dss|] == dss;
    forall c
      ensures Cell(after, c) == WrapU64(RunAmount(c, dss + [ds]))
    {
      WrapAdd(RunAmount(c, dss), CycleAmount(c, ds));
    }
  }

  class Stats {
    var cells: Cells

    constructor ()
      ensures cells == map[]
    {
      cells := map[];
    }

    method Add(c: Counter, n: u64)
      modifies this
      ensures cells == Bump(old(cells), c, n)
      ensures forall x :: Cell(cells, x) == if x == c then WrapU64(Cell(old(cells), c) + n) else Cell(old(cells), x)
    {
      hide WrapU64;
      cells := cells[c := WrapU64((if c in cells then cells[c] else 0) + n)];
    }

    /** The counter updates of the branch that takes a decision. */
    method Record(d: Decision)
      modifies this
      ensures forall c :: Cell(cells, c) == WrapU64(Cell(old(cells), c) + Amount(c, d))
    {
      hide Cell, Bump, WrapU64;
      match d
      case Exited =>
      case DryRun(_) =>
      case Active => Add(SkipsActive, 1);
      case WarmingUp => Add(SkipsWarmup, 1);
      case AlreadyCompressed => Add(SkipsAlreadyCompressed, 1);
      case LowRss => Add(SkipsLowRss, 1);
      case Vetoed(_) => Add(SkipsBrowserSignals, 1);
      case Incomplete(_) => Add(Errors, 1);
      case Failed => Add(Errors, 1);
      case Compressed(o) => AddCompression(o);
    }

    method AddCompression(o: CompressOutcome)
      modifies this
      ensures forall c :: Cell(cells, c) == WrapU64(Cell(old(cells), c) + Amount(c, Compressed(o)))
    {
      hide Cell, Bump, WrapU64;
      Add(Compressions, 1);
      Add(BytesPagedOut, o.bytesAdvised);
      Add(BytesSkipped, o.bytesSkipped);
    }
  }

  // ---------------------------------------------------------------- the pipeline

  ghost function ParamsOf(store: SignalStore?): Option<SignalParams> {
    if store == null then None else Some(SignalParams(store.ttl, store.graceMs))
  }

  ghost predicate StoreReady(store: SignalStore?, log: seq<Arrival>, horizon: nat)
    reads store
  {
    store != null ==> store.Valid() && store.log == log && store.clock <= horizon
  }

  method DeliverReports(store: SignalStore?, arrivals: seq<Arrival>, ghost log: seq<Arrival>, ghost horizon: nat)
    requires StoreReady(store, log, horizon)
    modifies store
    ensures StoreReady(store, log + arrivals, horizon)
  {
    if store == null {
      return;
    }
    for i := 0 to |arrivals|
      invariant StoreReady(store, log + arrivals[..i], horizon)
    {
      var _ := store.ApplyReportAt(arrivals[i]);
      assert log + arrivals[..i + 1] == log + arrivals[..i] + [arrivals[i]];
    }
    assert arrivals[..|arrivals|] == arrivals;
  }

  /** The end of the loop body: the RSS floor, the browser veto and the page-out itself. */
  method TryPageOut(cfg: Config, v: Visit, store: SignalStore?, ghost log: seq<Arrival>)
    returns (d: Decision, sent: seq<seq<Region>>)
    requires StoreReady(store, log, v.now)
    modifies store
    ensures d == Gate(cfg, ParamsOf(store), log, v)
    ensures sent == CallsOf(d, v.env)
    ensures StoreReady(store, log, v.now)
  {
    hide VetoByLog, Faithful, Chunks, Advised, Failures, TotalSize;
    if v.rssMib < cfg.minRssMib {
      return LowRss, [];
    }
    if store != null {
      var veto := store.ProfileVetoAt(v.target.profile, v.now, v.wallMs);
      if veto.Some? {
        return Vetoed(veto.value), [];
      }
    }
    var result;
    result, sent := CompressPid(v.env, cfg.dryRun);
    match result
    case Some(outcome) =>
      if outcome.IsRealSuccess() {
        d := Compressed(outcome);
      } else if outcome.wasDryRun {
        d := DryRun(outcome);
      } else {
        d := Incomplete(outcome);
      }
    case None =>
      d := Failed;
  }

  /** The body of the scan loop for one target. */
  method VisitTarget(cfg: Config, tracker: CpuTracker, v: Visit, store: SignalStore?, ghost log: seq<Arrival>)
    returns (d: Decision, sent: seq<seq<Region>>)
    requires StoreReady(store, log, v.now)
    modifies tracker, store
    ensures sent == CallsOf(d, v.env)
    ensures d == DecisionFrom(cfg, ParamsOf(store), old(tracker.SlotOf(v.target.pid)), log + v.arrivals, v)
    ensures tracker.SlotOf(v.target.pid)
            == SlotStep(cfg, v.target.pid, old(tracker.SlotOf(v.target.pid)),
                        ObsOf(cfg, ParamsOf(store), log + v.arrivals, v))
    ensures forall q: u32 :: q != v.target.pid ==> tracker.SlotOf(q) == old(tracker.SlotOf(q))
    ensures StoreReady(store, log + v.arrivals, v.now)
  {
    hide Gate, Chunks;
    DeliverReports(store, v.arrivals, log, v.now);
    var pid := v.target.pid;
    if v.reading.None? {
      tracker.Remove(pid);
      return Exited, [];
    }
    var snap := ProcSnapshot(pid, v.reading.value.starttime, v.reading.value.cpuNs);
    var isIdle := tracker.Update(snap, CpuNs(cfg), WakeupNs(cfg));
    var cycles := tracker.IdleCycles(pid);
    if !isIdle {
      return Active, [];
    }
    if cycles < cfg.idleCyclesThreshold {
      return WarmingUp, [];
    }
    if tracker.IsCompressed(pid) {
      return AlreadyCompressed, [];
    }
    d, sent := TryPageOut(cfg, v, store, log + v.arrivals);
    if d.Compressed? {
      tracker.MarkCompressed(pid);
    }
  }

  /** The slot of a PID part way through a cycle. */
  function SlotMidway(cfg: Config, pid: u32, before: Slot, obs: Obs): Slot {
    if obs.Unseen? then before else SlotStep(cfg, pid, before, obs)
  }

  /** One more visit changes the cycle's observation of its own PID only. */
  lemma {:induction false} ObsInSnoc(
      cfg: Config, sig: Option<SignalParams>, log: seq<Arrival>, visits: seq<Visit>, k: nat)
    requires Distinct(visits) && k < |visits|
    ensures LogAfter(log, visits[..k + 1]) == LogAfter(log, visits[..k]) + visits[k].arrivals
    ensures ObsIn(cfg, sig, log, visits[..k], visits[k].target.pid).Unseen?
    ensures !ObsOf(cfg, sig, LogAfter(log, visits[..k + 1]), visits[k]).Unseen?
    ensures forall pid: u32 ::
              ObsIn(cfg, sig, log, visits[..k + 1], pid)
              == if pid == visits[k].target.pid then ObsOf(cfg, sig, LogAfter(log, visits[..k + 1]), visits[k])
                 else ObsIn(cfg, sig, log, visits[..k], pid)
  {
    assert visits[..k + 1][..k] == visits[..k];
    UnseenMeans(cfg, sig, log, visits[..k], visits[k].target.pid);
  }

  /** The calls issued at each visit are those its decision stands for. */
  predicate Issued(visits: seq<Visit>, ds: seq<Decision>, calls: seq<seq<seq<Region>>>) {
    |calls| == |ds| == |visits| && forall k | 0 <= k < |ds| :: calls[k] == CallsOf(ds[k], visits[k].env)
  }

  lemma NothingBooked(cells: Cells)
    ensures Booked(cells, cells, [])
  {
  }

  lemma CycleStart(cfg: Config, sig: Option<SignalParams>, log: seq<Arrival>, horizon: nat)
    ensures LogAfter(log, []) == log && Horizon(horizon, []) == horizon
    ensures forall pid: u32 :: ObsIn(cfg, sig, log, [], pid).Unseen?
  {
  }

  /** The loop over the targets of a cycle. */
  method VisitTargets(cfg: Config, tracker: CpuTracker, stats: Stats, visits: seq<Visit>, store: SignalStore?,
                      ghost log: seq<Arrival>, ghost horizon: nat)
    returns (ds: seq<Decision>, calls: seq<seq<seq<Region>>>, seenPids: set<u32>)
    requires Distinct(visits) && InTime(horizon, visits) && StoreReady(store, log, horizon)
    modifies tracker, stats, store
    ensures |ds| == |visits|
    ensures seenPids == set i | 0 <= i < |visits| :: visits[i].target.pid
    ensures forall k | 0 <= k < |visits| ::
              ds[k] == DecisionFrom(cfg, ParamsOf(store), old(tracker.SlotOf(visits[k].target.pid)),
                                    LogAfter(log, visits[..k + 1]), visits[k])
    ensures forall pid: u32 ::
              tracker.SlotOf(pid) == SlotMidway(cfg, pid, old(tracker.SlotOf(pid)),
                                                ObsIn(cfg, ParamsOf(store), log, visits, pid))
    ensures StoreReady(store, LogAfter(log, visits), Horizon(horizon, visits))
    ensures Issued(visits, ds, calls)
    ensures Booked(old(stats.cells), stats.cells, ds)
  {
    hide DecisionFrom, SlotStep, ObsOf, ObsIn, LogAfter, Cell, Amount, WrapU64, Faithful, Booked, CallsOf;
    ghost var sig := ParamsOf(store);
    ds, calls, seenPids := [], [], {};
    NothingBooked(stats.cells);
    CycleStart(cfg, sig, log, horizon);
    assert visits[..0] == [];
    for k := 0 to |visits|
      invariant |ds| == k
      invariant seenPids == set i | 0 <= i < k :: visits[i].target.pid
      invariant forall i | 0 <= i < k ::
                  ds[i] == DecisionFrom(cfg, sig, old(tracker.SlotOf(visits[i].target.pid)),
                                        LogAfter(log, visits[..i + 1]), visits[i])
      invariant forall pid: u32 ::
                  tracker.SlotOf(pid) == SlotMidway(cfg, pid, old(tracker.SlotOf(pid)),
                                                    ObsIn(cfg, sig, log, visits[..k], pid))
      invariant StoreReady(store, LogAfter(log, visits[..k]), Horizon(horizon, visits[..k]))
      invariant |calls| == k && forall i | 0 <= i < k :: calls[i] == CallsOf(ds[i], visits[i].env)
      invariant Booked(old(stats.cells), stats.cells, ds)
    {
      ObsInSnoc(cfg, sig, log, visits, k);
      seenPids := seenPids + {visits[k].target.pid};
      var d, sent := VisitTarget(cfg, tracker, visits[k], store, LogAfter(log, visits[..k]));
      ghost var mid := stats.cells;
      stats.Record(d);
      BookedSnoc(old(stats.cells), mid, stats.cells, ds, d);
      ds, calls := ds + [d], calls + [sent];
    }
    assert visits[..|visits|] == visits;
  }

  /** One pass of the pipeline: the books, the targets, then the end-of-cycle sweep. */
  method ScanCycle(cfg: Config, tracker: CpuTracker, stats: Stats, visits: seq<Visit>, store: SignalStore?,
                   ghost log: seq<Arrival>, ghost horizon: nat)
    returns (ds: seq<Decision>, calls: seq<seq<seq<Region>>>)
    requires Distinct(visits) && InTime(horizon, visits) && StoreReady(store, log, horizon)
    modifies tracker, stats, store
    ensures |ds| == |visits|
    ensures forall k | 0 <= k < |visits| ::
              ds[k] == DecisionFrom(cfg, ParamsOf(store), old(tracker.SlotOf(visits[k].target.pid)),
                                    LogAfter(log, visits[..k + 1]), visits[k])
    ensures forall pid: u32 ::
              tracker.SlotOf(pid) == SlotStep(cfg, pid, old(tracker.SlotOf(pid)),
                                              ObsIn(cfg, ParamsOf(store), log, visits, pid))
    ensures StoreReady(store, LogAfter(log, visits), Horizon(horizon, visits))
    ensures Issued(visits, ds, calls)
    ensures CycleBooked(old(stats.cells), stats.cells, ds)
  {
    hide DecisionFrom, ObsOf, Bump, Booked, CycleBooked, Faithful, Issued;
    stats.Add(Scans, 1);
    stats.Add(TargetsSeen, WrapU64(|visits|));
    var seenPids;
    ds, calls, seenPids := VisitTargets(cfg, tracker, stats, visits, store, log, horizon);
    CycleBooks(old(stats.cells), stats.cells, ds);
    tracker.RetainOnly(seenPids);
    forall pid: u32
      ensures ObsIn(cfg, ParamsOf(store), log, visits, pid).Unseen? <==> pid !in seenPids
    {
      UnseenMeans(cfg, ParamsOf(store), log, visits, pid);
    }
  }
}
