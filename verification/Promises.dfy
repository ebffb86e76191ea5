/** What the daemon promises about every run, stated over the decisions `RunDaemon` takes. */
module Promises {
  import opened Base
  import opened Compressor
  import opened Signals
  import opened History
  import opened Spacing
  import opened Scan
  import Scanner
  import opened Daemon

  // ---------------------------------------------------------------- when a page-out happens

  /** The family's latest report still in its TTL, if any, gives no reason to leave the browser alone. */
  ghost predicate Unprotected(sig: Option<SignalParams>, log: seq<Arrival>, v: Visit) {
    sig.Some? && CanonicalFamily(v.target.profile).Some? ==>
      var a := Latest(log, CanonicalFamily(v.target.profile).value);
      a.Some? && v.now <= a.value.receivedAt + sig.value.ttl ==>
        && MediaTotal(a.value.report.tabs) % 0x1_0000_0000 == 0
        && forall t | t in a.value.report.tabs ::
             !t.audible && !t.windowFocused && !Recent(t, v.wallMs, sig.value.graceMs)
  }

  lemma {:induction false} UnprotectedExactly(sig: Option<SignalParams>, log: seq<Arrival>, v: Visit)
    ensures VetoFor(sig, log, v).None? <==> Unprotected(sig, log, v)
  {
    hide CanonicalFamily, VetoOf, Recent, MediaTotal;
    if sig.Some? && CanonicalFamily(v.target.profile).Some? {
      var a := Latest(log, CanonicalFamily(v.target.profile).value);
      if a.Some? {
        VetoExactly(a.value.report, v.wallMs, sig.value.graceMs);
        MediaTotalZero(a.value.report.tabs);
      }
    }
  }

  /** There is something to send and a way to send it. */
  predicate Sendable(env: PageOutEnv) {
    env.smaps.Some? && |env.smaps.value| > 0 && env.pidfd
  }

  lemma {:induction false} CallsBehindGate(cfg: Config, sig: Option<SignalParams>, log: seq<Arrival>, v: Visit)
    ensures var calls := CallsOf(Gate(cfg, sig, log, v), v.env);
            && (calls != [] <==>
                v.rssMib >= cfg.minRssMib && Unprotected(sig, log, v) && !cfg.dryRun && Sendable(v.env))
            && (calls != [] ==> Flatten(calls) == v.env.smaps.value)
  {
    hide VetoFor, Unprotected, Flatten, Chunks;
    UnprotectedExactly(sig, log, v);
    if v.env.smaps.Some? {
      ChunkShape(v.env.smaps.value);
      ChunksCover(v.env.smaps.value);
    }
  }

  /** Page-out calls are issued for a PID in exactly those cycles where it completed its idle warm-up, is not flagged
      as compressed, meets the RSS floor, no browser signal protects it, and the run is no dry run; and the calls
      together name every region of the process once. `ds` and `calls` are what the daemon returns for cycle c. */
  lemma {:induction false} PageOutExactly(cfg: Config, sig: Option<SignalParams>, run: seq<seq<Visit>>, c: nat, k: nat,
                                          ds: seq<Decision>, calls: seq<seq<seq<Region>>>)
    requires c < |run| && k < |run[c]|
    requires Decided(cfg, sig, run, c, ds) && Issued(run[c], ds, calls)
    ensures var v := run[c][k]; var h := HistoryOf(cfg, sig, run[..c + 1], v.target.pid);
            && (calls[k] != [] <==>
                && Idle(cfg, h, c)
                && WrapU32(IdleRun(cfg, h)) >= cfg.idleCyclesThreshold
                && !Flagged(cfg, h)
                && v.rssMib >= cfg.minRssMib
                && Unprotected(sig, LogAt(run, c, k), v)
                && !cfg.dryRun
                && Sendable(v.env))
            && (calls[k] != [] ==> Flatten(calls[k]) == v.env.smaps.value)
  {
    hide Gate, Flagged, IdleRun, Unprotected, HistoryOf, Chunks, Flatten, Verdict;
    CallsBehindGate(cfg, sig, LogAt(run, c, k), run[c][k]);
    VerdictCalls(cfg, sig, run, c, k);
  }

  /** Only a verdict that reaches the page-out has calls behind it. */
  lemma {:induction false} VerdictCalls(cfg: Config, sig: Option<SignalParams>, run: seq<seq<Visit>>, c: nat, k: nat)
    requires c < |run| && k < |run[c]|
    ensures var v := run[c][k]; var h := HistoryOf(cfg, sig, run[..c + 1], v.target.pid);
            CallsOf(Verdict(cfg, sig, run, c, k), v.env)
            == if Idle(cfg, h, c) && WrapU32(IdleRun(cfg, h)) >= cfg.idleCyclesThreshold && !Flagged(cfg, h)
               then CallsOf(Gate(cfg, sig, LogAt(run, c, k), v), v.env) else []
  {
    hide Gate, Flagged, IdleRun, HistoryOf, Chunks;
  }

  // ---------------------------------------------------------------- dry runs

  lemma {:induction false} DryRunObs(cfg: Config, sig: Option<SignalParams>, log: seq<Arrival>, visits: seq<Visit>, pid: u32)
    requires cfg.dryRun
    ensures var obs := ObsIn(cfg, sig, log, visits, pid); obs.Seen? ==> !obs.clear
  {
    if |visits| > 0 {
      DryRunObs(cfg, sig, log, visits[..|visits| - 1], pid);
      RealSuccessExactly(visits[|visits| - 1].env, true);
    }
  }

  lemma {:induction false} DryRunHistory(cfg: Config, sig: Option<SignalParams>, run: seq<seq<Visit>>, pid: u32, i: nat)
    requires cfg.dryRun && i < |run|
    ensures var h := HistoryOf(cfg, sig, run, pid); h[i].Seen? ==> !h[i].clear
  {
    hide ObsIn, LogAfter;
    var n := |run| - 1;
    if i < n {
      DryRunHistory(cfg, sig, run[..n], pid, i);
    } else {
      DryRunObs(cfg, sig, RunLog(run[..n]), run[n], pid);
    }
  }

  lemma {:induction false} NeverClearNeverPaged(cfg: Config, h: seq<Obs>)
    requires forall i | 0 <= i < |h| :: h[i].Seen? ==> !h[i].clear
    ensures !PagedOut(cfg, h) && !Flagged(cfg, h)
  {
    forall k | 0 < k < |h|
      ensures !PagedOut(cfg, h[..k])
    {
      NeverClearNeverPaged(cfg, h[..k]);
    }
  }

  /** In a dry run no page-out call is ever issued and no PID is ever flagged. */
  lemma {:induction false} DryRunTouchesNothing(cfg: Config, sig: Option<SignalParams>, run: seq<seq<Visit>>, pid: u32,
                                                dss: seq<seq<Decision>>, calls: seq<seq<seq<seq<Region>>>>)
    requires cfg.dryRun && |dss| == |calls| == |run|
    requires forall c | 0 <= c < |run| :: Decided(cfg, sig, run, c, dss[c]) && Issued(run[c], dss[c], calls[c])
    ensures SlotByHistory(cfg, pid, HistoryOf(cfg, sig, run, pid)).flag == None
    ensures forall c, k | 0 <= c < |run| && 0 <= k < |calls[c]| :: calls[c][k] == []
  {
    hide ObsIn, HistoryOf, PagedOut, Flagged, Idle, IdleRun, Decided, Unprotected, Chunks;
    var h := HistoryOf(cfg, sig, run, pid);
    forall i | 0 <= i < |h|
      ensures h[i].Seen? ==> !h[i].clear
    {
      DryRunHistory(cfg, sig, run, pid, i);
    }
    NeverClearNeverPaged(cfg, h);
    forall c, k | 0 <= c < |run| && 0 <= k < |calls[c]|
      ensures calls[c][k] == []
    {
      PageOutExactly(cfg, sig, run, c, k, dss[c], calls[c]);
    }
  }

  // ---------------------------------------------------------------- once until real activity

  lemma {:induction false} HistoryPrefix(cfg: Config, sig: Option<SignalParams>, run: seq<seq<Visit>>, n: nat, pid: u32)
    requires n <= |run|
    ensures HistoryOf(cfg, sig, run, pid)[..n] == HistoryOf(cfg, sig, run[..n], pid)
  {
    hide ObsIn;
    var last := |run| - 1;
    if n <= last {
      HistoryPrefix(cfg, sig, run[..last], n, pid);
      assert run[..last][..n] == run[..n];
    } else {
      assert run[..n] == run;
    }
  }

  /** A successful compression is exactly what the history calls a page-out. */
  lemma {:induction false} CompressedIsPagedOut(cfg: Config, sig: Option<SignalParams>, run: seq<seq<Visit>>, c: nat, k: nat)
    requires c < |run| && k < |run[c]| && Distinct(run[c])
    ensures Verdict(cfg, sig, run, c, k).Compressed?
            <==> PagedAt(cfg, HistoryOf(cfg, sig, run, run[c][k].target.pid), c)
  {
    hide Gate, Flagged, IdleRun, ObsIn;
    var pid := run[c][k].target.pid;
    HistoryPrefix(cfg, sig, run, c + 1, pid);
    HistorySnoc(cfg, sig, run, c, pid);
    ObsInMeans(cfg, sig, RunLog(run[..c]), run[c], k);
  }

  /** The PID was unobserved in cycle j or the one before, changed its start time, or burnt more than the wakeup ticks. */
  predicate RealActivity(cfg: Config, h: seq<Obs>, j: nat) {
    0 < j < |h| &&
    (|| !h[j].Seen? || !h[j - 1].Seen? || h[j].starttime != h[j - 1].starttime
     || h[j].cpuNs > h[j - 1].cpuNs + cfg.wakeupDeltaThreshold * 10_000_000 % 0x1_0000_0000_0000_0000)
  }

  /** Between two successful compressions of a PID it was unobserved, changed identity or truly woke up; and they
      are at least 1 + max(1, threshold) cycles apart whenever the configuration keeps the spacing law. */
  lemma {:induction false} OnceUntilActivity(
      cfg: Config, sig: Option<SignalParams>, run: seq<seq<Visit>>, c: nat, k: nat, c': nat, k': nat)
    requires c < c' < |run| && k < |run[c]| && k' < |run[c']| && Distinct(run[c]) && Distinct(run[c'])
    requires run[c][k].target.pid == run[c'][k'].target.pid
    requires Verdict(cfg, sig, run, c, k).Compressed? && Verdict(cfg, sig, run, c', k').Compressed?
    ensures exists j | c < j <= c' :: RealActivity(cfg, HistoryOf(cfg, sig, run, run[c][k].target.pid), j)
    ensures KeepsSpacing(cfg) ==> c' - c >= 1 + Warmup(cfg)
  {
    hide Verdict, HistoryOf, PagedAt, KeepsSpacing, Undisturbed, RealActivity;
    var h := HistoryOf(cfg, sig, run, run[c][k].target.pid);
    CompressedIsPagedOut(cfg, sig, run, c, k);
    CompressedIsPagedOut(cfg, sig, run, c', k');
    ActivityBetween(cfg, h, c, c');
    var j :| c < j <= c' && !Undisturbed(cfg, h, j);
    DisturbedIsActivity(cfg, h, j);
    if KeepsSpacing(cfg) {
      PageOutsAreSpaced(cfg, h, c, c');
    }
  }

  lemma {:induction false} DisturbedIsActivity(cfg: Config, h: seq<Obs>, j: nat)
    requires 0 < j < |h| && !Undisturbed(cfg, h, j)
    ensures RealActivity(cfg, h, j)
  {
    DisturbedExactly(cfg, h, j);
  }

  /** Cycle c compresses the PID. */
  ghost predicate CompressedIn(cfg: Config, sig: Option<SignalParams>, run: seq<seq<Visit>>, pid: u32, c: nat) {
    c < |run| && exists k | 0 <= k < |run[c]| :: run[c][k].target.pid == pid && Verdict(cfg, sig, run, c, k).Compressed?
  }

  /** Number of the first n cycles that compress the PID. */
  ghost function TimesCompressed(cfg: Config, sig: Option<SignalParams>, run: seq<seq<Visit>>, pid: u32, n: nat): nat {
    if n == 0 then 0
    else TimesCompressed(cfg, sig, run, pid, n - 1) + if CompressedIn(cfg, sig, run, pid, n - 1) then 1 else 0
  }

  lemma {:induction false} CompressedInHistory(cfg: Config, sig: Option<SignalParams>, run: seq<seq<Visit>>, pid: u32, c: nat)
    requires c < |run| && Distinct(run[c])
    ensures CompressedIn(cfg, sig, run, pid, c) <==> PagedAt(cfg, HistoryOf(cfg, sig, run, pid), c)
  {
    hide Verdict, Flagged, IdleRun, ObsIn;
    forall k | 0 <= k < |run[c]| && run[c][k].target.pid == pid
      ensures Verdict(cfg, sig, run, c, k).Compressed? <==> PagedAt(cfg, HistoryOf(cfg, sig, run, pid), c)
    {
      CompressedIsPagedOut(cfg, sig, run, c, k);
    }
    if forall k | 0 <= k < |run[c]| :: run[c][k].target.pid != pid {
      UnseenMeans(cfg, sig, RunLog(run[..c]), run[c], pid);
      HistoryPrefix(cfg, sig, run, c + 1, pid);
      HistorySnoc(cfg, sig, run, c, pid);
    }
  }

  lemma {:induction false} TimesCompressedIsPageOuts(
      cfg: Config, sig: Option<SignalParams>, run: seq<seq<Visit>>, pid: u32, n: nat)
    requires n <= |run| && forall c | 0 <= c < |run| :: Distinct(run[c])
    ensures TimesCompressed(cfg, sig, run, pid, n) == PageOuts(cfg, HistoryOf(cfg, sig, run, pid)[..n])
  {
    hide CompressedIn, PagedOut, HistoryOf;
    if n > 0 {
      TimesCompressedIsPageOuts(cfg, sig, run, pid, n - 1);
      CompressedInHistory(cfg, sig, run, pid, n - 1);
      var h := HistoryOf(cfg, sig, run, pid);
      assert h[..n][..n - 1] == h[..n - 1];
    }
  }

  /** In n cycles a PID is compressed at most n / (1 + max(1, threshold)) times. */
  lemma {:induction false} CompressionBudget(cfg: Config, sig: Option<SignalParams>, run: seq<seq<Visit>>, pid: u32)
    requires KeepsSpacing(cfg) && forall c | 0 <= c < |run| :: Distinct(run[c])
    ensures TimesCompressed(cfg, sig, run, pid, |run|) * (1 + Warmup(cfg)) <= |run|
  {
    hide HistoryOf, TimesCompressed, PageOuts;
    var h := HistoryOf(cfg, sig, run, pid);
    assert h[..|run|] == h;
    TimesCompressedIsPageOuts(cfg, sig, run, pid, |run|);
    PageOutBudget(cfg, h);
  }

  // ---------------------------------------------------------------- when the spacing is kept

  predicate ProperRun(run: seq<seq<Visit>>) { forall c | 0 <= c < |run| :: CycleOk(run, c) }

  /** In every run of the daemon two compressions of one PID are at least 1 + max(1, threshold) cycles apart. */
  ghost predicate SpacingLaw(cfg: Config, sig: Option<SignalParams>) {
    forall run: seq<seq<Visit>>, pid: u32, c: nat, c': nat | ProperRun(run) && c < c' ::
      CompressedIn(cfg, sig, run, pid, c) && CompressedIn(cfg, sig, run, pid, c') ==> c' - c >= 1 + Warmup(cfg)
  }

  /** The visit that shows the daemon observation i of `Relapse`: one region, an accepting kernel, no browser. */
  function RelapseVisit(cfg: Config, i: nat): Visit
    requires WakeupNs(cfg) < CpuNs(cfg)
  {
    Visit(Scanner.Target(1, ""), Some(Reading(0, if i <= Warmup(cfg) then 0 else WakeupNs(cfg) + 1)), cfg.minRssMib, [],
          0, 0, PageOutEnv(Some([Region(0, 1)]), true, _ => 0))
  }

  function RelapseRun(cfg: Config): (run: seq<seq<Visit>>)
    requires WakeupNs(cfg) < CpuNs(cfg)
    ensures |run| == Warmup(cfg) + 2 && forall i | 0 <= i < |run| :: run[i] == [RelapseVisit(cfg, i)]
  {
    seq(Warmup(cfg) + 2, i requires 0 <= i => [RelapseVisit(cfg, i)])
  }

  lemma {:induction false} RelapseObs(cfg: Config, sig: Option<SignalParams>, log: seq<Arrival>, i: nat)
    requires !KeepsSpacing(cfg) && !cfg.dryRun && i < Warmup(cfg) + 2
    ensures ObsIn(cfg, sig, log, [RelapseVisit(cfg, i)], 1) == Relapse(cfg)[i]
  {
    var v := RelapseVisit(cfg, i);
    RealSuccessExactly(v.env, false);
    assert CanonicalFamily("").None?;
  }

  lemma {:induction false} RelapseHistory(cfg: Config, sig: Option<SignalParams>, n: nat)
    requires !KeepsSpacing(cfg) && !cfg.dryRun && n <= Warmup(cfg) + 2
    ensures HistoryOf(cfg, sig, RelapseRun(cfg)[..n], 1) == Relapse(cfg)[..n]
  {
    hide ObsIn, LogAfter, RelapseVisit;
    if n > 0 {
      var run := RelapseRun(cfg);
      RelapseHistory(cfg, sig, n - 1);
      assert run[..n][..n - 1] == run[..n - 1];
      RelapseObs(cfg, sig, RunLog(run[..n - 1]), n - 1);
    }
  }

  lemma {:induction false} RelapseIsProper(cfg: Config, n: nat)
    requires WakeupNs(cfg) < CpuNs(cfg) && n <= Warmup(cfg) + 2
    ensures RunHorizon(RelapseRun(cfg)[..n]) == 0 && ProperRun(RelapseRun(cfg)[..n])
  {
    var run := RelapseRun(cfg);
    if n > 0 {
      RelapseIsProper(cfg, n - 1);
      assert run[..n][..n - 1] == run[..n - 1];
      assert forall c | 0 <= c < n - 1 :: run[..n][..c] == run[..n - 1][..c] && CycleOk(run[..n - 1], c);
    }
  }

  /** The configured idle ticks do not exceed the wakeup ticks, both times 10^7 modulo 2^64. */
  predicate BarsInOrder(cfg: Config) {
    cfg.cpuDeltaThreshold * 10_000_000 % 0x1_0000_0000_0000_0000
    <= cfg.wakeupDeltaThreshold * 10_000_000 % 0x1_0000_0000_0000_0000
  }

  lemma {:induction false} OrderInFields(cfg: Config)
    ensures KeepsSpacing(cfg) <==> BarsInOrder(cfg) || cfg.idleCyclesThreshold == 0xFFFF_FFFF
    ensures cfg.cpuDeltaThreshold * 10_000_000 < U64_LIMIT && cfg.wakeupDeltaThreshold * 10_000_000 < U64_LIMIT ==>
            (BarsInOrder(cfg) <==> cfg.cpuDeltaThreshold <= cfg.wakeupDeltaThreshold)
  {
    hide CpuNs, WakeupNs;
    BarsInTicks(cfg);
  }

  /** The promised spacing holds over every run of the daemon, whatever the signal server, if and only if the idle
      ticks do not exceed the wakeup ticks, the warm-up is the largest possible, or the run is a dry run. */
  lemma {:induction false} SpacingExactly(cfg: Config, sig: Option<SignalParams>)
    ensures SpacingLaw(cfg, sig) <==> BarsInOrder(cfg) || cfg.idleCyclesThreshold == 0xFFFF_FFFF || cfg.dryRun
    ensures cfg.cpuDeltaThreshold * 10_000_000 < U64_LIMIT && cfg.wakeupDeltaThreshold * 10_000_000 < U64_LIMIT ==>
            (BarsInOrder(cfg) <==> cfg.cpuDeltaThreshold <= cfg.wakeupDeltaThreshold)
  {
    OrderInFields(cfg);
    hide BarsInOrder, CompressedIn, PagedAt, KeepsSpacing, HistoryOf, CycleOk, Warmup, PagedOut;
    if KeepsSpacing(cfg) || cfg.dryRun {
      forall run: seq<seq<Visit>>, pid: u32, c: nat, c': nat
        | ProperRun(run) && c < c' && CompressedIn(cfg, sig, run, pid, c) && CompressedIn(cfg, sig, run, pid, c')
        ensures c' - c >= 1 + Warmup(cfg)
      {
        SpacedIn(cfg, sig, run, pid, c, c');
      }
    } else {
      RelapseBreaks(cfg, sig);
    }
  }

  lemma {:induction false} SpacedIn(
      cfg: Config, sig: Option<SignalParams>, run: seq<seq<Visit>>, pid: u32, c: nat, c': nat)
    requires (KeepsSpacing(cfg) || cfg.dryRun) && ProperRun(run) && c < c'
    requires CompressedIn(cfg, sig, run, pid, c) && CompressedIn(cfg, sig, run, pid, c')
    ensures c' - c >= 1 + Warmup(cfg)
  {
    hide KeepsSpacing, HistoryOf, Warmup, PagedOut, Verdict, RunHorizon, InTime;
    var h := HistoryOf(cfg, sig, run, pid);
    assert CycleOk(run, c) && CycleOk(run, c');
    CompressedInHistory(cfg, sig, run, pid, c);
    CompressedInHistory(cfg, sig, run, pid, c');
    if KeepsSpacing(cfg) {
      PageOutsAreSpaced(cfg, h, c, c');
    } else {
      var p := h[..c + 1];
      forall i | 0 <= i < |p|
        ensures p[i].Seen? ==> !p[i].clear
      {
        DryRunHistory(cfg, sig, run, pid, i);
      }
      NeverClearNeverPaged(cfg, p);
      assert false;
    }
  }

  lemma {:induction false} RelapseBreaks(cfg: Config, sig: Option<SignalParams>)
    requires !KeepsSpacing(cfg) && !cfg.dryRun
    ensures !SpacingLaw(cfg, sig)
  {
    hide HistoryOf, Warmup, PagedOut, Verdict, RunHorizon, InTime, RelapseVisit, CompressedIn;
    var run, m := RelapseRun(cfg), Warmup(cfg);
    assert run[..m + 2] == run && Relapse(cfg)[..m + 2] == Relapse(cfg);
    RelapseHistory(cfg, sig, m + 2);
    RelapseIsProper(cfg, m + 2);
    RelapseBreaksSpacing(cfg);
    assert CycleOk(run, m) && CycleOk(run, m + 1);
    CompressedInHistory(cfg, sig, run, 1, m);
    CompressedInHistory(cfg, sig, run, 1, m + 1);
    assert CompressedIn(cfg, sig, run, 1, m) && CompressedIn(cfg, sig, run, 1, m + 1);
  }

  // ---------------------------------------------------------------- the books

  /** Bytes asked for by the successful compressions of a cycle. */
  function Requested(visits: seq<Visit>, ds: seq<Decision>): nat {
    if |ds| == 0 || |visits| != |ds| then 0
    else
      var n := |ds| - 1;
      Requested(visits[..n], ds[..n])
      + if ds[n].Compressed? && visits[n].env.smaps.Some? then TotalSize(visits[n].env.smaps.value) else 0
  }

  /** Bytes the kernel reported for the successful compressions of a cycle. */
  function Accepted(visits: seq<Visit>, ds: seq<Decision>): nat {
    if |ds| == 0 || |visits| != |ds| then 0
    else
      var n, env := |ds| - 1, visits[|ds| - 1].env;
      Accepted(visits[..n], ds[..n])
      + if ds[n].Compressed? && env.smaps.Some? then Advised(env.kernel, |Chunks(env.smaps.value)|) else 0
  }

  /** The kernel answers within the batch and the regions fit the address space. */
  predicate Sound(env: PageOutEnv) {
    env.smaps.Some? ==> TotalSize(env.smaps.value) < U64_LIMIT && HonestKernel(env.kernel, Chunks(env.smaps.value))
  }

  /** In one cycle, paged-out bytes are those the kernel reported, and with the kernel-skipped bytes they are the
      bytes asked for. */
  lemma {:induction false} BytesAreBooked(visits: seq<Visit>, ds: seq<Decision>)
    requires |visits| == |ds|
    requires forall k | 0 <= k < |ds| :: Sound(visits[k].env)
    requires forall k | 0 <= k < |ds| && ds[k].Compressed? :: CompressResult(visits[k].env, false) == Some(ds[k].outcome)
    ensures Amounts(BytesPagedOut, ds) == Accepted(visits, ds)
    ensures Amounts(BytesPagedOut, ds) + Amounts(BytesSkipped, ds) == Requested(visits, ds)
  {
    hide CompressResult, HonestKernel, Chunks, Advised;
    if |ds| > 0 {
      var n := |ds| - 1;
      BytesAreBooked(visits[..n], ds[..n]);
      if ds[n].Compressed? {
        SuccessHasRegions(visits[n].env);
        BytesAreConserved(visits[n].env);
      }
    }
  }

  lemma {:induction false} SuccessHasRegions(env: PageOutEnv)
    requires CompressResult(env, false).Some?
    ensures env.smaps.Some? && env.pidfd
  {
  }

  function RunRequested(run: seq<seq<Visit>>, dss: seq<seq<Decision>>): nat {
    if |run| == 0 || |run| != |dss| then 0
    else
      var n := |run| - 1;
      RunRequested(run[..n], dss[..n]) + Requested(run[n], dss[n])
  }

  function RunAccepted(run: seq<seq<Visit>>, dss: seq<seq<Decision>>): nat {
    if |run| == 0 || |run| != |dss| then 0
    else
      var n := |run| - 1;
      RunAccepted(run[..n], dss[..n]) + Accepted(run[n], dss[n])
  }

  lemma {:induction false} VerdictOutcome(cfg: Config, sig: Option<SignalParams>, run: seq<seq<Visit>>, c: nat, k: nat)
    requires c < |run| && k < |run[c]| && Verdict(cfg, sig, run, c, k).Compressed?
    ensures CompressResult(run[c][k].env, false) == Some(Verdict(cfg, sig, run, c, k).outcome)
  {
    hide VetoFor, HistoryOf, Idle, IdleRun, Flagged;
    RealSuccessExactly(run[c][k].env, cfg.dryRun);
  }

  lemma {:induction false} BytesUpTo(
      cfg: Config, sig: Option<SignalParams>, run: seq<seq<Visit>>, dss: seq<seq<Decision>>, n: nat)
    requires n <= |run| == |dss| && forall c | 0 <= c < |run| :: Decided(cfg, sig, run, c, dss[c])
    requires forall c, k | 0 <= c < |run| && 0 <= k < |run[c]| :: Sound(run[c][k].env)
    ensures RunAmount(BytesPagedOut, dss[..n]) == RunAccepted(run[..n], dss[..n])
    ensures RunAmount(BytesPagedOut, dss[..n]) + RunAmount(BytesSkipped, dss[..n]) == RunRequested(run[..n], dss[..n])
  {
    hide Verdict, Sound, CompressResult, Amounts, Requested, Accepted;
    if n > 0 {
      BytesUpTo(cfg, sig, run, dss, n - 1);
      assert run[..n][..n - 1] == run[..n - 1] && dss[..n][..n - 1] == dss[..n - 1];
      var visits, ds := run[n - 1], dss[n - 1];
      assert Decided(cfg, sig, run, n - 1, ds);
      forall k | 0 <= k < |ds| && ds[k].Compressed?
        ensures CompressResult(visits[k].env, false) == Some(ds[k].outcome)
      {
        VerdictOutcome(cfg, sig, run, n - 1, k);
      }
      BytesAreBooked(visits, ds);
    }
  }

  /** After any run, modulo 2^64, the paged-out counter holds the bytes the kernel reported for all successful
      compressions, and with the kernel-skipped counter it adds up to the bytes they requested. */
  lemma {:induction false} BytesBalance(
      cfg: Config, sig: Option<SignalParams>, run: seq<seq<Visit>>, dss: seq<seq<Decision>>, cells: Cells)
    requires |run| == |dss| && forall c | 0 <= c < |run| :: Decided(cfg, sig, run, c, dss[c])
    requires forall c, k | 0 <= c < |run| && 0 <= k < |run[c]| :: Sound(run[c][k].env)
    requires Totals(cells, dss)
    ensures Cell(cells, BytesPagedOut) == WrapU64(RunAccepted(run, dss))
    ensures WrapU64(Cell(cells, BytesPagedOut) + Cell(cells, BytesSkipped)) == WrapU64(RunRequested(run, dss))
  {
    hide Verdict, Sound, RunAmount, RunRequested, RunAccepted, WrapU64, Cell;
    BytesUpTo(cfg, sig, run, dss, |run|);
    assert run[..|run|] == run && dss[..|run|] == dss;
    var paged, skipped := RunAmount(BytesPagedOut, dss), RunAmount(BytesSkipped, dss);
    WrapAdd(paged, WrapU64(skipped));
    WrapAdd(skipped, paged);
  }

  lemma {:induction false} WrapSum(a: nat, b: nat, c: nat, x: nat)
    ensures WrapU64(WrapU64(a) + WrapU64(b) + WrapU64(c) + x) == WrapU64(a + b + c + x)
  {
    hide WrapU64;
    WrapAdd(a, WrapU64(b) + WrapU64(c) + x);
    WrapAdd(b, a + WrapU64(c) + x);
    WrapAdd(c, a + b + x);
  }

  /** After any run, every target seen is found again in exactly one outcome counter, modulo 2^64; only exits and
      dry runs leave no trace. */
  lemma {:induction false} TargetsBalance(dss: seq<seq<Decision>>, cells: Cells)
    requires Totals(cells, dss)
    ensures Cell(cells, TargetsSeen)
            == WrapU64(Cell(cells, SkipsActive) + Cell(cells, SkipsWarmup) + Cell(cells, SkipsAlreadyCompressed)
                       + Cell(cells, SkipsLowRss) + Cell(cells, SkipsBrowserSignals)
                       + Cell(cells, Compressions) + Cell(cells, Errors) + RunUnbooked(dss))
  {
    hide RunAmount, RunUnbooked, WrapU64, Cell;
    EveryTargetIsAccounted(dss);
    var a, b, c := RunAmount(SkipsActive, dss), RunAmount(SkipsWarmup, dss), RunAmount(SkipsAlreadyCompressed, dss);
    var d, e, f := RunAmount(SkipsLowRss, dss), RunAmount(SkipsBrowserSignals, dss), RunAmount(Compressions, dss);
    var g, u := RunAmount(Errors, dss), RunUnbooked(dss);
    WrapSum(a, b, c, WrapU64(d) + WrapU64(e) + WrapU64(f) + WrapU64(g) + u);
    WrapSum(d, e, f, a + b + c + WrapU64(g) + u);
    WrapAdd(g, a + b + c + d + e + f + u);
  }
}
