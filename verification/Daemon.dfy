/** The daemon's main loop over any number of cycles, and what holds over every run of it. */
module Daemon {
  import opened Base
  import opened Compressor
  import opened Signals
  import opened Tracker
  import opened History
  import opened Scan

  /** The reports received by the time visit k of cycle c asks for a veto. */
  function LogAt(run: seq<seq<Visit>>, c: nat, k: nat): seq<Arrival>
    requires c < |run| && k < |run[c]|
  {
    LogAfter(RunLog(run[..c]), run[c][..k + 1])
  }

  /** The decision that visit k of cycle c calls for, by the whole history of its PID. */
  ghost function Verdict(cfg: Config, sig: Option<SignalParams>, run: seq<seq<Visit>>, c: nat, k: nat): Decision
    requires c < |run| && k < |run[c]|
  {
    DecisionByHistory(cfg, HistoryOf(cfg, sig, run[..c + 1], run[c][k].target.pid),
                      Gate(cfg, sig, LogAt(run, c, k), run[c][k]))
  }

  /** A cycle extends the history of each of its PIDs by that PID's own visit. */
  lemma {:induction false} HistorySnoc(cfg: Config, sig: Option<SignalParams>, run: seq<seq<Visit>>, c: nat, pid: u32)
    requires c < |run|
    ensures HistoryOf(cfg, sig, run[..c + 1], pid)
            == HistoryOf(cfg, sig, run[..c], pid) + [ObsIn(cfg, sig, RunLog(run[..c]), run[c], pid)]
    ensures RunLog(run[..c + 1]) == LogAfter(RunLog(run[..c]), run[c])
    ensures RunHorizon(run[..c + 1]) == Horizon(RunHorizon(run[..c]), run[c])
  {
    assert run[..c + 1][..c] == run[..c];
  }

  lemma {:induction false} VerdictFromSlot(cfg: Config, sig: Option<SignalParams>, run: seq<seq<Visit>>, c: nat, k: nat)
    requires c < |run| && k < |run[c]| && Distinct(run[c])
    ensures var pid := run[c][k].target.pid;
            DecisionFrom(cfg, sig, SlotAfter(cfg, pid, HistoryOf(cfg, sig, run[..c], pid)), LogAt(run, c, k), run[c][k])
            == Verdict(cfg, sig, run, c, k)
  {
    hide DecisionFrom, DecisionByHistory, Gate, ObsOf, ObsIn;
    var pid := run[c][k].target.pid;
    DecisionAgrees(cfg, sig, HistoryOf(cfg, sig, run[..c], pid), LogAt(run, c, k), run[c][k]);
    ObsInMeans(cfg, sig, RunLog(run[..c]), run[c], k);
    HistorySnoc(cfg, sig, run, c, pid);
  }

  lemma {:induction false} SlotSnoc(cfg: Config, sig: Option<SignalParams>, run: seq<seq<Visit>>, c: nat, pid: u32)
    requires c < |run|
    ensures SlotAfter(cfg, pid, HistoryOf(cfg, sig, run[..c + 1], pid))
            == SlotStep(cfg, pid, SlotAfter(cfg, pid, HistoryOf(cfg, sig, run[..c], pid)),
                        ObsIn(cfg, sig, RunLog(run[..c]), run[c], pid))
  {
    hide SlotStep, ObsIn;
    HistorySnoc(cfg, sig, run, c, pid);
    var h := HistoryOf(cfg, sig, run[..c], pid);
    assert HistoryOf(cfg, sig, run[..c + 1], pid)[..|h|] == h;
  }

  ghost predicate TrackerAt(cfg: Config, sig: Option<SignalParams>, run: seq<seq<Visit>>, tracker: CpuTracker)
    reads tracker
  {
    forall pid: u32 :: tracker.SlotOf(pid) == SlotAfter(cfg, pid, HistoryOf(cfg, sig, run, pid))
  }

  ghost predicate StoreAt(run: seq<seq<Visit>>, store: SignalStore?)
    reads store
  {
    StoreReady(store, RunLog(run), RunHorizon(run))
  }

  ghost predicate Decided(cfg: Config, sig: Option<SignalParams>, run: seq<seq<Visit>>, c: nat, ds: seq<Decision>)
    requires c < |run|
  {
    |ds| == |run[c]| && forall k | 0 <= k < |ds| :: ds[k] == Verdict(cfg, sig, run, c, k)
  }

  lemma NoTotals()
    ensures Totals(map[], [])
  {
  }

  /** Cycle c of the run. */
  method OneCycle(cfg: Config, run: seq<seq<Visit>>, c: nat, tracker: CpuTracker, stats: Stats, store: SignalStore?)
    returns (ds: seq<Decision>, calls: seq<seq<seq<Region>>>)
    requires c < |run| && CycleOk(run, c)
    requires TrackerAt(cfg, ParamsOf(store), run[..c], tracker) && StoreAt(run[..c], store)
    modifies tracker, stats, store
    ensures Decided(cfg, ParamsOf(store), run, c, ds)
    ensures TrackerAt(cfg, ParamsOf(store), run[..c + 1], tracker) && StoreAt(run[..c + 1], store)
    ensures Issued(run[c], ds, calls)
    ensures CycleBooked(old(stats.cells), stats.cells, ds)
  {
    hide DecisionFrom, SlotStep, ObsIn, LogAfter, CycleBooked, Issued, Faithful, Verdict, HistoryOf, SlotAfter;
    ghost var sig := ParamsOf(store);
    ds, calls := ScanCycle(cfg, tracker, stats, run[c], store, RunLog(run[..c]), RunHorizon(run[..c]));
    forall k | 0 <= k < |run[c]|
      ensures ds[k] == Verdict(cfg, sig, run, c, k)
    {
      VerdictFromSlot(cfg, sig, run, c, k);
    }
    forall pid: u32
      ensures tracker.SlotOf(pid) == SlotAfter(cfg, pid, HistoryOf(cfg, sig, run[..c + 1], pid))
    {
      SlotSnoc(cfg, sig, run, c, pid);
    }
    HistorySnoc(cfg, sig, run, c, 0);
  }

  /** The main loop. Timer ticks and memory-pressure events are both just cycles. */
  method RunDaemon(cfg: Config, run: seq<seq<Visit>>, store: SignalStore?)
    returns (dss: seq<seq<Decision>>, calls: seq<seq<seq<seq<Region>>>>, tracker: CpuTracker, stats: Stats)
    requires StoreReady(store, [], 0)
    requires forall c | 0 <= c < |run| :: CycleOk(run, c)
    modifies store
    ensures |dss| == |run| && forall c | 0 <= c < |run| :: Decided(cfg, ParamsOf(store), run, c, dss[c])
    ensures forall pid: u32 ::
              tracker.SlotOf(pid) == SlotByHistory(cfg, pid, HistoryOf(cfg, ParamsOf(store), run, pid))
    ensures |calls| == |run| && forall c | 0 <= c < |run| :: Issued(run[c], dss[c], calls[c])
    ensures Totals(stats.cells, dss)
  {
    hide CycleBooked, Totals, Issued, Decided, StoreReady, CycleOk;
    ghost var sig := ParamsOf(store);
    tracker := new CpuTracker();
    stats := new Stats();
    dss, calls := [], [];
    NoTotals();
    for c := 0 to |run|
      invariant fresh(tracker) && fresh(stats)
      invariant |dss| == c && forall i | 0 <= i < c :: Decided(cfg, sig, run, i, dss[i])
      invariant TrackerAt(cfg, sig, run[..c], tracker) && StoreAt(run[..c], store)
      invariant |calls| == c && forall i | 0 <= i < c :: Issued(run[i], dss[i], calls[i])
      invariant Totals(stats.cells, dss)
    {
      ghost var before := stats.cells;
      var ds, sent := OneCycle(cfg, run, c, tracker, stats, store);
      CountersHoldTotals(before, stats.cells, dss, ds);
      dss, calls := dss + [ds], calls + [sent];
    }
    assert run[..|run|] == run;
    forall pid: u32
      ensures tracker.SlotOf(pid) == SlotByHistory(cfg, pid, HistoryOf(cfg, sig, run, pid))
    {
      TrackerIsHistory(cfg, pid, HistoryOf(cfg, sig, run, pid));
    }
  }
}
