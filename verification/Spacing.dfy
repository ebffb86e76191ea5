/** "Compressed once until real user activity": how far apart the page-outs of one PID are, in every run. */
module Spacing {
  import opened Base
  import opened History

  /** Idle cycles a page-out needs right before it. */
  function Warmup(cfg: Config): (m: nat)
    ensures 1 <= m < U32_LIMIT && m >= cfg.idleCyclesThreshold
  {
    Max(1, cfg.idleCyclesThreshold)
  }

  /** Cycle i of the history pages the PID out. */
  ghost predicate PagedAt(cfg: Config, h: seq<Obs>, i: nat) {
    i < |h| && PagedOut(cfg, h[..i + 1])
  }

  lemma {:induction false} PrefixIdle(cfg: Config, h: seq<Obs>, n: nat, i: nat)
    requires i < n <= |h|
    ensures Idle(cfg, h[..n], i) == Idle(cfg, h, i) && Undisturbed(cfg, h[..n], i) == Undisturbed(cfg, h, i)
  {
    PrefixDelta(h, n, i);
  }

  /** A page-out in cycle j closes a full warm-up: the last Warmup cycles were all idle. */
  lemma {:induction false} WarmupBefore(cfg: Config, h: seq<Obs>, j: nat)
    requires PagedAt(cfg, h, j)
    ensures Warmup(cfg) <= j
    ensures forall k | j - Warmup(cfg) < k <= j :: Idle(cfg, h, k)
  {
    var p := h[..j + 1];
    var n := IdleRun(cfg, p);
    assert n >= Warmup(cfg);
    assert n == |p| ==> Idle(cfg, p, 0);
    forall k: nat | j - Warmup(cfg) < k <= j
      ensures Idle(cfg, h, k)
    {
      PrefixIdle(cfg, h, j + 1, k);
    }
  }

  /** Between two page-outs of a PID lies a cycle where it was unobserved, changed identity or truly woke up. */
  lemma {:induction false} ActivityBetween(cfg: Config, h: seq<Obs>, i: nat, j: nat)
    requires i < j && PagedAt(cfg, h, i) && PagedAt(cfg, h, j)
    ensures exists k | i < k <= j :: !Undisturbed(cfg, h, k)
  {
    var p := h[..j + 1];
    assert !UndisturbedFrom(cfg, p, i + 1) by {
      assert p[..i + 1] == h[..i + 1];
      assert PagedOut(cfg, p[..i + 1]) && !Flagged(cfg, p);
    }
    var k :| i + 1 <= k < |p| && !Undisturbed(cfg, p, k);
    PrefixIdle(cfg, h, j + 1, k);
  }

  /** With the wakeup bar at or above the idle bar, a disturbed cycle is never an idle one. */
  lemma DisturbedIsNotIdle(cfg: Config, h: seq<Obs>, k: nat)
    requires k < |h| && CpuNs(cfg) <= WakeupNs(cfg)
    ensures !Undisturbed(cfg, h, k) ==> !Idle(cfg, h, k)
  {
  }

  /** Idle cycles in a row add up. */
  lemma {:induction false} IdleRunGrows(cfg: Config, h: seq<Obs>, i: nat, j: nat)
    requires i <= j < |h|
    requires forall k | i < k <= j :: Idle(cfg, h, k)
    ensures IdleRun(cfg, h[..j + 1]) == IdleRun(cfg, h[..i + 1]) + (j - i)
  {
    if i < j {
      IdleRunGrows(cfg, h, i, j - 1);
      PrefixIdle(cfg, h, j + 1, j);
      assert h[..j + 1][..j] == h[..j];
    }
  }

  /** The configurations under which page-outs are spaced in every history: idle bar at most the wakeup bar, both in
      nanoseconds after wrap-around, or the one threshold the 32-bit counter reaches only once per wrap. */
  predicate KeepsSpacing(cfg: Config) {
    CpuNs(cfg) <= WakeupNs(cfg) || cfg.idleCyclesThreshold == U32_LIMIT - 1
  }

  lemma {:induction false} PageOutsAreSpaced(cfg: Config, h: seq<Obs>, i: nat, j: nat)
    requires KeepsSpacing(cfg)
    requires i < j && PagedAt(cfg, h, i) && PagedAt(cfg, h, j)
    ensures j - i >= 1 + Warmup(cfg)
  {
    WarmupBefore(cfg, h, j);
    if CpuNs(cfg) <= WakeupNs(cfg) {
      ActivityBetween(cfg, h, i, j);
      var k :| i < k <= j && !Undisturbed(cfg, h, k);
      DisturbedIsNotIdle(cfg, h, k);
    } else if forall k | i < k <= j :: Idle(cfg, h, k) {
      IdleRunGrows(cfg, h, i, j);
      WrapGap(IdleRun(cfg, h[..i + 1]), j - i);
    }
  }

  /** Warmup + 1 still observations, then a delta just above the wakeup bar. */
  function Relapse(cfg: Config): seq<Obs>
    requires WakeupNs(cfg) < CpuNs(cfg)
  {
    seq(Warmup(cfg) + 2, i requires 0 <= i => Seen(0, if i <= Warmup(cfg) then 0 else WakeupNs(cfg) + 1, true))
  }

  lemma {:induction false} RelapseIdles(cfg: Config, j: nat)
    requires !KeepsSpacing(cfg) && j <= Warmup(cfg) + 1
    ensures var p := Relapse(cfg)[..j + 1];
            IdleRun(cfg, p) == j && (j > 0 ==> Idle(cfg, p, j)) && p[j].clear
  {
    var h := Relapse(cfg);
    assert forall k: nat | 0 < k <= j :: Idle(cfg, h, k);
    assert IdleRun(cfg, h[..0 + 1]) == 0;
    IdleRunGrows(cfg, h, 0, j);
    PrefixIdle(cfg, h, j + 1, j);
  }

  lemma {:induction false} RelapseFirst(cfg: Config)
    requires !KeepsSpacing(cfg)
    ensures PagedAt(cfg, Relapse(cfg), Warmup(cfg))
  {
    var h, m := Relapse(cfg), Warmup(cfg);
    var p := h[..m + 1];
    RelapseIdles(cfg, m);
    forall k | 0 < k < |p|
      ensures !PagedOut(cfg, p[..k])
    {
      assert p[..k] == h[..(k - 1) + 1];
      if PagedAt(cfg, h, k - 1) {
        WarmupBefore(cfg, h, k - 1);
      }
    }
  }

  /** Under every other configuration this history pages the PID out in two cycles in a row. */
  lemma {:induction false} RelapseBreaksSpacing(cfg: Config)
    requires !KeepsSpacing(cfg)
    ensures PagedAt(cfg, Relapse(cfg), Warmup(cfg)) && PagedAt(cfg, Relapse(cfg), Warmup(cfg) + 1)
  {
    RelapseFirst(cfg);
    var m := Warmup(cfg);
    var p := Relapse(cfg)[..m + 2];
    RelapseIdles(cfg, m + 1);
    ThresholdIsNotSentinel(cfg.cpuDeltaThreshold);
    assert !Undisturbed(cfg, p, m + 1);
    assert !Flagged(cfg, p);
  }

  /** Number of cycles of the history that page the PID out. */
  ghost function PageOuts(cfg: Config, h: seq<Obs>): nat {
    if |h| == 0 then 0
    else PageOuts(cfg, h[..|h| - 1]) + if PagedOut(cfg, h) then 1 else 0
  }

  /** Cycles up to and including the latest page-out. */
  ghost function LatestPageOut(cfg: Config, h: seq<Obs>): (n: nat)
    ensures n <= |h|
    ensures n > 0 ==> PagedOut(cfg, h[..n])
  {
    if |h| == 0 then 0
    else if PagedOut(cfg, h) then assert h[..|h|] == h; |h|
    else
      var n := LatestPageOut(cfg, h[..|h| - 1]);
      assert h[..|h| - 1][..n] == h[..n];
      n
  }

  lemma {:induction false} PageOutsFitBeforeLatest(cfg: Config, h: seq<Obs>)
    requires KeepsSpacing(cfg)
    ensures PageOuts(cfg, h) * (1 + Warmup(cfg)) <= LatestPageOut(cfg, h)
  {
    hide PagedOut, Warmup;
    if |h| > 0 {
      var n := |h| - 1;
      PageOutsFitBeforeLatest(cfg, h[..n]);
      if PagedOut(cfg, h) {
        LatestStep(cfg, h);
        Distribute(PageOuts(cfg, h[..n]), 1 + Warmup(cfg));
      }
    }
  }

  lemma Distribute(a: nat, m: nat)
    ensures (a + 1) * m == a * m + m
  {
  }

  lemma {:induction false} LatestStep(cfg: Config, h: seq<Obs>)
    requires KeepsSpacing(cfg) && |h| > 0 && PagedOut(cfg, h)
    ensures LatestPageOut(cfg, h[..|h| - 1]) + 1 + Warmup(cfg) <= |h|
  {
    var n := |h| - 1;
    assert h[..n + 1] == h;
    WarmupBefore(cfg, h, n);
    var l := LatestPageOut(cfg, h[..n]);
    if l > 0 {
      assert h[..n][..l] == h[..(l - 1) + 1];
      PageOutsAreSpaced(cfg, h, l - 1, n);
    }
  }

  /** In n cycles a PID is paged out at most n / (1 + max(1, threshold)) times. */
  lemma {:induction false} PageOutBudget(cfg: Config, h: seq<Obs>)
    requires KeepsSpacing(cfg)
    ensures PageOuts(cfg, h) * (1 + Warmup(cfg)) <= |h|
  {
    PageOutsFitBeforeLatest(cfg, h);
  }
}
