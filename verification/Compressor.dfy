/** The batched page-out of one process (daemon/src/compressor.rs). The kernel is an oracle. */
module Compressor {
  import opened Base

  const IOV_MAX: nat := 1024

  datatype Region = Region(start: u64, size: u64)

  datatype CompressOutcome = CompressOutcome(
    regions: nat,
    bytesAdvised: u64,
    bytesSkipped: u64,
    batches: nat,
    batchesFailed: nat,
    wasDryRun: bool)
  {
    predicate IsRealSuccess() {
      !wasDryRun && batches > 0 && batchesFailed == 0
    }
  }

  /** What the system answers during one page-out: the parsed smaps (None when unreadable), whether
      pidfd_open succeeds, and the return value of each successive process_madvise call. */
  datatype PageOutEnv = PageOutEnv(smaps: Option<seq<Region>>, pidfd: bool, kernel: nat -> int)

  function TotalSize(rs: seq<Region>): nat {
    if |rs| == 0 then 0 else rs[0].size + TotalSize(rs[1..])
  }

  /** The consecutive batches handed to the kernel. */
  function Chunks(rs: seq<Region>): seq<seq<Region>> {
    if |rs| == 0 then []
    else if |rs| <= IOV_MAX then [rs]
    else [rs[..IOV_MAX]] + Chunks(rs[IOV_MAX..])
  }

  function Flatten(cs: seq<seq<Region>>): seq<Region> {
    if |cs| == 0 then [] else cs[0] + Flatten(cs[1..])
  }

  /** Bytes the first n calls report, and how many of them fail. */
  function Advised(kernel: nat -> int, n: nat): nat {
    if n == 0 then 0 else Advised(kernel, n - 1) + if kernel(n - 1) < 0 then 0 else kernel(n - 1)
  }

  function Failures(kernel: nat -> int, n: nat): (f: nat)
    ensures f == 0 <==> forall i: nat | i < n :: kernel(i) >= 0
  {
    if n == 0 then 0 else Failures(kernel, n - 1) + if kernel(n - 1) < 0 then 1 else 0
  }

  /** The result of compress_pid; None is the error path. */
  function CompressResult(env: PageOutEnv, dryRun: bool): Option<CompressOutcome> {
    if env.smaps.None? then None
    else
      var rs := env.smaps.value;
      if dryRun then Some(CompressOutcome(|rs|, 0, 0, 0, 0, true))
      else if !env.pidfd then None
      else
        var n := |Chunks(rs)|;
        var advised := WrapU64(Advised(env.kernel, n));
        Some(CompressOutcome(|rs|, advised, SaturatingSub(WrapU64(TotalSize(rs)), advised),
                             n, Failures(env.kernel, n), false))
  }

  /** `sent` lists the process_madvise calls in the order they are issued. */
  method CompressPid(env: PageOutEnv, dryRun: bool) returns (r: Option<CompressOutcome>, sent: seq<seq<Region>>)
    ensures r == CompressResult(env, dryRun)
    ensures sent == if env.smaps.Some? && !dryRun && env.pidfd then Chunks(env.smaps.value) else []
  {
    if env.smaps.None? {
      return None, [];
    }
    var rs := env.smaps.value;
    if dryRun {
      return Some(CompressOutcome(|rs|, 0, 0, 0, 0, true)), [];
    }
    if !env.pidfd {
      return None, [];
    }
    var total := SumSizes(rs);
    var advised, failed;
    sent, advised, failed := SendBatches(rs, env.kernel);
    r := Some(CompressOutcome(|rs|, advised, SaturatingSub(total, advised), |sent|, failed, false));
  }

  /** The chunk loop: one process_madvise call per batch. */
  method SendBatches(rs: seq<Region>, kernel: nat -> int) returns (sent: seq<seq<Region>>, advised: u64, failed: nat)
    ensures sent == Chunks(rs)
    ensures advised == WrapU64(Advised(kernel, |sent|))
    ensures failed == Failures(kernel, |sent|)
  {
    hide Chunks;
    sent, advised, failed := [], 0, 0;
    var off: nat := 0;
    assert rs[off..] == rs;
    while off < |rs|
      invariant off <= |rs|
      invariant sent + Chunks(rs[off..]) == Chunks(rs)
      invariant advised == WrapU64(Advised(kernel, |sent|))
      invariant failed == Failures(kernel, |sent|)
    {
      var end := if off + IOV_MAX < |rs| then off + IOV_MAX else |rs|;
      NextChunk(rs, off, end);
      var ret := kernel(|sent|);
      if ret < 0 {
        failed := failed + 1;
      } else {
        WrapAdd(Advised(kernel, |sent|), ret);
        advised := WrapU64(advised + ret);
      }
      sent := sent + [rs[off..end]];
      off := end;
    }
    NoChunks();
    assert rs[off..] == [];
  }

  lemma NoChunks()
    ensures Chunks([]) == []
  {
  }

  lemma {:induction false} NextChunk(rs: seq<Region>, off: nat, end: nat)
    requires off < |rs| && end == if off + IOV_MAX < |rs| then off + IOV_MAX else |rs|
    ensures Chunks(rs[off..]) == [rs[off..end]] + Chunks(rs[end..])
  {
    assert rs[off..][..end - off] == rs[off..end];
    assert rs[off..][end - off..] == rs[end..];
    if end == |rs| {
      assert rs[off..end] == rs[off..] && Chunks(rs[end..]) == [];
    }
  }

  method SumSizes(rs: seq<Region>) returns (total: u64)
    ensures total == WrapU64(TotalSize(rs))
  {
    total := 0;
    var i: nat := |rs|;
    while i > 0
      invariant i <= |rs|
      invariant total == WrapU64(TotalSize(rs[i..]))
    {
      i := i - 1;
      assert rs[i..][1..] == rs[i + 1..];
      WrapAdd(TotalSize(rs[i + 1..]), rs[i].size);
      total := WrapU64(total + rs[i].size);
    }
    assert rs[0..] == rs;
  }

  // ---------------------------------------------------------------- what the batches guarantee

  /** Every region is sent exactly once and in order. */
  lemma {:induction false} ChunksCover(rs: seq<Region>)
    ensures Flatten(Chunks(rs)) == rs
  {
    if |rs| > IOV_MAX {
      ChunksCover(rs[IOV_MAX..]);
      assert Chunks(rs)[1..] == Chunks(rs[IOV_MAX..]);
    } else if |rs| > 0 {
      assert Flatten(Chunks(rs)[1..]) == [];
    }
  }

  /** There are ceil(n / 1024) batches, none empty, none over the limit and all but the last one full. */
  lemma {:induction false} ChunkShape(rs: seq<Region>)
    ensures |Chunks(rs)| == (|rs| + 1023) / 1024
    ensures forall i | 0 <= i < |Chunks(rs)| :: 0 < |Chunks(rs)[i]| <= 1024
    ensures forall i | 0 <= i < |Chunks(rs)| - 1 :: |Chunks(rs)[i]| == 1024
  {
    if |rs| > IOV_MAX {
      ChunkShape(rs[IOV_MAX..]);
    }
  }

  lemma {:induction false} TotalSizeSplit(a: seq<Region>, b: seq<Region>)
    ensures TotalSize(a + b) == TotalSize(a) + TotalSize(b)
  {
    if |a| == 0 {
      assert a + b == b;
    } else {
      TotalSizeSplit(a[1..], b);
      assert (a + b)[1..] == a[1..] + b;
    }
  }

  /** The kernel never reports more bytes for a batch than the batch holds. */
  predicate HonestKernel(kernel: nat -> int, cs: seq<seq<Region>>) {
    forall i: nat | i < |cs| :: kernel(i) <= TotalSize(cs[i])
  }

  lemma {:induction false} AdvisedAtMostSent(kernel: nat -> int, cs: seq<seq<Region>>)
    requires HonestKernel(kernel, cs)
    ensures Advised(kernel, |cs|) <= TotalSize(Flatten(cs))
  {
    if |cs| > 0 {
      var n := |cs| - 1;
      AdvisedAtMostSent(kernel, cs[..n]);
      FlattenSnoc(cs[..n], cs[n]);
      assert cs[..n] + [cs[n]] == cs;
      TotalSizeSplit(Flatten(cs[..n]), cs[n]);
    }
  }

  lemma {:induction false} FlattenSnoc(cs: seq<seq<Region>>, c: seq<Region>)
    ensures Flatten(cs + [c]) == Flatten(cs) + c
  {
    if |cs| == 0 {
      assert ([c])[1..] == [];
      assert cs + [c] == [c];
    } else {
      FlattenSnoc(cs[1..], c);
      assert (cs + [c])[1..] == cs[1..] + [c];
    }
  }

  /** No byte is lost from the books: what the kernel took and what it skipped is what was asked for. */
  lemma {:induction false} BytesAreConserved(env: PageOutEnv)
    requires env.smaps.Some? && env.pidfd
    requires TotalSize(env.smaps.value) < U64_LIMIT
    requires HonestKernel(env.kernel, Chunks(env.smaps.value))
    ensures CompressResult(env, false).Some?
    ensures var o := CompressResult(env, false).value;
            && o.bytesAdvised == Advised(env.kernel, |Chunks(env.smaps.value)|)
            && o.bytesAdvised + o.bytesSkipped == TotalSize(env.smaps.value)
  {
    AdvisedAtMostSent(env.kernel, Chunks(env.smaps.value));
    ChunksCover(env.smaps.value);
  }

  /** The batches of an all-or-nothing kernel that it takes. */
  function Taken(kernel: nat -> int, cs: seq<seq<Region>>): seq<Region> {
    if |cs| == 0 then []
    else
      var n := |cs| - 1;
      Taken(kernel, cs[..n]) + if kernel(n) < 0 then [] else cs[n]
  }

  lemma {:induction false} TakenIsAdvised(kernel: nat -> int, cs: seq<seq<Region>>)
    requires forall i: nat | i < |cs| :: kernel(i) < 0 || kernel(i) == TotalSize(cs[i])
    ensures Advised(kernel, |cs|) == TotalSize(Taken(kernel, cs)) <= TotalSize(Flatten(cs))
  {
    if |cs| > 0 {
      var n := |cs| - 1;
      TakenIsAdvised(kernel, cs[..n]);
      TotalSizeSplit(Taken(kernel, cs[..n]), if kernel(n) < 0 then [] else cs[n]);
      FlattenSnoc(cs[..n], cs[n]);
      assert cs[..n] + [cs[n]] == cs;
      TotalSizeSplit(Flatten(cs[..n]), cs[n]);
    }
  }

  /** Which of the first n calls fail. */
  function Refusals(kernel: nat -> int, n: nat): (r: set<nat>)
    ensures forall i: nat :: i in r <==> i < n && kernel(i) < 0
    ensures |r| == Failures(kernel, n)
  {
    if n == 0 then {} else Refusals(kernel, n - 1) + if kernel(n - 1) < 0 then {n - 1} else {}
  }

  /** Against a kernel that takes or refuses each batch as a whole, the advised bytes are those of the batches taken,
      the skipped bytes all others, and the failures are the batches refused. */
  lemma {:induction false} AllOrNothing(env: PageOutEnv)
    requires env.smaps.Some? && env.pidfd && TotalSize(env.smaps.value) < U64_LIMIT
    requires forall i: nat | i < |Chunks(env.smaps.value)| ::
               env.kernel(i) < 0 || env.kernel(i) == TotalSize(Chunks(env.smaps.value)[i])
    ensures var r := CompressResult(env, false);
            var cs := Chunks(env.smaps.value);
            && r.Some? && !r.value.wasDryRun
            && r.value.bytesAdvised == TotalSize(Taken(env.kernel, cs))
            && r.value.bytesSkipped == TotalSize(env.smaps.value) - TotalSize(Taken(env.kernel, cs))
            && r.value.regions == |env.smaps.value| && r.value.batches == |cs|
            && r.value.batchesFailed == |Refusals(env.kernel, |cs|)|
  {
    var cs := Chunks(env.smaps.value);
    TakenIsAdvised(env.kernel, cs);
    ChunksCover(env.smaps.value);
  }

  /** A page-out counts as real exactly when it was no dry run, had something to send and no batch failed. */
  lemma {:induction false} RealSuccessExactly(env: PageOutEnv, dryRun: bool)
    ensures var r := CompressResult(env, dryRun);
            (r.Some? && r.value.IsRealSuccess())
            <==> (!dryRun && env.pidfd && env.smaps.Some? && |env.smaps.value| > 0
                  && forall i: nat | i < |Chunks(env.smaps.value)| :: env.kernel(i) >= 0)
  {
    if env.smaps.Some? {
      ChunkShape(env.smaps.value);
    }
  }

  // ---------------------------------------------------------------- regions of one address space

  predicate SortedDisjoint(rs: seq<Region>) {
    && (forall i | 0 <= i < |rs| :: rs[i].start + rs[i].size <= U64_MAX)
    && (forall i, j | 0 <= i < j < |rs| :: rs[i].start + rs[i].size <= rs[j].start)
  }

  /** Disjoint regions of one address space never overflow the byte count. */
  lemma {:induction false} AddressSpaceBound(rs: seq<Region>, floor: nat)
    requires SortedDisjoint(rs)
    requires forall i | 0 <= i < |rs| :: floor <= rs[i].start
    requires floor <= U64_MAX
    ensures floor + TotalSize(rs) <= U64_MAX
  {
    if |rs| > 0 {
      AddressSpaceBound(rs[1..], rs[0].start + rs[0].size);
    }
  }

  /** The addresses of a region. */
  function Addresses(a: nat, size: nat): (r: set<nat>)
    ensures forall x: nat :: x in r <==> a <= x < a + size
    ensures |r| == size
  {
    if size == 0 then {} else Addresses(a, size - 1) + {a + size - 1}
  }

  function Covered(rs: seq<Region>): set<nat> {
    if |rs| == 0 then {} else Addresses(rs[0].start, rs[0].size) + Covered(rs[1..])
  }

  lemma {:induction false} CoveredFrom(rs: seq<Region>, floor: nat)
    requires forall i | 0 <= i < |rs| :: floor <= rs[i].start
    ensures forall x | x in Covered(rs) :: x >= floor
  {
    if |rs| > 0 {
      CoveredFrom(rs[1..], floor);
    }
  }

  /** The bytes requested for disjoint regions are the addresses they cover, each counted once. */
  lemma {:induction false} TotalSizeCounts(rs: seq<Region>)
    requires SortedDisjoint(rs)
    ensures TotalSize(rs) == |Covered(rs)|
  {
    if |rs| > 0 {
      var first, rest := Addresses(rs[0].start, rs[0].size), Covered(rs[1..]);
      CoveredFrom(rs[1..], rs[0].start + rs[0].size);
      TotalSizeCounts(rs[1..]);
      assert first !! rest;
      assert |first + rest| == |first| + |rest|;
    }
  }
}
