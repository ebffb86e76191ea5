/** The idle tracker of the daemon (daemon/src/state.rs): three PID-keyed maps updated in place. */
module Tracker {
  import opened Base

  datatype ProcSnapshot = ProcSnapshot(pid: u32, starttime: u64, cpuNs: u64)

  /** All that the three maps hold about one PID; a missing key is None. */
  datatype Slot = Slot(snap: Option<ProcSnapshot>, idle: Option<u32>, flag: Option<bool>)

  const EMPTY_SLOT := Slot(None, None, None)

  /** The CPU delta an update works with: the all-ones sentinel when there is no comparable snapshot. */
  function DeltaOf(slot: Slot, snap: ProcSnapshot): (d: u64)
    ensures slot == EMPTY_SLOT ==> d == U64_MAX
  {
    if slot.snap.Some? && slot.snap.value.starttime == snap.starttime
    then SaturatingSub(snap.cpuNs, slot.snap.value.cpuNs)
    else U64_MAX
  }

  /** The slot an update leaves behind. A recycled PID starts from an empty slot. */
  function UpdatedSlot(slot: Slot, snap: ProcSnapshot, cpuNs: u64, wakeupNs: u64): (r: Slot)
    ensures r.snap == Some(snap) && r.idle.Some?
    ensures r.flag.Some? ==> r.flag == slot.flag
  {
    var base := if slot.snap.Some? && slot.snap.value.starttime != snap.starttime then EMPTY_SLOT else slot;
    var delta := DeltaOf(slot, snap);
    var count := if base.idle.Some? then base.idle.value else 0;
    Slot(Some(snap),
         Some(if delta <= cpuNs then WrapU32(count + 1) else 0),
         if delta > wakeupNs && delta != U64_MAX then None else base.flag)
  }

  class CpuTracker {
    var snapshots: map<u32, ProcSnapshot>
    var idleCycles: map<u32, u32>
    var compressed: map<u32, bool>

    ghost function SlotOf(pid: u32): Slot
      reads this
    {
      Slot(if pid in snapshots then Some(snapshots[pid]) else None,
           if pid in idleCycles then Some(idleCycles[pid]) else None,
           if pid in compressed then Some(compressed[pid]) else None)
    }

    constructor ()
      ensures forall pid: u32 :: SlotOf(pid) == EMPTY_SLOT
    {
      snapshots, idleCycles, compressed := map[], map[], map[];
    }

    method Update(snap: ProcSnapshot, cpuNs: u64, wakeupNs: u64) returns (idle: bool)
      modifies this
      ensures SlotOf(snap.pid) == UpdatedSlot(old(SlotOf(snap.pid)), snap, cpuNs, wakeupNs)
      ensures forall q: u32 :: q != snap.pid ==> SlotOf(q) == old(SlotOf(q))
      ensures idle <==> DeltaOf(old(SlotOf(snap.pid)), snap) <= cpuNs
    {
      var pid := snap.pid;
      if pid in snapshots && snapshots[pid].starttime != snap.starttime {
        snapshots := snapshots - {pid};
        idleCycles := idleCycles - {pid};
        compressed := compressed - {pid};
      }
      var delta: u64 := if pid in snapshots then SaturatingSub(snap.cpuNs, snapshots[pid].cpuNs) else U64_MAX;
      idle := delta <= cpuNs;
      var wokeUp := delta > wakeupNs && delta != U64_MAX;
      snapshots := snapshots[pid := snap];
      if idle {
        var count: nat := if pid in idleCycles then idleCycles[pid] else 0;
        idleCycles := idleCycles[pid := WrapU32(count + 1)];
      } else {
        idleCycles := idleCycles[pid := 0];
      }
      if wokeUp {
        compressed := compressed - {pid};
      }
    }

    /** The accumulated idle count, 0 for an unknown PID. */
    function IdleCycles(pid: u32): (n: u32)
      reads this
      ensures SlotOf(pid).idle == Some(n) || (SlotOf(pid).idle == None && n == 0)
    {
      if pid in idleCycles then idleCycles[pid] else 0
    }

    predicate IsCompressed(pid: u32)
      reads this
      ensures IsCompressed(pid) <==> SlotOf(pid).flag == Some(true)
    {
      pid in compressed && compressed[pid]
    }

    method MarkCompressed(pid: u32)
      modifies this
      ensures SlotOf(pid) == old(SlotOf(pid)).(flag := Some(true))
      ensures forall q: u32 :: q != pid ==> SlotOf(q) == old(SlotOf(q))
    {
      compressed := compressed[pid := true];
    }

    method Remove(pid: u32)
      modifies this
      ensures SlotOf(pid) == EMPTY_SLOT
      ensures forall q: u32 :: q != pid ==> SlotOf(q) == old(SlotOf(q))
    {
      snapshots := snapshots - {pid};
      idleCycles := idleCycles - {pid};
      compressed := compressed - {pid};
    }

    method RetainOnly(livePids: set<u32>)
      modifies this
      ensures forall q: u32 :: SlotOf(q) == if q in livePids then old(SlotOf(q)) else EMPTY_SLOT
    {
      snapshots := map pid | pid in snapshots && pid in livePids :: snapshots[pid];
      idleCycles := map pid | pid in idleCycles && pid in livePids :: idleCycles[pid];
      compressed := map pid | pid in compressed && pid in livePids :: compressed[pid];
    }
  }
}
