/** The table of matched processes kept from cn_proc events (daemon/src/process_table.rs). */
module ProcessTable {
  import opened Base
  import opened Scanner

  datatype ProcEvent = Fork(parent: u32, child: u32) | Exec(pid: u32) | Exit(pid: u32)

  type Table = map<u32, string>

  function Entry(table: Table, pid: u32): Option<string> {
    if pid in table then Some(table[pid]) else None
  }

  /** The table once the record of a PID is known: set it, or drop a stale one. */
  function Stored(table: Table, pid: u32, record: Option<string>): (t: Table)
    ensures Entry(t, pid) == record
    ensures forall q: u32 | q != pid :: Entry(t, q) == Entry(table, q)
  {
    if record.Some? then table[pid := record.value] else table - {pid}
  }

  /** The final write of a drift correction. */
  function Corrected(table: Table, phantoms: set<u32>, found: Table): (t: Table)
    ensures forall q: u32 ::
              Entry(t, q) == if q in found then Some(found[q]) else if q in phantoms then None else Entry(table, q)
  {
    (table - phantoms) + found
  }

  /** The records of those PIDs that match some profile. */
  function Labelled(profiles: seq<Profile>, world: World, pids: set<u32>): (t: Table)
    ensures forall q: u32 :: Entry(t, q) == if q in pids then Classify(profiles, world, q) else None
  {
    map q | q in pids && Classify(profiles, world, q).Some? :: Classify(profiles, world, q).value
  }

  /** A drift correction that nothing interleaves with. */
  function Reseeded(profiles: seq<Profile>, world: World, table: Table): Table {
    Corrected(table, table.Keys - world.Keys, Labelled(profiles, world, world.Keys - table.Keys))
  }

  /** After an undisturbed reseed of any table whatsoever, it can differ from a fresh scan only at PIDs that
      were in the table and alive and whose record was already wrong. */
  lemma {:induction false} ReseedRepairs(profiles: seq<Profile>, world: World, table: Table, pid: u32)
    ensures var after := Reseeded(profiles, world, table);
            Entry(after, pid) != ScanChoice(profiles, world, pid) <==>
            pid in table && pid in world && Some(table[pid]) != ScanChoice(profiles, world, pid)
  {
    hide FirstMatch, ParseCmdline, Label, ScanChoice;
    SameChoice(profiles, world, pid);
  }

  /** A second undisturbed reseed in the same world changes nothing more. */
  lemma {:induction false} ReseedIdempotent(profiles: seq<Profile>, world: World, table: Table)
    ensures Reseeded(profiles, world, Reseeded(profiles, world, table)) == Reseeded(profiles, world, table)
  {
    hide Label;
    var t1 := Reseeded(profiles, world, table);
    var t2 := Reseeded(profiles, world, t1);
    forall q: u32
      ensures Entry(t1, q) == Entry(t2, q) && (q in t1 <==> Entry(t1, q).Some?) && (q in t2 <==> Entry(t2, q).Some?)
    {
    }
    assert t1.Keys == t2.Keys;
  }

  lemma {:induction false} DisjointSize(a: set<u32>, b: set<u32>)
    requires a !! b
    ensures |a + b| == |a| + |b|
  {
  }

  lemma {:induction false} SplitSize(keys: set<u32>, phantoms: set<u32>)
    ensures |keys| == |keys - phantoms| + |phantoms * keys|
  {
    DisjointSize(keys - phantoms, phantoms * keys);
    assert keys == (keys - phantoms) + phantoms * keys;
  }

  /** Size of a corrected table: additions in, drops out. */
  lemma {:induction false} CorrectedSize(table: Table, phantoms: set<u32>, found: Table)
    requires found.Keys !! table.Keys
    ensures |Corrected(table, phantoms, found)| == |table| + |found| - |phantoms * table.Keys|
  {
    assert Corrected(table, phantoms, found).Keys == (table.Keys - phantoms) + found.Keys;
    DisjointSize(table.Keys - phantoms, found.Keys);
    SplitSize(table.Keys, phantoms);
  }

  /** The elements of a set in some order. */
  method Collect(s: set<u32>) returns (xs: seq<u32>)
    ensures forall x: u32 :: x in xs <==> x in s
    ensures DistinctPids(xs)
  {
    xs := [];
    var left := s;
    while left != {}
      invariant left <= s
      invariant forall x: u32 :: x in xs <==> x in s && x !in left
      invariant DistinctPids(xs)
      decreases left
    {
      var x :| x in left;
      assert forall i | 0 <= i < |xs| :: xs[i] in xs;
      xs := xs + [x];
      left := left - {x};
    }
  }

  /** The classification loop of a drift correction. */
  method LabelAll(profiles: seq<Profile>, world: World, candidates: seq<u32>) returns (found: Table)
    ensures forall q: u32 :: Entry(found, q) == if q in candidates then Classify(profiles, world, q) else None
  {
    hide Label;
    found := map[];
    for n := 0 to |candidates|
      invariant forall q: u32 ::
                  Entry(found, q) == if q in candidates[..n] then Classify(profiles, world, q) else None
    {
      assert candidates[..n + 1] == candidates[..n] + [candidates[n]];
      var record := Classify(profiles, world, candidates[n]);
      if record.Some? {
        found := found[candidates[n] := record.value];
      }
    }
    assert candidates[..|candidates|] == candidates;
  }

  /** How many of the listed PIDs the table holds. */
  function Hits(table: Table, xs: seq<u32>): nat {
    if |xs| == 0 then 0 else Hits(table, xs[..|xs| - 1]) + if xs[|xs| - 1] in table then 1 else 0
  }

  lemma {:induction false} HitsAreSize(table: Table, xs: seq<u32>, s: set<u32>)
    requires DistinctPids(xs) && forall x: u32 :: x in xs <==> x in s
    ensures Hits(table, xs) == |s * table.Keys|
  {
    if |xs| == 0 {
      assert s * table.Keys == {};
    } else {
      var n := |xs| - 1;
      assert xs == xs[..n] + [xs[n]];
      HitsAreSize(table, xs[..n], s - {xs[n]});
      RemoveOne(s, table.Keys, xs[n]);
    }
  }

  lemma {:induction false} RemoveOne(s: set<u32>, keys: set<u32>, x: u32)
    requires x in s
    ensures |s * keys| == |(s - {x}) * keys| + if x in keys then 1 else 0
  {
    assert s * keys == if x in keys then (s - {x}) * keys + {x} else (s - {x}) * keys;
  }

  /** The removal loop of a drift correction. */
  method DropAll(table: Table, phantoms: seq<u32>) returns (t: Table, dropped: nat)
    requires DistinctPids(phantoms)
    ensures forall q: u32 :: Entry(t, q) == if q in phantoms then None else Entry(table, q)
    ensures dropped == Hits(table, phantoms)
  {
    t, dropped := table, 0;
    for n := 0 to |phantoms|
      invariant forall q: u32 :: Entry(t, q) == if q in phantoms[..n] then None else Entry(table, q)
      invariant dropped == Hits(table, phantoms[..n])
    {
      var pid := phantoms[n];
      assert phantoms[..n + 1] == phantoms[..n] + [pid] && phantoms[..n + 1][..n] == phantoms[..n];
      assert pid in t <==> pid in table by {
        assert Entry(t, pid) == Entry(table, pid);
      }
      if pid in t {
        dropped := dropped + 1;
      }
      t := t - {pid};
    }
    assert phantoms[..|phantoms|] == phantoms;
  }

  class TargetTable {
    const profiles: seq<Profile>
    var inner: Table

    constructor (profiles: seq<Profile>)
      ensures this.profiles == profiles && inner == map[]
    {
      this.profiles := profiles;
      inner := map[];
    }

    function ClassifyPid(world: World, pid: u32): (r: Option<string>)
      ensures r == ScanChoice(profiles, world, pid)
    {
      SameChoice(profiles, world, pid);
      Classify(profiles, world, pid)
    }

    /** The start-up walk, here in a world that stands still. */
    method SeedFromProc(world: World, listing: seq<u32>)
      modifies this
      ensures forall q: u32 ::
                Entry(inner, q) == if q in listing && Classify(profiles, world, q).Some?
                                   then Classify(profiles, world, q) else old(Entry(inner, q))
    {
      hide Label;
      for n := 0 to |listing|
        invariant forall q: u32 ::
                    Entry(inner, q) == if q in listing[..n] && Classify(profiles, world, q).Some?
                                       then Classify(profiles, world, q) else old(Entry(inner, q))
      {
        assert listing[..n + 1] == listing[..n] + [listing[n]];
        var record := Classify(profiles, world, listing[n]);
        if record.Some? {
          inner := inner[listing[n] := record.value];
        }
      }
      assert listing[..|listing|] == listing;
    }

    /** One event, the world being the one the classifier reads. */
    method ApplyEvent(ev: ProcEvent, world: World)
      modifies this
      ensures ev.Fork? ==> inner == old(inner)
      ensures ev.Exec? ==> inner == Stored(old(inner), ev.pid, Classify(profiles, world, ev.pid))
      ensures ev.Exit? ==> inner == Stored(old(inner), ev.pid, None)
    {
      match ev
      case Fork(_, _) =>
      case Exec(pid) =>
        var record := Classify(profiles, world, pid);
        if record.Some? {
          inner := inner[pid := record.value];
        } else {
          inner := inner - {pid};
        }
      case Exit(pid) =>
        inner := inner - {pid};
    }

    /** A snapshot of the matched targets, each PID once and in no particular order. */
    method LiveTargets() returns (ts: seq<Target>)
      ensures forall t: Target :: t in ts <==> Entry(inner, t.pid) == Some(t.profile)
      ensures forall i, j | 0 <= i < j < |ts| :: ts[i].pid != ts[j].pid
    {
      ts := [];
      var left := inner.Keys;
      while left != {}
        invariant left <= inner.Keys
        invariant forall t: Target :: t in ts <==> Entry(inner, t.pid) == Some(t.profile) && t.pid !in left
        invariant forall i, j | 0 <= i < j < |ts| :: ts[i].pid != ts[j].pid
        decreases left
      {
        var pid :| pid in left;
        assert forall i | 0 <= i < |ts| :: ts[i] in ts;
        ts := ts + [Target(pid, inner[pid])];
        left := left - {pid};
      }
    }

    /** Drift correction without interleaving. */
    method ReseedDriftCorrection(world: World) returns (added: nat, dropped: nat)
      modifies this
      ensures inner == Reseeded(profiles, world, old(inner))
      ensures dropped == |old(inner).Keys - world.Keys| && added == |inner.Keys - old(inner).Keys|
      ensures |inner| == |old(inner)| + added - dropped
    {
      hide Reseeded, Classify, Hits;
      var livePids := world.Keys;
      var existing := inner.Keys;
      var phantoms := Collect(existing - livePids);
      var candidates := Collect(livePids - existing);
      var found := LabelAll(profiles, world, candidates);
      var kept;
      kept, dropped := DropAll(inner, phantoms);
      added := |found|;
      Assembled(profiles, world, inner, kept, found);
      AssembledSize(inner, existing - livePids, livePids - existing, phantoms, kept, found);
      inner := kept + found;
    }
  }

  /** The loops of a drift correction together compute `Reseeded`. */
  lemma {:induction false} Assembled(profiles: seq<Profile>, world: World, table: Table, kept: Table, found: Table)
    requires forall q: u32 :: Entry(kept, q) == if q in table.Keys - world.Keys then None else Entry(table, q)
    requires forall q: u32 ::
               Entry(found, q) == if q in world.Keys - table.Keys then Classify(profiles, world, q) else None
    ensures kept + found == Reseeded(profiles, world, table)
  {
    hide Classify;
    SameTable(found, Labelled(profiles, world, world.Keys - table.Keys));
    SameTable(kept, table - (table.Keys - world.Keys));
  }

  lemma {:induction false} AssembledSize(table: Table, gone: set<u32>, born: set<u32>, phantoms: seq<u32>,
                                         kept: Table, found: Table)
    requires DistinctPids(phantoms) && forall q: u32 :: q in phantoms <==> q in gone
    requires gone <= table.Keys && born !! table.Keys && forall q: u32 :: Entry(found, q).Some? ==> q in born
    requires forall q: u32 :: Entry(kept, q) == if q in gone then None else Entry(table, q)
    ensures |kept + found| == |table| + |found| - Hits(table, phantoms)
    ensures Hits(table, phantoms) == |gone| && |found| == |(kept + found).Keys - table.Keys|
  {
    SameTable(kept, table - gone);
    NoOverlap(found, born);
    CorrectedSize(table, gone, found);
    HitsAreSize(table, phantoms, gone);
    assert gone * table.Keys == gone;
    NewKeys(table, gone, found);
  }

  lemma {:induction false} NewKeys(table: Table, gone: set<u32>, found: Table)
    requires found.Keys !! table.Keys
    ensures |found| == |((table - gone) + found).Keys - table.Keys|
  {
    assert ((table - gone) + found).Keys - table.Keys == found.Keys;
  }

  lemma {:induction false} SameTable(a: Table, b: Table)
    requires forall q: u32 :: Entry(a, q) == Entry(b, q)
    ensures a == b
  {
    forall q: u32
      ensures q in a <==> q in b
      ensures q in a ==> a[q] == b[q]
    {
      assert Entry(a, q) == Entry(b, q);
    }
    assert a.Keys == b.Keys;
  }

  lemma {:induction false} NoOverlap(found: Table, candidates: set<u32>)
    requires forall q: u32 :: Entry(found, q).Some? ==> q in candidates
    ensures found.Keys <= candidates
  {
    forall q | q in found
      ensures q in candidates
    {
      assert Entry(found, q).Some?;
    }
  }
}
