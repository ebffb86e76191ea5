/** Every interleaving of the world, the seed walk, the reader thread and the drift correction.

The system subscribes to events before it seeds, so the event queue runs from the initial state on. Each step below
is one step of the world or one lock region or one /proc read of a thread. `blame` collects the PIDs at which the
table is allowed to be wrong: those with a lost event, those whose match changed without an exec or exit event, and
those a drift correction overwrote although they changed during its window. */
module TableRuns {
  import opened Base
  import opened Scanner
  import opened ProcessTable

  /** A record read by the reader thread and not yet stored. */
  datatype Held = Held(pid: u32, record: Option<string>)

  /** A drift correction under way. `world0` and `table0` are what it saw, or would have seen, at its directory
      read; `touched` are the PIDs that changed since. */
  datatype Reseed =
    | NoReseed
    | Listed(world0: World, table0: Table, touched: set<u32>)
    | Labelling(world0: World, table0: Table, touched: set<u32>, existing: set<u32>, done: set<u32>, found: Table)

  datatype Sys = Sys(
    world: World,
    queue: seq<ProcEvent>,
    table: Table,
    toSeed: Option<set<u32>>,
    held: Option<Held>,
    reseed: Reseed,
    blame: set<u32>)

  datatype Step =
    | WorldFork(parent: u32, child: u32, raw: Bytes)
    | WorldExec(pid: u32, raw: Bytes)
    | WorldExit(pid: u32)
    | WorldRewrite(pid: u32, raw: Bytes)
    | LoseEvent(index: nat)
    | SeedVisit(pid: u32)
    | SeedDone
    | ReaderTake
    | ReaderStore
    | ReseedList
    | ReseedPeek
    | ReseedLabel(pid: u32)
    | ReseedWrite

  /** Subscribed, nothing read yet, the seed walk about to list every live PID. */
  function Init(world: World): Sys {
    Sys(world, [], map[], Some(world.Keys), None, NoReseed, {})
  }

  predicate Enabled(s: Sys, step: Step) {
    match step
    case WorldFork(_, child, _) => child !in s.world
    case WorldExec(pid, _) => pid in s.world
    case WorldExit(pid) => pid in s.world
    case WorldRewrite(pid, _) => pid in s.world
    case LoseEvent(index) => index < |s.queue|
    case SeedVisit(_) => s.toSeed.Some?
    case SeedDone => s.toSeed == Some({})
    case ReaderTake => s.toSeed.None? && s.held.None? && |s.queue| > 0
    case ReaderStore => s.held.Some?
    case ReseedList => s.toSeed.None? && s.reseed.NoReseed?
    case ReseedPeek => s.reseed.Listed?
    case ReseedLabel(pid) => s.reseed.Labelling? && pid in s.reseed.world0.Keys - s.reseed.existing - s.reseed.done
    case ReseedWrite => s.reseed.Labelling? && s.reseed.done == s.reseed.world0.Keys - s.reseed.existing
  }

  function Touch(r: Reseed, pid: u32): Reseed {
    if r.NoReseed? then r else r.(touched := r.touched + {pid})
  }

  predicate About(ev: ProcEvent, pid: u32) { (ev.Exec? || ev.Exit?) && ev.pid == pid }

  /** The last exec or exit event still queued for a PID. */
  function LastPending(queue: seq<ProcEvent>, pid: u32): (r: Option<ProcEvent>)
    ensures r.Some? ==> About(r.value, pid)
  {
    if |queue| == 0 then None
    else
      var later := LastPending(queue[1..], pid);
      if later.Some? then later else if About(queue[0], pid) then Some(queue[0]) else None
  }

  /** The PIDs a drift correction is about to overwrite. */
  function Overwritten(r: Reseed): set<u32>
    requires r.Labelling?
  {
    (r.existing - r.world0.Keys) + r.found.Keys
  }

  /** The PIDs a finished drift correction has put right. */
  function Repaired(s: Sys): set<u32>
    requires s.reseed.Labelling?
  {
    set p | p in s.blame && p !in s.reseed.touched && !(p in s.reseed.world0 && p in s.reseed.existing)
            && LastPending(s.queue, p).None?
  }

  function Next(ps: seq<Profile>, s: Sys, step: Step): Sys
    requires Enabled(s, step)
  {
    match step
    case WorldFork(parent, child, raw) =>
      var s' := s.(world := s.world[child := raw], queue := s.queue + [Fork(parent, child)]);
      if Label(ps, raw).Some? then s'.(blame := s.blame + {child}, reseed := Touch(s.reseed, child)) else s'
    case WorldExec(pid, raw) =>
      s.(world := s.world[pid := raw], queue := s.queue + [Exec(pid)], reseed := Touch(s.reseed, pid))
    case WorldExit(pid) =>
      s.(world := s.world - {pid}, queue := s.queue + [Exit(pid)], reseed := Touch(s.reseed, pid),
         toSeed := if s.toSeed.Some? then Some(s.toSeed.value - {pid}) else None)
    case WorldRewrite(pid, raw) =>
      var s' := s.(world := s.world[pid := raw]);
      if Label(ps, raw) != Label(ps, s.world[pid])
      then s'.(blame := s.blame + {pid}, reseed := Touch(s.reseed, pid)) else s'
    case LoseEvent(i) =>
      var ev := s.queue[i];
      s.(queue := s.queue[..i] + s.queue[i + 1..],
         blame := if ev.Fork? then s.blame else s.blame + {ev.pid})
    case SeedVisit(pid) =>
      var record := Classify(ps, s.world, pid);
      s.(table := if record.Some? then s.table[pid := record.value] else s.table,
         toSeed := Some(s.toSeed.value - {pid}))
    case SeedDone => s.(toSeed := None)
    case ReaderTake =>
      var ev, rest := s.queue[0], s.queue[1..];
      (match ev
       case Fork(_, _) => s.(queue := rest)
       case Exec(pid) =>
         s.(queue := rest, held := Some(Held(pid, Classify(ps, s.world, pid))), reseed := Touch(s.reseed, pid),
            blame := if LastPending(rest, pid).None? then s.blame - {pid} else s.blame)
       case Exit(pid) => s.(queue := rest, table := Stored(s.table, pid, None), reseed := Touch(s.reseed, pid)))
    case ReaderStore =>
      s.(table := Stored(s.table, s.held.value.pid, s.held.value.record), held := None,
         reseed := Touch(s.reseed, s.held.value.pid))
    case ReseedList =>
      s.(reseed := Listed(s.world, s.table, if s.held.Some? then {s.held.value.pid} else {}))
    case ReseedPeek =>
      s.(reseed := Labelling(s.reseed.world0, s.reseed.table0, s.reseed.touched, s.table.Keys, {}, map[]))
    case ReseedLabel(pid) =>
      var record := Classify(ps, s.world, pid);
      s.(reseed := s.reseed.(done := s.reseed.done + {pid},
                             found := if record.Some? then s.reseed.found[pid := record.value] else s.reseed.found))
    case ReseedWrite =>
      var r := s.reseed;
      s.(table := Corrected(s.table, r.existing - r.world0.Keys, r.found), reseed := NoReseed,
         blame := (s.blame - Repaired(s)) + r.touched * Overwritten(r))
  }

  // ---------------------------------------------------------------- what every interleaving keeps

  /** A PID outside the blame is right, or a queued event will put it right. */
  predicate Settled(ps: seq<Profile>, s: Sys, pid: u32) {
    var pending := LastPending(s.queue, pid);
    var now := Classify(ps, s.world, pid);
    if pending.Some? then pending.value.Exit? ==> now == None
    else if s.held.Some? && s.held.value.pid == pid then s.held.value.record == now
    else Entry(s.table, pid) == now || (s.toSeed.Some? && pid in s.toSeed.value && Entry(s.table, pid) == None)
  }

  /** At a PID untouched since the directory read, the correction works on current data. */
  predicate Current(ps: seq<Profile>, s: Sys, pid: u32) {
    var r := s.reseed;
    !r.NoReseed? && pid !in r.touched ==>
      && Classify(ps, s.world, pid) == Classify(ps, r.world0, pid)
      && Entry(s.table, pid) == Entry(r.table0, pid)
      && (r.Labelling? ==>
            && (pid in r.existing <==> pid in r.table0)
            && Entry(r.found, pid) == if pid in r.done then Classify(ps, r.world0, pid) else None)
  }

  predicate Shape(s: Sys) {
    && (s.toSeed.Some? ==> s.held.None? && s.reseed.NoReseed?)
    && (s.held.Some? && !s.reseed.NoReseed? ==> s.held.value.pid in s.reseed.touched)
    && (s.reseed.Labelling? ==>
          s.reseed.found.Keys <= s.reseed.done && s.reseed.done <= s.reseed.world0.Keys - s.reseed.existing)
  }

  /** What holds of one PID in every reachable state. */
  predicate Kept(ps: seq<Profile>, s: Sys, pid: u32) {
    Shape(s) && Current(ps, s, pid) && (pid !in s.blame ==> Settled(ps, s, pid))
  }

  ghost predicate Inv(ps: seq<Profile>, s: Sys) { forall pid: u32 :: Kept(ps, s, pid) }

  lemma {:induction false} PendingSnoc(queue: seq<ProcEvent>, ev: ProcEvent, pid: u32)
    ensures LastPending(queue + [ev], pid) == if About(ev, pid) then Some(ev) else LastPending(queue, pid)
  {
    if |queue| == 0 {
      assert (queue + [ev])[1..] == [];
    } else {
      PendingSnoc(queue[1..], ev, pid);
      assert (queue + [ev])[1..] == queue[1..] + [ev];
    }
  }

  lemma {:induction false} PendingWithout(queue: seq<ProcEvent>, i: nat, pid: u32)
    requires i < |queue| && !About(queue[i], pid)
    ensures LastPending(queue[..i] + queue[i + 1..], pid) == LastPending(queue, pid)
  {
    var shorter := queue[..i] + queue[i + 1..];
    if i == 0 {
      assert shorter == queue[1..];
    } else {
      PendingWithout(queue[1..], i - 1, pid);
      assert shorter[1..] == queue[1..][..i - 1] + queue[1..][i..];
    }
  }

  lemma {:induction false} InitInv(ps: seq<Profile>, world: World)
    ensures Inv(ps, Init(world))
  {
    hide Label;
  }

  lemma {:induction false} StepShape(ps: seq<Profile>, s: Sys, step: Step)
    requires Enabled(s, step) && Shape(s)
    ensures Shape(Next(ps, s, step))
  {
    hide Label, LastPending;
  }

  lemma {:induction false} ForkStep(ps: seq<Profile>, s: Sys, step: Step, pid: u32)
    requires Kept(ps, s, pid) && Enabled(s, step) && step.WorldFork?
    ensures Kept(ps, Next(ps, s, step), pid)
  {
    hide Label, LastPending;
    StepShape(ps, s, step);
    PendingSnoc(s.queue, Fork(step.parent, step.child), pid);
    assert pid != step.child ==> Classify(ps, s.world[step.child := step.raw], pid) == Classify(ps, s.world, pid);
  }

  lemma {:induction false} RewriteStep(ps: seq<Profile>, s: Sys, step: Step, pid: u32)
    requires Kept(ps, s, pid) && Enabled(s, step) && step.WorldRewrite?
    ensures Kept(ps, Next(ps, s, step), pid)
  {
    hide Label, LastPending;
    StepShape(ps, s, step);
    assert pid != step.pid ==> Classify(ps, s.world[step.pid := step.raw], pid) == Classify(ps, s.world, pid);
  }

  lemma {:induction false} EventStep(ps: seq<Profile>, s: Sys, step: Step, pid: u32)
    requires Kept(ps, s, pid) && Enabled(s, step) && (step.WorldExec? || step.WorldExit?)
    ensures Kept(ps, Next(ps, s, step), pid)
  {
    hide Label;
    StepShape(ps, s, step);
    PendingSnoc(s.queue, if step.WorldExec? then Exec(step.pid) else Exit(step.pid), pid);
  }

  lemma {:induction false} LossStep(ps: seq<Profile>, s: Sys, step: Step, pid: u32)
    requires Kept(ps, s, pid) && Enabled(s, step) && (step.LoseEvent?)
    ensures Kept(ps, Next(ps, s, step), pid)
  {
    hide Label;
    StepShape(ps, s, step);
    if !About(s.queue[step.index], pid) {
      PendingWithout(s.queue, step.index, pid);
    }
  }

  lemma {:induction false} SeedStep(ps: seq<Profile>, s: Sys, step: Step, pid: u32)
    requires Kept(ps, s, pid) && Enabled(s, step) && (step.SeedVisit? || step.SeedDone?)
    ensures Kept(ps, Next(ps, s, step), pid)
  {
    hide Label;
    StepShape(ps, s, step);
  }

  lemma {:induction false} ReaderStep(ps: seq<Profile>, s: Sys, step: Step, pid: u32)
    requires Kept(ps, s, pid) && Enabled(s, step) && (step.ReaderTake? || step.ReaderStore?)
    ensures Kept(ps, Next(ps, s, step), pid)
  {
    hide Label;
    StepShape(ps, s, step);
  }

  lemma {:induction false} ReseedStep(ps: seq<Profile>, s: Sys, step: Step, pid: u32)
    requires Kept(ps, s, pid) && Enabled(s, step) && (step.ReseedList? || step.ReseedPeek? || step.ReseedLabel? || step.ReseedWrite?)
    ensures Kept(ps, Next(ps, s, step), pid)
  {
    hide Label;
    StepShape(ps, s, step);
  }

  /** Each step of any thread, of the world or of the lossy socket keeps the invariant. */
  lemma {:induction false} StepInv(ps: seq<Profile>, s: Sys, step: Step)
    requires Inv(ps, s) && Enabled(s, step)
    ensures Inv(ps, Next(ps, s, step))
  {
    hide Next, Kept, Enabled;
    forall pid: u32
      ensures Kept(ps, Next(ps, s, step), pid)
    {
      match step
      case WorldFork(_, _, _) => ForkStep(ps, s, step, pid);
      case WorldRewrite(_, _) => RewriteStep(ps, s, step, pid);
      case WorldExec(_, _) => EventStep(ps, s, step, pid);
      case WorldExit(_) => EventStep(ps, s, step, pid);
      case LoseEvent(_) => LossStep(ps, s, step, pid);
      case SeedVisit(_) => SeedStep(ps, s, step, pid);
      case SeedDone => SeedStep(ps, s, step, pid);
      case ReaderTake => ReaderStep(ps, s, step, pid);
      case ReaderStore => ReaderStep(ps, s, step, pid);
      case _ => ReseedStep(ps, s, step, pid);
    }
  }

  // ---------------------------------------------------------------- whole runs

  /** The state after the steps, None when one of them was not enabled. */
  function After(ps: seq<Profile>, s: Sys, steps: seq<Step>): Option<Sys> {
    if |steps| == 0 then Some(s)
    else
      var before := After(ps, s, steps[..|steps| - 1]);
      var step := steps[|steps| - 1];
      if before.Some? && Enabled(before.value, step) then Some(Next(ps, before.value, step)) else None
  }

  lemma {:induction false} RunInv(ps: seq<Profile>, s: Sys, steps: seq<Step>)
    requires Inv(ps, s)
    ensures After(ps, s, steps).Some? ==> Inv(ps, After(ps, s, steps).value)
  {
    hide Inv, Next, Enabled;
    if |steps| > 0 && After(ps, s, steps).Some? {
      RunInv(ps, s, steps[..|steps| - 1]);
      StepInv(ps, After(ps, s, steps[..|steps| - 1]).value, steps[|steps| - 1]);
    }
  }

  /** The seed walk is over and the reader has caught up. */
  predicate Drained(s: Sys) { s.toSeed.None? && s.held.None? && |s.queue| == 0 }

  /** After any run of the system, once the reader has caught up, the table agrees with a fresh walk over /proc at
      every PID outside the blame. */
  lemma {:induction false} DrainedAgrees(ps: seq<Profile>, world: World, steps: seq<Step>, pid: u32)
    requires After(ps, Init(world), steps).Some?
    ensures var s := After(ps, Init(world), steps).value;
            Drained(s) && pid !in s.blame ==> Entry(s.table, pid) == ScanChoice(ps, s.world, pid)
  {
    hide Label, ScanChoice, After;
    InitInv(ps, world);
    RunInv(ps, Init(world), steps);
    var s := After(ps, Init(world), steps).value;
    assert Kept(ps, s, pid);
    SameChoice(ps, s.world, pid);
  }

  lemma {:induction false} AfterCons(ps: seq<Profile>, s: Sys, step: Step, rest: seq<Step>)
    requires Enabled(s, step)
    ensures After(ps, s, [step] + rest) == After(ps, Next(ps, s, step), rest)
  {
    hide Next, Enabled;
    if |rest| == 0 {
      assert [step] + rest == [step] && [step][..0] == [];
      assert After(ps, s, []) == Some(s);
    } else {
      var front := rest[..|rest| - 1];
      AfterCons(ps, s, step, front);
      assert ([step] + rest)[..|rest|] == [step] + front;
    }
  }

  /** From every state the seed walk and the reader, left alone, catch up with a world that stands still. */
  lemma {:induction false} CatchesUp(ps: seq<Profile>, s: Sys) returns (steps: seq<Step>)
    ensures After(ps, s, steps).Some? && Drained(After(ps, s, steps).value)
    ensures After(ps, s, steps).value.world == s.world
    ensures forall i | 0 <= i < |steps| ::
              steps[i].SeedVisit? || steps[i].SeedDone? || steps[i].ReaderTake? || steps[i].ReaderStore?
    decreases if s.toSeed.Some? then 1 + |s.toSeed.value| else 0, |s.queue|, if s.held.Some? then 1 else 0
  {
    hide Label, LastPending, Stored, After;
    var step: Step;
    if s.toSeed.Some? && s.toSeed.value != {} {
      var pid :| pid in s.toSeed.value;
      step := SeedVisit(pid);
    } else if s.toSeed.Some? {
      step := SeedDone;
    } else if s.held.Some? {
      step := ReaderStore;
    } else if |s.queue| > 0 {
      step := ReaderTake;
    } else {
      steps := [];
      NoSteps(ps, s);
      return;
    }
    var rest := CatchesUp(ps, Next(ps, s, step));
    AfterCons(ps, s, step, rest);
    steps := [step] + rest;
  }

  lemma NoSteps(ps: seq<Profile>, s: Sys)
    ensures After(ps, s, []) == Some(s)
  {
  }

  /** A step the design allows for: no event is lost, a child does not match before its exec, a rewritten argv still
      matches the same profile, and a drift correction overwrites no PID that changed in its window. */
  predicate Benign(ps: seq<Profile>, s: Sys, step: Step) {
    match step
    case WorldFork(_, _, raw) => Label(ps, raw).None?
    case WorldRewrite(pid, raw) => pid in s.world && Label(ps, raw) == Label(ps, s.world[pid])
    case LoseEvent(_) => false
    case ReseedWrite => s.reseed.Labelling? && s.reseed.touched !! Overwritten(s.reseed)
    case _ => true
  }

  ghost predicate BenignRun(ps: seq<Profile>, s: Sys, steps: seq<Step>) {
    forall n | 0 <= n < |steps| ::
      After(ps, s, steps[..n]).Some? ==> Benign(ps, After(ps, s, steps[..n]).value, steps[n])
  }

  lemma {:induction false} BenignStep(ps: seq<Profile>, s: Sys, step: Step)
    requires s.blame == {} && Enabled(s, step) && Benign(ps, s, step)
    ensures Next(ps, s, step).blame == {}
  {
    hide Label, LastPending, Corrected, Stored;
  }

  lemma {:induction false} BenignIsBlameless(ps: seq<Profile>, s: Sys, steps: seq<Step>)
    requires s.blame == {} && BenignRun(ps, s, steps)
    ensures var r := After(ps, s, steps); r.Some? ==> r.value.blame == {}
  {
    hide Next, Enabled, Benign;
    if |steps| > 0 && After(ps, s, steps).Some? {
      var n := |steps| - 1;
      assert forall m | 0 <= m < n :: steps[..n][..m] == steps[..m];
      BenignIsBlameless(ps, s, steps[..n]);
      BenignStep(ps, After(ps, s, steps[..n]).value, steps[n]);
    }
  }

  function TableTargets(table: Table): set<Target> {
    set p | p in table :: Target(p, table[p])
  }

  function ScanSet(ps: seq<Profile>, world: World): set<Target> {
    set p | p in world && ScanChoice(ps, world, p).Some? :: Target(p, ScanChoice(ps, world, p).value)
  }

  /** With lossless events, subscription before the seed walk, children that match only after exec and drift corrections
      that overwrite nothing touched in their window, every interleaving ends, once the queue drains, with the live
      targets equal to the scanned ones. */
  lemma {:induction false} LiveTargetsAreScanned(ps: seq<Profile>, world: World, steps: seq<Step>)
    requires BenignRun(ps, Init(world), steps)
    ensures var s := After(ps, Init(world), steps);
            s.Some? && Drained(s.value) ==> TableTargets(s.value.table) == ScanSet(ps, s.value.world)
  {
    hide FirstMatch, ParseCmdline, After, BenignRun;
    var r := After(ps, Init(world), steps);
    if r.Some? && Drained(r.value) {
      BenignIsBlameless(ps, Init(world), steps);
      forall pid: u32
        ensures Entry(r.value.table, pid) == ScanChoice(ps, r.value.world, pid)
      {
        DrainedAgrees(ps, world, steps, pid);
      }
      SameTargets(ps, r.value.world, r.value.table);
    }
  }

  lemma {:induction false} SameTargets(ps: seq<Profile>, world: World, table: Table)
    requires forall pid: u32 :: Entry(table, pid) == ScanChoice(ps, world, pid)
    ensures TableTargets(table) == ScanSet(ps, world)
  {
    hide FirstMatch, ParseCmdline;
    forall t: Target
      ensures t in TableTargets(table) <==> t in ScanSet(ps, world)
    {
      assert t in TableTargets(table) <==> Entry(table, t.pid) == Some(t.profile);
      assert t in ScanSet(ps, world) <==> ScanChoice(ps, world, t.pid) == Some(t.profile);
    }
  }

  // ---------------------------------------------------------------- drift correction among other threads

  /** The step may change the record of the PID, in the world or in the table. */
  predicate Touches(ps: seq<Profile>, s: Sys, step: Step, pid: u32) {
    match step
    case WorldFork(_, child, raw) => child == pid && Label(ps, raw).Some?
    case WorldExec(p, _) => p == pid
    case WorldExit(p) => p == pid
    case WorldRewrite(p, raw) => p == pid && pid in s.world && Label(ps, raw) != Label(ps, s.world[pid])
    case ReaderTake => |s.queue| > 0 && About(s.queue[0], pid)
    case ReaderStore => s.held.Some? && s.held.value.pid == pid
    case _ => false
  }

  /** From the directory read in state s on, no step touches the PID and the correction is not yet written. */
  ghost predicate Window(ps: seq<Profile>, s: Sys, steps: seq<Step>, pid: u32) {
    forall n | 0 <= n < |steps| ::
      !steps[n].ReseedWrite?
      && (After(ps, s, steps[..n]).Some? ==> !Touches(ps, After(ps, s, steps[..n]).value, steps[n], pid))
  }

  lemma {:induction false} UntouchedStep(ps: seq<Profile>, s: Sys, step: Step, pid: u32)
    requires !s.reseed.NoReseed? && pid !in s.reseed.touched && Enabled(s, step)
    requires !step.ReseedWrite? && !Touches(ps, s, step, pid)
    ensures var t := Next(ps, s, step).reseed;
            !t.NoReseed? && t.world0 == s.reseed.world0 && t.table0 == s.reseed.table0 && pid !in t.touched
  {
    hide Label, LastPending, Corrected, Stored;
  }

  lemma {:induction false} WindowKeeps(ps: seq<Profile>, s: Sys, steps: seq<Step>, pid: u32)
    requires !s.reseed.NoReseed? && pid !in s.reseed.touched && Window(ps, s, steps, pid)
    ensures var r := After(ps, s, steps);
            r.Some? ==> var t := r.value.reseed;
                        !t.NoReseed? && t.world0 == s.reseed.world0 && t.table0 == s.reseed.table0 && pid !in t.touched
  {
    hide Next, Enabled, Touches;
    if |steps| > 0 && After(ps, s, steps).Some? {
      var n := |steps| - 1;
      assert forall m | 0 <= m < n :: steps[..n][..m] == steps[..m];
      WindowKeeps(ps, s, steps[..n], pid);
      UntouchedStep(ps, After(ps, s, steps[..n]).value, steps[n], pid);
    }
  }

  /** Whatever other threads do between the directory read and the final write, at a PID they do not touch the
      correction gives the result it would have given undisturbed. */
  lemma {:induction false} ReseedUndisturbedAt(ps: seq<Profile>, s: Sys, steps: seq<Step>, pid: u32)
    requires Inv(ps, s) && Enabled(s, ReseedList)
    requires s.held.None? || s.held.value.pid != pid
    requires Window(ps, Next(ps, s, ReseedList), steps, pid)
    ensures var r := After(ps, Next(ps, s, ReseedList), steps);
            r.Some? && Enabled(r.value, ReseedWrite) ==>
            Entry(Next(ps, r.value, ReseedWrite).table, pid) == Entry(Reseeded(ps, s.world, s.table), pid)
  {
    hide Label, After, Window, Inv;
    var s1 := Next(ps, s, ReseedList);
    var r := After(ps, s1, steps);
    if r.Some? && Enabled(r.value, ReseedWrite) {
      StepInv(ps, s, ReseedList);
      RunInv(ps, s1, steps);
      InvKept(ps, r.value, pid);
      WindowKeeps(ps, s1, steps, pid);
    }
  }

  /** An exec event makes up for whatever went unreported before: once the last one pending for a PID is read and the
      record stored, with nothing happening in between, the PID is right and free of blame. */
  lemma {:induction false} ExecLiftsBlame(ps: seq<Profile>, s: Sys, pid: u32)
    requires Enabled(s, ReaderTake) && s.queue[0] == Exec(pid) && LastPending(s.queue[1..], pid).None?
    ensures var t := Next(ps, s, ReaderTake);
            && Enabled(t, ReaderStore)
            && var u := Next(ps, t, ReaderStore);
            && pid !in u.blame && Entry(u.table, pid) == Classify(ps, u.world, pid)
  {
    hide Label, LastPending;
  }

  /** A correction makes up for lost events: a PID not touched in its window, with no event pending, is right afterwards
      and free of blame, unless it was alive and in the table and so was not looked at. */
  lemma {:induction false} CorrectionLiftsBlame(ps: seq<Profile>, s: Sys, pid: u32)
    requires Inv(ps, s) && Enabled(s, ReseedWrite)
    requires pid !in s.reseed.touched && LastPending(s.queue, pid).None?
    requires !(pid in s.reseed.world0 && pid in s.reseed.existing)
    ensures var t := Next(ps, s, ReseedWrite);
            pid !in t.blame && Entry(t.table, pid) == Classify(ps, t.world, pid)
  {
    hide Label, LastPending;
    InvKept(ps, s, pid);
  }

  lemma InvKept(ps: seq<Profile>, s: Sys, pid: u32)
    requires Inv(ps, s)
    ensures Kept(ps, s, pid)
  {
  }

  // ---------------------------------------------------------------- the assumptions are needed

  ghost predicate Reachable(ps: seq<Profile>, s: Sys) {
    exists world: World, steps: seq<Step> :: After(ps, Init(world), steps) == Some(s)
  }

  lemma {:induction false} Reach(ps: seq<Profile>, s: Sys, step: Step)
    requires Reachable(ps, s) && Enabled(s, step)
    ensures Reachable(ps, Next(ps, s, step))
  {
    hide Next, Enabled;
    var world: World, steps: seq<Step> :| After(ps, Init(world), steps) == Some(s);
    assert (steps + [step])[..|steps|] == steps;
    assert After(ps, Init(world), steps + [step]) == Some(Next(ps, s, step));
  }

  lemma {:induction false} ReachStart(ps: seq<Profile>)
    ensures Reachable(ps, Sys(map[], [], map[], None, None, NoReseed, {}))
  {
    var s0 := Init(map[]);
    assert s0.toSeed.value == {};
    assert After(ps, s0, []) == Some(s0);
    Reach(ps, s0, SeedDone);
  }

  /** A child that matches without an exec stays invisible to the table, whatever the profiles are. */
  lemma {:induction false} MatchingForkIsMissed(ps: seq<Profile>, raw: Bytes) returns (s: Sys)
    requires Label(ps, raw).Some?
    ensures Reachable(ps, s) && Drained(s)
    ensures Entry(s.table, 2) == None && Classify(ps, s.world, 2).Some?
  {
    hide Label, Reachable;
    ReachStart(ps);
    s := Sys(map[], [], map[], None, None, NoReseed, {});
    Reach(ps, s, WorldFork(1, 2, raw));
    s := Next(ps, s, WorldFork(1, 2, raw));
    assert s.queue == [Fork(1, 2)];
    Reach(ps, s, ReaderTake);
    s := Next(ps, s, ReaderTake);
  }

  /** The table agrees with the world at every PID. */
  ghost predicate Agrees(ps: seq<Profile>, s: Sys) {
    forall pid: u32 :: Entry(s.table, pid) == Classify(ps, s.world, pid)
  }

  /** The reader's work on the event of a world step. */
  function Reaction(step: Step): seq<Step> {
    if step.WorldExec? then [ReaderTake, ReaderStore] else if step.WorldRewrite? then [] else [ReaderTake]
  }

  predicate IsWorldStep(step: Step) { step.WorldFork? || step.WorldExec? || step.WorldExit? || step.WorldRewrite? }

  lemma {:induction false} AfterOne(ps: seq<Profile>, s: Sys, steps: seq<Step>, step: Step)
    requires After(ps, s, steps).Some? && Enabled(After(ps, s, steps).value, step)
    ensures After(ps, s, steps + [step]) == Some(Next(ps, After(ps, s, steps).value, step))
  {
    assert (steps + [step])[..|steps|] == steps;
  }

  lemma {:induction false} ReactionRuns(ps: seq<Profile>, s: Sys, step: Step)
    requires Drained(s) && s.reseed.NoReseed? && IsWorldStep(step) && Enabled(s, step)
    ensures var t := After(ps, s, [step] + Reaction(step));
            && t.Some? && Drained(t.value) && t.value.world == Next(ps, s, step).world
            && t.value.table == if step.WorldExec? || step.WorldExit?
                                then Stored(s.table, step.pid, Classify(ps, t.value.world, step.pid)) else s.table
  {
    hide Label, LastPending, Stored;
    var t := Next(ps, s, step);
    assert After(ps, s, []) == Some(s);
    AfterOne(ps, s, [], step);
    assert [] + [step] == [step];
    if step.WorldRewrite? {
      assert [step] + Reaction(step) == [step];
    } else {
      AfterOne(ps, s, [step], ReaderTake);
      assert t.queue[1..] == [];
      if step.WorldExec? {
        AfterOne(ps, s, [step] + [ReaderTake], ReaderStore);
        assert [step] + Reaction(step) == [step] + [ReaderTake] + [ReaderStore];
      }
    }
  }

  /** One thing happens in the world while the table is right and nothing else is under way. Once the reader has
      reacted the table is right again exactly if no child matched at birth and no rewritten argv changed its match. */
  lemma {:induction false} ReactionSufficesExactly(ps: seq<Profile>, s: Sys, step: Step)
    requires Drained(s) && s.reseed.NoReseed? && Agrees(ps, s) && IsWorldStep(step) && Enabled(s, step)
    ensures var t := After(ps, s, [step] + Reaction(step));
            t.Some? && Drained(t.value) && (Agrees(ps, t.value) <==> Benign(ps, s, step))
  {
    hide Label, After, Stored;
    ReactionRuns(ps, s, step);
    var t := After(ps, s, [step] + Reaction(step)).value;
    var changed := if step.WorldFork? then step.child else step.pid;
    forall pid: u32 | pid != changed
      ensures Entry(t.table, pid) == Classify(ps, t.world, pid)
    {
      assert Entry(s.table, pid) == Classify(ps, s.world, pid);
    }
    assert Entry(s.table, changed) == Classify(ps, s.world, changed);
    assert Entry(t.table, changed) == Classify(ps, t.world, changed) <==> Benign(ps, s, step);
  }

  /** The same when the event of an exec or exit is lost: the table is right exactly if the record did not change. */
  lemma {:induction false} LossIsHarmlessExactly(ps: seq<Profile>, s: Sys, step: Step)
    requires Drained(s) && Agrees(ps, s) && (step.WorldExec? || step.WorldExit?) && Enabled(s, step)
    ensures var t := Next(ps, s, step);
            Enabled(t, LoseEvent(0)) && var u := Next(ps, t, LoseEvent(0));
            Drained(u) && (Agrees(ps, u) <==> Classify(ps, u.world, step.pid) == Classify(ps, s.world, step.pid))
  {
    hide Label;
    var u := Next(ps, Next(ps, s, step), LoseEvent(0));
    assert forall pid: u32 | pid != step.pid :: Classify(ps, u.world, pid) == Classify(ps, s.world, pid);
    assert Entry(s.table, step.pid) == Classify(ps, s.world, step.pid);
  }

  /** What the correction is about to record for a PID is what the world shows now. */
  predicate UpToDate(ps: seq<Profile>, s: Sys, pid: u32)
    requires s.reseed.Labelling?
  {
    Classify(ps, s.world, pid) == Entry(s.reseed.found, pid)
  }

  /** The final write of a drift correction, PID by PID: where the table was right it stays right exactly if the PID is
      not overwritten, or was not touched in the window, or what the correction knows of it is still up to date. */
  lemma {:induction false} WriteExactlyAt(ps: seq<Profile>, s: Sys, pid: u32)
    requires Kept(ps, s, pid) && Enabled(s, ReseedWrite) && Entry(s.table, pid) == Classify(ps, s.world, pid)
    ensures Entry(Next(ps, s, ReseedWrite).table, pid) == Classify(ps, s.world, pid)
            <==> pid !in s.reseed.touched * Overwritten(s.reseed) || UpToDate(ps, s, pid)
  {
    hide Label, LastPending;
  }

  /** A correction that ends while the table is right and the reader has nothing to do leaves it right if and only if
      each PID it overwrites that changed in its window still is what the correction takes it for: a phantom is still
      gone or unmatched, a newcomer still matches the same profile. */
  lemma {:induction false} ReseedWriteExactly(ps: seq<Profile>, s: Sys)
    requires Inv(ps, s) && Drained(s) && Agrees(ps, s) && Enabled(s, ReseedWrite)
    ensures var t := Next(ps, s, ReseedWrite);
            Drained(t) && (Agrees(ps, t) <==>
                           forall pid | pid in s.reseed.touched * Overwritten(s.reseed) :: UpToDate(ps, s, pid))
  {
    hide Kept, Overwritten, UpToDate, Classify, Entry, Repaired;
    forall pid: u32
      ensures Entry(Next(ps, s, ReseedWrite).table, pid) == Classify(ps, s.world, pid)
              <==> pid !in s.reseed.touched * Overwritten(s.reseed) || UpToDate(ps, s, pid)
    {
      InvKept(ps, s, pid);
      WriteExactlyAt(ps, s, pid);
    }
  }

  /** A process is forked and execs into a target; both events are still queued. */
  lemma {:induction false} ReachBorn(ps: seq<Profile>, raw: Bytes, s: Sys)
    requires Reachable(ps, s) && s.world == map[] && s.queue == []
    ensures Reachable(ps, s.(world := map[2 := raw], queue := [Fork(1, 2), Exec(2)], reseed := Touch(s.reseed, 2)))
  {
    hide Reachable, FirstMatch, ParseCmdline;
    Reach(ps, s, WorldFork(1, 2, []));
    var t := Next(ps, s, WorldFork(1, 2, []));
    Reach(ps, t, WorldExec(2, raw));
    assert t.world[2 := raw] == map[2 := raw] && t.queue + [Exec(2)] == [Fork(1, 2), Exec(2)];
  }

  /** A lost exec event hides a target. */
  lemma {:induction false} LostExecIsMissed(ps: seq<Profile>, raw: Bytes) returns (s: Sys)
    requires Label(ps, raw).Some?
    ensures Reachable(ps, s) && Drained(s)
    ensures Entry(s.table, 2) == None && Classify(ps, s.world, 2).Some?
  {
    hide Reachable, Label;
    ReachStart(ps);
    s := Sys(map[], [], map[], None, None, NoReseed, {});
    ReachBorn(ps, raw, s);
    s := s.(world := map[2 := raw], queue := [Fork(1, 2), Exec(2)]);
    Reach(ps, s, LoseEvent(1));
    s := Next(ps, s, LoseEvent(1));
    assert s.queue == [Fork(1, 2)];
    Reach(ps, s, ReaderTake);
    s := Next(ps, s, ReaderTake);
  }

  /** The reader takes both events and stores what the exec event made it read. */
  lemma {:induction false} ReachStored(ps: seq<Profile>, s: Sys, rest: seq<ProcEvent>)
    requires Reachable(ps, s) && s.toSeed.None? && s.held.None? && s.queue == [Fork(1, 2), Exec(2)] + rest
    requires s.blame == {}
    ensures Reachable(ps, s.(queue := rest, reseed := Touch(s.reseed, 2),
                             table := Stored(s.table, 2, Classify(ps, s.world, 2))))
  {
    hide Reachable, Label, Stored, LastPending;
    Reach(ps, s, ReaderTake);
    var t := s.(queue := [Exec(2)] + rest);
    assert s.queue[1..] == t.queue;
    Reach(ps, t, ReaderTake);
    var u := Next(ps, t, ReaderTake);
    assert t.queue[1..] == rest && u.blame == {};
    Reach(ps, u, ReaderStore);
    assert Touch(Touch(s.reseed, 2), 2) == Touch(s.reseed, 2);
  }

  /** A target that starts after the directory read and is stored before the table is peeked at is thrown out
      again by the correction, although no event was lost. */
  lemma {:induction false} ReseedCanDropLiveTarget(ps: seq<Profile>, raw: Bytes) returns (s: Sys)
    requires Label(ps, raw).Some?
    ensures Reachable(ps, s) && Drained(s)
    ensures Entry(s.table, 2) == None && Classify(ps, s.world, 2).Some?
  {
    hide Reachable, Label;
    ReachStart(ps);
    s := Sys(map[], [], map[], None, None, NoReseed, {});
    Reach(ps, s, ReseedList);
    s := s.(reseed := Listed(map[], map[], {}));
    ReachBorn(ps, raw, s);
    assert s.reseed.touched + {2} == {2};
    s := s.(world := map[2 := raw], queue := [Fork(1, 2), Exec(2)], reseed := Listed(map[], map[], {2}));
    assert s.queue == [Fork(1, 2), Exec(2)] + [];
    ReachStored(ps, s, []);
    assert s.reseed.touched + {2} == {2};
    assert Stored(map[], 2, Label(ps, raw)) == map[2 := Label(ps, raw).value];
    s := s.(queue := [], table := map[2 := Label(ps, raw).value]);
    Reach(ps, s, ReseedPeek);
    assert s.table.Keys == {2};
    s := s.(reseed := Labelling(map[], map[], {2}, {2}, {}, map[]));
    assert s.reseed.world0.Keys - s.reseed.existing == {};
    Reach(ps, s, ReseedWrite);
    s := Next(ps, s, ReseedWrite);
  }

  /** A target that exits between its classification and the final write comes back as a phantom. */
  lemma {:induction false} ReseedCanReviveDeadTarget(ps: seq<Profile>, raw: Bytes) returns (s: Sys)
    requires Label(ps, raw).Some?
    ensures Reachable(ps, s) && Drained(s)
    ensures Entry(s.table, 2).Some? && 2 !in s.world
  {
    hide Reachable, Label;
    ReachStart(ps);
    var w := map[2 := raw];
    ReachBorn(ps, raw, Sys(map[], [], map[], None, None, NoReseed, {}));
    s := Sys(w, [Fork(1, 2), Exec(2)], map[], None, None, NoReseed, {});
    Reach(ps, s, ReseedList);
    s := s.(reseed := Listed(w, map[], {}));
    Reach(ps, s, ReseedPeek);
    assert s.table.Keys == {};
    s := s.(reseed := Labelling(w, map[], {}, {}, {}, map[]));
    ReachLabelledThenDead(ps, raw, s);
    s := s.(world := map[], queue := [Fork(1, 2), Exec(2)] + [Exit(2)],
            reseed := Labelling(w, map[], {2}, {}, {2}, map[2 := Label(ps, raw).value]));
    ReachStored(ps, s, [Exit(2)]);
    assert s.reseed.touched + {2} == {2};
    assert w.Keys - {} == {2};
    s := s.(queue := [Exit(2)], table := Stored(map[], 2, None));
    ReachPhantom(ps, s);
    s := Next(ps, s.(queue := [], table := Stored(s.table, 2, None)), ReseedWrite);
  }

  lemma {:induction false} ReachLabelledThenDead(ps: seq<Profile>, raw: Bytes, s: Sys)
    requires Reachable(ps, s) && Label(ps, raw).Some?
    requires s == Sys(map[2 := raw], [Fork(1, 2), Exec(2)], map[], None, None,
                      Labelling(map[2 := raw], map[], {}, {}, {}, map[]), {})
    ensures Reachable(ps, s.(world := map[], queue := [Fork(1, 2), Exec(2)] + [Exit(2)],
                             reseed := Labelling(s.world, map[], {2}, {}, {2}, map[2 := Label(ps, raw).value])))
  {
    hide Reachable, Label;
    Reach(ps, s, ReseedLabel(2));
    var t := Next(ps, s, ReseedLabel(2));
    Reach(ps, t, WorldExit(2));
    assert t.world - {2} == map[] && t.reseed.done == {2} && t.reseed.touched + {2} == {2};
  }

  lemma {:induction false} ReachPhantom(ps: seq<Profile>, s: Sys)
    requires Reachable(ps, s) && s.toSeed.None? && s.held.None? && s.queue == [Exit(2)] && s.reseed.Labelling?
    requires s.reseed.touched == {2} && s.reseed.done == s.reseed.world0.Keys - s.reseed.existing
    ensures var t := s.(queue := [], table := Stored(s.table, 2, None));
            Enabled(t, ReseedWrite) && Reachable(ps, Next(ps, t, ReseedWrite))
  {
    hide Reachable, Label, Stored;
    Reach(ps, s, ReaderTake);
    var t := s.(queue := [], table := Stored(s.table, 2, None));
    assert s.reseed.touched + {2} == {2} && s.queue[1..] == [];
    Reach(ps, t, ReseedWrite);
  }
}
