/** Browser signals (daemon/src/signals.rs): a TTL cache of reports keyed by browser family and the veto
    it gives. Pruning is lazy; the reference semantics below keeps every report ever received. */
module Signals {
  import opened Base
  import opened Ascii

  const SENT_AT_MAX_SKEW_MS: u64 := 120_000

  datatype Content = Content(playingMedia: u32, lastInteractionMs: Option<u64>)
  datatype Tab = Tab(audible: bool, windowFocused: bool, content: Option<Content>)
  datatype Report = Report(sentAtMs: u64, family: string, tabs: seq<Tab>)
  datatype CachedReport = CachedReport(receivedAt: nat, report: Report)

  /** A report reaching the daemon: the monotonic instant of its insertion and the wall clock then. */
  datatype Arrival = Arrival(receivedAt: nat, wallMs: u64, report: Report)

  datatype Reason = AudibleTab | PlayingMedia | FocusedWindow | RecentInteraction
  datatype Veto = Veto(reason: Reason, count: nat)

  // ---------------------------------------------------------------- families

  const FIREFOX_NAMES: set<string> := {"firefox", "librewolf", "waterfox", "icecat", "zen"}
  const CHROMIUM_NAMES: set<string> :=
    {"chromium", "chrome", "brave", "edge", "opera", "vivaldi", "thorium"}

  function CanonicalFamily(raw: string): Option<string> {
    var name := ToLower(raw);
    if name in FIREFOX_NAMES then Some("firefox")
    else if name in CHROMIUM_NAMES then Some("chromium")
    else None
  }

  /** Canonical names are fixed points, and case never matters. */
  lemma {:induction false} CanonicalIsStable(raw: string, other: string)
    ensures CanonicalFamily(raw).Some? ==> CanonicalFamily(CanonicalFamily(raw).value) == CanonicalFamily(raw)
    ensures ToLower(raw) == ToLower(other) ==> CanonicalFamily(raw) == CanonicalFamily(other)
  {
    LowerFixes("firefox");
    LowerFixes("chromium");
  }

  /** The families name by name, in any letter case. */
  lemma {:induction false} FamiliesExactly(raw: string)
    ensures CanonicalFamily(raw) == Some("firefox") <==>
            ToLower(raw) in ["firefox", "librewolf", "waterfox", "icecat", "zen"]
    ensures CanonicalFamily(raw) == Some("chromium") <==>
            ToLower(raw) in ["chromium", "chrome", "brave", "edge", "opera", "vivaldi", "thorium"]
    ensures CanonicalFamily(raw) in {Some("firefox"), Some("chromium"), None}
  {
    hide ToLower;
    assert "firefox" != "chromium" by { assert "firefox"[0] != "chromium"[0]; }
    forall name | name in FIREFOX_NAMES
      ensures name !in CHROMIUM_NAMES
    {
    }
  }

  // ---------------------------------------------------------------- the veto of one report

  function Count(tabs: seq<Tab>, p: Tab -> bool): (n: nat)
    ensures n > 0 <==> exists t :: t in tabs && p(t)
  {
    if |tabs| == 0 then 0
    else
      var last := |tabs| - 1;
      assert tabs == tabs[..last] + [tabs[last]];
      Count(tabs[..last], p) + if p(tabs[last]) then 1 else 0
  }

  function Playing(tab: Tab): u32 { if tab.content.Some? then tab.content.value.playingMedia else 0 }

  function MediaTotal(tabs: seq<Tab>): nat {
    if |tabs| == 0 then 0 else Playing(tabs[0]) + MediaTotal(tabs[1..])
  }

  predicate InteractedSince(tab: Tab, cutoff: u64) {
    && tab.content.Some?
    && tab.content.value.lastInteractionMs.Some?
    && tab.content.value.lastInteractionMs.value >= cutoff
  }

  /** The first veto that applies, in the daemon's order. The media count is a u32 sum. */
  function VetoOf(report: Report, wallMs: u64, graceMs: u64): Option<Veto> {
    var audible := Count(report.tabs, (t: Tab) => t.audible);
    var media := WrapU32(MediaTotal(report.tabs));
    var focused := Count(report.tabs, (t: Tab) => t.windowFocused);
    var cutoff: u64 := SaturatingSub(wallMs, graceMs);
    var recent := Count(report.tabs, (t: Tab) => InteractedSince(t, cutoff));
    if audible > 0 then Some(Veto(AudibleTab, audible))
    else if media > 0 then Some(Veto(PlayingMedia, media))
    else if focused > 0 then Some(Veto(FocusedWindow, focused))
    else if recent > 0 then Some(Veto(RecentInteraction, recent))
    else None
  }

  /** The page says it plays media. */
  predicate Plays(t: Tab) { t.content.Some? && t.content.value.playingMedia > 0 }

  /** The page says the user touched it at most the grace period ago. */
  predicate Recent(t: Tab, wallMs: u64, graceMs: u64) {
    match t.content
    case Some(Content(_, Some(ms))) => ms + graceMs >= wallMs
    case _ => false
  }

  lemma {:induction false} MediaTotalZero(tabs: seq<Tab>)
    ensures MediaTotal(tabs) == 0 <==> forall t | t in tabs :: !Plays(t)
  {
    if |tabs| > 0 {
      MediaTotalZero(tabs[1..]);
      assert tabs[0] in tabs && (forall t | t in tabs[1..] :: t in tabs);
      assert forall t | t in tabs :: t == tabs[0] || t in tabs[1..];
    }
  }

  /** The media total is the sum: every tab adds its own count, wherever it stands. */
  lemma {:induction false} MediaTotalAdds(a: seq<Tab>, t: Tab, b: seq<Tab>)
    ensures MediaTotal(a + [t] + b)
            == MediaTotal(a + b) + if t.content.Some? then t.content.value.playingMedia else 0
  {
    if |a| == 0 {
      assert a + [t] + b == [t] + b && ([t] + b)[1..] == b && a + b == b;
    } else {
      MediaTotalAdds(a[1..], t, b);
      assert (a + [t] + b)[1..] == a[1..] + [t] + b && (a + b)[1..] == a[1..] + b;
    }
  }

  /** Nothing in the report asks for protection. */
  ghost predicate Quiet(report: Report, wallMs: u64, graceMs: u64) {
    forall t | t in report.tabs :: !t.audible && !t.windowFocused && !Plays(t) && !Recent(t, wallMs, graceMs)
  }

  lemma {:induction false} RecentExactly(t: Tab, wallMs: u64, graceMs: u64)
    ensures InteractedSince(t, SaturatingSub(wallMs, graceMs)) <==> Recent(t, wallMs, graceMs)
  {
  }

  /** The veto is silent exactly on quiet reports, except when the media counts wrap around to zero. */
  lemma {:induction false} VetoExactly(report: Report, wallMs: u64, graceMs: u64)
    ensures var total := MediaTotal(report.tabs);
            var veto := VetoOf(report, wallMs, graceMs);
            && (total == 0 || total % 0x1_0000_0000 != 0 ==> (veto.None? <==> Quiet(report, wallMs, graceMs)))
            && (total > 0 && total % 0x1_0000_0000 == 0 ==>
                && !Quiet(report, wallMs, graceMs)
                && (veto.None? <==> forall t | t in report.tabs ::
                                      !t.audible && !t.windowFocused && !Recent(t, wallMs, graceMs)))
  {
    hide WrapU32;
    MediaTotalZero(report.tabs);
    WrapU32IsRemainder(MediaTotal(report.tabs));
    forall t
      ensures InteractedSince(t, SaturatingSub(wallMs, graceMs)) <==> Recent(t, wallMs, graceMs)
    {
      RecentExactly(t, wallMs, graceMs);
    }
  }

  /** The positions of the tabs with a property. */
  function Where(tabs: seq<Tab>, p: Tab -> bool): set<nat> { set i: nat | i < |tabs| && p(tabs[i]) }

  lemma {:induction false} CountIsSize(tabs: seq<Tab>, p: Tab -> bool)
    ensures Count(tabs, p) == |Where(tabs, p)|
  {
    if |tabs| > 0 {
      var n := |tabs| - 1;
      CountIsSize(tabs[..n], p);
      assert Where(tabs, p) == Where(tabs[..n], p) + if p(tabs[n]) then {n} else {};
    } else {
      assert Where(tabs, p) == {};
    }
  }

  lemma {:induction false} SameWhere(tabs: seq<Tab>, wallMs: u64, graceMs: u64)
    ensures Where(tabs, (t: Tab) => InteractedSince(t, SaturatingSub(wallMs, graceMs)))
         == Where(tabs, (t: Tab) => Recent(t, wallMs, graceMs))
  {
    forall i | 0 <= i < |tabs|
      ensures InteractedSince(tabs[i], SaturatingSub(wallMs, graceMs)) <==> Recent(tabs[i], wallMs, graceMs)
    {
      RecentExactly(tabs[i], wallMs, graceMs);
    }
  }

  /** Which veto is given: the first in the order audible, playing, focused, recent that has any tab behind it, with the
      number of those tabs, or for media the 32-bit sum. */
  lemma {:induction false} VetoPriority(report: Report, wallMs: u64, graceMs: u64)
    ensures
      var tabs := report.tabs;
      var audible := Where(tabs, (t: Tab) => t.audible);
      var media := MediaTotal(tabs) % 0x1_0000_0000;
      var focused := Where(tabs, (t: Tab) => t.windowFocused);
      var recent := Where(tabs, (t: Tab) => Recent(t, wallMs, graceMs));
      var veto := VetoOf(report, wallMs, graceMs);
      && (audible != {} ==> veto == Some(Veto(AudibleTab, |audible|)))
      && (audible == {} && media > 0 ==> veto == Some(Veto(PlayingMedia, media)))
      && (audible == {} && media == 0 && focused != {} ==> veto == Some(Veto(FocusedWindow, |focused|)))
      && (audible == focused == {} && media == 0 && recent != {} ==> veto == Some(Veto(RecentInteraction, |recent|)))
      && (audible == focused == recent == {} && media == 0 ==> veto == None)
  {
    hide Count, WrapU32, MediaTotal, Where;
    var cutoff := SaturatingSub(wallMs, graceMs);
    WrapU32IsRemainder(MediaTotal(report.tabs));
    SameWhere(report.tabs, wallMs, graceMs);
    CountIsSize(report.tabs, (t: Tab) => t.audible);
    CountIsSize(report.tabs, (t: Tab) => t.windowFocused);
    CountIsSize(report.tabs, (t: Tab) => InteractedSince(t, cutoff));
  }

  /** Two tabs can hide four billion playing elements: the sum wraps and the veto is lost. */
  lemma {:induction false} MediaSumCanWrap(wallMs: u64, graceMs: u64)
    ensures var loud := Tab(false, false, Some(Content(0x8000_0000, None)));
            var report := Report(wallMs, "firefox", [loud, loud]);
            VetoOf(report, wallMs, graceMs).None? && Plays(loud)
  {
    var loud := Tab(false, false, Some(Content(0x8000_0000, None)));
    var tabs := [loud, loud];
    assert tabs[1..] == [loud] && MediaTotal([loud]) == 0x8000_0000 + MediaTotal([loud][1..]);
    VetoExactly(Report(wallMs, "firefox", tabs), wallMs, graceMs);
  }

  // ---------------------------------------------------------------- reference semantics over the whole log

  /** The family a report is filed under; None when the daemon rejects it: its time stamp lies more than two minutes
      off the wall clock, either way, or its family is unknown. */
  function FiledUnder(a: Arrival): Option<string> {
    if a.wallMs > a.report.sentAtMs + 120_000 || a.report.sentAtMs > a.wallMs + 120_000 then None
    else CanonicalFamily(a.report.family)
  }

  function Latest(log: seq<Arrival>, family: string): Option<Arrival> {
    if |log| == 0 then None
    else if FiledUnder(log[|log| - 1]) == Some(family) then Some(log[|log| - 1])
    else Latest(log[..|log| - 1], family)
  }

  /** `Instant::duration_since` saturates at zero. */
  function Age(now: nat, receivedAt: nat): nat { SaturatingSub(now, receivedAt) }

  /** The answer of a veto query: by the latest accepted report of the family, if still within its TTL. */
  function VetoByLog(log: seq<Arrival>, ttl: nat, graceMs: u64, profile: string, now: nat, wallMs: u64): Option<Veto> {
    var family := CanonicalFamily(profile);
    if family.None? then None
    else
      var a := Latest(log, family.value);
      if a.None? || now > a.value.receivedAt + ttl then None
      else VetoOf(a.value.report, wallMs, graceMs)
  }

  // ---------------------------------------------------------------- the cache

  /** The cache holds the latest report of each family, or nothing when that report was already stale
      at the latest query. */
  ghost predicate Faithful(reports: map<string, CachedReport>, log: seq<Arrival>, ttl: nat, clock: nat) {
    forall f: string :: FaithfulAt(reports, log, ttl, clock, f)
  }

  ghost predicate FaithfulAt(reports: map<string, CachedReport>, log: seq<Arrival>, ttl: nat, clock: nat, f: string) {
    var a := Latest(log, f);
    if f in reports
    then a.Some? && reports[f] == CachedReport(a.value.receivedAt, a.value.report.(family := f))
    else a.None? || clock > a.value.receivedAt + ttl
  }

  function Pruned(reports: map<string, CachedReport>, ttl: nat, now: nat): map<string, CachedReport> {
    map f | f in reports && Age(now, reports[f].receivedAt) <= ttl :: reports[f]
  }

  /** Pruning at one query is invisible to every later one. */
  lemma {:induction false} PruningIsInvisible(
      reports: map<string, CachedReport>, log: seq<Arrival>, ttl: nat, clock: nat, now: nat)
    requires Faithful(reports, log, ttl, clock) && clock <= now
    ensures Faithful(Pruned(reports, ttl, now), log, ttl, now)
  {
    forall f: string
      ensures FaithfulAt(Pruned(reports, ttl, now), log, ttl, now, f)
    {
      assert FaithfulAt(reports, log, ttl, clock, f);
    }
  }

  lemma {:induction false} InsertKeepsFaith(
      reports: map<string, CachedReport>, log: seq<Arrival>, ttl: nat, clock: nat, a: Arrival)
    requires Faithful(reports, log, ttl, clock)
    ensures var family := FiledUnder(a);
            var after := if family.None? then reports
                         else reports[family.value := CachedReport(a.receivedAt, a.report.(family := family.value))];
            Faithful(after, log + [a], ttl, clock)
  {
    var family := FiledUnder(a);
    var after := if family.None? then reports
                 else reports[family.value := CachedReport(a.receivedAt, a.report.(family := family.value))];
    forall f: string
      ensures FaithfulAt(after, log + [a], ttl, clock, f)
    {
      assert FaithfulAt(reports, log, ttl, clock, f);
      assert (log + [a])[..|log|] == log;
    }
  }

  class SignalStore {
    const ttl: nat
    const graceMs: u64
    var reports: map<string, CachedReport>

    ghost var log: seq<Arrival>
    ghost var clock: nat

    ghost predicate Valid()
      reads this
    {
      Faithful(reports, log, ttl, clock)
    }

    constructor (ttl: nat, graceMs: u64)
      ensures Valid() && log == [] && clock == 0
      ensures this.ttl == ttl && this.graceMs == graceMs
    {
      this.ttl, this.graceMs := ttl, graceMs;
      reports, log, clock := map[], [], 0;
    }

    /** Reports may carry any receipt instant: only the order of insertion counts. */
    method ApplyReportAt(a: Arrival) returns (accepted: bool)
      requires Valid()
      modifies this
      ensures Valid() && log == old(log) + [a] && clock == old(clock)
      ensures accepted <==>
              && a.wallMs <= a.report.sentAtMs + 120_000 && a.report.sentAtMs <= a.wallMs + 120_000
              && CanonicalFamily(a.report.family).Some?
      ensures accepted ==> reports == old(reports)[CanonicalFamily(a.report.family).value :=
                CachedReport(a.receivedAt, a.report.(family := CanonicalFamily(a.report.family).value))]
      ensures !accepted ==> reports == old(reports)
    {
      hide CanonicalFamily;
      InsertKeepsFaith(reports, log, ttl, clock, a);
      log := log + [a];
      var skew := if a.wallMs >= a.report.sentAtMs then a.wallMs - a.report.sentAtMs
                  else a.report.sentAtMs - a.wallMs;
      if skew > SENT_AT_MAX_SKEW_MS {
        return false;
      }
      var family := CanonicalFamily(a.report.family);
      if family.None? {
        return false;
      }
      reports := reports[family.value := CachedReport(a.receivedAt, a.report.(family := family.value))];
      accepted := true;
    }

    /** Queries come from the scan loop alone, so their instants never go back. */
    method ProfileVetoAt(profile: string, now: nat, wallMs: u64) returns (veto: Option<Veto>)
      requires Valid() && clock <= now
      modifies this
      ensures Valid() && log == old(log) && clock <= now
      ensures veto == VetoByLog(log, ttl, graceMs, profile, now, wallMs)
      ensures CanonicalFamily(profile).Some? ==>
                reports == map f | f in old(reports) && now <= old(reports)[f].receivedAt + ttl :: old(reports)[f]
    {
      hide CanonicalFamily;
      var family := CanonicalFamily(profile);
      if family.None? {
        return None;
      }
      PruningIsInvisible(reports, log, ttl, clock, now);
      reports := map f | f in reports && Age(now, reports[f].receivedAt) <= ttl :: reports[f];
      clock := now;
      assert FaithfulAt(reports, log, ttl, now, family.value);
      if family.value !in reports {
        return None;
      }
      veto := VetoOf(reports[family.value].report, wallMs, graceMs);
    }
  }
}
