/** The extension's request/reply protocol (extension/background.js) against the bridge at the other end of the port.

Requests are numbered in the order they are sent. The bridge reads the requests posted on its port one by one and
answers each with one frame, unless the reply does not fit a frame; at start it may instead write a single notice and
stop. */
module NativePort {
  import opened Base
  import Frames

  /** What the bridge writes: the reply to a request, or the notice that the daemon is unreachable. `skipped` is the
      number of replies the bridge had failed to write on the port before this one; the extension cannot see it. */
  datatype Frame = Reply(req: nat, skipped: nat) | Notice

  datatype Settlement = Resolved(req: nat, frame: Frame) | Rejected(req: nat)

  // ---------------------------------------------------------------- the extension

  /** The service worker's globals and the promises settled so far. */
  datatype Client = Client(connected: bool, pending: seq<nat>, settled: seq<Settlement>)

  function Rejections(reqs: seq<nat>): (r: seq<Settlement>)
    ensures |r| == |reqs| && forall i | 0 <= i < |reqs| :: r[i] == Rejected(reqs[i])
  {
    seq(|reqs|, i requires 0 <= i < |reqs| => Rejected(reqs[i]))
  }

  function Without(reqs: seq<nat>, req: nat): seq<nat> {
    if |reqs| == 0 then []
    else if reqs[0] == req then Without(reqs[1..], req) else [reqs[0]] + Without(reqs[1..], req)
  }

  /** A send: connect if need be, queue the resolver, post; a failed post takes the resolver out again. */
  function Send(c: Client, req: nat, connects: bool, posts: bool): Client {
    if !c.connected && !connects then c.(settled := c.settled + [Rejected(req)])
    else if posts then c.(connected := true, pending := c.pending + [req])
    else Client(true, Without(c.pending + [req], req), c.settled + [Rejected(req)])
  }

  function OnMessage(c: Client, f: Frame): Client {
    if |c.pending| == 0 then c
    else c.(pending := c.pending[1..], settled := c.settled + [Resolved(c.pending[0], f)])
  }

  function OnDisconnect(c: Client): Client {
    Client(false, [], c.settled + Rejections(c.pending))
  }

  class ServiceWorker {
    var nativePort: bool
    var pendingResolvers: seq<nat>
    var settled: seq<Settlement>

    ghost function Value(): Client
      reads this
    {
      Client(nativePort, pendingResolvers, settled)
    }

    constructor ()
      ensures Value() == Client(false, [], [])
    {
      nativePort, pendingResolvers, settled := false, [], [];
    }

    /** `connects` and `posts` say whether connectNative and postMessage go through. */
    method SendNative(req: nat, connects: bool, posts: bool)
      modifies this
      ensures Value() == Send(old(Value()), req, connects, posts)
    {
      if !nativePort {
        nativePort := connects;
      }
      if !nativePort {
        settled := settled + [Rejected(req)];
        return;
      }
      pendingResolvers := pendingResolvers + [req];
      if !posts {
        var kept: seq<nat> := [];
        for i := 0 to |pendingResolvers|
          invariant kept + Without(pendingResolvers[i..], req) == Without(pendingResolvers, req)
        {
          assert pendingResolvers[i..][1..] == pendingResolvers[i + 1..];
          if pendingResolvers[i] != req {
            kept := kept + [pendingResolvers[i]];
          }
        }
        pendingResolvers := kept;
        settled := settled + [Rejected(req)];
      }
    }

    method HandleMessage(f: Frame)
      modifies this
      ensures Value() == OnMessage(old(Value()), f)
    {
      if |pendingResolvers| > 0 {
        var resolver := pendingResolvers[0];
        pendingResolvers := pendingResolvers[1..];
        settled := settled + [Resolved(resolver, f)];
      }
    }

    method HandleDisconnect()
      modifies this
      ensures Value() == OnDisconnect(old(Value()))
    {
      nativePort := false;
      ghost var before := settled;
      for i := 0 to |pendingResolvers|
        invariant !nativePort && pendingResolvers == old(pendingResolvers)
        invariant settled == before + Rejections(pendingResolvers[..i])
      {
        settled := settled + [Rejected(pendingResolvers[i])];
        assert Rejections(pendingResolvers[..i + 1])
            == Rejections(pendingResolvers[..i]) + [Rejected(pendingResolvers[i])];
      }
      assert pendingResolvers[..|pendingResolvers|] == pendingResolvers;
      pendingResolvers := [];
    }
  }

  // ---------------------------------------------------------------- both ends together

  datatype Bridge = Starting | Serving | Stopped

  /** One port: requests not yet read, frames not yet delivered, replies that did not fit a frame, and the bridge
      process. */
  datatype Link = Link(unread: seq<nat>, outbox: seq<Frame>, skipped: nat, bridge: Bridge)

  /** `abandoned` are the requests whose promises died with a hibernating service worker. */
  datatype Sys = Sys(client: Client, link: Link, sent: nat, abandoned: seq<nat>)

  datatype Step =
    | SendRequest(connects: bool, posts: bool)
    | BridgeReply
    | BridgeLastReply
    | BridgeUnreachable
    | BridgeDie(midFrame: bool)
    | Deliver
    | Disconnect
    | Hibernate

  const NO_LINK := Link([], [], 0, Stopped)
  const NEW_LINK := Link([], [], 0, Starting)

  const INIT := Sys(Client(false, [], []), NO_LINK, 0, [])

  predicate Enabled(s: Sys, step: Step) {
    match step
    case SendRequest(_, _) => true
    case BridgeReply => s.client.connected && !s.link.bridge.Stopped? && |s.link.unread| > 0
    case BridgeLastReply => s.client.connected && !s.link.bridge.Stopped? && |s.link.unread| > 0
    case BridgeUnreachable => s.client.connected && s.link.bridge.Starting?
    case BridgeDie(mid) => s.client.connected && !s.link.bridge.Stopped? && (mid ==> |s.link.unread| > 0)
    case Deliver => s.client.connected && |s.link.outbox| > 0
    case Disconnect => s.client.connected
    case Hibernate => true
  }

  /** The bridge takes the next request. A reply that does not fit a frame is not written, and the loop goes on. */
  function Answered(l: Link, fits: bool, bridge: Bridge): Link
    requires |l.unread| > 0
  {
    if fits then Link(l.unread[1..], l.outbox + [Reply(l.unread[0], l.skipped)], l.skipped, bridge)
    else Link(l.unread[1..], l.outbox, l.skipped + 1, bridge)
  }

  /** `fits` says of each request whether its reply fits a frame. The last word of a bridge whose daemon went away is
      a fixed short message, which does. */
  function Next(fits: nat -> bool, s: Sys, step: Step): Sys
    requires Enabled(s, step)
  {
    match step
    case SendRequest(connects, posts) =>
      var link := if s.client.connected then s.link else if connects then NEW_LINK else NO_LINK;
      var arrives := posts && (s.client.connected || connects);
      Sys(Send(s.client, s.sent, connects, posts),
          if arrives then link.(unread := link.unread + [s.sent]) else link, s.sent + 1, s.abandoned)
    case BridgeReply => s.(link := Answered(s.link, fits(s.link.unread[0]), Serving))
    case BridgeLastReply => s.(link := Answered(s.link, true, Stopped))
    case BridgeUnreachable => s.(link := s.link.(outbox := s.link.outbox + [Notice], bridge := Stopped))
    case BridgeDie(mid) =>
      s.(link := s.link.(unread := if mid then s.link.unread[1..] else s.link.unread, bridge := Stopped))
    case Deliver => s.(client := OnMessage(s.client, s.link.outbox[0]), link := s.link.(outbox := s.link.outbox[1..]))
    case Disconnect => s.(client := OnDisconnect(s.client), link := NO_LINK)
    case Hibernate =>
      s.(client := Client(false, [], s.client.settled), link := NO_LINK,
         abandoned := s.abandoned + s.client.pending)
  }

  function After(fits: nat -> bool, steps: seq<Step>): Option<Sys> {
    if |steps| == 0 then Some(INIT)
    else
      var before := After(fits, steps[..|steps| - 1]);
      var step := steps[|steps| - 1];
      if before.Some? && Enabled(before.value, step) then Some(Next(fits, before.value, step)) else None
  }

  // ---------------------------------------------------------------- every request is in exactly one place

  function Reqs(ss: seq<Settlement>): (r: seq<nat>)
    ensures |r| == |ss| && forall i | 0 <= i < |ss| :: r[i] == ss[i].req
  {
    seq(|ss|, i requires 0 <= i < |ss| => ss[i].req)
  }

  /** How often a request occurs among the settled, the pending and the abandoned ones. */
  function Places(s: Sys, req: nat): nat {
    multiset(Reqs(s.client.settled))[req] + multiset(s.client.pending)[req] + multiset(s.abandoned)[req]
  }

  predicate Conserved(s: Sys, req: nat) { Places(s, req) == if req < s.sent then 1 else 0 }

  /** Nothing is pending without a port. */
  predicate NoStray(s: Sys) { !s.client.connected ==> s.client.pending == [] && s.link == NO_LINK }

  lemma {:induction false} WithoutFresh(reqs: seq<nat>, req: nat)
    requires multiset(reqs)[req] == 0
    ensures Without(reqs + [req], req) == reqs
  {
    if |reqs| == 0 {
      assert (reqs + [req])[1..] == [];
    } else {
      assert reqs == [reqs[0]] + reqs[1..];
      WithoutFresh(reqs[1..], req);
      assert (reqs + [req])[1..] == reqs[1..] + [req];
    }
  }

  lemma {:induction false} SendConserved(fits: nat -> bool, s: Sys, connects: bool, posts: bool, req: nat)
    requires Conserved(s, req) && Conserved(s, s.sent)
    ensures Conserved(Next(fits, s, SendRequest(connects, posts)), req)
  {
    hide Without, Reqs, Rejections;
    WithoutFresh(s.client.pending, s.sent);
    assert Reqs(s.client.settled + [Rejected(s.sent)]) == Reqs(s.client.settled) + [s.sent];
  }

  lemma {:induction false} StepConserved(fits: nat -> bool, s: Sys, step: Step, req: nat)
    requires Enabled(s, step) && Conserved(s, req) && Conserved(s, s.sent)
    ensures Conserved(Next(fits, s, step), req)
  {
    hide Without, Reqs, Rejections;
    var c := s.client;
    match step
    case SendRequest(connects, posts) => SendConserved(fits, s, connects, posts, req);
    case Deliver =>
      if |c.pending| > 0 {
        assert c.pending == [c.pending[0]] + c.pending[1..];
        var x := Resolved(c.pending[0], s.link.outbox[0]);
        assert Reqs(c.settled + [x]) == Reqs(c.settled) + [c.pending[0]];
      }
    case Disconnect => assert Reqs(c.settled + Rejections(c.pending)) == Reqs(c.settled) + c.pending;
    case _ =>
  }

  /** In every run each request sent is settled, pending or lost with its service worker, in exactly one of these
      ways and exactly once; and no pending request outlives its port. */
  lemma {:induction false} SettledAtMostOnce(fits: nat -> bool, steps: seq<Step>, req: nat)
    ensures var s := After(fits, steps); s.Some? ==> Conserved(s.value, req) && NoStray(s.value)
  {
    if |steps| > 0 && After(fits, steps).Some? {
      var p := steps[..|steps| - 1];
      var s := After(fits, p).value;
      SettledAtMostOnce(fits, p, req);
      SettledAtMostOnce(fits, p, s.sent);
      StepConserved(fits, s, steps[|steps| - 1], req);
    }
  }

  // ---------------------------------------------------------------- replies arrive in send order

  function ResolvedReqs(ss: seq<Settlement>): seq<nat> {
    if |ss| == 0 then []
    else
      var x := ss[|ss| - 1];
      ResolvedReqs(ss[..|ss| - 1]) + if x.Resolved? then [x.req] else []
  }

  /** The requests already resolved, in the order they were, and then those still waiting. */
  function Line(c: Client): seq<nat> { ResolvedReqs(c.settled) + c.pending }

  predicate Increasing(reqs: seq<nat>) { forall i, j | 0 <= i < j < |reqs| :: reqs[i] < reqs[j] }

  predicate InOrder(line: seq<nat>, sent: nat) { Increasing(line) && forall i | 0 <= i < |line| :: line[i] < sent }

  lemma {:induction false} ResolvedSnoc(ss: seq<Settlement>, x: Settlement)
    ensures ResolvedReqs(ss + [x]) == ResolvedReqs(ss) + if x.Resolved? then [x.req] else []
  {
    assert (ss + [x])[..|ss|] == ss;
  }

  lemma {:induction false} ResolvedAfterRejections(ss: seq<Settlement>, reqs: seq<nat>)
    ensures ResolvedReqs(ss + Rejections(reqs)) == ResolvedReqs(ss)
  {
    if |reqs| == 0 {
      assert ss + Rejections(reqs) == ss;
    } else {
      var front := reqs[..|reqs| - 1];
      assert ss + Rejections(reqs) == (ss + Rejections(front)) + [Rejected(reqs[|reqs| - 1])];
      ResolvedSnoc(ss + Rejections(front), Rejected(reqs[|reqs| - 1]));
      ResolvedAfterRejections(ss, front);
    }
  }

  /** Every step leaves the line as it is, appends the newest request, or cuts the line where the waiting ones start. */
  lemma {:induction false} StepLine(fits: nat -> bool, s: Sys, step: Step)
    requires Enabled(s, step) && Conserved(s, s.sent)
    ensures
      var t := Next(fits, s, step);
      || (Line(t.client) <= Line(s.client) && t.sent >= s.sent)
      || (Line(t.client) == Line(s.client) + [s.sent] && t.sent > s.sent)
  {
    hide Without, ResolvedReqs, Reqs, Increasing;
    var c := s.client;
    match step
    case SendRequest(_, _) =>
      WithoutFresh(c.pending, s.sent);
      ResolvedSnoc(c.settled, Rejected(s.sent));
    case Deliver =>
      if |c.pending| > 0 {
        ResolvedSnoc(c.settled, Resolved(c.pending[0], s.link.outbox[0]));
        assert Line(Next(fits, s, step).client) == Line(c);
      }
    case Disconnect => ResolvedAfterRejections(c.settled, c.pending);
    case _ =>
  }

  lemma {:induction false} OrderKept(line: seq<nat>, sent: nat, next: seq<nat>, more: nat)
    requires InOrder(line, sent) && more >= sent
    requires next <= line || (next == line + [sent] && more > sent)
    ensures InOrder(next, more)
  {
    if next <= line {
      assert forall i | 0 <= i < |next| :: next[i] == line[i];
    }
  }

  /** In every run promises resolve in the order their requests were sent, whatever the bridge fails to write. */
  lemma {:induction false} ResolvedInSendOrder(fits: nat -> bool, steps: seq<Step>)
    ensures var s := After(fits, steps); s.Some? ==> InOrder(Line(s.value.client), s.value.sent)
  {
    if |steps| > 0 && After(fits, steps).Some? {
      hide Line, InOrder, Enabled, Next, Conserved, NoStray;
      var p := steps[..|steps| - 1];
      var s, t := After(fits, p).value, After(fits, steps).value;
      ResolvedInSendOrder(fits, p);
      SettledAtMostOnce(fits, p, s.sent);
      StepLine(fits, s, steps[|steps| - 1]);
      OrderKept(Line(s.client), s.sent, Line(t.client), t.sent);
    }
  }

  // ---------------------------------------------------------------- which reply a promise gets

  /** The resolver gets the reply to its own request exactly if no reply was left unwritten before. */
  predicate Placed(req: nat, f: Frame) { f.Reply? ==> (f.req == req <==> f.skipped == 0) }

  /** On every port the resolvers and the frames line up, out of step by the number of unwritten replies. */
  predicate Lagging(c: Client, l: Link) {
    && (match l.bridge
        case Starting => l.outbox == [] && l.skipped == 0 && c.pending == l.unread
        case Serving =>
          && |c.pending| == |l.outbox| + l.skipped + |l.unread|
          && c.pending[|l.outbox| + l.skipped..] == l.unread
        case Stopped => l.outbox == [Notice] || |l.outbox| <= |c.pending|)
    && forall i | 0 <= i < |l.outbox| && i < |c.pending| :: Placed(c.pending[i], l.outbox[i])
  }

  lemma {:induction false} AnswerLags(c: Client, l: Link, fits: bool, bridge: Bridge)
    requires Lagging(c, l) && !l.bridge.Stopped? && |l.unread| > 0 && Increasing(c.pending)
    requires bridge.Serving? || (bridge.Stopped? && fits)
    ensures Lagging(c, Answered(l, fits, bridge))
  {
    var n := |l.outbox| + l.skipped;
    assert c.pending[n..] == l.unread;
    assert c.pending[n] == l.unread[0];
    assert c.pending[n + 1..] == l.unread[1..];
    hide Increasing, Placed;
    PlacedBySkips(c.pending, |l.outbox|, l.skipped);
  }

  lemma PlacedBySkips(pending: seq<nat>, i: nat, skipped: nat)
    requires Increasing(pending) && i + skipped < |pending|
    ensures Placed(pending[i], Reply(pending[i + skipped], skipped))
  {
  }

  lemma {:induction false} DeliverLags(c: Client, l: Link)
    requires Lagging(c, l) && |l.outbox| > 0
    ensures Lagging(OnMessage(c, l.outbox[0]), l.(outbox := l.outbox[1..]))
    ensures |c.pending| > 0 ==> Placed(c.pending[0], l.outbox[0])
  {
    if l.bridge.Serving? {
      assert c.pending[1..][|l.outbox| - 1 + l.skipped..] == c.pending[|l.outbox| + l.skipped..];
    }
  }

  lemma {:induction false} SendLags(fits: nat -> bool, s: Sys, connects: bool, posts: bool)
    requires NoStray(s) && Conserved(s, s.sent) && Lagging(s.client, s.link)
    ensures var t := Next(fits, s, SendRequest(connects, posts)); Lagging(t.client, t.link)
  {
    hide Without, Reqs;
    WithoutFresh(s.client.pending, s.sent);
    var l, p := s.link, s.client.pending;
    if s.client.connected && l.bridge.Serving? {
      assert (p + [s.sent])[|l.outbox| + l.skipped..] == p[|l.outbox| + l.skipped..] + [s.sent];
    }
  }

  lemma {:induction false} StepLags(fits: nat -> bool, s: Sys, step: Step)
    requires Enabled(s, step) && NoStray(s) && Conserved(s, s.sent) && Increasing(s.client.pending)
    requires Lagging(s.client, s.link)
    ensures Lagging(Next(fits, s, step).client, Next(fits, s, step).link)
  {
    hide Without, Reqs, Conserved, Answered, Increasing;
    match step
    case SendRequest(connects, posts) => SendLags(fits, s, connects, posts);
    case BridgeReply => AnswerLags(s.client, s.link, fits(s.link.unread[0]), Serving);
    case BridgeLastReply => AnswerLags(s.client, s.link, true, Stopped);
    case Deliver => DeliverLags(s.client, s.link);
    case _ =>
  }

  predicate AllPlaced(ss: seq<Settlement>) {
    forall i | 0 <= i < |ss| && ss[i].Resolved? :: Placed(ss[i].req, ss[i].frame)
  }

  lemma {:induction false} StepPlaced(fits: nat -> bool, s: Sys, step: Step)
    requires Enabled(s, step) && Lagging(s.client, s.link) && AllPlaced(s.client.settled)
    ensures AllPlaced(Next(fits, s, step).client.settled)
  {
    hide Lagging, Without, Placed;
    if step.Deliver? {
      DeliverLags(s.client, s.link);
    }
  }

  lemma {:induction false} PendingIncreases(c: Client, sent: nat)
    requires InOrder(Line(c), sent)
    ensures Increasing(c.pending)
  {
    var r := |ResolvedReqs(c.settled)|;
    forall i, j | 0 <= i < j < |c.pending|
      ensures c.pending[i] < c.pending[j]
    {
      assert Line(c)[r + i] < Line(c)[r + j];
    }
  }

  /** In every run, a promise that resolves with a reply gets the one to its own request if and only if the bridge had
      left no reply unwritten on that port before. */
  lemma {:induction false} OwnReplyExactly(fits: nat -> bool, steps: seq<Step>)
    ensures var s := After(fits, steps); s.Some? ==> Lagging(s.value.client, s.value.link) && AllPlaced(s.value.client.settled)
  {
    if |steps| > 0 && After(fits, steps).Some? {
      hide Lagging, AllPlaced, Enabled, Next, Conserved, NoStray, InOrder, Line, Increasing;
      var p, step := steps[..|steps| - 1], steps[|steps| - 1];
      var s := After(fits, p).value;
      OwnReplyExactly(fits, p);
      SettledAtMostOnce(fits, p, s.sent);
      ResolvedInSendOrder(fits, p);
      PendingIncreases(s.client, s.sent);
      StepLags(fits, s, step);
      StepPlaced(fits, s, step);
    }
  }

  // ---------------------------------------------------------------- what settles a promise, and with what

  /** What each step settles, in any reachable state: a failed send its own request, a delivery the oldest pending one
      with the very frame delivered, a disconnect all that are pending, in order; and nothing else settles anything. */
  lemma {:induction false} StepSettles(fits: nat -> bool, steps: seq<Step>, step: Step)
    requires After(fits, steps).Some? && Enabled(After(fits, steps).value, step)
    ensures var s := After(fits, steps).value;
            var c, t := s.client, Next(fits, s, step).client;
            match step
            case SendRequest(connects, posts) =>
              if posts && (c.connected || connects) then t.pending == c.pending + [s.sent] && t.settled == c.settled
              else t.pending == c.pending && t.settled == c.settled + [Rejected(s.sent)]
            case Deliver =>
              if |c.pending| == 0 then t == c
              else t.pending == c.pending[1..] && t.settled == c.settled + [Resolved(c.pending[0], s.link.outbox[0])]
            case Disconnect =>
              && t.pending == [] && |t.settled| == |c.settled| + |c.pending| && c.settled <= t.settled
              && forall i | 0 <= i < |c.pending| :: t.settled[|c.settled| + i] == Rejected(c.pending[i])
            case _ => t.settled == c.settled
  {
    hide Without, Reqs, After;
    var s := After(fits, steps).value;
    SettledAtMostOnce(fits, steps, s.sent);
    WithoutFresh(s.client.pending, s.sent);
  }

  /** With no reply left unwritten before it, a reply that arrives finds its own request at the head of the queue and
      settles it with exactly that reply. */
  lemma {:induction false} DeliveredReplySettles(fits: nat -> bool, steps: seq<Step>, req: nat)
    requires After(fits, steps).Some? && Enabled(After(fits, steps).value, Deliver)
    requires After(fits, steps).value.link.outbox[0] == Reply(req, 0)
    ensures var c := After(fits, steps).value.client;
            && |c.pending| > 0 && c.pending[0] == req
            && Next(fits, After(fits, steps).value, Deliver).client.settled == c.settled + [Resolved(req, Reply(req, 0))]
  {
    hide After;
    OwnReplyExactly(fits, steps);
    StepSettles(fits, steps, Deliver);
    var s := After(fits, steps).value;
    SettledAtMostOnce(fits, steps, 0);
    assert s.link.outbox != [Notice];
    assert |s.client.pending| > 0;
    assert Placed(s.client.pending[0], s.link.outbox[0]);
  }

  function Notices(fs: seq<Frame>): nat {
    if |fs| == 0 then 0 else Notices(fs[..|fs| - 1]) + if fs[|fs| - 1].Notice? then 1 else 0
  }

  /** Promises resolved with the notice that the daemon is unreachable. */
  function NoticedPromises(ss: seq<Settlement>): nat {
    if |ss| == 0 then 0
    else NoticedPromises(ss[..|ss| - 1])
         + if ss[|ss| - 1].Resolved? && ss[|ss| - 1].frame.Notice? then 1 else 0
  }

  function TimesUnreachable(steps: seq<Step>): nat {
    if |steps| == 0 then 0
    else TimesUnreachable(steps[..|steps| - 1]) + if steps[|steps| - 1].BridgeUnreachable? then 1 else 0
  }

  lemma {:induction false} NoticesFrom(f: Frame, fs: seq<Frame>)
    ensures Notices([f] + fs) == Notices(fs) + if f.Notice? then 1 else 0
  {
    if |fs| == 0 {
      assert [f] + fs == [f] && [f][..0] == [];
    } else {
      NoticesFrom(f, fs[..|fs| - 1]);
      assert ([f] + fs)[..|fs|] == [f] + fs[..|fs| - 1];
    }
  }

  lemma {:induction false} NoticedSnoc(ss: seq<Settlement>, x: Settlement)
    ensures NoticedPromises(ss + [x]) == NoticedPromises(ss) + if x.Resolved? && x.frame.Notice? then 1 else 0
  {
    assert (ss + [x])[..|ss|] == ss;
  }

  lemma {:induction false} NoticedRejections(ss: seq<Settlement>, reqs: seq<nat>)
    ensures NoticedPromises(ss + Rejections(reqs)) == NoticedPromises(ss)
  {
    if |reqs| == 0 {
      assert ss + Rejections(reqs) == ss;
    } else {
      var front := reqs[..|reqs| - 1];
      assert ss + Rejections(reqs) == (ss + Rejections(front)) + [Rejected(reqs[|reqs| - 1])];
      NoticedSnoc(ss + Rejections(front), Rejected(reqs[|reqs| - 1]));
      NoticedRejections(ss, front);
    }
  }

  lemma {:induction false} NoticeStep(fits: nat -> bool, s: Sys, step: Step)
    requires Enabled(s, step)
    ensures var t := Next(fits, s, step);
            NoticedPromises(t.client.settled) + Notices(t.link.outbox)
            <= NoticedPromises(s.client.settled) + Notices(s.link.outbox) + if step.BridgeUnreachable? then 1 else 0
  {
    hide Without, NoticedPromises, Rejections;
    var c, l := s.client, s.link;
    assert Notices([]) == 0;
    match step
    case SendRequest(_, _) => NoticedSnoc(c.settled, Rejected(s.sent));
    case BridgeReply => NoticesSnoc(l.outbox, Reply(l.unread[0], l.skipped));
    case BridgeLastReply => NoticesSnoc(l.outbox, Reply(l.unread[0], l.skipped));
    case BridgeUnreachable => NoticesSnoc(l.outbox, Notice);
    case Deliver =>
      NoticesFrom(l.outbox[0], l.outbox[1..]);
      assert l.outbox == [l.outbox[0]] + l.outbox[1..];
      if |c.pending| > 0 {
        NoticedSnoc(c.settled, Resolved(c.pending[0], l.outbox[0]));
      }
    case Disconnect => NoticedRejections(c.settled, c.pending);
    case _ =>
  }

  lemma {:induction false} NoticesSnoc(fs: seq<Frame>, f: Frame)
    ensures Notices(fs + [f]) == Notices(fs) + if f.Notice? then 1 else 0
  {
    assert (fs + [f])[..|fs|] == fs;
  }

  /** In every run at most one promise is told that the daemon is unreachable for each time a bridge found it so. */
  lemma {:induction false} NoticeOnlyIfWritten(fits: nat -> bool, steps: seq<Step>)
    ensures var s := After(fits, steps);
            s.Some? ==> NoticedPromises(s.value.client.settled) + Notices(s.value.link.outbox) <= TimesUnreachable(steps)
  {
    hide Next, Enabled, NoticedPromises, Notices;
    if |steps| == 0 {
      NothingNoticed();
    } else if After(fits, steps).Some? {
      var front := steps[..|steps| - 1];
      NoticeOnlyIfWritten(fits, front);
      NoticeStep(fits, After(fits, front).value, steps[|steps| - 1]);
    }
  }

  lemma NothingNoticed()
    ensures NoticedPromises([]) == 0 && Notices([]) == 0
  {
  }

  // ---------------------------------------------------------------- when replies and promises always match

  /** A resolved promise holds the reply to its own request, or the notice of a bridge that read no request. */
  predicate Own(x: Settlement) { x.Resolved? ==> x.frame.Notice? || x.frame.req == x.req }

  predicate Matched(c: Client) { forall i | 0 <= i < |c.settled| :: Own(c.settled[i]) }

  predicate Whole(f: Frame) { f.Reply? ==> f.skipped == 0 }

  /** No reply was ever left unwritten. */
  predicate NoneSkipped(s: Sys) {
    && s.link.skipped == 0
    && (forall i | 0 <= i < |s.link.outbox| :: Whole(s.link.outbox[i]))
    && (forall i | 0 <= i < |s.client.settled| && s.client.settled[i].Resolved? :: Whole(s.client.settled[i].frame))
  }

  lemma {:induction false} FittingStep(fits: nat -> bool, s: Sys, step: Step)
    requires (forall req: nat :: fits(req)) && Enabled(s, step) && NoneSkipped(s)
    ensures NoneSkipped(Next(fits, s, step))
  {
    hide Without, Whole;
    ZeroIsWhole();
  }

  lemma ZeroIsWhole()
    ensures Whole(Notice) && forall req: nat :: Whole(Reply(req, 0))
  {
  }

  lemma {:induction false} FittingRun(fits: nat -> bool, steps: seq<Step>)
    requires forall req: nat :: fits(req)
    ensures var s := After(fits, steps); s.Some? ==> NoneSkipped(s.value)
  {
    if |steps| > 0 && After(fits, steps).Some? {
      hide NoneSkipped, Next, Enabled;
      var p := steps[..|steps| - 1];
      FittingRun(fits, p);
      FittingStep(fits, After(fits, p).value, steps[|steps| - 1]);
    }
  }

  lemma {:induction false} AfterSnoc(fits: nat -> bool, steps: seq<Step>, step: Step)
    requires After(fits, steps).Some? && Enabled(After(fits, steps).value, step)
    ensures After(fits, steps + [step]) == Some(Next(fits, After(fits, steps).value, step))
  {
    hide Next, Enabled;
    assert (steps + [step])[..|steps|] == steps;
  }

  /** Sends that fail on a port: they use up request numbers and leave nothing behind on it. */
  lemma {:induction false} FailedSends(fits: nat -> bool, n: nat) returns (steps: seq<Step>)
    ensures After(fits, steps).Some?
    ensures var s := After(fits, steps).value;
            s.sent == n && s.client.pending == [] && (if s.client.connected then s.link == NEW_LINK else s.link == NO_LINK)
  {
    if n == 0 {
      steps := [];
    } else {
      var front := FailedSends(fits, n - 1);
      AfterSnoc(fits, front, SendRequest(true, false));
      WithoutFresh([], n - 1);
      steps := front + [SendRequest(true, false)];
    }
  }

  /** A reply that does not fit, then the last word of the bridge: it settles the wrong promise. */
  lemma {:induction false} UnfitReplyMisplaces(fits: nat -> bool, req: nat) returns (steps: seq<Step>)
    requires !fits(req)
    ensures After(fits, steps).Some? && !Matched(After(fits, steps).value.client)
  {
    hide After;
    steps := FailedSends(fits, req);
    var c := After(fits, steps).value.client;
    AfterSnoc(fits, steps, SendRequest(true, true));
    steps := steps + [SendRequest(true, true)];
    AfterSnoc(fits, steps, BridgeReply);
    steps := steps + [BridgeReply];
    AfterSnoc(fits, steps, SendRequest(true, true));
    steps := steps + [SendRequest(true, true)];
    AfterSnoc(fits, steps, BridgeLastReply);
    steps := steps + [BridgeLastReply];
    AfterSnoc(fits, steps, Deliver);
    steps := steps + [Deliver];
    var t := After(fits, steps).value.client;
    assert t.settled == c.settled + [Resolved(req, Reply(req + 1, 1))];
    assert !Own(t.settled[|c.settled|]);
  }

  ghost predicate AlwaysMatched(fits: nat -> bool) {
    forall steps :: After(fits, steps).Some? ==> Matched(After(fits, steps).value.client)
  }

  /** Replies and promises match in every run if and only if every reply fits a frame. */
  lemma {:induction false} PairingExactly(fits: nat -> bool)
    ensures AlwaysMatched(fits) <==> forall req: nat :: fits(req)
  {
    hide After, Lagging, Matched;
    if forall req: nat :: fits(req) {
      forall steps | After(fits, steps).Some?
        ensures Matched(After(fits, steps).value.client)
      {
        OwnReplyExactly(fits, steps);
        FittingRun(fits, steps);
        WholeIsOwn(After(fits, steps).value);
      }
    } else {
      var req: nat :| !fits(req);
      var steps := UnfitReplyMisplaces(fits, req);
    }
  }

  lemma {:induction false} WholeIsOwn(s: Sys)
    requires AllPlaced(s.client.settled) && NoneSkipped(s)
    ensures Matched(s.client)
  {
  }

  /** Whether the frame writer takes the response to a request. */
  function Writable<V>(c: Frames.Codec<V>, response: nat -> V): nat -> bool {
    (req: nat) => Frames.Frame(c, response(req)).Some?
  }

  /** In terms of the frame writer: they match in every run exactly if no response is over its size limit. */
  lemma {:induction false} PairingBySize<V>(c: Frames.Codec<V>, response: nat -> V)
    ensures AlwaysMatched(Writable(c, response))
            <==> forall req: nat :: |c.enc(response(req))| <= 1_048_576
  {
    hide AlwaysMatched;
    var fits := Writable(c, response);
    PairingExactly(fits);
    assert forall req: nat :: fits(req) <==> |c.enc(response(req))| <= 1_048_576;
  }
}
