/** Process events out of a kernel datagram (daemon/src/proc_connector.rs, parse_events). */
module ProcEvents {
  import opened Base
  import opened Endian
  import opened ProcessTable

  const NL_HEADER := 16
  const CN_HEADER := 20
  const EVENT_HEADER := 16

  const FORK: u32 := 1
  const EXEC: u32 := 2
  const EXIT: u32 := 0x8000_0000

  function At(b: Bytes, i: nat): u32
    requires i + 4 <= |b|
  {
    FromWord(b[i..i + 4])
  }

  /** A 32-bit word that is positive when read as signed. */
  predicate Positive(n: u32) { 0 < n < 0x8000_0000 }

  function ParseBody(what: u32, body: Bytes): seq<ProcEvent> {
    if what == FORK && |body| >= 16 then
      var parentTgid, childPid, childTgid := At(body, 4), At(body, 8), At(body, 12);
      if childPid == childTgid && Positive(childPid) then [Fork(parentTgid, childTgid)] else []
    else if what == EXEC && |body| >= 8 then
      var tgid := At(body, 4);
      if Positive(tgid) then [Exec(tgid)] else []
    else if what == EXIT && |body| >= 24 then
      var pid, tgid := At(body, 0), At(body, 4);
      if pid == tgid && Positive(tgid) then [Exit(tgid)] else []
    else []
  }

  function ParseEvents(packet: Bytes): seq<ProcEvent> {
    if |packet| < NL_HEADER + CN_HEADER + EVENT_HEADER then []
    else
      var event := packet[NL_HEADER + CN_HEADER..];
      ParseBody(At(event, 0), event[EVENT_HEADER..])
  }

  // ---------------------------------------------------------------- the kernel's messages

  datatype Message =
    | ForkMessage(parentPid: u32, parentTgid: u32, childPid: u32, childTgid: u32)
    | ExecMessage(pid: u32, tgid: u32)
    | ExitMessage(pid: u32, tgid: u32, code: u32, signal: u32, parentPid: u32, parentTgid: u32)

  function What(m: Message): u32 {
    match m
    case ForkMessage(_, _, _, _) => 0x0000_0001
    case ExecMessage(_, _) => 0x0000_0002
    case ExitMessage(_, _, _, _, _, _) => 0x8000_0000
  }

  function WordsOf(m: Message): seq<u32> {
    match m
    case ForkMessage(pp, pt, cp, ct) => [pp, pt, cp, ct]
    case ExecMessage(p, t) => [p, t]
    case ExitMessage(p, t, c, s, pp, pt) => [p, t, c, s, pp, pt]
  }

  function Words(ws: seq<u32>): (b: Bytes)
    ensures |b| == 4 * |ws|
  {
    if |ws| == 0 then [] else Word(ws[0]) + Words(ws[1..])
  }

  /** A datagram: both outer headers, the event kind, CPU and time stamp, the message, and whatever follows it. */
  function Datagram(outer: Bytes, m: Message, stamp: Bytes, rest: Bytes): Bytes {
    outer + Word(What(m)) + stamp + Words(WordsOf(m)) + rest
  }

  /** A 32-bit word read as a signed number. */
  function Signed(n: u32): (r: int)
    ensures -0x8000_0000 <= r < 0x8000_0000 && (r == n || r == n - 0x1_0000_0000)
  {
    if n < 0x8000_0000 then n else n - 0x1_0000_0000
  }

  /** What a message means to the daemon: threads are noise, only thread-group leaders count. */
  function Meaning(m: Message): seq<ProcEvent> {
    match m
    case ForkMessage(_, parent, child, leader) => if child == leader && Signed(child) > 0 then [Fork(parent, child)] else []
    case ExecMessage(_, leader) => if Signed(leader) > 0 then [Exec(leader)] else []
    case ExitMessage(pid, leader, _, _, _, _) => if pid == leader && Signed(pid) > 0 then [Exit(pid)] else []
  }

  lemma {:induction false} WordAt(ws: seq<u32>, k: nat, rest: Bytes)
    requires k < |ws|
    ensures At(Words(ws) + rest, 4 * k) == ws[k]
  {
    hide FromWord, Word;
    var b := Words(ws) + rest;
    assert b == Word(ws[0]) + (Words(ws[1..]) + rest);
    if k == 0 {
      WordRoundTrip(ws[0]);
      assert b[0..4] == Word(ws[0]);
    } else {
      WordAt(ws[1..], k - 1, rest);
      assert b[4 * k..4 * k + 4] == (Words(ws[1..]) + rest)[4 * (k - 1)..4 * (k - 1) + 4];
    }
  }

  lemma {:induction false} BodyMeans(m: Message, rest: Bytes)
    ensures ParseBody(What(m), Words(WordsOf(m)) + rest) == Meaning(m)
  {
    hide At, Words;
    var ws := WordsOf(m);
    WordAt(ws, 0, rest);
    WordAt(ws, 1, rest);
    if m.ForkMessage? {
      WordAt(ws, 2, rest);
      WordAt(ws, 3, rest);
    }
  }

  predicate Framing(outer: Bytes, stamp: Bytes) {
    |outer| == 36 && |stamp| == 12
  }

  /** Every message the kernel can send is understood as what it means, whatever surrounds it. */
  lemma {:induction false} DatagramRoundTrip(outer: Bytes, m: Message, stamp: Bytes, rest: Bytes)
    requires Framing(outer, stamp)
    ensures ParseEvents(Datagram(outer, m, stamp, rest)) == Meaning(m)
  {
    hide FromWord, Word, Words, ParseBody, Meaning;
    var p := Datagram(outer, m, stamp, rest);
    var event := p[36..];
    WordRoundTrip(What(m));
    assert event[0..4] == Word(What(m));
    assert event[16..] == Words(WordsOf(m)) + rest;
    BodyMeans(m, rest);
  }

  // ---------------------------------------------------------------- and nothing else is

  /** The first n words of a buffer. */
  function Decoded(b: Bytes, n: nat): (ws: seq<u32>)
    requires 4 * n <= |b|
    ensures |ws| == n && forall k | 0 <= k < n :: ws[k] == At(b, 4 * k)
  {
    seq(n, k requires 0 <= k < n => At(b, 4 * k))
  }

  lemma {:induction false} WordsBack(b: Bytes, n: nat)
    requires 4 * n <= |b|
    ensures b == Words(Decoded(b, n)) + b[4 * n..]
  {
    hide FromWord, Word;
    if n > 0 {
      var tail := b[4..];
      WordBack(b[0..4]);
      forall k | 0 <= k < n - 1 ensures At(tail, 4 * k) == At(b, 4 * (k + 1)) {
        assert tail[4 * k..4 * k + 4] == b[4 * (k + 1)..4 * (k + 1) + 4];
      }
      assert Decoded(b, n)[1..] == Decoded(tail, n - 1);
      WordsBack(tail, n - 1);
      assert tail[4 * (n - 1)..] == b[4 * n..];
      assert b == b[0..4] + tail;
    }
  }

  /** The message an accepted packet carries. */
  function MessageOf(what: u32, body: Bytes): (m: Message)
    requires ParseBody(what, body) != []
    ensures 4 * |WordsOf(m)| <= |body| && What(m) == what && WordsOf(m) == Decoded(body, |WordsOf(m)|)
  {
    if what == FORK then ForkMessage(At(body, 0), At(body, 4), At(body, 8), At(body, 12))
    else if what == EXEC then ExecMessage(At(body, 0), At(body, 4))
    else ExitMessage(At(body, 0), At(body, 4), At(body, 8), At(body, 12), At(body, 16), At(body, 20))
  }

  /** At most one event comes out of a packet, and only out of a packet that is a whole message of that meaning. */
  lemma {:induction false} OnlyMessagesCount(packet: Bytes) returns (outer: Bytes, m: Message, stamp: Bytes, rest: Bytes)
    requires ParseEvents(packet) != []
    ensures Framing(outer, stamp) && packet == Datagram(outer, m, stamp, rest)
    ensures ParseEvents(packet) == Meaning(m) && |Meaning(m)| == 1
  {
    hide FromWord, Word, Words, ParseBody, WordsOf, What, At;
    var event := packet[36..];
    var body := event[16..];
    outer, stamp := packet[..36], event[4..16];
    m := MessageOf(At(event, 0), body);
    var n := |WordsOf(m)|;
    rest := body[4 * n..];
    WordsBack(body, n);
    WordIs(event);
    assert packet == outer + event[0..4] + stamp + body;
    BodyMeans(m, rest);
  }

  lemma {:induction false} WordIs(b: Bytes)
    requires |b| >= 4
    ensures Word(At(b, 0)) == b[0..4]
  {
    hide FromWord, Word;
    WordBack(b[0..4]);
  }

  /** A datagram cut anywhere before the end of its message says nothing. */
  lemma {:induction false} TruncationIsSilent(outer: Bytes, m: Message, stamp: Bytes, n: nat)
    requires Framing(outer, stamp) && n < |Datagram(outer, m, stamp, [])|
    ensures ParseEvents(Datagram(outer, m, stamp, [])[..n]) == []
  {
    hide FromWord, Word, Words;
    var p := Datagram(outer, m, stamp, [])[..n];
    if n >= 52 {
      var event := p[36..];
      WordRoundTrip(What(m));
      assert forall i | 0 <= i < 4 :: event[i] == Word(What(m))[i];
      assert event[0..4] == Word(What(m));
    }
  }
}
