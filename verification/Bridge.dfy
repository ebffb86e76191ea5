/** The native-messaging bridge (bridge/src/main.rs): a sequential server on stdin and stdout. */
module Bridge {
  import opened Base
  import opened Endian
  import opened Frames

  /** What surrounds the bridge: whether the daemon can be reached at start, whether it turns out closed or SIGTERM
      arrives before frame i is answered, what handle_frame answers to frame i, and the two error messages. */
  datatype Surroundings<!V> = Surroundings(
    reachable: bool,
    closedAt: nat -> bool,
    termAt: nat -> bool,
    answer: (nat, V) -> V,
    unreachable: V,
    disconnected: V)

  /** A response that does not fit a frame is dropped and the loop goes on. */
  function Sent<V>(c: Codec<V>, v: V): Bytes {
    if Frame(c, v).Some? then Frame(c, v).value else []
  }

  /** Everything the loop writes from frame i on. */
  function Served<V>(c: Codec<V>, w: Surroundings<V>, input: Bytes, i: nat): Bytes
    decreases |input|
  {
    var o := Read(c, input);
    if w.termAt(i) || o.value.None? then []
    else if w.closedAt(i) then Sent(c, w.disconnected)
    else Sent(c, w.answer(i, o.value.value)) + Served(c, w, o.rest, i + 1)
  }

  method RunBridge<V>(c: Codec<V>, w: Surroundings<V>, stdin: Stream, stdout: Stream)
    requires stdin != stdout
    modifies stdin, stdout
    ensures stdout.bytes == old(stdout.bytes)
                            + if w.reachable then Served(c, w, old(stdin.bytes), 0) else Sent(c, w.unreachable)
  {
    hide Read, Frame;
    if !w.reachable {
      var _ := WriteFrame(c, stdout, w.unreachable);
      return;
    }
    var i: nat := 0;
    var running := true;
    while running
      invariant stdout.bytes + (if running then Served(c, w, stdin.bytes, i) else [])
                == old(stdout.bytes) + Served(c, w, old(stdin.bytes), 0)
      decreases running, |stdin.bytes|
    {
      if w.termAt(i) {
        running := false;
      } else {
        ghost var input := stdin.bytes;
        Shrinks(c, input);
        var frame := ReadFrame(c, stdin);
        if frame.None? {
          running := false;
        } else if w.closedAt(i) {
          var _ := WriteFrame(c, stdout, w.disconnected);
          running := false;
        } else {
          var _ := WriteFrame(c, stdout, w.answer(i, frame.value));
          i := i + 1;
        }
      }
    }
  }

  lemma Shrinks<V>(c: Codec<V>, s: Bytes)
    ensures Read(c, s).value.Some? ==> |Read(c, s).rest| < |s|
  {
  }

  /** The answers to consecutive requests. */
  function Answers<V>(w: Surroundings<V>, reqs: seq<V>, i: nat): (r: seq<V>)
    ensures |r| == |reqs| && forall k | 0 <= k < |reqs| :: r[k] == w.answer(i + k, reqs[k])
  {
    seq(|reqs|, k requires 0 <= k < |reqs| => w.answer(i + k, reqs[k]))
  }

  /** Nothing stops the loop at frames i, i + 1, ... */
  predicate Unstopped<V>(c: Codec<V>, w: Surroundings<V>, reqs: seq<V>, i: nat) {
    forall k | 0 <= k < |reqs| :: Sendable(c, reqs[k]) && !w.closedAt(i + k) && !w.termAt(i + k)
  }

  /** What is written for a list of responses: a frame for each that fits one. */
  function Written<V>(c: Codec<V>, vs: seq<V>): Bytes {
    if |vs| == 0 then [] else Sent(c, vs[0]) + Written(c, vs[1..])
  }

  lemma {:induction false} ServedOne<V(!new)>(c: Codec<V>, w: Surroundings<V>, req: V, rest: Bytes, i: nat)
    requires Lawful(c) && Sendable(c, req) && !w.closedAt(i) && !w.termAt(i)
    ensures Served(c, w, Framed(c.enc(req)) + rest, i) == Sent(c, w.answer(i, req)) + Served(c, w, rest, i + 1)
  {
    hide Read, Framed, Lawful, Sent;
    ReadBack(c, req, rest);
  }

  lemma {:induction false} UnstoppedRest<V>(c: Codec<V>, w: Surroundings<V>, reqs: seq<V>, i: nat)
    requires |reqs| > 0 && Unstopped(c, w, reqs, i)
    ensures Sendable(c, reqs[0]) && !w.closedAt(i) && !w.termAt(i) && Unstopped(c, w, reqs[1..], i + 1)
    ensures Answers(w, reqs, i) == [w.answer(i, reqs[0])] + Answers(w, reqs[1..], i + 1)
  {
    assert Sendable(c, reqs[0]) && !w.closedAt(i + 0) && !w.termAt(i + 0);
    forall k | 0 <= k < |reqs| - 1
      ensures reqs[1..][k] == reqs[k + 1] && i + 1 + k == i + (k + 1)
    {
    }
  }

  /** Fed with the frames of some requests, the loop writes what is written for exactly their answers, one for one and
      in order, before it looks at what follows. */
  lemma {:induction false} OneReplyPerFrame<V(!new)>(c: Codec<V>, w: Surroundings<V>, reqs: seq<V>, suffix: Bytes, i: nat)
    requires Lawful(c) && Unstopped(c, w, reqs, i)
    ensures Served(c, w, Concat(c, reqs) + suffix, i)
            == Written(c, Answers(w, reqs, i)) + Served(c, w, suffix, i + |reqs|)
  {
    hide Served, Framed, Lawful, Sent, Answers;
    if |reqs| == 0 {
      assert Concat(c, reqs) + suffix == suffix;
    } else {
      var rest := Concat(c, reqs[1..]) + suffix;
      var head, tail := w.answer(i, reqs[0]), Answers(w, reqs[1..], i + 1);
      UnstoppedRest(c, w, reqs, i);
      assert Concat(c, reqs) + suffix == Framed(c.enc(reqs[0])) + rest;
      ServedOne(c, w, reqs[0], rest, i);
      OneReplyPerFrame(c, w, reqs[1..], suffix, i + 1);
      assert ([head] + tail)[1..] == tail;
    }
  }

  predicate AllSendable<V>(c: Codec<V>, vs: seq<V>) { forall k | 0 <= k < |vs| :: Sendable(c, vs[k]) }

  lemma {:induction false} WrittenIsConcat<V>(c: Codec<V>, vs: seq<V>)
    requires AllSendable(c, vs)
    ensures Written(c, vs) == Concat(c, vs)
  {
    if |vs| > 0 {
      assert Sendable(c, vs[0]);
      WrittenIsConcat(c, vs[1..]);
    }
  }

  /** The first response of a list, as the reader sees it. */
  lemma {:induction false} ReadWritten<V(!new)>(c: Codec<V>, vs: seq<V>)
    requires Lawful(c) && |vs| > 0
    ensures Sendable(c, vs[0]) ==> Read(c, Written(c, vs)) == Outcome(Some(vs[0]), Written(c, vs[1..]))
    ensures |c.enc(vs[0])| == 0 ==> Read(c, Written(c, vs)).value == None
    ensures |c.enc(vs[0])| > MAX_FRAME_BYTES ==> Written(c, vs) == Written(c, vs[1..])
  {
    hide Lawful;
    var rest := Written(c, vs[1..]);
    if Sendable(c, vs[0]) {
      ReadBack(c, vs[0], rest);
    } else if |c.enc(vs[0])| == 0 {
      EmptyFrame(c, c.enc(vs[0]), rest);
    }
  }

  lemma {:induction false} EmptyFrame<V>(c: Codec<V>, body: Bytes, rest: Bytes)
    requires |body| == 0
    ensures Read(c, Framed(body) + rest).value == None
  {
    hide Word, FromWord;
    WordRoundTrip(0);
    assert (Framed(body) + rest)[..4] == Word(0);
  }

  /** No more frames are read than responses were written. */
  lemma {:induction false} NoMoreThanWritten<V(!new)>(c: Codec<V>, vs: seq<V>, n: nat)
    requires Lawful(c) && n > |vs|
    ensures ReadN(c, Written(c, vs), n).value == None
  {
    hide Read, Lawful, Sent;
    if |vs| == 0 {
      assert Read(c, []).value == None by { NothingToRead(c); }
    } else {
      ReadWritten(c, vs);
      if |c.enc(vs[0])| > MAX_FRAME_BYTES {
        NoMoreThanWritten(c, vs[1..], n);
      } else if Sendable(c, vs[0]) {
        NoMoreThanWritten(c, vs[1..], n - 1);
      }
    }
  }

  lemma NothingToRead<V>(c: Codec<V>)
    ensures Read(c, []) == Outcome(None, [])
  {
  }

  lemma {:induction false} AllReadExactly<V(!new)>(c: Codec<V>, vs: seq<V>)
    requires Lawful(c)
    ensures ReadN(c, Written(c, vs), |vs|).value.Some? <==> AllSendable(c, vs)
  {
    hide Read, Lawful, Sent;
    if |vs| > 0 {
      ReadWritten(c, vs);
      if |c.enc(vs[0])| > MAX_FRAME_BYTES {
        NoMoreThanWritten(c, vs[1..], |vs|);
        assert !Sendable(c, vs[0]);
      } else if Sendable(c, vs[0]) {
        AllReadExactly(c, vs[1..]);
        assert AllSendable(c, vs) <==> AllSendable(c, vs[1..]);
      }
    }
  }

  /** End to end through both codecs, for any answers whatsoever: the browser reads one frame back for each of its
      requests if and only if every answer fits a frame, and then it reads the answers, in order. */
  lemma {:induction false} BrowserReadsAnswers<V(!new)>(c: Codec<V>, w: Surroundings<V>, reqs: seq<V>, i: nat)
    requires Lawful(c) && Unstopped(c, w, reqs, i)
    ensures var got := ReadN(c, Served(c, w, Concat(c, reqs), i), |reqs|).value;
            && (got.Some? <==> AllSendable(c, Answers(w, reqs, i)))
            && (got.Some? ==> got == Some(Answers(w, reqs, i)))
  {
    hide Read, Framed, Lawful, ReadN, Written, Concat, AllSendable;
    var answers := Answers(w, reqs, i);
    OneReplyPerFrame(c, w, reqs, [], i);
    NothingToRead(c);
    assert Concat(c, reqs) + [] == Concat(c, reqs) && Served(c, w, [], i + |reqs|) == [];
    assert Written(c, answers) + [] == Written(c, answers);
    AllReadExactly(c, answers);
    if ReadN(c, Written(c, answers), |answers|).value.Some? {
      SendableEach(c, answers);
      WrittenIsConcat(c, answers);
      ReadBackAll(c, answers, []);
      assert Concat(c, answers) + [] == Concat(c, answers);
    }
  }

  lemma SendableEach<V>(c: Codec<V>, vs: seq<V>)
    requires AllSendable(c, vs)
    ensures forall k | 0 <= k < |vs| :: Sendable(c, vs[k])
  {
  }

  /** A daemon that goes away is reported once, in answer to the next frame, and nothing after that frame is read. */
  lemma {:induction false} GoneDaemonIsReportedOnce<V(!new)>(
      c: Codec<V>, w: Surroundings<V>, reqs: seq<V>, next: V, suffix: Bytes)
    requires Lawful(c) && Unstopped(c, w, reqs, 0) && Sendable(c, next) && Sendable(c, w.disconnected)
    requires w.closedAt(|reqs|) && !w.termAt(|reqs|)
    ensures Served(c, w, Concat(c, reqs) + (Framed(c.enc(next)) + suffix), 0)
            == Written(c, Answers(w, reqs, 0)) + Framed(c.enc(w.disconnected))
  {
    hide Read, Framed, Lawful, Concat, Written;
    var tail := Framed(c.enc(next)) + suffix;
    OneReplyPerFrame(c, w, reqs, tail, 0);
    ReadBack(c, next, suffix);
    assert Served(c, w, tail, |reqs|) == Framed(c.enc(w.disconnected));
  }

  /** A termination request, the end of the input or anything that is no frame ends the loop without another word. */
  lemma {:induction false} StopsSilently<V(!new)>(c: Codec<V>, w: Surroundings<V>, reqs: seq<V>, rest: Bytes)
    requires Lawful(c) && Unstopped(c, w, reqs, 0) && (w.termAt(|reqs|) || Read(c, rest).value.None?)
    ensures Served(c, w, Concat(c, reqs) + rest, 0) == Written(c, Answers(w, reqs, 0))
  {
    hide Read, Framed, Lawful, Concat, Written;
    OneReplyPerFrame(c, w, reqs, rest, 0);
    assert Served(c, w, rest, |reqs|) == [];
  }
}
