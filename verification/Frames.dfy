/** Native-messaging frames (bridge/src/nmh.rs): a 4-byte little-endian length, then that many bytes of JSON. */
module Frames {
  import opened Base
  import opened Endian

  const MAX_FRAME_BYTES: nat := 1048576

  /** JSON as an abstract codec. */
  datatype Codec<!V> = Codec(enc: V -> Bytes, dec: Bytes -> Option<V>)

  ghost predicate Lawful<V(!new)>(c: Codec<V>) { forall v: V :: c.dec(c.enc(v)) == Some(v) }

  // ---------------------------------------------------------------- streams

  class Stream {
    var bytes: Bytes

    constructor (bytes: Bytes)
      ensures this.bytes == bytes
    {
      this.bytes := bytes;
    }

    /** Takes n bytes off the front; at the end of the stream what is left is lost. */
    method ReadExact(n: nat) returns (r: Option<Bytes>)
      modifies this
      ensures n <= |old(bytes)| ==> r == Some(old(bytes)[..n]) && bytes == old(bytes)[n..]
      ensures n > |old(bytes)| ==> r == None && bytes == []
    {
      if n <= |bytes| {
        r := Some(bytes[..n]);
        bytes := bytes[n..];
      } else {
        r := None;
        bytes := [];
      }
    }

    method WriteAll(b: Bytes)
      modifies this
      ensures bytes == old(bytes) + b
    {
      bytes := bytes + b;
    }
  }

  // ---------------------------------------------------------------- frames

  /** The outcome of reading one frame: the value, None on any error, and what is left of the stream. */
  datatype Outcome<+V> = Outcome(value: Option<V>, rest: Bytes)

  function Read<V>(c: Codec<V>, s: Bytes): Outcome<V> {
    if |s| < 4 then Outcome(None, [])
    else
      var len := FromWord(s[..4]);
      var rest := s[4..];
      if len == 0 || len > MAX_FRAME_BYTES then Outcome(None, rest)
      else if len > |rest| then Outcome(None, [])
      else Outcome(c.dec(rest[..len]), rest[len..])
  }

  /** The bytes of one frame; None when the body is over the limit. */
  function Frame<V>(c: Codec<V>, v: V): Option<Bytes> {
    if |c.enc(v)| > MAX_FRAME_BYTES then None else Some(Framed(c.enc(v)))
  }

  function Framed(body: Bytes): Bytes
    requires |body| <= MAX_FRAME_BYTES
  {
    Word(|body|) + body
  }

  method ReadFrame<V>(c: Codec<V>, reader: Stream) returns (r: Option<V>)
    modifies reader
    ensures Outcome(r, reader.bytes) == Read(c, old(reader.bytes))
  {
    var header := reader.ReadExact(4);
    if header.None? {
      return None;
    }
    var len := FromWord(header.value);
    if len == 0 {
      return None;
    }
    if len > MAX_FRAME_BYTES {
      return None;
    }
    var body := reader.ReadExact(len);
    if body.None? {
      return None;
    }
    r := c.dec(body.value);
  }

  method WriteFrame<V>(c: Codec<V>, writer: Stream, v: V) returns (ok: bool)
    modifies writer
    ensures ok == Frame(c, v).Some?
    ensures writer.bytes == if ok then old(writer.bytes) + Frame(c, v).value else old(writer.bytes)
  {
    var body := c.enc(v);
    if |body| > MAX_FRAME_BYTES {
      return false;
    }
    writer.WriteAll(Word(|body|));
    writer.WriteAll(body);
    ok := true;
  }

  // ---------------------------------------------------------------- round trips

  /** The value can travel: its encoding is 1 byte to 1 MiB. */
  predicate Sendable<V>(c: Codec<V>, v: V) { 1 <= |c.enc(v)| <= MAX_FRAME_BYTES }

  lemma {:induction false} ReadBack<V(!new)>(c: Codec<V>, v: V, suffix: Bytes)
    requires Lawful(c) && Sendable(c, v)
    ensures Read(c, Framed(c.enc(v)) + suffix) == Outcome(Some(v), suffix)
  {
    hide Word, FromWord;
    var body := c.enc(v);
    var s := Word(|body|) + body + suffix;
    WordRoundTrip(|body|);
    assert s[..4] == Word(|body|) && s[4..] == body + suffix;
    assert (body + suffix)[..|body|] == body && (body + suffix)[|body|..] == suffix;
  }

  function Concat<V>(c: Codec<V>, vs: seq<V>): Bytes
    requires forall i | 0 <= i < |vs| :: Sendable(c, vs[i])
  {
    if |vs| == 0 then []
    else
      assert Sendable(c, vs[0]);
      Framed(c.enc(vs[0])) + Concat(c, vs[1..])
  }

  function ReadN<V>(c: Codec<V>, s: Bytes, n: nat): Outcome<seq<V>> {
    if n == 0 then Outcome(Some([]), s)
    else
      var o := Read(c, s);
      if o.value.None? then Outcome(None, o.rest)
      else
        var more := ReadN(c, o.rest, n - 1);
        if more.value.None? then more else Outcome(Some([o.value.value] + more.value.value), more.rest)
  }

  /** Reading n frames off their concatenation gives the n values back and leaves whatever follows untouched. */
  lemma {:induction false} ReadBackAll<V(!new)>(c: Codec<V>, vs: seq<V>, suffix: Bytes)
    requires Lawful(c) && forall i | 0 <= i < |vs| :: Sendable(c, vs[i])
    ensures ReadN(c, Concat(c, vs) + suffix, |vs|) == Outcome(Some(vs), suffix)
  {
    hide Read, Framed, Lawful;
    if |vs| > 0 {
      var rest := Concat(c, vs[1..]) + suffix;
      ReadBackAll(c, vs[1..], suffix);
      assert Concat(c, vs) + suffix == Framed(c.enc(vs[0])) + rest;
      ReadBack(c, vs[0], rest);
      assert [vs[0]] + vs[1..] == vs;
    } else {
      assert Concat(c, vs) + suffix == suffix;
    }
  }

  /** A truncated frame never yields a value. */
  lemma {:induction false} TruncatedFails<V>(c: Codec<V>, v: V, n: nat)
    requires Frame(c, v).Some? && n < |Frame(c, v).value|
    ensures Read(c, Frame(c, v).value[..n]).value == None
  {
    hide Word, FromWord;
    var body := c.enc(v);
    var s := Frame(c, v).value[..n];
    if n >= 4 {
      WordRoundTrip(|body|);
      assert s[..4] == Word(|body|);
    }
  }

  /** Reading yields a value exactly on the frames of the bodies of 1 byte to 1 MiB that decode to it. */
  lemma {:induction false} ReadExactly<V(!new)>(c: Codec<V>, s: Bytes, v: V, rest: Bytes)
    ensures Read(c, s) == Outcome(Some(v), rest) <==>
            exists body: Bytes ::
              1 <= |body| <= 1_048_576 && c.dec(body) == Some(v) && s == Framed(body) + rest
  {
    hide Word, FromWord;
    if Read(c, s) == Outcome(Some(v), rest) {
      var body := s[4..][..FromWord(s[..4])];
      WordBack(s[..4]);
      assert s == Framed(body) + rest;
    }
    forall body: Bytes | 1 <= |body| <= MAX_FRAME_BYTES && c.dec(body) == Some(v) && s == Framed(body) + rest
      ensures Read(c, s) == Outcome(Some(v), rest)
    {
      WordRoundTrip(|body|);
      assert s[..4] == Word(|body|) && s[4..] == body + rest;
      assert (body + rest)[..|body|] == body && (body + rest)[|body|..] == rest;
    }
  }
}
