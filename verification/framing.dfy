/** Message framing of message.go and peerconn.go: writing frames, reading them back byte by byte from a
    stream, and what a truncated stream yields. */
module Framing {
  import opened NodeTypes

  const HEADER_LEN := 6
  const TWO_32 := 0x1_0000_0000

  datatype Message = Message(version: byte, mtype: byte, data: seq<byte>)

  /** The four little-endian bytes of the low 32 bits of `n`. */
  function PutUint32(n: nat): (r: seq<byte>)
    ensures |r| == 4
  {
    [ToByte(n % 256), ToByte(n / 256 % 256), ToByte(n / 256 / 256 % 256), ToByte(n / 256 / 256 / 256 % 256)]
  }

  function Uint32(b: seq<byte>): (n: nat)
    requires |b| == 4
    ensures n < TWO_32
  {
    b[0] as int + 256 * (b[1] as int) + 0x1_0000 * (b[2] as int) + 0x100_0000 * (b[3] as int)
  }

  lemma LowBytes(n: nat)
    ensures n % 256 + 256 * (n / 256 % 256) + 0x1_0000 * (n / 256 / 256 % 256) + 0x100_0000 * (n / 256 / 256 / 256 % 256) == n % TWO_32
  {
  }

  lemma ShortLength(n: nat)
    requires n < 256
    ensures PutUint32(n) == [n as byte, 0, 0, 0]
  {
    assert n / 256 == 0 && n % 256 == n;
  }

  lemma Uint32RoundTrip(n: nat)
    ensures Uint32(PutUint32(n)) == n % TWO_32
  {
    LowBytes(n);
  }

  /** The bytes writeMessage sends. */
  function Frame(m: Message): seq<byte> {
    [m.version, m.mtype] + PutUint32(|m.data|) + m.data
  }

  /** The layout of a frame: version, type, the length of the body with its lowest byte first, the body. */
  lemma FrameBytes(m: Message)
    ensures var f, n := Frame(m), |m.data|;
            && |f| == 6 + n && f[0] == m.version && f[1] == m.mtype && f[6..] == m.data
            && f[2] as int == n % 256 && f[3] as int == n / 0x100 % 256
            && f[4] as int == n / 0x1_0000 % 256 && f[5] as int == n / 0x100_0000 % 256
  {
    var n := |m.data|;
    assert n / 256 / 256 == n / 0x1_0000 && n / 256 / 256 / 256 == n / 0x100_0000;
  }

  /** What ReadMessage makes of a stream: the message and what follows it, or nothing if the stream ends
      inside a frame. */
  function Parse(s: seq<byte>): (r: Option<(Message, seq<byte>)>)
    ensures r.Some? ==> |r.value.1| < |s|
  {
    if |s| < HEADER_LEN then None
    else
      var n := Uint32(s[2..6]);
      if |s| < HEADER_LEN + n then None
      else Some((Message(s[0], s[1], s[HEADER_LEN..HEADER_LEN + n]), s[HEADER_LEN + n..]))
  }

  lemma FrameHeader(m: Message, rest: seq<byte>)
    ensures var s := Frame(m) + rest;
            && |s| >= HEADER_LEN && s[0] == m.version && s[1] == m.mtype
            && s[2..6] == PutUint32(|m.data|) && s[HEADER_LEN..] == m.data + rest
  {
  }

  /** The length that the reader takes from the header is the body's length modulo 2^32. */
  lemma HeaderLength(m: Message, rest: seq<byte>)
    ensures var s := Frame(m) + rest; |s| >= HEADER_LEN && Uint32(s[2..6]) == |m.data| % TWO_32
  {
    FrameHeader(m, rest);
    Uint32RoundTrip(|m.data|);
  }

  lemma ShortFrameParses(m: Message, rest: seq<byte>)
    requires |m.data| < TWO_32
    ensures Parse(Frame(m) + rest) == Some((m, rest))
  {
    var s, n := Frame(m) + rest, |m.data|;
    FrameHeader(m, rest);
    HeaderLength(m, rest);
    hide Uint32, PutUint32, Frame;
    assert s[HEADER_LEN..HEADER_LEN + n] == m.data;
    assert s[HEADER_LEN + n..] == rest;
  }

  /** A frame is read back as the message it was made of exactly if the body is under 2^32 bytes. */
  lemma FrameRoundTrip(m: Message, rest: seq<byte>)
    ensures Parse(Frame(m) + rest) == Some((m, rest)) <==> |m.data| < TWO_32
  {
    if |m.data| < TWO_32 {
      ShortFrameParses(m, rest);
    } else {
      HeaderLength(m, rest);
      var r := Parse(Frame(m) + rest);
      assert r.Some? ==> |r.value.0.data| == |m.data| % TWO_32;
    }
  }

  /** A frame cut short yields no message. */
  lemma PrefixYieldsNothing(m: Message, k: nat)
    requires |m.data| < TWO_32 && k < |Frame(m)|
    ensures Parse(Frame(m)[..k]).None?
  {
    var f := Frame(m);
    HeaderLength(m, []);
    assert f + [] == f;
    if k >= HEADER_LEN {
      assert f[..k][2..6] == f[2..6];
    }
  }

  // ---------- Sequences of messages ----------

  function FrameAll(ms: seq<Message>): seq<byte> {
    if ms == [] then [] else Frame(ms[0]) + FrameAll(ms[1..])
  }

  /** The messages that repeated reading gets from a stream before it ends. */
  function ParseAll(s: seq<byte>): seq<Message>
    decreases |s|
  {
    var r := Parse(s);
    if r.None? then [] else [r.value.0] + ParseAll(r.value.1)
  }

  ghost predicate AllShort(ms: seq<Message>) {
    forall i :: 0 <= i < |ms| ==> |ms[i].data| < TWO_32
  }

  /** Any sequence of messages written to a stream is read back as it was. */
  lemma {:induction false} StreamRoundTrip(ms: seq<Message>)
    requires AllShort(ms)
    ensures ParseAll(FrameAll(ms)) == ms
    decreases |ms|
  {
    if ms != [] {
      ShortFrameParses(ms[0], FrameAll(ms[1..]));
      StreamRoundTrip(ms[1..]);
    }
  }

  /** `got` is the messages of `ms` whose frames fit in the first `k` bytes, and no others. */
  ghost predicate Fits(ms: seq<Message>, got: seq<Message>, k: int) {
    && got <= ms && |FrameAll(got)| <= k
    && (got != ms ==> k < |FrameAll(ms[..|got| + 1])|)
  }

  lemma FrameAllCons(m: Message, ms: seq<Message>)
    ensures FrameAll([m] + ms) == Frame(m) + FrameAll(ms)
  {
  }

  lemma FitsCons(m: Message, ms: seq<Message>, got: seq<Message>, k: int)
    requires Fits(ms, got, k)
    ensures Fits([m] + ms, [m] + got, |Frame(m)| + k)
  {
    hide Frame;
    FrameAllCons(m, got);
    if got != ms {
      FrameAllCons(m, ms[..|got| + 1]);
      assert ([m] + ms)[..|got| + 2] == [m] + ms[..|got| + 1];
    }
  }

  lemma FitsNone(m: Message, ms: seq<Message>, k: nat)
    requires k < |Frame(m)|
    ensures Fits([m] + ms, [], k)
  {
  }

  /** A stream that breaks off after `k` bytes yields exactly the messages whose frames fit in them. */
  lemma {:induction false} BrokenStream(ms: seq<Message>, k: nat)
    requires AllShort(ms) && k <= |FrameAll(ms)|
    ensures Fits(ms, ParseAll(FrameAll(ms)[..k]), k)
    decreases |ms|
  {
    hide Parse, Frame;
    if ms != [] {
      hide Fits;
      var m, tail := ms[0], ms[1..];
      var f, rest := Frame(m), FrameAll(tail);
      assert ms == [m] + tail;
      if k < |f| {
        PrefixYieldsNothing(m, k);
        FitsNone(m, tail, k);
        assert FrameAll(ms)[..k] == f[..k];
      } else {
        ShortFrameParses(m, rest[..k - |f|]);
        BrokenStream(tail, k - |f|);
        FitsCons(m, tail, ParseAll(rest[..k - |f|]), k - |f|);
        assert FrameAll(ms)[..k] == f + rest[..k - |f|];
      }
    }
  }

  // ---------- The loops ----------

  /** The two loops of ReadMessage: one byte at a time into a buffer, first to the end of the header, then
      to the end of the body. `pos` is where reading stopped; an error means the stream ended. */
  method ReadMessage(s: seq<byte>) returns (r: Option<Message>, pos: nat)
    ensures pos <= |s|
    ensures match Parse(s) case Some((m, rest)) => r == Some(m) && s[pos..] == rest case None => r == None && pos == |s|
  {
    var buf: seq<byte> := [];
    pos := 0;
    while |buf| < HEADER_LEN
      invariant |buf| == pos <= |s| && pos <= HEADER_LEN && buf == s[..pos]
    {
      if pos == |s| {
        return None, pos;
      }
      buf := buf + [s[pos]];
      pos := pos + 1;
    }
    var n := Uint32(buf[2..]);
    assert buf[2..] == s[2..6];
    while |buf| < HEADER_LEN + n
      invariant |buf| == pos <= |s| && HEADER_LEN <= pos <= HEADER_LEN + n && buf == s[..pos]
    {
      if pos == |s| {
        return None, pos;
      }
      buf := buf + [s[pos]];
      pos := pos + 1;
    }
    r := Some(Message(buf[0], buf[1], buf[HEADER_LEN..]));
  }

  /** writeMessage: a buffer for length and body, then version and type in front. */
  method WriteMessage(version: byte, mtype: byte, data: seq<byte>) returns (msg: seq<byte>)
    ensures msg == Frame(Message(version, mtype, data))
  {
    var cLen := |data|;
    var val := new byte[cLen + 4];
    var prefix := PutUint32(cLen);
    hide PutUint32;
    for i := 0 to 4
      invariant val[..i] == prefix[..i]
    {
      val[i] := prefix[i];
    }
    for i := 0 to cLen
      invariant val[..4] == prefix && val[4..4 + i] == data[..i]
    {
      val[4 + i] := data[i];
      assert val[4..4 + i + 1] == val[4..4 + i] + [data[i]];
    }
    assert val[..] == prefix + data;
    msg := [version, mtype] + val[..];
  }
}
