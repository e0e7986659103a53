/** The hello handshake of peerconn.go and message.go over a framed stream. */
module Handshake {
  import opened NodeTypes
  import opened Framing

  const TYPE_HELLO: byte := 0
  const TYPE_RE_HELLO: byte := 1

  datatype Hello = Hello(version: byte, id: NodeId, receiveId: NodeId)

  /** An endpoint: who it is, whom it takes the other side for, its version, and whether the client part
      has completed. */
  datatype Conn = Conn(self: NodeId, id: NodeId, version: byte, status: int)

  /** A handshake ends in an error, in a crash (a nil message or a slice out of range), or goes on; `conn` is
      the endpoint afterwards and `written` what it has sent. */
  datatype Outcome = Failed(conn: Conn, written: seq<byte>) | Crashed(written: seq<byte>) | Ok(conn: Conn, written: seq<byte>)

  function Marshal(h: Hello, mtype: byte): seq<byte> {
    Frame(Message(h.version, mtype, h.id + h.receiveId))
  }

  datatype Unmarshaled = BadType | OutOfRange | Got(hello: Hello)

  /** unmarshal, on the frame of a message: the first 64 bytes of the body are the sender, up to 64 more
      the receiver. The end of the body is computed in 32 bits; where that wraps around, and for a body
      under 64 bytes, a slice is out of range. */
  function Unmarshal(m: Message, mtype: byte): Unmarshaled {
    if m.mtype != mtype then BadType
    else if HEADER_LEN + |m.data| >= TWO_32 || |m.data| < NODE_ID_LEN then OutOfRange
    else Got(Hello(m.version, m.data[..NODE_ID_LEN], Pad(m.data[NODE_ID_LEN..])))
  }

  /** What copying into a zeroed identifier leaves. */
  function Pad(b: seq<byte>): (id: NodeId)
    ensures |b| == NODE_ID_LEN ==> id == b
  {
    if |b| >= NODE_ID_LEN then b[..NODE_ID_LEN] else b + seq(NODE_ID_LEN - |b|, _ => 0)
  }

  /** What clientHandshake writes. */
  function ClientHello(c: Conn): seq<byte> {
    Marshal(Hello(c.version, c.self, c.id), TYPE_HELLO)
  }

  /** The message at the head of a stream, as readHello...Msg takes it. */
  datatype ReadHello = ReadFailed | ReadNil | ReadCrash | Read(hello: Hello)

  function TakeHello(s: seq<byte>, mtype: byte): ReadHello {
    match Parse(s)
    case None => ReadFailed
    case Some((m, _)) =>
      // a message of another type is returned as nil without an error
      if m.mtype != mtype then ReadNil
      else match Unmarshal(m, mtype)
           case Got(h) => Read(h)
           case _ => ReadCrash
  }

  /** serverHandshake on the stream `s`. The identifier is taken before the reply is written, so it stays
      if that write fails. */
  function Server(c: Conn, s: seq<byte>, writes: bool): Outcome {
    if c.status == 1 then Ok(c, [])
    else match TakeHello(s, TYPE_HELLO)
         case ReadFailed => Failed(c, [])
         case ReadNil => Crashed([])
         case ReadCrash => Crashed([])
         case Read(h) =>
           if h.version != c.version || h.receiveId != c.self then Failed(c, [])
           else if !writes then Failed(c.(id := h.id), [])
           else Ok(c.(id := h.id), Marshal(Hello(c.version, c.self, h.id), TYPE_RE_HELLO))
  }

  /** clientHandshake: writes its hello, then reads the stream `s`. */
  function Client(c: Conn, s: seq<byte>, writes: bool): Outcome {
    if c.status == 1 then Ok(c, [])
    else if !writes then Failed(c, [])
    else match TakeHello(s, TYPE_RE_HELLO)
         case ReadFailed => Failed(c, ClientHello(c))
         case ReadNil => Crashed(ClientHello(c))
         case ReadCrash => Crashed(ClientHello(c))
         case Read(h) =>
           if h.version != c.version || h.receiveId != c.self then Failed(c, ClientHello(c))
           else Ok(c.(status := 1), ClientHello(c))
  }

  /** A marshalled hello is read back as it was, whatever follows it on the stream. */
  lemma HelloRoundTrip(h: Hello, mtype: byte, rest: seq<byte>)
    ensures TakeHello(Marshal(h, mtype) + rest, mtype) == Read(h)
  {
    var m := Message(h.version, mtype, h.id + h.receiveId);
    ShortFrameParses(m, rest);
    assert m.data[..NODE_ID_LEN] == h.id && m.data[NODE_ID_LEN..] == h.receiveId;
  }

  /** Two honest endpoints over a faithful stream: the server completes exactly if the versions agree and
      the client dialed it; then the client completes too, both have the version in common, and each
      holds the other's identifier. The client sends its hello whatever arrives, and nothing behind the
      hellos matters. */
  lemma HonestHandshake(client: Conn, server: Conn, arriving: seq<byte>, more: seq<byte>, extra: seq<byte>)
    requires client.status == 0 && server.status == 0
    ensures var reply := Server(server, Client(client, arriving, true).written + more, true);
            && (reply.Ok? <==> client.version == server.version && client.id == server.self)
            && !reply.Crashed?
            && (reply.Ok? ==>
                  var end := Client(client, reply.written + extra, true);
                  && end.Ok? && end.conn.status == 1
                  && end.conn.version == reply.conn.version
                  && end.conn.id == reply.conn.self && reply.conn.id == end.conn.self)
  {
    hide TakeHello, Marshal;
    HelloRoundTrip(Hello(client.version, client.self, client.id), TYPE_HELLO, more);
    HelloRoundTrip(Hello(server.version, server.self, client.self), TYPE_RE_HELLO, extra);
  }

  /** A hello cut short makes either side fail without completing. */
  lemma CutHandshakeFails(c: Conn, h: Hello, k: nat, writes: bool)
    requires c.status == 0
    ensures k < |Marshal(h, TYPE_HELLO)| ==> Server(c, Marshal(h, TYPE_HELLO)[..k], writes) == Failed(c, [])
    ensures k < |Marshal(h, TYPE_RE_HELLO)| ==>
              Client(c, Marshal(h, TYPE_RE_HELLO)[..k], writes) == Failed(c, if writes then ClientHello(c) else [])
  {
    if k < |Marshal(h, TYPE_HELLO)| {
      PrefixYieldsNothing(Message(h.version, TYPE_HELLO, h.id + h.receiveId), k);
    }
    if k < |Marshal(h, TYPE_RE_HELLO)| {
      PrefixYieldsNothing(Message(h.version, TYPE_RE_HELLO, h.id + h.receiveId), k);
    }
  }

  // ---------- Arbitrary streams ----------

  /** The stream begins with a whole frame, whose body has the length in its header. */
  predicate BeginsWhole(s: seq<byte>) {
    |s| >= HEADER_LEN && |s| >= HEADER_LEN + BodyLen(s)
  }

  function BodyLen(s: seq<byte>): nat
    requires |s| >= HEADER_LEN
  {
    Uint32(s[2..HEADER_LEN])
  }

  /** That frame is no hello of type `mtype`: it has another type, a body too short for an identifier, or
      one within six bytes of 2^32, whose end wraps around. */
  predicate BeginsBadly(s: seq<byte>, mtype: byte) {
    && BeginsWhole(s)
    && (s[1] != mtype || BodyLen(s) < NODE_ID_LEN || BodyLen(s) >= TWO_32 - HEADER_LEN)
  }

  lemma StreamCases(s: seq<byte>, mtype: byte)
    ensures TakeHello(s, mtype).ReadFailed? <==> !BeginsWhole(s)
    ensures TakeHello(s, mtype).Read? <==> BeginsWhole(s) && !BeginsBadly(s, mtype)
  {
    hide Uint32, Pad;
  }

  /** Exactly when a handshake crashes, on either side and for every stream. */
  lemma CrashesExactly(c: Conn, s: seq<byte>, writes: bool)
    ensures Server(c, s, writes).Crashed? <==> c.status != 1 && BeginsBadly(s, TYPE_HELLO)
    ensures Client(c, s, writes).Crashed? <==> c.status != 1 && writes && BeginsBadly(s, TYPE_RE_HELLO)
  {
    hide TakeHello, BodyLen;
    StreamCases(s, TYPE_HELLO);
    StreamCases(s, TYPE_RE_HELLO);
  }

  /** The second part of the body names `self`: its bytes, up to 64 of them, are those of `self`, and where
      there are fewer the rest of `self` is zero. */
  predicate NamesReceiver(s: seq<byte>, self: NodeId)
    requires BeginsWhole(s) && BodyLen(s) >= NODE_ID_LEN
  {
    var k := Min(BodyLen(s) - NODE_ID_LEN, NODE_ID_LEN);
    && s[HEADER_LEN + NODE_ID_LEN..HEADER_LEN + NODE_ID_LEN + k] == self[..k]
    && forall i :: k <= i < NODE_ID_LEN ==> self[i] == 0
  }

  /** The stream begins with a hello of type `mtype` and the endpoint's version that names the endpoint. */
  predicate BeginsWithHello(s: seq<byte>, mtype: byte, c: Conn) {
    BeginsWhole(s) && !BeginsBadly(s, mtype) && s[0] == c.version && NamesReceiver(s, c.self)
  }

  lemma PadIs(b: seq<byte>, self: NodeId)
    ensures var k := Min(|b|, NODE_ID_LEN);
            Pad(b) == self <==> b[..k] == self[..k] && forall i :: k <= i < NODE_ID_LEN ==> self[i] == 0
  {
    var k, p := Min(|b|, NODE_ID_LEN), Pad(b);
    assert p[..k] == b[..k];
    if b[..k] == self[..k] && forall i :: k <= i < NODE_ID_LEN ==> self[i] == 0 {
      forall i | 0 <= i < NODE_ID_LEN
        ensures p[i] == self[i]
      {
        if i < k {
          assert p[i] == b[..k][i] == self[..k][i];
        }
      }
    }
  }

  lemma SliceOfSlice(s: seq<byte>, i: nat, j: nat, m: nat, k: nat)
    requires i + m + k <= j <= |s|
    ensures s[i..j][..m] == s[i..i + m] && s[i..j][m..][..k] == s[i + m..i + m + k]
  {
  }

  /** What is read from a stream that begins with a frame of the right type and a proper length. */
  lemma TakesHello(s: seq<byte>, mtype: byte, self: NodeId)
    requires BeginsWhole(s) && !BeginsBadly(s, mtype)
    ensures var r := TakeHello(s, mtype);
            && r.Read? && r.hello.version == s[0] && r.hello.id == s[HEADER_LEN..HEADER_LEN + NODE_ID_LEN]
            && (r.hello.receiveId == self <==> NamesReceiver(s, self))
  {
    hide Uint32, Pad;
    var n := BodyLen(s);
    var body := s[HEADER_LEN..HEADER_LEN + n];
    var k := Min(n - NODE_ID_LEN, NODE_ID_LEN);
    SliceOfSlice(s, HEADER_LEN, HEADER_LEN + n, NODE_ID_LEN, k);
    PadIs(body[NODE_ID_LEN..], self);
  }

  /** Exactly when each side completes, for every stream, and with which peer; a stream that neither
      completes nor crashes it makes it fail. */
  lemma CompletesExactly(c: Conn, s: seq<byte>, writes: bool)
    ensures var r := Server(c, s, writes);
            && (r.Ok? <==> c.status == 1 || (writes && BeginsWithHello(s, TYPE_HELLO, c)))
            && (r.Ok? && c.status != 1 ==> r.conn == c.(id := s[HEADER_LEN..HEADER_LEN + NODE_ID_LEN]))
    ensures var r := Client(c, s, writes);
            && (r.Ok? <==> c.status == 1 || (writes && BeginsWithHello(s, TYPE_RE_HELLO, c)))
            && (r.Ok? && c.status != 1 ==> r.conn == c.(status := 1))
  {
    hide TakeHello, BodyLen, NamesReceiver;
    StreamCases(s, TYPE_HELLO);
    StreamCases(s, TYPE_RE_HELLO);
    if BeginsWhole(s) && !BeginsBadly(s, TYPE_HELLO) {
      TakesHello(s, TYPE_HELLO, c.self);
    }
    if BeginsWhole(s) && !BeginsBadly(s, TYPE_RE_HELLO) {
      TakesHello(s, TYPE_RE_HELLO, c.self);
    }
  }

  /** The header gives the length 128, lowest byte first. */
  lemma HelloBytes(h: Hello, mtype: byte)
    ensures Marshal(h, mtype) == [h.version, mtype, 128, 0, 0, 0] + h.id + h.receiveId
  {
    hide PutUint32;
    Length128();
    var header: seq<byte> := [128, 0, 0, 0];
    assert [h.version, mtype] + header == [h.version, mtype, 128, 0, 0, 0];
    assert [h.version, mtype] + header + (h.id + h.receiveId) == [h.version, mtype] + header + h.id + h.receiveId;
  }

  lemma Length128()
    ensures PutUint32(128) == [128, 0, 0, 0]
  {
    hide PutUint32;
    ShortLength(128);
  }

  /** What each side sends, to the byte, whatever arrives: the client its hello, as soon as it can write;
      the server, once it has accepted a hello, its own identifier and the sender's. */
  lemma WritesExactly(c: Conn, s: seq<byte>, writes: bool)
    ensures Client(c, s, writes).written == if c.status != 1 && writes then [c.version, 0, 128, 0, 0, 0] + c.self + c.id else []
    ensures var r := Server(c, s, writes);
            r.written == if c.status != 1 && r.Ok? then [c.version, 1, 128, 0, 0, 0] + c.self + r.conn.id else []
  {
    hide TakeHello, Marshal;
    HelloBytes(Hello(c.version, c.self, c.id), TYPE_HELLO);
    match TakeHello(s, TYPE_HELLO)
    case Read(h) => HelloBytes(Hello(c.version, c.self, h.id), TYPE_RE_HELLO);
    case _ =>
  }

  /** Whatever the endpoint: a message without a body crashes it, so does the other side's hello, and so
      does a hello whose body is within six bytes of 2^32. */
  lemma CrashExamples(c: Conn, h: Hello, mtype: byte, huge: seq<byte>)
    requires c.status != 1 && TWO_32 - HEADER_LEN <= |huge| < TWO_32
    ensures Server(c, Frame(Message(h.version, mtype, [])), true).Crashed?
    ensures Client(c, Frame(Message(h.version, mtype, [])), true).Crashed?
    ensures Server(c, Marshal(h, TYPE_RE_HELLO), true).Crashed? && Client(c, Marshal(h, TYPE_HELLO), true).Crashed?
    ensures Server(c, Frame(Message(h.version, TYPE_HELLO, huge)), true).Crashed?
    ensures Client(c, Frame(Message(h.version, TYPE_RE_HELLO, huge)), true).Crashed?
  {
    hide Frame, Parse;
    FrameParses(Message(h.version, mtype, []));
    FrameParses(Message(h.version, TYPE_RE_HELLO, h.id + h.receiveId));
    FrameParses(Message(h.version, TYPE_HELLO, h.id + h.receiveId));
    FrameParses(Message(h.version, TYPE_HELLO, huge));
    FrameParses(Message(h.version, TYPE_RE_HELLO, huge));
  }

  lemma FrameParses(m: Message)
    requires |m.data| < TWO_32
    ensures Parse(Frame(m)) == Some((m, []))
  {
    hide Frame, Parse;
    ShortFrameParses(m, []);
    assert Frame(m) + [] == Frame(m);
  }

  // ---------- The mutable endpoint ----------

  class PeerConn {
    const self: NodeId
    const version: byte
    var id: NodeId
    var handshakeStatus: int

    ghost function Abs(): Conn
      reads this
    {
      Conn(self, id, version, handshakeStatus)
    }

    constructor (self: NodeId, version: byte, id: NodeId)
      ensures Abs() == Conn(self, id, version, 0)
    {
      this.self, this.version, this.id, handshakeStatus := self, version, id, 0;
    }

    method ReadHelloOf(s: seq<byte>, mtype: byte) returns (r: ReadHello)
      ensures r == TakeHello(s, mtype)
    {
      var msg, pos := ReadMessage(s);
      if msg.None? {
        return ReadFailed;
      }
      if msg.value.mtype != mtype {
        return ReadNil;
      }
      var u := Unmarshal(msg.value, mtype);
      return if u.Got? then Read(u.hello) else ReadCrash;
    }

    /** serverHandshake: sets the peer's identifier only after all checks. */
    method ServerHandshake(s: seq<byte>, writes: bool) returns (r: Outcome)
      modifies this
      ensures r == Server(old(Abs()), s, writes)
      ensures Abs() == if r.Crashed? then old(Abs()) else r.conn
    {
      if handshakeStatus == 1 {
        return Ok(Conn(self, id, version, handshakeStatus), []);
      }
      var read := ReadHelloOf(s, TYPE_HELLO);
      match read
      case ReadFailed => return Failed(Conn(self, id, version, handshakeStatus), []);
      case ReadNil => return Crashed([]);
      case ReadCrash => return Crashed([]);
      case Read(hello) =>
        if hello.version != version {
          return Failed(Conn(self, id, version, handshakeStatus), []);
        }
        if hello.receiveId != self {
          return Failed(Conn(self, id, version, handshakeStatus), []);
        }
        id := hello.id;
        var reply := WriteMessage(version, TYPE_RE_HELLO, self + hello.id);
        if !writes {
          return Failed(Conn(self, id, version, handshakeStatus), []);
        }
        return Ok(Conn(self, id, version, handshakeStatus), reply);
    }

    /** clientHandshake: writes its hello, and marks the handshake as completed after all checks. */
    method ClientHandshake(s: seq<byte>, writes: bool) returns (r: Outcome)
      modifies this
      ensures r == Client(old(Abs()), s, writes)
      ensures Abs() == if r.Crashed? then old(Abs()) else r.conn
    {
      if handshakeStatus == 1 {
        return Ok(Conn(self, id, version, handshakeStatus), []);
      }
      var request := WriteMessage(version, TYPE_HELLO, self + id);
      if !writes {
        return Failed(Conn(self, id, version, handshakeStatus), []);
      }
      var read := ReadHelloOf(s, TYPE_RE_HELLO);
      match read
      case ReadFailed => return Failed(Conn(self, id, version, handshakeStatus), request);
      case ReadNil => return Crashed(request);
      case ReadCrash => return Crashed(request);
      case Read(hello) =>
        if hello.version != version {
          return Failed(Conn(self, id, version, handshakeStatus), request);
        }
        if hello.receiveId != self {
          return Failed(Conn(self, id, version, handshakeStatus), request);
        }
        handshakeStatus := 1;
        return Ok(Conn(self, id, version, handshakeStatus), request);
    }
  }
}
