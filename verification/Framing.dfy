/**
 Length-prefixed frames: encode and decode of src/net/protocol/Message.cpp, and the loop that
 reads them in src/net/server/sessions/PlainSession.cpp and src/net/client/Client.cpp.

 J is the type of JSON values.  Writing and parsing JSON text are parameters.
 */
module Framing {
  import opened NumberTheory
  import opened Primes
  import opened CoreUtils
  import opened Words
  import opened Results

  const TYPE_SIZE := 1
  const HEADER_SIZE := 5

  /** The server refuses larger bodies; the client takes any length that the header can say. */
  const SERVER_LIMIT := 1024 * 1024
  const CLIENT_LIMIT := 0xFFFF_FFFF

  datatype Message<J> = Message(kind: Byte, j: J)

  /** What surrounds the frames: dump and parse of JSON, whether the message callback returns or
   throws, and the largest body that is read. */
  datatype Peer<!J(!new)> = Peer(dump: J -> seq<Byte>, parse: seq<Byte> -> Option<J>, accepts: Message<J> -> bool, limit: nat) {
    ghost predicate RoundTrips() {
      forall j :: parse(dump(j)) == Some(j)
    }
  }

  // ---------------------------------------------------------------- encoding

  /** The type, the length of the body in four bytes, and the body. */
  function Encoded<J(!new)>(p: Peer<J>, m: Message<J>): seq<Byte> {
    var body := p.dump(m.j);
    [m.kind] + LowBytes(|body| % U32_SIZE, 4) + body
  }

  const U32_SIZE := 0x1_0000_0000

  /** The order of the four bytes of a word reversed. */
  function Swapped(len: nat): nat {
    len % 256 * 0x100_0000 + len / 256 % 256 * 0x1_0000 + len / 0x1_0000 % 256 * 256 + len / 0x100_0000 % 256
  }

  /** Swapping the bytes of the length and writing the result as a little-endian host keeps it, lowest byte
   first, puts the highest byte of the length first. */
  lemma SwapThenLittleEndian(len: nat)
    requires len < U32_SIZE
    ensures [Narrow(Swapped(len)), Narrow(ShiftBytes(Swapped(len), 1)), Narrow(ShiftBytes(Swapped(len), 2)), Narrow(ShiftBytes(Swapped(len), 3))]
            == LowBytes(len, 4)
  {
    var b0, b1, b2, b3 := len % 256, len / 256 % 256, len / 0x1_0000 % 256, len / 0x100_0000 % 256;
    var s := Swapped(len);
    SwappedBytes(len);
    SameNarrow(s, len / 0x100_0000);
    SameNarrow(ShiftBytes(s, 1), len / 0x1_0000);
    SameNarrow(ShiftBytes(s, 2), len / 256);
    SameNarrow(ShiftBytes(s, 3), len);
    LowFourBytes(len);
  }

  lemma SwappedBytes(len: nat)
    requires len < U32_SIZE
    ensures var s := Swapped(len);
            s % 256 == len / 0x100_0000 % 256 && ShiftBytes(s, 1) % 256 == len / 0x1_0000 % 256
            && ShiftBytes(s, 2) % 256 == len / 256 % 256 && ShiftBytes(s, 3) % 256 == len % 256
  {
    var s := Swapped(len);
    var s1, s2 := len % 256 * 0x1_0000 + len / 256 % 256 * 256 + len / 0x1_0000 % 256, len % 256 * 256 + len / 256 % 256;
    assert s == s1 * 256 + len / 0x100_0000 % 256;
    assert ShiftBytes(s, 0) == s;
    assert ShiftBytes(s, 1) == s1;
    assert s1 == s2 * 256 + len / 0x1_0000 % 256;
    assert ShiftBytes(s, 2) == s2;
    assert ShiftBytes(s, 3) == len % 256;
  }

  lemma SameNarrow(x: nat, y: nat)
    requires x % 256 == y % 256
    ensures Narrow(x) == Narrow(y)
  {
  }

  lemma LowFourBytes(len: nat)
    ensures LowBytes(len, 4) == [Narrow(len / 0x100_0000), Narrow(len / 0x1_0000), Narrow(len / 256), Narrow(len)]
  {
    assert len / 256 / 256 == len / 0x1_0000 && len / 0x1_0000 / 256 == len / 0x100_0000;
    assert LowBytes(len / 0x100_0000, 1) == LowBytes(len / 0x100_0000 / 256, 0) + [Narrow(len / 0x100_0000)];
    assert LowBytes(len / 0x1_0000, 2) == LowBytes(len / 0x100_0000, 1) + [Narrow(len / 0x1_0000)];
    assert LowBytes(len / 256, 3) == LowBytes(len / 0x1_0000, 2) + [Narrow(len / 256)];
  }

  method Encode<J(!new)>(p: Peer<J>, m: Message<J>) returns (out: seq<Byte>)
    ensures out == Encoded(p, m)
  {
    var body := p.dump(m.j);
    var len := |body| % U32_SIZE;
    var lenBE := Swapped(len);
    out := [m.kind];
    for i := 0 to 4
      invariant out == [m.kind] + seq(i, k requires 0 <= k < i => Narrow(ShiftBytes(lenBE, k)))
    {
      out := out + [Narrow(ShiftBytes(lenBE, i))];
    }
    SwapThenLittleEndian(len);
    out := out + body;
  }

  // ---------------------------------------------------------------- reading

  /** What the reader is waiting for. */
  datatype Phase = Header | Body(kind: Byte, size: nat) | Closed

  /** The phase and the bytes that have arrived for it. */
  datatype Reader = Reader(phase: Phase, got: seq<Byte>) {
    predicate Valid() {
      match phase
      case Header => |got| < HEADER_SIZE
      case Body(_, size) => |got| < size
      case Closed => got == []
    }

    function Need(): nat
      requires Valid()
    {
      match phase
      case Header => HEADER_SIZE - |got|
      case Body(_, size) => size - |got|
      case Closed => 0
    }
  }

  const START := Reader(Header, [])
  const CLOSED := Reader(Closed, [])

  /** A whole header: too large a body closes the session, and so does an empty one, which decode refuses. */
  function AfterHeader<J(!new)>(p: Peer<J>, header: seq<Byte>): (r: Reader)
    requires |header| == HEADER_SIZE
    ensures r.Valid()
  {
    var size := BigEndian(header[TYPE_SIZE..]);
    if size > p.limit || size == 0 then CLOSED else Reader(Body(header[0], size), [])
  }

  /** A whole body: it is parsed and handed over, unless the parser or the callback throws. */
  function AfterBody<J(!new)>(p: Peer<J>, kind: Byte, body: seq<Byte>): (r: (Reader, seq<Message<J>>))
    ensures r.0.Valid()
  {
    match p.parse(body)
    case None => (CLOSED, [])
    case Some(j) => (if p.accepts(Message(kind, j)) then START else CLOSED, [Message(kind, j)])
  }

  /** All the bytes that the reader was waiting for are there. */
  function Completed<J(!new)>(p: Peer<J>, r: Reader, rest: seq<Byte>): (s: (Reader, seq<Message<J>>))
    requires r.Valid() && r.phase != Closed && |rest| == r.Need()
    ensures s.0.Valid()
  {
    match r.phase
    case Header => (AfterHeader(p, r.got + rest), [])
    case Body(kind, _) => AfterBody(p, kind, r.got + rest)
  }

  /** One more byte. */
  function Step<J(!new)>(p: Peer<J>, r: Reader, b: Byte): (s: (Reader, seq<Message<J>>))
    requires r.Valid()
    ensures s.0.Valid()
  {
    if r.phase == Closed then (r, [])
    else if r.Need() == 1 then Completed(p, r, [b])
    else (Reader(r.phase, r.got + [b]), [])
  }

  /** The state of the reader and the messages handed over, after some bytes. */
  function Read<J(!new)>(p: Peer<J>, r: Reader, bytes: seq<Byte>): (s: (Reader, seq<Message<J>>))
    requires r.Valid()
    ensures s.0.Valid()
    decreases |bytes|
  {
    if bytes == [] then (r, [])
    else
      var first := Step(p, r, bytes[0]);
      var rest := Read(p, first.0, bytes[1..]);
      (rest.0, first.1 + rest.1)
  }

  /** How the bytes are cut into pieces on their way makes no difference. */
  lemma {:induction false} ReadInPieces<J(!new)>(p: Peer<J>, r: Reader, a: seq<Byte>, b: seq<Byte>)
    requires r.Valid()
    ensures Read(p, r, a + b) == (Read(p, Read(p, r, a).0, b).0, Read(p, r, a).1 + Read(p, Read(p, r, a).0, b).1)
    decreases |a|
  {
    hide Step;
    if a == [] {
      assert a + b == b;
      NothingMore(Read(p, r, b).1);
    } else {
      var first := Step(p, r, a[0]);
      ReadInPieces(p, first.0, a[1..], b);
      assert (a + b)[1..] == a[1..] + b;
      var second := Read(p, first.0, a[1..]);
      AppendAssociates(first.1, second.1, Read(p, second.0, b).1);
    }
  }

  lemma AppendAssociates<T>(s: seq<T>, t: seq<T>, u: seq<T>)
    ensures s + (t + u) == s + t + u
  {
  }

  lemma NothingMore<T>(s: seq<T>)
    ensures [] + s == s && s + [] == s
  {
  }

  /** Fewer bytes than the reader waits for only accumulate. */
  lemma {:induction false} ReadPart<J(!new)>(p: Peer<J>, r: Reader, bytes: seq<Byte>)
    requires r.Valid() && r.phase != Closed && |bytes| < r.Need()
    ensures Read(p, r, bytes) == (Reader(r.phase, r.got + bytes), [])
    decreases |bytes|
  {
    if bytes == [] {
      assert r.got + bytes == r.got;
    } else {
      ReadPart(p, Reader(r.phase, r.got + [bytes[0]]), bytes[1..]);
      assert r.got + [bytes[0]] + bytes[1..] == r.got + bytes;
      NothingMore<Message<J>>([]);
    }
  }

  /** As many bytes as the reader waits for complete its phase. */
  lemma ReadWhole<J(!new)>(p: Peer<J>, r: Reader, bytes: seq<Byte>)
    requires r.Valid() && r.phase != Closed && |bytes| == r.Need()
    ensures Read(p, r, bytes) == Completed(p, r, bytes)
  {
    hide Completed;
    var n := |bytes| - 1;
    ReadPart(p, r, bytes[..n]);
    ReadInPieces(p, r, bytes[..n], [bytes[n]]);
    assert bytes[..n] + [bytes[n]] == bytes;
    var before := Reader(r.phase, r.got + bytes[..n]);
    OneByte(p, before, bytes[n]);
    SameCompletion(p, r, bytes[..n], bytes[n]);
    NothingMore(Completed(p, r, bytes).1);
  }

  lemma OneByte<J(!new)>(p: Peer<J>, r: Reader, b: Byte)
    requires r.Valid() && r.phase != Closed && r.Need() == 1
    ensures Read(p, r, [b]) == Completed(p, r, [b])
  {
    hide Completed;
    var s := Step(p, r, b);
    assert Read(p, s.0, []) == (s.0, []);
    assert [b][1..] == [];
    assert s.1 + [] == s.1;
  }

  lemma SameCompletion<J(!new)>(p: Peer<J>, r: Reader, a: seq<Byte>, b: Byte)
    requires r.Valid() && r.phase != Closed && |a| + 1 == r.Need()
    ensures Completed(p, Reader(r.phase, r.got + a), [b]) == Completed(p, r, a + [b])
  {
    assert r.got + a + [b] == r.got + (a + [b]);
  }

  lemma {:induction false} ClosedStaysClosed<J(!new)>(p: Peer<J>, bytes: seq<Byte>)
    ensures Read(p, CLOSED, bytes) == (CLOSED, [])
    decreases |bytes|
  {
    if bytes != [] {
      ClosedStaysClosed(p, bytes[1..]);
      NothingMore<Message<J>>([]);
    }
  }

  // ---------------------------------------------------------------- whole streams

  /** A body whose length the header can say and the reader takes. */
  predicate InRange<J(!new)>(p: Peer<J>, m: Message<J>) {
    1 <= |p.dump(m.j)| <= p.limit
  }

  lemma HeaderSays<J(!new)>(p: Peer<J>, m: Message<J>)
    requires |p.dump(m.j)| < U32_SIZE
    ensures |Encoded(p, m)| == HEADER_SIZE + |p.dump(m.j)|
    ensures Encoded(p, m)[0] == m.kind && Encoded(p, m)[HEADER_SIZE..] == p.dump(m.j)
    ensures BigEndian(Encoded(p, m)[..HEADER_SIZE][TYPE_SIZE..]) == |p.dump(m.j)|
  {
    var len := |p.dump(m.j)|;
    ModSmall(len, U32_SIZE);
    assert Pow(256, 4) == U32_SIZE;
    BigEndianLowBytes(len, 4);
    assert Encoded(p, m)[..HEADER_SIZE][TYPE_SIZE..] == LowBytes(len, 4);
  }

  /** One frame, from one frame boundary: handed over if its body is in range, refused otherwise. */
  lemma ReadFrame<J(!new)>(p: Peer<J>, m: Message<J>)
    requires p.RoundTrips() && |p.dump(m.j)| < U32_SIZE
    ensures Read(p, START, Encoded(p, m)) ==
            if InRange(p, m) then (if p.accepts(m) then START else CLOSED, [m]) else (CLOSED, [])
  {
    HeaderSays(p, m);
    hide Encoded;
    var frame := Encoded(p, m);
    var header, body := frame[..HEADER_SIZE], frame[HEADER_SIZE..];
    assert header + body == frame;
    assert [] + header == header && [] + body == body;
    ReadInPieces(p, START, header, body);
    ReadWhole(p, START, header);
    hide Read;
    if InRange(p, m) {
      ReadWhole(p, Reader(Body(m.kind, |body|), []), body);
      NothingMore([m]);
    } else {
      ClosedStaysClosed(p, body);
      NothingMore<Message<J>>([]);
    }
  }

  function Stream<J(!new)>(p: Peer<J>, messages: seq<Message<J>>): seq<Byte> {
    if messages == [] then [] else Encoded(p, messages[0]) + Stream(p, messages[1..])
  }

  /** How many messages of a list are handed over: up to the first one that is refused, or the first one that the callback refuses. */
  function HandedOver<J(!new)>(p: Peer<J>, messages: seq<Message<J>>): (n: nat)
    ensures n <= |messages|
  {
    if messages == [] || !InRange(p, messages[0]) then 0
    else if !p.accepts(messages[0]) then 1
    else 1 + HandedOver(p, messages[1..])
  }

  predicate AllGood<J(!new)>(p: Peer<J>, messages: seq<Message<J>>) {
    forall i :: 0 <= i < |messages| ==> InRange(p, messages[i]) && p.accepts(messages[i])
  }

  /** Reading any list of encoded messages hands over exactly the messages up to the first bad one, in order,
   and ends on a frame boundary if and only if there is no bad one. */
  lemma {:induction false} ReadStream<J(!new)>(p: Peer<J>, messages: seq<Message<J>>)
    requires p.RoundTrips() && forall i :: 0 <= i < |messages| ==> |p.dump(messages[i].j)| < U32_SIZE
    ensures Read(p, START, Stream(p, messages)).1 == messages[..HandedOver(p, messages)]
    ensures Read(p, START, Stream(p, messages)).0 == if AllGood(p, messages) then START else CLOSED
    ensures AllGood(p, messages) ==> HandedOver(p, messages) == |messages|
  {
    hide Read, Encoded, InRange;
    if messages == [] {
      ReadNothingAt(p, START);
    } else {
      var m, rest := messages[0], messages[1..];
      ReadFrame(p, m);
      ReadInPieces(p, START, Encoded(p, m), Stream(p, rest));
      ClosedStaysClosed(p, Stream(p, rest));
      ReadStream(p, rest);
      AllGoodTail(p, messages);
      assert messages == [m] + rest;
    }
  }

  lemma AllGoodTail<J(!new)>(p: Peer<J>, messages: seq<Message<J>>)
    requires messages != []
    ensures AllGood(p, messages) <==> InRange(p, messages[0]) && p.accepts(messages[0]) && AllGood(p, messages[1..])
  {
    if InRange(p, messages[0]) && p.accepts(messages[0]) && AllGood(p, messages[1..]) {
      forall i | 0 <= i < |messages| ensures InRange(p, messages[i]) && p.accepts(messages[i]) {
        if i > 0 { assert messages[i] == messages[1..][i - 1]; }
      }
    }
  }

  /** A reader over messages that it takes delivers exactly that list, however the bytes are cut, and at
   every cut it has delivered a first part of it. */
  lemma ReadsWhatWasSent<J(!new)>(p: Peer<J>, messages: seq<Message<J>>, a: seq<Byte>, b: seq<Byte>)
    requires p.RoundTrips() && p.limit <= CLIENT_LIMIT && AllGood(p, messages)
    requires Stream(p, messages) == a + b
    ensures var first := Read(p, START, a);
            var second := Read(p, first.0, b);
            first.1 <= messages && first.1 + second.1 == messages && second.0 == START
  {
    assert forall i :: 0 <= i < |messages| ==> InRange(p, messages[i]);
    hide Read, Stream, HandedOver, AllGood;
    ReadStream(p, messages);
    ReadInPieces(p, START, a, b);
    assert messages[..|messages|] == messages;
  }

  /** For the server those are the messages with bodies of 1 to 2^20 bytes. */
  lemma ServerReadsWhatWasSent<J(!new)>(p: Peer<J>, messages: seq<Message<J>>, a: seq<Byte>, b: seq<Byte>)
    requires p.RoundTrips() && p.limit == SERVER_LIMIT
    requires forall i :: 0 <= i < |messages| ==> 1 <= |p.dump(messages[i].j)| <= 0x10_0000 && p.accepts(messages[i])
    requires Stream(p, messages) == a + b
    ensures var first := Read(p, START, a);
            var second := Read(p, first.0, b);
            first.1 <= messages && first.1 + second.1 == messages && second.0 == START
  {
    assert AllGood(p, messages);
    hide Read, Stream, AllGood;
    ReadsWhatWasSent(p, messages, a, b);
  }

  // ---------------------------------------------------------------- the session

  /** The reading half of a session: buffer holds the header, once it is there, and what has arrived of
   the current read; a payload size means that the body is being read. */
  class FrameReader<J(!new)> {
    const p: Peer<J>
    var buffer: seq<Byte>
    var payloadSize: Option<nat>
    var isClosed: bool
    var delivered: seq<Message<J>>

    ghost predicate Valid()
      reads this
    {
      !isClosed ==>
        if payloadSize.None? then |buffer| < HEADER_SIZE
        else HEADER_SIZE <= |buffer| < HEADER_SIZE + payloadSize.value
    }

    ghost function View(): (r: Reader)
      requires Valid()
      reads this
      ensures r.Valid()
    {
      if isClosed then CLOSED
      else if payloadSize.None? then Reader(Header, buffer)
      else Reader(Body(buffer[0], payloadSize.value), buffer[HEADER_SIZE..])
    }

    constructor (p: Peer<J>)
      ensures this.p == p && Valid() && View() == START && delivered == []
    {
      this.p := p;
      buffer, payloadSize, isClosed, delivered := [], None, false, [];
    }

    method ReadHeader()
      modifies this`buffer, this`payloadSize
      ensures Valid() && (!isClosed ==> View() == START)
    {
      buffer, payloadSize := [], None;
    }

    method OnHeaderRead()
      requires |buffer| == HEADER_SIZE && !isClosed
      modifies this`payloadSize, this`isClosed
      ensures Valid() && View() == AfterHeader(p, buffer)
    {
      var size := BigEndian(buffer[TYPE_SIZE..]);
      if size > p.limit { isClosed := true; return; }
      payloadSize := Some(size);
      if size == 0 { isClosed := true; }
    }

    method OnBodyRead()
      requires payloadSize.Some? && |buffer| == HEADER_SIZE + payloadSize.value && !isClosed
      modifies this
      ensures Valid()
      ensures var s := AfterBody(p, old(buffer)[0], old(buffer)[HEADER_SIZE..]);
              View() == s.0 && delivered == old(delivered) + s.1
    {
      var payload := buffer[HEADER_SIZE..];
      match p.parse(payload)
      case None =>
        isClosed := true;
      case Some(j) =>
        var m := Message(buffer[0], j);
        delivered := delivered + [m];
        if p.accepts(m) {
          ReadHeader();
        } else {
          isClosed := true;
        }
    }

    /** Some bytes arrive; each read takes what it still wants of them. */
    method Receive(bytes: seq<Byte>)
      requires Valid()
      modifies this
      ensures Valid()
      ensures View() == Read(p, old(View()), bytes).0
      ensures delivered == old(delivered) + Read(p, old(View()), bytes).1
    {
      hide Read, Completed, AfterHeader, AfterBody;
      var rest := bytes;
      while rest != [] && !isClosed
        invariant Valid()
        invariant Read(p, old(View()), bytes).0 == Read(p, View(), rest).0
        invariant old(delivered) + Read(p, old(View()), bytes).1 == delivered + Read(p, View(), rest).1
        decreases |rest|
      {
        var want := (if payloadSize.None? then HEADER_SIZE else HEADER_SIZE + payloadSize.value) - |buffer|;
        var k := if want <= |rest| then want else |rest|;
        ReadInPieces(p, View(), rest[..k], rest[k..]);
        assert rest[..k] + rest[k..] == rest;
        Take(rest[..k]);
        rest := rest[k..];
      }
      if rest != [] { ClosedStaysClosed(p, rest); } else { ReadNothingAt(p, View()); }
    }

    /** At most the bytes that the current read still wants. */
    method Take(bytes: seq<Byte>)
      requires Valid() && !isClosed && 0 < |bytes| <= View().Need()
      modifies this
      ensures Valid()
      ensures View() == Read(p, old(View()), bytes).0
      ensures delivered == old(delivered) + Read(p, old(View()), bytes).1
    {
      hide Read, AfterHeader, AfterBody;
      ghost var before := View();
      if |bytes| < before.Need() { ReadPart(p, before, bytes); } else { ReadWhole(p, before, bytes); }
      buffer := buffer + bytes;
      assert payloadSize.Some? ==> buffer[HEADER_SIZE..] == before.got + bytes;
      if payloadSize.None? {
        if |buffer| == HEADER_SIZE { OnHeaderRead(); }
      } else {
        if |buffer| == HEADER_SIZE + payloadSize.value { OnBodyRead(); }
      }
    }
  }

  lemma ReadNothingAt<J(!new)>(p: Peer<J>, r: Reader)
    requires r.Valid()
    ensures Read(p, r, []) == (r, [])
  {
  }
}
