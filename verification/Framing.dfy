/**
 Framing of memcached binary protocol responses: MemcachedResponse of src/packetutils.h and
 the load/release loop around it. The read rope is the sequence of bytes it holds.
 */
module Framing {
  import opened Common

  type Byte = x: int | 0 <= x < 256

  const HEADER_SIZE := 24
  const MAGIC_RES := 0x81
  const MAGIC_ARES := 0x18          // a response with framing extras

  /** A number in network byte order. */
  function BigEndian(s: seq<Byte>): (n: nat) {
    if s == [] then 0 else 256 * BigEndian(s[..|s| - 1]) + s[|s| - 1] as int
  }

  lemma BigEndian2(s: seq<Byte>)
    requires |s| == 2
    ensures BigEndian(s) == 256 * (s[0] as int) + s[1] as int
  {
    assert s[..1][..0] == [] && BigEndian(s[..1]) == s[0];
  }

  lemma BigEndian4(s: seq<Byte>)
    requires |s| == 4
    ensures BigEndian(s) == 0x1_0000 * BigEndian(s[..2]) + BigEndian(s[2..]) < UINT32
  {
    BigEndian2(s[..2]);
    BigEndian2(s[2..]);
    assert s[..3][..2] == s[..2] && BigEndian(s[..3]) == 256 * BigEndian(s[..2]) + s[2] as int;
  }

  /** A received header with its body; the header has 24 bytes. */
  datatype Packet = Packet(header: seq<Byte>, body: seq<Byte>)

  function BodyLen(h: seq<Byte>): (n: nat)
    requires |h| >= HEADER_SIZE
    ensures n < UINT32
  {
    BigEndian4(h[8..12]);
    BigEndian(h[8..12])
  }

  // ---------------------------------------------------------------- one packet

  datatype Loaded = NeedMore(required: nat) | Whole(packet: Packet) | Abort

  /** MemcachedResponse::load followed by release; `wanted` is a 32-bit unsigned. */
  function Load(buf: seq<Byte>): Loaded {
    if |buf| < HEADER_SIZE then NeedMore(HEADER_SIZE)
    else if BodyLen(buf) == 0 then Whole(Packet(buf[..HEADER_SIZE], []))
    else
      var wanted := (HEADER_SIZE + BodyLen(buf)) % UINT32;
      if |buf| < wanted then NeedMore(wanted)
      else if |buf| - HEADER_SIZE < BodyLen(buf) then Abort      // the assertion of rdb_get_consolidated
      else Whole(Packet(buf[..HEADER_SIZE], buf[HEADER_SIZE..HEADER_SIZE + BodyLen(buf)]))
  }

  /** A body length whose packet size does not fit 32 bits. */
  predicate Oversize(buf: seq<Byte>) {
    |buf| >= HEADER_SIZE && HEADER_SIZE + BodyLen(buf) >= UINT32
  }

  /** Loading fails for good exactly on a body length that makes the packet size wrap around. */
  lemma AbortsIff(buf: seq<Byte>)
    requires |buf| < UINT32
    ensures Load(buf) == Abort <==> Oversize(buf)
  {
  }

  /** A header alone with body length 0xfffffff0 is such a case. */
  lemma WrappedSize()
    ensures var h := seq(8, _ => 0) + [255, 255, 255, 240] + seq(12, _ => 0);
      |h| == HEADER_SIZE && BodyLen(h) == 0xffff_fff0 && Load(h) == Abort
  {
    var h: seq<Byte> := seq(8, _ => 0) + [255, 255, 255, 240] + seq(12, _ => 0);
    assert h[8..12] == [255, 255, 255, 240];
    BigEndian4(h[8..12]);
    BigEndian2(h[8..12][..2]);
    BigEndian2(h[8..12][2..]);
  }

  /**
   What it asks for is exactly what is missing: with fewer bytes it asks again for the same, with that many it
   succeeds.
   */
  lemma {:induction false} AsksForEnough(buf: seq<Byte>, more: seq<Byte>)
    requires Load(buf).NeedMore? && |buf| >= HEADER_SIZE && !Oversize(buf)
    ensures if |buf| + |more| < Load(buf).required then Load(buf + more) == Load(buf) else Load(buf + more).Whole?
  {
    SameHeader(buf, more);
  }

  lemma SameHeader(buf: seq<Byte>, more: seq<Byte>)
    requires |buf| >= HEADER_SIZE
    ensures BodyLen(buf + more) == BodyLen(buf) && (buf + more)[..HEADER_SIZE] == buf[..HEADER_SIZE]
  {
    assert (buf + more)[8..12] == buf[8..12];
  }

  // ---------------------------------------------------------------- a stream

  datatype Frames = Frames(packets: seq<Packet>, rest: seq<Byte>, dead: bool)

  /** The packets of a byte stream, without regard to how it arrives. */
  function Split(s: seq<Byte>): (r: Frames)
    ensures |r.rest| <= |s|
  {
    if |s| < HEADER_SIZE then Frames([], s, false)
    else if Oversize(s) then Frames([], s, true)
    else if |s| < HEADER_SIZE + BodyLen(s) then Frames([], s, false)
    else
      var n := HEADER_SIZE + BodyLen(s);
      Onto(Packet(s[..HEADER_SIZE], s[HEADER_SIZE..n]), Split(s[n..]))
  }

  function Onto(p: Packet, f: Frames): Frames {
    f.(packets := [p] + f.packets)
  }

  function Behind(ps: seq<Packet>, f: Frames): Frames {
    f.(packets := ps + f.packets)
  }

  /** Bytes that arrive later only add to what was already read. */
  lemma {:induction false} SplitMore(a: seq<Byte>, b: seq<Byte>)
    ensures !Split(a).dead ==> Split(a + b) == Behind(Split(a).packets, Split(Split(a).rest + b))
    ensures Split(a).dead ==> Split(a + b).dead && Split(a + b).packets == Split(a).packets
  {
    hide BodyLen;
    assert Behind([], Split(a + b)) == Split(a + b);
    if |a| >= HEADER_SIZE {
      SameHeader(a, b);
      var n := HEADER_SIZE + BodyLen(a);
      if !Oversize(a) && n <= |a| {
        SplitMore(a[n..], b);
        SplitHead(a, b);
        OntoBehind(Packet(a[..HEADER_SIZE], a[HEADER_SIZE..n]), Split(a[n..]).packets, Split(Split(a[n..]).rest + b));
      }
    }
  }

  lemma SplitHead(a: seq<Byte>, b: seq<Byte>)
    requires |a| >= HEADER_SIZE && !Oversize(a) && HEADER_SIZE + BodyLen(a) <= |a|
    ensures var n := HEADER_SIZE + BodyLen(a);
            Split(a + b) == Onto(Packet(a[..HEADER_SIZE], a[HEADER_SIZE..n]), Split(a[n..] + b))
  {
    hide BodyLen;
    SameHeader(a, b);
    var n := HEADER_SIZE + BodyLen(a);
    assert (a + b)[n..] == a[n..] + b && (a + b)[HEADER_SIZE..n] == a[HEADER_SIZE..n];
  }

  lemma OntoBehind(p: Packet, ps: seq<Packet>, f: Frames)
    ensures Onto(p, Behind(ps, f)) == Behind([p] + ps, f)
  {
    assert [p] + (ps + f.packets) == [p] + ps + f.packets;
  }

  /** Reading a stream chunk by chunk, keeping what is incomplete. */
  function Feed(f: Frames, chunks: seq<seq<Byte>>): Frames
    decreases |chunks|
  {
    if f.dead || chunks == [] then f
    else Feed(Behind(f.packets, Split(f.rest + chunks[0])), chunks[1..])
  }

  function Concat(chunks: seq<seq<Byte>>): seq<Byte> {
    if chunks == [] then [] else chunks[0] + Concat(chunks[1..])
  }

  /** Framing does not depend on how the stream is cut into chunks. */
  lemma {:induction false} ChunkingIrrelevant(chunks: seq<seq<Byte>>)
    ensures var whole, fed := Split(Concat(chunks)), Feed(Frames([], [], false), chunks);
            && fed.packets == whole.packets && fed.dead == whole.dead && (!fed.dead ==> fed.rest == whole.rest)
  {
    FeedIsSplit([], [], chunks);
    assert [] + Concat(chunks) == Concat(chunks);
    assert Behind([], Split(Concat(chunks))) == Split(Concat(chunks));
  }

  lemma {:induction false} FeedIsSplit(ps: seq<Packet>, rest: seq<Byte>, chunks: seq<seq<Byte>>)
    requires Split(rest) == Frames([], rest, false)
    ensures var whole, fed := Behind(ps, Split(rest + Concat(chunks))), Feed(Frames(ps, rest, false), chunks);
            && fed.packets == whole.packets && fed.dead == whole.dead && (!fed.dead ==> fed.rest == whole.rest)
    decreases |chunks|
  {
    hide Split;
    if chunks == [] {
      assert rest + [] == rest && ps + [] == ps;
    } else {
      var f, tail := Split(rest + chunks[0]), Concat(chunks[1..]);
      SplitMore(rest + chunks[0], tail);
      assert rest + Concat(chunks) == rest + chunks[0] + tail;
      if !f.dead {
        RestIsShort(rest + chunks[0]);
        FeedIsSplit(ps + f.packets, f.rest, chunks[1..]);
        assert ps + (f.packets + Split(f.rest + tail).packets) == ps + f.packets + Split(f.rest + tail).packets;
      }
    }
  }

  /** What is left over holds no further packet. */
  lemma {:induction false} RestIsShort(s: seq<Byte>)
    requires !Split(s).dead
    ensures Split(Split(s).rest) == Frames([], Split(s).rest, false)
  {
    if |s| >= HEADER_SIZE && |s| >= HEADER_SIZE + BodyLen(s) {
      RestIsShort(s[HEADER_SIZE + BodyLen(s)..]);
    }
  }

  // ---------------------------------------------------------------- the fields of a packet

  ghost predicate WellSized(p: Packet) {
    |p.header| == HEADER_SIZE && |p.body| == BodyLen(p.header)
  }

  /** keylen(): the raw two bytes are read on a little-endian host. */
  function KeyLen(h: seq<Byte>): nat
    requires |h| == HEADER_SIZE
  {
    if h[0] == MAGIC_ARES then h[3] else BigEndian(h[2..4])
  }

  function ExtLen(h: seq<Byte>): nat
    requires |h| == HEADER_SIZE
  {
    h[4]
  }

  function FfExtLen(h: seq<Byte>): nat
    requires |h| == HEADER_SIZE
  {
    if h[0] == MAGIC_ARES then h[2] else 0
  }

  /** vallen(), a 32-bit unsigned difference. */
  function ValLen(h: seq<Byte>): (n: nat)
    requires |h| == HEADER_SIZE
    ensures n < UINT32
  {
    (BodyLen(h) - (KeyLen(h) + ExtLen(h) + FfExtLen(h))) % UINT32
  }

  datatype Fields = Fields(ffext: seq<Byte>, ext: seq<Byte>, key: seq<Byte>, value: seq<Byte>)

  /** Whether the four ranges ffext(), ext(), key() and value() with their lengths lie in the body. */
  ghost predicate InBody(p: Packet)
    requires WellSized(p)
  {
    KeyLen(p.header) + ExtLen(p.header) + FfExtLen(p.header) + ValLen(p.header) <= |p.body|
  }

  function FieldsOf(p: Packet): Fields
    requires WellSized(p) && InBody(p)
  {
    var a := FfExtLen(p.header);
    var b := a + ExtLen(p.header);
    var c := b + KeyLen(p.header);
    Fields(p.body[..a], p.body[a..b], p.body[b..c], p.body[c..c + ValLen(p.header)])
  }

  /** The fields lie in the body exactly when the lengths before the value fit it; then they are the body, in order. */
  lemma FieldsPartitionIff(p: Packet)
    requires WellSized(p)
    ensures InBody(p) <==> KeyLen(p.header) + ExtLen(p.header) + FfExtLen(p.header) <= BodyLen(p.header)
    ensures InBody(p) ==> var f := FieldsOf(p); f.ffext + f.ext + f.key + f.value == p.body
  {
    var n := KeyLen(p.header) + ExtLen(p.header) + FfExtLen(p.header);
    if n <= BodyLen(p.header) {
      assert ValLen(p.header) == BodyLen(p.header) - n;
    } else {
      KeyLenBound(p.header);
      assert ValLen(p.header) == BodyLen(p.header) - n + UINT32;
    }
  }

  lemma KeyLenBound(h: seq<Byte>)
    requires |h| == HEADER_SIZE
    ensures KeyLen(h) < 0x1_0000
  {
    BigEndian2(h[2..4]);
  }

  // ---------------------------------------------------------------- encoding

  /** A response as a server composes it. */
  datatype Message = Message(ares: bool, opcode: Byte, datatype_: Byte, status: nat, token: seq<Byte>, cas: seq<Byte>,
    fields: Fields)

  ghost predicate Encodable(m: Message) {
    var f := m.fields;
    && m.status < 0x1_0000 && |m.token| == 4 && |m.cas| == 8 && |f.ext| < 256
    && (if m.ares then |f.ffext| < 256 && |f.key| < 256 else f.ffext == [] && |f.key| < 0x1_0000)
    && HEADER_SIZE + |Body(f)| < UINT32
  }

  function Body(f: Fields): seq<Byte> {
    f.ffext + f.ext + f.key + f.value
  }

  function Bytes2(n: nat): (r: seq<Byte>)
    requires n < 0x1_0000
    ensures |r| == 2 && BigEndian(r) == n
  {
    var r: seq<Byte> := [n / 256, n % 256];
    BigEndian2(r);
    r
  }

  function Bytes4(n: nat): (r: seq<Byte>)
    requires n < UINT32
    ensures |r| == 4 && BigEndian(r) == n
  {
    var r := Bytes2(n / 0x1_0000) + Bytes2(n % 0x1_0000);
    BigEndian4(r);
    r
  }

  ghost function Header(m: Message): (h: seq<Byte>)
    requires Encodable(m)
    ensures |h| == HEADER_SIZE
  {
    var f := m.fields;
    [if m.ares then MAGIC_ARES else MAGIC_RES, m.opcode]
    + (if m.ares then [|f.ffext|, |f.key|] else Bytes2(|f.key|))
    + [|f.ext|, m.datatype_] + Bytes2(m.status) + Bytes4(|Body(f)|) + m.token + m.cas
  }

  ghost function Encode(m: Message): seq<Byte>
    requires Encodable(m)
  {
    Header(m) + Body(m.fields)
  }

  ghost function Sent(m: Message): (p: Packet)
    requires Encodable(m)
  {
    Packet(Header(m), Body(m.fields))
  }

  lemma HeaderLengths(m: Message)
    requires Encodable(m)
    ensures var h, f := Header(m), m.fields;
            BodyLen(h) == |Body(f)| && KeyLen(h) == |f.key| && ExtLen(h) == |f.ext| && FfExtLen(h) == |f.ffext|
  {
    hide BigEndian;
    var h, f := Header(m), m.fields;
    assert h[8..12] == Bytes4(|Body(f)|);
    if !m.ares {
      assert h[2..4] == Bytes2(|f.key|);
    }
  }

  /** The accessors give back the fields the packet was composed of. */
  lemma FieldsDecoded(m: Message)
    requires Encodable(m)
    ensures WellSized(Sent(m)) && InBody(Sent(m)) && FieldsOf(Sent(m)) == m.fields
  {
    hide Header, BodyLen, KeyLen, ExtLen, FfExtLen;
    HeaderLengths(m);
    FieldsPartitionIff(Sent(m));
    var f, b := m.fields, Body(m.fields);
    var i := |f.ffext|;
    var j := i + |f.ext|;
    var k := j + |f.key|;
    assert b[..i] == f.ffext && b[i..j] == f.ext && b[j..k] == f.key && b[k..] == f.value;
    assert ValLen(Header(m)) == |f.value|;
  }

  ghost function EncodeAll(ms: seq<Message>): seq<Byte>
    requires forall m :: m in ms ==> Encodable(m)
  {
    if ms == [] then [] else Encode(ms[0]) + EncodeAll(ms[1..])
  }

  ghost function SentAll(ms: seq<Message>): (r: seq<Packet>)
    requires forall m :: m in ms ==> Encodable(m)
    ensures |r| == |ms| && forall i :: 0 <= i < |ms| ==> r[i] == Sent(ms[i])
  {
    seq(|ms|, i requires 0 <= i < |ms| => Sent(ms[i]))
  }

  /** A stream of encoded messages splits into exactly these messages. */
  lemma {:induction false} SplitEncoded(ms: seq<Message>)
    requires forall m :: m in ms ==> Encodable(m)
    ensures Split(EncodeAll(ms)) == Frames(SentAll(ms), [], false)
  {
    hide Header, BodyLen, KeyLen, ExtLen, FfExtLen;
    if ms != [] {
      var m, tail := ms[0], EncodeAll(ms[1..]);
      var s := EncodeAll(ms);
      SplitEncoded(ms[1..]);
      HeaderLengths(m);
      assert s == Header(m) + (Body(m.fields) + tail);
      SameHeader(Header(m), Body(m.fields) + tail);
      var n := HEADER_SIZE + |Body(m.fields)|;
      assert s[HEADER_SIZE..n] == Body(m.fields) && s[n..] == tail;
      assert SentAll(ms) == [Sent(m)] + SentAll(ms[1..]);
    }
  }

  /** Whatever chunks the encoded messages arrive in, exactly these messages are read. */
  lemma DeliveredInAnyChunks(ms: seq<Message>, chunks: seq<seq<Byte>>)
    requires (forall m :: m in ms ==> Encodable(m)) && Concat(chunks) == EncodeAll(ms)
    ensures Feed(Frames([], [], false), chunks) == Frames(SentAll(ms), [], false)
  {
    SplitEncoded(ms);
    ChunkingIrrelevant(chunks);
  }

  // ---------------------------------------------------------------- the loop

  class Rope {
    var bytes: seq<Byte>

    constructor ()
      ensures bytes == []
    {
      bytes := [];
    }

    /** rdb_copyread */
    method CopyRead(n: nat) returns (r: seq<Byte>)
      requires n <= |bytes|
      ensures r == bytes[..n]
    {
      r := bytes[..n];
    }

    /** rdb_consumed */
    method Consumed(n: nat)
      requires n <= |bytes|
      modifies this
      ensures bytes == old(bytes)[n..]
    {
      bytes := bytes[n..];
    }
  }

  class MemcachedResponse {
    var header: seq<Byte>
    var payload: seq<Byte>

    constructor ()
      ensures payload == []
    {
      header, payload := [], [];
    }

    /** load: takes the header off the rope and points at the body, which stays on it until release. */
    method LoadFrom(ior: Rope) returns (loaded: bool, required: nat, aborted: bool)
      requires payload == [] && |ior.bytes| < UINT32
      modifies this, ior
      ensures aborted == Load(old(ior.bytes)).Abort?
      ensures loaded == Load(old(ior.bytes)).Whole?
      ensures loaded ==>
        Packet(header, payload) == Load(old(ior.bytes)).packet && ior.bytes == old(ior.bytes)[HEADER_SIZE..]
      ensures !loaded && !aborted ==> ior.bytes == old(ior.bytes) && required == Load(old(ior.bytes)).required
    {
      required, aborted := 0, false;
      var total := |ior.bytes|;
      var wanted := HEADER_SIZE;
      if total < wanted {
        return false, wanted, false;
      }
      header := ior.CopyRead(HEADER_SIZE);
      SameHeader(header, ior.bytes[HEADER_SIZE..]);
      assert header + ior.bytes[HEADER_SIZE..] == ior.bytes;
      if BodyLen(header) == 0 {
        ior.Consumed(HEADER_SIZE);
        return true, 0, false;
      }
      wanted := (wanted + BodyLen(header)) % UINT32;
      if total < wanted {
        return false, wanted, false;
      }
      ior.Consumed(HEADER_SIZE);
      if |ior.bytes| < BodyLen(header) {
        return false, 0, true;
      }
      payload := ior.bytes[..BodyLen(header)];
      loaded := true;
    }

    /** release */
    method ReleaseFrom(ior: Rope)
      requires |header| == HEADER_SIZE && BodyLen(header) <= |ior.bytes|
      modifies ior
      ensures ior.bytes == old(ior.bytes)[BodyLen(header)..]
    {
      if BodyLen(header) == 0 {
        return;
      }
      ior.Consumed(BodyLen(header));
    }
  }

  /** Load and release packets until more data is needed. */
  method ReadPackets(ior: Rope) returns (packets: seq<Packet>, aborted: bool)
    requires |ior.bytes| < UINT32
    modifies ior
    ensures packets == Split(old(ior.bytes)).packets && aborted == Split(old(ior.bytes)).dead
    ensures !aborted ==> ior.bytes == Split(old(ior.bytes)).rest
  {
    hide BodyLen, Split, Load;
    packets, aborted := [], false;
    assert Behind([], Split(ior.bytes)) == Split(ior.bytes);
    while true
      invariant |ior.bytes| < UINT32 && Split(old(ior.bytes)) == Behind(packets, Split(ior.bytes))
      decreases |ior.bytes|
    {
      ghost var buf := ior.bytes;
      LoadIsSplit(buf);
      var resp := new MemcachedResponse();
      var loaded, required, failed := resp.LoadFrom(ior);
      if failed {
        return packets, true;
      }
      if !loaded {
        return packets, false;
      }
      assert packets + ([Packet(resp.header, resp.payload)] + Split(buf[HEADER_SIZE + |resp.payload|..]).packets) ==
             packets + [Packet(resp.header, resp.payload)] + Split(buf[HEADER_SIZE + |resp.payload|..]).packets;
      packets := packets + [Packet(resp.header, resp.payload)];
      resp.ReleaseFrom(ior);
      assert ior.bytes == buf[HEADER_SIZE + |resp.payload|..];
    }
  }

  /** One load decides how the stream splits. */
  lemma LoadIsSplit(buf: seq<Byte>)
    requires |buf| < UINT32
    ensures match Load(buf)
            case Abort => Split(buf) == Frames([], buf, true)
            case NeedMore(_) => Split(buf) == Frames([], buf, false)
            case Whole(p) =>
              && |p.header| == HEADER_SIZE && BodyLen(p.header) == |p.body| && HEADER_SIZE + |p.body| <= |buf|
              && Split(buf) == Onto(p, Split(buf[HEADER_SIZE + |p.body|..]))
  {
    hide BodyLen, Load, Split;
    LoadCases(buf);
    SplitStep(buf);
    if |buf| >= HEADER_SIZE {
      SameHeader(buf[..HEADER_SIZE], buf[HEADER_SIZE..]);
      assert buf[..HEADER_SIZE] + buf[HEADER_SIZE..] == buf;
    }
  }

  /** Load without the modulus. */
  lemma LoadCases(buf: seq<Byte>)
    requires |buf| < UINT32
    ensures |buf| < HEADER_SIZE ==> Load(buf).NeedMore?
    ensures |buf| >= HEADER_SIZE ==>
              var n := HEADER_SIZE + BodyLen(buf);
              if Oversize(buf) then Load(buf).Abort?
              else if |buf| < n then Load(buf).NeedMore?
              else Load(buf) == Whole(Packet(buf[..HEADER_SIZE], buf[HEADER_SIZE..n]))
  {
    hide BodyLen;
    AbortsIff(buf);
  }

  lemma SplitStep(s: seq<Byte>)
    ensures |s| < HEADER_SIZE ==> Split(s) == Frames([], s, false)
    ensures |s| >= HEADER_SIZE ==>
              var n := HEADER_SIZE + BodyLen(s);
              Split(s) == if Oversize(s) then Frames([], s, true)
                          else if |s| < n then Frames([], s, false)
                          else Onto(Packet(s[..HEADER_SIZE], s[HEADER_SIZE..n]), Split(s[n..]))
  {
    hide BodyLen;
  }
}
