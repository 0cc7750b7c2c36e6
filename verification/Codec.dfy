/** The message codec of cw11, byte by byte: both ends copy host memory into a fixed buffer, after
    htonl on the type and on the timestamp. The host's byte order is a parameter. */
module Codec {
  import opened Basics

  const MAX_CLIENT_NAME: nat := 64
  const MAX_MESSAGE_TEXT: nat := 512
  const MAX_MSG_NET_BUF: nat := 1024
  const ENCODED_SIZE: nat := MAX_CLIENT_NAME + 4 + MAX_MESSAGE_TEXT + 8
  const TWO_TO_THE_32: int := 0x1_0000_0000

  type Name = s: seq<byte> | |s| == 64 witness seq(64, _ => 0)
  type Text = s: seq<byte> | |s| == 512 witness seq(512, _ => 0)

  // A 32-bit word, by its bytes from the most to the least significant.
  datatype Word = Word(a: byte, b: byte, c: byte, d: byte)

  // message_t; the timestamp is a 64-bit time_t.
  datatype Message = Message(sender: Name, kind: Word, text: Text, timestamp: int)

  datatype Order = LittleEndian | BigEndian

  // ---------------------------------------------------------------- words as numbers and in memory

  function Value(w: Word): (v: int)
    ensures 0 <= v < TWO_TO_THE_32
  {
    ((w.a * 0x100 + w.b) * 0x100 + w.c) * 0x100 + w.d
  }

  // The cast to uint32_t.
  function Truncate(t: int): Word {
    var v := t % TWO_TO_THE_32;
    var v1 := v / 0x100;
    var v2 := v1 / 0x100;
    Word(v2 / 0x100, v2 % 0x100, v1 % 0x100, v % 0x100)
  }

  lemma ValueOfTruncate(t: int)
    ensures Value(Truncate(t)) == t % TWO_TO_THE_32
  {
  }

  // Every word is the truncation of its value, so words and 32-bit numbers are the same thing.
  lemma TruncateOfValue(w: Word)
    ensures Truncate(Value(w)) == w
  {
    var v := Value(w);
    assert v / 0x100 == (w.a * 0x100 + w.b) * 0x100 + w.c;
    assert v / 0x100 / 0x100 == w.a * 0x100 + w.b;
  }

  // A word's bytes are the digits of its value to the base 256, the first the most significant.
  lemma BytesOfValue(w: Word)
    ensures w.a == Value(w) / 0x1_000000 && w.b == Value(w) / 0x1_0000 % 0x100
    ensures w.c == Value(w) / 0x100 % 0x100 && w.d == Value(w) % 0x100
  {
    var v := Value(w);
    assert v / 0x1_0000 == w.a * 0x100 + w.b;
    assert v / 0x100 == (w.a * 0x100 + w.b) * 0x100 + w.c;
  }

  function Image32(w: Word, o: Order): (r: seq<byte>)
    ensures |r| == 4
  {
    if o.BigEndian? then [w.a, w.b, w.c, w.d] else [w.d, w.c, w.b, w.a]
  }

  function Read32(m: seq<byte>, o: Order): Word
    requires |m| == 4
  {
    if o.BigEndian? then Word(m[0], m[1], m[2], m[3]) else Word(m[3], m[2], m[1], m[0])
  }

  // htonl and ntohl: they swap the bytes on a little-endian host.
  function NetworkOrder(w: Word, o: Order): Word {
    if o.LittleEndian? then Word(w.d, w.c, w.b, w.a) else w
  }

  // The memory of a 64-bit value below 2^32, and the cast of a 64-bit value to uint32_t.
  function Image64(low: Word, o: Order): (r: seq<byte>)
    ensures |r| == 8
  {
    if o.BigEndian? then [0, 0, 0, 0] + Image32(low, o) else Image32(low, o) + [0, 0, 0, 0]
  }

  function Low32(m: seq<byte>, o: Order): Word
    requires |m| == 8
  {
    if o.BigEndian? then Read32(m[4..], o) else Read32(m[..4], o)
  }

  // ---------------------------------------------------------------- the wire format

  function Stamp(timestamp: int, o: Order): (r: seq<byte>)
    ensures |r| == 8
  {
    Image64(NetworkOrder(Truncate(timestamp), o), o)
  }

  // The whole buffer after serializing; `rest` is what the last bytes held before.
  function Encoded(m: Message, o: Order, rest: seq<byte>): (r: seq<byte>)
    ensures |r| == ENCODED_SIZE + |rest|
  {
    m.sender + (Image32(NetworkOrder(m.kind, o), o) + (m.text + (Stamp(m.timestamp, o) + rest)))
  }

  function Decoded(b: seq<byte>, o: Order): Message
    requires |b| == MAX_MSG_NET_BUF
  {
    var b1 := b[64..];
    var b2 := b1[4..];
    var b3 := b2[512..];
    Message(b[..64], NetworkOrder(Read32(b1[..4], o), o), b2[..512], Value(NetworkOrder(Low32(b3[..8], o), o)))
  }

  lemma Joined(a: seq<byte>, b: seq<byte>, i: nat)
    requires i < |a| + |b|
    ensures (a + b)[i] == if i < |a| then a[i] else b[i - |a|]
  {
  }

  // Where in the buffer each byte of a message stands: the name, the type with its most significant
  // byte first, the text, and the timestamp's 32 bits, also in network order, in the half of its
  // field where the host keeps the low half of a 64-bit number; the other half is 0.
  lemma WireFormat(m: Message, o: Order, rest: seq<byte>, i: nat)
    requires i < ENCODED_SIZE
    ensures var low := if o.LittleEndian? then 580 else 584;
      var t := Truncate(m.timestamp);
      Encoded(m, o, rest)[i] ==
        if i < 64 then m.sender[i]
        else if i < 68 then [m.kind.a, m.kind.b, m.kind.c, m.kind.d][i - 64]
        else if i < 580 then m.text[i - 68]
        else if low <= i < low + 4 then [t.a, t.b, t.c, t.d][i - low]
        else 0
  {
    var kind, stamp := Image32(NetworkOrder(m.kind, o), o), Stamp(m.timestamp, o);
    Joined(m.sender, kind + (m.text + (stamp + rest)), i);
    if i >= 64 {
      Joined(kind, m.text + (stamp + rest), i - 64);
      if i >= 68 {
        Joined(m.text, stamp + rest, i - 68);
        if i >= 580 {
          Joined(stamp, rest, i - 580);
        }
      }
    }
  }

  // ---------------------------------------------------------------- the two functions

  // memcpy(dst + at, src, |src|)
  method Memcpy(dst: array<byte>, at: nat, src: seq<byte>)
    requires at + |src| <= dst.Length
    modifies dst
    ensures dst[..at + |src|] == old(dst[..at]) + src
    ensures dst[at + |src|..] == old(dst[at + |src|..])
  {
    for i := 0 to |src|
      invariant dst[..at + i] == old(dst[..at]) + src[..i]
      invariant dst[at + i..] == old(dst[at + i..])
    {
      dst[at + i] := src[i];
      assert dst[..at + i + 1] == dst[..at + i] + [src[i]];
      assert dst[at + i + 1..] == dst[at + i..][1..];
    }
    assert src[..|src|] == src;
  }

  lemma Reassociate(a: seq<byte>, b: seq<byte>, c: seq<byte>, d: seq<byte>, e: seq<byte>)
    ensures a + b + c + d + e == a + (b + (c + (d + e)))
  {
    assert c + d + e == c + (d + e);
    assert b + c + d + e == b + (c + d + e);
    assert a + b + c + d + e == a + (b + c + d + e);
  }

  // Each copy starts where the one before it ended, and all of them fit.
  method SerializeMessage(input: Message, buffer: array<byte>, o: Order)
    requires buffer.Length == MAX_MSG_NET_BUF
    modifies buffer
    ensures buffer[..] == Encoded(input, o, old(buffer[ENCODED_SIZE..]))
  {
    ghost var last := buffer[ENCODED_SIZE..];
    var kind, stamp := Image32(NetworkOrder(input.kind, o), o), Stamp(input.timestamp, o);
    var p := 0;
    Memcpy(buffer, p, input.sender);
    assert buffer[ENCODED_SIZE..] == buffer[64..][ENCODED_SIZE - 64..] == last;
    p := p + MAX_CLIENT_NAME;
    Memcpy(buffer, p, kind);
    assert buffer[ENCODED_SIZE..] == buffer[68..][ENCODED_SIZE - 68..] == last;
    p := p + 4;
    Memcpy(buffer, p, input.text);
    assert buffer[ENCODED_SIZE..] == buffer[580..][ENCODED_SIZE - 580..] == last;
    p := p + MAX_MESSAGE_TEXT;
    Memcpy(buffer, p, stamp);
    assert buffer[..] == buffer[..ENCODED_SIZE] + buffer[ENCODED_SIZE..];
    Reassociate(input.sender, kind, input.text, stamp, last);
  }

  method DeserializeMessage(buffer: array<byte>, o: Order) returns (output: Message)
    requires buffer.Length == MAX_MSG_NET_BUF
    ensures output == Decoded(buffer[..], o)
  {
    ghost var b := buffer[..];
    var p := 0;
    var sender := buffer[p..p + MAX_CLIENT_NAME];
    p := p + MAX_CLIENT_NAME;
    var kind := buffer[p..p + 4];
    p := p + 4;
    var text := buffer[p..p + MAX_MESSAGE_TEXT];
    p := p + MAX_MESSAGE_TEXT;
    var stamp := buffer[p..p + 8];
    assert sender == b[..64] && kind == b[64..][..4];
    assert text == b[64..][4..][..512] && stamp == b[64..][4..][512..][..8];
    output := Message(sender, NetworkOrder(Read32(kind, o), o), text, Value(NetworkOrder(Low32(stamp, o), o)));
  }

  // ---------------------------------------------------------------- round trips

  lemma SplitAt(a: seq<byte>, b: seq<byte>)
    ensures (a + b)[..|a|] == a && (a + b)[|a|..] == b
  {
  }

  // What a host makes of the buffer, field by field.
  lemma Fields(m: Message, o: Order, o': Order, rest: seq<byte>)
    requires |rest| == MAX_MSG_NET_BUF - ENCODED_SIZE
    ensures Decoded(Encoded(m, o, rest), o') ==
      Message(m.sender, NetworkOrder(Read32(Image32(NetworkOrder(m.kind, o), o), o'), o'), m.text,
              Value(NetworkOrder(Low32(Stamp(m.timestamp, o), o'), o')))
  {
    var kind, stamp := Image32(NetworkOrder(m.kind, o), o), Stamp(m.timestamp, o);
    SplitAt(m.sender, kind + (m.text + (stamp + rest)));
    SplitAt(kind, m.text + (stamp + rest));
    SplitAt(m.text, stamp + rest);
    SplitAt(stamp, rest);
  }

  // Whatever the two hosts, a word travels most significant byte first and arrives as it was.
  lemma WordCrosses(w: Word, o: Order, o': Order)
    ensures Image32(NetworkOrder(w, o), o) == [w.a, w.b, w.c, w.d]
    ensures NetworkOrder(Read32(Image32(NetworkOrder(w, o), o), o'), o') == w
  {
  }

  // The 64-bit field of a timestamp read with the byte order it was written in, and with the other.
  lemma StampCrosses(t: int, o: Order, o': Order)
    ensures NetworkOrder(Low32(Stamp(t, o), o'), o') == if o == o' then Truncate(t) else Word(0, 0, 0, 0)
  {
    var image := Image32(NetworkOrder(Truncate(t), o), o);
    SplitAt(image, [0, 0, 0, 0]);
    SplitAt([0, 0, 0, 0], image);
  }

  // Between hosts of the same byte order a message comes back with its timestamp modulo 2^32,
  // hence unchanged exactly for timestamps in [0, 2^32).
  lemma RoundTrip(m: Message, o: Order, rest: seq<byte>)
    requires |rest| == MAX_MSG_NET_BUF - ENCODED_SIZE
    ensures Decoded(Encoded(m, o, rest), o) == m.(timestamp := m.timestamp % TWO_TO_THE_32)
    ensures Decoded(Encoded(m, o, rest), o) == m <==> 0 <= m.timestamp < TWO_TO_THE_32
  {
    Fields(m, o, o, rest);
    WordCrosses(m.kind, o, o);
    StampCrosses(m.timestamp, o, o);
    ValueOfTruncate(m.timestamp);
  }

  lemma ValueOfZero(w: Word)
    requires w.a == w.b == w.c == w.d == 0
    ensures Value(w) == 0
  {
  }

  // Only the timestamp is different, and it is 0; so the two are equal exactly if it was 0 before.
  predicate LosesTheStamp(m: Message, back: Message) {
    back == m.(timestamp := 0) && (back == m <==> m.timestamp == 0)
  }

  lemma OnlyTheStamp(m: Message, back: Message, stamp: int)
    requires stamp == 0 && back == Message(m.sender, m.kind, m.text, stamp)
    ensures LosesTheStamp(m, back)
  {
  }

  lemma MixedStamp(t: int, o: Order, o': Order) returns (stamp: int)
    requires o != o'
    ensures stamp == Value(NetworkOrder(Low32(Stamp(t, o), o'), o')) == 0
  {
    StampCrosses(t, o, o');
    ValueOfZero(NetworkOrder(Low32(Stamp(t, o), o'), o'));
    stamp := 0;
  }

  // Between hosts of different byte order everything survives except the timestamp, which is
  // always read as 0: the 32-bit value is swapped, but the 64-bit field it is stored in is not.
  lemma MixedOrdersLoseTimestamp(m: Message, o: Order, o': Order, rest: seq<byte>)
    requires o != o' && |rest| == MAX_MSG_NET_BUF - ENCODED_SIZE
    ensures LosesTheStamp(m, Decoded(Encoded(m, o, rest), o'))
  {
    var stamp := MixedStamp(m.timestamp, o, o');
    Fields(m, o, o', rest);
    WordCrosses(m.kind, o, o');
    OnlyTheStamp(m, Decoded(Encoded(m, o, rest), o'), stamp);
  }
}
