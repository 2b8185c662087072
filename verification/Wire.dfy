/** internal/prober/prober.go: the datagram of one probe, an 8-byte magic header, the sequence
    number and the send timestamp as little-endian 64-bit words, and an 8-byte authentication tag
    when a secret is configured. */
module Wire {
  import opened Units

  type Byte = b: int | 0 <= b < 256

  type Word = w: int | 0 <= w < 0x1_0000_0000_0000_0000

  /** The truncated HMAC-SHA256 of a sequence number and timestamp under the configured key. */
  type Tag = t: seq<Byte> | |t| == 8 witness [0, 0, 0, 0, 0, 0, 0, 0]

  /** The EchoSecret setting: empty, or a key whose tag function is left uninterpreted. */
  datatype Auth = Open | Keyed(mac: (Word, Word) -> Tag)

  datatype Probe = Probe(seqNum: Word, ts: Word)

  const MAGIC: seq<Byte> := [0x4C, 0x4E, 0x4B, 0x50, 0x49, 0x4E, 0x47, 0x00]
  const MAX_DATAGRAM: nat := 1500

  function PayloadSize(auth: Auth): nat {
    if auth.Open? then 24 else 32
  }

  /** Go's conversion of an int64 to uint64. */
  function ToWord(x: int): Word {
    x % 0x1_0000_0000_0000_0000
  }

  /** Go's conversion of a uint64 to int64. */
  function ToSigned(w: Word): int {
    if w < 0x8000_0000_0000_0000 then w else w - 0x1_0000_0000_0000_0000
  }

  function LittleEndian(v: nat, n: nat): (bytes: seq<Byte>)
    ensures |bytes| == n
  {
    if n == 0 then [] else [v % 256] + LittleEndian(v / 256, n - 1)
  }

  function FromLittleEndian(bytes: seq<Byte>): nat {
    if bytes == [] then 0 else bytes[0] + 256 * FromLittleEndian(bytes[1..])
  }

  function TagOf(auth: Auth, p: Probe): seq<Byte> {
    match auth
    case Open => []
    case Keyed(mac) => mac(p.seqNum, p.ts)
  }

  function Encode(auth: Auth, p: Probe): (frame: seq<Byte>)
    ensures |frame| == PayloadSize(auth)
  {
    MAGIC + LittleEndian(p.seqNum, 8) + LittleEndian(p.ts, 8) + TagOf(auth, p)
  }

  /** What the reader and the server accept: the exact size, the magic header and a valid tag. */
  function Decode(auth: Auth, d: seq<Byte>): Option<Probe> {
    if |d| != PayloadSize(auth) || d[..8] != MAGIC then None
    else
      WordOfEightBytes(d[8..16]);
      WordOfEightBytes(d[16..24]);
      var p := Probe(FromLittleEndian(d[8..16]), FromLittleEndian(d[16..24]));
      if d[24..] == TagOf(auth, p) then Some(p) else None
  }

  // ----- Round trips -----

  function Capacity(n: nat): nat {
    if n == 0 then 1 else 256 * Capacity(n - 1)
  }

  lemma {:induction false} LittleEndianRoundTrip(v: nat, n: nat)
    requires v < Capacity(n)
    ensures FromLittleEndian(LittleEndian(v, n)) == v
  {
    if n == 0 {
    } else {
      LittleEndianRoundTrip(v / 256, n - 1);
      assert LittleEndian(v, n)[1..] == LittleEndian(v / 256, n - 1);
    }
  }

  lemma {:induction false} LittleEndianInverse(bytes: seq<Byte>)
    ensures FromLittleEndian(bytes) < Capacity(|bytes|)
    ensures LittleEndian(FromLittleEndian(bytes), |bytes|) == bytes
  {
    if bytes == [] {
    } else {
      LittleEndianInverse(bytes[1..]);
      var rest := FromLittleEndian(bytes[1..]);
      assert (bytes[0] + 256 * rest) / 256 == rest && (bytes[0] + 256 * rest) % 256 == bytes[0];
    }
  }

  lemma EightByteCapacity()
    ensures Capacity(8) == 0x1_0000_0000_0000_0000
  {
    assert Capacity(2) == 65536;
    assert Capacity(4) == 65536 * Capacity(2);
    assert Capacity(6) == 65536 * Capacity(4);
  }

  lemma WordOfEightBytes(bytes: seq<Byte>)
    requires |bytes| == 8
    ensures FromLittleEndian(bytes) < 0x1_0000_0000_0000_0000
  {
    LittleEndianInverse(bytes);
    EightByteCapacity();
  }

  /** Decoding an encoded probe returns it, for every sequence number, timestamp and secret. */
  lemma DecodeEncode(auth: Auth, p: Probe)
    ensures Decode(auth, Encode(auth, p)) == Some(p)
  {
    var d := Encode(auth, p);
    EightByteCapacity();
    LittleEndianRoundTrip(p.seqNum, 8);
    LittleEndianRoundTrip(p.ts, 8);
    assert d[..8] == MAGIC;
    assert d[8..16] == LittleEndian(p.seqNum, 8);
    assert d[16..24] == LittleEndian(p.ts, 8);
    assert d[24..] == TagOf(auth, p);
  }

  /** Whatever passes the checks is, byte for byte, the encoding of what it decodes to; so two
      accepted datagrams with the same contents are the same datagram. */
  lemma EncodeDecode(auth: Auth, d: seq<Byte>)
    requires Decode(auth, d).Some?
    ensures Encode(auth, Decode(auth, d).value) == d
  {
    LittleEndianInverse(d[8..16]);
    LittleEndianInverse(d[16..24]);
    assert d == d[..8] + d[8..16] + d[16..24] + d[24..];
  }

  // ----- The layout, byte by byte -----

  /** 256 to the i, for the bytes of a word. */
  function Place(i: nat): (p: nat)
    requires i < 8
    ensures p > 0
  {
    match i
    case 0 => 1
    case 1 => 0x100
    case 2 => 0x1_0000
    case 3 => 0x100_0000
    case 4 => 0x1_0000_0000
    case 5 => 0x100_0000_0000
    case 6 => 0x1_0000_0000_0000
    case 7 => 0x100_0000_0000_0000
  }

  lemma OnePlaceUp(v: nat, i: nat)
    requires 1 <= i < 8
    ensures v / 256 / Place(i - 1) == v / Place(i)
  {
    match i
    case 1 => assert Place(0) == 1;
    case 2 => assert v / 256 / 0x100 == v / 0x1_0000;
    case 3 => assert v / 256 / 0x1_0000 == v / 0x100_0000;
    case 4 => assert v / 256 / 0x100_0000 == v / 0x1_0000_0000;
    case 5 => assert v / 256 / 0x1_0000_0000 == v / 0x100_0000_0000;
    case 6 => assert v / 256 / 0x100_0000_0000 == v / 0x1_0000_0000_0000;
    case 7 => assert v / 256 / 0x1_0000_0000_0000 == v / 0x100_0000_0000_0000;
  }

  /** Byte i of a word is its i-th base-256 digit, the lowest first. */
  lemma {:induction false} ByteOfWord(v: nat, n: nat, i: nat)
    requires i < n && i < 8
    ensures LittleEndian(v, n)[i] == v / Place(i) % 256
  {
    if i == 0 {
    } else {
      ByteOfWord(v / 256, n - 1, i - 1);
      OnePlaceUp(v, i);
    }
  }

  lemma FrameSlices(auth: Auth, p: Probe)
    ensures var d := Encode(auth, p);
            && |d| == (if auth.Open? then 24 else 32)
            && d[..8] == [0x4C, 0x4E, 0x4B, 0x50, 0x49, 0x4E, 0x47, 0x00]
            && d[8..16] == LittleEndian(p.seqNum, 8) && d[16..24] == LittleEndian(p.ts, 8)
            && (auth.Keyed? ==> d[24..] == auth.mac(p.seqNum, p.ts))
  {
  }

  /** The datagram as the protocol has it: 24 bytes, or 32 with a secret; the magic header; at byte 8 the
      sequence number and at byte 16 the timestamp, lowest byte first; at byte 24 the tag of both. */
  lemma FrameLayout(auth: Auth, p: Probe, i: nat)
    requires i < 8
    ensures var d := Encode(auth, p);
            && |d| == (if auth.Open? then 24 else 32)
            && d[..8] == [0x4C, 0x4E, 0x4B, 0x50, 0x49, 0x4E, 0x47, 0x00]
            && d[8 + i] == p.seqNum / Place(i) % 256
            && d[16 + i] == p.ts / Place(i) % 256
            && (auth.Keyed? ==> d[24..] == auth.mac(p.seqNum, p.ts))
  {
    var d := Encode(auth, p);
    FrameSlices(auth, p);
    ByteOfWord(p.seqNum, 8, i);
    ByteOfWord(p.ts, 8, i);
    assert d[8 + i] == d[8..16][i] && d[16 + i] == d[16..24][i];
  }

  /** A 64-bit timestamp keeps every instant that fits in a signed word. */
  lemma SignedRoundTrip(x: int)
    requires -0x8000_0000_0000_0000 <= x < 0x8000_0000_0000_0000
    ensures ToSigned(ToWord(x)) == x
  {
  }

  // ----- The send buffer, overwritten for every probe -----

  /** binary.LittleEndian.PutUint64. */
  method PutWord(buf: array<Byte>, at: nat, w: Word)
    requires at + 8 <= buf.Length
    modifies buf
    ensures buf[..] == old(buf[..at]) + LittleEndian(w, 8) + old(buf[at + 8..])
  {
    var rest := w;
    var i := 0;
    while i < 8
      invariant 0 <= i <= 8 && rest >= 0
      invariant buf[..at] == old(buf[..at]) && buf[at + 8..] == old(buf[at + 8..])
      invariant buf[at..at + i] + LittleEndian(rest, 8 - i) == LittleEndian(w, 8)
    {
      assert LittleEndian(rest, 8 - i) == [rest % 256] + LittleEndian(rest / 256, 7 - i);
      ghost var before := buf[at..at + i];
      buf[at + i] := rest % 256;
      rest := rest / 256;
      assert buf[at..at + i + 1] == before + [buf[at + i]];
      i := i + 1;
    }
    assert buf[..] == buf[..at] + buf[at..at + 8] + buf[at + 8..];
  }

  method PutBytes(buf: array<Byte>, at: nat, bytes: seq<Byte>)
    requires at + |bytes| <= buf.Length
    modifies buf
    ensures buf[..] == old(buf[..at]) + bytes + old(buf[at + |bytes|..])
  {
    var i := 0;
    while i < |bytes|
      invariant 0 <= i <= |bytes|
      invariant buf[..at] == old(buf[..at]) && buf[at + |bytes|..] == old(buf[at + |bytes|..])
      invariant buf[at..at + i] == bytes[..i]
    {
      buf[at + i] := bytes[i];
      i := i + 1;
    }
    assert buf[..] == buf[..at] + buf[at..at + |bytes|] + buf[at + |bytes|..];
  }

  /** binary.LittleEndian.Uint64. */
  method Uint64(buf: array<Byte>, at: nat) returns (w: Word)
    requires at + 8 <= buf.Length
    ensures w == FromLittleEndian(buf[at..at + 8])
  {
    var v: nat := 0;
    var i := 8;
    while i > 0
      invariant 0 <= i <= 8
      invariant v == FromLittleEndian(buf[at + i..at + 8])
    {
      i := i - 1;
      assert buf[at + i..at + 8] == [buf[at + i]] + buf[at + i + 1..at + 8];
      v := buf[at + i] + 256 * v;
    }
    WordOfEightBytes(buf[at..at + 8]);
    w := v;
  }

  /** hmac.Equal on the tag bytes of the buffer: every byte is compared, whatever the earlier ones say. */
  method TagMatches(buf: array<Byte>, at: nat, tag: Tag) returns (same: bool)
    requires at + 8 <= buf.Length
    ensures same == (buf[at..at + 8] == tag)
  {
    same := true;
    for i := 0 to 8
      invariant same == (buf[at..at + i] == tag[..i])
    {
      assert buf[at..at + i + 1] == buf[at..at + i] + [buf[at + i]] && tag[..i + 1] == tag[..i] + [tag[i]];
      same := same && buf[at + i] == tag[i];
    }
    assert tag[..8] == tag;
  }

  /** Overwrites the payload buffer with a probe, whatever the previous probe left in it. */
  method FillPayload(buf: array<Byte>, auth: Auth, p: Probe)
    requires buf.Length == PayloadSize(auth)
    modifies buf
    ensures buf[..] == Encode(auth, p)
  {
    PutBytes(buf, 0, MAGIC);
    assert buf[..8] == MAGIC;
    PutWord(buf, 8, p.seqNum);
    assert buf[..16] == MAGIC + LittleEndian(p.seqNum, 8);
    PutWord(buf, 16, p.ts);
    assert buf[..24] == MAGIC + LittleEndian(p.seqNum, 8) + LittleEndian(p.ts, 8);
    PutBytes(buf, 24, TagOf(auth, p));
  }
}
