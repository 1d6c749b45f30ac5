/** The packet header: three big-endian 32-bit words, the first of them packing four fields. */
module Codec {
  import opened Common
  import opened Results

  const WORD := 0x1_0000_0000
  const LENGTH_RANGE := 0x800_0000
  const HEADER_SIZE := 12

  type Word = x: int | 0 <= x < WORD

  /** What `to_bytes` and `from_bytes` raise. */
  datatype CodecError = StructError | ShortPacket | ChecksumError(seqNum: nat)

  /** A checksum over bytes; the algorithm does not matter here. */
  type Checksum = Bytes -> Word

  function PackHalf(h: int): Bytes
    requires 0 <= h < 0x1_0000
  {
    [h / 0x100, h % 0x100]
  }

  function UnpackHalf(b: Bytes): (h: int)
    requires |b| == 2
    ensures 0 <= h < 0x1_0000
  {
    var hi: int, lo: int := b[0], b[1];
    hi * 0x100 + lo
  }

  function PackWord(w: Word): Bytes {
    PackHalf(w / 0x1_0000) + PackHalf(w % 0x1_0000)
  }

  function UnpackWord(b: Bytes): Word
    requires |b| == 4
  {
    UnpackHalf(b[..2]) * 0x1_0000 + UnpackHalf(b[2..])
  }

  /** The type in three bits, then one bit each for operation and protocol. */
  function PackKind(pktType: PktType, opType: Bit, protocol: Bit): (k: int)
    ensures 0 <= k < 32
  {
    var t: int, o: int, p: int := pktType, opType, protocol;
    t * 4 + o * 2 + p
  }

  /** Those five bits on top, the payload length cut to 27 bits below. The fields do not overlap,
      so shifting is multiplying and or-ing is adding. */
  function InfoField(pktType: PktType, opType: Bit, protocol: Bit, length: nat): Word {
    PackKind(pktType, opType, protocol) * LENGTH_RANGE + length % LENGTH_RANGE
  }

  function ParseInfo(info: Word): (PktType, Bit, Bit, nat) {
    var k := info / LENGTH_RANGE;
    (k / 4, k / 2 % 2, k % 2, info % LENGTH_RANGE)
  }

  function Header(info: Word, crc: Word, num: Word): Bytes {
    PackWord(info) + PackWord(crc) + PackWord(num)
  }

  function ToBytes(p: Packet, crc32: Checksum): Result<Bytes, CodecError> {
    if p.seqNum >= WORD then Err(StructError)
    else
      var info := InfoField(p.pktType, p.opType, p.protocol, |p.data|);
      var crc := crc32(Header(info, 0, p.seqNum) + p.data);
      Ok(Header(info, crc, p.seqNum) + p.data)
  }

  /** The checksum is taken with zeros in its own place. */
  predicate CompareChecksum(raw: Bytes, expected: Word, crc32: Checksum)
    requires |raw| >= HEADER_SIZE
  {
    crc32(raw[..4] + [0, 0, 0, 0] + raw[8..]) == expected
  }

  /** The payload length that the header of a raw packet states. */
  function StatedLength(raw: Bytes): nat
    requires |raw| >= HEADER_SIZE
  {
    ParseInfo(UnpackWord(raw[..4])).3
  }

  function FromBytes(raw: Bytes, crc32: Checksum): Result<Packet, CodecError> {
    if |raw| < HEADER_SIZE then Err(ShortPacket)
    else
      var crc := UnpackWord(raw[4..8]);
      var num := UnpackWord(raw[8..12]);
      var (pktType, opType, protocol, length) := ParseInfo(UnpackWord(raw[..4]));
      if !CompareChecksum(raw, crc, crc32) then Err(ChecksumError(num))
      else Ok(Packet(pktType, opType, protocol, raw[12..Min(12 + length, |raw|)], num))
  }

  // ----- words and fields -----

  /** The number that four bytes stand for, the first of them counting most (`!` in the header format). */
  function BigEndian(b: Bytes): int
    requires |b| == 4
  {
    var b0: int, b1: int, b2: int, b3: int := b[0], b[1], b[2], b[3];
    b0 * 0x100_0000 + b1 * 0x1_0000 + b2 * 0x100 + b3
  }

  /** Words travel most significant byte first, in both directions. */
  lemma WordsAreBigEndian(w: Word, b: Bytes)
    requires |b| == 4
    ensures |PackWord(w)| == 4 && BigEndian(PackWord(w)) == w
    ensures UnpackWord(b) == BigEndian(b)
  {
    var hi, lo := PackHalf(w / 0x1_0000), PackHalf(w % 0x1_0000);
    assert PackWord(w) == [hi[0], hi[1], lo[0], lo[1]];
    assert b[..2] == [b[0], b[1]] && b[2..] == [b[2], b[3]];
  }

  lemma UnpackPacked(w: Word)
    ensures |PackWord(w)| == 4 && UnpackWord(PackWord(w)) == w
  {
    var hi, lo := PackHalf(w / 0x1_0000), PackHalf(w % 0x1_0000);
    assert (hi + lo)[..2] == hi && (hi + lo)[2..] == lo;
  }

  lemma PackUnpackedHalf(b: Bytes)
    requires |b| == 2
    ensures PackHalf(UnpackHalf(b)) == b
  {
  }

  lemma PackUnpacked(b: Bytes)
    requires |b| == 4
    ensures PackWord(UnpackWord(b)) == b
  {
    PackUnpackedHalf(b[..2]);
    PackUnpackedHalf(b[2..]);
    assert UnpackWord(b) / 0x1_0000 == UnpackHalf(b[..2]);
    assert b == b[..2] + b[2..];
  }

  lemma ParseComposed(pktType: PktType, opType: Bit, protocol: Bit, length: nat)
    ensures ParseInfo(InfoField(pktType, opType, protocol, length))
         == (pktType, opType, protocol, length % LENGTH_RANGE)
  {
    var k := PackKind(pktType, opType, protocol);
    assert InfoField(pktType, opType, protocol, length) / LENGTH_RANGE == k;
  }

  lemma ComposeParsed(info: Word)
    ensures var (t, o, p, length) := ParseInfo(info); InfoField(t, o, p, length) == info
  {
    var (t, o, p, length) := ParseInfo(info);
    assert PackKind(t, o, p) == info / LENGTH_RANGE;
  }

  lemma Remainder(w: int, high: int, low: int)
    requires w == high * LENGTH_RANGE + low && 0 <= low < LENGTH_RANGE
    ensures w % LENGTH_RANGE == low
  {
  }

  lemma HighAndLow(high: bv32, low: bv32)
    requires high < 32 && low < 0x800_0000
    ensures ((high << 27) | low) as int == high as int * LENGTH_RANGE + low as int
  {
  }

  lemma LowFits(low: bv32)
    requires low < 0x800_0000
    ensures low as int < LENGTH_RANGE
  {
    HighAndLow(31, low);
  }

  lemma LowBits(w: bv32)
    ensures (w & 0x7FF_FFFF) as int == w as int % LENGTH_RANGE
  {
    assert w == ((w >> 27) << 27) | (w & 0x7FF_FFFF);
    HighAndLow(w >> 27, w & 0x7FF_FFFF);
    LowFits(w & 0x7FF_FFFF);
    Remainder(w as int, (w >> 27) as int, (w & 0x7FF_FFFF) as int);
  }

  lemma ShiftedFields(t: bv32, o: bv32, p: bv32, low: bv32)
    requires t < 8 && o < 2 && p < 2 && low < 0x800_0000
    ensures ((t << 29) | (o << 28) | (p << 27) | low) as int
         == (t as int * 4 + o as int * 2 + p as int) * LENGTH_RANGE + low as int
  {
  }

  /** On machine words, composing with shifts, a mask and bitwise or is `InfoField`. */
  lemma InfoFieldIsBitwise(t: bv32, o: bv32, p: bv32, length: bv32)
    requires t < 8 && o < 2 && p < 2
    ensures ((t << 29) | (o << 28) | (p << 27) | (length & 0x7FF_FFFF)) as int
         == InfoField(t as int, o as int, p as int, length as int)
  {
    LowBits(length);
    ShiftedFields(t, o, p, length & 0x7FF_FFFF);
  }

  /** On machine words, taking the fields apart with shifts and masks is `ParseInfo`. */
  lemma ParseInfoIsBitwise(w: bv32)
    ensures ParseInfo(w as int) ==
      (((w >> 29) & 7) as int, ((w >> 28) & 1) as int, ((w >> 27) & 1) as int, (w & 0x7FF_FFFF) as int)
  {
    LowBits(w);
    ShiftedFields((w >> 29) & 7, (w >> 28) & 1, (w >> 27) & 1, w & 0x7FF_FFFF);
    assert ((((w >> 29) & 7) << 29) | (((w >> 28) & 1) << 28) | (((w >> 27) & 1) << 27) | (w & 0x7FF_FFFF)) == w;
  }

  lemma HeaderParts(info: Word, crc: Word, num: Word, data: Bytes)
    ensures var raw := Header(info, crc, num) + data;
      && |raw| == HEADER_SIZE + |data|
      && raw[..4] == PackWord(info) && raw[4..8] == PackWord(crc) && raw[8..12] == PackWord(num)
      && raw[12..] == data
      && raw[..4] + [0, 0, 0, 0] + raw[8..] == Header(info, 0, num) + data
  {
    assert PackWord(0) == [0, 0, 0, 0];
    assert (Header(info, crc, num) + data)[8..] == PackWord(num) + data;
  }

  // ----- round trips -----

  lemma FromHeader(info: Word, num: Word, data: Bytes, crc32: Checksum)
    ensures var raw := Header(info, crc32(Header(info, 0, num) + data), num) + data;
      var f := ParseInfo(info);
      FromBytes(raw, crc32) == Ok(Packet(f.0, f.1, f.2, data[..Min(f.3, |data|)], num))
  {
    var crc := crc32(Header(info, 0, num) + data);
    var raw := Header(info, crc, num) + data;
    HeaderParts(info, crc, num, data);
    UnpackPacked(info);
    UnpackPacked(crc);
    UnpackPacked(num);
    var n := Min(ParseInfo(info).3, |data|);
    assert raw[12..12 + n] == raw[12..][..n];
  }

  /** Decoding what was encoded passes the checksum and gives the packet back, its payload cut to
      what a 27-bit length can state. */
  lemma DecodeEncoded(p: Packet, crc32: Checksum)
    requires p.seqNum < WORD
    ensures ToBytes(p, crc32).Ok?
    ensures FromBytes(ToBytes(p, crc32).value, crc32) == Ok(p.(data := p.data[..|p.data| % LENGTH_RANGE]))
  {
    FromHeader(InfoField(p.pktType, p.opType, p.protocol, |p.data|), p.seqNum, p.data, crc32);
    ParseComposed(p.pktType, p.opType, p.protocol, |p.data|);
  }

  lemma CutIsWhole(data: Bytes)
    ensures data[..|data| % LENGTH_RANGE] == data <==> |data| < LENGTH_RANGE
  {
    if |data| >= LENGTH_RANGE {
      assert |data[..|data| % LENGTH_RANGE]| < |data|;
    } else {
      assert data[..|data|] == data;
    }
  }

  /** The round trip holds exactly when the number fits the header and the payload its length field. */
  lemma RoundTripExact(p: Packet, crc32: Checksum)
    ensures ToBytes(p, crc32).Ok? && FromBytes(ToBytes(p, crc32).value, crc32) == Ok(p)
       <==> p.seqNum < WORD && |p.data| < LENGTH_RANGE
  {
    if p.seqNum < WORD {
      DecodeEncoded(p, crc32);
      CutIsWhole(p.data);
    }
  }

  /** The bytes with zeros in place of the checksum. */
  function Cleared(raw: Bytes): Bytes
    requires |raw| >= HEADER_SIZE
  {
    seq(|raw|, i requires 0 <= i < |raw| => if 4 <= i < 8 then 0 else raw[i])
  }

  /** Exactly what decoding refuses: fewer bytes than a header has, and bytes whose second word is not the
      checksum of all of them with zeros in its place; then the error names the third word. Encoding refuses
      exactly the numbers that do not fit a word. */
  lemma RefusedExactly(raw: Bytes, p: Packet, crc32: Checksum)
    ensures FromBytes(raw, crc32) == Err(ShortPacket) <==> |raw| < HEADER_SIZE
    ensures FromBytes(raw, crc32).Err? <==>
      |raw| < HEADER_SIZE || crc32(Cleared(raw)) != BigEndian(raw[4..8])
    ensures |raw| >= HEADER_SIZE && FromBytes(raw, crc32).Err? ==>
      FromBytes(raw, crc32) == Err(ChecksumError(BigEndian(raw[8..12])))
    ensures ToBytes(p, crc32) == Err(StructError) <==> p.seqNum >= WORD
    ensures ToBytes(p, crc32).Err? <==> p.seqNum >= WORD
  {
    if |raw| >= HEADER_SIZE {
      assert Cleared(raw) == raw[..4] + [0, 0, 0, 0] + raw[8..];
      WordsAreBigEndian(0, raw[4..8]);
      WordsAreBigEndian(0, raw[8..12]);
    }
  }

  lemma LengthEncoded(p: Packet, crc32: Checksum)
    requires p.seqNum < WORD
    ensures var raw := ToBytes(p, crc32).value;
      |raw| == HEADER_SIZE + |p.data| && StatedLength(raw) == |p.data| % LENGTH_RANGE
  {
    var info := InfoField(p.pktType, p.opType, p.protocol, |p.data|);
    HeaderParts(info, crc32(Header(info, 0, p.seqNum) + p.data), p.seqNum, p.data);
    UnpackPacked(info);
    ParseComposed(p.pktType, p.opType, p.protocol, |p.data|);
  }

  lemma EncodeDecoded(raw: Bytes, crc32: Checksum)
    requires FromBytes(raw, crc32).Ok? && StatedLength(raw) == |raw| - HEADER_SIZE
    ensures ToBytes(FromBytes(raw, crc32).value, crc32) == Ok(raw)
  {
    var info := UnpackWord(raw[..4]);
    var crc := UnpackWord(raw[4..8]);
    var num := UnpackWord(raw[8..12]);
    ComposeParsed(info);
    PackUnpacked(raw[..4]);
    PackUnpacked(raw[4..8]);
    PackUnpacked(raw[8..12]);
    assert raw[12..12 + StatedLength(raw)] == raw[12..];
    assert raw == Header(info, crc, num) + raw[12..];
    HeaderParts(info, crc, num, raw[12..]);
  }

  /** Conversely an accepted packet encodes back to the bytes it came from exactly when the length
      they state is the length of their payload. */
  lemma EncodeDecodedExact(raw: Bytes, crc32: Checksum)
    requires FromBytes(raw, crc32).Ok?
    ensures ToBytes(FromBytes(raw, crc32).value, crc32) == Ok(raw) <==> StatedLength(raw) == |raw| - HEADER_SIZE
  {
    var p := FromBytes(raw, crc32).value;
    if StatedLength(raw) == |raw| - HEADER_SIZE {
      EncodeDecoded(raw, crc32);
    } else if ToBytes(p, crc32) == Ok(raw) {
      LengthEncoded(p, crc32);
    }
  }
}
