/** The nine-byte frame prefix (src/codec.rs): header, flags byte, and their exact inverse. */
module Codec {
  import opened Bytes

  const PREFIX_LEN := 9
  const MAX_EPOCH := 31

  type Epoch = e: int | 0 <= e <= MAX_EPOCH

  datatype Mode = Standard | Dek

  datatype Header = Header(fromId: U16, toId: U16, channel: U32)

  datatype Flags = Flags(mode: Mode, epoch: Epoch)

  datatype CodecError = TooShort(len: nat) | InvalidFlags(flags: Byte)

  type Parsed = Result<(Header, Flags), CodecError>

  /** `Header::to_bytes`. */
  function HeaderBytes(h: Header): (r: Bytes)
    ensures |r| == 8
  {
    Be16(h.fromId) + Be16(h.toId) + Be32(h.channel)
  }

  /** `Header::from_bytes`. */
  function HeaderFrom(b: Bytes): Header
    requires |b| == 8
  {
    Header(FromBe16(b[0..2]), FromBe16(b[2..4]), FromBe32(b[4..8]))
  }

  /** `Flags::to_byte`: mode in bit 0, the constant pattern 01 in bits 2-1, the epoch in bits 7-3. */
  function FlagsByte(f: Flags): Byte {
    (if f.mode.Dek? then 1 else 0) + 4 + 8 * f.epoch
  }

  /** `Flags::from_byte`: bit 1 must be clear and bit 2 set. */
  function FlagsFrom(b: Byte): Result<Flags, CodecError> {
    if b / 2 % 4 != 2 then Err(InvalidFlags(b))
    else Ok(Flags(if b % 2 == 0 then Standard else Dek, b / 8))
  }

  /** `serialize_prefix`. */
  function SerializePrefix(h: Header, f: Flags): (r: Bytes)
    ensures |r| == PREFIX_LEN
  {
    HeaderBytes(h) + [FlagsByte(f)]
  }

  /** `parse_prefix`: total over every byte string. */
  function ParsePrefix(bytes: Bytes): Parsed {
    if |bytes| < PREFIX_LEN then Err(TooShort(|bytes|))
    else
      match FlagsFrom(bytes[8])
      case Err(e) => Err(e)
      case Ok(flags) => Ok((HeaderFrom(bytes[..8]), flags))
  }

  /** `from_byte` on the integer byte is `from_byte` on its bits. */
  lemma FlagsFromBits(b: bv8)
    ensures FlagsFrom(b as int)
            == if b & 0x06 != 0x04 then Err(InvalidFlags(b as int))
               else Ok(Flags(if b & 0x01 == 0 then Standard else Dek, (b >> 3) as int))
  {
    EpochBits(b);
    ModeBit(b);
    PatternBits(b);
  }

  lemma EpochBits(b: bv8)
    ensures (b >> 3) as int == (b as int) / 8
  {
    assert b >> 3 == b / 8;
  }

  lemma ModeBit(b: bv8)
    ensures b & 0x01 == 0 <==> (b as int) % 2 == 0
  {
    assert b & 0x01 == b % 2;
  }

  lemma PatternBits(b: bv8)
    ensures b & 0x06 == 0x04 <==> (b as int) / 2 % 4 == 2
  {
    assert b & 0x06 == 0x04 <==> b / 2 % 4 == 2;
    assert (b / 2) as int == (b as int) / 2;
  }

  /** `to_byte` on the integer byte is `to_byte` on its bits. */
  lemma FlagsByteBits(mode: Mode, epoch: bv8)
    requires epoch as int <= 31
    ensures FlagsByte(Flags(mode, epoch as int))
            == ((if mode.Dek? then 0x01 else 0x00 as bv8) | 0x04 | (epoch << 3)) as int
  {
    var b: bv8 := (if mode.Dek? then 0x01 else 0x00 as bv8) | 0x04 | (epoch << 3);
    FlagBits(mode.Dek?, epoch);
    FlagsFromBits(b);
    FlagsCanonical(b as int);
  }

  /** The three fields of a flags byte do not overlap. */
  lemma FlagBits(dek: bool, epoch: bv8)
    requires epoch <= 31
    ensures var b: bv8 := (if dek then 0x01 else 0x00 as bv8) | 0x04 | (epoch << 3);
            b & 0x06 == 0x04 && (b & 0x01 == 0 <==> !dek) && b >> 3 == epoch
  {
  }

  lemma HeaderRoundTrip(h: Header)
    ensures HeaderFrom(HeaderBytes(h)) == h
  {
    var b := HeaderBytes(h);
    assert b[0..2] == Be16(h.fromId);
    assert b[2..4] == Be16(h.toId);
    assert b[4..8] == Be32(h.channel);
    Be32RoundTrip(h.channel);
  }

  lemma HeaderCanonical(b: Bytes)
    requires |b| == 8
    ensures HeaderBytes(HeaderFrom(b)) == b
  {
    Be16Canonical(b[0..2]);
    Be16Canonical(b[2..4]);
    Be32Canonical(b[4..8]);
    assert b == b[0..2] + b[2..4] + b[4..8];
  }

  lemma FlagsRoundTrip(f: Flags)
    ensures FlagsFrom(FlagsByte(f)) == Ok(f)
  {
  }

  lemma FlagsCanonical(b: Byte)
    requires FlagsFrom(b).Ok?
    ensures FlagsByte(FlagsFrom(b).value) == b
  {
  }

  /** The nine bytes of the wire: source, destination and channel, each most significant byte first, and flags. */
  lemma PrefixLayout(h: Header, f: Flags)
    ensures var p := SerializePrefix(h, f);
            && h.fromId == (p[0] as int) * 0x100 + p[1]
            && h.toId == (p[2] as int) * 0x100 + p[3]
            && h.channel == (p[4] as int) * 0x100_0000 + (p[5] as int) * 0x1_0000 + (p[6] as int) * 0x100 + p[7]
            && p[8] % 2 == (if f.mode.Dek? then 1 else 0) && p[8] / 2 % 4 == 2 && p[8] / 8 == f.epoch
  {
    var p := SerializePrefix(h, f);
    assert p[..8] == HeaderBytes(h);
    var high, low := h.channel / 0x1_0000, h.channel % 0x1_0000;
    assert p[4] == high / 0x100 && p[5] == high % 0x100 && p[6] == low / 0x100 && p[7] == low % 0x100;
  }

  /** Parsing undoes serialising, whatever follows the prefix. */
  lemma ParseSerialized(h: Header, f: Flags, rest: Bytes)
    ensures ParsePrefix(SerializePrefix(h, f) + rest) == Ok((h, f))
  {
    var b := SerializePrefix(h, f) + rest;
    assert b[..8] == HeaderBytes(h);
    HeaderRoundTrip(h);
    FlagsRoundTrip(f);
  }

  /** An accepted prefix is the serialisation of what was read from it: no second encoding exists. */
  lemma SerializeParsed(bytes: Bytes)
    requires ParsePrefix(bytes).Ok?
    ensures var (h, f) := ParsePrefix(bytes).value; SerializePrefix(h, f) == bytes[..PREFIX_LEN]
  {
    HeaderCanonical(bytes[..8]);
    FlagsCanonical(bytes[8]);
    assert bytes[..9] == bytes[..8] + [bytes[8]];
  }

  /** A prefix determines its header and flags. */
  lemma PrefixInjective(h1: Header, f1: Flags, h2: Header, f2: Flags)
    requires SerializePrefix(h1, f1) == SerializePrefix(h2, f2)
    ensures h1 == h2 && f1 == f2
  {
    ParseSerialized(h1, f1, []);
    ParseSerialized(h2, f2, []);
  }
}
