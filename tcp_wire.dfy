/** The owned TCP header as a value, and its serialisation (`write`) and
    parsing (`read`) in the fixed layout of section 3.1 of RFC 9293, with
    the NS flag of RFC 3540 in the low bit of byte 12. */
module TcpWire {
  import opened ByteOrder
  import opened Results
  import opened TcpOptions

  /** Data offset of a header without options, in 32-bit words. */
  const MinimumDataOffset: nat := 5
  /** Length of a header without options, in bytes. */
  const MinimumHeaderLen: nat := 20

  /** Every field of the owned header; the data offset is not stored but derived
      from the length of the options region. */
  datatype Header = Header(
    sourcePort: bv16,
    destinationPort: bv16,
    sequenceNumber: bv32,
    acknowledgmentNumber: bv32,
    ns: bool, fin: bool, syn: bool, rst: bool, psh: bool,
    ack: bool, ece: bool, urg: bool, cwr: bool,
    windowSize: bv16,
    checksum: bv16,
    urgentPointer: bv16,
    options: OptionsRegion)
  {
    function OptionsLen(): nat
    {
      |options|
    }

    /** Header length in 32-bit words: the five fixed words plus the option words. */
    function DataOffset(): (d: nat)
      ensures MinimumDataOffset <= d <= 15
      ensures d * 4 == MinimumHeaderLen + OptionsLen()
    {
      MinimumDataOffset + |options| / 4
    }

    function HeaderLen(): nat
    {
      DataOffset() * 4
    }
  }

  /** `Default::default()`: every field zero, every flag clear, no options. */
  const DefaultHeader: Header :=
    Header(0, 0, 0, 0, false, false, false, false, false, false, false, false, false, 0, 0, 0, [])

  datatype ReadError =
    /** The byte source ended before the header did (an unexpected end of file). */
    | IoError
    /** A slice too short for the header; carries the length that was needed. */
    | UnexpectedEndOfSlice(required: nat)
    /** The data offset field is below the five fixed words; carries its value. */
    | TcpDataOffsetTooSmall(dataOffset: nat)

  function Bit(b: bool, mask: byte): byte
  {
    if b then mask else 0
  }

  /** Byte 12: data offset in the high nibble, three reserved zero bits, NS in the low bit. */
  function OffsetByte(dataOffset: nat, ns: bool): byte
    requires dataOffset < 16
  {
    ((dataOffset as byte) << 4) | Bit(ns, 0x01)
  }

  /** The data offset stored in the high nibble of byte 12. */
  function DataOffsetOf(b: byte): (d: nat)
    ensures d < 16
  {
    (b >> 4) as nat
  }

  /** Byte 13: CWR, ECE, URG, ACK, PSH, RST, SYN, FIN from the high bit down. */
  function FlagsByte(h: Header): byte
  {
    Bit(h.cwr, 0x80) | Bit(h.ece, 0x40) | Bit(h.urg, 0x20) | Bit(h.ack, 0x10) |
    Bit(h.psh, 0x08) | Bit(h.rst, 0x04) | Bit(h.syn, 0x02) | Bit(h.fin, 0x01)
  }

  function FlagSet(b: byte, mask: byte): bool
  {
    b & mask != 0
  }

  /** `write`: the twenty fixed bytes followed by the options region. */
  function Write(h: Header): (r: seq<byte>)
    ensures |r| == h.HeaderLen()
  {
    Be16(h.sourcePort) + Be16(h.destinationPort) +
    Be32(h.sequenceNumber) + Be32(h.acknowledgmentNumber) +
    [OffsetByte(h.DataOffset(), h.ns), FlagsByte(h)] +
    Be16(h.windowSize) + Be16(h.checksum) + Be16(h.urgentPointer) +
    h.options
  }

  /** `read`: the twenty fixed bytes first, then the data offset check, then
      `data_offset*4 - 20` option bytes copied verbatim. Bytes after the header
      are not consumed; the three reserved bits of byte 12 are ignored. */
  function Read(b: seq<byte>): (r: Result<Header, ReadError>)
    ensures r.Ok? ==> r.value.HeaderLen() <= |b| && r.value.options == b[MinimumHeaderLen..r.value.HeaderLen()]
  {
    if |b| < MinimumHeaderLen then Err(IoError)
    else
      var dataOffset := DataOffsetOf(b[12]);
      if dataOffset < MinimumDataOffset then Err(TcpDataOffsetTooSmall(dataOffset))
      else if |b| < dataOffset * 4 then Err(IoError)
      else
        var flags := b[13];
        Ok(Header(
          FromBe16(b[0..2]), FromBe16(b[2..4]), FromBe32(b[4..8]), FromBe32(b[8..12]),
          FlagSet(b[12], 0x01),
          FlagSet(flags, 0x01), FlagSet(flags, 0x02), FlagSet(flags, 0x04), FlagSet(flags, 0x08),
          FlagSet(flags, 0x10), FlagSet(flags, 0x40), FlagSet(flags, 0x20), FlagSet(flags, 0x80),
          FromBe16(b[14..16]), FromBe16(b[16..18]), FromBe16(b[18..20]),
          b[MinimumHeaderLen..dataOffset * 4]))
  }

  /** Byte 12 gives back the data offset and NS flag it was built from, and its reserved bits are zero. */
  lemma OffsetByteDecodes(dataOffset: nat, ns: bool)
    requires dataOffset < 16
    ensures DataOffsetOf(OffsetByte(dataOffset, ns)) == dataOffset
    ensures FlagSet(OffsetByte(dataOffset, ns), 0x01) == ns
    ensures OffsetByte(dataOffset, ns) & 0x0E == 0
  {
  }

  /** Rebuilding byte 12 from the data offset and NS flag read out of it clears only the reserved bits. */
  lemma OffsetByteOfDecoded(b: byte)
    ensures OffsetByte(DataOffsetOf(b), FlagSet(b, 0x01)) == b & 0xF1
  {
    assert ((b >> 4) as nat) as byte == b >> 4;
  }

  /** Byte 13 gives back each of the eight flags packed into it. */
  lemma FlagsByteDecodes(h: Header)
    ensures var f := FlagsByte(h);
      FlagSet(f, 0x01) == h.fin && FlagSet(f, 0x02) == h.syn && FlagSet(f, 0x04) == h.rst &&
      FlagSet(f, 0x08) == h.psh && FlagSet(f, 0x10) == h.ack && FlagSet(f, 0x20) == h.urg &&
      FlagSet(f, 0x40) == h.ece && FlagSet(f, 0x80) == h.cwr
  {
  }

  /** Where each field sits in the serialised header. */
  lemma WriteLayout(h: Header)
    ensures var w := Write(h);
      w[0..2] == Be16(h.sourcePort) && w[2..4] == Be16(h.destinationPort) &&
      w[4..8] == Be32(h.sequenceNumber) && w[8..12] == Be32(h.acknowledgmentNumber) &&
      w[12] == OffsetByte(h.DataOffset(), h.ns) && w[13] == FlagsByte(h) &&
      w[14..16] == Be16(h.windowSize) && w[16..18] == Be16(h.checksum) &&
      w[18..20] == Be16(h.urgentPointer) && w[MinimumHeaderLen..] == h.options
  {
    var w := Write(h);
    var tail := Be16(h.windowSize) + Be16(h.checksum) + Be16(h.urgentPointer);
    assert w[14..20] == tail;
    assert tail[2..4] == Be16(h.checksum);
  }

  /** The serialised header in three runs: the first twelve bytes, bytes 14 to 20, the options. */
  lemma WriteRuns(h: Header)
    ensures var w := Write(h);
      w[0..12] == Be16(h.sourcePort) + Be16(h.destinationPort) + Be32(h.sequenceNumber) + Be32(h.acknowledgmentNumber) &&
      w[12] == OffsetByte(h.DataOffset(), h.ns) && w[13] == FlagsByte(h) &&
      w[14..20] == Be16(h.windowSize) + Be16(h.checksum) + Be16(h.urgentPointer) &&
      w[MinimumHeaderLen..] == h.options
  {
  }

  /** Appending the serialised header to `out` is appending its fields one after another. */
  lemma AppendWrite(out: seq<byte>, h: Header)
    ensures out + Write(h)
         == out + Be16(h.sourcePort) + Be16(h.destinationPort) +
            Be32(h.sequenceNumber) + Be32(h.acknowledgmentNumber) +
            [OffsetByte(h.DataOffset(), h.ns), FlagsByte(h)] +
            Be16(h.windowSize) + Be16(h.checksum) + Be16(h.urgentPointer) +
            h.options
  {
    var p1, p2 := Be16(h.sourcePort), Be16(h.destinationPort);
    var p3, p4 := Be32(h.sequenceNumber), Be32(h.acknowledgmentNumber);
    var p5 := [OffsetByte(h.DataOffset(), h.ns), FlagsByte(h)];
    var p6, p7, p8 := Be16(h.windowSize), Be16(h.checksum), Be16(h.urgentPointer);
    assert out + (p1 + p2) == out + p1 + p2;
    assert out + (p1 + p2 + p3) == out + p1 + p2 + p3;
    assert out + (p1 + p2 + p3 + p4) == out + p1 + p2 + p3 + p4;
    assert out + (p1 + p2 + p3 + p4 + p5) == out + p1 + p2 + p3 + p4 + p5;
    assert out + (p1 + p2 + p3 + p4 + p5 + p6) == out + p1 + p2 + p3 + p4 + p5 + p6;
    assert out + (p1 + p2 + p3 + p4 + p5 + p6 + p7) == out + p1 + p2 + p3 + p4 + p5 + p6 + p7;
    assert out + (p1 + p2 + p3 + p4 + p5 + p6 + p7 + p8) == out + p1 + p2 + p3 + p4 + p5 + p6 + p7 + p8;
    assert out + (p1 + p2 + p3 + p4 + p5 + p6 + p7 + p8 + h.options) == out + p1 + p2 + p3 + p4 + p5 + p6 + p7 + p8 + h.options;
  }

  /** `read` of what `write` produced, with anything after it, returns a header
      equal in every field to the one written. */
  lemma ReadWrite(h: Header, rest: seq<byte>)
    ensures Read(Write(h) + rest) == Ok(h)
  {
    var w := Write(h);
    var b := w + rest;
    WriteLayout(h);
    assert b[..|w|] == w;
    assert b[0..2] == w[0..2] && b[2..4] == w[2..4] && b[4..8] == w[4..8] && b[8..12] == w[8..12];
    assert b[14..16] == w[14..16] && b[16..18] == w[16..18] && b[18..20] == w[18..20];
    assert b[12] == w[12] && b[13] == w[13];
    assert b[MinimumHeaderLen..h.DataOffset() * 4] == h.options;
    FromBe16OfBe16(h.sourcePort);
    FromBe16OfBe16(h.destinationPort);
    FromBe32OfBe32(h.sequenceNumber);
    FromBe32OfBe32(h.acknowledgmentNumber);
    FromBe16OfBe16(h.windowSize);
    FromBe16OfBe16(h.checksum);
    FromBe16OfBe16(h.urgentPointer);
    OffsetByteDecodes(h.DataOffset(), h.ns);
    FlagsByteDecodes(h);
  }

  /** Any strict prefix of a serialised header, in particular the one missing
      its last byte, makes `read` fail with an I/O error. */
  lemma ReadTruncated(h: Header, n: nat)
    requires n < h.HeaderLen()
    ensures Read(Write(h)[..n]) == Err(IoError)
  {
    var w := Write(h);
    if n >= MinimumHeaderLen {
      WriteLayout(h);
      assert w[..n][12] == w[12];
      OffsetByteDecodes(h.DataOffset(), h.ns);
    }
  }

  /** `b` with the high nibble of byte 12 replaced by `dataOffset`. */
  function WithDataOffset(b: seq<byte>, dataOffset: byte): (r: seq<byte>)
    requires 12 < |b|
    ensures |r| == |b| && DataOffsetOf(r[12]) == (dataOffset & 0x0F) as nat
    ensures r[..12] == b[..12] && r[13..] == b[13..] && r[12] & 0x0F == b[12] & 0x0F
  {
    b[12 := (b[12] & 0x0F) | ((dataOffset << 4) & 0xF0)]
  }

  /** A serialised header whose data offset is overwritten with a value below
      five makes `read` report that value as too small. */
  lemma ReadDataOffsetTooSmall(h: Header, dataOffset: byte)
    requires dataOffset < MinimumDataOffset as byte
    ensures Read(WithDataOffset(Write(h), dataOffset)) == Err(TcpDataOffsetTooSmall(dataOffset as nat))
  {
  }

  /** `write` of what `read` parsed gives back the bytes `read` consumed, except
      that the three reserved bits of byte 12 come out as zero. */
  lemma WriteRead(b: seq<byte>, h: Header)
    requires Read(b) == Ok(h)
    ensures Write(h) == b[..h.HeaderLen()][12 := b[12] & 0xF1]
  {
    var w := Write(h);
    var t := b[..h.HeaderLen()][12 := b[12] & 0xF1];
    WriteRuns(h);
    FixedWordsRebuilt(b, h.sourcePort, h.destinationPort, h.sequenceNumber, h.acknowledgmentNumber,
                      h.windowSize, h.checksum, h.urgentPointer);
    OffsetByteOfDecoded(b[12]);
    FlagsByteOfDecoded(h, b[13]);
    EqualBySegments(w, t);
  }

  lemma EqualBySegments(w: seq<byte>, t: seq<byte>)
    requires |w| == |t| && MinimumHeaderLen <= |w|
    requires w[0..12] == t[0..12] && w[12] == t[12] && w[13] == t[13]
    requires w[14..20] == t[14..20] && w[MinimumHeaderLen..] == t[MinimumHeaderLen..]
    ensures w == t
  {
    assert w == w[0..12] + [w[12], w[13]] + w[14..20] + w[MinimumHeaderLen..];
    assert t == t[0..12] + [t[12], t[13]] + t[14..20] + t[MinimumHeaderLen..];
  }

  /** Re-encoding the multi-byte fields read out of `b` gives back their bytes. */
  lemma FixedWordsRebuilt(b: seq<byte>, sp: bv16, dp: bv16, sn: bv32, an: bv32, ws: bv16, cs: bv16, up: bv16)
    requires MinimumHeaderLen <= |b|
    requires sp == FromBe16(b[0..2]) && dp == FromBe16(b[2..4])
    requires sn == FromBe32(b[4..8]) && an == FromBe32(b[8..12])
    requires ws == FromBe16(b[14..16]) && cs == FromBe16(b[16..18]) && up == FromBe16(b[18..20])
    ensures Be16(sp) + Be16(dp) + Be32(sn) + Be32(an) == b[0..12]
    ensures Be16(ws) + Be16(cs) + Be16(up) == b[14..20]
  {
    Be16OfFromBe16(b[0..2]);
    Be16OfFromBe16(b[2..4]);
    Be32OfFromBe32(b[4..8]);
    Be32OfFromBe32(b[8..12]);
    Be16OfFromBe16(b[14..16]);
    Be16OfFromBe16(b[16..18]);
    Be16OfFromBe16(b[18..20]);
    assert b[0..12] == b[0..2] + b[2..4] + b[4..8] + b[8..12];
    assert b[14..20] == b[14..16] + b[16..18] + b[18..20];
  }

  /** Byte 13 rebuilt from flags that were read out of `f` is `f` again. */
  lemma FlagsByteOfDecoded(h: Header, f: byte)
    requires h.fin == FlagSet(f, 0x01) && h.syn == FlagSet(f, 0x02) && h.rst == FlagSet(f, 0x04)
    requires h.psh == FlagSet(f, 0x08) && h.ack == FlagSet(f, 0x10) && h.urg == FlagSet(f, 0x20)
    requires h.ece == FlagSet(f, 0x40) && h.cwr == FlagSet(f, 0x80)
    ensures FlagsByte(h) == f
  {
  }
}
