/** `PacketSlice<TcpHeader>`: a view over serialised header bytes, validated
    once by `from_slice`, whose accessors read each field from its fixed
    position in the bytes. */
module TcpSlice {
  import opened ByteOrder
  import opened Results
  import opened TcpOptions
  import opened TcpWire

  /** The bytes of exactly one header, `data_offset * 4` of them. */
  datatype HeaderSlice = HeaderSlice(bytes: seq<byte>)
  {
    /** What `from_slice` establishes: a data offset of at least five words
        and exactly as many bytes as it states. */
    ghost predicate Valid()
    {
      MinimumHeaderLen <= |bytes| &&
      MinimumDataOffset <= DataOffsetOf(bytes[12]) &&
      |bytes| == DataOffsetOf(bytes[12]) * 4
    }

    function SourcePort(): bv16
      requires Valid()
    {
      FromBe16(bytes[0..2])
    }

    function DestinationPort(): bv16
      requires Valid()
    {
      FromBe16(bytes[2..4])
    }

    function SequenceNumber(): bv32
      requires Valid()
    {
      FromBe32(bytes[4..8])
    }

    function AcknowledgmentNumber(): bv32
      requires Valid()
    {
      FromBe32(bytes[8..12])
    }

    function DataOffset(): nat
      requires Valid()
    {
      DataOffsetOf(bytes[12])
    }

    function Ns(): bool requires Valid() { FlagSet(bytes[12], 0x01) }
    function Fin(): bool requires Valid() { FlagSet(bytes[13], 0x01) }
    function Syn(): bool requires Valid() { FlagSet(bytes[13], 0x02) }
    function Rst(): bool requires Valid() { FlagSet(bytes[13], 0x04) }
    function Psh(): bool requires Valid() { FlagSet(bytes[13], 0x08) }
    function Ack(): bool requires Valid() { FlagSet(bytes[13], 0x10) }
    function Urg(): bool requires Valid() { FlagSet(bytes[13], 0x20) }
    function Ece(): bool requires Valid() { FlagSet(bytes[13], 0x40) }
    function Cwr(): bool requires Valid() { FlagSet(bytes[13], 0x80) }

    function WindowSize(): bv16
      requires Valid()
    {
      FromBe16(bytes[14..16])
    }

    function Checksum(): bv16
      requires Valid()
    {
      FromBe16(bytes[16..18])
    }

    function UrgentPointer(): bv16
      requires Valid()
    {
      FromBe16(bytes[18..20])
    }

    /** The options region, borrowed from the bytes after the fixed part. */
    function Options(): (o: seq<byte>)
      requires Valid()
      ensures |o| <= MaxOptionsLen && |o| % 4 == 0
    {
      bytes[MinimumHeaderLen..]
    }

    /** `to_header`: an owned header assembled from the accessors. */
    function ToHeader(): (h: Header)
      requires Valid()
      ensures h.HeaderLen() == |bytes|
    {
      Header(SourcePort(), DestinationPort(), SequenceNumber(), AcknowledgmentNumber(),
             Ns(), Fin(), Syn(), Rst(), Psh(), Ack(), Ece(), Urg(), Cwr(),
             WindowSize(), Checksum(), UrgentPointer(), Options())
    }
  }

  /** `from_slice`: at least 20 bytes, a data offset of at least five words,
      and at least `data_offset * 4` bytes; the view is the first
      `data_offset * 4` of them. */
  function FromSlice(b: seq<byte>): (r: Result<HeaderSlice, ReadError>)
    ensures r.Ok? ==> r.value.Valid() && |r.value.bytes| <= |b| && r.value.bytes == b[..|r.value.bytes|]
  {
    if |b| < MinimumHeaderLen then Err(UnexpectedEndOfSlice(MinimumHeaderLen))
    else
      var dataOffset := DataOffsetOf(b[12]);
      if dataOffset < MinimumDataOffset then Err(TcpDataOffsetTooSmall(dataOffset))
      else if |b| < dataOffset * 4 then Err(UnexpectedEndOfSlice(dataOffset * 4))
      else Ok(HeaderSlice(b[..dataOffset * 4]))
  }

  /** The slice over a serialised header, with anything after it, covers exactly
      the header, and every accessor returns the field that was written. */
  lemma FromSliceWrite(h: Header, rest: seq<byte>)
    ensures FromSlice(Write(h) + rest) == Ok(HeaderSlice(Write(h)))
    ensures var s := HeaderSlice(Write(h));
      s.Valid() &&
      s.SourcePort() == h.sourcePort && s.DestinationPort() == h.destinationPort &&
      s.SequenceNumber() == h.sequenceNumber && s.AcknowledgmentNumber() == h.acknowledgmentNumber &&
      s.DataOffset() == h.DataOffset() &&
      s.Ns() == h.ns && s.Fin() == h.fin && s.Syn() == h.syn && s.Rst() == h.rst &&
      s.Psh() == h.psh && s.Ack() == h.ack && s.Ece() == h.ece && s.Urg() == h.urg && s.Cwr() == h.cwr &&
      s.WindowSize() == h.windowSize && s.Checksum() == h.checksum && s.UrgentPointer() == h.urgentPointer &&
      s.Options() == h.options
  {
    var w := Write(h);
    WriteLayout(h);
    OffsetByteDecodes(h.DataOffset(), h.ns);
    FlagsByteDecodes(h);
    assert (w + rest)[12] == w[12];
    assert (w + rest)[..|w|] == w;
    FromBe16OfBe16(h.sourcePort);
    FromBe16OfBe16(h.destinationPort);
    FromBe32OfBe32(h.sequenceNumber);
    FromBe32OfBe32(h.acknowledgmentNumber);
    FromBe16OfBe16(h.windowSize);
    FromBe16OfBe16(h.checksum);
    FromBe16OfBe16(h.urgentPointer);
  }

  /** `to_header` of the slice over a serialised header is the header written. */
  lemma ToHeaderWrite(h: Header)
    ensures HeaderSlice(Write(h)).Valid() && HeaderSlice(Write(h)).ToHeader() == h
  {
    FromSliceWrite(h, []);
  }

  /** A serialised header whose data offset is overwritten with a value below
      five is refused by `from_slice` with that value. */
  lemma FromSliceDataOffsetTooSmall(h: Header, dataOffset: byte)
    requires dataOffset < MinimumDataOffset as byte
    ensures FromSlice(WithDataOffset(Write(h), dataOffset)) == Err(TcpDataOffsetTooSmall(dataOffset as nat))
  {
  }

  /** `from_slice` followed by `to_header` parses like `read`: the same header when
      both succeed, the same too-small data offset, and a short slice where
      `read` runs out of input. */
  lemma FromSliceAgreesWithRead(b: seq<byte>)
    ensures match FromSlice(b)
      case Ok(s) => Read(b) == Ok(s.ToHeader())
      case Err(TcpDataOffsetTooSmall(d)) => Read(b) == Err(TcpDataOffsetTooSmall(d))
      case Err(_) => Read(b) == Err(IoError)
  {
    if FromSlice(b).Ok? {
      var s := FromSlice(b).value;
      var n := |s.bytes|;
      assert s.bytes == b[..n];
      assert s.bytes[0..2] == b[0..2];
      assert s.bytes[2..4] == b[2..4];
      assert s.bytes[4..8] == b[4..8];
      assert s.bytes[8..12] == b[8..12];
      assert s.bytes[12] == b[12] && s.bytes[13] == b[13];
      assert s.bytes[14..16] == b[14..16];
      assert s.bytes[16..18] == b[16..18];
      assert s.bytes[18..20] == b[18..20];
      assert s.bytes[MinimumHeaderLen..] == b[MinimumHeaderLen..n];
    }
  }
}
