/** The owned `TcpHeader` as the program keeps it: public fields plus a fixed
    40-byte options buffer and its used length, which `set_options_raw` and
    `set_options` overwrite in place. */
module TcpOwned {
  import opened ByteOrder
  import opened Results
  import opened TcpOptions
  import opened TcpWire

  class TcpHeader {
    var sourcePort: bv16
    var destinationPort: bv16
    var sequenceNumber: bv32
    var acknowledgmentNumber: bv32
    var ns: bool
    var fin: bool
    var syn: bool
    var rst: bool
    var psh: bool
    var ack: bool
    var ece: bool
    var urg: bool
    var cwr: bool
    var windowSize: bv16
    var checksum: bv16
    var urgentPointer: bv16
    /** The options storage; only its first `optionsLen` bytes are options. */
    const optionsBuffer: array<byte>
    var optionsLen: nat

    /** The buffer holds 40 bytes, the used part is whole words, and the unused
        part is zero (which makes two headers with equal values compare equal). */
    ghost predicate Valid()
      reads this, optionsBuffer
    {
      optionsBuffer.Length == MaxOptionsLen &&
      optionsLen <= MaxOptionsLen && optionsLen % 4 == 0 &&
      forall i :: optionsLen <= i < MaxOptionsLen ==> optionsBuffer[i] == 0
    }

    /** The header value this object holds. */
    function Value(): Header
      reads this, optionsBuffer
      requires Valid()
    {
      Header(sourcePort, destinationPort, sequenceNumber, acknowledgmentNumber,
             ns, fin, syn, rst, psh, ack, ece, urg, cwr,
             windowSize, checksum, urgentPointer, optionsBuffer[..optionsLen])
    }

    /** `Default::default()`. */
    constructor ()
      ensures Valid() && fresh(optionsBuffer)
      ensures Value() == DefaultHeader
    {
      sourcePort, destinationPort, sequenceNumber, acknowledgmentNumber := 0, 0, 0, 0;
      ns, fin, syn, rst, psh, ack, ece, urg, cwr := false, false, false, false, false, false, false, false, false;
      windowSize, checksum, urgentPointer := 0, 0, 0;
      optionsBuffer := new byte[MaxOptionsLen](_ => 0);
      optionsLen := 0;
    }

    /** A header object holding the value `h`. */
    constructor FromValue(h: Header)
      ensures Valid() && fresh(optionsBuffer)
      ensures Value() == h
    {
      sourcePort, destinationPort := h.sourcePort, h.destinationPort;
      sequenceNumber, acknowledgmentNumber := h.sequenceNumber, h.acknowledgmentNumber;
      ns, fin, syn, rst, psh := h.ns, h.fin, h.syn, h.rst, h.psh;
      ack, ece, urg, cwr := h.ack, h.ece, h.urg, h.cwr;
      windowSize, checksum, urgentPointer := h.windowSize, h.checksum, h.urgentPointer;
      optionsBuffer := new byte[MaxOptionsLen](i => if 0 <= i < |h.options| then h.options[i] else 0);
      optionsLen := |h.options|;
      new;
      assert optionsBuffer[..optionsLen] == h.options;
    }

    /** `clone()`: an independent header with the same value. */
    method Clone() returns (c: TcpHeader)
      requires Valid()
      ensures fresh(c) && fresh(c.optionsBuffer)
      ensures c.Valid() && c.Value() == Value()
    {
      c := new TcpHeader.FromValue(Value());
    }

    /** Zero the whole options buffer. An internal step of `SetOptionsRaw` and
        `SetOptions`, which restore `Valid()` by setting `optionsLen` afterwards;
        on its own it may leave `Valid()` broken. */
    method ClearOptions()
      requires optionsBuffer.Length == MaxOptionsLen
      modifies optionsBuffer
      ensures forall i :: 0 <= i < MaxOptionsLen ==> optionsBuffer[i] == 0
    {
      forall i | 0 <= i < MaxOptionsLen {
        optionsBuffer[i] := 0;
      }
    }

    /** Copy `bytes` into the options buffer starting at index `at`. An internal
        step of `SetOptionsRaw` and `SetOptions`: it can put non-zero bytes past
        `optionsLen`, so it neither needs nor keeps `Valid()`; its callers set
        `optionsLen` afterwards. */
    method PutBytes(at: nat, bytes: seq<byte>)
      requires at + |bytes| <= optionsBuffer.Length
      modifies optionsBuffer
      ensures optionsBuffer[..at] == old(optionsBuffer[..at])
      ensures optionsBuffer[at..at + |bytes|] == bytes
      ensures forall i :: at + |bytes| <= i < optionsBuffer.Length ==> optionsBuffer[i] == old(optionsBuffer[i])
    {
      var j := 0;
      while j < |bytes|
        invariant 0 <= j <= |bytes|
        invariant forall i :: 0 <= i < at ==> optionsBuffer[i] == old(optionsBuffer[i])
        invariant forall i :: at <= i < at + j ==> optionsBuffer[i] == bytes[i - at]
        invariant forall i :: at + j <= i < optionsBuffer.Length ==> optionsBuffer[i] == old(optionsBuffer[i])
      {
        optionsBuffer[at + j] := bytes[j];
        j := j + 1;
      }
      assert optionsBuffer[at..at + |bytes|] == bytes;
    }

    /** `set_options_raw(data)`: on success the options are `data` zero-padded to
        whole words; on `NotEnoughSpace` nothing changes. */
    method SetOptionsRaw(data: seq<byte>) returns (r: Result<(), OptionWriteError>)
      requires Valid()
      modifies this`optionsLen, optionsBuffer
      ensures Valid()
      ensures match RawOptionsLayout(data)
        case Ok(o) => r == Ok(()) && Value() == old(Value()).(options := o)
        case Err(e) => r == Err(e) && Value() == old(Value())
    {
      if |data| > MaxOptionsLen {
        return Err(NotEnoughSpace(|data|));
      }
      ClearOptions();
      PutBytes(0, data);
      optionsLen := RoundUp4(|data|);
      assert optionsBuffer[..optionsLen] == RawOptionsLayout(data).value;
      r := Ok(());
    }

    /** `set_options(elements)`: on success the options are the encoded elements,
        an END byte and zero padding to whole words; on `NotEnoughSpace` nothing changes. */
    method SetOptions(elements: seq<OptionElement>) returns (r: Result<(), OptionWriteError>)
      requires Valid()
      modifies this`optionsLen, optionsBuffer
      ensures Valid()
      ensures match OptionsLayout(elements)
        case Ok(o) => r == Ok(()) && Value() == old(Value()).(options := o)
        case Err(e) => r == Err(e) && Value() == old(Value())
    {
      var required := RequiredLength(elements);
      if required > MaxOptionsLen {
        return Err(NotEnoughSpace(required));
      }
      ClearOptions();
      var i := EncodeInto(elements);
      optionsBuffer[i] := IdEnd;
      optionsLen := RoundUp4(i + 1);
      ghost var content := Encode(elements) + [IdEnd];
      assert optionsBuffer[..i + 1] == content;
      PaddedPrefix(optionsBuffer[..], content);
      assert optionsBuffer[..optionsLen] == OptionsLayout(elements).value;
      r := Ok(());
    }

    /** `write(&mut out)`: appends the serialised header, field by field, to `out`. */
    method Write(out: seq<byte>) returns (written: seq<byte>)
      requires Valid()
      ensures written == out + TcpWire.Write(Value())
    {
      var h := Value();
      written := out + Be16(sourcePort) + Be16(destinationPort);
      written := written + Be32(sequenceNumber) + Be32(acknowledgmentNumber);
      written := written + [OffsetByte(h.DataOffset(), ns), FlagsByte(h)];
      written := written + Be16(windowSize) + Be16(checksum) + Be16(urgentPointer);
      written := written + optionsBuffer[..optionsLen];
      AppendWrite(out, h);
    }

    /** Write the elements one after the other from the start of a zeroed buffer;
        returns the number of bytes written. An internal step of `SetOptions`,
        which writes END and sets `optionsLen` afterwards to restore `Valid()`. */
    method EncodeInto(elements: seq<OptionElement>) returns (i: nat)
      requires optionsBuffer.Length == MaxOptionsLen && EncodedLen(elements) < MaxOptionsLen
      requires forall j :: 0 <= j < MaxOptionsLen ==> optionsBuffer[j] == 0
      modifies optionsBuffer
      ensures i == |Encode(elements)| < MaxOptionsLen
      ensures optionsBuffer[..i] == Encode(elements)
      ensures forall j :: i <= j < MaxOptionsLen ==> optionsBuffer[j] == 0
    {
      i := 0;
      var k := 0;
      assert elements[..0] == [];
      while k < |elements|
        invariant 0 <= k <= |elements|
        invariant i == |Encode(elements[..k])| && i <= EncodedLen(elements)
        invariant optionsBuffer[..i] == Encode(elements[..k])
        invariant forall j :: i <= j < MaxOptionsLen ==> optionsBuffer[j] == 0
      {
        var bytes := EncodeElement(elements[k]);
        EncodeStep(elements, k);
        PutBytes(i, bytes);
        assert optionsBuffer[..i + |bytes|] == optionsBuffer[..i] + optionsBuffer[i..i + |bytes|];
        i, k := i + |bytes|, k + 1;
      }
      assert elements[..k] == elements;
      EncodeLength(elements);
    }

  }

  /** One more element extends the encoding by its own bytes and stays within the total. */
  lemma EncodeStep(elements: seq<OptionElement>, k: nat)
    requires k < |elements|
    ensures Encode(elements[..k + 1]) == Encode(elements[..k]) + EncodeElement(elements[k])
    ensures |Encode(elements[..k + 1])| <= EncodedLen(elements)
  {
    assert elements[..k + 1][..k] == elements[..k];
    EncodeLength(elements[..k + 1]);
    EncodedLenPrefix(elements, k + 1);
  }

  /** A buffer holding `c` and then only zeros holds `c` padded to whole words
      in its first `RoundUp4(|c|)` bytes. */
  lemma PaddedPrefix(buffer: seq<byte>, c: seq<byte>)
    requires RoundUp4(|c|) <= |buffer|
    requires buffer[..|c|] == c
    requires forall j :: |c| <= j < |buffer| ==> buffer[j] == 0
    ensures buffer[..RoundUp4(|c|)] == PadToWord(c)
  {
    var p := PadToWord(c);
    var b := buffer[..RoundUp4(|c|)];
    forall j | 0 <= j < |p| ensures b[j] == p[j] {
      if j < |c| {
        assert b[j] == buffer[..|c|][j];
        assert p[j] == p[..|c|][j];
      }
    }
  }

  /** The space `set_options` first computes: every element's length plus one END byte. */
  method RequiredLength(elements: seq<OptionElement>) returns (n: nat)
    ensures n == RequiredLen(elements)
  {
    n := 1;
    for k := 0 to |elements|
      invariant n == EncodedLen(elements[..k]) + 1
    {
      assert elements[..k + 1][..k] == elements[..k];
      n := n + ElementLen(elements[k]);
    }
    assert elements[..|elements|] == elements;
  }
}
