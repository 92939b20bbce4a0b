/** TCP option elements and the byte layouts produced by `set_options` and
    `set_options_raw`: the contents of the options region of a header.

    Option kinds and their layouts are the registered ones: END (kind 0) and
    NOP (kind 1) from section 3.1 of RFC 9293, Maximum Segment Size from
    section 3.2 of RFC 9293, Window Scale from section 2.2 of RFC 7323,
    Timestamps from section 3.2 of RFC 7323, SACK-Permitted from section 2 of
    RFC 2018 and SACK from section 3 of RFC 2018. */
module TcpOptions {
  import opened ByteOrder
  import opened Results

  const IdEnd: byte := 0
  const IdNop: byte := 1
  const IdMaximumSegmentSize: byte := 2
  const IdWindowScale: byte := 3
  const IdSelectiveAckPermitted: byte := 4
  const IdSelectiveAck: byte := 5
  const IdTimestamp: byte := 8

  /** Capacity of the options region: a data offset of 15 words minus the 5 fixed ones. */
  const MaxOptionsLen: nat := 40

  /** An options region as the header stores it: whole words, at most 40 bytes. */
  type OptionsRegion = s: seq<byte> | |s| <= MaxOptionsLen && |s| % 4 == 0

  /** One SACK block: left edge and right edge sequence numbers. */
  type SackRange = (bv32, bv32)

  /** The up to three optional SACK blocks that follow the mandatory one. */
  type SackRest = (Option<SackRange>, Option<SackRange>, Option<SackRange>)

  datatype OptionElement =
    | Nop
    | MaximumSegmentSize(mss: bv16)
    | WindowScale(shift: bv8)
    | SelectiveAcknowledgementPermitted
    | SelectiveAcknowledgement(first: SackRange, rest: SackRest)
    | Timestamp(value: bv32, echo: bv32)

  datatype OptionWriteError = NotEnoughSpace(required: nat)

  /** The kind byte that starts the encoding of `e`. */
  function Kind(e: OptionElement): byte
  {
    match e
    case Nop => IdNop
    case MaximumSegmentSize(_) => IdMaximumSegmentSize
    case WindowScale(_) => IdWindowScale
    case SelectiveAcknowledgementPermitted => IdSelectiveAckPermitted
    case SelectiveAcknowledgement(_, _) => IdSelectiveAck
    case Timestamp(_, _) => IdTimestamp
  }

  function PresentRange(o: Option<SackRange>): seq<SackRange>
  {
    if o.Some? then [o.value] else []
  }

  /** The optional SACK blocks that are present, in order; absent ones are skipped. */
  function PresentRanges(rest: SackRest): (r: seq<SackRange>)
    ensures |r| <= 3
  {
    PresentRange(rest.0) + PresentRange(rest.1) + PresentRange(rest.2)
  }

  /** Wire length of each element, kind byte and length byte included:
      the table the required-space computation of `set_options` uses. */
  function ElementLen(e: OptionElement): nat
  {
    match e
    case Nop => 1
    case MaximumSegmentSize(_) => 4
    case WindowScale(_) => 3
    case SelectiveAcknowledgementPermitted => 2
    case SelectiveAcknowledgement(_, rest) => 10 + 8 * |PresentRanges(rest)|
    case Timestamp(_, _) => 10
  }

  function EncodeRange(r: SackRange): (b: seq<byte>)
    ensures |b| == 8 && DecodeRange(b) == r
  {
    var b := Be32(r.0) + Be32(r.1);
    assert b[..4] == Be32(r.0) && b[4..] == Be32(r.1);
    FromBe32OfBe32(r.0);
    FromBe32OfBe32(r.1);
    b
  }

  /** The SACK block stored in the 8 bytes `w`: two big-endian 32-bit edges. */
  function DecodeRange(w: seq<byte>): SackRange
    requires |w| == 8
  {
    (FromBe32(w[..4]), FromBe32(w[4..]))
  }

  function EncodeRanges(rs: seq<SackRange>): (b: seq<byte>)
    ensures |b| == 8 * |rs|
  {
    if rs == [] then [] else EncodeRange(rs[0]) + EncodeRanges(rs[1..])
  }

  /** The length byte of a SACK option carrying `n` optional blocks besides the mandatory one. */
  function SackLenByte(n: nat): (b: byte)
    requires n <= 3
    ensures b as nat == 10 + 8 * n
  {
    if n == 0 then 10 else if n == 1 then 18 else if n == 2 then 26 else 34
  }

  /** The bytes of one element: the kind byte, then (except for NOP) the total
      length byte, then the payload in network byte order. */
  function EncodeElement(e: OptionElement): (r: seq<byte>)
    ensures |r| == ElementLen(e)
    ensures r[0] == Kind(e)
  {
    match e
    case Nop => [IdNop]
    case MaximumSegmentSize(mss) => [IdMaximumSegmentSize, 4] + Be16(mss)
    case WindowScale(shift) => [IdWindowScale, 3, shift]
    case SelectiveAcknowledgementPermitted => [IdSelectiveAckPermitted, 2]
    case SelectiveAcknowledgement(first, rest) =>
      var ranges := PresentRanges(rest);
      [IdSelectiveAck, SackLenByte(|ranges|)] + EncodeRange(first) + EncodeRanges(ranges)
    case Timestamp(value, echo) => [IdTimestamp, 10] + Be32(value) + Be32(echo)
  }

  /** Every element but NOP carries its own total length in its second byte. */
  lemma LengthByte(e: OptionElement)
    requires !e.Nop?
    ensures EncodeElement(e)[1] as nat == ElementLen(e)
  {
  }

  /** The payload of every element decodes back to the element's values. */
  lemma EncodeElementPayload(e: OptionElement)
    ensures var r := EncodeElement(e);
      match e
      case Nop => true
      case MaximumSegmentSize(mss) => FromBe16(r[2..4]) == mss
      case WindowScale(shift) => r[2] == shift
      case SelectiveAcknowledgementPermitted => true
      case SelectiveAcknowledgement(first, rest) => SackPayloadDecodes(r, first, PresentRanges(rest))
      case Timestamp(value, echo) => FromBe32(r[2..6]) == value && FromBe32(r[6..10]) == echo
  {
    match e
    case SelectiveAcknowledgement(first, rest) =>
      SackPayload(first, rest);
    case MaximumSegmentSize(mss) =>
      assert EncodeElement(e)[2..4] == Be16(mss);
      FromBe16OfBe16(mss);
    case Timestamp(value, echo) =>
      var r := EncodeElement(e);
      assert r[2..6] == Be32(value) && r[6..10] == Be32(echo);
      FromBe32OfBe32(value);
      FromBe32OfBe32(echo);
    case _ =>
  }

  /** The SACK payload `r[2..]` holds the mandatory block, then each present block. */
  ghost predicate SackPayloadDecodes(r: seq<byte>, first: SackRange, ranges: seq<SackRange>)
  {
    |r| == 10 + 8 * |ranges| &&
    DecodeRange(r[2..10]) == first &&
    forall k :: 0 <= k < |ranges| ==> DecodeRange(r[10 + 8 * k..18 + 8 * k]) == ranges[k]
  }

  lemma SackPayload(first: SackRange, rest: SackRest)
    ensures SackPayloadDecodes(EncodeElement(SelectiveAcknowledgement(first, rest)), first, PresentRanges(rest))
  {
    var r := EncodeElement(SelectiveAcknowledgement(first, rest));
    var ranges := PresentRanges(rest);
    var head := [IdSelectiveAck, SackLenByte(|ranges|)] + EncodeRange(first);
    var tail := EncodeRanges(ranges);
    assert r == head + tail;
    assert r[2..10] == EncodeRange(first);
    forall k | 0 <= k < |ranges|
      ensures DecodeRange(r[10 + 8 * k..18 + 8 * k]) == ranges[k]
    {
      EncodeRangesAt(ranges, k);
      assert r[10 + 8 * k..18 + 8 * k] == tail[8 * k..8 * k + 8];
    }
  }

  /** Block `k` of an encoded block list sits at bytes `8k .. 8k+8`. */
  lemma {:induction false} EncodeRangesAt(rs: seq<SackRange>, k: nat)
    requires k < |rs|
    ensures EncodeRanges(rs)[8 * k..8 * k + 8] == EncodeRange(rs[k])
  {
    if k > 0 {
      EncodeRangesAt(rs[1..], k - 1);
      assert EncodeRanges(rs)[8 * k..8 * k + 8] == EncodeRanges(rs[1..])[8 * (k - 1)..8 * (k - 1) + 8];
    }
  }

  /** The elements encoded one after the other, in order. */
  function Encode(es: seq<OptionElement>): seq<byte>
  {
    if es == [] then [] else Encode(es[..|es| - 1]) + EncodeElement(es[|es| - 1])
  }

  /** Sum of the element lengths: the content size `set_options` checks against the capacity. */
  function EncodedLen(es: seq<OptionElement>): nat
  {
    if es == [] then 0 else EncodedLen(es[..|es| - 1]) + ElementLen(es[|es| - 1])
  }

  /** The size table agrees with the bytes actually produced. */
  lemma {:induction false} EncodeLength(es: seq<OptionElement>)
    ensures |Encode(es)| == EncodedLen(es)
  {
    if es != [] {
      EncodeLength(es[..|es| - 1]);
    }
  }

  /** A prefix of the elements never needs more room than all of them. */
  lemma {:induction false} EncodedLenPrefix(es: seq<OptionElement>, k: nat)
    requires k <= |es|
    ensures EncodedLen(es[..k]) <= EncodedLen(es)
  {
    if k < |es| {
      assert es[..|es| - 1][..k] == es[..k];
      EncodedLenPrefix(es[..|es| - 1], k);
    } else {
      assert es[..k] == es;
    }
  }

  /** `n` rounded up to the next multiple of 4 (the options region is made of 32-bit words). */
  function RoundUp4(n: nat): (r: nat)
    ensures r % 4 == 0 && n <= r < n + 4
  {
    var words := n / 4 + (if n % 4 != 0 then 1 else 0);
    words * 4
  }

  function Zeros(n: nat): (z: seq<byte>)
    ensures |z| == n && forall j :: 0 <= j < n ==> z[j] == 0
  {
    seq(n, _ => 0)
  }

  /** `s` followed by zero bytes up to the next multiple of 4. */
  function PadToWord(s: seq<byte>): (r: seq<byte>)
    ensures |r| == RoundUp4(|s|) && r[..|s|] == s
    ensures forall j :: |s| <= j < |r| ==> r[j] == 0
  {
    s + Zeros(RoundUp4(|s|) - |s|)
  }

  /** The options region that `set_options_raw(data)` installs: the raw bytes
      followed by zero padding to a whole number of words, or
      `NotEnoughSpace(|data|)` when they do not fit in 40 bytes. */
  function RawOptionsLayout(data: seq<byte>): (r: Result<OptionsRegion, OptionWriteError>)
    ensures r.Ok? <==> |data| <= MaxOptionsLen
    ensures r.Err? ==> r.error == NotEnoughSpace(|data|)
    ensures r.Ok? ==> |r.value| == RoundUp4(|data|) && |r.value| <= MaxOptionsLen
    ensures r.Ok? ==> r.value[..|data|] == data
    ensures r.Ok? ==> forall j :: |data| <= j < |r.value| ==> r.value[j] == 0
  {
    if |data| > MaxOptionsLen then Err(NotEnoughSpace(|data|)) else Ok(PadToWord(data))
  }

  /** The number of bytes `set_options(es)` needs: every element plus one END byte. */
  function RequiredLen(es: seq<OptionElement>): nat
  {
    EncodedLen(es) + 1
  }

  /** The options region that `set_options(es)` installs: the encoded elements,
      one END byte, then zeros up to a whole number of words; or
      `NotEnoughSpace(required)` when that required size exceeds 40 bytes. */
  function OptionsLayout(es: seq<OptionElement>): Result<OptionsRegion, OptionWriteError>
  {
    var required := RequiredLen(es);
    if required > MaxOptionsLen then Err(NotEnoughSpace(required))
    else
      EncodeLength(es);
      Ok(PadToWord(Encode(es) + [IdEnd]))
  }

  /** What `set_options(es)` promises: it fails exactly when the elements and the
      END byte need more than 40 bytes, reporting that number; otherwise the
      region is the encoded elements, END, and zeros to a whole number of words. */
  lemma OptionsLayoutSpec(es: seq<OptionElement>)
    ensures RequiredLen(es) == |Encode(es)| + 1
    ensures OptionsLayout(es).Ok? <==> RequiredLen(es) <= MaxOptionsLen
    ensures OptionsLayout(es).Err? ==> OptionsLayout(es).error == NotEnoughSpace(RequiredLen(es))
    ensures OptionsLayout(es).Ok? ==>
      var o := OptionsLayout(es).value;
      |o| == RoundUp4(RequiredLen(es)) && |o| <= MaxOptionsLen &&
      o[..|Encode(es)|] == Encode(es) && o[|Encode(es)|] == IdEnd &&
      forall j :: |Encode(es)| < j < |o| ==> o[j] == 0
  {
    EncodeLength(es);
    if OptionsLayout(es).Ok? {
      var content := Encode(es) + [IdEnd];
      var o := OptionsLayout(es).value;
      assert o[..|content|] == content;
      assert o[..|Encode(es)|] == content[..|Encode(es)|];
    }
  }
}
