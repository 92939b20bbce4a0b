/** The option layouts that the header tests fix byte for byte, proved for
    every value of the element's arguments. */
module TcpOptionExamples {
  import opened ByteOrder
  import opened Results
  import opened TcpOptions

  /** The bytes of `[Nop, Nop, x, Nop]`, one element at a time. */
  lemma EncodeNopNopXNop(x: OptionElement)
    ensures Encode([Nop, Nop, x, Nop]) == [IdNop, IdNop] + EncodeElement(x) + [IdNop]
  {
    var es := [Nop, Nop, x, Nop];
    assert Encode(es[..1]) == [IdNop] by { assert es[..1][..0] == []; }
    assert Encode(es[..2]) == [IdNop, IdNop] by { assert es[..2][..1] == es[..1]; }
    assert Encode(es[..3]) == [IdNop, IdNop] + EncodeElement(x) by { assert es[..3][..2] == es[..2]; }
    assert es[..|es| - 1] == es[..3];
  }

  /** A layout that fits: the content, END, then `pad` zeros. */
  lemma LayoutOf(es: seq<OptionElement>, content: seq<byte>, pad: nat)
    requires Encode(es) == content && |content| + 1 <= MaxOptionsLen
    requires |content| + 1 + pad == RoundUp4(|content| + 1)
    ensures OptionsLayout(es) == Ok(content + [IdEnd] + Zeros(pad))
  {
    EncodeLength(es);
  }

  /** `[Nop, Nop, MaximumSegmentSize(x), Nop]`: content of 7 bytes, END, no padding. */
  lemma MaximumSegmentSizeLayout(x: bv16)
    ensures OptionsLayout([Nop, Nop, MaximumSegmentSize(x), Nop])
         == Ok([IdNop, IdNop, IdMaximumSegmentSize, 4] + Be16(x) + [IdNop, IdEnd])
  {
    EncodeNopNopXNop(MaximumSegmentSize(x));
    var content := [IdNop, IdNop] + EncodeElement(MaximumSegmentSize(x)) + [IdNop];
    LayoutOf([Nop, Nop, MaximumSegmentSize(x), Nop], content, 0);
    assert content + [IdEnd] + Zeros(0) == [IdNop, IdNop, IdMaximumSegmentSize, 4] + Be16(x) + [IdNop, IdEnd];
  }

  /** `[Nop, Nop, WindowScale(x), Nop]`: content of 6 bytes, END, one zero. */
  lemma WindowScaleLayout(x: bv8)
    ensures OptionsLayout([Nop, Nop, WindowScale(x), Nop])
         == Ok([IdNop, IdNop, IdWindowScale, 3, x, IdNop, IdEnd, 0])
  {
    EncodeNopNopXNop(WindowScale(x));
    var content := [IdNop, IdNop] + EncodeElement(WindowScale(x)) + [IdNop];
    LayoutOf([Nop, Nop, WindowScale(x), Nop], content, 1);
    assert content + [IdEnd] + Zeros(1) == [IdNop, IdNop, IdWindowScale, 3, x, IdNop, IdEnd, 0];
  }

  /** `[Nop, Nop, SelectiveAcknowledgementPermitted, Nop]`: content of 5 bytes, END, two zeros. */
  lemma SelectiveAckPermittedLayout()
    ensures OptionsLayout([Nop, Nop, SelectiveAcknowledgementPermitted, Nop])
         == Ok([IdNop, IdNop, IdSelectiveAckPermitted, 2, IdNop, IdEnd, 0, 0])
  {
    EncodeNopNopXNop(SelectiveAcknowledgementPermitted);
    var content := [IdNop, IdNop] + EncodeElement(SelectiveAcknowledgementPermitted) + [IdNop];
    LayoutOf([Nop, Nop, SelectiveAcknowledgementPermitted, Nop], content, 2);
    assert content + [IdEnd] + Zeros(2) == [IdNop, IdNop, IdSelectiveAckPermitted, 2, IdNop, IdEnd, 0, 0];
  }

  /** `[Nop, Nop, Timestamp(a, b), Nop]`: content of 13 bytes, END, two zeros. */
  lemma TimestampLayout(a: bv32, b: bv32)
    ensures OptionsLayout([Nop, Nop, Timestamp(a, b), Nop])
         == Ok([IdNop, IdNop, IdTimestamp, 10] + Be32(a) + Be32(b) + [IdNop, IdEnd, 0, 0])
  {
    EncodeNopNopXNop(Timestamp(a, b));
    var content := [IdNop, IdNop] + EncodeElement(Timestamp(a, b)) + [IdNop];
    LayoutOf([Nop, Nop, Timestamp(a, b), Nop], content, 2);
    assert content + [IdEnd] + Zeros(2) == [IdNop, IdNop, IdTimestamp, 10] + Be32(a) + Be32(b) + [IdNop, IdEnd, 0, 0];
  }

  /** The content bytes of `[Nop, Nop, SelectiveAcknowledgement(first, rest), Nop]`, where
      `blocks` encodes the present optional blocks. */
  lemma SelectiveAckContent(first: SackRange, rest: SackRest, blocks: seq<byte>)
    requires blocks == EncodeRanges(PresentRanges(rest))
    ensures Encode([Nop, Nop, SelectiveAcknowledgement(first, rest), Nop])
         == [IdNop, IdNop, IdSelectiveAck, SackLenByte(|PresentRanges(rest)|)] + Be32(first.0) + Be32(first.1)
            + blocks + [IdNop]
  {
    var e := SelectiveAcknowledgement(first, rest);
    SelectiveAckBytes(first, rest, blocks);
    EncodeNopNopXNop(e);
  }

  lemma SelectiveAckBytes(first: SackRange, rest: SackRest, blocks: seq<byte>)
    requires blocks == EncodeRanges(PresentRanges(rest))
    ensures EncodeElement(SelectiveAcknowledgement(first, rest))
         == [IdSelectiveAck, SackLenByte(|PresentRanges(rest)|)] + Be32(first.0) + Be32(first.1) + blocks
  {
  }

  /** Appending a concatenation is appending its parts in turn. */
  lemma AppendAssoc(a: seq<byte>, b: seq<byte>, c: seq<byte>)
    ensures a + (b + c) == a + b + c
  {
  }

  /** The framing shared by every `[Nop, Nop, x, Nop]` layout of 14 to 16 bytes mod 4. */
  lemma NopEndPadding(t: seq<byte>)
    ensures t + [IdNop] + [IdEnd] + Zeros(2) == t + [IdNop, IdEnd, 0, 0]
  {
    assert Zeros(2) == [0, 0];
  }

  lemma EncodeTwoRanges(x: SackRange, y: SackRange)
    ensures EncodeRanges([x, y]) == Be32(x.0) + Be32(x.1) + Be32(y.0) + Be32(y.1)
  {
    assert [x, y][1..] == [y];
    assert EncodeRanges([y]) == EncodeRange(y) + EncodeRanges([]);
  }

  lemma EncodeThreeRanges(x: SackRange, y: SackRange, z: SackRange)
    ensures EncodeRanges([x, y, z]) == Be32(x.0) + Be32(x.1) + Be32(y.0) + Be32(y.1) + Be32(z.0) + Be32(z.1)
  {
    assert [x, y, z][1..] == [y, z];
    EncodeTwoRanges(y, z);
  }

  /** A SACK option with only the mandatory block has length 10. */
  lemma SelectiveAck1Layout(a0: bv32, a1: bv32)
    ensures OptionsLayout([Nop, Nop, SelectiveAcknowledgement((a0, a1), (None, None, None)), Nop])
         == Ok([IdNop, IdNop, IdSelectiveAck, 10] + Be32(a0) + Be32(a1) + [IdNop, IdEnd, 0, 0])
  {
    assert PresentRanges((None, None, None)) == [];
    var content := [IdNop, IdNop, IdSelectiveAck, 10] + Be32(a0) + Be32(a1) + [] + [IdNop];
    SelectiveAckContent((a0, a1), (None, None, None), []);
    LayoutOf([Nop, Nop, SelectiveAcknowledgement((a0, a1), (None, None, None)), Nop], content, 2);
    assert content + [IdEnd] + Zeros(2) == [IdNop, IdNop, IdSelectiveAck, 10] + Be32(a0) + Be32(a1) + [IdNop, IdEnd, 0, 0];
  }

  /** A SACK option with one optional block has length 18. */
  lemma SelectiveAck2Layout(a0: bv32, a1: bv32, a2: bv32, a3: bv32)
    ensures OptionsLayout([Nop, Nop, SelectiveAcknowledgement((a0, a1), (Some((a2, a3)), None, None)), Nop])
         == Ok([IdNop, IdNop, IdSelectiveAck, 18] + Be32(a0) + Be32(a1) + Be32(a2) + Be32(a3)
               + [IdNop, IdEnd, 0, 0])
  {
    var rest: SackRest := (Some((a2, a3)), None, None);
    assert PresentRanges(rest) == [(a2, a3)];
    var blocks := Be32(a2) + Be32(a3);
    assert EncodeRanges([(a2, a3)]) == blocks;
    var content := [IdNop, IdNop, IdSelectiveAck, 18] + Be32(a0) + Be32(a1) + blocks + [IdNop];
    SelectiveAckContent((a0, a1), rest, blocks);
    LayoutOf([Nop, Nop, SelectiveAcknowledgement((a0, a1), rest), Nop], content, 2);
    var head := [IdNop, IdNop, IdSelectiveAck, 18] + Be32(a0) + Be32(a1);
    NopEndPadding(head + blocks);
    AppendAssoc(head, Be32(a2), Be32(a3));
  }

  /** A SACK option with two optional blocks has length 26. */
  lemma SelectiveAck3Layout(a0: bv32, a1: bv32, a2: bv32, a3: bv32, a4: bv32, a5: bv32)
    ensures OptionsLayout([Nop, Nop, SelectiveAcknowledgement((a0, a1), (Some((a2, a3)), Some((a4, a5)), None)), Nop])
         == Ok([IdNop, IdNop, IdSelectiveAck, 26] + Be32(a0) + Be32(a1) + Be32(a2) + Be32(a3)
               + Be32(a4) + Be32(a5) + [IdNop, IdEnd, 0, 0])
  {
    var rest: SackRest := (Some((a2, a3)), Some((a4, a5)), None);
    var rs := [(a2, a3), (a4, a5)];
    assert PresentRanges(rest) == rs;
    var blocks := Be32(a2) + Be32(a3) + Be32(a4) + Be32(a5);
    EncodeTwoRanges((a2, a3), (a4, a5));
    var content := [IdNop, IdNop, IdSelectiveAck, 26] + Be32(a0) + Be32(a1) + blocks + [IdNop];
    SelectiveAckContent((a0, a1), rest, blocks);
    LayoutOf([Nop, Nop, SelectiveAcknowledgement((a0, a1), rest), Nop], content, 2);
    var head := [IdNop, IdNop, IdSelectiveAck, 26] + Be32(a0) + Be32(a1);
    NopEndPadding(head + blocks);
    AppendAssoc(head, Be32(a2) + Be32(a3) + Be32(a4), Be32(a5));
    AppendAssoc(head, Be32(a2) + Be32(a3), Be32(a4));
    AppendAssoc(head, Be32(a2), Be32(a3));
  }

  /** A SACK option with all three optional blocks has length 34. */
  lemma SelectiveAck4Layout(a0: bv32, a1: bv32, a2: bv32, a3: bv32, a4: bv32, a5: bv32, a6: bv32, a7: bv32)
    ensures OptionsLayout([Nop, Nop, SelectiveAcknowledgement((a0, a1), (Some((a2, a3)), Some((a4, a5)), Some((a6, a7)))), Nop])
         == Ok([IdNop, IdNop, IdSelectiveAck, 34] + Be32(a0) + Be32(a1) + Be32(a2) + Be32(a3)
               + Be32(a4) + Be32(a5) + Be32(a6) + Be32(a7) + [IdNop, IdEnd, 0, 0])
  {
    var rest: SackRest := (Some((a2, a3)), Some((a4, a5)), Some((a6, a7)));
    var rs := [(a2, a3), (a4, a5), (a6, a7)];
    assert PresentRanges(rest) == rs;
    var blocks := Be32(a2) + Be32(a3) + Be32(a4) + Be32(a5) + Be32(a6) + Be32(a7);
    EncodeThreeRanges((a2, a3), (a4, a5), (a6, a7));
    var content := [IdNop, IdNop, IdSelectiveAck, 34] + Be32(a0) + Be32(a1) + blocks + [IdNop];
    SelectiveAckContent((a0, a1), rest, blocks);
    LayoutOf([Nop, Nop, SelectiveAcknowledgement((a0, a1), rest), Nop], content, 2);
    var head := [IdNop, IdNop, IdSelectiveAck, 34] + Be32(a0) + Be32(a1);
    NopEndPadding(head + blocks);
    AppendAssoc(head, Be32(a2) + Be32(a3) + Be32(a4) + Be32(a5) + Be32(a6), Be32(a7));
    AppendAssoc(head, Be32(a2) + Be32(a3) + Be32(a4) + Be32(a5), Be32(a6));
    AppendAssoc(head, Be32(a2) + Be32(a3) + Be32(a4), Be32(a5));
    AppendAssoc(head, Be32(a2) + Be32(a3), Be32(a4));
    AppendAssoc(head, Be32(a2), Be32(a3));
  }

  /** Element lengths add up: 4 + 3 + 2 + 18 + 10 + 3 = 40 bytes of content, plus END, is 41. */
  lemma NotEnoughSpaceMixed()
    ensures OptionsLayout([MaximumSegmentSize(1), WindowScale(2), SelectiveAcknowledgementPermitted,
                           SelectiveAcknowledgement((3, 4), (Some((5, 6)), None, None)),
                           Timestamp(5, 6), Nop, Nop, Nop])
         == Err(NotEnoughSpace(41))
  {
    var es := [MaximumSegmentSize(1), WindowScale(2), SelectiveAcknowledgementPermitted,
               SelectiveAcknowledgement((3, 4), (Some((5, 6)), None, None)),
               Timestamp(5, 6), Nop, Nop, Nop];
    assert PresentRanges((Some((5, 6)), None, None)) == [(5, 6)];
    assert EncodedLen(es[..1]) == 4 by { assert es[..1][..0] == []; }
    assert EncodedLen(es[..2]) == 7 by { assert es[..2][..1] == es[..1]; }
    assert EncodedLen(es[..3]) == 9 by { assert es[..3][..2] == es[..2]; }
    assert EncodedLen(es[..4]) == 27 by { assert es[..4][..3] == es[..3]; }
    assert EncodedLen(es[..5]) == 37 by { assert es[..5][..4] == es[..4]; }
    assert EncodedLen(es[..6]) == 38 by { assert es[..6][..5] == es[..5]; }
    assert EncodedLen(es[..7]) == 39 by { assert es[..7][..6] == es[..6]; }
    assert es[..8] == es;
    assert EncodedLen(es) == 40 by { assert es[..7] == es[..|es| - 1]; }
  }

  /** 1 + 34 + 4 + 1 = 40 bytes of content, plus END, is 41. */
  lemma NotEnoughSpaceFullSack()
    ensures OptionsLayout([Nop, SelectiveAcknowledgement((3, 4), (Some((5, 6)), Some((5, 6)), Some((5, 6)))),
                           MaximumSegmentSize(1), Nop])
         == Err(NotEnoughSpace(41))
  {
    var es := [Nop, SelectiveAcknowledgement((3, 4), (Some((5, 6)), Some((5, 6)), Some((5, 6)))),
               MaximumSegmentSize(1), Nop];
    assert PresentRanges((Some((5, 6)), Some((5, 6)), Some((5, 6)))) == [(5, 6), (5, 6), (5, 6)];
    assert EncodedLen(es[..1]) == 1 by { assert es[..1][..0] == []; }
    assert EncodedLen(es[..2]) == 35 by { assert es[..2][..1] == es[..1]; }
    assert EncodedLen(es[..3]) == 39 by { assert es[..3][..2] == es[..2]; }
    assert EncodedLen(es) == 40 by { assert es[..|es| - 1] == es[..3]; }
  }

  /** 1 + 10 + 10 + 10 + 4 + 5 = 40 bytes of content, plus END, is 41. */
  lemma NotEnoughSpaceManyNops()
    ensures OptionsLayout([Nop, SelectiveAcknowledgement((3, 4), (None, None, None)),
                           Timestamp(1, 2), Timestamp(1, 2), MaximumSegmentSize(1),
                           Nop, Nop, Nop, Nop, Nop])
         == Err(NotEnoughSpace(41))
  {
    var es := [Nop, SelectiveAcknowledgement((3, 4), (None, None, None)),
               Timestamp(1, 2), Timestamp(1, 2), MaximumSegmentSize(1),
               Nop, Nop, Nop, Nop, Nop];
    assert PresentRanges((None, None, None)) == [];
    assert EncodedLen(es[..1]) == 1 by { assert es[..1][..0] == []; }
    assert EncodedLen(es[..2]) == 11 by { assert es[..2][..1] == es[..1]; }
    assert EncodedLen(es[..3]) == 21 by { assert es[..3][..2] == es[..2]; }
    assert EncodedLen(es[..4]) == 31 by { assert es[..4][..3] == es[..3]; }
    assert EncodedLen(es[..5]) == 35 by { assert es[..5][..4] == es[..4]; }
    assert EncodedLen(es[..6]) == 36 by { assert es[..6][..5] == es[..5]; }
    assert EncodedLen(es[..7]) == 37 by { assert es[..7][..6] == es[..6]; }
    assert EncodedLen(es[..8]) == 38 by { assert es[..8][..7] == es[..7]; }
    assert EncodedLen(es[..9]) == 39 by { assert es[..9][..8] == es[..8]; }
    assert EncodedLen(es) == 40 by { assert es[..|es| - 1] == es[..9]; }
  }
}
