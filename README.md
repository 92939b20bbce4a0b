# etherparse TCP header codec in Dafny

This project models the TCP header codec of the etherparse Rust crate and proves its properties. The behaviour modelled is the one the crate's header tests in `tests/transport/tcp.rs` fix. It has four parts:

- **The owned `TcpHeader`.** It holds:
  - the ports;
  - the sequence and acknowledgment numbers;
  - the nine flags NS, FIN, SYN, RST, PSH, ACK, ECE, URG and CWR;
  - the window size, the checksum and the urgent pointer;
  - an options region of at most 40 bytes that is always a whole number of 32-bit words.

  The data offset is not stored. It is `5 + options_len / 4`. `Default::default()` is all zeros with no options.
- **The option writers.** `set_options_raw` and `set_options` overwrite the header's 40-byte options buffer and its used length in place.
  - `set_options_raw(data)` copies the bytes and zero-pads them to a word boundary.
  - `set_options(elements)` encodes typed option elements one after the other: NOP, Maximum Segment Size, Window Scale, SACK-Permitted, SACK and Timestamps. It then writes one END byte and zero-fills to a word boundary.
  - Both fail with `NotEnoughSpace(required)` when more than 40 bytes are needed, and then leave the header unchanged.
  - The option layouts are the standard ones:
    - END, NOP and Maximum Segment Size: sections 3.1 and 3.2 of RFC 9293;
    - Window Scale: section 2.2 of RFC 7323;
    - Timestamps: section 3.2 of RFC 7323;
    - SACK-Permitted and SACK: sections 2 and 3 of RFC 2018.
- **`write` and `read`.**
  - `write` appends the header in the fixed layout of section 3.1 of RFC 9293. The data offset goes in the high nibble of byte 12 and NS (RFC 3540) in its low bit.
  - `read` parses a header back. It reports `TcpDataOffsetTooSmall` for a data offset below 5 and an I/O error when the input ends early.
- **`PacketSlice<TcpHeader>::from_slice`.** A validating view over bytes. Its accessors read each field at its fixed position, and `to_header()` builds the owned header from them.

Files and modules:

| file | module | contents |
|---|---|---|
| `results.dfy` | `Results` | `Option` and `Result` |
| `byte_order.dfy` | `ByteOrder` | big-endian 16- and 32-bit encode and decode, with their round trips |
| `tcp_options.dfy` | `TcpOptions` | option elements, their wire encoding, and the options regions that `set_options_raw` and `set_options` produce, as functions |
| `tcp_option_examples.dfy` | `TcpOptionExamples` | the byte-exact layouts and the `NotEnoughSpace(41)` cases fixed by the tests, for all argument values |
| `tcp_wire.dfy` | `TcpWire` | the header as a value, `write` (`Write`) and `read` (`Read`), and their round trips in both directions |
| `tcp_slice.dfy` | `TcpSlice` | the slice view, its accessors, `to_header`, and `from_slice` |
| `tcp_owned.dfy` | `TcpOwned` | class `TcpHeader` with a 40-byte `array` options buffer; its methods are proved against the functions above |

I/O is modelled as follows:
- the reader is a function on a byte sequence, and running out of input is the error value `IoError`;
- the `Vec` writer is a byte sequence that `TcpHeader.Write` returns extended.

## Model

| member | source | states |
|---|---|---|
| ByteOrder.FromBe16OfBe16 | tests/transport/tcp.rs:66 | decoding the two big-endian bytes of a 16-bit value gives the value back |
| ByteOrder.FromBe32OfBe32 | tests/transport/tcp.rs:110-111 | decoding the four big-endian bytes of a 32-bit value gives the value back |
| ByteOrder.Be16OfFromBe16 | tests/transport/tcp.rs:265 | any two bytes are the big-endian encoding of the value they decode to |
| ByteOrder.Be32OfFromBe32 | tests/transport/tcp.rs:265 | any four bytes are the big-endian encoding of the value they decode to |
| TcpOptions.PresentRanges | tests/transport/tcp.rs:117-119 | a SACK option carries at most three optional blocks besides the mandatory one |
| TcpOptions.EncodeRange | tests/transport/tcp.rs:130-133 | a SACK block is 8 bytes, and they decode to its left and right edges |
| TcpOptions.EncodeRanges | tests/transport/tcp.rs:155-160 | the optional SACK blocks take 8 bytes each |
| TcpOptions.EncodeRangesAt | tests/transport/tcp.rs:184-191 | optional block k sits at bytes 8k to 8k+8 of the block list |
| TcpOptions.SackLenByte | tests/transport/tcp.rs:102-194 | the SACK length byte is 10 + 8 × the number of optional blocks (10, 18, 26, 34) |
| TcpOptions.EncodeElement | tests/transport/tcp.rs:58-216 | each element's encoding starts with its kind byte and has its table length: NOP 1, MSS 4, Window Scale 3, SACK-Permitted 2, SACK 10+8n, Timestamps 10 |
| TcpOptions.LengthByte | tests/transport/tcp.rs:58-216 | every element except NOP carries its whole length in its second byte |
| TcpOptions.EncodeElementPayload | tests/transport/tcp.rs:58-216 | each element's payload decodes back to its arguments: the MSS value, the shift count, both timestamps, and every SACK block |
| TcpOptions.SackPayload | tests/transport/tcp.rs:99-195 | the SACK payload holds the mandatory block followed by each present optional block, each decoding to its edges |
| TcpOptions.EncodeLength | tests/transport/tcp.rs:226-231 | the sum of the table lengths is the number of bytes the elements encode to |
| TcpOptions.EncodedLenPrefix | tests/transport/tcp.rs:226-231 | a prefix of the element list never needs more room than the whole list |
| TcpOptions.RoundUp4 | tests/transport/tcp.rs:29-33 | the options length is the least multiple of 4 that is at least n |
| TcpOptions.Zeros | tests/transport/tcp.rs:36 | n zero bytes |
| TcpOptions.PadToWord | tests/transport/tcp.rs:36-41 | the bytes followed by zeros up to the next multiple of 4 |
| TcpOptions.RawOptionsLayout | tests/transport/tcp.rs:22-47 | `set_options_raw` succeeds iff at most 40 bytes are given; otherwise it fails with `NotEnoughSpace(len)`; on success the region is the data rounded up to whole words, and everything after the data is zero |
| TcpOptions.OptionsLayoutSpec | tests/transport/tcp.rs:58-251 | `set_options` needs the sum of the element lengths plus one END byte; it fails iff that exceeds 40, reporting that number; otherwise the region is the encoded elements, END and zeros, rounded up to whole words |
| TcpOptionExamples.MaximumSegmentSizeLayout | tests/transport/tcp.rs:58-70 | `[Nop, Nop, MaximumSegmentSize(x), Nop]` gives `1,1,2,4`, x big-endian, `1,0` for every x |
| TcpOptionExamples.WindowScaleLayout | tests/transport/tcp.rs:75-83 | `[Nop, Nop, WindowScale(x), Nop]` gives `1,1,3,3,x,1,0,0` for every x |
| TcpOptionExamples.SelectiveAckPermittedLayout | tests/transport/tcp.rs:87-95 | `[Nop, Nop, SelectiveAcknowledgementPermitted, Nop]` gives `1,1,4,2,1,0,0,0` |
| TcpOptionExamples.SelectiveAck1Layout | tests/transport/tcp.rs:102-114 | a SACK with no optional block: length 10, both edges big-endian, then `1,0,0,0` |
| TcpOptionExamples.SelectiveAck2Layout | tests/transport/tcp.rs:117-136 | a SACK with one optional block: length 18, four edges big-endian, then `1,0,0,0` |
| TcpOptionExamples.SelectiveAck3Layout | tests/transport/tcp.rs:139-163 | a SACK with two optional blocks: length 26, six edges big-endian, then `1,0,0,0` |
| TcpOptionExamples.SelectiveAck4Layout | tests/transport/tcp.rs:166-194 | a SACK with three optional blocks: length 34, eight edges big-endian, then `1,0,0,0` |
| TcpOptionExamples.TimestampLayout | tests/transport/tcp.rs:200-216 | `[Nop, Nop, Timestamp(a, b), Nop]` gives `1,1,8,10`, a and b big-endian, then `1,0,0,0`, for every a and b |
| TcpOptionExamples.NotEnoughSpaceMixed | tests/transport/tcp.rs:224-232 | MSS, Window Scale, SACK-Permitted, a one-block SACK, Timestamps and three NOPs fail with `NotEnoughSpace(41)` |
| TcpOptionExamples.NotEnoughSpaceFullSack | tests/transport/tcp.rs:234-240 | NOP, a three-block SACK, MSS and NOP fail with `NotEnoughSpace(41)` |
| TcpOptionExamples.NotEnoughSpaceManyNops | tests/transport/tcp.rs:243-251 | NOP, a SACK, two Timestamps, MSS and five NOPs fail with `NotEnoughSpace(41)` |
| TcpWire.Header.DataOffset | tests/transport/tcp.rs:40 | the data offset is between 5 and 15 words, and 4 × it is 20 + the options length |
| TcpWire.DataOffsetOf | tests/transport/tcp.rs:280 | the data offset is the high nibble of byte 12, so it is below 16 |
| TcpWire.Write | tests/transport/tcp.rs:260-263 | `write` emits exactly `data_offset() * 4` bytes |
| TcpWire.Read | tests/transport/tcp.rs:265 | a successful `read` had the whole header available, and its options are the bytes from 20 up to the header length |
| TcpWire.OffsetByteDecodes | tests/transport/tcp.rs:280 | byte 12 yields the data offset and NS it was built from, and its reserved bits are zero |
| TcpWire.OffsetByteOfDecoded | tests/transport/tcp.rs:280 | rebuilding byte 12 from what was read out of it clears only the three reserved bits |
| TcpWire.FlagsByteDecodes | tests/transport/tcp.rs:316-323 | byte 13 yields each of the eight flags packed into it |
| TcpWire.FlagsByteOfDecoded | tests/transport/tcp.rs:316-323 | byte 13 rebuilt from the flags read out of it is the same byte |
| TcpWire.WriteLayout | tests/transport/tcp.rs:310-327 | where each field sits in the written bytes |
| TcpWire.WriteRuns | tests/transport/tcp.rs:260-263 | the written bytes are the first twelve bytes, bytes 12 and 13, bytes 14 to 20 and the options |
| TcpWire.AppendWrite | tests/transport/tcp.rs:260-261 | appending the written header is appending its fields in wire order |
| TcpWire.FixedWordsRebuilt | tests/transport/tcp.rs:265 | re-encoding the multi-byte fields read from a buffer gives back its bytes |
| TcpWire.ReadWrite | tests/transport/tcp.rs:257-268 | `read` of `write(h)`, whatever follows it, is `Ok(h)`, equal in every field |
| TcpWire.ReadTruncated | tests/transport/tcp.rs:289-298 | `read` of any strict prefix of `write(h)`, in particular the one without its last byte, is an I/O error |
| TcpWire.WithDataOffset | tests/transport/tcp.rs:280 | the result has the new data offset in byte 12; the low nibble of byte 12 and every other byte are unchanged |
| TcpWire.ReadDataOffsetTooSmall | tests/transport/tcp.rs:273-284 | `read` of `write(h)` with a data offset d below 5 fails with `TcpDataOffsetTooSmall(d)` |
| TcpWire.WriteRead | tests/transport/tcp.rs:257-268 | `write` of what `read` parsed gives back the bytes it consumed, except that the reserved bits of byte 12 are zero |
| TcpSlice.HeaderSlice.Options | tests/transport/tcp.rs:327 | the options of a valid slice are a whole number of words, at most 40 bytes |
| TcpSlice.HeaderSlice.ToHeader | tests/transport/tcp.rs:330 | `to_header()` gives a header whose length is exactly the slice's |
| TcpSlice.FromSlice | tests/transport/tcp.rs:308 | a successful `from_slice` is a valid view of the first `data_offset * 4` input bytes |
| TcpSlice.FromSliceWrite | tests/transport/tcp.rs:303-327 | `from_slice` of `write(h)`, whatever follows it, covers exactly the header; all accessors return h's fields, including the data offset, the nine flags and the options |
| TcpSlice.ToHeaderWrite | tests/transport/tcp.rs:329-330 | `to_header()` of the slice over `write(h)` is h |
| TcpSlice.FromSliceDataOffsetTooSmall | tests/transport/tcp.rs:336-347 | `from_slice` of `write(h)` with a data offset d below 5 fails with `TcpDataOffsetTooSmall(d)` |
| TcpSlice.FromSliceAgreesWithRead | tests/transport/tcp.rs:257-331 | `from_slice` followed by `to_header()` parses like `read`: the same header, the same too-small offset, and a short-slice error where `read` runs out of input |
| TcpOwned.TcpHeader.constructor | tests/transport/tcp.rs:9 | `Default::default()` holds the all-zero header with no options |
| TcpOwned.TcpHeader.FromValue | tests/transport/tcp.rs:23 | a fresh header object holding a given header value |
| TcpOwned.TcpHeader.Clone | tests/transport/tcp.rs:23 | `clone()` is a fresh object with its own buffer and an equal value |
| TcpOwned.TcpHeader.ClearOptions | tests/transport/tcp.rs:36 | zeroes the whole 40-byte options buffer |
| TcpOwned.TcpHeader.PutBytes | tests/transport/tcp.rs:37 | copies bytes into the buffer at an index and leaves the rest of the buffer as it was |
| TcpOwned.TcpHeader.SetOptionsRaw | tests/transport/tcp.rs:22-47 | `set_options_raw` either installs the region of `RawOptionsLayout` and returns Ok, or returns its error and changes nothing; the buffer invariant is kept |
| TcpOwned.TcpHeader.SetOptions | tests/transport/tcp.rs:50-251 | `set_options` either installs the region of `OptionsLayout` and returns Ok, or returns its `NotEnoughSpace` and changes nothing; the buffer invariant is kept |
| TcpOwned.TcpHeader.EncodeInto | tests/transport/tcp.rs:58-216 | writing the elements one after another into a zeroed buffer leaves exactly their encoding in front, followed by zeros |
| TcpOwned.TcpHeader.Write | tests/transport/tcp.rs:260-261 | `write(&mut out)` leaves `out` followed by the serialised header value |
| TcpOwned.EncodeStep | tests/transport/tcp.rs:226-231 | one more element extends the encoding by its own bytes and stays within the total |
| TcpOwned.PaddedPrefix | tests/transport/tcp.rs:36-41 | content followed only by zeros is, up to the next word boundary, the padded content |
| TcpOwned.RequiredLength | tests/transport/tcp.rs:226-231 | the space `set_options` computes before writing is the sum of the element lengths plus one |

## Left out

- The production sources of `TcpHeader`, `TcpOptionElement` and `PacketSlice` are not part of this model. The behaviour is the one the tests fix, plus the standard layouts named above.
- The options iterator and the pseudo-header checksum computation: the header tests do not use them.
- The `Debug` formatting (`debug_fmt`): it is string presentation, not codec logic.
- The random strategy `tcp_any()`: the properties are lemmas over all headers instead.
- `Cursor` and the I/O error's payload: the error is the single value `IoError`.
- `TcpOwned.TcpHeader.Write`: appending to a `Vec` cannot fail, so the model has no `Result`.
- An END element variant of `TcpOptionElement`: the tests never build one, so the element type has only the six variants they use.
- TcpOptions.OptionsLayoutSpec: for content whose length is already a multiple of 4 (0, 4, …, 36 bytes), the model still writes END and then pads, so the region gets one more word. For example, a lone MSS gives an 8-byte region and an empty list gives 4 zero bytes. The same rule gives 39 bytes of content a 40-byte region. The tests fix neither case: every tested content length leaves room for padding.
- TcpOptions.PresentRanges: a SACK whose optional blocks have a gap (an absent block before a present one) is encoded with only the present blocks, in order. This is a modelling choice; no test fixes it.
- TcpOptions.RawOptionsLayout: `set_options_raw` of exactly 40 bytes succeeds by the same rule as shorter input; the tests stop at 39 bytes.
- TcpSlice.FromSlice: the required length carried by `UnexpectedEndOfSlice` for a short slice is not fixed by the tests. The tests only show that a header that fits is accepted and that a too-small data offset is rejected.
- The padding after END is zeros, as the expected arrays in the tests show, not repeated NOPs.
