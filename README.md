# Pirit receipt-design uploader, modelled in Dafny

`pavlito` is a console tool that uploads a receipt design to a Pirit fiscal
printer over a serial port. This project models its core and proves
properties of it:

- the request encoder `CreatePacketByCode`. It writes STX, the password
  "PIRI", packet id 0x20, the two-character command code, each parameter in
  ASCII followed by FS (0x1C), ETX, and the XOR of everything from the
  password through ETX as two uppercase hex digits;
- the response decoder `DecodePacket`. It takes the packet id, the command
  and error codes, and the FS-separated parameter fields, with empty fields
  dropped;
- the sample reply `testPacket`;
- `StringToByteArray`, which turns hex text into bytes;
- the shift flag, which is bit 2 of `Byte.Parse` applied to the second
  status parameter;
- the port-name lookup in the ComProxy configuration lines;
- the sequence `Main` drives once the port is open. It probes with ENQ,
  queries the status ("00"), reads the settings ("11" with "30" and "0"),
  then uploads the design: request "17" with the size, one ACK byte, the raw
  blob, and a framed confirmation. It stops at the first reply whose error
  code is not "00".

Bytes are `bv8`, text is `seq<char>`. The methods that build arrays in place
(`CreatePacketByCode` and its phases, `StringToByteArray`) keep their arrays.
Each is proved against a function on sequences, and the properties are
lemmas about those functions. Code page 866 is the parameter `cp: bv8 ->
char`. The serial line becomes a `Printer` value holding the replies it
gives. A run is the list of events that cross the line, proved to be a
prefix of one fixed twelve-event `Script`, together with how the run ends.

Modules: `Wrappers` (Option, Result), `Text` (`Encoding.ASCII`,
`int.ToString`), `Checksum` (XOR, `ToString("X2")`, `Convert.ToByte(_, 16)`),
`Fields` (`String.Split` with and without empty entries), `Arrays`
(`Array.Resize`, `Array.Copy`), `Codec` (requests, responses, the sample
reply), `HexText` (`StringToByteArray`), `Status` (`Byte.Parse`, `BitArray`,
the shift flag), `Config` (the port name), `Session` (`Main`).

## Model

| member | source | states |
|---|---|---|
| Codec.CreatePacketByCode | pavlito/Program.cs:107-173 | the returned array is exactly the request frame: STX, content, checksum digits |
| Codec.BuildContent | pavlito/Program.cs:138-154 | the content array is the password bytes, the packet id, the first two code bytes, the parameter region and ETX |
| Codec.CollectParams | pavlito/Program.cs:117-135 | the parameter array is null exactly when there is no first parameter; otherwise it holds each present parameter's ASCII bytes followed by one FS, the second right after the first |
| Codec.XorChecksum | pavlito/Program.cs:157-161 | the loop's checksum is the XOR of every content byte |
| Codec.Frame | pavlito/Program.cs:165-169 | the result is STX, then the content, then the two hex digits of the checksum |
| Codec.RequestLayout | pavlito/Program.cs:107-173 | a request frame is 11 bytes plus the parameter region. It has STX at 0, "PIRI" as 50 49 52 49 at 1-4, id 0x20 at 5 and the code bytes at 6-7. Then come the parameters as FS-terminated fields, ETX at `len-3`, and the hex digits of the XOR of bytes 1 to `len-3` at the end |
| Codec.ContentParts | pavlito/Program.cs:138-154 | the checksummed content has the password at 0-3, the id at 4, the code at 5-6, the parameters from 7, and ETX last |
| Codec.RequestParamsRegion | pavlito/Program.cs:117-135 | the parameter bytes are the present parameters, each followed by FS |
| Codec.RequestParamsRecoverable | pavlito/Program.cs:121-135 | splitting a request's parameter region on FS, without empty fields, gives back the non-empty parameters when they contain no FS |
| Codec.FramedChecksumMatches | pavlito/Program.cs:157-169 | every frame passes a receiver's checksum check, and XOR over the body and its checksum is 0 |
| Codec.RequestChecksumMatches | pavlito/Program.cs:157-169 | every request frame carries a checksum a receiver accepts |
| Codec.DecodePacket | pavlito/Program.cs:50-105 | needs at least six bytes. The id is byte 1, the command code is bytes 2-3 and the error code bytes 4-5, each read as ASCII. Parameters are present exactly when the packet is longer than 9 bytes, and each field is non-empty and free of the decoded FS |
| Codec.DecodeSplitsBytes | pavlito/Program.cs:73-81 | when the code page keeps FS apart, splitting the decoded data region equals splitting its bytes on 0x1C and decoding each field |
| Codec.DecodeIgnoresFraming | pavlito/Program.cs:52-81 | neither STX nor the checksum affects the decoded packet |
| Codec.ResponseParts | pavlito/Program.cs:64-71 | a response frame holds the id at 1, the command code at 2-3, the error code at 4-5, and the fields from 6 up to ETX |
| Codec.DecodeResponse | pavlito/Program.cs:50-88 | decoding a response frame gives back its id, codes and fields; with no fields it gives none |
| Codec.ResponseChecksumMatches | pavlito/Program.cs:64-71 | a response frame built by the model's `ResponseFrame` carries a checksum a receiver would accept; the tool itself never checks a response checksum, and this lemma serves `TestPacketIsFrame` |
| Codec.TestPacketIsFrame | pavlito/Program.cs:24-40 | the sample reply is the response frame for id 0x20, codes "00"/"00" and fields "0", "0", "0", and its checksum "0F" matches |
| Codec.TestPacketDecodes | pavlito/Program.cs:24-88 | decoding the sample reply gives command "00", error "00", id 0x20 and parameters "0", "0", "0" |
| Codec.PasswordBytes | pavlito/Program.cs:22 | the password travels as bytes 50 49 52 49 |
| Codec.StatusRequestVector | pavlito/Program.cs:283 | the status query frame is 02 50 49 52 49 20 30 30 03 32 31 |
| Codec.SettingsRequestVector | pavlito/Program.cs:300 | the settings read frame is 02 50 49 52 49 20 31 31 33 30 1C 30 1C 03 31 32 |
| Checksum.Xor8Parity | pavlito/Program.cs:157-161 | bit `k` of the XOR checksum is set exactly when an odd number of the bytes have bit `k` set |
| Checksum.XorBit | pavlito/Program.cs:159 | a bit of `a ^ b` is set exactly when it is set in one of `a`, `b` but not both |
| Checksum.Xor8Append | pavlito/Program.cs:157-161 | the XOR of a concatenation is the XOR of the two parts' checksums |
| Checksum.Xor8Snoc | pavlito/Program.cs:157-161 | one more byte XORs into the running checksum |
| Checksum.SelfCancels | pavlito/Program.cs:157-161 | appending the checksum to its data XORs to 0 |
| Checksum.Xor8Swap | pavlito/Program.cs:157-161 | the checksum does not depend on the order of two spans |
| Checksum.HexDigit | pavlito/Program.cs:162 | a nibble's uppercase digit reads back as that nibble |
| Checksum.HexUpper | pavlito/Program.cs:162-163 | `ToString("X2")` gives two uppercase digits, the high nibble first |
| Checksum.ParseHexPair | pavlito/Program.cs:231 | a pair is accepted exactly when its second character is a hex digit and its first is a hex digit or '+'; the value is the first digit's value × 16 + the second digit's value, or the second digit's value alone after '+' |
| Checksum.HexRoundTrip | pavlito/Program.cs:162-163 | reading back the rendered checksum gives the checksum |
| Checksum.HexCanonical | pavlito/Program.cs:162-163 | the uppercase rendering is the only uppercase pair that reads back as a byte, in both directions |
| Text.AsciiByte | pavlito/Program.cs:110-114 | a 7-bit character keeps its code; any other becomes '?' |
| Text.AsciiBytes | pavlito/Program.cs:110-114 | one byte per character |
| Text.AsciiBytesAt | pavlito/Program.cs:110-114 | byte `i` is the encoding of character `i` |
| Text.AsciiChar | pavlito/Program.cs:57-61 | `Encoding.ASCII.GetString` on one byte: a 7-bit byte keeps its code, any other becomes '?', so the result is always 7-bit |
| Text.AsciiString | pavlito/Program.cs:57-61 | one character per byte, and every character is 7-bit |
| Text.AsciiStringAt | pavlito/Program.cs:57-61 | character `i` is the decoding of byte `i` |
| Text.AsciiCharOfByte | pavlito/Program.cs:57-61 | a 7-bit character encoded and decoded again is itself |
| Text.AsciiByteOfChar | pavlito/Program.cs:57-61 | a 7-bit byte decoded and encoded again is itself |
| Text.AsciiRoundTrip | pavlito/Program.cs:57-61 | decoding the ASCII bytes of a 7-bit string gives the string back |
| Text.ByteOf | pavlito/Program.cs:110-114 | the byte built bit by bit has the integer value asked for |
| Text.DecimalString | pavlito/Program.cs:321 | `int.ToString()` is a non-empty digit string without a leading zero |
| Text.DecimalRoundTrip | pavlito/Program.cs:321 | reading back a decimal rendering gives the number |
| Fields.Split | pavlito/Program.cs:81 | splitting always gives at least one field |
| Fields.SplitJoin | pavlito/Program.cs:81 | joining the fields with the separator restores the input; no field contains it |
| Fields.JoinSplit | pavlito/Program.cs:81 | splitting a join of separator-free fields gives the fields back |
| Fields.NonEmpty | pavlito/Program.cs:81 | `RemoveEmptyEntries` keeps only non-empty fields, each taken from the input, and never more fields than there were |
| Fields.NonEmptyAppend | pavlito/Program.cs:81 | dropping empty fields from two runs of fields is dropping them from each run and concatenating, so order is kept |
| Fields.NonEmptySingle | pavlito/Program.cs:81 | a single field is kept exactly when it is not empty |
| Fields.NonEmptyKeepsAll | pavlito/Program.cs:81 | dropping empty fields changes nothing when there are none |
| Fields.MapSeq | pavlito/Program.cs:79 | a single-byte code page decodes byte `i` to character `i` |
| Fields.MapFields | pavlito/Program.cs:79-81 | field `i` of the decoded fields is the decoding of field `i` |
| Fields.SplitMap | pavlito/Program.cs:79-81 | when only the separator maps to the separator's image, decoding then splitting equals splitting then decoding |
| Fields.SeparatorMap | pavlito/Program.cs:79-81 | under that condition, the decoded separator occurs at the same place as the raw one |
| Fields.NonEmptyMap | pavlito/Program.cs:79-81 | dropping empty fields commutes with decoding |
| Fields.IndexOf | pavlito/Program.cs:81 | the first occurrence of the separator |
| Arrays.GetAsciiBytes | pavlito/Program.cs:110-114 | a fresh array holding the ASCII bytes of the text |
| Arrays.Resize | pavlito/Program.cs:124 | a fresh array of the new length that keeps the old prefix and fills the rest with zeros |
| Arrays.Copy | pavlito/Program.cs:147-152 | the destination is its old contents with the source span written at the offset, and nothing else changes |
| HexText.DecodeHex | pavlito/Program.cs:226-233 | on success there are half as many bytes as characters; a bad pair is reported at an offset inside the text |
| HexText.PairAtMeaning | pavlito/Program.cs:231 | `Convert.ToByte(hex.Substring(i, 2), 16)` accepts exactly two hex digits (either case) or '+' and one hex digit, with value 16 × first + second, or the second digit's value after '+'; non-ASCII characters are rejected |
| HexText.CharNibble | pavlito/Program.cs:231 | the ASCII byte of a character is a hex digit exactly when the character is one, with the same value, and is '+' exactly when the character is |
| HexText.StringToByteArray | pavlito/Program.cs:226-233 | with text as Unicode scalar values (see Left out), the loop fills a fresh array with exactly the decoded bytes, or throws exactly the fault the pair-by-pair scan meets first: a bad pair at its offset, or a truncated last pair |
| HexText.HexStringRoundTrip | pavlito/Program.cs:226-233 | converting the uppercase hex text of any bytes gives those bytes back |
| HexText.DecodeStep | pavlito/Program.cs:230-231 | each step converts the pair at `i` or throws there |
| Status.TrimLeading | pavlito/Program.cs:292 | the result does not start with white space (what was removed: TrimLeadingMeaning) |
| Status.TrimTrailing | pavlito/Program.cs:292 | the result does not end with white space (what was removed: TrimTrailingMeaning) |
| Status.TrimLeadingMeaning | pavlito/Program.cs:292 | the result is a suffix of the input and everything removed in front of it is white space |
| Status.TrimTrailingMeaning | pavlito/Program.cs:292 | the result is a prefix of the input and everything removed after it is white space |
| Status.TrimLeadingWhite | pavlito/Program.cs:292 | white space in front of text that starts with something else is removed, and only it |
| Status.TrimTrailingWhite | pavlito/Program.cs:292 | white space after text that ends with something else is removed, and only it |
| Status.TrimSurrounded | pavlito/Program.cs:292 | trimming white space around text that starts and ends with something else gives that text |
| Status.ByteValue | pavlito/Program.cs:292 | a value is produced only when it fits in a byte |
| Status.ParseByte | pavlito/Program.cs:292 | `Byte.Parse` succeeds only with a value below 256 (which texts it accepts: ParseSigned and ParseByteForm) |
| Status.ParseByteForm | pavlito/Program.cs:292 | every text that parses is white space, an optional sign, one or more digits and white space; empty text, inner white space, two signs or a sign after the digits throw |
| Status.TrimParts | pavlito/Program.cs:292 | the text is the white space trimmed on either side around what trimming keeps |
| Status.ParseSigned | pavlito/Program.cs:292 | white space, an optional '+' or '-', one or more digits, white space: parses to the digits' value when it is at most 255 and, after '-', zero; otherwise throws |
| Status.NonNumericFails | pavlito/Program.cs:292 | a character anywhere in the text that is not white space, a sign or a digit makes `Byte.Parse` throw |
| Status.ParseDecimal | pavlito/Program.cs:292 | the decimal text of any byte value parses back to it |
| Status.ParseIgnoresLeadingWhite | pavlito/Program.cs:292 | leading white space does not change the result |
| Status.ParseNegative | pavlito/Program.cs:292 | a minus sign before a non-zero value throws; "-0" reads as 0 |
| Status.ParseOverflow | pavlito/Program.cs:292 | a value above 255 throws |
| Status.BitArrayOf | pavlito/Program.cs:293 | a `BitArray` over one byte has eight bits |
| Status.BitsRoundTrip | pavlito/Program.cs:293 | bit `i` weighs 2^i: reading the bits back gives the byte |
| Status.BitArrayRoundTrip | pavlito/Program.cs:293 | the eight bits of a byte read back as that byte |
| Status.BitTwo | pavlito/Program.cs:294 | bit 2 is set exactly when the value modulo 8 is at least 4 |
| Status.ShiftOpen | pavlito/Program.cs:292-294 | there is a flag exactly when the parse succeeds |
| Status.ShiftOpenMeaning | pavlito/Program.cs:292-294 | the shift is open exactly when the parameter parses to a byte with bit 2 (value 4) set, and closed exactly when it parses to one without |
| Status.ShiftOpenOfDecimal | pavlito/Program.cs:292-294 | for the decimal text of a byte `n`, the flag is whether `n mod 8 >= 4` |
| Config.LowerAscii | pavlito/Program.cs:261 | ASCII capitals map to their lower case; everything else is unchanged |
| Config.ResolvePortName | pavlito/Program.cs:254-266 | with no line starting with "physical_port=" (any case) the port is "/dev/ttyS0"; otherwise it is the rest of a matching line after which no line matches, i.e. the last match |
| Config.StartsWithIgnoringCase | pavlito/Program.cs:261 | `StartsWith(_, InvariantCultureIgnoreCase)`; a line that starts with the prefix exactly matches it |
| Config.StartsWithFolded | pavlito/Program.cs:261 | the case-insensitive test is exactly a prefix test on the lower-case foldings of both strings |
| Config.KeyMatchesAnyCase | pavlito/Program.cs:261 | a line whose first 14 characters fold to "physical_port=" is a port line |
| Session.TrimStart | pavlito/Program.cs:307 | the result of `TrimStart()` does not start with white space (what was removed: TrimStartMeaning) |
| Session.TrimStartMeaning | pavlito/Program.cs:307 | the result is a suffix of the input and everything removed in front of it is `Char.IsWhiteSpace` |
| Session.NameCentred | pavlito/Program.cs:307-308 | the name counts as centred exactly when it is non-empty and starts with white space |
| Session.ToolCommands | pavlito/Program.cs:283-321 | the three commands the tool sends are all encodable |
| Session.Script | pavlito/Program.cs:268-407 | a complete run is twelve events |
| Session.Connected | pavlito/Program.cs:205-224 | `CheckConnectionKKT`: one byte waiting and that byte ACK is the same as the reply being exactly ACK; what it decides for a run is stated by NoConnectionMeaning and ReachMeaning |
| Session.Await | pavlito/Program.cs:286-289 | a stage passes exactly when the reply has at least six bytes and carries error code "00", and then it yields the decoded reply |
| Session.Expected | pavlito/Program.cs:275-345 | every run produces between 2 and 12 events; which run ends how is stated by NoConnectionMeaning, ReachMeaning, RejectionMeaning, FailureKinds, NotAcknowledgedMeaning and CompletionMeaning |
| Session.StatusStage | pavlito/Program.cs:283-294 | from the status query on, at least 4 events |
| Session.SettingsStage | pavlito/Program.cs:300-315 | from the settings read on, at least 6 events |
| Session.UploadStage | pavlito/Program.cs:319-345 | from the upload request on, at least 9 events |
| Session.Run | pavlito/Program.cs:275-345 | the trace is the script's first `Expected(..).0` events and the outcome is `Expected(..).1`, with the tool's own three commands |
| Session.Converse | pavlito/Program.cs:275-279 | the probe, then the stages: the trace and outcome `Expected` predicts |
| Session.QueryStatus | pavlito/Program.cs:283-294 | from the status query on: the trace and outcome `StatusStage` predicts |
| Session.ReadSettings | pavlito/Program.cs:300-315 | from the settings read on: the trace and outcome `SettingsStage` predicts |
| Session.UploadDesign | pavlito/Program.cs:319-345 | from the upload on: the trace and outcome `UploadStage` predicts, closing the port last |
| Session.UploadStageFacts | pavlito/Program.cs:319-345 | the upload completes exactly on an ACK and an accepted reply. A run gets past the ACK exactly when there is one; a rejection stops right after its reply, and after an ACK a reply with an error code other than "00" is such a rejection at event 11; no connection is never reported there |
| Session.SettingsStageFacts | pavlito/Program.cs:300-345 | the same from the settings read on: the run gets past the settings read exactly when its reply is usable, a settings reply with an error code other than "00" ends the run at event 7 with that code, and the name flag comes from the first settings parameter |
| Session.StatusStageFacts | pavlito/Program.cs:283-345 | the same from the status query on: the run gets past the status query exactly when its reply is usable, a status reply with an error code other than "00" ends the run at event 5 with that code, and the shift flag comes from the second status parameter |
| Session.ReachMeaning | pavlito/Program.cs:275-330 | a run gets past the probe exactly when the printer is connected, past the status query exactly when that reply is also usable, past the settings read exactly when that reply is usable too, and past the upload request exactly when the printer also sends ACK |
| Session.RejectionMeaning | pavlito/Program.cs:286-345 | when the run gets as far as a reply and that reply's error code is not "00", the run ends right there (event 5, 7 or 11) reporting that stage and that code |
| Session.FailureKinds | pavlito/Program.cs:283-345 | once connected and with every earlier step passed: no reply crashes at the step with `NoResponse` (events 4, 6, 10), a reply under six bytes with `ShortResponse` (5, 7, 11), a missing status or settings parameter with `MissingParameter` (5, 7), an unparsable status byte with `BadStatusByte` (5), and a non-ACK byte after the upload request ends `NotAcknowledged` with that byte (9) |
| Session.StatusFailures | pavlito/Program.cs:283-294 | the status step crashes with no reply, a short reply, a missing second parameter or an unparsable byte; a usable reply hands bit 2 of that byte to the settings step |
| Session.SettingsFailures | pavlito/Program.cs:300-315 | the settings step crashes with no reply, a short reply or no first parameter; a usable reply hands the name flag to the upload step |
| Session.UploadFailures | pavlito/Program.cs:319-340 | the upload step ends `NotAcknowledged` on a non-ACK byte, and crashes with no reply or a short reply after the blob |
| Session.NotAcknowledgedMeaning | pavlito/Program.cs:321-330 | a run ends unacknowledged exactly when every step before the upload went well and the byte read after the upload request is not ACK |
| Session.NoConnectionMeaning | pavlito/Program.cs:275-279 | the run reports no connection exactly when the probe is not answered by a single ACK |
| Session.CompletionMeaning | pavlito/Program.cs:275-345 | the run completes exactly when every step gets the reply it needs, exactly when all 12 events happen, and then reports the shift flag and the name flag |
| Session.ClosesOnlyOnCompletion | pavlito/Program.cs:340-407 | the port is closed during a run exactly when the run completes |
| Session.BlobFollowsAck | pavlito/Program.cs:321-335 | the blob is written only at position 9, right after the upload request and a received ACK |
| Session.StopsAtErrorCode | pavlito/Program.cs:289-344 | a rejected run ends right after the reply whose error code (not "00") it reports; the converse is RejectionMeaning |
| Session.SentFramesCheck | pavlito/Program.cs:283-335 | every packet the tool writes with `WritePacketToPort`, and the ENQ probe (each `Sent` event), is ENQ or a frame whose checksum a receiver accepts; the design blob (`Uploaded`) goes out unframed and unchanged, only at position 9 (see BlobFollowsAck) |
| Session.ToolFrames | pavlito/Program.cs:283-321 | the status and settings frames are the fixed vectors; the upload frame carries the blob's size in decimal |
| Session.UploadSizeReadable | pavlito/Program.cs:319-321 | the upload request's parameter bytes, read back as ASCII, are the decimal digits of the blob's size, so the size survives `Encoding.ASCII` |
| Session.OneParamBytes | pavlito/Program.cs:117-154 | a request with one parameter carries that parameter's ASCII bytes from offset 8 up to the final FS |
| Session.SampleReplyRun | pavlito/Program.cs:24-345 | a printer answering every query with the sample reply and acknowledging the upload completes with the shift closed and the name not centred |

## Left out

- Serial I/O: opening and closing the port, writes, `BytesToRead`, reads and `GetPortNames`. These are foreign library calls. They become a `Printer` value holding the replies in order and a trace of events.
- `Thread.Sleep` and the one-second waits are wall-clock timing with no logical content. How many bytes have arrived when the tool looks is part of the `Printer` value.
- Buffer carry-over: each step sees exactly the reply scripted for it. Bytes left over from one step and read at the next are not modelled.
- `ReadByte` blocking or timing out after the upload request, and `port.Open` failing, are not modelled. The ACK byte is always present in the `Printer` value.
- Reading the configuration file and the design file: the lines and the blob are parameters.
- `Console.WriteLine` diagnostics and `ConsolePrintPacket` are presentation only.
- The code page 866 table is the parameter `cp`. Where parameters are concerned, lemmas only assume that no byte other than 0x1C decodes to the FS character.
- The commented-out logo upload (pavlito/Program.cs:350-402) is dead code.
- Codec.DecodePacket: requires at least six bytes. The source reads offsets 0-5 without checking and throws on shorter input. A run with a shorter reply ends as `Crashed(ShortResponse)`, and a null reply (`AwaitResponse` timing out) ends as `Crashed(NoResponse)`, because `DecodePacket(null)` throws there rather than reporting a timeout.
- Codec.CreatePacketByCode: requires a code of at least two characters, because `Array.Copy` of two bytes throws otherwise; longer codes are cut to two. It also requires that a second parameter comes with a first, because the source dereferences the null parameter array otherwise.
- HexText.StringToByteArray: text is modelled as a sequence of Unicode scalar values, while .NET strings are UTF-16 code units. For text with characters beyond U+FFFF, `hex.Length`, the pair boundaries and so the fault kind and offset differ from the source. Hex text is ASCII in practice.
- Status.ParseByte: `Byte.Parse` is modelled for the integer style of the invariant culture: surrounding spaces and U+0009-U+000D, one optional sign, decimal digits. Trailing NUL characters, which .NET also skips, are not modelled.
- Config.ResolvePortName: `InvariantCultureIgnoreCase` is modelled as ASCII case folding. The key is ASCII; non-ASCII characters that the culture-aware comparison treats as matching it are not modelled, such as U+017F (long s, which folds to 's') or characters it ignores, such as U+200B inside the key.
- Session.Run: a crash is an outcome (`Crashed`) that names where the source throws: no reply, a reply shorter than six bytes, a missing parameter, or a status byte that does not parse. The exception itself and the rest of the process are not modelled.
