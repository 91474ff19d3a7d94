/**
 * The framed binary protocol of the Pirit fiscal printer.
 *
 * A request is STX, the password "PIRI", the packet id 0x20, a two-character
 * command code, each present parameter as ASCII followed by FS, ETX, and the
 * XOR of everything from the password through ETX as two uppercase hex
 * digits. A response is STX, the packet id, the command code, a two-character
 * error code, FS-separated parameter fields in code page 866, ETX and a
 * two-digit checksum that the tool never checks.
 */
module Codec {

  import opened Wrappers
  import opened Text
  import opened Checksum
  import opened Fields
  import Arrays

  const STX: bv8 := 0x02
  const ETX: bv8 := 0x03
  const FS: bv8 := 0x1C
  const ENQ: bv8 := 0x05
  const ACK: bv8 := 0x06
  const Password: string := "PIRI"
  const PacketId: bv8 := 0x20

  // ----- Requests -----

  /** What the source may encode: a command code of at least two characters, and no second parameter without a first. */
  predicate EncodableRequest(code: string, param1: Option<string>, param2: Option<string>) {
    |code| >= 2 && (param2.Some? ==> param1.Some?)
  }

  /** A present parameter on the wire: its ASCII bytes and one FS. */
  function ParamField(p: Option<string>): (r: seq<bv8>)
    ensures |r| == if p.Some? then |p.value| + 1 else 0
  {
    if p.Some? then AsciiBytes(p.value) + [FS] else []
  }

  /** Password, packet id and the first two characters of the command code. */
  function RequestHeader(code: string): (r: seq<bv8>)
    requires |code| >= 2
    ensures |r| == 7
  {
    AsciiBytes(Password) + [PacketId] + AsciiBytes(code)[..2]
  }

  /** The parameter region: each present parameter followed by FS. */
  function RequestParams(param1: Option<string>, param2: Option<string>): seq<bv8> {
    ParamField(param1) + ParamField(param2)
  }

  /** Password through ETX: the span the checksum covers. */
  function RequestContent(code: string, param1: Option<string>, param2: Option<string>): seq<bv8>
    requires EncodableRequest(code, param1, param2)
  {
    RequestHeader(code) + RequestParams(param1, param2) + [ETX]
  }

  /** STX, the body, and the body's XOR checksum as two uppercase hex digits. */
  function Framed(body: seq<bv8>): (r: seq<bv8>)
    ensures |r| == |body| + 3
  {
    [STX] + body + HexUpper(Xor8(body))
  }

  /** The complete request frame. */
  function RequestFrame(code: string, param1: Option<string>, param2: Option<string>): seq<bv8>
    requires EncodableRequest(code, param1, param2)
  {
    Framed(RequestContent(code, param1, param2))
  }

  /**
   * `CreatePacketByCode`: assembles the content in an array, folds the
   * checksum over it and frames it.
   */
  method CreatePacketByCode(code: string, param1: Option<string>, param2: Option<string>) returns (packet: array<bv8>)
    requires EncodableRequest(code, param1, param2)
    ensures packet[..] == RequestFrame(code, param1, param2)
  {
    var content := BuildContent(code, param1, param2);
    var crc := XorChecksum(content);
    packet := Frame(content, crc);
  }

  /** The content phase of `CreatePacketByCode`: password, id, code, parameters and ETX copied into place. */
  method BuildContent(code: string, param1: Option<string>, param2: Option<string>) returns (content: array<bv8>)
    requires EncodableRequest(code, param1, param2)
    ensures fresh(content)
    ensures content[..] == RequestContent(code, param1, param2)
  {
    var passwordBytes := Arrays.GetAsciiBytes(Password);
    var packetId: bv8 := PacketId;
    var commandCodeBytes := Arrays.GetAsciiBytes(code);
    var paramBytes := CollectParams(param1, param2);

    ghost var params := RequestParams(param1, param2);
    ghost var header := RequestHeader(code);
    var contentLen := 4 + 1 + 2 + (if paramBytes == null then 0 else paramBytes.Length) + 1;
    content := new bv8[contentLen];
    ghost var blank := content[..];
    Arrays.Copy(passwordBytes, 0, content, 0, 4);
    ghost var withPassword := content[..];
    assert passwordBytes[0..4] == AsciiBytes(Password);
    assert withPassword == Arrays.Splice(blank, 0, AsciiBytes(Password));
    content[4] := packetId;
    ghost var withId := content[..];
    assert withId == withPassword[4 := PacketId];
    Arrays.Copy(commandCodeBytes, 0, content, 5, 2);
    ghost var withHeader := content[..];
    assert commandCodeBytes[0..2] == AsciiBytes(code)[0..2];
    assert withHeader == Arrays.Splice(withId, 5, AsciiBytes(code)[0..2]);
    if paramBytes != null {
      Arrays.Copy(paramBytes, 0, content, 7, paramBytes.Length);
      assert paramBytes[0..paramBytes.Length] == RequestParams(param1, param2);
    } else {
      Arrays.SpliceEmpty(withHeader, 7);
    }
    ghost var withParams := content[..];
    assert withParams == Arrays.Splice(withHeader, 7, RequestParams(param1, param2));
    content[content.Length - 1] := ETX;
    assert content[..] == withParams[|blank| - 1 := ETX];
    ContentLayout(code, param1, param2, blank, withPassword, withId, withHeader, withParams, content[..]);
  }

  /** The splices `BuildContent` performs on its array lay out header, parameters and ETX. */
  lemma ContentLayout(code: string, param1: Option<string>, param2: Option<string>,
                      blank: seq<bv8>, withPassword: seq<bv8>, withId: seq<bv8>,
                      withHeader: seq<bv8>, withParams: seq<bv8>, final: seq<bv8>)
    requires EncodableRequest(code, param1, param2)
    requires |blank| == 8 + |RequestParams(param1, param2)|
    requires withPassword == Arrays.Splice(blank, 0, AsciiBytes(Password))
    requires withId == withPassword[4 := PacketId]
    requires withHeader == Arrays.Splice(withId, 5, AsciiBytes(code)[0..2])
    requires withParams == Arrays.Splice(withHeader, 7, RequestParams(param1, param2))
    requires final == withParams[|blank| - 1 := ETX]
    ensures final == RequestContent(code, param1, param2)
  {
    var params := RequestParams(param1, param2);
    assert withHeader[..7] == RequestHeader(code);
    assert withParams[..7 + |params|] == RequestHeader(code) + params;
    assert final == withParams[..7 + |params|] + [ETX];
  }

  /** The framing phase of `CreatePacketByCode`: STX, the content, the checksum as two hex digits. */
  method Frame(content: array<bv8>, crc: bv8) returns (packet: array<bv8>)
    ensures fresh(packet)
    ensures packet[..] == [STX] + content[..] + HexUpper(crc)
  {
    var crcBytes := HexUpper(crc);
    packet := new bv8[content.Length + 3];
    packet[0] := STX;
    Arrays.Copy(content, 0, packet, 1, content.Length);
    packet[packet.Length - 2] := crcBytes[0];
    packet[packet.Length - 1] := crcBytes[1];
    assert packet[..] == [STX] + content[..] + crcBytes;
  }

  /** The parameter bytes of `CreatePacketByCode`: null without parameters, else each parameter followed by FS. */
  method CollectParams(param1: Option<string>, param2: Option<string>) returns (paramBytes: array?<bv8>)
    requires param2.Some? ==> param1.Some?
    ensures paramBytes == null <==> param1.None?
    ensures paramBytes != null ==> fresh(paramBytes) && paramBytes[..] == RequestParams(param1, param2)
  {
    paramBytes := null;
    var param1len := 0;
    if param1.Some? {
      paramBytes := Arrays.GetAsciiBytes(param1.value);
      paramBytes := Arrays.Resize(paramBytes, paramBytes.Length + 1);
      paramBytes[paramBytes.Length - 1] := FS;
      param1len := paramBytes.Length;
      assert paramBytes[..] == ParamField(param1);
    }
    if param2.Some? {
      var param2Bytes := Arrays.GetAsciiBytes(param2.value);
      ghost var first := paramBytes[..];
      paramBytes := Arrays.Resize(paramBytes, paramBytes.Length + param2Bytes.Length + 1);
      Arrays.Copy(param2Bytes, 0, paramBytes, param1len, param2Bytes.Length);
      paramBytes[paramBytes.Length - 1] := FS;
      assert paramBytes[..] == first + ParamField(param2);
    }
  }

  /** The checksum loop of `CreatePacketByCode`: XOR of every content byte. */
  method XorChecksum(content: array<bv8>) returns (crc: bv8)
    ensures crc == Xor8(content[..])
  {
    crc := 0;
    for i := 0 to content.Length
      invariant crc == Xor8(content[..i])
    {
      assert content[..i + 1] == content[..i] + [content[i]];
      Xor8Snoc(content[..i], content[i]);
      crc := crc ^ content[i];
    }
    assert content[..content.Length] == content[..];
  }

  /** The pieces of a frame: STX first, then the body, then the body's checksum. */
  lemma FrameParts(body: seq<bv8>)
    ensures var r := Framed(body);
      && r[0] == STX
      && r[1..|r| - 2] == body
      && r[|r| - 2..] == HexUpper(Xor8(body))
  {
  }

  /** The pieces of a request's content, at their offsets. */
  lemma ContentParts(code: string, param1: Option<string>, param2: Option<string>)
    requires EncodableRequest(code, param1, param2)
    ensures var c := RequestContent(code, param1, param2);
      && |c| == 8 + |RequestParams(param1, param2)|
      && c[..4] == AsciiBytes(Password)
      && c[4] == PacketId
      && c[5..7] == AsciiBytes(code)[..2]
      && c[7..|c| - 1] == RequestParams(param1, param2)
      && c[|c| - 1] == ETX
  {
    var c := RequestContent(code, param1, param2);
    var h := RequestHeader(code);
    assert c[..7] == h;
    assert c[..4] == h[..4];
    assert c[5..7] == h[5..7];
  }

  /** The parameter region is the present parameters, each followed by FS. */
  lemma RequestParamsRegion(param1: Option<string>, param2: Option<string>)
    requires param2.Some? ==> param1.Some?
    ensures RequestParams(param1, param2) == FieldsRegion(PresentParams(param1, param2))
  {
    var ps := PresentParams(param1, param2);
    if param1.Some? && param2.Some? {
      assert ps[1..][1..] == [];
    }
  }

  /**
   * The layout the encoder promises, at frame offsets: STX, "PIRI", the
   * packet id, the two code bytes, the parameter fields each ending in FS,
   * ETX, and the checksum of everything between STX and it.
   */
  lemma RequestLayout(code: string, param1: Option<string>, param2: Option<string>)
    requires EncodableRequest(code, param1, param2)
    ensures var r := RequestFrame(code, param1, param2);
      && |r| == 11 + |RequestParams(param1, param2)|
      && r[0] == STX
      && r[1..5] == [0x50, 0x49, 0x52, 0x49]
      && r[5] == PacketId
      && r[6..8] == AsciiBytes(code)[..2]
      && r[8..|r| - 3] == FieldsRegion(PresentParams(param1, param2))
      && r[|r| - 3] == ETX
      && r[|r| - 2..] == HexUpper(Xor8(r[1..|r| - 2]))
  {
    var r := RequestFrame(code, param1, param2);
    var c := RequestContent(code, param1, param2);
    FrameParts(c);
    ContentParts(code, param1, param2);
    PasswordBytes();
    RequestParamsRegion(param1, param2);
    var body := r[1..|r| - 2];
    assert r[1..5] == body[..4];
    assert r[5] == body[4];
    assert r[6..8] == body[5..7];
    assert r[8..|r| - 3] == body[7..|body| - 1];
    assert r[|r| - 3] == body[|body| - 1];
  }

  // ----- Checksum check on the receiving side -----

  /** A receiver's check: the last two bytes read back as the XOR of everything between STX and them. */
  predicate ChecksumMatches(f: seq<bv8>) {
    |f| >= 3 && ParseHexPair(f[|f| - 2], f[|f| - 1]) == Some(Xor8(f[1..|f| - 2]))
  }

  /** Every frame the encoder produces passes the receiver's check. */
  lemma FramedChecksumMatches(body: seq<bv8>)
    ensures ChecksumMatches(Framed(body))
    ensures Xor8(body + [Xor8(body)]) == 0
  {
    var f := Framed(body);
    assert f[1..|f| - 2] == body;
    HexRoundTrip(Xor8(body));
    SelfCancels(body);
  }

  /** Requests in particular carry a matching checksum. */
  lemma RequestChecksumMatches(code: string, param1: Option<string>, param2: Option<string>)
    requires EncodableRequest(code, param1, param2)
    ensures ChecksumMatches(RequestFrame(code, param1, param2))
  {
    FramedChecksumMatches(RequestContent(code, param1, param2));
  }

  // ----- Parameter fields -----

  /** A run of fields, each followed by FS: how both sides lay out parameters. */
  function FieldsRegion(params: seq<seq<bv8>>): (r: seq<bv8>)
    ensures |params| == 0 <==> r == []
  {
    if params == [] then [] else params[0] + [FS] + FieldsRegion(params[1..])
  }

  /** A region of FS-terminated fields is those fields joined by FS with an empty field last. */
  lemma {:induction false} FieldsRegionJoin(params: seq<seq<bv8>>)
    ensures FieldsRegion(params) == Join(params + [[]], FS)
    decreases |params|
  {
    if params != [] {
      FieldsRegionJoin(params[1..]);
      assert (params + [[]])[1..] == params[1..] + [[]];
    }
  }

  /** Splitting a region of FS-free fields and dropping empty entries gives the non-empty fields back. */
  lemma RegionFields(params: seq<seq<bv8>>)
    requires SepFree(params, FS)
    ensures NonEmpty(Split(FieldsRegion(params), FS)) == NonEmpty(params)
  {
    FieldsRegionJoin(params);
    assert SepFree(params + [[]], FS);
    JoinSplit(params + [[]], FS);
    NonEmptyAppendEmpty(params);
  }

  lemma {:induction false} NonEmptyAppendEmpty(fs: seq<seq<bv8>>)
    ensures NonEmpty(fs + [[]]) == NonEmpty(fs)
    decreases |fs|
  {
    if fs != [] {
      NonEmptyAppendEmpty(fs[1..]);
      assert (fs + [[]])[1..] == fs[1..] + [[]];
    }
  }

  /** The ASCII bytes of the parameters a request carries, in order. */
  function PresentParams(param1: Option<string>, param2: Option<string>): seq<seq<bv8>> {
    (if param1.Some? then [AsciiBytes(param1.value)] else [])
    + (if param2.Some? then [AsciiBytes(param2.value)] else [])
  }

  /** A string with no FS character encodes to bytes with no FS. */
  lemma NoSeparatorBytes(p: string)
    requires '\U{1C}' !in p
    ensures FS !in AsciiBytes(p)
  {
    forall i | 0 <= i < |p| ensures AsciiBytes(p)[i] != FS {
      AsciiBytesAt(p, i);
      if IsAscii(p[i]) {
        AsciiCharOfByte(p[i]);
      }
    }
  }

  /**
   * The parameter region of a request (between the command code and ETX),
   * split on FS with empty entries dropped, gives back the ASCII bytes of
   * the non-empty parameters, provided no parameter contains FS.
   */
  lemma RequestParamsRecoverable(code: string, param1: Option<string>, param2: Option<string>)
    requires EncodableRequest(code, param1, param2)
    requires param1.Some? ==> '\U{1C}' !in param1.value
    requires param2.Some? ==> '\U{1C}' !in param2.value
    ensures var r := RequestFrame(code, param1, param2);
      NonEmpty(Split(r[8..|r| - 3], FS)) == NonEmpty(PresentParams(param1, param2))
  {
    var ps := PresentParams(param1, param2);
    RequestLayout(code, param1, param2);
    if param1.Some? { NoSeparatorBytes(param1.value); }
    if param2.Some? { NoSeparatorBytes(param2.value); }
    RegionFields(ps);
  }

  // ----- Responses -----

  /** A decoded response. `parameters` is None where the source leaves the array null. */
  datatype Packet = Packet(commandCode: string, errorCode: string, packetId: bv8, parameters: Option<seq<string>>)

  /**
   * `DecodePacket`: the id at offset 1, command and error codes as ASCII at
   * offsets 2-3 and 4-5, and the data region of `|packet| - 9` bytes from
   * offset 6 decoded with the code page `cp` and split on the decoded FS,
   * empty entries dropped. Neither STX nor the checksum is looked at, and
   * nothing checks the length beyond the six bytes the source reads.
   */
  function DecodePacket(packet: seq<bv8>, cp: bv8 -> char): (r: Packet)
    requires |packet| >= 6
    ensures r.packetId == packet[1]
    ensures r.commandCode == AsciiString(packet[2..4]) && r.errorCode == AsciiString(packet[4..6])
    ensures r.parameters.Some? <==> |packet| > 9
    ensures r.parameters.Some? ==> forall i :: 0 <= i < |r.parameters.value| ==>
      r.parameters.value[i] != [] && cp(FS) !in r.parameters.value[i]
  {
    var dataLen := |packet| - 9;
    var parameters :=
      if dataLen > 0 then
        var fields := Split(MapSeq(cp, packet[6..6 + dataLen]), cp(FS));
        SplitJoin(MapSeq(cp, packet[6..6 + dataLen]), cp(FS));
        Some(NonEmpty(fields))
      else None;
    Packet(AsciiString(packet[2..4]), AsciiString(packet[4..6]), packet[1], parameters)
  }

  /** The code page keeps FS distinguishable: only FS decodes to FS's character. */
  ghost predicate SeparatorDistinct(cp: bv8 -> char) {
    Distinguishes(cp, FS)
  }

  /**
   * Splitting the decoded text on the decoded FS is splitting the raw bytes
   * on FS and decoding each field.
   */
  lemma DecodeSplitsBytes(packet: seq<bv8>, cp: bv8 -> char)
    requires |packet| > 9 && SeparatorDistinct(cp)
    ensures DecodePacket(packet, cp).parameters
      == Some(MapFields(cp, NonEmpty(Split(packet[6..|packet| - 3], FS))))
  {
    var data := packet[6..|packet| - 3];
    SplitMap(cp, data, FS);
    NonEmptyMap(cp, Split(data, FS));
    assert NonEmpty(MapFields(cp, Split(data, FS))) == MapFields(cp, NonEmpty(Split(data, FS)));
  }

  /** Decoding never reads STX or the checksum: frames that differ only there decode alike. */
  lemma DecodeIgnoresFraming(p: seq<bv8>, q: seq<bv8>, cp: bv8 -> char)
    requires |p| == |q| >= 6
    requires p[1..6] == q[1..6]
    requires |p| > 9 ==> p[6..|p| - 3] == q[6..|q| - 3]
    ensures DecodePacket(p, cp) == DecodePacket(q, cp)
  {
    forall i | 1 <= i < 6
      ensures p[i] == q[i]
    {
      assert p[i] == p[1..6][i - 1] && q[i] == q[1..6][i - 1];
    }
    assert p[2..4] == q[2..4];
    assert p[4..6] == q[4..6];
  }

  /** The frame a printer sends: id, command code, error code, FS-terminated fields, ETX, checksum. */
  function ResponseFrame(id: bv8, command: seq<bv8>, error: seq<bv8>, params: seq<seq<bv8>>): seq<bv8> {
    Framed([id] + command + error + FieldsRegion(params) + [ETX])
  }

  /** Where a response frame keeps its id, codes and fields. */
  lemma ResponseParts(id: bv8, command: seq<bv8>, error: seq<bv8>, params: seq<seq<bv8>>)
    requires |command| == 2 && |error| == 2
    ensures var f := ResponseFrame(id, command, error, params);
      && |f| == 9 + |FieldsRegion(params)|
      && f[1] == id && f[2..4] == command && f[4..6] == error
      && f[6..|f| - 3] == FieldsRegion(params)
  {
    var body := [id] + command + error + FieldsRegion(params) + [ETX];
    var f := Framed(body);
    FrameParts(body);
    assert f[1] == body[0];
    assert f[2..4] == body[1..3];
    assert f[4..6] == body[3..5];
    assert f[6..|f| - 3] == body[5..|body| - 1];
  }

  /**
   * Decoding a printer's frame recovers its id, codes and parameters: none
   * when it carries no fields, else each field through the code page.
   */
  lemma DecodeResponse(id: bv8, command: seq<bv8>, error: seq<bv8>, params: seq<seq<bv8>>, cp: bv8 -> char)
    requires |command| == 2 && |error| == 2
    requires SepFree(params, FS) && forall i :: 0 <= i < |params| ==> params[i] != []
    requires SeparatorDistinct(cp)
    ensures var r := DecodePacket(ResponseFrame(id, command, error, params), cp);
      && r.packetId == id
      && r.commandCode == AsciiString(command)
      && r.errorCode == AsciiString(error)
      && r.parameters == (if params == [] then None else Some(MapFields(cp, params)))
  {
    var f := ResponseFrame(id, command, error, params);
    ResponseParts(id, command, error, params);
    if params != [] {
      DecodeSplitsBytes(f, cp);
      RegionFields(params);
      NonEmptyKeepsAll(params);
    }
  }

  /** A response frame carries a matching checksum. */
  lemma ResponseChecksumMatches(id: bv8, command: seq<bv8>, error: seq<bv8>, params: seq<seq<bv8>>)
    ensures ChecksumMatches(ResponseFrame(id, command, error, params))
  {
    FramedChecksumMatches([id] + command + error + FieldsRegion(params) + [ETX]);
  }

  // ----- Fixed vectors -----

  /** A frame whose body's checksum is known. */
  lemma FramedWith(body: seq<bv8>, crc: bv8)
    requires Xor8(body) == crc
    ensures Framed(body) == [STX] + body + HexUpper(crc)
  {
  }

  /** The sample reply held in the source: "00"/"00", id 0x20, three fields "0", checksum "0F". */
  const TestPacket: seq<bv8> := [0x02, 0x20, 0x30, 0x30, 0x30, 0x30, 0x30, 0x1C, 0x30, 0x1C, 0x30, 0x1C, 0x03, 0x30, 0x46]

  /** The sample reply is a well-formed frame: its checksum "0F" matches. */
  lemma TestPacketIsFrame()
    ensures TestPacket == ResponseFrame(0x20, [0x30, 0x30], [0x30, 0x30], [[0x30], [0x30], [0x30]])
    ensures ChecksumMatches(TestPacket)
  {
    var params: seq<seq<bv8>> := [[0x30], [0x30], [0x30]];
    TestBody(params);
    TestBodyChecksum();
    FramedWith(TestPacket[1..13], 0x0F);
    ResponseChecksumMatches(0x20, [0x30, 0x30], [0x30, 0x30], params);
  }

  lemma TestBody(params: seq<seq<bv8>>)
    requires params == [[0x30], [0x30], [0x30]]
    ensures [0x20 as bv8] + [0x30, 0x30] + [0x30, 0x30] + FieldsRegion(params) + [ETX] == TestPacket[1..13]
    ensures TestPacket == [STX] + TestPacket[1..13] + HexUpper(0x0F)
  {
    assert FieldsRegion(params[2..]) == [0x30, 0x1C] by {
      assert params[2..][1..] == [];
    }
    assert FieldsRegion(params[1..]) == [0x30, 0x1C, 0x30, 0x1C] by {
      assert params[1..][1..] == params[2..];
    }
    assert FieldsRegion(params) == [0x30, 0x1C, 0x30, 0x1C, 0x30, 0x1C];
  }

  lemma TestBodyXor()
    ensures Xor8([0x20, 0x30, 0x30, 0x30, 0x30, 0x30, 0x1C, 0x30, 0x1C, 0x30, 0x1C, 0x03]) == 0x0F
  {
  }

  lemma TestBodyChecksum()
    ensures Xor8(TestPacket[1..13]) == 0x0F
  {
    assert TestPacket[1..13] == [0x20, 0x30, 0x30, 0x30, 0x30, 0x30, 0x1C, 0x30, 0x1C, 0x30, 0x1C, 0x03];
    TestBodyXor();
  }

  /** Decoding the sample reply with any code page that reads 0x30 as '0' and keeps FS apart. */
  lemma TestPacketDecodes(cp: bv8 -> char)
    requires cp(0x30) == '0' && SeparatorDistinct(cp)
    ensures DecodePacket(TestPacket, cp) == Packet("00", "00", 0x20, Some(["0", "0", "0"]))
  {
    TestPacketIsFrame();
    var params: seq<seq<bv8>> := [[0x30], [0x30], [0x30]];
    DecodeResponse(0x20, [0x30, 0x30], [0x30, 0x30], params, cp);
    assert AsciiString([0x30, 0x30]) == "00";
    assert MapFields(cp, params) == ["0", "0", "0"];
  }

  /** The password travels as the four ASCII bytes "PIRI". */
  lemma PasswordBytes()
    ensures AsciiBytes(Password) == [0x50, 0x49, 0x52, 0x49]
  {
    AsciiBytesAt(Password, 0);
    AsciiBytesAt(Password, 1);
    AsciiBytesAt(Password, 2);
    AsciiBytesAt(Password, 3);
  }

  lemma StatusContent()
    ensures RequestContent("00", None, None) == [0x50, 0x49, 0x52, 0x49, 0x20, 0x30, 0x30, 0x03]
  {
    PasswordBytes();
    assert AsciiBytes("00") == [0x30, 0x30];
  }

  lemma StatusContentChecksum()
    ensures Xor8([0x50, 0x49, 0x52, 0x49, 0x20, 0x30, 0x30, 0x03]) == 0x21
  {
  }

  /** The status query the tool sends first: "00" without parameters, checksum "21". */
  lemma StatusRequestVector()
    ensures RequestFrame("00", None, None) == [0x02, 0x50, 0x49, 0x52, 0x49, 0x20, 0x30, 0x30, 0x03, 0x32, 0x31]
  {
    StatusContent();
    StatusFrame();
  }

  lemma StatusFrame()
    ensures Framed([0x50, 0x49, 0x52, 0x49, 0x20, 0x30, 0x30, 0x03])
      == [0x02, 0x50, 0x49, 0x52, 0x49, 0x20, 0x30, 0x30, 0x03, 0x32, 0x31]
  {
    var body: seq<bv8> := [0x50, 0x49, 0x52, 0x49, 0x20, 0x30, 0x30, 0x03];
    StatusContentChecksum();
    HexOf21();
    FramedWith(body, 0x21);
    StatusCat();
  }

  lemma HexOf21()
    ensures HexUpper(0x21) == [0x32, 0x31]
  {
  }

  lemma StatusCat()
    ensures [STX] + [0x50, 0x49, 0x52, 0x49, 0x20, 0x30, 0x30, 0x03] + [0x32, 0x31]
      == [0x02, 0x50, 0x49, 0x52, 0x49, 0x20, 0x30, 0x30, 0x03, 0x32, 0x31]
  {
  }

  lemma SettingsContent()
    ensures RequestContent("11", Some("30"), Some("0"))
      == [0x50, 0x49, 0x52, 0x49, 0x20, 0x31, 0x31, 0x33, 0x30, 0x1C, 0x30, 0x1C, 0x03]
  {
    PasswordBytes();
    assert AsciiBytes("11") == [0x31, 0x31];
    assert AsciiBytes("30") == [0x33, 0x30];
    assert AsciiBytes("0") == [0x30];
  }

  lemma SettingsContentChecksum()
    ensures Xor8([0x50, 0x49, 0x52, 0x49, 0x20, 0x31, 0x31, 0x33, 0x30, 0x1C, 0x30, 0x1C, 0x03]) == 0x12
  {
  }

  /** The settings read: "11" with parameters "30" and "0", checksum "12". */
  lemma SettingsRequestVector()
    ensures RequestFrame("11", Some("30"), Some("0"))
      == [0x02, 0x50, 0x49, 0x52, 0x49, 0x20, 0x31, 0x31, 0x33, 0x30, 0x1C, 0x30, 0x1C, 0x03, 0x31, 0x32]
  {
    SettingsContent();
    SettingsFrame();
  }

  lemma SettingsFrame()
    ensures Framed([0x50, 0x49, 0x52, 0x49, 0x20, 0x31, 0x31, 0x33, 0x30, 0x1C, 0x30, 0x1C, 0x03])
      == [0x02, 0x50, 0x49, 0x52, 0x49, 0x20, 0x31, 0x31, 0x33, 0x30, 0x1C, 0x30, 0x1C, 0x03, 0x31, 0x32]
  {
    var body: seq<bv8> := [0x50, 0x49, 0x52, 0x49, 0x20, 0x31, 0x31, 0x33, 0x30, 0x1C, 0x30, 0x1C, 0x03];
    SettingsContentChecksum();
    HexOf12();
    FramedWith(body, 0x12);
    SettingsCat();
  }

  lemma SettingsCat()
    ensures [STX] + [0x50, 0x49, 0x52, 0x49, 0x20, 0x31, 0x31, 0x33, 0x30, 0x1C, 0x30, 0x1C, 0x03] + [0x31, 0x32]
      == [0x02, 0x50, 0x49, 0x52, 0x49, 0x20, 0x31, 0x31, 0x33, 0x30, 0x1C, 0x30, 0x1C, 0x03, 0x31, 0x32]
  {
  }

  lemma HexOf12()
    ensures HexUpper(0x12) == [0x31, 0x32]
  {
  }
}
