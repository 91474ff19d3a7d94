/**
 * The sequence `Main` drives once the port is open: the ENQ probe, the
 * status query "00", the settings read "11" with "30" and "0", then the
 * receipt-design upload: request "17" with the blob's size, one ACK byte,
 * the blob itself, and a framed confirmation. The printer is a script of
 * the replies it gives; the run is the trace of what crosses the line and
 * how it ends. Every reply with an error code other than "00" ends the run
 * on the spot, and only a run that gets through every step closes the port.
 */
module Session {

  import opened Wrappers
  import opened Text
  import opened Codec
  import opened Status

  /** The replies the printer gives, step by step. */
  datatype Printer = Printer(
    probeReply: seq<bv8>,     // what is waiting after ENQ
    statusReply: seq<bv8>,    // what is waiting after the status query
    settingsReply: seq<bv8>,  // what is waiting after the settings read
    uploadAck: bv8,           // the byte read after the upload request
    uploadReply: seq<bv8>)    // what is waiting after the blob

  datatype Event =
    | Opened(port: string)
    | Sent(bytes: seq<bv8>)
    | Uploaded(blob: seq<bv8>)
    | Received(bytes: seq<bv8>)
    | Closed

  datatype Stage = StatusQuery | SettingsRead | DesignUpload

  /** Where the source throws: nothing came back, too little came back, a parameter it indexes is absent, the status byte does not parse. */
  datatype Fault = NoResponse(stage: Stage) | ShortResponse(stage: Stage) | MissingParameter(stage: Stage) | BadStatusByte

  datatype Outcome =
    | Completed(shiftOpen: bool, nameCentred: bool)
    | NoConnection
    | Rejected(stage: Stage, errorCode: string)
    | NotAcknowledged(reply: bv8)
    | Crashed(fault: Fault)

  /** A framed command: its code and up to two parameters. */
  datatype Command = Command(code: string, param1: Option<string>, param2: Option<string>)

  predicate Encodable(c: Command) {
    EncodableRequest(c.code, c.param1, c.param2)
  }

  /** The bytes `CreatePacketByCode` builds for a command. */
  function CommandFrame(c: Command): seq<bv8>
    requires Encodable(c)
  {
    RequestFrame(c.code, c.param1, c.param2)
  }

  /** The status flags query. */
  const StatusQueryCommand := Command("00", None, None)

  /** Reading table 30, index 0 of the settings: the first line of the organisation name. */
  const SettingsReadCommand := Command("11", Some("30"), Some("0"))

  /** Announcing a receipt design of `size` bytes. */
  function UploadCommand(size: nat): Command {
    Command("17", Some(DecimalString(size)), None)
  }

  /** `Char.IsWhiteSpace`: the Unicode space separators, line and paragraph separators, and U+0009-U+000D, U+0085. */
  predicate IsWhiteSpace(c: char) {
    || c == ' ' || '\t' <= c <= '\r' || c == '\U{85}' || c == '\U{A0}' || c == '\U{1680}'
    || '\U{2000}' <= c <= '\U{200A}' || c == '\U{2028}' || c == '\U{2029}'
    || c == '\U{202F}' || c == '\U{205F}' || c == '\U{3000}'
  }

  /** `TrimStart()`: `s` without its leading white space. */
  function TrimStart(s: string): (r: string)
    ensures |r| <= |s|
    ensures r != [] ==> !IsWhiteSpace(r[0])
  {
    if s != [] && IsWhiteSpace(s[0]) then TrimStart(s[1..]) else s
  }

  /** What `TrimStart` removes is a run of white space at the front, and nothing else. */
  lemma {:induction false} TrimStartMeaning(s: string)
    ensures var r := TrimStart(s);
      && r == s[|s| - |r|..]
      && forall i :: 0 <= i < |s| - |r| ==> IsWhiteSpace(s[i])
    decreases |s|
  {
    if s != [] && IsWhiteSpace(s[0]) {
      TrimStartMeaning(s[1..]);
      var r := TrimStart(s[1..]);
      assert s[1..][|s| - 1 - |r|..] == s[|s| - |r|..];
      assert forall i :: 1 <= i < |s| - |r| ==> s[i] == s[1..][i - 1];
    }
  }

  /** The organisation name counts as centred when trimming its start shortens it. */
  function NameCentred(name: string): (b: bool)
    ensures b <==> name != [] && IsWhiteSpace(name[0])
  {
    |TrimStart(name)| < |name|
  }

  // ----- What the printer must say for each step to pass -----

  /** `CheckConnectionKKT`: exactly one byte is waiting after ENQ, and it is ACK. */
  predicate Connected(p: Printer)
    ensures Connected(p) <==> p.probeReply == [ACK]
  {
    |p.probeReply| == 1 && p.probeReply[0] == ACK
  }

  /** A reply long enough to decode and carrying error code "00". */
  predicate Accepted(reply: seq<bv8>, cp: bv8 -> char) {
    |reply| >= 6 && DecodePacket(reply, cp).errorCode == "00"
  }

  /** The decoded reply has the second parameter the status step reads. */
  predicate StatusParams(reply: seq<bv8>, cp: bv8 -> char)
    requires |reply| >= 6
  {
    DecodePacket(reply, cp).parameters.Some? && |DecodePacket(reply, cp).parameters.value| >= 2
  }

  predicate StatusUsable(reply: seq<bv8>, cp: bv8 -> char) {
    && Accepted(reply, cp)
    && StatusParams(reply, cp)
    && ParseByte(DecodePacket(reply, cp).parameters.value[1]).Some?
  }

  predicate SettingsUsable(reply: seq<bv8>, cp: bv8 -> char) {
    && Accepted(reply, cp)
    && DecodePacket(reply, cp).parameters.Some?
    && |DecodePacket(reply, cp).parameters.value| >= 1
  }

  predicate Completes(p: Printer, cp: bv8 -> char) {
    && Connected(p)
    && StatusUsable(p.statusReply, cp)
    && SettingsUsable(p.settingsReply, cp)
    && p.uploadAck == ACK
    && Accepted(p.uploadReply, cp)
  }

  /** The three commands of a run, in the order they are sent. */
  datatype Commands = Commands(status: Command, settings: Command, upload: Command)

  predicate AllEncodable(cs: Commands) {
    Encodable(cs.status) && Encodable(cs.settings) && Encodable(cs.upload)
  }

  function ToolCommands(size: nat): (cs: Commands)
    ensures AllEncodable(cs)
  {
    Commands(StatusQueryCommand, SettingsReadCommand, UploadCommand(size))
  }

  /**
   * Everything that crosses the line when the printer follows its script
   * to the end; a run that stops early has produced a prefix of it.
   */
  function Script(portName: string, blob: seq<bv8>, p: Printer, cs: Commands): (s: seq<Event>)
    requires AllEncodable(cs)
    ensures |s| == 12
  {
    [Opened(portName), Sent([ENQ]), Received(p.probeReply),
     Sent(CommandFrame(cs.status)), Received(p.statusReply),
     Sent(CommandFrame(cs.settings)), Received(p.settingsReply),
     Sent(CommandFrame(cs.upload)), Received([p.uploadAck]), Uploaded(blob), Received(p.uploadReply),
     Closed]
  }

  /** Appending the script's next event keeps a trace a prefix of the script (a proof step of the methods below). */
  lemma PrefixStep(s: seq<Event>, t: seq<Event>, e: Event)
    requires |t| < |s| && t == s[..|t|] && s[|t|] == e
    ensures t + [e] == s[..|t| + 1]
  {
  }

  /**
   * `AwaitResponse` then `DecodePacket` at one stage: the decoded reply when
   * its error code is "00", else how the run ends there.
   */
  function Await(reply: seq<bv8>, cp: bv8 -> char, stage: Stage): (r: Result<Packet, Outcome>)
    ensures r.Success? <==> Accepted(reply, cp)
    ensures r.Success? ==> r.value == DecodePacket(reply, cp)
  {
    if |reply| == 0 then Failure(Crashed(NoResponse(stage)))
    else if |reply| < 6 then Failure(Crashed(ShortResponse(stage)))
    else
      var d := DecodePacket(reply, cp);
      if d.errorCode != "00" then Failure(Rejected(stage, d.errorCode)) else Success(d)
  }

  /** How many events of a stage's reply reach the trace: none when nothing came back. */
  function Heard(reply: seq<bv8>): nat {
    if |reply| == 0 then 0 else 1
  }

  /**
   * How a run with this printer ends, and how many events of the script it
   * has produced by then.
   */
  function Expected(p: Printer, cp: bv8 -> char): (r: (nat, Outcome))
    ensures 2 <= r.0 <= 12
  {
    if |p.probeReply| != 1 then (2, NoConnection)
    else if p.probeReply[0] != ACK then (3, NoConnection)
    else StatusStage(p, cp)
  }

  /** The run from the status query on. */
  function StatusStage(p: Printer, cp: bv8 -> char): (r: (nat, Outcome))
    ensures 4 <= r.0 <= 12
  {
    match Await(p.statusReply, cp, StatusQuery)
    case Failure(o) => (4 + Heard(p.statusReply), o)
    case Success(status) =>
      if status.parameters.None? || |status.parameters.value| < 2 then (5, Crashed(MissingParameter(StatusQuery)))
      else match ParseByte(status.parameters.value[1])
        case None => (5, Crashed(BadStatusByte))
        case Some(b) => SettingsStage(p, cp, BitArrayOf(b)[2])
  }

  /** The run from the settings read on, the shift flag already known. */
  function SettingsStage(p: Printer, cp: bv8 -> char, shiftOpen: bool): (r: (nat, Outcome))
    ensures 6 <= r.0 <= 12
  {
    match Await(p.settingsReply, cp, SettingsRead)
    case Failure(o) => (6 + Heard(p.settingsReply), o)
    case Success(settings) =>
      if settings.parameters.None? || |settings.parameters.value| < 1 then (7, Crashed(MissingParameter(SettingsRead)))
      else UploadStage(p, cp, shiftOpen, NameCentred(settings.parameters.value[0]))
  }

  /** The run from the upload request on. */
  function UploadStage(p: Printer, cp: bv8 -> char, shiftOpen: bool, centred: bool): (r: (nat, Outcome))
    ensures 9 <= r.0 <= 12
  {
    if p.uploadAck != ACK then (9, NotAcknowledged(p.uploadAck))
    else match Await(p.uploadReply, cp, DesignUpload)
      case Failure(o) => (10 + Heard(p.uploadReply), o)
      case Success(_) => (12, Completed(shiftOpen, centred))
  }

  /**
   * `Main` from the open port on: `portName` is what the configuration
   * lookup chose, `blob` the design file's bytes, `cp` code page 866.
   */
  method Run(portName: string, blob: seq<bv8>, printer: Printer, cp: bv8 -> char)
    returns (trace: seq<Event>, outcome: Outcome)
    ensures trace == Script(portName, blob, printer, ToolCommands(|blob|))[..Expected(printer, cp).0]
    ensures outcome == Expected(printer, cp).1
  {
    trace, outcome := Converse(portName, blob, printer, cp, ToolCommands(|blob|));
  }

  /** The connection check, then the three commands in turn. */
  method Converse(portName: string, blob: seq<bv8>, printer: Printer, cp: bv8 -> char, commands: Commands)
    returns (trace: seq<Event>, outcome: Outcome)
    requires AllEncodable(commands)
    ensures trace == Script(portName, blob, printer, commands)[..Expected(printer, cp).0]
    ensures outcome == Expected(printer, cp).1
  {
    ghost var script := Script(portName, blob, printer, commands);
    trace := [Opened(portName)];

    // CheckConnectionKKT
    PrefixStep(script, trace, Sent([ENQ]));
    trace := trace + [Sent([ENQ])];
    if |printer.probeReply| != 1 {
      return trace, NoConnection;
    }
    PrefixStep(script, trace, Received(printer.probeReply));
    trace := trace + [Received(printer.probeReply)];
    if printer.probeReply[0] != ACK {
      return trace, NoConnection;
    }
    trace, outcome := QueryStatus(portName, blob, printer, cp, commands, trace);
  }

  /** The status query "00" and the shift flag read from its second parameter. */
  method QueryStatus(portName: string, blob: seq<bv8>, printer: Printer, cp: bv8 -> char, commands: Commands,
                     sofar: seq<Event>)
    returns (trace: seq<Event>, outcome: Outcome)
    requires AllEncodable(commands)
    requires sofar == Script(portName, blob, printer, commands)[..3]
    ensures trace == Script(portName, blob, printer, commands)[..StatusStage(printer, cp).0]
    ensures outcome == StatusStage(printer, cp).1
  {
    ghost var script := Script(portName, blob, printer, commands);
    trace := sofar;
    var packet00 := CreatePacketByCode(commands.status.code, commands.status.param1, commands.status.param2);
    PrefixStep(script, trace, Sent(packet00[..]));
    trace := trace + [Sent(packet00[..])];
    var reply := printer.statusReply;
    if |reply| == 0 {
      return trace, Crashed(NoResponse(StatusQuery));
    }
    PrefixStep(script, trace, Received(reply));
    trace := trace + [Received(reply)];
    if |reply| < 6 {
      return trace, Crashed(ShortResponse(StatusQuery));
    }
    var decoded := DecodePacket(reply, cp);
    if decoded.errorCode != "00" {
      return trace, Rejected(StatusQuery, decoded.errorCode);
    }
    if decoded.parameters.None? || |decoded.parameters.value| < 2 {
      return trace, Crashed(MissingParameter(StatusQuery));
    }
    var p2byte := ParseByte(decoded.parameters.value[1]);
    if p2byte.None? {
      return trace, Crashed(BadStatusByte);
    }
    var shiftOpen := BitArrayOf(p2byte.value)[2];
    trace, outcome := ReadSettings(portName, blob, printer, cp, commands, shiftOpen, trace);
  }

  /** The settings read "11" with "30" and "0", and the check of the organisation name. */
  method ReadSettings(portName: string, blob: seq<bv8>, printer: Printer, cp: bv8 -> char, commands: Commands,
                      shiftOpen: bool, sofar: seq<Event>)
    returns (trace: seq<Event>, outcome: Outcome)
    requires AllEncodable(commands)
    requires sofar == Script(portName, blob, printer, commands)[..5]
    ensures trace == Script(portName, blob, printer, commands)[..SettingsStage(printer, cp, shiftOpen).0]
    ensures outcome == SettingsStage(printer, cp, shiftOpen).1
  {
    ghost var script := Script(portName, blob, printer, commands);
    trace := sofar;
    var packet11 := CreatePacketByCode(commands.settings.code, commands.settings.param1, commands.settings.param2);
    PrefixStep(script, trace, Sent(packet11[..]));
    trace := trace + [Sent(packet11[..])];
    var reply := printer.settingsReply;
    if |reply| == 0 {
      return trace, Crashed(NoResponse(SettingsRead));
    }
    PrefixStep(script, trace, Received(reply));
    trace := trace + [Received(reply)];
    if |reply| < 6 {
      return trace, Crashed(ShortResponse(SettingsRead));
    }
    var decoded := DecodePacket(reply, cp);
    if decoded.errorCode != "00" {
      return trace, Rejected(SettingsRead, decoded.errorCode);
    }
    if decoded.parameters.None? || |decoded.parameters.value| < 1 {
      return trace, Crashed(MissingParameter(SettingsRead));
    }
    var centred := NameCentred(decoded.parameters.value[0]);
    trace, outcome := UploadDesign(portName, blob, printer, cp, commands, shiftOpen, centred, trace);
  }

  /** The upload: request "17" with the size, the ACK, the blob, the confirmation, and the port closed. */
  method UploadDesign(portName: string, blob: seq<bv8>, printer: Printer, cp: bv8 -> char, commands: Commands,
                      shiftOpen: bool, centred: bool, sofar: seq<Event>)
    returns (trace: seq<Event>, outcome: Outcome)
    requires AllEncodable(commands)
    requires sofar == Script(portName, blob, printer, commands)[..7]
    ensures trace == Script(portName, blob, printer, commands)[..UploadStage(printer, cp, shiftOpen, centred).0]
    ensures outcome == UploadStage(printer, cp, shiftOpen, centred).1
  {
    ghost var script := Script(portName, blob, printer, commands);
    trace := sofar;
    var packet17 := CreatePacketByCode(commands.upload.code, commands.upload.param1, commands.upload.param2);
    PrefixStep(script, trace, Sent(packet17[..]));
    trace := trace + [Sent(packet17[..])];
    var result := printer.uploadAck;
    PrefixStep(script, trace, Received([result]));
    trace := trace + [Received([result])];
    if result != ACK {
      return trace, NotAcknowledged(result);
    }
    PrefixStep(script, trace, Uploaded(blob));
    trace := trace + [Uploaded(blob)];
    var reply := printer.uploadReply;
    if |reply| == 0 {
      return trace, Crashed(NoResponse(DesignUpload));
    }
    PrefixStep(script, trace, Received(reply));
    trace := trace + [Received(reply)];
    if |reply| < 6 {
      return trace, Crashed(ShortResponse(DesignUpload));
    }
    var decoded := DecodePacket(reply, cp);
    if decoded.errorCode != "00" {
      return trace, Rejected(DesignUpload, decoded.errorCode);
    }
    PrefixStep(script, trace, Closed);
    trace := trace + [Closed];
    outcome := Completed(shiftOpen, centred);
  }

  // ----- What a run promises -----

  /** `reply` decodes with the error code `code`, which is not "00". */
  predicate Rejects(reply: seq<bv8>, cp: bv8 -> char, code: string) {
    |reply| >= 6 && code != "00" && DecodePacket(reply, cp).errorCode == code
  }

  /** `reply` decodes, with an error code other than "00". */
  predicate RejectedBy(reply: seq<bv8>, cp: bv8 -> char) {
    |reply| >= 6 && DecodePacket(reply, cp).errorCode != "00"
  }

  /** A rejected run stopped right after the reply that carried the error code. */
  predicate RejectedAfterReply(p: Printer, cp: bv8 -> char, r: (nat, Outcome)) {
    r.1.Rejected? ==>
      || (r.0 == 5 && r.1.stage == StatusQuery && Rejects(p.statusReply, cp, r.1.errorCode))
      || (r.0 == 7 && r.1.stage == SettingsRead && Rejects(p.settingsReply, cp, r.1.errorCode))
      || (r.0 == 11 && r.1.stage == DesignUpload && Rejects(p.uploadReply, cp, r.1.errorCode))
  }

  lemma UploadStageFacts(p: Printer, cp: bv8 -> char, shiftOpen: bool, centred: bool)
    ensures var r := UploadStage(p, cp, shiftOpen, centred);
      && (r.1.Completed? <==> p.uploadAck == ACK && Accepted(p.uploadReply, cp))
      && (r.1.Completed? ==> r == (12, Completed(shiftOpen, centred)))
      && (r.0 == 12 ==> r.1.Completed?)
      && (r.0 >= 10 <==> p.uploadAck == ACK)
      && r.1 != NoConnection
      && RejectedAfterReply(p, cp, r)
      && (p.uploadAck == ACK && RejectedBy(p.uploadReply, cp) ==>
            r == (11, Rejected(DesignUpload, DecodePacket(p.uploadReply, cp).errorCode)))
  {
  }

  lemma SettingsStageFacts(p: Printer, cp: bv8 -> char, shiftOpen: bool)
    ensures var r := SettingsStage(p, cp, shiftOpen);
      && (r.1.Completed? <==> SettingsUsable(p.settingsReply, cp) && p.uploadAck == ACK && Accepted(p.uploadReply, cp))
      && (r.1.Completed? ==> r == (12, Completed(shiftOpen,
            NameCentred(DecodePacket(p.settingsReply, cp).parameters.value[0]))))
      && (r.0 == 12 ==> r.1.Completed?)
      && (r.0 >= 8 <==> SettingsUsable(p.settingsReply, cp))
      && (r.0 >= 10 <==> SettingsUsable(p.settingsReply, cp) && p.uploadAck == ACK)
      && r.1 != NoConnection
      && RejectedAfterReply(p, cp, r)
      && (RejectedBy(p.settingsReply, cp) ==>
            r == (7, Rejected(SettingsRead, DecodePacket(p.settingsReply, cp).errorCode)))
      && (SettingsUsable(p.settingsReply, cp) && p.uploadAck == ACK && RejectedBy(p.uploadReply, cp) ==>
            r == (11, Rejected(DesignUpload, DecodePacket(p.uploadReply, cp).errorCode)))
  {
    if SettingsUsable(p.settingsReply, cp) {
      UploadStageFacts(p, cp, shiftOpen, NameCentred(DecodePacket(p.settingsReply, cp).parameters.value[0]));
    }
  }

  lemma StatusStageFacts(p: Printer, cp: bv8 -> char)
    ensures var r := StatusStage(p, cp);
      && (r.1.Completed? <==>
            (StatusUsable(p.statusReply, cp) && SettingsUsable(p.settingsReply, cp)
             && p.uploadAck == ACK && Accepted(p.uploadReply, cp)))
      && (r.1.Completed? ==> r == (12, Completed(
            ShiftOpen(DecodePacket(p.statusReply, cp).parameters.value[1]).value,
            NameCentred(DecodePacket(p.settingsReply, cp).parameters.value[0]))))
      && (r.0 == 12 ==> r.1.Completed?)
      && (r.0 >= 6 <==> StatusUsable(p.statusReply, cp))
      && (r.0 >= 8 <==> StatusUsable(p.statusReply, cp) && SettingsUsable(p.settingsReply, cp))
      && (r.0 >= 10 <==> StatusUsable(p.statusReply, cp) && SettingsUsable(p.settingsReply, cp) && p.uploadAck == ACK)
      && r.1 != NoConnection
      && RejectedAfterReply(p, cp, r)
      && (RejectedBy(p.statusReply, cp) ==>
            r == (5, Rejected(StatusQuery, DecodePacket(p.statusReply, cp).errorCode)))
      && (StatusUsable(p.statusReply, cp) && RejectedBy(p.settingsReply, cp) ==>
            r == (7, Rejected(SettingsRead, DecodePacket(p.settingsReply, cp).errorCode)))
      && (StatusUsable(p.statusReply, cp) && SettingsUsable(p.settingsReply, cp) && p.uploadAck == ACK
          && RejectedBy(p.uploadReply, cp) ==>
            r == (11, Rejected(DesignUpload, DecodePacket(p.uploadReply, cp).errorCode)))
  {
    if StatusUsable(p.statusReply, cp) {
      var b := ParseByte(DecodePacket(p.statusReply, cp).parameters.value[1]).value;
      SettingsStageFacts(p, cp, BitArrayOf(b)[2]);
    }
  }

  /** The run reports no connection exactly when the probe is not answered by a single ACK. */
  lemma NoConnectionMeaning(p: Printer, cp: bv8 -> char)
    ensures Expected(p, cp).1 == NoConnection <==> !Connected(p)
  {
    if Connected(p) {
      StatusStageFacts(p, cp);
    }
  }

  /**
   * How far a run gets: past the probe exactly when the printer is connected,
   * past the status query exactly when its reply is usable as well, past the
   * settings read exactly when that reply is usable too, and past the upload
   * request exactly when the printer also acknowledges it.
   */
  lemma ReachMeaning(p: Printer, cp: bv8 -> char)
    ensures var n := Expected(p, cp).0;
      && (n >= 4 <==> Connected(p))
      && (n >= 6 <==> Connected(p) && StatusUsable(p.statusReply, cp))
      && (n >= 8 <==> Connected(p) && StatusUsable(p.statusReply, cp) && SettingsUsable(p.settingsReply, cp))
      && (n >= 10 <==> Connected(p) && StatusUsable(p.statusReply, cp) && SettingsUsable(p.settingsReply, cp)
                       && p.uploadAck == ACK)
  {
    if Connected(p) {
      StatusStageFacts(p, cp);
    }
  }

  /**
   * A reply with an error code other than "00" ends the run there, with that
   * error code, whenever the run gets as far as that reply.
   */
  lemma RejectionMeaning(p: Printer, cp: bv8 -> char)
    requires Connected(p)
    ensures RejectedBy(p.statusReply, cp) ==>
      Expected(p, cp) == (5, Rejected(StatusQuery, DecodePacket(p.statusReply, cp).errorCode))
    ensures StatusUsable(p.statusReply, cp) && RejectedBy(p.settingsReply, cp) ==>
      Expected(p, cp) == (7, Rejected(SettingsRead, DecodePacket(p.settingsReply, cp).errorCode))
    ensures (StatusUsable(p.statusReply, cp) && SettingsUsable(p.settingsReply, cp) && p.uploadAck == ACK
             && RejectedBy(p.uploadReply, cp)) ==>
      Expected(p, cp) == (11, Rejected(DesignUpload, DecodePacket(p.uploadReply, cp).errorCode))
  {
    StatusStageFacts(p, cp);
  }

  /**
   * How a run that gets as far as a step ends when that step goes wrong
   * without an error code: no reply, a reply shorter than six bytes, a
   * missing parameter or an unparsable status byte is a crash at that step,
   * and an upload request answered by anything but ACK is `NotAcknowledged`.
   */
  lemma FailureKinds(p: Printer, cp: bv8 -> char)
    requires Connected(p)
    ensures |p.statusReply| == 0 ==> Expected(p, cp) == (4, Crashed(NoResponse(StatusQuery)))
    ensures 0 < |p.statusReply| < 6 ==> Expected(p, cp) == (5, Crashed(ShortResponse(StatusQuery)))
    ensures Accepted(p.statusReply, cp) && !StatusParams(p.statusReply, cp) ==>
      Expected(p, cp) == (5, Crashed(MissingParameter(StatusQuery)))
    ensures Accepted(p.statusReply, cp) && StatusParams(p.statusReply, cp) && !StatusUsable(p.statusReply, cp) ==>
      Expected(p, cp) == (5, Crashed(BadStatusByte))
    ensures StatusUsable(p.statusReply, cp) && |p.settingsReply| == 0 ==>
      Expected(p, cp) == (6, Crashed(NoResponse(SettingsRead)))
    ensures StatusUsable(p.statusReply, cp) && 0 < |p.settingsReply| < 6 ==>
      Expected(p, cp) == (7, Crashed(ShortResponse(SettingsRead)))
    ensures StatusUsable(p.statusReply, cp) && Accepted(p.settingsReply, cp) && !SettingsUsable(p.settingsReply, cp) ==>
      Expected(p, cp) == (7, Crashed(MissingParameter(SettingsRead)))
    ensures StatusUsable(p.statusReply, cp) && SettingsUsable(p.settingsReply, cp) && p.uploadAck != ACK ==>
      Expected(p, cp) == (9, NotAcknowledged(p.uploadAck))
    ensures (StatusUsable(p.statusReply, cp) && SettingsUsable(p.settingsReply, cp) && p.uploadAck == ACK
             && |p.uploadReply| == 0) ==>
      Expected(p, cp) == (10, Crashed(NoResponse(DesignUpload)))
    ensures (StatusUsable(p.statusReply, cp) && SettingsUsable(p.settingsReply, cp) && p.uploadAck == ACK
             && 0 < |p.uploadReply| < 6) ==>
      Expected(p, cp) == (11, Crashed(ShortResponse(DesignUpload)))
  {
    StatusFailures(p, cp);
    if StatusUsable(p.statusReply, cp) {
      var shiftOpen := BitArrayOf(ParseByte(DecodePacket(p.statusReply, cp).parameters.value[1]).value)[2];
      SettingsFailures(p, cp, shiftOpen);
      if SettingsUsable(p.settingsReply, cp) {
        UploadFailures(p, cp, shiftOpen, NameCentred(DecodePacket(p.settingsReply, cp).parameters.value[0]));
      }
    }
  }

  /** The status step's own failures, and where a usable status reply leads. */
  lemma StatusFailures(p: Printer, cp: bv8 -> char)
    ensures |p.statusReply| == 0 ==> StatusStage(p, cp) == (4, Crashed(NoResponse(StatusQuery)))
    ensures 0 < |p.statusReply| < 6 ==> StatusStage(p, cp) == (5, Crashed(ShortResponse(StatusQuery)))
    ensures Accepted(p.statusReply, cp) && !StatusParams(p.statusReply, cp) ==>
      StatusStage(p, cp) == (5, Crashed(MissingParameter(StatusQuery)))
    ensures Accepted(p.statusReply, cp) && StatusParams(p.statusReply, cp) && !StatusUsable(p.statusReply, cp) ==>
      StatusStage(p, cp) == (5, Crashed(BadStatusByte))
    ensures StatusUsable(p.statusReply, cp) ==> StatusStage(p, cp) == SettingsStage(p, cp,
      BitArrayOf(ParseByte(DecodePacket(p.statusReply, cp).parameters.value[1]).value)[2])
  {
  }

  /** The settings step's own failures, and where a usable settings reply leads. */
  lemma SettingsFailures(p: Printer, cp: bv8 -> char, shiftOpen: bool)
    ensures |p.settingsReply| == 0 ==> SettingsStage(p, cp, shiftOpen) == (6, Crashed(NoResponse(SettingsRead)))
    ensures 0 < |p.settingsReply| < 6 ==> SettingsStage(p, cp, shiftOpen) == (7, Crashed(ShortResponse(SettingsRead)))
    ensures Accepted(p.settingsReply, cp) && !SettingsUsable(p.settingsReply, cp) ==>
      SettingsStage(p, cp, shiftOpen) == (7, Crashed(MissingParameter(SettingsRead)))
    ensures SettingsUsable(p.settingsReply, cp) ==> SettingsStage(p, cp, shiftOpen) == UploadStage(p, cp, shiftOpen,
      NameCentred(DecodePacket(p.settingsReply, cp).parameters.value[0]))
  {
  }

  /** The upload step's own failures. */
  lemma UploadFailures(p: Printer, cp: bv8 -> char, shiftOpen: bool, centred: bool)
    ensures p.uploadAck != ACK ==> UploadStage(p, cp, shiftOpen, centred) == (9, NotAcknowledged(p.uploadAck))
    ensures p.uploadAck == ACK && |p.uploadReply| == 0 ==>
      UploadStage(p, cp, shiftOpen, centred) == (10, Crashed(NoResponse(DesignUpload)))
    ensures p.uploadAck == ACK && 0 < |p.uploadReply| < 6 ==>
      UploadStage(p, cp, shiftOpen, centred) == (11, Crashed(ShortResponse(DesignUpload)))
  {
  }

  /** A run ends unacknowledged exactly when everything before the upload request went well and the reply byte is not ACK. */
  lemma NotAcknowledgedMeaning(p: Printer, cp: bv8 -> char)
    ensures Expected(p, cp).1.NotAcknowledged? <==>
      Connected(p) && StatusUsable(p.statusReply, cp) && SettingsUsable(p.settingsReply, cp) && p.uploadAck != ACK
  {
    if Connected(p) {
      StatusStageFacts(p, cp);
      if StatusUsable(p.statusReply, cp) && SettingsUsable(p.settingsReply, cp) && p.uploadAck != ACK {
        FailureKinds(p, cp);
      }
    }
  }

  /**
   * The run completes exactly when every step gets the reply it needs; it
   * then has produced the whole script, closing the port last, and reports
   * bit 2 of the status byte and whether the organisation name is centred.
   */
  lemma CompletionMeaning(p: Printer, cp: bv8 -> char)
    ensures Expected(p, cp).1.Completed? <==> Completes(p, cp)
    ensures Expected(p, cp).1.Completed? <==> Expected(p, cp).0 == 12
    ensures Completes(p, cp) ==> Expected(p, cp).1 == Completed(
      ShiftOpen(DecodePacket(p.statusReply, cp).parameters.value[1]).value,
      NameCentred(DecodePacket(p.settingsReply, cp).parameters.value[0]))
  {
    if Connected(p) {
      StatusStageFacts(p, cp);
    }
  }

  /** The port is closed only by a run that completes: Closed is the last event of the script. */
  lemma ClosesOnlyOnCompletion(portName: string, blob: seq<bv8>, p: Printer, cp: bv8 -> char, cs: Commands)
    requires AllEncodable(cs)
    ensures var s := Script(portName, blob, p, cs);
      (exists k :: 0 <= k < Expected(p, cp).0 && s[k] == Closed) <==> Expected(p, cp).1.Completed?
  {
    var s := Script(portName, blob, p, cs);
    CompletionMeaning(p, cp);
    ClosedLast(portName, blob, p, cs);
    if Expected(p, cp).1.Completed? {
      assert s[11] == Closed;
    }
  }

  lemma ClosedLast(portName: string, blob: seq<bv8>, p: Printer, cs: Commands)
    requires AllEncodable(cs)
    ensures forall k :: 0 <= k < 11 ==> Script(portName, blob, p, cs)[k] != Closed
  {
  }

  /**
   * The blob goes out only right after the upload request and an ACK: in any
   * run, an upload event sits at position 9, after the upload request and
   * the ACK read back.
   */
  lemma BlobFollowsAck(portName: string, blob: seq<bv8>, p: Printer, cp: bv8 -> char, cs: Commands)
    requires AllEncodable(cs)
    ensures var s := Script(portName, blob, p, cs);
      forall k :: 0 <= k < Expected(p, cp).0 && s[k].Uploaded? ==>
        && k == 9 && s[k].blob == blob
        && s[8] == Received([ACK])
        && s[7] == Sent(CommandFrame(cs.upload))
  {
    UploadAtNine(portName, blob, p, cs);
    if Connected(p) {
      StatusStageFacts(p, cp);
    }
  }

  lemma UploadAtNine(portName: string, blob: seq<bv8>, p: Printer, cs: Commands)
    requires AllEncodable(cs)
    ensures var s := Script(portName, blob, p, cs);
      forall k :: 0 <= k < 12 && s[k].Uploaded? ==>
        k == 9 && s[k].blob == blob && s[8] == Received([p.uploadAck]) && s[7] == Sent(CommandFrame(cs.upload))
  {
  }

  /** A run that ends on an error code stops right after the reply that carried it. */
  lemma StopsAtErrorCode(portName: string, blob: seq<bv8>, p: Printer, cp: bv8 -> char, cs: Commands)
    requires AllEncodable(cs)
    ensures var r := Expected(p, cp);
      var s := Script(portName, blob, p, cs);
      r.1.Rejected? ==>
        && r.1.errorCode != "00"
        && s[r.0 - 1].Received? && |s[r.0 - 1].bytes| >= 6
        && DecodePacket(s[r.0 - 1].bytes, cp).errorCode == r.1.errorCode
  {
    var r := Expected(p, cp);
    if r.1.Rejected? {
      assert Connected(p);
      StatusStageFacts(p, cp);
      assert RejectedAfterReply(p, cp, r);
      RepliesInScript(portName, blob, p, cs);
    }
  }

  /** Where the script holds each reply. */
  lemma RepliesInScript(portName: string, blob: seq<bv8>, p: Printer, cs: Commands)
    requires AllEncodable(cs)
    ensures var s := Script(portName, blob, p, cs);
      s[4] == Received(p.statusReply) && s[6] == Received(p.settingsReply) && s[10] == Received(p.uploadReply)
  {
  }

  /**
   * Every packet the tool writes through `WritePacketToPort`, and the ENQ
   * probe (each `Sent` event), is ENQ or a frame whose checksum a receiver
   * accepts; the design blob (the one `Uploaded` event) goes out unframed,
   * exactly as read, at position 9.
   */
  lemma SentFramesCheck(portName: string, blob: seq<bv8>, p: Printer, cs: Commands)
    requires AllEncodable(cs)
    ensures var s := Script(portName, blob, p, cs);
      forall k :: 0 <= k < 12 && s[k].Sent? ==> s[k].bytes == [ENQ] || ChecksumMatches(s[k].bytes)
    ensures var s := Script(portName, blob, p, cs);
      forall k :: 0 <= k < 12 && s[k].Uploaded? ==> k == 9 && s[k].blob == blob
  {
    RequestChecksumMatches(cs.status.code, cs.status.param1, cs.status.param2);
    RequestChecksumMatches(cs.settings.code, cs.settings.param1, cs.settings.param2);
    RequestChecksumMatches(cs.upload.code, cs.upload.param1, cs.upload.param2);
  }

  /** The upload request announces the blob's size in decimal, and is the only command with a parameter that varies. */
  lemma ToolFrames(size: nat)
    ensures CommandFrame(ToolCommands(size).status) == [0x02, 0x50, 0x49, 0x52, 0x49, 0x20, 0x30, 0x30, 0x03, 0x32, 0x31]
    ensures CommandFrame(ToolCommands(size).settings)
      == [0x02, 0x50, 0x49, 0x52, 0x49, 0x20, 0x31, 0x31, 0x33, 0x30, 0x1C, 0x30, 0x1C, 0x03, 0x31, 0x32]
    ensures CommandFrame(ToolCommands(size).upload) == RequestFrame("17", Some(DecimalString(size)), None)
  {
    StatusRequestVector();
    SettingsRequestVector();
  }

  /**
   * The size announced in the upload request survives the trip through
   * `Encoding.ASCII`: the parameter bytes of the frame read back as the
   * decimal digits of the blob's size.
   */
  lemma UploadSizeReadable(size: nat)
    ensures var r := CommandFrame(UploadCommand(size));
      && |r| >= 12
      && var digits := AsciiString(r[8..|r| - 4]);
      && (forall i :: 0 <= i < |digits| ==> IsDecimalDigit(digits[i]))
      && DecimalValue(digits) == size
  {
    var ds := DecimalString(size);
    var r := CommandFrame(UploadCommand(size));
    OneParamBytes("17", ds);
    DecimalStringIsAscii(size);
    AsciiRoundTrip(ds);
    assert AsciiString(r[8..|r| - 4]) == ds;
    DecimalRoundTrip(size);
  }

  /** A request with one parameter carries that parameter's ASCII bytes between the code and the final FS. */
  lemma OneParamBytes(code: string, param: string)
    requires |code| >= 2
    ensures var r := RequestFrame(code, Some(param), None);
      |r| == 12 + |param| && r[8..|r| - 4] == AsciiBytes(param)
  {
    var r := RequestFrame(code, Some(param), None);
    OneParamRegion(code, param);
    var q := r[8..|r| - 3];
    assert r[8..|r| - 4] == q[..|q| - 1];
  }

  lemma OneParamRegion(code: string, param: string)
    requires |code| >= 2
    ensures var r := RequestFrame(code, Some(param), None);
      |r| >= 11 && r[8..|r| - 3] == AsciiBytes(param) + [FS]
  {
    RequestLayout(code, Some(param), None);
    assert PresentParams(Some(param), None) == [AsciiBytes(param)];
    assert FieldsRegion([AsciiBytes(param)]) == AsciiBytes(param) + [FS] + FieldsRegion([]);
  }

  /**
   * A printer that acknowledges every step and answers each query with the
   * sample reply ("00", fields "0", "0", "0") lets the run complete: bit 2
   * of 0 is clear, so the shift is closed, and "0" has no leading space.
   */
  lemma SampleReplyRun(cp: bv8 -> char)
    requires cp(0x30) == '0' && SeparatorDistinct(cp)
    ensures Expected(Printer([ACK], TestPacket, TestPacket, ACK, TestPacket), cp) == (12, Completed(false, false))
  {
    var p := Printer([ACK], TestPacket, TestPacket, ACK, TestPacket);
    TestPacketDecodes(cp);
    var fields := DecodePacket(TestPacket, cp).parameters.value;
    assert fields[1] == "0" && fields[0] == "0";
    assert DecimalString(0) == "0";
    ShiftOpenOfDecimal(0);
    CompletionMeaning(p, cp);
  }
}
