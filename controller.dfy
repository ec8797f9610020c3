/** The host's side of the Omega CN740 link: `PIDcommander`, which writes one register
    and checks the echo, and `PIDDataReadout`, which reads the process value (PV) and the
    set value (SV). Register values are in tenths of a degree. */
module Controller {
  import opened Common
  import opened FrameCodec
  import opened SerialLine

  /** Register 0x4701 holds the set value. */
  const SETPOINT_REGISTER: Word := 0x4701
  /** Register 0x4719 starts (1) or stops (0) the control loop. */
  const RUN_REGISTER: Word := 0x4719
  const RUN: Word := 1
  const STOP: Word := 0

  /** The text `PIDcommander` returns: an error report unless the echo is the frame sent. */
  function CommanderReply(sent: string, received: string): (reply: string)
    requires StartsWith(sent, ":")
    ensures StartsWith(reply, "Error: Response mismatch") <==> sent != received
    ensures sent == received ==> StartsWith(reply, sent)
  {
    if sent != received then
      var m := "Error: Response mismatch: sent=" + sent + " and received=" + received;
      assert m[..24] == "Error: Response mismatch";
      m
    else
      var m := received + " was sent. confirmed.";
      assert m[..|sent|] == sent;
      assert m[0] == ':';
      m
  }

  /** Two different writes never share a frame, so an exact echo names the write. */
  lemma WriteFrameInjective(r1: Word, v1: Word, r2: Word, v2: Word)
    requires WriteFrame(r1, v1) == WriteFrame(r2, v2)
    ensures r1 == r2 && v1 == v2
  {
    WriteFrameDecodes(r1, v1);
    WriteFrameDecodes(r2, v2);
  }

  lemma WriteFrameStartsWithColon(register: Word, value: Word)
    ensures StartsWith(WriteFrame(register, value), ":")
  {
    WriteFrameDecodes(register, value);
  }

  /** `PIDcommander(ser, register, value)`: one frame out, one line back, compared as is. */
  method WriteRegister(port: SerialPort, register: Word, value: Word) returns (reply: string)
    modifies port
    ensures port.written == old(port.written) + [WriteFrame(register, value)]
    ensures port.pending == Drop(old(port.pending), 1)
    ensures StartsWith(WriteFrame(register, value), ":")
    ensures reply == CommanderReply(WriteFrame(register, value), LineAt(old(port.pending), 0))
  {
    var body := WriteBody(register, value);
    var lrc := CalcLrc(body);
    WriteBodyHasLrc(register, value);
    var command := ":" + body + lrc.value + "\r\n";
    port.Write(command);
    var response := port.ReadLine();
    WriteFrameStartsWithColon(register, value);
    reply := CommanderReply(command, response);
  }

  /** `PIDDataReadout(ser)`: the fixed read request out, one line back, decoded. */
  method ReadTemperature(port: SerialPort) returns (r: Result<Readout>)
    modifies port
    ensures port.written == old(port.written) + [READ_REQUEST]
    ensures port.pending == Drop(old(port.pending), 1)
    ensures r == DecodeReply(Strip(LineAt(old(port.pending), 0)))
  {
    port.Write(READ_REQUEST);
    var line := port.ReadLine();
    var raw := Strip(line);
    if !StartsWith(raw, ":") {
      return Ok(NoFrame);
    }
    var body := raw[1..];
    var pvDigits := Slice(body, 6, 10);
    var svDigits := Slice(body, 10, 14);
    var received := Slice(body, 14, 16);
    var computed := CalcLrc(DropLast2(body));
    if computed.Err? {
      return Err(computed.fault);
    }
    if computed.value != received {
      return Ok(LrcMismatch(Diagnostic(raw, body, computed.value, received)));
    }
    DataFieldsAreHex(body);
    r := Ok(Reading(HexNumber(pvDigits).value, HexNumber(svDigits).value));
  }

  /** The two writes that start a temperature run: the set value, then RUN. */
  function StartFrames(setpoint: Word): (frames: seq<string>)
    ensures |frames| == 2
  {
    [WriteFrame(SETPOINT_REGISTER, setpoint), WriteFrame(RUN_REGISTER, RUN)]
  }

  /** The two writes that end one: the set value to fall back to, then STOP. */
  function StopFrames(fallback: Word): (frames: seq<string>)
    ensures |frames| == 2
  {
    [WriteFrame(SETPOINT_REGISTER, fallback), WriteFrame(RUN_REGISTER, STOP)]
  }

  /** Starting and stopping are told apart by the controller: no start frame is a stop frame. */
  lemma StartIsNotStop(setpoint: Word, fallback: Word)
    ensures StartFrames(setpoint)[1] != StopFrames(fallback)[1]
    ensures forall k, j :: 0 <= k < 2 && 0 <= j < 2 && StartFrames(setpoint)[k] == StopFrames(fallback)[j]
              ==> k == 0 && j == 0 && setpoint == fallback
  {
    forall k, j | 0 <= k < 2 && 0 <= j < 2 && StartFrames(setpoint)[k] == StopFrames(fallback)[j]
      ensures k == 0 && j == 0 && setpoint == fallback
    {
      var rk := if k == 0 then SETPOINT_REGISTER else RUN_REGISTER;
      var vk := if k == 0 then setpoint else RUN;
      var rj := if j == 0 then SETPOINT_REGISTER else RUN_REGISTER;
      var vj := if j == 0 then fallback else STOP;
      WriteFrameInjective(rk, vk, rj, vj);
    }
    if StartFrames(setpoint)[1] == StopFrames(fallback)[1] {
      WriteFrameInjective(RUN_REGISTER, RUN, RUN_REGISTER, STOP);
    }
  }

  /** Starting a run: set value, then RUN; each write reads one echo line. */
  method StartRun(port: SerialPort, setpoint: Word)
    modifies port
    ensures port.written == old(port.written) + StartFrames(setpoint)
    ensures port.pending == Drop(old(port.pending), 2)
  {
    var _ := WriteRegister(port, SETPOINT_REGISTER, setpoint);
    var _ := WriteRegister(port, RUN_REGISTER, RUN);
    DropDrop(old(port.pending), 1, 1);
  }

  /** Ending a run: fall-back set value, then STOP. */
  method StopRun(port: SerialPort, fallback: Word)
    modifies port
    ensures port.written == old(port.written) + StopFrames(fallback)
    ensures port.pending == Drop(old(port.pending), 2)
  {
    var _ := WriteRegister(port, SETPOINT_REGISTER, fallback);
    var _ := WriteRegister(port, RUN_REGISTER, STOP);
    DropDrop(old(port.pending), 1, 1);
  }
}
