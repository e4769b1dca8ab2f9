/** The outbound side of the `Sportiduino` master-station driver: its
    protocol constants, the frame that `_send_command` builds, and the two
    parameterless beep commands. */
module Sportiduino {
  import opened Wrappers
  import opened Checksums

  /** Every outbound frame starts with four 0xFE bytes. */
  const START_SEQ: seq<byte> := [0xFE, 0xFE, 0xFE, 0xFE]

  /** Length-byte offset of continuation fragments (declared, not used by
      the outbound builder). */
  const OFFSET: nat := 0x1E

  /** The largest parameter block a frame may carry. */
  const MAX_DATA_LEN: nat := 25

  // Command codes
  const CMD_SET_TIME: byte        := 0x41
  const CMD_SET_ID: byte          := 0x42
  const CMD_SET_PASSWD: byte      := 0x43
  const CMD_INIT_CARD: byte       := 0x44
  const CMD_SET_PAGES67: byte     := 0x45
  const CMD_SET_LOGREADER: byte   := 0x47
  const CMD_GET_LOGREADER: byte   := 0x48
  const CMD_READ_CARD: byte       := 0x4B
  const CMD_READ_RAW: byte        := 0x4C
  const CMD_WRITE_SLEEPCARD: byte := 0x4E
  const CMD_BEEP_ERROR: byte      := 0x58
  const CMD_BEEP_OK: byte         := 0x59

  // Response codes
  const RESP_LOG: byte       := 0x61
  const RESP_CARD_DATA: byte := 0x63
  const RESP_CARD_RAW: byte  := 0x65
  const RESP_ERROR: byte     := 0x78
  const RESP_OK: byte        := 0x79

  // Error payload values
  const ERR_COM: byte        := 0x01
  const ERR_WRITE_CARD: byte := 0x02
  const ERR_READ_CARD: byte  := 0x03

  /** `SportiduinoException` as raised by the builder. */
  datatype SportiduinoError = CommandTooLong(dataLen: nat)

  /** The parameter block actually sent: an omitted block is empty. */
  function Params(parameters: Option<seq<byte>>): (p: seq<byte>)
    ensures parameters.None? ==> p == []
    ensures parameters.Some? ==> p == parameters.value
  {
    parameters.GetOr([])
  }

  /** Positional description of a well-formed frame for `code` carrying
      `params`: start sequence, code, length byte, the parameters unchanged,
      and a last byte that is the checksum of everything after the start
      sequence. */
  predicate IsFrameFor(f: seq<byte>, code: byte, params: seq<byte>)
  {
    && |params| <= MAX_DATA_LEN
    && |f| == |START_SEQ| + 3 + |params|
    && f[..4] == START_SEQ
    && f[4] == code
    && f[5] == |params|
    && f[6..6 + |params|] == params
    && f[|f| - 1] == Checksum(f[4..|f| - 1])
  }

  /** The frame `_send_command(code, parameters)` builds, or the exception
      it raises when the parameters are too long. */
  function BuildFrame(code: byte, parameters: Option<seq<byte>>): (r: Result<seq<byte>, SportiduinoError>)
    ensures r.Failure? <==> |Params(parameters)| > MAX_DATA_LEN
    ensures r.Failure? ==> r.error == CommandTooLong(|Params(parameters)|)
    ensures r.Success? ==> IsFrameFor(r.value, code, Params(parameters))
    ensures r.Success? ==> |r.value| == 4 + 1 + 1 + |Params(parameters)| + 1 <= 32
  {
    var params := Params(parameters);
    var dataLen := |params|;
    if dataLen > MAX_DATA_LEN then
      Failure(CommandTooLong(dataLen))
    else
      var cmdString := [code, dataLen] + params;
      var f := START_SEQ + cmdString + [Checksum(cmdString)];
      assert f[4..|f| - 1] == cmdString;
      assert f[6..6 + dataLen] == params;
      Success(f)
  }

  /** A frame is well formed for `code` and `params` exactly when it is the
      frame the builder produces for them. */
  lemma FrameLayoutExact(f: seq<byte>, code: byte, params: seq<byte>)
    ensures IsFrameFor(f, code, params) <==> BuildFrame(code, Some(params)) == Success(f)
  {
    if IsFrameFor(f, code, params) {
      var n := |params|;
      assert f[4..|f| - 1] == [code, n] + params;
      assert f == f[..4] + f[4..|f| - 1] + [f[|f| - 1]];
    }
  }

  /** Distinct commands or parameter blocks never share a frame: the code
      and the parameters can be read back from it. */
  lemma BuildFrameInjective(c1: byte, p1: seq<byte>, c2: byte, p2: seq<byte>)
    requires BuildFrame(c1, Some(p1)).Success?
    requires BuildFrame(c1, Some(p1)) == BuildFrame(c2, Some(p2))
    ensures c1 == c2 && p1 == p2
  {
  }

  /** An omitted parameter block is the empty one: the frame is seven bytes
      with length byte 0, and its checksum is the command code itself. */
  lemma OmittedParameters(code: byte)
    ensures BuildFrame(code, None) == BuildFrame(code, Some([]))
    ensures BuildFrame(code, None) == Success(START_SEQ + [code, 0, code])
  {
    SumAppend([], code);
    SumAppend([code], 0);
    assert [code] + [0] == [code, 0] == [code, 0] + [];
    assert START_SEQ + [code, 0] + [code] == START_SEQ + [code, 0, code];
  }

  /** The checksum never covers the start sequence: checksumming the whole
      frame before its last byte would give a different value. */
  lemma ChecksumExcludesStart(code: byte, parameters: Option<seq<byte>>)
    requires BuildFrame(code, parameters).Success?
    ensures Checksum(START_SEQ) == 0xF8
    ensures var f := BuildFrame(code, parameters).value;
      Checksum(f[..|f| - 1]) == (Checksum(START_SEQ) + f[|f| - 1]) % 0x100 != f[|f| - 1]
  {
    var f := BuildFrame(code, parameters).value;
    var body := f[4..|f| - 1];
    assert f[..|f| - 1] == START_SEQ + body;
    ChecksumConcat(START_SEQ, body);
    assert Checksum(START_SEQ) == 0xF8 by {
      SumAppend([], 0xFE);
      SumAppend([0xFE], 0xFE);
      SumAppend([0xFE, 0xFE], 0xFE);
      SumAppend([0xFE, 0xFE, 0xFE], 0xFE);
      assert [0xFE, 0xFE, 0xFE] + [0xFE] == START_SEQ;
    }
  }

  /** Checksum test vectors from the fake station: its expected request
      (code 0x46, no parameters) and its reply `66 01 66`. */
  lemma ChecksumVectors()
    ensures Checksum([0x46, 0x00]) == 0x46
    ensures Checksum([0x66, 0x01, 0x66]) == 0xCD
  {
    assert [0x46, 0x00][..1] == [0x46];
    assert [0x66, 0x01, 0x66][..2] == [0x66, 0x01];
    assert [0x66, 0x01, 0x66][..2][..1] == [0x66];
  }

  /** `_send_command` as a sequence of steps: default the parameters, reject
      an over-long block, then append the checksum computed by the loop of
      `_checsum`. Returns the frame that would be written to the port. */
  method SendCommand(code: byte, parameters: Option<seq<byte>>) returns (r: Result<seq<byte>, SportiduinoError>)
    ensures r == BuildFrame(code, parameters)
  {
    var params: seq<byte> := [];
    if parameters.Some? {
      params := parameters.value;
    }
    var dataLen := |params|;
    if dataLen > MAX_DATA_LEN {
      return Failure(CommandTooLong(dataLen));
    }
    var cmdString := [code, dataLen] + params;
    var cs := ComputeChecksum(cmdString);
    r := Success(START_SEQ + cmdString + [cs]);
  }

  /** `beep_ok`: the frame of the parameterless BEEP_OK command. */
  function BeepOk(): (r: Result<seq<byte>, SportiduinoError>)
    ensures r == Success([0xFE, 0xFE, 0xFE, 0xFE, 0x59, 0x00, 0x59])
  {
    OmittedParameters(CMD_BEEP_OK);
    assert START_SEQ + [CMD_BEEP_OK, 0, CMD_BEEP_OK] == [0xFE, 0xFE, 0xFE, 0xFE, 0x59, 0x00, 0x59];
    BuildFrame(CMD_BEEP_OK, None)
  }

  /** `beep_error`: the frame of the parameterless BEEP_ERROR command. */
  function BeepError(): (r: Result<seq<byte>, SportiduinoError>)
    ensures r == Success([0xFE, 0xFE, 0xFE, 0xFE, 0x58, 0x00, 0x58])
  {
    OmittedParameters(CMD_BEEP_ERROR);
    assert START_SEQ + [CMD_BEEP_ERROR, 0, CMD_BEEP_ERROR] == [0xFE, 0xFE, 0xFE, 0xFE, 0x58, 0x00, 0x58];
    BuildFrame(CMD_BEEP_ERROR, None)
  }
}
