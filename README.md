# Sportiduino outbound frame builder

A Dafny model of the outbound side of the Python driver for the Sportiduino
master station (`sportiduino.py`): the 8-bit additive checksum
`Sportiduino._checsum`, the frame that `Sportiduino._send_command` assembles
from a command code and an optional parameter block, the two parameterless
commands `beep_ok` and `beep_error`, and the class constants (start sequence,
`OFFSET`, `MAX_DATA_LEN`, command, response and error codes).

A frame is `FE FE FE FE | code | len(params) | params | checksum`, where the
checksum is the sum of the bytes of `code | len | params` modulo 256. A
parameter block longer than 25 bytes raises `SportiduinoException`
("Command too long"), modelled as `Failure(CommandTooLong(n))`.

Files:
- `wrappers.dfy` — `Option` (an argument that defaults to `None`) and `Result`
  (a value or the exception raised).
- `checksum.dfy` — module `Checksums`: bytes as integers 0..255, the byte sum,
  the checksum, the loop of `_checsum` as a method, and the algebra of the
  checksum (concatenation, single-byte change detection).
- `sportiduino.dfy` — module `Sportiduino`: constants, the positional frame
  description `IsFrameFor`, the builder `BuildFrame` (pure) and its
  step-by-step form `SendCommand`, the beep frames and the frame lemmas.

Modelling decisions:
- `int2byte`/`byte2int` are the identity between a byte and an integer in
  0..255 (the subset type `byte`), as they are under Python 2's `six`.
- The accumulator of `_checsum` is an unbounded non-negative Python integer,
  so `sum &= 0xff` is modelled as `sum % 256`.
- The command code is a one-byte `bytes` constant in every use, so it is a
  `byte` here.
- `_send_command` returns whatever `_read_response()` returns (nothing, it is
  a placeholder) and its port write is commented out; the model returns the
  frame the command would write.
- The code's start sequence is four `0xFE` bytes (sportiduino.py:12). The fake
  station in `test/fakemasterstation.py:17-19` reads four bytes and expects a
  single `0xFE` before `46 00 46`, so it would not recognise the driver's
  frame. The model follows `sportiduino.py`; the fake station only supplies
  checksum test vectors (`46 00 -> 46`, `66 01 66 -> CD`).

## Model

| member | source | states |
|---|---|---|
| `Checksums.Sum` | sportiduino.py:108-110 | the accumulated byte sum never exceeds 255 times the number of bytes |
| `Checksums.Checksum` | sportiduino.py:106-112 | the checksum is a single byte; the checksum of the empty sequence is 0 and of one byte is that byte |
| `Checksums.ComputeChecksum` | sportiduino.py:106-112 | the accumulating loop followed by the mask yields exactly the byte sum modulo 256 |
| `Checksums.SumAppend` | sportiduino.py:109-110 | one loop step adds the next byte's value to the accumulator |
| `Checksums.SumConcat` | sportiduino.py:108-111 | the sum over `a ++ b` is the sum over `a` plus the sum over `b` |
| `Checksums.ChecksumConcat` | sportiduino.py:106-112 | checksum(`a ++ b`) == (checksum(`a`) + checksum(`b`)) mod 256 |
| `Checksums.SumUpdate` | sportiduino.py:108-111 | replacing one byte changes the sum by exactly the difference of the old and new value |
| `Checksums.ChecksumDetectsByteChange` | sportiduino.py:106-112 | changing any single byte to a different value always changes the checksum |
| `Sportiduino.Params` | sportiduino.py:80-81 | omitted parameters are the empty block; given parameters are used unchanged |
| `Sportiduino.BuildFrame` | sportiduino.py:79-88 | fails with `CommandTooLong(len)` exactly when the block exceeds 25 bytes; otherwise the frame has start sequence, code, length byte, unchanged parameters and the checksum of code, length and parameters as last byte, and is `4+1+1+len+1 <= 32` bytes long |
| `Sportiduino.FrameLayoutExact` | sportiduino.py:85-88 | a byte sequence satisfies the positional frame layout for a code and block if and only if it is the builder's frame for them |
| `Sportiduino.BuildFrameInjective` | sportiduino.py:85-88 | equal successful frames come from the same command code and the same parameter block |
| `Sportiduino.OmittedParameters` | sportiduino.py:79-88 | an omitted block gives the same frame as an empty one, `FE FE FE FE code 00 code` |
| `Sportiduino.ChecksumExcludesStart` | sportiduino.py:85-88 | the appended checksum covers only code, length and parameters: the checksum over the whole frame before it is that byte plus 0xF8 modulo 256, never the byte itself |
| `Sportiduino.ChecksumVectors` | test/fakemasterstation.py:18-19 | checksum of `46 00` is `46`; checksum of `66 01 66` is `CD` |
| `Sportiduino.SendCommand` | sportiduino.py:79-88 | the step-by-step assembly using the checksum loop produces exactly the builder's frame or error |
| `Sportiduino.BeepOk` | sportiduino.py:47-48 | `beep_ok` builds `FE FE FE FE 59 00 59` |
| `Sportiduino.BeepError` | sportiduino.py:51-52 | `beep_error` builds `FE FE FE FE 58 00 58` |

## Left out

- Opening, flushing, closing and reopening the serial port (`disconnect`,
  `reconnect`, `_connect_master_station`, sportiduino.py:55-76) and the
  constructor's `_serial`/`_debug` fields: I/O through the pyserial library.
- Debug printing of the frame (sportiduino.py:90-95) and the commented-out
  port write (sportiduino.py:96): output only.
- `_read_response` (sportiduino.py:101-103) is an empty placeholder; the
  driver has no frame decoder, fragment reassembly, response classification,
  card or log parsing, or parameter encoders, so none is modelled. `OFFSET`
  is declared as a constant only.
- The Python 3 behaviour of `six.byte2int`: there it is
  `operator.itemgetter(0)`, and iterating over `bytes` yields integers, so
  `byte2int(c)` (sportiduino.py:110) raises `TypeError` on the first byte;
  every `_send_command`, `beep_ok` and `beep_error` would then raise before a
  frame exists (the debug print at sportiduino.py:91 likewise). The model
  follows the Python 2 semantics, where the driver builds the frame.
- `test/fakemasterstation.py` (pseudo-terminal fake device) and `test/test.py`
  (an interactive polling loop calling methods the driver does not define):
  I/O and callers, not driver logic.
