# Langji air-conditioner controller: Modbus RTU core in Dafny

`LangjiACController` talks to a Langji cabinet air conditioner over
Modbus RTU frames carried on a TCP socket. This project models its
protocol core:

- the CRC-16/Modbus checksum (`calculateCRC`);
- request framing and response validation (`sendRequest`): no response,
  CRC check, and the exception bit with its six-entry exception table;
- the four reads (`readStatus`, `readAlarms`, `readSensors`,
  `readConfiguration`), including bit unpacking (`extracted`), two's
  complement (`toSignedInt`) and the per-address scaling tables;
- the three writes (`writeSingleCoil`, `writeSingleRegister`,
  `writeMultipleRegisters`) and their echo checks;
- the helpers `convertIntToHex` and `convertBoolToHex`.

Modules follow the structure of the class:

| file | module | models |
|---|---|---|
| results.dfy | `Results` | the success-or-exception outcome of a call |
| bytes.dfy | `Bytes` | binary strings, `pack('n')`, `unpack('n')`, `substr`, `chr` |
| crc16.dfy | `Crc16` | `calculateCRC` and the algebra of the CRC register |
| numerals.dfy | `Numerals` | `dechex`, decimal printing, `str_pad` |
| frames.dfy | `Frames` | framing, validation, exception codes and messages |
| registers.dfy | `Registers` | `toSignedInt` and the scaling tables |
| decoders.dfy | `Decoders` | the bit and register decoding loops |
| converters.dfy | `Converters` | `convertIntToHex`, `convertBoolToHex` |
| client.dfy | `Client` | the public read and write operations |

The socket is a parameter. A `Link` is either `Down(errno, reason)`, the
`fsockopen` failure, or `Up(respond)`, a device that answers each request
frame with a byte string. The single `fread($socket, 256)` is modelled by
keeping the first 256 bytes of that answer. Each thrown exception is a
`Failure` carrying an `Error`. PHP floats are modelled by the exact
rationals they approximate.

The code and its documented frame layout disagree in one place. The code
has no minimum length check. For a response of 1 or 2 bytes it reads
offsets outside the string. A 3-byte response is read as a unit id
followed by a CRC, so its "function code" is the CRC's low byte. The model
follows the frame layout instead: it rejects every response shorter than
4 bytes with an explicit `FrameTooShort` error. The checks as written are
modelled too (`Frames.ValidateAsWritten`). From 4 bytes on they agree with
the model. Below 4 bytes they differ, and "## Findings" gives one such
input of each length from 1 to 3.

## Model

| member | source | states |
|---|---|---|
| Crc16.CalculateCrc | LangjiACController.php:94-112 | the nested loop computes the reflected CRC-16 (initial value 0xFFFF, polynomial 0xA001) of the whole input, byte by byte |
| Crc16.ShiftOutByte | LangjiACController.php:101-108 | the inner loop performs exactly eight conditional shift-and-xor steps |
| Crc16.CrcOfEmpty | LangjiACController.php:96 | the CRC of the empty string is the initial value 0xFFFF |
| Crc16.CrcFromAppend | LangjiACController.php:98-110 | the CRC is streaming: the CRC of a + b is b processed from the register state left by a |
| Crc16.GoldenVector | LangjiACController.php:94-112 | the CRC of 01 03 00 00 00 0A is 0xCDC5, the standard Modbus test vector |
| Crc16.UpdateInjective | LangjiACController.php:99-107 | one byte step is injective in the register for a fixed byte, and in the byte for a fixed register |
| Crc16.ResidueIff | LangjiACController.php:48 | appending the CRC low byte then high byte gives CRC 0, and no other two-byte trailer does |
| Crc16.CrcDetectsByteError | LangjiACController.php:94-112 | changing any single byte of a string changes its CRC |
| Frames.BuildRequest | LangjiACController.php:44-48 | a request is unit id, function code and data followed by two bytes, and the whole frame has CRC residue 0 |
| Frames.BuiltFrameTrailer | LangjiACController.php:44-48 | removing the last two bytes of a request gives back the message, and those bytes read high-then-low are its CRC |
| Frames.ValidFrameIsBuilt | LangjiACController.php:64-68 | every frame that passes the CRC check is the built request of its own first two bytes and data, so the trailer is determined by the rest |
| Frames.ValidateResponse | LangjiACController.php:59-85 | an empty response gives the no-response error; one of 1 to 3 bytes gives the too-short error; a bad CRC gives the CRC error; a good CRC with the exception bit set gives the Modbus error for byte 2; otherwise the response is returned unchanged; each outcome holds exactly in its case |
| Frames.ValidateAsWritten | LangjiACController.php:59-85 | the checks as written, with PHP's string offsets and `empty()`: exactly "" and "0" give the no-response error, and a success returns the response unchanged |
| Frames.AsWrittenAgrees | LangjiACController.php:59-85 | on every response of at least 4 bytes, the checks as written, with PHP's offset and `empty` semantics, give the same outcome as the model's checks |
| Frames.OneByteResponseAccepted | LangjiACController.php:59-72 | the one-byte response FF passes the checks as written, but the model rejects it as too short |
| Frames.ThreeByteResponseAccepted | LangjiACController.php:59-85 | the three-byte response 01 7E 80, whose last two bytes are the CRC of 01, passes the checks as written, but the model rejects it as too short |
| Frames.TwoByteResponseException | LangjiACController.php:64-82 | the two-byte response FF FF passes the CRC check as written and is reported as unknown exception 0; the model rejects it as too short |
| Frames.ZeroCharacterIsNoResponse | LangjiACController.php:59-60 | the one-byte response "0" is reported as no response as written; the model reports it as too short |
| Frames.BuiltFrameValidates | LangjiACController.php:44-85 | a request frame taken as a response passes validation unless its function code carries the exception bit |
| Frames.CorruptedFrameRejected | LangjiACController.php:64-68 | corrupting any one byte of a valid frame makes validation fail with the CRC error |
| Frames.DecodeException | LangjiACController.php:72-82 | the table maps 0x01, 0x02, 0x03, 0x04, 0x06 and 0x0C to their named exceptions and every other code to an unknown exception carrying it; the code is always recoverable |
| Frames.DecodeExceptionRoundTrip | LangjiACController.php:74-81 | decoding the code of any valid exception gives that exception back |
| Frames.ExceptionMessage | LangjiACController.php:82 | every exception message is the fixed "Ошибка Modbus: " prefix followed by the exception's text |
| Frames.ExceptionTextShape | LangjiACController.php:74-82 | each of the six table texts has a first character and length that no other text shares, and every unlisted-code text starts with "Н" |
| Frames.UnknownTextCode | LangjiACController.php:82 | the text of an unlisted code is "Неизвестная ошибка (", then a decimal digit string whose value is the code, then ")" |
| Frames.ExceptionMessageInjective | LangjiACController.php:74-82 | two valid exceptions with the same message are the same exception, so each code yields its own message |
| Frames.SlaveFailureMessage | LangjiACController.php:78-82 | code 0x04 yields the message "Ошибка Modbus: Slave device failure" |
| Frames.UnknownExceptionMessage | LangjiACController.php:82 | an unlisted code such as 153 yields "Ошибка Modbus: Неизвестная ошибка (153)" with the code in decimal |
| Registers.ToSignedInt | LangjiACController.php:309-312 | the result lies in -32768..32767, is congruent to the input modulo 65536, and equals the input below 32768 |
| Registers.ToSignedIntUnique | LangjiACController.php:309-312 | these three properties determine the result uniquely |
| Registers.Scale | LangjiACController.php:162-168 | a scaled word is a float exactly for the dividing rules, and that float times the divisor is the word (signed for the tenths-of-degree rule); the baud-rate rule gives the listed rate for words 0 to 3 and the word itself otherwise; the unscaled rule gives the word itself |
| Registers.ScaleRoundTrip | LangjiACController.php:194-218 | the raw word is recoverable from every decoded value, except a baud-rate word that is itself one of the listed rates |
| Registers.BaudRateAmbiguous | LangjiACController.php:208-210 | the baud-rate register decodes both index 1 and the raw word 9600 to 9600 |
| Registers.SensorScalingExamples | LangjiACController.php:162-168 | the sensor table reads 0xFFF6 at address 0 as -1.0 and 2500 at address 2 as 25.0 |
| Registers.ConfigScalingExamples | LangjiACController.php:208-210 | at configuration address 0x0E, word 2 reads as 19200 and word 5, past the list, reads as 5 |
| Decoders.ExtractBits | LangjiACController.php:322-335 | the result has exactly the keys start .. start + quantity - 1, and key start + i holds bit i % 8 of data byte i / 8, always 0 or 1 |
| Decoders.BitsExample | LangjiACController.php:328-332 | the data byte 0x05 read from address 0 unpacks to 1, 0, 1, 0, 0, 0, 0, 0 |
| Decoders.DecodeRegisters | LangjiACController.php:153-171 | the result has exactly the keys start .. start + quantity - 1, and key start + i holds big-endian word i of the data area, scaled by the rule for its address |
| Decoders.DecodeWrittenWords | LangjiACController.php:280-288 | decoding the register bytes that a multiple-register write sends gives back each written word, scaled |
| Bytes.WordsRoundTrip | LangjiACController.php:286-288 | word i of a packed word list reads back as the i-th word |
| Bytes.Substr | LangjiACController.php:154 | the slice is empty at or past the end, and otherwise holds the requested number of bytes or every remaining byte, whichever is fewer, each equal to the byte at the same offset |
| Client.SendRequest | LangjiACController.php:34-87 | a closed link gives the connection error with its errno and reason; otherwise the call succeeds exactly when the first 256 bytes of the reply are a CRC-valid frame of at least 4 bytes without the exception bit, and it then returns those bytes; every outcome is the validation outcome of those bytes, so a too-short, CRC-failing or exception reply gives the matching error, and the write-verification error never arises here |
| Client.LoopbackAccepted | LangjiACController.php:34-87 | a device that echoes every frame makes any request without the exception bit succeed, returning the request itself |
| Client.ReadPayload | LangjiACController.php:122 | the read payload is 4 bytes whose two big-endian words are the start address and quantity, each cut to 16 bits |
| Client.ReadRequestExample | LangjiACController.php:148-151 | reading ten holding registers from address 0 of unit 1 sends 01 03 00 00 00 0A C5 CD |
| Client.ReadBits | LangjiACController.php:120-140 | a failed exchange is passed on unchanged; a successful one yields the decoded bit map of its data area |
| Client.ReadStatus | LangjiACController.php:120-126 | function code 0x01; a failed exchange is passed on, a successful one yields the bit map of its data area |
| Client.ReadAlarms | LangjiACController.php:134-140 | function code 0x02; a failed exchange is passed on, a successful one yields the bit map of its data area |
| Client.ReadRegisters | LangjiACController.php:148-221 | function code 0x03; a failed exchange is passed on, a successful one yields the scaled register map of its data area |
| Client.ReadSensors | LangjiACController.php:148-171 | a failed exchange is passed on; a successful one yields the register map scaled by the sensor table |
| Client.ReadConfiguration | LangjiACController.php:180-221 | a failed exchange is passed on; a successful one yields the register map scaled by the configuration table |
| Client.EchoIsRequest | LangjiACController.php:238-239 | the expected echo, whose high CRC byte is not masked, is exactly the request frame that was sent |
| Client.WriteEchoed | LangjiACController.php:232-246 | a write succeeds, returning true, exactly when the link is up and the reply is the request frame itself; an exchange failure is passed on; any other valid reply gives the verification error |
| Client.WriteSingleCoil | LangjiACController.php:232-246 | a coil write sends the address and 0xFF00 or 0x0000; it succeeds, always with true, exactly when the device echoes that frame; an exchange failure is passed on, and any other validated reply gives the verification error for 0x05 |
| Client.WriteSingleRegister | LangjiACController.php:256-270 | a register write sends the address and the value, each cut to 16 bits; it succeeds, always with true, exactly when the device echoes that frame; an exchange failure is passed on, and any other validated reply gives the verification error for 0x06 |
| Client.MultipleWriteData | LangjiACController.php:282-288 | the payload is the start address and quantity, then the byte count modulo 256, then the values as big-endian words |
| Client.WriteMultipleRegisters | LangjiACController.php:280-301 | the write succeeds exactly when the reply is the frame of unit id, 0x10, start address and quantity with its CRC, and then returns true; an exchange failure is passed on, and any other validated reply gives the verification error for 0x10 |
| Client.EchoMatchIff | LangjiACController.php:293-297 | for a CRC-valid reply, comparing with the expected echo without trailers is the same as being that exact frame |
| Client.SwitchReadsBack | index.php:12-14 | writing `convertBoolToHex(on)` to register 0x23 and decoding it with the sensor table reads 1.0 for on and 0.0 for off |
| Converters.ConvertIntToHex | LangjiACController.php:337-342 | the result is "0x" followed by lower-case hex digits that denote the input; it is six characters for every 16-bit value, and longer only without leading zeros |
| Converters.ConvertIntToHexInjective | LangjiACController.php:337-342 | different numbers print differently |
| Converters.ConvertIntToHexExamples | LangjiACController.php:337-342 | 255 prints as "0x00ff" and 0x12345 as "0x12345" |
| Converters.ConvertBoolToHex | LangjiACController.php:344-347 | true maps to 0xFF00 and false to 0x0000, and only those |
| Numerals.DigitsRoundTrip | LangjiACController.php:339 | the digits `dechex` prints read back as the number |
| Numerals.PadLeft | LangjiACController.php:341 | padding keeps the string as a suffix, fills the front with the pad character, and reaches the requested width |

## Findings

| source | as written | input that shows it | evidently intended | confidence | as-written member | corrected member |
|---|---|---|---|---|---|---|
| LangjiACController.php:59-72 | no minimum length before the trailer and bytes 1 and 2 are read; offset -1 reads the last byte and a missing offset reads as 0 | the 1-byte response FF is returned as a valid response (received and computed CRC are both 0xFFFF) | responses shorter than unit id, function code and two CRC bytes are rejected | not executed; high | Frames.OneByteResponseAccepted | Frames.ValidateResponse |
| LangjiACController.php:59-85 | the same missing length check on a 3-byte reply: the last two bytes are taken as the CRC of byte 0 alone, and byte 1, the CRC's low byte, as the function code | the 3-byte response 01 7E 80 is returned as a valid response, and the reads then take 0x80 as the byte count | the response is rejected as too short | not executed; high | Frames.ThreeByteResponseAccepted | Frames.ValidateResponse |
| LangjiACController.php:64-82 | the same missing length check on the exception path | the 2-byte response FF FF is reported as "Неизвестная ошибка (0)" | the response is rejected as too short | not executed; high | Frames.TwoByteResponseException | Frames.ValidateResponse |
| LangjiACController.php:59-60 | `empty($response)` is also true for the string "0" | the 1-byte response 30 is reported as "No response from device" | only a missing or zero-length reply counts as no response | not executed; medium | Frames.ZeroCharacterIsNoResponse | Frames.ValidateResponse |

## Left out

- Socket I/O is a parameter of each call. This covers opening, writing, the
  5-second timeout and closing the socket. A reply that arrives in several
  TCP segments is not modelled: the first `fread` is taken to see the
  whole reply.
- `error_log` tracing of requests and responses is left out, because it
  is output only.
- `echoFullResponse` and its label table are left out, because they only
  print.
- Exception messages are modelled as strings of Unicode characters, not
  as the UTF-8 byte strings PHP builds; lengths and positions in
  `Frames.ExceptionTextShape` and `Frames.UnknownTextCode` count
  characters, not bytes.
- The messages of errors other than Modbus exceptions are not modelled;
  the `Error` constructor carries the facts the message prints.
- A response shorter than 4 bytes gets `FrameTooShort` in the operations.
  The code's own behaviour on such input is modelled only by
  `Frames.ValidateAsWritten`, for PHP 8 string-offset semantics.
- Decoders.ExtractBits, Decoders.DecodeRegisters, Client.ReadBits, Client.ReadStatus, Client.ReadAlarms, Client.ReadRegisters, Client.ReadSensors and Client.ReadConfiguration require the validated response to hold at least
  `quantity` bits or words after its byte count; what PHP does when it
  holds fewer is not modelled. For the bit reads a missing byte reads as
  `ord("") = 0`, so the missing bits are 0. For the register reads
  `unpack('n', ...)` of fewer than 2 bytes is `false` and the word is
  `null`: at the signed addresses (sensors 0, 1 and 6, configuration 0
  to 5) `toSignedInt(null)` raises a `TypeError`, which the caller's
  `catch (Exception ...)` does not catch; at the dividing addresses the
  value is 0.0; elsewhere it is `null`.
- The default arguments of the reads (start 0; quantities 10, 32, 36 and
  21) are not modelled: the methods take both arguments explicitly. Quantities are non-negative: a negative PHP quantity would
  run the decoding loop zero times.
- `Endpoint.unitId` is a byte. PHP `chr` would reduce a wider unit id
  modulo 256.
- `convertIntToHex` takes a non-negative integer. PHP `dechex` of a
  negative number prints its 64-bit two's complement, which is not
  modelled.
- Responses are not checked for the unit id or function code they carry,
  because the code does not check them either.
- Decimal formatting of PHP floats is not modelled: scaled values are
  exact rationals, not IEEE doubles.
