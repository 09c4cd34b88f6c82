/** Modbus RTU framing as `sendRequest` does it (LangjiACController.php,
    lines 43-85): a request frame is unit id, function code, data and the
    CRC low byte then high byte; a response is checked for emptiness, then
    for its CRC trailer, and only then for the exception bit of its
    function code, which Modbus Application Protocol v1.1b3, section 7,
    reserves for exception responses. */
module Frames {
  import opened Bytes
  import opened Results
  import opened Crc16
  import Numerals

  /** Unit id, function code and two CRC bytes: the shortest frame whose
      bytes 0 to 2 and trailer can all be read. */
  const MinFrameLength := 4

  /** The bit of the function code a device sets to report an exception. */
  const ExceptionBit: byte := 0x80

  /** The exception codes the controller names, and every other code. */
  datatype ModbusException =
    | IllegalFunction
    | IllegalDataAddress
    | IllegalDataValue
    | SlaveDeviceFailure
    | SlaveDeviceBusy
    | CrcCheckFailure
    | UnknownException(code: byte)
  {
    /** An unknown exception never carries one of the six named codes. */
    predicate Valid() {
      UnknownException? ==> code !in NamedExceptionCodes
    }
  }

  const NamedExceptionCodes: set<byte> := {0x01, 0x02, 0x03, 0x04, 0x06, 0x0C}

  /** Every way a call on the controller can fail. */
  datatype Error =
    | ConnectionFailed(errno: int, reason: string)
    | NoResponse
    | FrameTooShort
    | CrcFailed
    | ModbusError(exception: ModbusException)
    | WriteVerificationFailed(functionCode: byte)

  /** The code an exception is reported with. */
  function ExceptionCode(e: ModbusException): byte {
    match e
    case IllegalFunction => 0x01
    case IllegalDataAddress => 0x02
    case IllegalDataValue => 0x03
    case SlaveDeviceFailure => 0x04
    case SlaveDeviceBusy => 0x06
    case CrcCheckFailure => 0x0C
    case UnknownException(code) => code
  }

  /** The lookup in the six-entry table of exception codes. */
  function DecodeException(code: byte): (e: ModbusException)
    ensures e.Valid()
    ensures ExceptionCode(e) == code
    ensures e.UnknownException? <==> code !in NamedExceptionCodes
  {
    match code
    case 0x01 => IllegalFunction
    case 0x02 => IllegalDataAddress
    case 0x03 => IllegalDataValue
    case 0x04 => SlaveDeviceFailure
    case 0x06 => SlaveDeviceBusy
    case 0x0C => CrcCheckFailure
    case _ => UnknownException(code)
  }

  /** Decoding is a bijection between codes and valid exceptions. */
  lemma DecodeExceptionRoundTrip(e: ModbusException)
    requires e.Valid()
    ensures DecodeException(ExceptionCode(e)) == e
  {
  }

  const ModbusErrorPrefix := "Ошибка Modbus: "

  /** The text before the decimal code of an unlisted exception. */
  const UnknownPrefix := "Неизвестная ошибка ("

  /** The text after the prefix: the table entry, or the unknown-code
      text with the code in decimal. */
  function ExceptionText(e: ModbusException): string {
    match e
    case IllegalFunction => "Illegal function"
    case IllegalDataAddress => "Illegal data address"
    case IllegalDataValue => "Illegal data value"
    case SlaveDeviceFailure => "Slave device failure"
    case SlaveDeviceBusy => "Slave device busy"
    case CrcCheckFailure => "CRC check failure"
    case UnknownException(code) => UnknownPrefix + Numerals.Digits(code as int, 10) + ")"
  }

  /** The message the controller throws for an exception response. */
  function ExceptionMessage(e: ModbusException): (m: string)
    ensures ModbusErrorPrefix <= m
    ensures m[|ModbusErrorPrefix|..] == ExceptionText(e)
  {
    ModbusErrorPrefix + ExceptionText(e)
  }

  /** The text of every unlisted code carries that code in decimal
      between the parentheses. */
  lemma UnknownTextCode(code: byte)
    ensures var t := ExceptionText(UnknownException(code));
            && UnknownPrefix <= t && |UnknownPrefix| < |t| && t[|t| - 1] == ')'
            && Numerals.IsDigitString(t[|UnknownPrefix|..|t| - 1], 10)
            && Numerals.ValueOf(t[|UnknownPrefix|..|t| - 1], 10) == code as int
  {
    var digits := Numerals.Digits(code as int, 10);
    var t := ExceptionText(UnknownException(code));
    assert t == UnknownPrefix + digits + ")";
    assert t[|UnknownPrefix|..|t| - 1] == digits;
    Numerals.DigitsRoundTrip(code as int, 10);
  }

  /** Each exception text starts with a character and has a length that
      together single out the exception; unlisted codes all start with
      the Cyrillic letter of "Неизвестная". */
  lemma ExceptionTextShape(e: ModbusException)
    ensures var t := ExceptionText(e);
            0 < |t| &&
            match e
            case IllegalFunction => t[0] == 'I' && |t| == 16
            case IllegalDataAddress => t[0] == 'I' && |t| == 20
            case IllegalDataValue => t[0] == 'I' && |t| == 18
            case SlaveDeviceFailure => t[0] == 'S' && |t| == 20
            case SlaveDeviceBusy => t[0] == 'S' && |t| == 17
            case CrcCheckFailure => t[0] == 'C' && |t| == 17
            case UnknownException(_) => t[0] == 'Н'
  {
  }

  /** Different exceptions give different messages: the six named texts
      differ from each other and from the unlisted-code text, and unlisted
      codes differ in their decimal digits. */
  lemma ExceptionMessageInjective(e1: ModbusException, e2: ModbusException)
    requires e1.Valid() && e2.Valid()
    requires ExceptionMessage(e1) == ExceptionMessage(e2)
    ensures e1 == e2
  {
    var t1, t2 := ExceptionText(e1), ExceptionText(e2);
    assert t1 == t2;
    if e1.UnknownException? && e2.UnknownException? {
      UnknownTextCode(e1.code);
      UnknownTextCode(e2.code);
    } else {
      ExceptionTextShape(e1);
      ExceptionTextShape(e2);
    }
  }

  /** The message for exception code 0x04. */
  lemma SlaveFailureMessage()
    ensures ExceptionMessage(DecodeException(0x04)) == "Ошибка Modbus: Slave device failure"
  {
  }

  /** The message for the unnamed exception code 0x99 (153). */
  lemma UnknownExceptionMessage()
    ensures ExceptionMessage(DecodeException(0x99)) == "Ошибка Modbus: Неизвестная ошибка (153)"
  {
    Decimal153();
    assert DecodeException(0x99) == UnknownException(0x99);
  }

  lemma Decimal153()
    ensures Numerals.Digits(153, 10) == "153"
  {
    assert Numerals.Digits(1, 10) == "1";
    assert Numerals.Digits(15, 10) == "15";
  }

  /** The CRC as sent: low byte first, then high byte. */
  function CrcTrailer(c: bv16): (t: seq<byte>)
    ensures |t| == 2 && Join(t[1], t[0]) == c
  {
    [(c & 0xFF) as byte, ((c >> 8) & 0xFF) as byte]
  }

  /** The last two bytes read as `high << 8 | low`. */
  function ReceivedCrc(frame: seq<byte>): bv16
    requires |frame| >= 2
  {
    Join(frame[|frame| - 1], frame[|frame| - 2])
  }

  /** `chr(unitId) . chr(functionCode) . data` followed by its CRC. */
  function BuildRequest(unitId: byte, functionCode: byte, data: seq<byte>): (frame: seq<byte>)
    ensures |frame| == |data| + 4
    ensures frame[..|data| + 2] == [unitId, functionCode] + data
    ensures Crc(frame) == 0
  {
    var message := [unitId, functionCode] + data;
    var trailer := CrcTrailer(Crc(message));
    ResidueIff(message, trailer[0], trailer[1]);
    message + trailer
  }

  /** The checks `sendRequest` applies to a response, in its order. */
  function ValidateResponse(response: seq<byte>): (r: Result<seq<byte>, Error>)
    ensures r == Failure(NoResponse) <==> |response| == 0
    ensures r == Failure(FrameTooShort) <==> 0 < |response| < MinFrameLength
    ensures r == Failure(CrcFailed) <==> MinFrameLength <= |response| && Crc(response) != 0
    ensures r.Failure? && r.error.ModbusError? <==>
              MinFrameLength <= |response| && Crc(response) == 0 && response[1] & ExceptionBit != 0
    ensures r.Failure? && r.error.ModbusError? ==> r.error.exception == DecodeException(response[2])
    ensures r.Success? <==>
              MinFrameLength <= |response| && Crc(response) == 0 && response[1] & ExceptionBit == 0
    ensures r.Success? ==> r.value == response
  {
    if |response| == 0 then
      Failure(NoResponse)
    else if |response| < MinFrameLength then
      Failure(FrameTooShort)
    else
      var n := |response|;
      var body := response[..n - 2];
      ResidueIff(body, response[n - 2], response[n - 1]);
      assert response == body + [response[n - 2], response[n - 1]];
      if ReceivedCrc(response) != Crc(body) then
        Failure(CrcFailed)
      else if response[1] & ExceptionBit != 0 then
        Failure(ModbusError(DecodeException(response[2])))
      else
        Success(response)
  }

  /** A request frame, taken as a response, passes validation unchanged
      unless its function code has the exception bit set. */
  lemma BuiltFrameValidates(unitId: byte, functionCode: byte, data: seq<byte>)
    ensures var frame := BuildRequest(unitId, functionCode, data);
            ValidateResponse(frame) ==
              if functionCode & ExceptionBit == 0 then Success(frame)
              else Failure(ModbusError(DecodeException(frame[2])))
  {
    var frame := BuildRequest(unitId, functionCode, data);
    assert frame[1] == functionCode;
  }

  /** Dropping the trailer of a built frame gives back the message, and the
      trailer read as `high << 8 | low` is the message's CRC. */
  lemma BuiltFrameTrailer(unitId: byte, functionCode: byte, data: seq<byte>)
    ensures var frame := BuildRequest(unitId, functionCode, data);
            && frame[..|frame| - 2] == [unitId, functionCode] + data
            && ReceivedCrc(frame) == Crc([unitId, functionCode] + data)
  {
  }

  /** Changing any one byte of a frame that passed the CRC check (by a
      single flipped bit or otherwise) makes validation fail with the CRC
      error, whatever the exception bit then says. */
  lemma CorruptedFrameRejected(response: seq<byte>, k: nat, v: byte)
    requires MinFrameLength <= |response| && Crc(response) == 0
    requires k < |response| && v != response[k]
    ensures ValidateResponse(response[k := v]) == Failure(CrcFailed)
  {
    CrcDetectsByteError(response, k, v);
  }

  /** A frame whose CRC checks out is the built frame of its own unit id,
      function code and data: the trailer is determined by the rest. */
  lemma ValidFrameIsBuilt(frame: seq<byte>)
    requires MinFrameLength <= |frame| && Crc(frame) == 0
    ensures frame == BuildRequest(frame[0], frame[1], frame[2..|frame| - 2])
  {
    var n := |frame|;
    var body := frame[..n - 2];
    assert body == [frame[0], frame[1]] + frame[2..n - 2];
    assert frame == body + [frame[n - 2], frame[n - 1]];
    ResidueIff(body, frame[n - 2], frame[n - 1]);
    var t := CrcTrailer(Crc(body));
    assert Join(t[1], t[0]) == Join(frame[n - 1], frame[n - 2]);
    assert t == [frame[n - 2], frame[n - 1]];
  }

  /** `ord($s[i])` as PHP 8 evaluates it: a negative offset counts from the
      end, and an offset outside the string reads as "", whose `ord` is 0. */
  function PhpByteAt(s: seq<byte>, i: int): byte {
    if 0 <= i < |s| then s[i]
    else if -|s| <= i < 0 then s[|s| + i]
    else 0
  }

  /** `substr($s, 0, -2)`: everything but the last two bytes, or "". */
  function DropTrailer(s: seq<byte>): (r: seq<byte>)
    ensures |r| == if |s| <= 2 then 0 else |s| - 2
    ensures r <= s
  {
    if |s| <= 2 then [] else s[..|s| - 2]
  }

  /** PHP's `empty()` of a response string: true for "" and for "0". */
  predicate PhpEmpty(s: seq<byte>) {
    s == [] || s == ['0' as byte]
  }

  /** The checks of `sendRequest` exactly as written, without a length
      check, with PHP's string-offset semantics. */
  function ValidateAsWritten(response: seq<byte>): (r: Result<seq<byte>, Error>)
    ensures r == Failure(NoResponse) <==> PhpEmpty(response)
    ensures r.Success? ==> r.value == response
  {
    if PhpEmpty(response) then
      Failure(NoResponse)
    else
      var n := |response|;
      var received := Join(PhpByteAt(response, n - 1), PhpByteAt(response, n - 2));
      if received != Crc(DropTrailer(response)) then
        Failure(CrcFailed)
      else if PhpByteAt(response, 1) & ExceptionBit != 0 then
        Failure(ModbusError(DecodeException(PhpByteAt(response, 2))))
      else
        Success(response)
  }

  /** From four bytes on, the checks as written and the model's checks
      agree on every response. */
  lemma AsWrittenAgrees(response: seq<byte>)
    requires MinFrameLength <= |response|
    ensures ValidateAsWritten(response) == ValidateResponse(response)
  {
    assert !PhpEmpty(response);
  }

  /** The one-byte response FF passes the checks as written: offset -1
      reads the byte itself, so the received CRC is 0xFFFF, the CRC of the
      empty remainder is 0xFFFF too, and the missing function code reads
      as 0. The model rejects it as too short. */
  lemma OneByteResponseAccepted()
    ensures ValidateAsWritten([0xFF]) == Success([0xFF])
    ensures ValidateResponse([0xFF]) == Failure(FrameTooShort)
  {
    CrcOfEmpty();
    assert DropTrailer([0xFF]) == [];
    assert PhpByteAt([0xFF], -1) == 0xFF;
    assert PhpByteAt([0xFF], 1) == 0;
  }

  /** The two-byte response FF FF passes the CRC check as written and is
      reported as an unknown exception with code 0. */
  lemma TwoByteResponseException()
    ensures ValidateAsWritten([0xFF, 0xFF]) == Failure(ModbusError(UnknownException(0)))
    ensures ValidateResponse([0xFF, 0xFF]) == Failure(FrameTooShort)
  {
    CrcOfEmpty();
    assert DropTrailer([0xFF, 0xFF]) == [];
    assert PhpByteAt([0xFF, 0xFF], 2) == 0;
  }

  /** The three-byte response 01 7E 80 passes the checks as written: its
      last two bytes are the CRC of the unit id 01 (0x807E), and its
      "function code" 7E, really the CRC's low byte, has no exception bit.
      The reads then take 0x80 as the byte count. The model rejects it as
      too short. */
  lemma ThreeByteResponseAccepted()
    ensures ValidateAsWritten([0x01, 0x7E, 0x80]) == Success([0x01, 0x7E, 0x80])
    ensures ValidateResponse([0x01, 0x7E, 0x80]) == Failure(FrameTooShort)
  {
    var unit: seq<byte> := [0x01];
    ShiftsEight(0xFFFF ^ 0x01);
    assert unit[..0] == [];
    assert Crc(unit) == 0x807E;
    assert DropTrailer([0x01, 0x7E, 0x80]) == unit;
  }

  /** The one-byte response "0" is reported as no response at all, since
      PHP's `empty` treats the string "0" as empty. */
  lemma ZeroCharacterIsNoResponse()
    ensures ValidateAsWritten(['0' as byte]) == Failure(NoResponse)
    ensures ValidateResponse(['0' as byte]) == Failure(FrameTooShort)
  {
  }
}
