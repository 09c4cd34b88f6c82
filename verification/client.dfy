/** The public operations of `LangjiACController` (LangjiACController.php,
    lines 43-301): one request/response exchange per call, the three read
    operations decoding the validated response, and the three write
    operations checking the device's echo. The TCP connection is a
    parameter: either it could not be opened, or it is a device that
    answers each request frame with some bytes. */
module Client {
  import opened Bytes
  import opened Results
  import opened Crc16
  import opened Frames
  import opened Registers
  import opened Decoders
  import Converters

  /** Where the controller talks to: host, port and Modbus unit id. */
  datatype Endpoint = Endpoint(host: string, port: int, unitId: byte)

  /** The outcome of opening the socket: the error `fsockopen` reported, or
      a device that answers a request frame with a byte string. */
  datatype Link =
    | Down(errno: int, reason: string)
    | Up(respond: seq<byte> -> seq<byte>)

  /** The most bytes the single `fread` of a response returns. */
  const ReadLimit := 256

  const ReadCoils: byte := 0x01
  const ReadDiscreteInputs: byte := 0x02
  const ReadHoldingRegisters: byte := 0x03
  const WriteCoil: byte := 0x05
  const WriteRegister: byte := 0x06
  const WriteRegisters: byte := 0x10

  /** The register address of the on/off switch. */
  const SwitchAddress := 0x23

  /** `sendRequest`: frame the data, send it, read at most `ReadLimit`
      bytes back and validate them. */
  function SendRequest(ep: Endpoint, functionCode: byte, data: seq<byte>, link: Link): (r: Result<seq<byte>, Error>)
    ensures link.Down? ==> r == Failure(ConnectionFailed(link.errno, link.reason))
    ensures link.Up? ==>
              var reply := Take(link.respond(BuildRequest(ep.unitId, functionCode, data)), ReadLimit);
              && (r.Success? <==>
                    MinFrameLength <= |reply| && Crc(reply) == 0 && reply[1] & ExceptionBit == 0)
              && (r.Success? ==> r.value == reply)
              && (|reply| == 0 <==> r == Failure(NoResponse))
              && r == ValidateResponse(reply)
    ensures r.Success? ==> MinFrameLength <= |r.value| <= ReadLimit
    ensures r.Failure? ==> !r.error.WriteVerificationFailed?
  {
    match link
    case Down(errno, reason) => Failure(ConnectionFailed(errno, reason))
    case Up(respond) =>
      var request := BuildRequest(ep.unitId, functionCode, data);
      ValidateResponse(Take(respond(request), ReadLimit))
  }

  /** A device that sends every frame straight back is answered with
      success by every request whose function code is not an exception
      code, and the response is the request itself. */
  lemma LoopbackAccepted(ep: Endpoint, functionCode: byte, data: seq<byte>)
    requires functionCode & ExceptionBit == 0
    requires |data| + 4 <= ReadLimit
    ensures SendRequest(ep, functionCode, data, Up(frame => frame)) ==
              Success(BuildRequest(ep.unitId, functionCode, data))
  {
    var request := BuildRequest(ep.unitId, functionCode, data);
    assert Take(request, ReadLimit) == request;
    BuiltFrameValidates(ep.unitId, functionCode, data);
  }

  /** `pack('n', $startAddress) . pack('n', $quantity)`. */
  function ReadPayload(startAddress: int, quantity: int): (p: seq<byte>)
    ensures |p| == 4
    ensures WordAt(p, 0) == Truncate16(startAddress) && WordAt(p, 1) == Truncate16(quantity)
  {
    Pack(startAddress) + Pack(quantity)
  }

  /** Reading ten holding registers from address 0 of unit 1 sends
      01 03 00 00 00 0A and the CRC 0xCDC5, low byte first. */
  lemma ReadRequestExample()
    ensures BuildRequest(1, ReadHoldingRegisters, ReadPayload(0, 10)) ==
              [0x01, 0x03, 0x00, 0x00, 0x00, 0x0A, 0xC5, 0xCD]
  {
    var payload := ReadPayload(0, 10);
    assert payload == [0x00, 0x00, 0x00, 0x0A];
    var message: seq<byte> := [0x01, 0x03, 0x00, 0x00, 0x00, 0x0A];
    assert [1 as byte, ReadHoldingRegisters] + payload == message;
    GoldenVector();
    FrameSplit(1, ReadHoldingRegisters, payload);
    assert CrcTrailer(0xCDC5) == [0xC5, 0xCD];
  }

  /** A built frame is its message followed by the trailer of the
      message's CRC. */
  lemma FrameSplit(unit: byte, fc: byte, data: seq<byte>)
    ensures BuildRequest(unit, fc, data) == [unit, fc] + data + CrcTrailer(Crc([unit, fc] + data))
  {
  }

  /** The response carries at least `quantity` bits after its byte count,
      unless the exchange failed. */
  predicate HasBits(r: Result<seq<byte>, Error>, quantity: nat) {
    r.Failure? || (3 <= |r.value| && quantity <= 8 * |DataArea(r.value)|)
  }

  /** The response carries at least `quantity` words after its byte count,
      unless the exchange failed. */
  predicate HasWords(r: Result<seq<byte>, Error>, quantity: nat) {
    r.Failure? || (3 <= |r.value| && 2 * quantity <= |DataArea(r.value)|)
  }

  /** `readStatus` and `readAlarms`: read packed bits with the given
      function code and unpack them one address each. */
  method ReadBits(ep: Endpoint, link: Link, functionCode: byte, startAddress: int, quantity: nat)
    returns (r: Result<map<int, int>, Error>)
    requires HasBits(SendRequest(ep, functionCode, ReadPayload(startAddress, quantity), link), quantity)
    ensures var sent := SendRequest(ep, functionCode, ReadPayload(startAddress, quantity), link);
            && (sent.Failure? ==> r == Failure(sent.error))
            && (sent.Success? ==> r.Success? && BitsDecoded(r.value, DataArea(sent.value), startAddress, quantity))
    ensures r.Success? ==> forall a :: a in r.value ==> r.value[a] == 0 || r.value[a] == 1
  {
    var sent := SendRequest(ep, functionCode, ReadPayload(startAddress, quantity), link);
    if sent.Failure? {
      return Failure(sent.error);
    }
    var bits := ExtractBits(sent.value, quantity, startAddress);
    return Success(bits);
  }

  /** `readStatus`: the coil states, function code 0x01. */
  method ReadStatus(ep: Endpoint, link: Link, startAddress: int, quantity: nat)
    returns (r: Result<map<int, int>, Error>)
    requires HasBits(SendRequest(ep, ReadCoils, ReadPayload(startAddress, quantity), link), quantity)
    ensures var sent := SendRequest(ep, ReadCoils, ReadPayload(startAddress, quantity), link);
            && (sent.Failure? ==> r == Failure(sent.error))
            && (sent.Success? ==> r.Success? && BitsDecoded(r.value, DataArea(sent.value), startAddress, quantity))
  {
    r := ReadBits(ep, link, ReadCoils, startAddress, quantity);
  }

  /** `readAlarms`: the alarm inputs, function code 0x02. */
  method ReadAlarms(ep: Endpoint, link: Link, startAddress: int, quantity: nat)
    returns (r: Result<map<int, int>, Error>)
    requires HasBits(SendRequest(ep, ReadDiscreteInputs, ReadPayload(startAddress, quantity), link), quantity)
    ensures var sent := SendRequest(ep, ReadDiscreteInputs, ReadPayload(startAddress, quantity), link);
            && (sent.Failure? ==> r == Failure(sent.error))
            && (sent.Success? ==> r.Success? && BitsDecoded(r.value, DataArea(sent.value), startAddress, quantity))
  {
    r := ReadBits(ep, link, ReadDiscreteInputs, startAddress, quantity);
  }

  /** `readSensors` and `readConfiguration`: read holding registers and
      scale each by the given table. */
  method ReadRegisters(ep: Endpoint, link: Link, startAddress: int, quantity: nat, scaling: int -> Scaling)
    returns (r: Result<map<int, Value>, Error>)
    requires HasWords(SendRequest(ep, ReadHoldingRegisters, ReadPayload(startAddress, quantity), link), quantity)
    ensures var sent := SendRequest(ep, ReadHoldingRegisters, ReadPayload(startAddress, quantity), link);
            && (sent.Failure? ==> r == Failure(sent.error))
            && (sent.Success? ==>
                  r.Success? && RegistersDecoded(r.value, DataArea(sent.value), startAddress, quantity, scaling))
  {
    var sent := SendRequest(ep, ReadHoldingRegisters, ReadPayload(startAddress, quantity), link);
    if sent.Failure? {
      return Failure(sent.error);
    }
    var values := DecodeRegisters(sent.value, quantity, startAddress, scaling);
    return Success(values);
  }

  /** `readSensors`: temperatures, currents and humidity, scaled by the
      sensor table. */
  method ReadSensors(ep: Endpoint, link: Link, startAddress: int, quantity: nat)
    returns (r: Result<map<int, Value>, Error>)
    requires HasWords(SendRequest(ep, ReadHoldingRegisters, ReadPayload(startAddress, quantity), link), quantity)
    ensures var sent := SendRequest(ep, ReadHoldingRegisters, ReadPayload(startAddress, quantity), link);
            && (sent.Failure? ==> r == Failure(sent.error))
            && (sent.Success? ==>
                  r.Success? && RegistersDecoded(r.value, DataArea(sent.value), startAddress, quantity, SensorScaling))
  {
    r := ReadRegisters(ep, link, startAddress, quantity, SensorScaling);
  }

  /** `readConfiguration`: set points and settings, scaled by the
      configuration table. */
  method ReadConfiguration(ep: Endpoint, link: Link, startAddress: int, quantity: nat)
    returns (r: Result<map<int, Value>, Error>)
    requires HasWords(SendRequest(ep, ReadHoldingRegisters, ReadPayload(startAddress, quantity), link), quantity)
    ensures var sent := SendRequest(ep, ReadHoldingRegisters, ReadPayload(startAddress, quantity), link);
            && (sent.Failure? ==> r == Failure(sent.error))
            && (sent.Success? ==>
                  r.Success? && RegistersDecoded(r.value, DataArea(sent.value), startAddress, quantity, ConfigScaling))
  {
    r := ReadRegisters(ep, link, startAddress, quantity, ConfigScaling);
  }

  /** The expected echo as the write operations spell it: the message,
      then `chr(crc & 0xFF) . chr(crc >> 8)`. */
  function EchoFrame(unitId: byte, functionCode: byte, data: seq<byte>): seq<byte> {
    var message := [unitId, functionCode] + data;
    var crc := Crc(message);
    message + [(crc & 0xFF) as byte, (crc >> 8) as byte]
  }

  /** The echo is exactly the request frame: the unmasked high byte of the
      CRC equals the masked one `sendRequest` sends. */
  lemma EchoIsRequest(unitId: byte, functionCode: byte, data: seq<byte>)
    ensures EchoFrame(unitId, functionCode, data) == BuildRequest(unitId, functionCode, data)
  {
    var message := [unitId, functionCode] + data;
    var crc := Crc(message);
    assert (crc >> 8) & 0xFF == crc >> 8;
    BuiltFrameTrailer(unitId, functionCode, data);
    var frame := BuildRequest(unitId, functionCode, data);
    assert frame == frame[..|frame| - 2] + [frame[|frame| - 2], frame[|frame| - 1]];
  }

  /** The reply the device gives to a request frame, as far as it is read. */
  function Reply(ep: Endpoint, functionCode: byte, data: seq<byte>, link: Link): seq<byte>
    requires link.Up?
  {
    Take(link.respond(BuildRequest(ep.unitId, functionCode, data)), ReadLimit)
  }

  /** The write of one coil or register: send, then require the response
      to be the expected echo. */
  function WriteEchoed(ep: Endpoint, functionCode: byte, data: seq<byte>, link: Link): (r: Result<bool, Error>)
    requires functionCode & ExceptionBit == 0
    ensures r.Success? ==> r.value
    ensures r.Success? <==> link.Up? && Reply(ep, functionCode, data, link) == BuildRequest(ep.unitId, functionCode, data)
    ensures var sent := SendRequest(ep, functionCode, data, link);
            && (sent.Failure? ==> r == Failure(sent.error))
            && (r == Failure(WriteVerificationFailed(functionCode)) <==>
                  sent.Success? && sent.value != BuildRequest(ep.unitId, functionCode, data))
  {
    EchoIsRequest(ep.unitId, functionCode, data);
    BuiltFrameValidates(ep.unitId, functionCode, data);
    var sent := SendRequest(ep, functionCode, data, link);
    if sent.Failure? then Failure(sent.error)
    else if sent.value != EchoFrame(ep.unitId, functionCode, data) then Failure(WriteVerificationFailed(functionCode))
    else Success(true)
  }

  /** `writeSingleCoil`: the coil word is 0xFF00 for on and 0x0000 for
      off, the same mapping as `convertBoolToHex`. */
  function WriteSingleCoil(ep: Endpoint, link: Link, address: int, value: bool): (r: Result<bool, Error>)
    ensures var data := Pack(address) + Be16(Converters.ConvertBoolToHex(value));
            var sent := SendRequest(ep, WriteCoil, data, link);
            && (r.Success? ==> r.value)
            && (r.Success? <==> link.Up? && Reply(ep, WriteCoil, data, link) == BuildRequest(ep.unitId, WriteCoil, data))
            && (sent.Failure? ==> r == Failure(sent.error))
            && (r == Failure(WriteVerificationFailed(WriteCoil)) <==>
                  sent.Success? && sent.value != BuildRequest(ep.unitId, WriteCoil, data))
  {
    WriteEchoed(ep, WriteCoil, Pack(address) + Be16(Converters.ConvertBoolToHex(value)), link)
  }

  /** `writeSingleRegister`: the value goes out as `pack('n', $value)`. */
  function WriteSingleRegister(ep: Endpoint, link: Link, address: int, value: int): (r: Result<bool, Error>)
    ensures var data := Pack(address) + Pack(value);
            var sent := SendRequest(ep, WriteRegister, data, link);
            && (r.Success? ==> r.value)
            && (r.Success? <==> link.Up? && Reply(ep, WriteRegister, data, link) == BuildRequest(ep.unitId, WriteRegister, data))
            && (sent.Failure? ==> r == Failure(sent.error))
            && (r == Failure(WriteVerificationFailed(WriteRegister)) <==>
                  sent.Success? && sent.value != BuildRequest(ep.unitId, WriteRegister, data))
  {
    WriteEchoed(ep, WriteRegister, Pack(address) + Pack(value), link)
  }

  /** Each value cut to 16 bits, as `pack('n', $value)` does. */
  function Truncated(values: seq<int>): (ws: seq<word>)
    ensures |ws| == |values|
  {
    seq(|values|, i requires 0 <= i < |values| => Truncate16(values[i]))
  }

  /** The data of `writeMultipleRegisters`: start address, quantity, byte
      count (as `chr`, so modulo 256) and the packed values. */
  function MultipleWriteData(startAddress: int, values: seq<int>): (d: seq<byte>)
    ensures |d| == 5 + 2 * |values|
    ensures d[..4] == ReadPayload(startAddress, |values|)
    ensures d[4] == ByteOf(2 * |values|)
    ensures d[5..] == Words(Truncated(values))
  {
    ReadPayload(startAddress, |values|) + [ByteOf(2 * |values|)] + Words(Truncated(values))
  }

  /** `writeMultipleRegisters`: the response, without its trailer, must be
      unit id, 0x10, start address and quantity. */
  function WriteMultipleRegisters(ep: Endpoint, link: Link, startAddress: int, values: seq<int>): (r: Result<bool, Error>)
    ensures var data := MultipleWriteData(startAddress, values);
            var header := ReadPayload(startAddress, |values|);
            var sent := SendRequest(ep, WriteRegisters, data, link);
            && (r.Success? ==> r.value)
            && (r.Success? <==>
                  link.Up? && Reply(ep, WriteRegisters, data, link) == BuildRequest(ep.unitId, WriteRegisters, header))
            && (sent.Failure? ==> r == Failure(sent.error))
            && (r == Failure(WriteVerificationFailed(WriteRegisters)) <==>
                  sent.Success? && sent.value != BuildRequest(ep.unitId, WriteRegisters, header))
  {
    var data := MultipleWriteData(startAddress, values);
    var header := ReadPayload(startAddress, |values|);
    var sent := SendRequest(ep, WriteRegisters, data, link);
    if sent.Failure? then
      Failure(sent.error)
    else
      var expected := EchoFrame(ep.unitId, WriteRegisters, header);
      EchoMatchIff(ep.unitId, header, sent.value);
      if sent.value[..|sent.value| - 2] != expected[..|expected| - 2] then
        Failure(WriteVerificationFailed(WriteRegisters))
      else
        Success(true)
  }

  /** For a response whose CRC checks out and whose function code is not an
      exception code, agreeing with the expected echo up to the trailers is
      the same as being the frame of unit id, 0x10 and the header. */
  lemma EchoMatchIff(unitId: byte, header: seq<byte>, response: seq<byte>)
    requires |header| == 4
    requires MinFrameLength <= |response| && Crc(response) == 0 && response[1] & ExceptionBit == 0
    ensures var expected := EchoFrame(unitId, WriteRegisters, header);
            response[..|response| - 2] == expected[..|expected| - 2] <==>
              response == BuildRequest(unitId, WriteRegisters, header)
  {
    EchoIsRequest(unitId, WriteRegisters, header);
    var expected := EchoFrame(unitId, WriteRegisters, header);
    BuiltFrameTrailer(unitId, WriteRegisters, header);
    var n := |response|;
    if response[..n - 2] == expected[..|expected| - 2] {
      ValidFrameIsBuilt(response);
      assert n == 8;
      assert response[0] == unitId && response[1] == WriteRegisters;
      assert response[2..n - 2] == header;
    }
  }

  /** The on/off switch of the device: writing `convertBoolToHex(on)` to
      register 0x23 sends the word 0xFF00 or 0x0000, and the sensor table
      reads that register back as 1.0 or 0.0. */
  lemma SwitchReadsBack(on: bool, m: map<int, Value>)
    requires RegistersDecoded(m, Words([Converters.ConvertBoolToHex(on)]), SwitchAddress, 1, SensorScaling)
    ensures m[SwitchAddress] == FloatValue(if on then 1.0 else 0.0)
  {
    var w := Converters.ConvertBoolToHex(on);
    DecodeWrittenWords(m, [w], SwitchAddress, SensorScaling, 0);
    var v := Scale(Per65280, w as int);
    assert v.x * 65280.0 == w as int as real;
  }
}
