/**
 * The 3E-frame request encoder of mcp/station.go. Every request is upper-case
 * hex text: a routing header (sub-header and station address), a 2-byte
 * little-endian data length, then the body that the length counts
 * (monitoring timer, command, sub-command, request data).
 */
module Station {
  import opened Wrappers
  import opened Bytes
  import opened Hex

  const SUB_HEADER: string := "5000"

  const HEALTH_CHECK_COMMAND: string := "1906"
  const HEALTH_CHECK_SUBCOMMAND: string := "0000"

  const READ_COMMAND: string := "0104"
  const READ_SUB_COMMAND: string := "0000"
  const BIT_READ_SUB_COMMAND: string := "0100"

  const WRITE_COMMAND: string := "0114"
  const WRITE_SUB_COMMAND: string := "0000"
  const BIT_WRITE_SUB_COMMAND: string := "0100"

  const MONITORING_TIMER: string := "1000"

  /** Device-class letter to the hex text of its one-byte protocol code. */
  const DEVICE_CODES: map<string, string> := map[
    "X" := "9C", "Y" := "9D", "M" := "90", "L" := "92", "F" := "93",
    "V" := "94", "B" := "A0", "W" := "B4", "D" := "A8"]

  /** Looking a name up in the table the way Go indexes a map: a missing name gives "". */
  function DeviceCode(deviceName: string): (code: string)
    ensures code == "" <==> deviceName !in DEVICE_CODES
    ensures deviceName in DEVICE_CODES ==> |code| == 2 && IsUpperHex(code)
    ensures |code| == 0 || |code| == 2
  {
    if deviceName in DEVICE_CODES then DeviceCodeTable(deviceName); DEVICE_CODES[deviceName] else ""
  }

  /** The protocol's device codes as bytes, written independently of the text table. */
  function DeviceByte(deviceName: string): (b: Option<byte>)
    ensures b.Some? <==> deviceName in DEVICE_CODES
  {
    if deviceName == "X" then Some(0x9C)
    else if deviceName == "Y" then Some(0x9D)
    else if deviceName == "M" then Some(0x90)
    else if deviceName == "L" then Some(0x92)
    else if deviceName == "F" then Some(0x93)
    else if deviceName == "V" then Some(0x94)
    else if deviceName == "B" then Some(0xA0)
    else if deviceName == "W" then Some(0xB4)
    else if deviceName == "D" then Some(0xA8)
    else None
  }

  /** The text table holds exactly the `%X` spelling of each device's byte code. */
  lemma DeviceCodeTable(deviceName: string)
    requires deviceName in DEVICE_CODES
    ensures DeviceByte(deviceName).Some?
    ensures DEVICE_CODES[deviceName] == HexByte(DeviceByte(deviceName).value)
  {
  }

  /** The addressing identity of one PLC on the network; fields are hex text, used verbatim. */
  datatype Station = Station(networkNum: string, pcNum: string, unitIONum: string, unitStationNum: string)

  /** A station built from caller-supplied fields, kept verbatim: they reach the frame unchecked. */
  function NewStation(networkNum: string, pcNum: string, unitIONum: string, unitStationNum: string): (h: Station)
    ensures RoutingHeader(h) == SUB_HEADER + networkNum + pcNum + unitIONum + unitStationNum
  {
    Station(networkNum, pcNum, unitIONum, unitStationNum)
  }

  /** Field widths of the 3E routing address: hex text of 1, 1, 2 and 1 bytes. */
  predicate WellFormed(h: Station) {
    && |h.networkNum| == 2 && DecodeHex(h.networkNum).Ok?
    && |h.pcNum| == 2 && DecodeHex(h.pcNum).Ok?
    && |h.unitIONum| == 4 && DecodeHex(h.unitIONum).Ok?
    && |h.unitStationNum| == 2 && DecodeHex(h.unitStationNum).Ok?
  }

  /** The directly attached, non-multidrop PLC: network 00, PC FF, unit I/O FF03, unit station 00. */
  function NewLocalStation(): (h: Station)
    ensures WellFormed(h)
    ensures DecodeHex(RoutingHeader(h)) == Ok([0x50, 0x00, 0x00, 0xFF, 0xFF, 0x03, 0x00])
  {
    var h := Station("00", "FF", "FF03", "00");
    assert "00" == HexBytes([0x00]) && "FF" == HexBytes([0xFF]) && "FF03" == HexBytes([0xFF, 0x03]);
    DecodeHexBytes([0x00]);
    DecodeHexBytes([0xFF]);
    DecodeHexBytes([0xFF, 0x03]);
    RoutingHeaderBytes(h);
    var routing: seq<byte> := [0x50, 0x00, 0x00, 0xFF, 0xFF, 0x03, 0x00];
    assert [0x50, 0x00] + [0x00] + [0xFF] + [0xFF, 0x03] + [0x00] == routing;
    h
  }

  lemma ConstantBytes()
    ensures DecodeHex(READ_COMMAND) == Ok([0x01, 0x04]) && DecodeHex(WRITE_COMMAND) == Ok([0x01, 0x14])
    ensures DecodeHex(READ_SUB_COMMAND) == Ok([0x00, 0x00]) && DecodeHex(BIT_READ_SUB_COMMAND) == Ok([0x01, 0x00])
    ensures DecodeHex(WRITE_SUB_COMMAND) == Ok([0x00, 0x00]) && DecodeHex(BIT_WRITE_SUB_COMMAND) == Ok([0x01, 0x00])
  {
    DecodeHexBytes([0x01, 0x04]);
    DecodeHexBytes([0x01, 0x14]);
    DecodeHexBytes([0x00, 0x00]);
    DecodeHexBytes([0x01, 0x00]);
  }

  /** Sub-header followed by the station address, the part of a frame before the data length. */
  function RoutingHeader(h: Station): string {
    SUB_HEADER + h.networkNum + h.pcNum + h.unitIONum + h.unitStationNum
  }

  /** A well-formed station's routing header decodes to 7 bytes: sub-header 50 00, then the address fields. */
  lemma RoutingHeaderBytes(h: Station)
    requires WellFormed(h)
    ensures DecodeHex(RoutingHeader(h)) == Ok([0x50, 0x00] + DecodeHex(h.networkNum).value + DecodeHex(h.pcNum).value
                                              + DecodeHex(h.unitIONum).value + DecodeHex(h.unitStationNum).value)
    ensures |DecodeHex(RoutingHeader(h)).value| == 7 && |RoutingHeader(h)| == 14
  {
    var a := SUB_HEADER;
    var b := a + h.networkNum;
    var c := b + h.pcNum;
    var d := c + h.unitIONum;
    assert a == HexBytes([0x50, 0x00]);
    DecodeHexBytes([0x50, 0x00]);
    DecodeHexAppend(a, h.networkNum);
    DecodeHexAppend(b, h.pcNum);
    DecodeHexAppend(c, h.unitIONum);
    DecodeHexAppend(d, h.unitStationNum);
  }

  /**
   * `%X` of the first `k` bytes of the buffer that `binary.Write` fills with
   * the little-endian `int64` `v`.
   */
  function Int64Field(v: int, k: nat): string
    requires k <= 8
  {
    HexBytes(LittleEndian(v, 8)[..k])
  }

  /** A truncated integer field is `2k` upper-case digits spelling `v mod 256^k` little-endian. */
  lemma Int64FieldValue(v: int, k: nat)
    requires k <= 8
    ensures Int64Field(v, k) == HexBytes(LittleEndian(v, k))
    ensures |Int64Field(v, k)| == 2 * k && IsUpperHex(Int64Field(v, k))
    ensures DecodeHex(Int64Field(v, k)) == Ok(LittleEndian(v, k))
    ensures LEValue(DecodeHex(Int64Field(v, k)).value) == v % Pow256(k)
  {
    LittleEndianPrefix(v, 8, k);
    HexBytesUpper(LittleEndian(v, k));
    DecodeHexBytes(LittleEndian(v, k));
    LittleEndianValue(v, k);
  }

  /**
   * Reference layout of a 3E request, independent of how the builders compute
   * it: the data length is by definition the byte count of everything from the
   * monitoring timer to the end, kept to 2 little-endian bytes.
   */
  function Frame3E(h: Station, command: string, subCommand: string, requestData: string): string {
    var bodyLen := |MONITORING_TIMER + command + subCommand + requestData| / 2;
    RoutingHeader(h) + HexBytes(LittleEndian(bodyLen, 2)) + MONITORING_TIMER + command + subCommand + requestData
  }

  /** A reference frame is its routing header, the length field, and the body the field counts. */
  lemma Frame3EParts(h: Station, command: string, subCommand: string, requestData: string)
    ensures var body := MONITORING_TIMER + command + subCommand + requestData;
      Frame3E(h, command, subCommand, requestData) == RoutingHeader(h) + HexBytes(LittleEndian(|body| / 2, 2)) + body
  {
  }

  lemma Assoc4<T>(a: seq<T>, b: seq<T>, c: seq<T>, d: seq<T>)
    ensures a + b + c + d == a + (b + c + d)
  {
  }

  lemma Assoc3<T>(a: seq<T>, b: seq<T>, c: seq<T>)
    ensures a + b + c == a + (b + c)
  {
  }

  lemma Assoc5<T>(a: seq<T>, b: seq<T>, c: seq<T>, d: seq<T>, e: seq<T>)
    ensures a + b + c + d + e == a + (b + c + d + e)
  {
  }

  lemma Split3<T>(a: seq<T>, b: seq<T>, c: seq<T>)
    ensures (a + b + c)[..|a|] == a
    ensures (a + b + c)[|a|..|a| + |b|] == b
    ensures (a + b + c)[|a| + |b|..] == c
  {
  }

  /**
   * In a reference frame the 4 characters after the routing header are the
   * 2-byte little-endian count of the bytes after them, kept mod 2^16.
   */
  lemma Frame3EDataLength(h: Station, command: string, subCommand: string, requestData: string)
    ensures var f, p := Frame3E(h, command, subCommand, requestData), |RoutingHeader(h)|;
      && |f| >= p + 8
      && f[..p] == RoutingHeader(h)
      && f[p + 4..p + 8] == MONITORING_TIMER
      && f[p..p + 4] == HexBytes(LittleEndian((|f| - p - 4) / 2, 2))
      && DecodeHex(f[p..p + 4]) == Ok(LittleEndian((|f| - p - 4) / 2, 2))
      && LEValue(LittleEndian((|f| - p - 4) / 2, 2)) == ((|f| - p - 4) / 2) % 65536
  {
    var body := MONITORING_TIMER + command + subCommand + requestData;
    var f, p := Frame3E(h, command, subCommand, requestData), |RoutingHeader(h)|;
    var v := |body| / 2;
    var field := HexBytes(LittleEndian(v, 2));
    Frame3EParts(h, command, subCommand, requestData);
    Split3(RoutingHeader(h), field, body);
    assert |f| == p + 4 + |body|;
    assert (|f| - p - 4) / 2 == v;
    assert f[p..p + 4] == field;
    assert f[p + 4..p + 8] == body[..4];
    DecodeHexBytes(LittleEndian(v, 2));
    LittleEndianValue(v, 2);
    assert Pow256(2) == 65536;
  }

  /** The length field of a reference frame whose body is known to be `v` bytes. */
  lemma Frame3ELengthField(h: Station, command: string, subCommand: string, requestData: string, v: int)
    requires |MONITORING_TIMER + command + subCommand + requestData| == 2 * v
    ensures var f, p := Frame3E(h, command, subCommand, requestData), |RoutingHeader(h)|;
      && |f| == p + 4 + 2 * v
      && f[p..p + 4] == HexBytes(LittleEndian(v, 2))
      && DecodeHex(f[p..p + 4]) == Ok(LittleEndian(v, 2))
  {
    var body := MONITORING_TIMER + command + subCommand + requestData;
    Frame3EParts(h, command, subCommand, requestData);
    assert |body| / 2 == v;
    Split3(RoutingHeader(h), HexBytes(LittleEndian(v, 2)), body);
    DecodeHexBytes(LittleEndian(v, 2));
  }

  /** For a well-formed station and hex request parts, the frame decodes and its length field counts the bytes after it. */
  lemma Frame3EWire(h: Station, command: string, subCommand: string, requestData: string)
    requires WellFormed(h)
    requires |command| == 4 && DecodeHex(command).Ok? && |subCommand| == 4 && DecodeHex(subCommand).Ok?
    requires DecodeHex(requestData).Ok?
    ensures var f := Frame3E(h, command, subCommand, requestData);
      && DecodeHex(f).Ok?
      && DecodeHex(RoutingHeader(h)).Ok?
      && var d := DecodeHex(f).value;
      && |d| == 15 + |DecodeHex(requestData).value|
      && d[..7] == DecodeHex(RoutingHeader(h)).value
      && d[7..9] == LittleEndian(|d| - 9, 2)
      && d[9..15] == [0x10, 0x00] + DecodeHex(command).value + DecodeHex(subCommand).value
      && d[15..] == DecodeHex(requestData).value
  {
    var body := MONITORING_TIMER + command + subCommand + requestData;
    var header := RoutingHeader(h);
    var len := LittleEndian(|body| / 2, 2);
    RoutingHeaderBytes(h);
    Frame3EBodyBytes(command, subCommand, requestData);
    DecodeHexBytes(len);
    assert |header + HexBytes(len)| == 18;
    DecodeHexAppend(header, HexBytes(len));
    DecodeHexAppend(header + HexBytes(len), body);
    Frame3EParts(h, command, subCommand, requestData);
    var hb, bb := DecodeHex(header).value, DecodeHex(body).value;
    var d := DecodeHex(Frame3E(h, command, subCommand, requestData)).value;
    assert d == hb + len + bb;
    Split3(hb, len, bb);
    assert d[9..15] == bb[..6];
    assert d[15..] == bb[6..];
  }

  /** The bytes after the length field: timer 0x0010, command, sub-command, request data. */
  lemma Frame3EBodyBytes(command: string, subCommand: string, requestData: string)
    requires |command| == 4 && DecodeHex(command).Ok? && |subCommand| == 4 && DecodeHex(subCommand).Ok?
    requires DecodeHex(requestData).Ok?
    ensures var body := MONITORING_TIMER + command + subCommand + requestData;
      && DecodeHex(body).Ok?
      && DecodeHex(body).value == [0x10, 0x00] + DecodeHex(command).value + DecodeHex(subCommand).value + DecodeHex(requestData).value
      && |DecodeHex(body).value| == 6 + |DecodeHex(requestData).value|
      && |body| / 2 == |DecodeHex(body).value|
  {
    var t := MONITORING_TIMER;
    assert t == HexBytes([0x10, 0x00]);
    DecodeHexBytes([0x10, 0x00]);
    DecodeHexAppend(t, command);
    DecodeHexAppend(t + command, subCommand);
    DecodeHexAppend(t + command + subCommand, requestData);
  }

  // ---------------------------------------------------------------------------
  // The builders, as mcp/station.go writes them.

  /** The loopback request: echo the 5 bytes "ABCDE". */
  function BuildHealthCheckRequest(h: Station): string {
    var returnDataNum := "0500";
    var returnData := "4142434445";
    var requestStr := HEALTH_CHECK_COMMAND + HEALTH_CHECK_SUBCOMMAND + returnDataNum + returnData;
    var requestCharLen := |MONITORING_TIMER + requestStr| / 2;
    var dataLen := Int64Field(requestCharLen, 2);
    SUB_HEADER + h.networkNum + h.pcNum + h.unitIONum + h.unitStationNum + dataLen + MONITORING_TIMER + requestStr
  }

  function BuildReadRequest(h: Station, deviceName: string, offset: int64, numPoints: int64): string {
    BuildReadRequestHelper(h, deviceName, offset, numPoints, READ_SUB_COMMAND)
  }

  function BuildBitReadRequest(h: Station, deviceName: string, offset: int64, numPoints: int64): string {
    BuildReadRequestHelper(h, deviceName, offset, numPoints, BIT_READ_SUB_COMMAND)
  }

  function BuildReadRequestHelper(h: Station, deviceName: string, offset: int64, numPoints: int64, subCommand: string): string {
    var deviceCode := DeviceCode(deviceName);
    var offsetHex := Int64Field(offset as int, 3);
    var points := Int64Field(numPoints as int, 2);
    // the length is computed with READ_SUB_COMMAND whatever subCommand is
    var requestCharLen := |MONITORING_TIMER + READ_COMMAND + READ_SUB_COMMAND + deviceCode + offsetHex + points| / 2;
    var dataLen := Int64Field(requestCharLen, 2);
    SUB_HEADER + h.networkNum + h.pcNum + h.unitIONum + h.unitStationNum + dataLen +
    MONITORING_TIMER + READ_COMMAND + subCommand + offsetHex + deviceCode + points
  }

  /** Go's `2*numPoints` in int64 arithmetic: the number of write-data bytes a request carries. */
  function WriteByteCount(numPoints: int64): (k: int64)
    ensures (k as int - 2 * numPoints as int) % TWO_TO_64 == 0
    ensures -0x4000_0000_0000_0000 <= numPoints as int < 0x4000_0000_0000_0000 ==> k as int == 2 * numPoints as int
  {
    WrapInt64(2 * numPoints as int)
  }

  /**
   * The data bytes the model lets a write take: `2*numPoints` of them, no
   * more than `writeData` holds. Go bounds the slice `writeBuff.Bytes()[0:2*numPoints]`
   * by the buffer's capacity, not its length, so it also accepts shorter data
   * and pads it with the buffer's zero bytes; the model leaves that case out.
   */
  predicate WriteSliceInBounds(numPoints: int64, writeData: seq<byte>) {
    0 <= WriteByteCount(numPoints) as int <= |writeData|
  }

  function BuildWriteRequest(h: Station, deviceName: string, offset: int64, numPoints: int64, writeData: seq<byte>): string
    requires WriteSliceInBounds(numPoints, writeData)
  {
    BuildWriteRequestHelper(h, deviceName, offset, numPoints, writeData, WRITE_SUB_COMMAND)
  }

  function BuildBitWriteRequest(h: Station, deviceName: string, offset: int64, numPoints: int64, writeData: seq<byte>): string
    requires WriteSliceInBounds(numPoints, writeData)
  {
    BuildWriteRequestHelper(h, deviceName, offset, numPoints, writeData, BIT_WRITE_SUB_COMMAND)
  }

  function BuildWriteRequestHelper(h: Station, deviceName: string, offset: int64, numPoints: int64,
                                   writeData: seq<byte>, subCommand: string): string
    requires WriteSliceInBounds(numPoints, writeData)
  {
    var deviceCode := DeviceCode(deviceName);
    var offsetHex := Int64Field(offset as int, 3);
    // binary.Write of a []byte copies the bytes unchanged
    var writeBuff := writeData;
    var writeHex := HexBytes(writeBuff[..WriteByteCount(numPoints)]);
    var points := Int64Field(numPoints as int, 2);
    var requestCharLen := |MONITORING_TIMER + WRITE_COMMAND + WRITE_SUB_COMMAND + deviceCode + offsetHex + points + writeHex| / 2;
    var dataLen := Int64Field(requestCharLen, 2);
    SUB_HEADER + h.networkNum + h.pcNum + h.unitIONum + h.unitStationNum + dataLen +
    MONITORING_TIMER + WRITE_COMMAND + subCommand + offsetHex + deviceCode + points + writeHex
  }

  // ---------------------------------------------------------------------------
  // What the builders produce.

  /** Head device and point count of a read or write: 3-byte offset, device code, 2-byte count. */
  function DeviceRange(deviceName: string, offset: int64, numPoints: int64): string {
    HexBytes(LittleEndian(offset as int, 3)) + DeviceCode(deviceName) + HexBytes(LittleEndian(numPoints as int, 2))
  }

  /** A reference frame spelled out once its length field is known. */
  lemma Frame3EText(h: Station, command: string, subCommand: string, requestData: string, dataLen: string)
    requires dataLen == HexBytes(LittleEndian(|MONITORING_TIMER + command + subCommand + requestData| / 2, 2))
    ensures Frame3E(h, command, subCommand, requestData)
         == RoutingHeader(h) + dataLen + MONITORING_TIMER + command + subCommand + requestData
  {
  }

  /** A reference frame whose body is `n` bytes long, with the length field written as a truncated 8-byte buffer. */
  lemma Frame3EField(h: Station, command: string, subCommand: string, requestData: string, n: int)
    requires |MONITORING_TIMER + command + subCommand + requestData| / 2 == n
    ensures Frame3E(h, command, subCommand, requestData)
         == RoutingHeader(h) + Int64Field(n, 2) + MONITORING_TIMER + command + subCommand + requestData
  {
    Int64FieldValue(n, 2);
    Frame3EText(h, command, subCommand, requestData, Int64Field(n, 2));
  }

  /** The health-check frame carries 13 bytes after its length field, written "0D00". */
  lemma HealthCheckDataLen()
    ensures |MONITORING_TIMER + (HEALTH_CHECK_COMMAND + HEALTH_CHECK_SUBCOMMAND + "0500" + "4142434445")| / 2 == 13
    ensures Int64Field(13, 2) == "0D00"
  {
    LittleEndianPrefix(13, 8, 2);
    assert LittleEndian(13, 2) == [13, 0];
    assert HexBytes([13, 0]) == "0D00";
  }

  lemma BuildHealthCheckText(h: Station)
    ensures BuildHealthCheckRequest(h)
         == RoutingHeader(h)
            + Int64Field(|MONITORING_TIMER + (HEALTH_CHECK_COMMAND + HEALTH_CHECK_SUBCOMMAND + "0500" + "4142434445")| / 2, 2)
            + MONITORING_TIMER + (HEALTH_CHECK_COMMAND + HEALTH_CHECK_SUBCOMMAND + "0500" + "4142434445")
  {
  }

  lemma Regroup6<T>(a: seq<T>, b: seq<T>, c: seq<T>, d: seq<T>, e: seq<T>, f: seq<T>)
    ensures a + b + (c + d + e + f) == a + b + c + d + (e + f)
  {
    Assoc3(c + d, e, f);
    Assoc3(a + b, c + d, e + f);
    Assoc3(a + b, c, d);
  }

  /** The health-check builder emits the reference frame for command 1906/0000 with echo count 5 and "ABCDE". */
  lemma HealthCheckFrame(h: Station)
    ensures BuildHealthCheckRequest(h) == Frame3E(h, HEALTH_CHECK_COMMAND, HEALTH_CHECK_SUBCOMMAND, "0500" + "4142434445")
  {
    var n := |MONITORING_TIMER + (HEALTH_CHECK_COMMAND + HEALTH_CHECK_SUBCOMMAND + "0500" + "4142434445")| / 2;
    var dataLen := Int64Field(n, 2);
    calc {
      BuildHealthCheckRequest(h);
    == { BuildHealthCheckText(h); }
      RoutingHeader(h) + dataLen + MONITORING_TIMER + (HEALTH_CHECK_COMMAND + HEALTH_CHECK_SUBCOMMAND + "0500" + "4142434445");
    == { Regroup6(RoutingHeader(h), dataLen, MONITORING_TIMER, HEALTH_CHECK_COMMAND + HEALTH_CHECK_SUBCOMMAND, "0500", "4142434445");
         Assoc3(RoutingHeader(h) + dataLen + MONITORING_TIMER, HEALTH_CHECK_COMMAND, HEALTH_CHECK_SUBCOMMAND); }
      RoutingHeader(h) + dataLen + MONITORING_TIMER + HEALTH_CHECK_COMMAND + HEALTH_CHECK_SUBCOMMAND + ("0500" + "4142434445");
    == { Frame3EField(h, HEALTH_CHECK_COMMAND, HEALTH_CHECK_SUBCOMMAND, "0500" + "4142434445", n); }
      Frame3E(h, HEALTH_CHECK_COMMAND, HEALTH_CHECK_SUBCOMMAND, "0500" + "4142434445");
    }
  }

  lemma BuildReadText(h: Station, deviceName: string, offset: int64, numPoints: int64, subCommand: string)
    ensures var code := DeviceCode(deviceName);
      var offsetHex := Int64Field(offset as int, 3);
      var points := Int64Field(numPoints as int, 2);
      var requestCharLen := |MONITORING_TIMER + READ_COMMAND + READ_SUB_COMMAND + code + offsetHex + points| / 2;
      BuildReadRequestHelper(h, deviceName, offset, numPoints, subCommand)
      == RoutingHeader(h) + Int64Field(requestCharLen, 2) + MONITORING_TIMER + READ_COMMAND + subCommand + offsetHex + code + points
  {
  }

  /**
   * A read request is the reference frame for command 0104 with the given
   * sub-command: the length Go computes from READ_SUB_COMMAND, and the 8-byte
   * buffers it truncates, agree with the wire layout for every 4-character
   * sub-command.
   */
  lemma ReadFrame(h: Station, deviceName: string, offset: int64, numPoints: int64, subCommand: string)
    requires |subCommand| == 4
    ensures BuildReadRequestHelper(h, deviceName, offset, numPoints, subCommand)
         == Frame3E(h, READ_COMMAND, subCommand, DeviceRange(deviceName, offset, numPoints))
  {
    var code := DeviceCode(deviceName);
    var offsetHex := Int64Field(offset as int, 3);
    var points := Int64Field(numPoints as int, 2);
    Int64FieldValue(offset as int, 3);
    Int64FieldValue(numPoints as int, 2);
    var requestCharLen := |MONITORING_TIMER + READ_COMMAND + READ_SUB_COMMAND + code + offsetHex + points| / 2;
    assert requestCharLen == (22 + |code|) / 2;
    var rd := DeviceRange(deviceName, offset, numPoints);
    assert rd == offsetHex + code + points;
    assert |MONITORING_TIMER + READ_COMMAND + subCommand + rd| / 2 == requestCharLen;
    var dataLen := Int64Field(requestCharLen, 2);
    Int64FieldValue(requestCharLen, 2);
    BuildReadText(h, deviceName, offset, numPoints, subCommand);
    Frame3EText(h, READ_COMMAND, subCommand, rd, dataLen);
    Assoc4(RoutingHeader(h) + dataLen + MONITORING_TIMER + READ_COMMAND + subCommand, offsetHex, code, points);
  }

  lemma BuildWriteText(h: Station, deviceName: string, offset: int64, numPoints: int64, writeData: seq<byte>, subCommand: string)
    requires WriteSliceInBounds(numPoints, writeData)
    ensures var code := DeviceCode(deviceName);
      var offsetHex := Int64Field(offset as int, 3);
      var writeHex := HexBytes(writeData[..WriteByteCount(numPoints)]);
      var points := Int64Field(numPoints as int, 2);
      var requestCharLen := |MONITORING_TIMER + WRITE_COMMAND + WRITE_SUB_COMMAND + code + offsetHex + points + writeHex| / 2;
      BuildWriteRequestHelper(h, deviceName, offset, numPoints, writeData, subCommand)
      == RoutingHeader(h) + Int64Field(requestCharLen, 2) + MONITORING_TIMER + WRITE_COMMAND + subCommand
         + offsetHex + code + points + writeHex
  {
  }

  /** A write request is the reference frame for command 0114 with the first `2*numPoints` data bytes appended. */
  lemma WriteFrame(h: Station, deviceName: string, offset: int64, numPoints: int64, writeData: seq<byte>, subCommand: string)
    requires WriteSliceInBounds(numPoints, writeData) && |subCommand| == 4
    ensures BuildWriteRequestHelper(h, deviceName, offset, numPoints, writeData, subCommand)
         == Frame3E(h, WRITE_COMMAND, subCommand,
                    DeviceRange(deviceName, offset, numPoints) + HexBytes(writeData[..WriteByteCount(numPoints)]))
  {
    var code := DeviceCode(deviceName);
    var offsetHex := Int64Field(offset as int, 3);
    var points := Int64Field(numPoints as int, 2);
    var writeHex := HexBytes(writeData[..WriteByteCount(numPoints)]);
    Int64FieldValue(offset as int, 3);
    Int64FieldValue(numPoints as int, 2);
    var requestCharLen := |MONITORING_TIMER + WRITE_COMMAND + WRITE_SUB_COMMAND + code + offsetHex + points + writeHex| / 2;
    var rd := DeviceRange(deviceName, offset, numPoints) + writeHex;
    assert rd == offsetHex + code + points + writeHex;
    assert |MONITORING_TIMER + WRITE_COMMAND + subCommand + rd| / 2 == requestCharLen;
    var dataLen := Int64Field(requestCharLen, 2);
    Int64FieldValue(requestCharLen, 2);
    BuildWriteText(h, deviceName, offset, numPoints, writeData, subCommand);
    Frame3EText(h, WRITE_COMMAND, subCommand, rd, dataLen);
    Assoc5(RoutingHeader(h) + dataLen + MONITORING_TIMER + WRITE_COMMAND + subCommand, offsetHex, code, points, writeHex);
  }

  // ---------------------------------------------------------------------------
  // Properties of the requests.

  /** Word and bit reads differ only in the 4 sub-command characters after the command. */
  lemma ReadWordBitDiffer(h: Station, deviceName: string, offset: int64, numPoints: int64)
    ensures var w, b := BuildReadRequest(h, deviceName, offset, numPoints), BuildBitReadRequest(h, deviceName, offset, numPoints);
      var p := |RoutingHeader(h)| + 12;
      && |w| == |b| && |w| >= p + 4
      && w[..p] == b[..p] && w[p + 4..] == b[p + 4..]
      && w[p..p + 4] == READ_SUB_COMMAND && b[p..p + 4] == BIT_READ_SUB_COMMAND
  {
    var code := DeviceCode(deviceName);
    var offsetHex := Int64Field(offset as int, 3);
    var points := Int64Field(numPoints as int, 2);
    var requestCharLen := |MONITORING_TIMER + READ_COMMAND + READ_SUB_COMMAND + code + offsetHex + points| / 2;
    Int64FieldValue(requestCharLen, 2);
    var head := RoutingHeader(h) + Int64Field(requestCharLen, 2) + MONITORING_TIMER + READ_COMMAND;
    var tail := offsetHex + code + points;
    BuildReadText(h, deviceName, offset, numPoints, READ_SUB_COMMAND);
    BuildReadText(h, deviceName, offset, numPoints, BIT_READ_SUB_COMMAND);
    Assoc4(head + READ_SUB_COMMAND, offsetHex, code, points);
    Assoc4(head + BIT_READ_SUB_COMMAND, offsetHex, code, points);
    Split3(head, READ_SUB_COMMAND, tail);
    Split3(head, BIT_READ_SUB_COMMAND, tail);
  }

  /** Word and bit writes differ only in the 4 sub-command characters after the command. */
  lemma WriteWordBitDiffer(h: Station, deviceName: string, offset: int64, numPoints: int64, writeData: seq<byte>)
    requires WriteSliceInBounds(numPoints, writeData)
    ensures var w, b := BuildWriteRequest(h, deviceName, offset, numPoints, writeData),
                        BuildBitWriteRequest(h, deviceName, offset, numPoints, writeData);
      var p := |RoutingHeader(h)| + 12;
      && |w| == |b| && |w| >= p + 4
      && w[..p] == b[..p] && w[p + 4..] == b[p + 4..]
      && w[p..p + 4] == WRITE_SUB_COMMAND && b[p..p + 4] == BIT_WRITE_SUB_COMMAND
  {
    var code := DeviceCode(deviceName);
    var offsetHex := Int64Field(offset as int, 3);
    var points := Int64Field(numPoints as int, 2);
    var writeHex := HexBytes(writeData[..WriteByteCount(numPoints)]);
    var requestCharLen := |MONITORING_TIMER + WRITE_COMMAND + WRITE_SUB_COMMAND + code + offsetHex + points + writeHex| / 2;
    Int64FieldValue(requestCharLen, 2);
    var head := RoutingHeader(h) + Int64Field(requestCharLen, 2) + MONITORING_TIMER + WRITE_COMMAND;
    var tail := offsetHex + code + points + writeHex;
    BuildWriteText(h, deviceName, offset, numPoints, writeData, WRITE_SUB_COMMAND);
    BuildWriteText(h, deviceName, offset, numPoints, writeData, BIT_WRITE_SUB_COMMAND);
    Assoc5(head + WRITE_SUB_COMMAND, offsetHex, code, points, writeHex);
    Assoc5(head + BIT_WRITE_SUB_COMMAND, offsetHex, code, points, writeHex);
    Split3(head, WRITE_SUB_COMMAND, tail);
    Split3(head, BIT_WRITE_SUB_COMMAND, tail);
  }

  /** The only values a read frame's length field takes: 12 bytes with a known device, 11 without a device code. */
  lemma SmallLengthFields()
    ensures LittleEndian(12, 2) == [12, 0] && HexBytes(LittleEndian(12, 2)) == "0C00"
    ensures LittleEndian(11, 2) == [11, 0] && HexBytes(LittleEndian(11, 2)) == "0B00"
  {
    assert LittleEndian(12, 2) == [12, 0];
    assert HexBytes([12, 0]) == "0C00";
    assert LittleEndian(11, 2) == [11, 0];
    assert HexBytes([11, 0]) == "0B00";
  }

  /**
   * A read frame's length field is "0C00" whatever the offset, count and
   * sub-command; an unknown device adds no code, so the frame is 2 characters
   * shorter and the field is "0B00".
   */
  lemma ReadDataLength(h: Station, deviceName: string, offset: int64, numPoints: int64, subCommand: string)
    requires |subCommand| == 4
    ensures var f, p := BuildReadRequestHelper(h, deviceName, offset, numPoints, subCommand), |RoutingHeader(h)|;
      && |f| == p + 4 + 2 * (if deviceName in DEVICE_CODES then 12 else 11)
      && f[p..p + 4] == (if deviceName in DEVICE_CODES then "0C00" else "0B00")
  {
    var rd := DeviceRange(deviceName, offset, numPoints);
    var v := if deviceName in DEVICE_CODES then 12 else 11;
    ReadFrame(h, deviceName, offset, numPoints, subCommand);
    assert |MONITORING_TIMER + READ_COMMAND + subCommand + rd| == 2 * v;
    Frame3ELengthField(h, READ_COMMAND, subCommand, rd, v);
    SmallLengthFields();
  }

  /**
   * A write frame's length field holds `12 + 2*numPoints` modulo 2^16 (11 +
   * 2*numPoints for an unknown device), and the frame carries exactly
   * `WriteByteCount(numPoints)` data bytes.
   */
  lemma WriteDataLength(h: Station, deviceName: string, offset: int64, numPoints: int64, writeData: seq<byte>, subCommand: string)
    requires WriteSliceInBounds(numPoints, writeData) && |subCommand| == 4
    ensures var f, p := BuildWriteRequestHelper(h, deviceName, offset, numPoints, writeData, subCommand), |RoutingHeader(h)|;
      var c := if deviceName in DEVICE_CODES then 12 else 11;
      && |f| == p + 4 + 2 * (c + WriteByteCount(numPoints) as int)
      && DecodeHex(f[p..p + 4]) == Ok(LittleEndian(c + 2 * numPoints as int, 2))
      && LEValue(LittleEndian(c + 2 * numPoints as int, 2)) == (c + 2 * numPoints as int) % 65536
  {
    var f, p := BuildWriteRequestHelper(h, deviceName, offset, numPoints, writeData, subCommand), |RoutingHeader(h)|;
    var c := if deviceName in DEVICE_CODES then 12 else 11;
    var k := WriteByteCount(numPoints) as int;
    var code := DeviceCode(deviceName);
    assert c == 11 + |code| / 2;
    WriteFrameLength(h, deviceName, offset, numPoints, writeData, subCommand);
    WriteLengthField(h, deviceName, offset, numPoints, writeData, subCommand);
    WrappedLengthField(c, numPoints);
  }

  lemma WriteFrameLength(h: Station, deviceName: string, offset: int64, numPoints: int64, writeData: seq<byte>, subCommand: string)
    requires WriteSliceInBounds(numPoints, writeData) && |subCommand| == 4
    ensures |BuildWriteRequestHelper(h, deviceName, offset, numPoints, writeData, subCommand)|
         == |RoutingHeader(h)| + 4 + 2 * (11 + |DeviceCode(deviceName)| / 2 + WriteByteCount(numPoints) as int)
  {
    var k := WriteByteCount(numPoints) as int;
    var rd := DeviceRange(deviceName, offset, numPoints) + HexBytes(writeData[..k]);
    WriteBodyLength(deviceName, offset, numPoints, writeData, subCommand, k);
    Frame3ELengthField(h, WRITE_COMMAND, subCommand, rd, 11 + |DeviceCode(deviceName)| / 2 + k);
    WriteFrame(h, deviceName, offset, numPoints, writeData, subCommand);
  }

  lemma WriteLengthField(h: Station, deviceName: string, offset: int64, numPoints: int64, writeData: seq<byte>, subCommand: string)
    requires WriteSliceInBounds(numPoints, writeData) && |subCommand| == 4
    ensures var f, p := BuildWriteRequestHelper(h, deviceName, offset, numPoints, writeData, subCommand), |RoutingHeader(h)|;
      |f| >= p + 4
      && DecodeHex(f[p..p + 4]) == Ok(LittleEndian(11 + |DeviceCode(deviceName)| / 2 + WriteByteCount(numPoints) as int, 2))
  {
    var k := WriteByteCount(numPoints) as int;
    var rd := DeviceRange(deviceName, offset, numPoints) + HexBytes(writeData[..k]);
    WriteBodyLength(deviceName, offset, numPoints, writeData, subCommand, k);
    Frame3ELengthField(h, WRITE_COMMAND, subCommand, rd, 11 + |DeviceCode(deviceName)| / 2 + k);
    WriteFrame(h, deviceName, offset, numPoints, writeData, subCommand);
  }

  /** The body of a write frame carrying `k` data bytes is `11 + k` bytes, plus one for a known device. */
  lemma WriteBodyLength(deviceName: string, offset: int64, numPoints: int64, writeData: seq<byte>, subCommand: string, k: nat)
    requires k <= |writeData| && |subCommand| == 4
    ensures var rd := DeviceRange(deviceName, offset, numPoints) + HexBytes(writeData[..k]);
      |MONITORING_TIMER + WRITE_COMMAND + subCommand + rd| == 2 * (11 + |DeviceCode(deviceName)| / 2 + k)
  {
    var code := DeviceCode(deviceName);
    var rd := DeviceRange(deviceName, offset, numPoints) + HexBytes(writeData[..k]);
    assert |rd| == 10 + |code| + 2 * k;
  }

  /** The length Go writes for `c` fixed bytes plus the wrapped byte count, as 2 little-endian bytes. */
  lemma WrappedLengthField(c: int, numPoints: int64)
    ensures LittleEndian(c + WriteByteCount(numPoints) as int, 2) == LittleEndian(c + 2 * numPoints as int, 2)
    ensures LEValue(LittleEndian(c + 2 * numPoints as int, 2)) == (c + 2 * numPoints as int) % 65536
  {
    var k := WriteByteCount(numPoints) as int;
    assert (c + k) - (c + 2 * numPoints as int) == k - 2 * numPoints as int;
    WrapKeepsLow16(c + k, c + 2 * numPoints as int);
    assert Pow256(2) == 65536;
    LittleEndianCongruent(c + k, c + 2 * numPoints as int, 2);
    LittleEndianValue(c + 2 * numPoints as int, 2);
  }

  lemma SuffixOf<T>(x: seq<T>, y: seq<T>)
    ensures (x + y)[|x + y| - |y|..] == y
  {
  }

  /** A write frame ends with `%X` of the first `WriteByteCount(numPoints)` data bytes, in order. */
  lemma WriteDataSuffix(h: Station, deviceName: string, offset: int64, numPoints: int64, writeData: seq<byte>, subCommand: string)
    requires WriteSliceInBounds(numPoints, writeData)
    ensures var f, k := BuildWriteRequestHelper(h, deviceName, offset, numPoints, writeData, subCommand), WriteByteCount(numPoints) as int;
      && |f| >= 2 * k
      && f[|f| - 2 * k..] == HexBytes(writeData[..k])
      && DecodeHex(f[|f| - 2 * k..]) == Ok(writeData[..k])
  {
    var code := DeviceCode(deviceName);
    var offsetHex := Int64Field(offset as int, 3);
    var points := Int64Field(numPoints as int, 2);
    var writeHex := HexBytes(writeData[..WriteByteCount(numPoints)]);
    var requestCharLen := |MONITORING_TIMER + WRITE_COMMAND + WRITE_SUB_COMMAND + code + offsetHex + points + writeHex| / 2;
    BuildWriteText(h, deviceName, offset, numPoints, writeData, subCommand);
    SuffixOf(RoutingHeader(h) + Int64Field(requestCharLen, 2) + MONITORING_TIMER + WRITE_COMMAND + subCommand
             + offsetHex + code + points, writeHex);
    DecodeHexBytes(writeData[..WriteByteCount(numPoints)]);
  }

  /**
   * Only the first `WriteByteCount(numPoints)` data bytes matter: two data
   * buffers give the same write frame exactly when those bytes agree, so any
   * bytes beyond them are ignored.
   */
  lemma WriteUsesDataPrefix(h: Station, deviceName: string, offset: int64, numPoints: int64,
                            a: seq<byte>, b: seq<byte>, subCommand: string)
    requires WriteSliceInBounds(numPoints, a) && WriteSliceInBounds(numPoints, b)
    ensures var k := WriteByteCount(numPoints) as int;
      (BuildWriteRequestHelper(h, deviceName, offset, numPoints, a, subCommand)
       == BuildWriteRequestHelper(h, deviceName, offset, numPoints, b, subCommand)) <==> a[..k] == b[..k]
  {
    var k := WriteByteCount(numPoints) as int;
    WriteDataSuffix(h, deviceName, offset, numPoints, a, subCommand);
    WriteDataSuffix(h, deviceName, offset, numPoints, b, subCommand);
  }

  /** The request-data part of a read with a known device decodes to offset (3 bytes), device code, count (2 bytes). */
  lemma DeviceRangeBytes(deviceName: string, offset: int64, numPoints: int64)
    requires deviceName in DEVICE_CODES
    ensures DecodeHex(DeviceRange(deviceName, offset, numPoints))
         == Ok(LittleEndian(offset as int, 3) + [DeviceByte(deviceName).value] + LittleEndian(numPoints as int, 2))
  {
    var o, c, n := LittleEndian(offset as int, 3), DeviceByte(deviceName).value, LittleEndian(numPoints as int, 2);
    DeviceCodeTable(deviceName);
    DecodeHexBytes(o);
    DecodeHexByte(c);
    DecodeHexBytes(n);
    DecodeHexAppend(HexBytes(o), HexByte(c));
    DecodeHexAppend(HexBytes(o) + HexByte(c), HexBytes(n));
  }

  /** The request data of a write with a known device decode to offset, device byte, count, then the data bytes. */
  lemma WriteRequestDataBytes(deviceName: string, offset: int64, numPoints: int64, writeData: seq<byte>)
    requires deviceName in DEVICE_CODES && WriteSliceInBounds(numPoints, writeData)
    ensures var k := WriteByteCount(numPoints) as int;
      DecodeHex(DeviceRange(deviceName, offset, numPoints) + HexBytes(writeData[..k]))
      == Ok(LittleEndian(offset as int, 3) + [DeviceByte(deviceName).value] + LittleEndian(numPoints as int, 2) + writeData[..k])
  {
    var k := WriteByteCount(numPoints) as int;
    DeviceRangeBytes(deviceName, offset, numPoints);
    DecodeHexBytes(writeData[..k]);
    assert |DeviceRange(deviceName, offset, numPoints)| == 12;
    DecodeHexAppend(DeviceRange(deviceName, offset, numPoints), HexBytes(writeData[..k]));
  }

  /**
   * For a well-formed station and a known device, a write request on the wire
   * is the routing header, the length `12 + 2*numPoints` mod 2^16, timer
   * 0x0010, command 0x1401, the sub-command, offset mod 2^24, the device code,
   * the count mod 2^16, and then the first `2*numPoints` data bytes in order.
   */
  lemma WriteFrameBytes(h: Station, deviceName: string, offset: int64, numPoints: int64, writeData: seq<byte>, subCommand: string)
    requires WellFormed(h) && deviceName in DEVICE_CODES && WriteSliceInBounds(numPoints, writeData)
    requires |subCommand| == 4 && DecodeHex(subCommand).Ok?
    ensures var f, k := BuildWriteRequestHelper(h, deviceName, offset, numPoints, writeData, subCommand), WriteByteCount(numPoints) as int;
      && DecodeHex(f).Ok? && DecodeHex(RoutingHeader(h)).Ok?
      && var d := DecodeHex(f).value;
      && |d| == 21 + k
      && d[..7] == DecodeHex(RoutingHeader(h)).value
      && d[7..9] == LittleEndian(12 + 2 * numPoints as int, 2)
      && d[9..15] == [0x10, 0x00, 0x01, 0x14] + DecodeHex(subCommand).value
      && d[15..21] == LittleEndian(offset as int, 3) + [DeviceByte(deviceName).value] + LittleEndian(numPoints as int, 2)
      && d[21..] == writeData[..k]
  {
    var k := WriteByteCount(numPoints) as int;
    var rd := DeviceRange(deviceName, offset, numPoints) + HexBytes(writeData[..k]);
    var range := LittleEndian(offset as int, 3) + [DeviceByte(deviceName).value] + LittleEndian(numPoints as int, 2);
    WriteFrame(h, deviceName, offset, numPoints, writeData, subCommand);
    WriteRequestDataBytes(deviceName, offset, numPoints, writeData);
    WriteCommandFrameBytes(h, subCommand, rd, range + writeData[..k]);
    WrappedLengthField(12, numPoints);
    var d := DecodeHex(BuildWriteRequestHelper(h, deviceName, offset, numPoints, writeData, subCommand)).value;
    TailParts(d, 15, range, writeData[..k]);
  }

  /** A reference frame for command 0114 whose request data decode to `rb`, on the wire. */
  lemma WriteCommandFrameBytes(h: Station, subCommand: string, rd: string, rb: seq<byte>)
    requires WellFormed(h) && |subCommand| == 4 && DecodeHex(subCommand).Ok? && DecodeHex(rd) == Ok(rb)
    ensures var f := Frame3E(h, WRITE_COMMAND, subCommand, rd);
      && DecodeHex(f).Ok? && DecodeHex(RoutingHeader(h)).Ok?
      && var d := DecodeHex(f).value;
      && |d| == 15 + |rb|
      && d[..7] == DecodeHex(RoutingHeader(h)).value
      && d[7..9] == LittleEndian(6 + |rb|, 2)
      && d[9..15] == [0x10, 0x00, 0x01, 0x14] + DecodeHex(subCommand).value
      && d[15..] == rb
  {
    ConstantBytes();
    Frame3EWire(h, WRITE_COMMAND, subCommand, rd);
    var cmd: seq<byte> := [0x01, 0x14];
    assert [0x10, 0x00] + cmd == [0x10, 0x00, 0x01, 0x14];
  }

  /** A tail made of two parts: each part is a slice of the whole. */
  lemma TailParts<T>(d: seq<T>, i: nat, a: seq<T>, b: seq<T>)
    requires i <= |d| && d[i..] == a + b
    ensures d[i..i + |a|] == a && d[i + |a|..] == b
  {
    assert d[i..i + |a|] == d[i..][..|a|];
    assert d[i + |a|..] == d[i..][|a|..];
  }

  /**
   * For a well-formed station and a known device, a read request is 21 bytes
   * on the wire: routing header, length 12, timer 0x0010, command 0x0401, the
   * sub-command, offset mod 2^24, the device code and the count mod 2^16.
   */
  lemma ReadFrameBytes(h: Station, deviceName: string, offset: int64, numPoints: int64, subCommand: string)
    requires WellFormed(h) && deviceName in DEVICE_CODES
    requires |subCommand| == 4 && DecodeHex(subCommand).Ok?
    ensures var f := BuildReadRequestHelper(h, deviceName, offset, numPoints, subCommand);
      && DecodeHex(f).Ok? && DecodeHex(RoutingHeader(h)).Ok?
      && var d := DecodeHex(f).value;
      && |d| == 21
      && d[..7] == DecodeHex(RoutingHeader(h)).value
      && d[7..9] == [12, 0]
      && d[9..15] == [0x10, 0x00, 0x01, 0x04] + DecodeHex(subCommand).value
      && d[15..] == LittleEndian(offset as int, 3) + [DeviceByte(deviceName).value] + LittleEndian(numPoints as int, 2)
  {
    var rd := DeviceRange(deviceName, offset, numPoints);
    ReadFrame(h, deviceName, offset, numPoints, subCommand);
    DeviceRangeBytes(deviceName, offset, numPoints);
    ConstantBytes();
    Frame3EWire(h, READ_COMMAND, subCommand, rd);
    SmallLengthFields();
    var cmd: seq<byte> := [0x01, 0x04];
    assert [0x10, 0x00] + cmd == [0x10, 0x00, 0x01, 0x04];
  }

  /** The local station's read request for a known device is 42 hex characters, 21 bytes. */
  lemma LocalReadFrame(deviceName: string, offset: int64, numPoints: int64)
    requires deviceName in DEVICE_CODES
    ensures var f := BuildReadRequest(NewLocalStation(), deviceName, offset, numPoints);
      |f| == 42 && DecodeHex(f).Ok? && |DecodeHex(f).value| == 21
  {
    var h := NewLocalStation();
    RoutingHeaderBytes(h);
    ReadDataLength(h, deviceName, offset, numPoints, READ_SUB_COMMAND);
    ConstantBytes();
    ReadFrameBytes(h, deviceName, offset, numPoints, READ_SUB_COMMAND);
  }
}
