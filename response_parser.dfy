/**
 * The response parsers of mcp/response_parser.go. A parser takes the raw
 * bytes a PLC sent back and cuts them at fixed offsets; the header fields are
 * re-spelled as hex text and the rest is handed over as the payload. Neither
 * parser interprets what it cuts: no end code, data length or sub-header is
 * checked.
 */
module ResponseParser {
  import opened Wrappers
  import opened Bytes
  import opened Hex

  /** The frame formats a parser can be asked for. */
  datatype FrameVersion = Frame1E | Frame3E

  /** The two parsers; like the Go structs they carry no state. */
  datatype Parser = Parser1E | Parser3E

  /** A parsed response. Fields the 1E format lacks stay empty; `errInfo` is never filled. */
  datatype Response = Response(
    subHeader: string,
    networkNum: string,
    pcNum: string,
    unitIONum: string,
    unitStationNum: string,
    dataLen: string,
    endCode: string,
    payload: seq<byte>,
    errInfo: seq<byte>)

  /** Why a buffer was refused: too few bytes, or the 2-byte error reply of a 1E PLC (its bytes kept). */
  datatype ParseError = TooShort(minimum: nat) | PlcErrorCode(code: seq<byte>)

  /** The smallest buffer the 3E parser accepts. */
  const MIN_3E_RESPONSE: nat := 22

  function NewParser(frameVersion: FrameVersion): (p: Parser)
    ensures p.Parser1E? <==> frameVersion.Frame1E?
    ensures p.Parser3E? <==> frameVersion.Frame3E?
  {
    match frameVersion
    case Frame1E => Parser1E
    case Frame3E => Parser3E
  }

  /** `Parser.Process`: dispatch to the format's parser. */
  function Process(p: Parser, resp: seq<byte>): (r: Result<Response, ParseError>)
    ensures r.Err? <==> |resp| < (if p == Parser3E then MIN_3E_RESPONSE else 3)
    ensures r.Ok? ==> 1 <= |r.value.payload| < |resp| && r.value.errInfo == []
  {
    match p
    case Parser1E => Process1E(resp)
    case Parser3E => Process3E(resp)
  }

  /**
   * `parser_3E.Process`: sub-header [0,2), network [2,3), PC [3,4), unit I/O
   * [4,6), unit station [6,7), data length [7,9), end code [9,11), payload
   * from 11 on.
   */
  function Process3E(resp: seq<byte>): (r: Result<Response, ParseError>)
    ensures r.Err? <==> |resp| < MIN_3E_RESPONSE
    ensures r.Err? ==> r.error == TooShort(MIN_3E_RESPONSE)
    ensures r.Ok? ==> |r.value.payload| >= 11 && r.value.errInfo == []
  {
    if |resp| < MIN_3E_RESPONSE then Err(TooShort(MIN_3E_RESPONSE))
    else
      Ok(Response(
        subHeader := HexBytes(resp[0..2]),
        networkNum := HexBytes(resp[2..3]),
        pcNum := HexBytes(resp[3..4]),
        unitIONum := HexBytes(resp[4..6]),
        unitStationNum := HexBytes(resp[6..7]),
        dataLen := HexBytes(resp[7..9]),
        endCode := HexBytes(resp[9..11]),
        payload := resp[11..],
        errInfo := []))
  }

  /**
   * `parser_1E.Process`: fewer than 2 bytes is refused, exactly 2 bytes are a
   * PLC error code, and otherwise the first two bytes are written with `%X` on
   * a single byte (no leading zero) and the rest is the payload.
   */
  function Process1E(resp: seq<byte>): (r: Result<Response, ParseError>)
    ensures r.Err? <==> |resp| <= 2
    ensures |resp| < 2 ==> r == Err(TooShort(2))
    ensures |resp| == 2 ==> r == Err(PlcErrorCode(resp))
    ensures r.Ok? ==> |r.value.payload| == |resp| - 2 >= 1 && r.value.errInfo == []
  {
    if |resp| < 2 then Err(TooShort(2))
    else if |resp| == 2 then assert resp[0..2] == resp; Err(PlcErrorCode(resp[0..2]))
    else
      Ok(Response(
        subHeader := HexUnpadded(resp[0]),
        networkNum := "",
        pcNum := "",
        unitIONum := "",
        unitStationNum := "",
        dataLen := "",
        endCode := HexUnpadded(resp[1]),
        payload := resp[2..],
        errInfo := []))
  }

  /** The header of a 3E response as it was received: its seven fields' text, in order. */
  function HeaderText3E(r: Response): string {
    r.subHeader + r.networkNum + r.pcNum + r.unitIONum + r.unitStationNum + r.dataLen + r.endCode
  }

  /** Each 3E header field is the upper-case, two-digits-per-byte spelling of its byte range. */
  lemma Process3EFields(resp: seq<byte>)
    requires |resp| >= MIN_3E_RESPONSE
    ensures var r := Process3E(resp).value;
      && DecodeHex(r.subHeader) == Ok(resp[0..2]) && |r.subHeader| == 4 && IsUpperHex(r.subHeader)
      && DecodeHex(r.networkNum) == Ok(resp[2..3]) && |r.networkNum| == 2 && IsUpperHex(r.networkNum)
      && DecodeHex(r.pcNum) == Ok(resp[3..4]) && |r.pcNum| == 2 && IsUpperHex(r.pcNum)
      && DecodeHex(r.unitIONum) == Ok(resp[4..6]) && |r.unitIONum| == 4 && IsUpperHex(r.unitIONum)
      && DecodeHex(r.unitStationNum) == Ok(resp[6..7]) && |r.unitStationNum| == 2 && IsUpperHex(r.unitStationNum)
      && DecodeHex(r.dataLen) == Ok(resp[7..9]) && |r.dataLen| == 4 && IsUpperHex(r.dataLen)
      && DecodeHex(r.endCode) == Ok(resp[9..11]) && |r.endCode| == 4 && IsUpperHex(r.endCode)
  {
    DecodeHexBytes(resp[0..2]);
    DecodeHexBytes(resp[2..3]);
    DecodeHexBytes(resp[3..4]);
    DecodeHexBytes(resp[4..6]);
    DecodeHexBytes(resp[6..7]);
    DecodeHexBytes(resp[7..9]);
    DecodeHexBytes(resp[9..11]);
    HexBytesUpper(resp[0..2]);
    HexBytesUpper(resp[2..3]);
    HexBytesUpper(resp[3..4]);
    HexBytesUpper(resp[4..6]);
    HexBytesUpper(resp[6..7]);
    HexBytesUpper(resp[7..9]);
    HexBytesUpper(resp[9..11]);
  }

  /** The header text of an accepted 3E response is `%X` of its first 11 bytes. */
  lemma HeaderText3EBytes(resp: seq<byte>)
    requires |resp| >= MIN_3E_RESPONSE
    ensures HeaderText3E(Process3E(resp).value) == HexBytes(resp[..11])
  {
    HexBytesAppend(resp[0..2], resp[2..3]);
    assert resp[0..2] + resp[2..3] == resp[0..3];
    HexBytesAppend(resp[0..3], resp[3..4]);
    assert resp[0..3] + resp[3..4] == resp[0..4];
    HexBytesAppend(resp[0..4], resp[4..6]);
    assert resp[0..4] + resp[4..6] == resp[0..6];
    HexBytesAppend(resp[0..6], resp[6..7]);
    assert resp[0..6] + resp[6..7] == resp[0..7];
    HexBytesAppend(resp[0..7], resp[7..9]);
    assert resp[0..7] + resp[7..9] == resp[0..9];
    HexBytesAppend(resp[0..9], resp[9..11]);
    assert resp[0..9] + resp[9..11] == resp[..11];
  }

  /** 3E round trip: decoding the header text and appending the payload gives back the buffer. */
  lemma Process3ERoundTrip(resp: seq<byte>)
    requires Process3E(resp).Ok?
    ensures var r := Process3E(resp).value;
      DecodeHex(HeaderText3E(r)).Ok? && DecodeHex(HeaderText3E(r)).value + r.payload == resp
  {
    HeaderText3EBytes(resp);
    DecodeHexBytes(resp[..11]);
    assert resp[..11] + resp[11..] == resp;
  }

  /** Hence the 3E parser loses nothing: different accepted buffers give different responses. */
  lemma Process3EInjective(a: seq<byte>, b: seq<byte>)
    requires Process3E(a).Ok? && Process3E(b).Ok?
    ensures Process3E(a) == Process3E(b) <==> a == b
  {
    Process3ERoundTrip(a);
    Process3ERoundTrip(b);
  }

  /**
   * The 3E parser never looks at the end code: buffers that differ only in
   * bytes 9 and 10 are accepted alike and give the same response but for the
   * end-code text.
   */
  lemma Process3EIgnoresEndCode(a: seq<byte>, b: seq<byte>)
    requires |a| == |b| >= 11 && a[..9] == b[..9] && a[11..] == b[11..]
    ensures Process3E(a).Ok? <==> Process3E(b).Ok?
    ensures Process3E(a).Ok? ==> Process3E(a).value.(endCode := "") == Process3E(b).value.(endCode := "")
  {
    if |a| >= MIN_3E_RESPONSE {
      assert a[0..2] == a[..9][0..2] == b[0..2];
      assert a[2..3] == a[..9][2..3] == b[2..3];
      assert a[3..4] == a[..9][3..4] == b[3..4];
      assert a[4..6] == a[..9][4..6] == b[4..6];
      assert a[6..7] == a[..9][6..7] == b[6..7];
      assert a[7..9] == a[..9][7..9] == b[7..9];
    }
  }

  /** 1E round trip: the two header texts are hex numerals of the first two bytes, and the payload is the rest. */
  lemma Process1ERoundTrip(resp: seq<byte>)
    requires Process1E(resp).Ok?
    ensures var r := Process1E(resp).value;
      && HexNumber(r.subHeader) == Some(resp[0] as nat)
      && HexNumber(r.endCode) == Some(resp[1] as nat)
      && [resp[0], resp[1]] + r.payload == resp
      && r.networkNum == r.pcNum == r.unitIONum == r.unitStationNum == r.dataLen == ""
  {
    assert [resp[0], resp[1]] + resp[2..] == resp;
  }

  /** A 1E end code of 0x00 is the one-character text "0", not "00". */
  lemma Process1EShortEndCode(resp: seq<byte>)
    requires |resp| > 2 && resp[1] == 0
    ensures Process1E(resp).Ok? && Process1E(resp).value.endCode == "0"
  {
  }

  /** The parser each frame version selects refuses exactly the buffers its format cannot hold. */
  lemma NewParserThresholds(resp: seq<byte>)
    ensures Process(NewParser(Frame3E), resp).Err? <==> |resp| < 22
    ensures Process(NewParser(Frame1E), resp).Err? <==> |resp| <= 2
  {
  }

  lemma Process1EExamples()
    ensures Process1E([0x12, 0x34]) == Err(PlcErrorCode([0x12, 0x34]))
    ensures Process1E([0x5A, 0x00, 0xFF]) == Ok(Response("5A", "", "", "", "", "", "0", [0xFF], []))
  {
    var r: seq<byte> := [0x5A, 0x00, 0xFF];
    assert r[2..] == [0xFF];
    assert HexUnpadded(0x5A) == "5A";
  }

  /** A minimal 22-byte 3E reply is accepted with an 11-byte payload; one byte fewer is refused. */
  lemma Process3EMinimum(resp: seq<byte>)
    requires |resp| == 22
    ensures Process3E(resp).Ok? && |Process3E(resp).value.payload| == 11
    ensures Process3E(resp[..21]) == Err(TooShort(22))
  {
  }
}
