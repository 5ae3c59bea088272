/**
 * The 3E client of mcp/client.go. Every request goes the same way: the hex
 * text a builder produced is decoded to bytes, written to the connection in
 * one call, and answered by one read into a buffer of a fixed size; the
 * health check then compares the echo the PLC sent back. The error returned
 * tells which step failed.
 */
module Client {
  import opened Wrappers
  import opened Bytes
  import opened Hex
  import opened Station
  import opened Transport

  /** Why a client operation failed. */
  datatype ClientError =
    | HexDecodeFailed(cause: HexError)
    | WriteFailed
    | ReadFailed
    | DialFailed
    | EchoLength(reply: seq<byte>)
    | EchoHeader(header: seq<byte>)
    | EchoBody(body: seq<byte>)

  /** Reply buffer sizes: the health check reads into 30 bytes, a write's reply into 22. */
  const HEALTH_CHECK_BUFFER: nat := 30
  const WRITE_REPLY_BUFFER: nat := 22

  /** The echo the health check asks for and expects back: count 5, then "ABCDE". */
  const ECHO_COUNT: seq<byte> := [0x05, 0x00]
  const ECHO_DATA: seq<byte> := [0x41, 0x42, 0x43, 0x44, 0x45]

  /**
   * Go's `22+2*numPoints` in int64 arithmetic, the size of a read's reply
   * buffer: congruent to the true sum modulo 2^64, and equal to it whenever the
   * sum fits in an int64; negative for `numPoints < -11`, when `make` panics.
   */
  function ReadReplyBuffer(numPoints: int64): (r: int)
    ensures (r - (22 + 2 * numPoints as int)) % TWO_TO_64 == 0
    ensures -0x4000_0000_0000_0000 <= numPoints as int < 0x4000_0000_0000_0000 - 11 ==> r == 22 + 2 * numPoints as int
    ensures -0x4000_0000_0000_0000 <= numPoints as int < 0x4000_0000_0000_0000 - 11 ==> (r < 0 <==> numPoints < -11)
  {
    WrapInt64(22 + 2 * numPoints as int) as int
  }

  lemma EchoText()
    ensures HexBytes(ECHO_COUNT) == "0500" && HexBytes(ECHO_DATA) == "4142434445"
    ensures DecodeHex("0500" + "4142434445") == Ok(ECHO_COUNT + ECHO_DATA)
  {
    EchoDataText();
    HexBytesAppend(ECHO_COUNT, ECHO_DATA);
    DecodeHexBytes(ECHO_COUNT + ECHO_DATA);
  }

  lemma EchoDataText()
    ensures HexBytes(ECHO_DATA) == "4142434445"
  {
    var d := ECHO_DATA;
    assert HexBytes(d[4..]) == "45";
    assert HexBytes(d[3..]) == "44" + HexBytes(d[4..]);
    assert HexBytes(d[2..]) == "43" + HexBytes(d[3..]);
    assert HexBytes(d[1..]) == "42" + HexBytes(d[2..]);
    assert HexBytes(d) == "41" + HexBytes(d[1..]);
  }

  /**
   * The checks the health check makes on the reply, in order: exactly 18
   * bytes, then `%X` of bytes [11,13) is "0500", then `%X` of bytes [13,18)
   * is "4142434445". The first failing check decides the error.
   */
  function CheckEchoReply(resp: seq<byte>): (r: Outcome<ClientError>)
    ensures r.Pass? <==> |resp| == 18 && resp[11..13] == ECHO_COUNT && resp[13..] == ECHO_DATA
    ensures r == Fail(EchoLength(resp)) <==> |resp| != 18
    ensures |resp| == 18 && resp[11..13] != ECHO_COUNT ==> r == Fail(EchoHeader(resp[11..13]))
    ensures |resp| == 18 && resp[11..13] == ECHO_COUNT && resp[13..] != ECHO_DATA ==> r == Fail(EchoBody(resp[13..18]))
  {
    if |resp| != 18 then Fail(EchoLength(resp))
    else
      EchoText();
      HexBytesInjective(resp[11..13], ECHO_COUNT);
      HexBytesInjective(resp[13..18], ECHO_DATA);
      assert resp[13..18] == resp[13..];
      if HexBytes(resp[11..13]) != "0500" then Fail(EchoHeader(resp[11..13]))
      else if HexBytes(resp[13..18]) != "4142434445" then Fail(EchoBody(resp[13..18]))
      else Pass
  }

  /**
   * One request and its reply, as `HealthCheck`, `readHelper` and
   * `writeHelper` all do it: decode, write, read into `capacity` bytes.
   */
  function Exchange(l: Link, requestStr: string, capacity: nat): (Link, Result<seq<byte>, ClientError>) {
    match DecodeHex(requestStr)
    case Err(e) => (l, Err(HexDecodeFailed(e)))
    case Ok(payload) =>
      var (l1, written) := SendStep(l, payload);
      if !written then (l1, Err(WriteFailed))
      else
        var (l2, got) := ReceiveStep(l1, capacity);
        if got.None? then (l2, Err(ReadFailed)) else (l2, Ok(got.value))
  }

  /**
   * An exchange writes nothing when the text does not decode; otherwise it
   * writes the decoded bytes exactly once when the connection takes the
   * write, and fails with `WriteFailed` having written and read nothing when
   * it does not; a reply is no longer than the buffer, taken from the front
   * of what the peer was going to send.
   */
  lemma ExchangeSpec(l: Link, requestStr: string, capacity: nat)
    ensures var (l', r) := Exchange(l, requestStr, capacity);
      && l'.open == l.open
      && (DecodeHex(requestStr).Err? ==> l' == l && r == Err(HexDecodeFailed(DecodeHex(requestStr).error)))
      && (DecodeHex(requestStr).Ok? && !l.open ==> l' == l && r == Err(WriteFailed))
      && (DecodeHex(requestStr).Ok? && !WriteAccepted(l) ==> l'.sent == l.sent && r == Err(WriteFailed))
      && (DecodeHex(requestStr).Ok? && WriteAccepted(l) ==>
            l'.sent == l.sent + [DecodeHex(requestStr).value] && r != Err(WriteFailed))
      && (r.Ok? ==> |r.value| <= capacity && Pending(l.incoming) == r.value + Pending(l'.incoming))
      && (r.Err? ==> Pending(l'.incoming) == Pending(l.incoming))
  {
    if DecodeHex(requestStr).Ok? {
      var payload := DecodeHex(requestStr).value;
      SendStepSpec(l, payload);
      ReceiveStepSpec(SendStep(l, payload).0, capacity);
    }
  }

  /** `HealthCheck` on a connection in state `l`: the exchange, then the echo checks. */
  function HealthCheckSpec(l: Link, h: Station): (Link, Outcome<ClientError>) {
    var (l', r) := Exchange(l, BuildHealthCheckRequest(h), HEALTH_CHECK_BUFFER);
    (l', if r.Err? then Fail(r.error) else CheckEchoReply(r.value))
  }

  /**
   * The health-check request of a well-formed station is 22 bytes: the
   * routing header, length 13, timer, command 0x0619, sub-command 0, and
   * the echo count and data the reply is checked against.
   */
  lemma HealthCheckWire(h: Station)
    requires WellFormed(h)
    ensures DecodeHex(BuildHealthCheckRequest(h)).Ok?
    ensures var d := DecodeHex(BuildHealthCheckRequest(h)).value;
      && |d| == 22
      && d[7..9] == [13, 0]
      && d[9..15] == [0x10, 0x00, 0x19, 0x06, 0x00, 0x00]
      && d[15..] == ECHO_COUNT + ECHO_DATA
  {
    var rd := "0500" + "4142434445";
    HealthCheckFrame(h);
    EchoText();
    HealthCheckConstants();
    Frame3EWire(h, HEALTH_CHECK_COMMAND, HEALTH_CHECK_SUBCOMMAND, rd);
  }

  lemma HealthCheckConstants()
    ensures DecodeHex(HEALTH_CHECK_COMMAND) == Ok([0x19, 0x06])
    ensures DecodeHex(HEALTH_CHECK_SUBCOMMAND) == Ok([0x00, 0x00])
    ensures LittleEndian(22 - 9, 2) == [13, 0]
    ensures var timer: seq<byte> := [0x10, 0x00];
      timer + [0x19, 0x06] + [0x00, 0x00] == [0x10, 0x00, 0x19, 0x06, 0x00, 0x00]
  {
    DecodeHexBytes([0x19, 0x06]);
    DecodeHexBytes([0x00, 0x00]);
    LittleEndianPrefix(13, 8, 2);
  }

  /** The echo checks pass exactly when an 18-byte reply ends with the echo bytes of the request. */
  lemma EchoMatchesRequest(h: Station, resp: seq<byte>)
    requires WellFormed(h)
    ensures DecodeHex(BuildHealthCheckRequest(h)).Ok?
    ensures CheckEchoReply(resp).Pass?
        <==> |resp| == 18 && resp[11..] == DecodeHex(BuildHealthCheckRequest(h)).value[15..]
  {
    HealthCheckWire(h);
    if |resp| == 18 {
      assert resp[11..] == resp[11..13] + resp[13..];
      if resp[11..] == ECHO_COUNT + ECHO_DATA {
        assert resp[11..13] == resp[11..][..2];
        assert resp[13..] == resp[11..][2..];
      }
    }
  }

  /**
   * A health check of a well-formed station writes the 22-byte request once
   * when the connection takes the write, and otherwise fails with
   * `WriteFailed` having written nothing; it passes only on an 18-byte reply
   * taken from the front of what the PLC sent, echoing the request's last 7 bytes.
   */
  lemma HealthCheckRoundTrip(l: Link, h: Station)
    requires WellFormed(h)
    ensures DecodeHex(BuildHealthCheckRequest(h)).Ok?
    ensures var (l', r) := HealthCheckSpec(l, h);
      var request := DecodeHex(BuildHealthCheckRequest(h)).value;
      && (WriteAccepted(l) ==> l'.sent == l.sent + [request])
      && (!WriteAccepted(l) ==> l'.sent == l.sent && r == Fail(WriteFailed))
      && (r.Pass? ==>
            && |Pending(l.incoming)| >= 18
            && Pending(l.incoming)[11..18] == request[15..]
            && Pending(l.incoming) == Pending(l.incoming)[..18] + Pending(l'.incoming))
  {
    HealthCheckWire(h);
    ExchangeSpec(l, BuildHealthCheckRequest(h), HEALTH_CHECK_BUFFER);
    var (l', r) := Exchange(l, BuildHealthCheckRequest(h), HEALTH_CHECK_BUFFER);
    if r.Ok? && CheckEchoReply(r.value).Pass? {
      EchoMatchesRequest(h, r.value);
      var p := Pending(l.incoming);
      assert p == r.value + Pending(l'.incoming);
      assert p[..18] == r.value;
      assert p[11..18] == r.value[11..];
    }
  }

  /**
   * A word or bit read of a known device through a well-formed station
   * writes its 21-byte request once when the connection takes the write, and
   * otherwise fails with `WriteFailed` having written nothing; it returns at
   * most `22+2*numPoints` bytes (in int64 arithmetic).
   */
  lemma ReadExchange(l: Link, h: Station, deviceName: string, offset: int64, numPoints: int64, subCommand: string)
    requires WellFormed(h) && deviceName in DEVICE_CODES
    requires subCommand == READ_SUB_COMMAND || subCommand == BIT_READ_SUB_COMMAND
    requires ReadReplyBuffer(numPoints) >= 0
    ensures var f := BuildReadRequestHelper(h, deviceName, offset, numPoints, subCommand);
      && DecodeHex(f).Ok? && |DecodeHex(f).value| == 21
      && var (l', r) := Exchange(l, f, ReadReplyBuffer(numPoints));
      && (WriteAccepted(l) ==> l'.sent == l.sent + [DecodeHex(f).value])
      && (!WriteAccepted(l) ==> l'.sent == l.sent && r == Err(WriteFailed))
      && (r.Ok? ==> |r.value| <= ReadReplyBuffer(numPoints))
  {
    ConstantBytes();
    ReadFrameBytes(h, deviceName, offset, numPoints, subCommand);
    ExchangeSpec(l, BuildReadRequestHelper(h, deviceName, offset, numPoints, subCommand), ReadReplyBuffer(numPoints));
  }

  /**
   * A write sends its whole frame, 21 bytes of header, command and device
   * range followed by the `2*numPoints` data bytes, whatever the reply, when
   * the connection takes the write, and otherwise fails with `WriteFailed`
   * having written nothing; the reply is at most 22 bytes, the size of a 3E
   * response header with its end code.
   */
  lemma WriteExchange(l: Link, h: Station, deviceName: string, offset: int64, numPoints: int64, writeData: seq<byte>, subCommand: string)
    requires WellFormed(h) && deviceName in DEVICE_CODES
    requires subCommand == WRITE_SUB_COMMAND || subCommand == BIT_WRITE_SUB_COMMAND
    requires WriteSliceInBounds(numPoints, writeData)
    ensures var f := BuildWriteRequestHelper(h, deviceName, offset, numPoints, writeData, subCommand);
      && DecodeHex(f).Ok? && |DecodeHex(f).value| == 21 + WriteByteCount(numPoints) as int
      && DecodeHex(f).value[21..] == writeData[..WriteByteCount(numPoints)]
      && var (l', r) := Exchange(l, f, WRITE_REPLY_BUFFER);
      && (WriteAccepted(l) ==> l'.sent == l.sent + [DecodeHex(f).value])
      && (!WriteAccepted(l) ==> l'.sent == l.sent && r == Err(WriteFailed))
      && (r.Ok? ==> |r.value| <= 22)
  {
    ConstantBytes();
    WriteFrameBytes(h, deviceName, offset, numPoints, writeData, subCommand);
    ExchangeSpec(l, BuildWriteRequestHelper(h, deviceName, offset, numPoints, writeData, subCommand), WRITE_REPLY_BUFFER);
  }

  /** `client3E`: the station it addresses and the connection it holds (null until a dial succeeds). */
  class Client3E {
    const stn: Station
    var conn: Connection?

    constructor (stn: Station)
      ensures this.stn == stn && conn == null
    {
      this.stn := stn;
      this.conn := null;
    }

    /**
     * `New3EClient`: a client is returned only when connecting succeeds.
     * Dialling is outside the model; `dialed` is what the dial produced
     * (null when it failed).
     */
    static method New3EClient(stn: Station, dialed: Connection?) returns (c: Client3E?, err: Option<ClientError>)
      ensures dialed == null ==> c == null && err == Some(DialFailed)
      ensures dialed != null ==> err == None && c != null && fresh(c) && c.stn == stn && c.conn == dialed
    {
      var newClient := new Client3E(stn);
      err := newClient.Connect(dialed);
      if err.Some? {
        return null, err;
      }
      c := newClient;
    }

    /** `Connect`: keep the dialled connection, or report the failure and keep the old one. */
    method Connect(dialed: Connection?) returns (err: Option<ClientError>)
      modifies this
      ensures dialed == null ==> err == Some(DialFailed) && conn == old(conn)
      ensures dialed != null ==> err == None && conn == dialed
    {
      if dialed == null {
        return Some(DialFailed);
      }
      conn := dialed;
      err := None;
    }

    /** `ShutDown`: close the connection. */
    method ShutDown()
      requires conn != null
      modifies conn
      ensures conn.State() == old(conn.State()).(open := false)
    {
      conn.Close();
    }

    /**
     * `Reconnect`: the old connection is closed whatever the dial gives; the
     * one-second pause is outside the model. A dial yields a new connection,
     * never the one being closed.
     */
    method Reconnect(dialed: Connection?) returns (err: Option<ClientError>)
      requires conn != null && dialed != conn
      modifies this, conn
      ensures old(conn).State() == old(conn.State()).(open := false)
      ensures dialed == null ==> err == Some(DialFailed) && conn == old(conn)
      ensures dialed != null ==> err == None && conn == dialed && dialed.State() == old(dialed.State())
    {
      ShutDown();
      err := Connect(dialed);
    }

    method HealthCheck() returns (err: Outcome<ClientError>)
      requires conn != null
      modifies conn
      ensures (conn.State(), err) == HealthCheckSpec(old(conn.State()), stn)
    {
      var requestStr := BuildHealthCheckRequest(stn);
      var decoded := DecodeHex(requestStr);
      if decoded.Err? {
        return Fail(HexDecodeFailed(decoded.error));
      }
      var written := conn.Write(decoded.value);
      if !written {
        return Fail(WriteFailed);
      }
      var readBuff := new byte[HEALTH_CHECK_BUFFER];
      var readLen, ok := conn.Read(readBuff);
      if !ok {
        return Fail(ReadFailed);
      }
      var resp := readBuff[..readLen];
      err := CheckEchoReply(resp);
    }

    /** `readHelper`; Go's `make` panics on a negative size, hence the precondition. */
    method ReadHelper(requestStr: string, numPoints: int64) returns (r: Result<seq<byte>, ClientError>)
      requires conn != null && ReadReplyBuffer(numPoints) >= 0
      modifies conn
      ensures (conn.State(), r) == Exchange(old(conn.State()), requestStr, ReadReplyBuffer(numPoints))
    {
      r := Send(requestStr, ReadReplyBuffer(numPoints));
    }

    /** `writeHelper`: the reply is read into 22 bytes. */
    method WriteHelper(requestStr: string) returns (r: Result<seq<byte>, ClientError>)
      requires conn != null
      modifies conn
      ensures (conn.State(), r) == Exchange(old(conn.State()), requestStr, WRITE_REPLY_BUFFER)
    {
      r := Send(requestStr, WRITE_REPLY_BUFFER);
    }

    /** The decode, write and read that `readHelper` and `writeHelper` share. */
    method Send(requestStr: string, capacity: nat) returns (r: Result<seq<byte>, ClientError>)
      requires conn != null
      modifies conn
      ensures (conn.State(), r) == Exchange(old(conn.State()), requestStr, capacity)
    {
      var decoded := DecodeHex(requestStr);
      if decoded.Err? {
        return Err(HexDecodeFailed(decoded.error));
      }
      var written := conn.Write(decoded.value);
      if !written {
        return Err(WriteFailed);
      }
      var readBuff := new byte[capacity];
      var readLen, ok := conn.Read(readBuff);
      if !ok {
        return Err(ReadFailed);
      }
      r := Ok(readBuff[..readLen]);
    }

    method Read(deviceName: string, offset: int64, numPoints: int64) returns (r: Result<seq<byte>, ClientError>)
      requires conn != null && ReadReplyBuffer(numPoints) >= 0
      modifies conn
      ensures (conn.State(), r) == Exchange(old(conn.State()), BuildReadRequest(stn, deviceName, offset, numPoints), ReadReplyBuffer(numPoints))
    {
      r := ReadHelper(BuildReadRequest(stn, deviceName, offset, numPoints), numPoints);
    }

    method BitRead(deviceName: string, offset: int64, numPoints: int64) returns (r: Result<seq<byte>, ClientError>)
      requires conn != null && ReadReplyBuffer(numPoints) >= 0
      modifies conn
      ensures (conn.State(), r) == Exchange(old(conn.State()), BuildBitReadRequest(stn, deviceName, offset, numPoints), ReadReplyBuffer(numPoints))
    {
      r := ReadHelper(BuildBitReadRequest(stn, deviceName, offset, numPoints), numPoints);
    }

    method Write(deviceName: string, offset: int64, numPoints: int64, writeData: seq<byte>) returns (r: Result<seq<byte>, ClientError>)
      requires conn != null && WriteSliceInBounds(numPoints, writeData)
      modifies conn
      ensures (conn.State(), r) == Exchange(old(conn.State()), BuildWriteRequest(stn, deviceName, offset, numPoints, writeData), WRITE_REPLY_BUFFER)
    {
      r := WriteHelper(BuildWriteRequest(stn, deviceName, offset, numPoints, writeData));
    }

    method BitWrite(deviceName: string, offset: int64, numPoints: int64, writeData: seq<byte>) returns (r: Result<seq<byte>, ClientError>)
      requires conn != null && WriteSliceInBounds(numPoints, writeData)
      modifies conn
      ensures (conn.State(), r) == Exchange(old(conn.State()), BuildBitWriteRequest(stn, deviceName, offset, numPoints, writeData), WRITE_REPLY_BUFFER)
    {
      r := WriteHelper(BuildBitWriteRequest(stn, deviceName, offset, numPoints, writeData));
    }
  }
}
