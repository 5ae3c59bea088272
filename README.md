# MC protocol 3E client, modelled in Dafny

This project models the request side, the reply side and the client logic
of a Go client for the MELSEC communication protocol ("MC protocol") that
Mitsubishi PLCs speak over TCP. It uses the binary 3E frame.

- **Requests.** `station` builds each request as upper-case hex text in a
  fixed order:
  - the sub-header `5000`;
  - the station address (network, PC, unit I/O, unit station);
  - a 2-byte little-endian data length;
  - the monitoring timer `1000`, a command and a sub-command;
  - the request data (head device offset, device code, point count, and
    for writes the data bytes).

  There is a loopback (health check), a word and bit read, and a word and
  bit write.
- **Replies.** `parser_3E` and `parser_1E` cut a reply into hex-text
  header fields and a payload.
- **Client.** `client3E` does the following for each request:
  - decodes the request text to bytes;
  - writes them to its connection;
  - reads one reply into a buffer of fixed size and returns the part that
    was filled.

  The health check also compares the echoed count and data with what it
  asked for.

The model has these modules:

- `Wrappers`: `Option`, `Result` and `Outcome`. `Outcome` is an error-only
  return, like a Go function that returns only `error`.
- `Bytes`:
  - bytes and Go's `int64`, with its two's-complement wrap-around written
    out (`WrapInt64`);
  - the little-endian bytes that `binary.Write` produces for an `int64`.
- `Hex`:
  - `%X` on a byte slice (two digits per byte) and on a single byte (no
    leading zero);
  - `hex.DecodeString`, including its errors: the first bad character wins,
    and an odd length is reported only after every full pair decoded.
- `Station`: the encoder, as pure functions. It also has a reference layout
  `Frame3E`, whose length field is by definition the byte count of the body
  after it. Lemmas tie every builder to that layout, to its length field and
  to its bytes on the wire.
- `ResponseParser`: both parsers, as pure functions returning a `Result`.
- `Transport`: the TCP connection, as a class with four parts:
  - open or closed;
  - the chunks the peer will deliver;
  - how the peer will take the coming writes: each one taken or refused;
  - the log of written buffers.

  `Read` copies into the caller's array. Pure step functions (`SendStep`,
  `ReceiveStep`) specify each method.
- `Client`:
  - the health-check reply validator `CheckEchoReply`;
  - the exchange every request performs (`Exchange`);
  - the class `Client3E`, with its `conn` field and its methods.

  Each method is tied to `Exchange` or `HealthCheckSpec`. The lemmas about
  those functions state what the client sends and what it can return.

Three behaviours of the code that a reader of the protocol might not expect:

- A 22-byte 3E reply is accepted with an 11-byte payload, not an empty one.
  The payload starts at byte 11.
- A 1E end code of 0x00 is the text `"0"`, because `%X` on a single byte has
  no leading zero.
- An unknown device name yields an empty device code, not an error. The read
  frame is then 2 characters shorter and its length field is 11.

## Model

| member | source | states |
|---|---|---|
| Bytes.WrapInt64 | mcp/client.go:136 | Go's int64 result is congruent to the true value modulo 2^64, and equal to it when it fits |
| Bytes.LittleEndian | mcp/station.go:147-149 | `binary.Write` of an int64 cut to n bytes: n bytes, low byte first; the value is exact by `LittleEndianValue` and `LittleEndianOfValue` |
| Bytes.LittleEndianValue | mcp/station.go:147-149 | keeping n little-endian bytes keeps exactly the value modulo 256^n, negative values included |
| Bytes.LittleEndianOfValue | mcp/station.go:152-154 | every byte sequence is the little-endian encoding of the number it denotes |
| Bytes.LittleEndianPrefix | mcp/station.go:149 | the first m bytes of the 8-byte int64 buffer are the m-byte encoding |
| Bytes.LittleEndianCongruent | mcp/station.go:212-215 | values equal modulo 256^n have the same n low bytes |
| Bytes.WrapKeepsLow16 | mcp/station.go:212-215 | int64 wrap-around leaves the value modulo 2^16 unchanged, so a wrapped length field is still right |
| Hex.HexDigit | mcp/station.go:82 | the digit for a value below 16 is upper-case and decodes back to that value |
| Hex.DigitValue | mcp/client.go:53 | exactly 0-9, a-f and A-F are digits, with values below 16 |
| Hex.HexByte | mcp/station.go:82 | `%X` of one byte of a slice: always two digits, high nibble first; decoded back by `DecodeHexByte` |
| Hex.HexBytes | mcp/station.go:82 | `%X` on a byte slice: two characters per byte; inverted by `DecodeHexBytes`, injective by `HexBytesInjective` |
| Hex.HexBytesUpper | mcp/station.go:82 | `%X` on a byte slice writes only upper-case digits |
| Hex.HexUnpadded | mcp/response_parser.go:89-90 | `%X` on one byte gives 1 digit below 16 and 2 otherwise, upper-case, denoting the byte |
| Hex.DecodeHex | mcp/client.go:53 | accepted text holds two characters per decoded byte |
| Hex.DecodeHexSucceeds | mcp/client.go:53-56 | decoding succeeds exactly for even-length text made only of hex digits |
| Hex.DecodeHexByte | mcp/client.go:53 | `%X` of one byte decodes back to that byte |
| Hex.DecodeHexBytes | mcp/client.go:53 | decoding inverts `%X` on any byte slice |
| Hex.HexBytesOfDecoded | mcp/response_parser.go:66-72 | upper-case hex text that decodes is reproduced by `%X` of its bytes |
| Hex.HexBytesInjective | mcp/client.go:77-82 | two byte slices have equal `%X` text exactly when they are equal |
| Hex.HexBytesAppend | mcp/station.go:162-173 | `%X` of a concatenation is the concatenation of the `%X` texts |
| Hex.DecodeHexAppend | mcp/client.go:53 | text split after an even number of characters decodes iff both parts do, to the concatenated bytes |
| Station.DeviceCode | mcp/station.go:143 | the map lookup gives "" exactly for unknown names, and 2 upper-case digits otherwise |
| Station.DeviceByte | mcp/station.go:28-38 | a byte code exists exactly for the nine device letters |
| Station.DeviceCodeTable | mcp/station.go:28-38 | the text table holds exactly `%X` of each device's byte code |
| Station.NewStation | mcp/station.go:52-59 | the given fields reach the routing header verbatim and in order |
| Station.NewLocalStation | mcp/station.go:62-69 | the local station is well formed, and its routing header decodes to 50 00 00 FF FF 03 00 |
| Station.ConstantBytes | mcp/station.go:15-22 | the read and write commands and the word and bit sub-commands decode to their wire bytes |
| Station.RoutingHeaderBytes | mcp/station.go:84-88 | a well-formed station's header is 14 characters and decodes to 7 bytes: 50 00 then the four address fields |
| Station.Int64FieldValue | mcp/station.go:147-154 | a k-byte integer field is 2k upper-case digits that decode to v mod 256^k, little-endian |
| Station.Frame3EDataLength | mcp/station.go:157-160 | the length field decodes to the little-endian count of the bytes after it, kept mod 2^16 |
| Station.Frame3ELengthField | mcp/station.go:157-160 | for a body of v bytes the frame is 4+2v characters past the header, and its length field decodes to v |
| Station.Frame3EWire | mcp/station.go:162-173 | for a well-formed station a frame decodes to header, length, 10 00, command, sub-command and data bytes, with the length equal to the bytes that follow |
| Station.Frame3EBodyBytes | mcp/station.go:168-173 | the body decodes to 10 00, command, sub-command and data, half its character count |
| Station.BuildHealthCheckRequest | mcp/station.go:71-92 | modelled as written; its partners `HealthCheckFrame` and `Client.HealthCheckWire` give its reference layout and its 22 bytes |
| Station.BuildReadRequest | mcp/station.go:129-131 | the word read is the helper with sub-command "0000"; compared with the bit read by `ReadWordBitDiffer` |
| Station.BuildBitReadRequest | mcp/station.go:137-139 | the bit read is the helper with sub-command "0100"; compared with the word read by `ReadWordBitDiffer` |
| Station.BuildReadRequestHelper | mcp/station.go:141-174 | modelled as written, length computed with the word sub-command; its partners `ReadFrame`, `ReadDataLength` and `ReadFrameBytes` give its layout, length field and bytes |
| Station.WriteByteCount | mcp/station.go:204 | Go's int64 `2*numPoints`: congruent to the true product modulo 2^64, equal to it when it fits |
| Station.BuildWriteRequest | mcp/station.go:176-178 | the word write is the helper with sub-command "0000"; compared with the bit write by `WriteWordBitDiffer` |
| Station.BuildBitWriteRequest | mcp/station.go:180-182 | the bit write is the helper with sub-command "0100"; compared with the word write by `WriteWordBitDiffer` |
| Station.BuildWriteRequestHelper | mcp/station.go:191-229 | modelled as written, length computed with the word sub-command; its partners `WriteFrame`, `WriteDataLength` and `WriteFrameBytes` give its layout, length field and bytes |
| Station.HealthCheckDataLen | mcp/station.go:76-82 | the loopback body is 13 bytes and its length field is "0D00" |
| Station.HealthCheckFrame | mcp/station.go:71-92 | the loopback request is the reference frame for 1906/0000 carrying the echo count "0500" and data "4142434445" |
| Station.ReadFrame | mcp/station.go:141-174 | a read request is the reference frame for command 0104 with the sub-command, then offset, device code and count |
| Station.WriteFrame | mcp/station.go:191-229 | a write request is the reference frame for command 0114 with the device range, then `%X` of the first 2*numPoints data bytes |
| Station.ReadWordBitDiffer | mcp/station.go:129-139 | word and bit reads have equal length, agree outside the 4 sub-command characters, and hold "0000" and "0100" there |
| Station.WriteWordBitDiffer | mcp/station.go:176-182 | word and bit writes have equal length, agree outside the 4 sub-command characters, and hold "0000" and "0100" there |
| Station.ReadDataLength | mcp/station.go:143-160 | a read's length field is "0C00" for any offset and count with a known device and "0B00" with an unknown one, and the frame is that long |
| Station.WriteBodyLength | mcp/station.go:212 | a write body carrying k data bytes is 11+k bytes, plus 1 for a known device |
| Station.WriteFrameLength | mcp/station.go:212-228 | after the length field a write frame has 11 bytes, 1 more for a known device, and the 2*numPoints data bytes |
| Station.WriteLengthField | mcp/station.go:212-215 | a write's length field decodes to the body length computed with the wrapped 2*numPoints |
| Station.WrappedLengthField | mcp/station.go:204-215 | computing the length with the wrapped or the true 2*numPoints gives the same 2 bytes, denoting the count mod 2^16 |
| Station.WriteDataLength | mcp/station.go:204-215 | a write's length field decodes to 12+2*numPoints (11+ for an unknown device), mod 2^16 |
| Station.WriteDataSuffix | mcp/station.go:201-228 | a write frame ends with `%X` of exactly the first 2*numPoints data bytes, which decode back in order |
| Station.WriteUsesDataPrefix | mcp/station.go:189-204 | two writes with the same arguments give the same frame iff their data agree on the first 2*numPoints bytes |
| Station.DeviceRangeBytes | mcp/station.go:143-154 | with a known device the request data decode to offset mod 2^24, the device byte, and count mod 2^16 |
| Station.ReadFrameBytes | mcp/station.go:141-174 | a well-formed station's read of a known device is 21 bytes: header, 0C 00, 10 00 01 04, sub-command, offset, device, count |
| Station.WriteRequestDataBytes | mcp/station.go:193-209 | with a known device a write's request data decode to offset mod 2^24, the device byte, count mod 2^16, then the first 2*numPoints data bytes |
| Station.WriteFrameBytes | mcp/station.go:191-229 | a well-formed station's write of a known device is 21+2*numPoints bytes: header, 12+2*numPoints mod 2^16, 10 00 01 14, sub-command, offset, device, count, then the data bytes |
| Station.LocalReadFrame | mcp/station.go:129-173 | the local station's read of a known device is 42 hex characters that decode to 21 bytes |
| ResponseParser.NewParser | mcp/response_parser.go:18-27 | Frame1E selects the 1E parser and Frame3E the 3E parser |
| ResponseParser.Process | mcp/response_parser.go:8-10 | the selected parser refuses exactly below 22 bytes (3E) or below 3 (1E); an accepted reply has a non-empty payload shorter than the buffer and no error info |
| ResponseParser.Process3E | mcp/response_parser.go:51-75 | refused exactly below 22 bytes; an accepted reply has a payload of at least 11 bytes and no error info |
| ResponseParser.Process1E | mcp/response_parser.go:79-93 | refused at up to 2 bytes: too short below 2, the PLC error code with both bytes at exactly 2; otherwise the payload is the non-empty rest |
| ResponseParser.Process3EFields | mcp/response_parser.go:56-72 | each header field is the upper-case `%X` of its byte range, 4/2/2/4/2/4/4 characters wide |
| ResponseParser.HeaderText3EBytes | mcp/response_parser.go:56-72 | the seven header texts in order are `%X` of the first 11 bytes |
| ResponseParser.Process3ERoundTrip | mcp/response_parser.go:56-74 | decoding the header texts and appending the payload gives back the buffer |
| ResponseParser.Process3EInjective | mcp/response_parser.go:56-74 | two accepted buffers give the same response iff they are equal |
| ResponseParser.Process3EIgnoresEndCode | mcp/response_parser.go:62-74 | buffers differing only in the end-code bytes are accepted alike and parse the same apart from the end-code text |
| ResponseParser.Process1ERoundTrip | mcp/response_parser.go:88-92 | the two 1E header texts are numerals of the first two bytes, the payload is the rest, and the other fields are empty |
| ResponseParser.Process1EShortEndCode | mcp/response_parser.go:90 | a 1E end code of 0x00 is the one-character text "0" |
| ResponseParser.NewParserThresholds | mcp/response_parser.go:18-27 | the parser each version selects refuses exactly below 22 bytes (3E) or at 2 bytes or fewer (1E) |
| ResponseParser.Process1EExamples | mcp/response_parser.go:79-93 | [12 34] is the PLC error 1234, and [5A 00 FF] parses to sub-header "5A", end code "0", payload [FF] |
| ResponseParser.Process3EMinimum | mcp/response_parser.go:52-63 | a 22-byte reply is accepted with an 11-byte payload, and its first 21 bytes are refused |
| Transport.SendStep | mcp/client.go:131 | `conn.Write` on the connection state: a closed connection fails, an open one takes or refuses the write as the peer's next outcome says; its partners `SendStepSpec`, `WriteRefusedWhileOpen` and `WriteThenRead` state the outcome and that the reading side is left alone |
| Transport.WriteRefusedWhileOpen | mcp/client.go:131-133 | an open connection can refuse a write, logging nothing and staying open, and then take the next one |
| Transport.ReceiveStep | mcp/client.go:137 | `conn.Read` on the connection state; its partner `ReceiveStepSpec` shows it loses and reorders no byte |
| Transport.ReceiveStepSpec | mcp/client.go:137-142 | a read returns at most the buffer size, loses and reorders no pending byte, fails exactly when closed, exhausted or broken, and on a zero-length buffer of an open connection returns nothing at once and changes nothing |
| Transport.WriteThenRead | mcp/client.go:131-137 | a write, taken or refused, changes neither what the next read returns nor what it leaves pending, and the read keeps the write's log |
| Transport.ReceiveStepProgress | mcp/client.go:137 | an open connection with data ready fills a non-empty buffer with at least one byte |
| Transport.Connection.constructor | mcp/client.go:91-96 | a dialled connection is open, with nothing written, and the peer's replies and write outcomes given |
| Transport.Connection.Write | mcp/client.go:131 | the new state and the success flag are the write step's |
| Transport.Connection.Read | mcp/client.go:137-142 | the new state is the read step's; the returned bytes are copied to the front of the buffer and the rest of the buffer is unchanged |
| Transport.Connection.Close | mcp/client.go:180-182 | closing changes only the open flag |
| Client.EchoText | mcp/client.go:77-82 | "0500" and "4142434445" are `%X` of the echo count 05 00 and of "ABCDE", and decode to those bytes |
| Client.EchoDataText | mcp/client.go:82 | "4142434445" is `%X` of the bytes of "ABCDE" |
| Client.ReadReplyBuffer | mcp/client.go:136 | Go's int64 `22+2*numPoints`: congruent to the true sum modulo 2^64, equal to it when it fits, and then negative exactly below -11 points |
| Client.CheckEchoReply | mcp/client.go:70-86 | the reply passes iff it is 18 bytes with 05 00 at [11,13) and "ABCDE" at [13,18); the length, header and body failures are distinct and carry the offending bytes |
| Client.Exchange | mcp/client.go:123-143 | decode, write, one read, in the order the helpers do them; its partner `ExchangeSpec` states what is written and what can come back |
| Client.ExchangeSpec | mcp/client.go:123-143 | a decode error writes nothing; a write the connection takes logs the decoded bytes exactly once, and one it refuses logs nothing and fails with `WriteFailed` before any read; a reply is at most the buffer size and is the front of what the peer sent |
| Client.HealthCheckSpec | mcp/client.go:49-87 | the exchange of the loopback request with a 30-byte buffer, followed by the echo check; its partner `HealthCheckRoundTrip` states what passes |
| Client.HealthCheckWire | mcp/client.go:50-59 | for a well-formed station the loopback request decodes, and is 22 bytes ending with the echo count and data |
| Client.EchoMatchesRequest | mcp/client.go:72-84 | the echo checks pass iff an 18-byte reply's bytes from 11 on equal the request's last 7 bytes |
| Client.HealthCheckRoundTrip | mcp/client.go:49-87 | the loopback request is written once when the connection takes the write, and otherwise the check fails with `WriteFailed` having written nothing; a pass means the first 18 pending bytes were read and echo the request |
| Client.ReadExchange | mcp/client.go:110-143 | a read of a known device writes its 21-byte request once when the connection takes the write, fails with `WriteFailed` having written nothing otherwise, and returns at most 22+2*numPoints bytes (int64 arithmetic) |
| Client.WriteExchange | mcp/client.go:152-178 | a write of a known device writes its request, 21 bytes then the first 2*numPoints data bytes, exactly once whatever the reply when the connection takes the write, fails with `WriteFailed` having written nothing otherwise; the reply is at most 22 bytes |
| Client.Client3E.constructor | mcp/client.go:37 | a new client holds its station and no connection |
| Client.Client3E.New3EClient | mcp/client.go:32-45 | a client is returned exactly when the dial succeeded, holding that connection; otherwise no client and the dial error |
| Client.Client3E.Connect | mcp/client.go:89-98 | a successful dial replaces the connection; a failed one reports the error and keeps the old one |
| Client.Client3E.ShutDown | mcp/client.go:180-182 | the connection is closed and nothing else about it changes |
| Client.Client3E.Reconnect | mcp/client.go:100-104 | the old connection ends closed in every case; a successful dial installs the new connection untouched; a failed one keeps the closed old one |
| Client.Client3E.HealthCheck | mcp/client.go:49-87 | the new connection state and the result are those of `HealthCheckSpec` |
| Client.Client3E.Send | mcp/client.go:125-142 | the new connection state and the result are those of `Exchange` with the given buffer size |
| Client.Client3E.ReadHelper | mcp/client.go:123-143 | `Exchange` with a buffer of 22+2*numPoints, computed in int64 |
| Client.Client3E.WriteHelper | mcp/client.go:160-178 | `Exchange` with a 22-byte buffer |
| Client.Client3E.Read | mcp/client.go:110-112 | the exchange of the word read request |
| Client.Client3E.BitRead | mcp/client.go:119-121 | the exchange of the bit read request |
| Client.Client3E.Write | mcp/client.go:152-154 | the exchange of the word write request, with the write reply buffer |
| Client.Client3E.BitWrite | mcp/client.go:156-158 | the exchange of the bit write request, with the write reply buffer |

## Left out

- `BuildMultiReadRequest` (mcp/station.go:94-123) is not modelled. It states no coherent behaviour:
  - its length guard compares a bool with an int and has an empty body;
  - it uses the device count as the data length;
  - it writes offset bytes where the point count belongs.
- `BuildAccessPath` (mcp/station.go:231-233) is an empty stub.
- Dialling, the address string `tcpAddr`, the 3-second dial timeout and the one-second pause in `Reconnect` are left out.
  - A dial's outcome is a parameter: the new connection, or null when it failed.
  - A dial is taken to yield a connection other than the one being closed.
- The `keep_alive` parameter of `New3EClient` is left out; the code ignores it.
- Go's TCP semantics are reduced to three things: a write on a closed connection fails, and on an open one takes the whole buffer or is refused, as a queue of outcomes the peer decides says (a refused write logs nothing and leaves the connection open); a read into a zero-length buffer of an open connection returns nothing at once; any other read returns the next chunk cut to the buffer size or fails. Time, partial writes and concurrent use are not modelled.
- Error-message texts are left out. Errors are tagged values that carry the bytes the message would show.
- The `DeviceCodes` map is mutable in Go; here it is a constant.
- The nil result of `NewParser` for an unknown frame version is unreachable here. `FrameVersion` is defined outside the modelled files, and the model gives it just the two versions.
- A health check, read or write on a client with no connection would dereference nil in Go. This is a precondition (`conn != null`).
- A negative read-buffer size makes Go's `make` panic. This is the precondition of `ReadHelper`.
- Go bounds the slice `writeBuff.Bytes()[0:2*numPoints]` by the buffer's capacity, not its length. A `bytes.Buffer` holding 1 to 64 bytes has a capacity of 64, so shorter data is zero-padded up to that capacity: `BuildWriteRequest` for "D", offset 0, one point and data [AB] writes "AB00" with length field "0E00". The write builders' precondition `WriteSliceInBounds` excludes data shorter than 2*numPoints, so such padded frames, and the panic beyond the capacity, are not modelled.
- Strings are sequences of characters, each standing for one byte. Non-ASCII station fields or device names are not given Go's UTF-8 byte lengths.
- No lemma evaluates a full frame literal, such as the local station's whole 42-character read request. `Station.LocalReadFrame` and `Station.ReadFrameBytes` state its length and bytes symbolically instead.
