# Nexel handshake codecs and routing rules, in Dafny

Nexel is a proxy that speaks SOCKS4, SOCKS5 (RFC 1928) and HTTP CONNECT
(section 9.3.6 of RFC 9110) to its clients. This project models three parts
of it and proves properties of the model:

- **The incremental request parser and reply builder** (`src/protocol.rs`,
  modules `Inbound`, `InboundParse`, `InboundReply`, `InboundVectors`).
  `Inbound.BufReader` reads through a `Cursors.Cursor`; like the source's
  `BufReader`, every successful read appends exactly the bytes it consumed to
  `buffer`, so a request's `raw` is the consumed input. `InboundParse`
  dispatches on the first byte (4, 5 or `'C'`) to the SOCKS4, SOCKS5 or
  HTTP CONNECT parser. `Incomplete` means "more bytes are needed", and
  `PreCheck` turns exactly that error into "no frame yet". `InboundReply.Reply`
  is the class whose `buffer` receives the auth, success and error frames,
  one frame layout per version.
- **The cursor-only codec** (`src/protocol/mod.rs`, `v4.rs`, `v5.rs`;
  modules `Codec`, `CodecV4`, `CodecV5`, `CodecDispatch`). It has
  fixed-width big-endian readers, NUL-terminated strings, the method and
  command tables, and both directions of SOCKS4 and SOCKS5. Each cursor
  method is proved against a pure `Decode*` function that returns the
  result together with the new cursor position. The serialisers are models
  of the stream writes: functions that return the bytes written. Encode and
  decode round-trips are proved for all of them, except that an IPv6
  address reads back only with the corrected 16-byte read: `get_u128` as
  written answers `Incomplete` for it (see "Findings").
- **The rule engine** (`src/rule.rs`, module `Rules`).
  `Rules.RuleTables` holds the five tables as map fields.
  - `Initial` loads `KIND,CONTENT,ROUTING` lines in a loop. Its result is
    the pure fold `ApplyLines`.
  - `Domain` and `Ip` answer a query. Each is proved to return an answer
    allowed by the relations `DomainAnswer` and `IpAnswer`, which say:
    exact → suffix → keyword → the first resolved address, and
    CIDR block → GeoIP `"CN"` → Proxy.
  - A CIDR block contains an address when both agree on the prefix bits.
    The model writes this as equal quotients by `2^(width - prefix)`, and
    `CidrContainsRange` proves it is the usual range test.

The two request parsers are two versions of the same module that coexist
in the repository. They are modelled as separate modules, each with its own
error type: `Errors.Error` (src/error.rs) for the codec and `Inbound.Error`
for src/protocol.rs, whose `AddrTypeUnsupported` carries a byte.
`ReqCmd::from_u8` of src/protocol.rs:23-32 is the same table as the one in
src/protocol/mod.rs, so `Codec.ReqCmdFromU8` models both.

Where one might expect other behaviour, the model follows the code:

- exact domain match is case-sensitive;
- the suffix test is a plain `ends_with`, with no label boundary;
- among several matching table entries, the answer is any one of them (the
  source iterates a `HashMap`), not the first rule in file order;
- kinds other than `DOMAIN`, `DOMAIN-SUFFIX`, `DOMAIN-KEYWORD`, `IP-CIDR` and
  `IP-CIDR6` (for example `MATCH` and `GEOIP`) are skipped;
- src/protocol.rs reports an unknown SOCKS4 or SOCKS5 command as
  `UnknownCmd(4)` or `UnknownCmd(5)`, and an unknown SOCKS5 address type as
  `AddrTypeUnsupported(5)`: the version, not the byte read;
- `send_addr` in v5.rs cuts a domain to 255 bytes, while `write_addr` in
  protocol.rs writes its length modulo 256.

Byte values are `Bytes.u8` (and `u16`, `u32`, `u128`). Rust `String`s on the
wire are modelled by their UTF-8 bytes; `String::from_utf8` is the predicate
`Bytes.ValidUtf8`. Rule files are Dafny `string`s.

## Model

| member | source | states |
|---|---|---|
| Bytes.BeValueOfBeBytes | src/protocol/mod.rs:193-212 | writing a value below 256^n as n big-endian bytes and reading them back gives the value |
| Bytes.BeBytesOfBeValue | src/protocol/mod.rs:193-212 | reading n bytes big-endian and writing the value back gives the same bytes |
| Bytes.BeWidthRoundTrip | src/protocol/v5.rs:26-52 | for 2, 4 and 16 bytes, the big-endian value fits the width and `write_u16/u32/u128` of it gives the same bytes back |
| Bytes.U16Be | src/protocol/v5.rs:50 | `write_u16` writes 2 bytes whose big-endian value is the port |
| Bytes.U32Be | src/protocol/v5.rs:40-42 | `write_u32` writes 4 bytes whose big-endian value is the address |
| Bytes.U128Be | src/protocol/v5.rs:44-46 | `write_u128` writes 16 bytes whose big-endian value is the address |
| Bytes.ValidUtf8Prefix | src/protocol/v5.rs:33-35 | cutting valid UTF-8 where no continuation byte follows leaves valid UTF-8, so `&domain[..len]` of a well-formed name is a string |
| Cursors.ReadUntil | src/protocol/mod.rs:227-239 | the chunk taken runs up to and including the first `c`, or to the end of the data; it is empty only when nothing remains |
| Cursors.ReadUntilAt | src/protocol/mod.rs:227-239 | when the first `c` after the cursor is at index k, the chunk is `data[pos..k+1]` |
| Cursors.Cursor.constructor | src/protocol.rs:249 | a new cursor is at position 0 over the given bytes |
| Cursors.Cursor.Remaining | src/protocol/mod.rs:194 | position plus remaining bytes is the length of the data |
| Cursors.Cursor.ReadUntilByte | src/protocol/mod.rs:229 | the cursor advances by exactly the chunk `ReadUntil` describes |
| Codec.MethodFromU8 | src/protocol/mod.rs:40-51 | each range of section 3 of RFC 1928, in both directions: 0, 1, 2 named; 0x03-0x7F IANA-assigned; 0x80-0xFE private; 0xFF none |
| Codec.MethodRoundTrip | src/protocol/mod.rs:32-51 | every method decodes from its own byte |
| Codec.ReqCmdFromU8 | src/protocol/mod.rs:81-90 | defined exactly on 1, 2, 3, and the command found has that byte as its discriminant |
| Codec.ReqCmdRoundTrip | src/protocol/mod.rs:64-90 | the table inverts the discriminant cast, and a byte decodes to a command iff it is that command's byte |
| Codec.SendReplyAuth | src/protocol/mod.rs:23-29 | the method-selection reply is two bytes: 5, then the chosen method's discriminant (3 for IANA-assigned, 0x80 for private), which decodes back to that method |
| Codec.UnwrapV4 | src/protocol/mod.rs:160-165 | succeeds iff the reply code is a SOCKS4 one and returns it; otherwise `InvalidCmd` |
| Codec.UnwrapV5 | src/protocol/mod.rs:167-172 | succeeds iff the reply code is a SOCKS5 one and returns it; otherwise `InvalidCmd` |
| Codec.DecodeU8 | src/protocol/mod.rs:186-191 | `Incomplete` with the cursor unmoved when no byte remains, else the next byte and one step |
| Codec.DecodeU16 | src/protocol/mod.rs:193-198 | `Incomplete` with the cursor unmoved when fewer than 2 bytes remain, else their big-endian value and two steps |
| Codec.DecodeU32 | src/protocol/mod.rs:200-205 | `Incomplete` with the cursor unmoved when fewer than 4 bytes remain, else their big-endian value and four steps |
| Codec.DecodeU128AsWritten | src/protocol/mod.rs:207-212 | as written: `Incomplete` unless 128 bytes remain, else the big-endian value of the next 16 and sixteen steps |
| Codec.U128AsWrittenRejectsAddress | src/protocol/mod.rs:207-212 | with 16 to 127 bytes left, the 16-byte read that should succeed is `Incomplete` as written |
| Codec.DecodeU128 | src/protocol/mod.rs:207-212 | corrected: `Incomplete` unless 16 bytes remain, else their big-endian value and sixteen steps |
| Codec.DecodeNBytes | src/protocol/mod.rs:214-225 | exactly the next n bytes and n steps, or `Incomplete` with nothing consumed, iff fewer than n remain |
| Codec.DecodeUntil | src/protocol/mod.rs:227-239 | on success the bytes consumed are the value followed by a 0; on failure the error is `Incomplete` |
| Codec.DecodeUntilNul | src/protocol/mod.rs:227-239 | with a 0 ahead: the bytes before the first 0, which contain no 0, and the cursor past it; with none: `Incomplete` at the end of the data |
| Codec.DecodeUntilAt | src/protocol/mod.rs:227-239 | when the first 0 is at index k, the value is `data[pos..k]` and the cursor is at k+1 |
| Codec.DecodeUntilTestsNul | src/protocol/mod.rs:234 | the terminator tested is 0, not the argument: a chunk ending in `c = 5` is `Incomplete` and one ending in 0 succeeds |
| Codec.GetU8 | src/protocol/mod.rs:186-191 | the cursor method returns and advances as `DecodeU8` says |
| Codec.GetU16 | src/protocol/mod.rs:193-198 | the cursor method returns and advances as `DecodeU16` says |
| Codec.GetU32 | src/protocol/mod.rs:200-205 | the cursor method returns and advances as `DecodeU32` says |
| Codec.GetU128 | src/protocol/mod.rs:207-212 | as written: the cursor method returns and advances as `DecodeU128AsWritten` says, `Incomplete` unless 128 bytes remain |
| Codec.GetNBytes | src/protocol/mod.rs:214-225 | the `while n > 0` loop returns and advances as `DecodeNBytes` says |
| Codec.GetUntil | src/protocol/mod.rs:227-239 | the cursor method returns and advances as `DecodeUntil` says |
| CodecDispatch.DecodeReq | src/protocol/mod.rs:179-184 | the request has the version asked for; a SOCKS4 one has an IPv4 destination and a user id, a SOCKS5 one exactly one of address and domain |
| CodecDispatch.ParseReq | src/protocol/mod.rs:179-184 | the cursor method returns and advances as `DecodeReq` says |
| CodecDispatch.ParseAuthReq | src/protocol/mod.rs:175-177 | the cursor method returns and advances as `CodecV5.DecodeAuthReq` says |
| CodecDispatch.SendReply | src/protocol/mod.rs:132-139 | the frame starts with the version byte (0 for SOCKS4, 5 for SOCKS5); it fails only on a code of the other version, an IPv6 SOCKS4 address, or a SOCKS5 reply with no address |
| CodecDispatch.SendReplyRoundTrip | src/protocol/mod.rs:132-139 | the reply parser of the reply's version reads the frame back as the reply, with the address dropped when a domain was sent; a SOCKS5 IPv6 reply is `Incomplete` for the parser as written and reads back, address then port, with the corrected address read |
| CodecV4.ReplyCmdFromU8 | src/protocol/v4.rs:58-68 | defined exactly on 90..93, and the code found has that byte |
| CodecV4.ReplyCmdRoundTrip | src/protocol/v4.rs:40-68 | every SOCKS4 reply code decodes from its own byte |
| CodecV4.DecodeAddr | src/protocol/v4.rs:108-112 | `Incomplete` iff fewer than 6 bytes remain; else a big-endian port, then a big-endian IPv4 address, and six steps |
| CodecV4.DecodeReq | src/protocol/v4.rs:70-88 | an unknown command byte b gives `UnknownCmd(b)`; a request has command, port and IPv4 address from their bytes, no domain, and as user id the UTF-8 bytes before the NUL it consumed |
| CodecV4.DecodeReqErrors | src/protocol/v4.rs:70-88 | the errors are `Incomplete`, invalid UTF-8 and `UnknownCmd`; `Incomplete` exactly when no byte remains, or the command is known and the 6 port and address bytes or a NUL after them are missing; with a NUL after them, the cursor ends past the first one and the result is the UTF-8 error exactly when the user id is not UTF-8 |
| CodecV4.DecodeReply | src/protocol/v4.rs:90-106 | succeeds iff 7 bytes remain and the code is 90..93; an unknown code b gives `UnknownCmd(b)`; the reply has an IPv4 bind address and no domain |
| CodecV4.ParseAddr | src/protocol/v4.rs:108-112 | the cursor method returns and advances as `DecodeAddr` says |
| CodecV4.ParseReq | src/protocol/v4.rs:70-88 | the cursor method returns and advances as `DecodeReq` says |
| CodecV4.ParseReply | src/protocol/v4.rs:90-106 | the cursor method returns and advances as `DecodeReply` says |
| CodecV4.SendReq | src/protocol/v4.rs:9-24 | as written: fails with `NotIpV4Addr` iff the destination is IPv6 |
| CodecV4.SendReply | src/protocol/v4.rs:26-37 | fails iff the code is not a SOCKS4 one or the address is IPv6 |
| CodecV4.SendReqRoundTrip | src/protocol/v4.rs:9-24 | with a NUL-free UTF-8 user id, `parse_req` after the version byte reads back the request and consumes all of it |
| CodecV4.SendReqWithoutUserIdIsIncomplete | src/protocol/v4.rs:18-21 | as written, a request without a user id is sent with no NUL and parses back as `Incomplete` |
| CodecV4.SendReqTerminated | src/protocol/v4.rs:9-24 | corrected: the same errors, and a sent request always ends in a NUL |
| CodecV4.SendReqTerminatedRoundTrip | src/protocol/v4.rs:9-24 | corrected: every IPv4 request reads back, a missing user id as the empty one |
| CodecV4.SendReplyRoundTrip | src/protocol/v4.rs:26-37 | an IPv4 SOCKS4 reply is 8 bytes starting with 0, and `parse_reply` after that byte reads it back |
| CodecV4.ParseReqTestVector | src/protocol/v4.rs:122-137 | the test frame parses to Connect 192.168.1.1:443 with user id `"ABC"` |
| CodecV4.ParseReqTestVectorCut | src/protocol/v4.rs:142-156 | the test frame without its trailing 0 is `Incomplete` |
| CodecV5.ReplyCmdFromU8 | src/protocol/v5.rs:67-82 | defined exactly on 0..8, and the code found has that byte |
| CodecV5.ReplyCmdRoundTrip | src/protocol/v5.rs:55-82 | every SOCKS5 reply code decodes from its own byte |
| CodecV5.DecodeAuthReq | src/protocol/v5.rs:100-105 | succeeds iff the count byte is present and that many bytes follow; a count of 0 gives no methods, otherwise exactly the next count bytes; the only error is `Incomplete` |
| CodecV5.DecodeAuthReply | src/protocol/v5.rs:107-113 | `ServerRefusedAuth` exactly for 0xFF; otherwise the method of that byte, in one step |
| CodecV5.DecodeAddr | src/protocol/v5.rs:135-145 | any type but 1, 3, 4 gives `AddrTypeUnsupported`; type 1 is four address bytes, 3 a length-prefixed UTF-8 name, 4 sixteen address bytes but only when 128 bytes remain after the type byte (`get_u128` as written); `Incomplete` exactly when the type byte, the address or the name is cut off or fewer than 128 bytes follow a type 4; the UTF-8 error exactly for a complete name that is not UTF-8; exactly one of address and domain is set |
| CodecV5.DecodeAddrCorrected | src/protocol/v5.rs:135-145 | corrected: the same as `DecodeAddr` except for type 4, which is `Incomplete` exactly when fewer than 16 address bytes remain and otherwise reads them as the IPv6 address |
| CodecV5.AddrCorrectedExtends | src/protocol/mod.rs:207-212 | the corrected read agrees with the as-written one wherever that succeeds, and differs exactly for a type-4 address with 16 to 127 bytes after the type byte |
| CodecV5.DecodeReq | src/protocol/v5.rs:115-133 | an unknown command byte b gives `UnknownCmd(b)`; a request has version 5, no user id, the reserved byte read, one of address and domain, and the port after them |
| CodecV5.DecodeReply | src/protocol/v5.rs:147-165 | a code above 8 gives `UnknownCmd(b)`; a reply has the code read, the reserved byte, one of address and domain, and the port after them |
| CodecV5.ParseAuthReq | src/protocol/v5.rs:100-105 | the cursor method returns and advances as `DecodeAuthReq` says |
| CodecV5.ParseAuthReply | src/protocol/v5.rs:107-113 | the cursor method returns and advances as `DecodeAuthReply` says |
| CodecV5.GetAddr | src/protocol/v5.rs:135-145 | the cursor method returns and advances as `DecodeAddr` says |
| CodecV5.ParseReq | src/protocol/v5.rs:115-133 | the cursor method returns and advances as `DecodeReq` says |
| CodecV5.ParseReply | src/protocol/v5.rs:147-165 | the cursor method returns and advances as `DecodeReply` says |
| CodecV5.SendAddr | src/protocol/v5.rs:26-52 | fails with `AddrTypeUnsupported` iff neither domain nor address is given; a domain wins and is sent with its length, at most 255; the type byte is 3, 1 or 4; the frame ends with the big-endian port |
| CodecV5.SendReply | src/protocol/v5.rs:10-24 | a code that is not SOCKS5 gives `NotV5Cmd`; otherwise version 5, the code, 0, then the `send_addr` bytes or its error |
| CodecV5.SendAddrRoundTrip | src/protocol/v5.rs:26-52 | after any prefix, the corrected address read then `get_u16` read back the domain (cut to 255 bytes) or the address, and the port, and consume all of it; `get_addr` as written agrees except for an IPv6 address, which it answers with `Incomplete` after the type byte |
| CodecV5.SendDomainRoundTrip | src/protocol/v5.rs:31-35 | the domain case of the round trip |
| CodecV5.SendIpRoundTrip | src/protocol/v5.rs:36-48 | the address case of the round trip: IPv4 reads back with `get_addr` as written; IPv6 reads back with the corrected read and is `Incomplete` as written |
| CodecV5.DomainRoundTrip | src/protocol/v5.rs:138-141 | a type-3 frame of a UTF-8 name cut at 255 bytes reads back as that name, then the port |
| CodecV5.Ipv4RoundTrip | src/protocol/v5.rs:137 | a type-1 frame reads back as the IPv4 address, then the port |
| CodecV5.Ipv6RoundTrip | src/protocol/v5.rs:142 | a type-4 frame reads back as the IPv6 address, then the port, with the corrected 16-byte read |
| CodecV5.SendReplyRoundTrip | src/protocol/v5.rs:10-24 | `parse_reply` after the version byte reads a sent reply back, with the address dropped when a domain was sent; for an IPv6 address it is `Incomplete` after the type byte, and the corrected address read then `get_u16` read the address and the port back |
| CodecV5.AuthReplyRoundTrip | src/protocol/mod.rs:23-29 | `parse_auth_reply` reads back every method-selection reply |
| CodecV5.ParseReqTestVector | src/protocol/v5.rs:175-191 | the test frame parses to Bind `www.google.com`:6379 |
| CodecV5.ParseReqTestVectorCut | src/protocol/v5.rs:193-208 | the test frame without its last port byte is `Incomplete` |
| Inbound.ATypeByte | src/protocol.rs:86-91 | the address types are bytes 1, 3, 4 |
| Inbound.ReplyCmdByteInjective | src/protocol.rs:93-104 | the discriminants are at most 8 and distinct |
| Inbound.AsU8 | src/protocol.rs:106-122 | SOCKS4: Successful is 90, ConnectionRefused 91, every other code 92; SOCKS5: the discriminant; HTTP: 0 |
| Inbound.CmdByErr | src/protocol.rs:195-207 | CmdTypeUnsupported exactly for `AddrTypeUnsupported` and `UnknownCmd`, ConnectionRefused exactly for a refused or reset connection, ServerError otherwise |
| Inbound.ReadChunk | src/protocol.rs:471-479 | `Incomplete` iff nothing remains; otherwise the bytes up to and including the first `c`, or to the end |
| Inbound.ReadLine | src/protocol.rs:481-488 | a line is the CR-free bytes before a CR and LF, both consumed; a broken line is a CR followed by another byte, with no CR before it, both consumed |
| Inbound.ReadLineAt | src/protocol.rs:481-488 | when the first CR is at k and LF follows, the line is `data[pos..k]` and the cursor is at k+2 |
| Inbound.ReadLineBroken | src/protocol.rs:481-488 | when the first CR is at k and a byte other than LF follows, the result is `Other("broken line")` with the cursor at k+2 |
| Inbound.ReadLineIncomplete | src/protocol.rs:481-488 | without a CR before the last byte, the result is `Incomplete` with everything consumed |
| Inbound.ReadHeaders | src/protocol.rs:356 | the cursor never moves back, and on success past at least one line break; the only errors are `Incomplete` and the broken line |
| Inbound.ReadHeadersIsScan | src/protocol.rs:356 | on every input the loop ends where, and as, a scan from each line's first CR to the next line ends: `Incomplete` with everything consumed when no CR comes before the last byte, the broken line after a CR without LF, success after an empty line |
| Inbound.ReadHeadersCut | src/protocol.rs:356 | a first line without a CR before the last byte leaves the loop `Incomplete` with everything consumed |
| Inbound.ReadHeadersBrokenLine | src/protocol.rs:356 | a first line whose first CR at k is not followed by LF stops the loop with the broken line at k+2 |
| Inbound.ReadHeadersOk | src/protocol.rs:356 | the loop succeeds and stops at e exactly when, from the cursor, the first empty line ends at e and every CR before it is followed by LF |
| Inbound.ReadHeadersBroken | src/protocol.rs:356 | the loop fails with the broken line at k+2 exactly when the byte at k is a CR not followed by LF, with no empty line and no other broken CR before it |
| Inbound.BufReader.constructor | src/protocol.rs:414-418 | a new reader has an empty buffer |
| Inbound.BufReader.GetU8 | src/protocol.rs:422-429 | one byte or `Incomplete`, and the buffer grows by exactly the bytes consumed |
| Inbound.BufReader.GetU16 | src/protocol.rs:431-438 | a big-endian u16 or `Incomplete`, and the buffer grows by exactly the bytes consumed |
| Inbound.BufReader.GetU32 | src/protocol.rs:440-447 | a big-endian u32 or `Incomplete`, and the buffer grows by exactly the bytes consumed |
| Inbound.BufReader.GetU128 | src/protocol.rs:449-456 | as written: `Incomplete` unless 128 bytes remain, else the big-endian value of the next 16; the buffer grows by exactly the bytes consumed |
| Inbound.BufReader.GetNBytes | src/protocol.rs:458-469 | n bytes or `Incomplete`, read by the `while n > 0` loop, and the buffer grows by exactly the bytes consumed |
| Inbound.BufReader.GetUntil | src/protocol.rs:471-479 | the chunk `ReadChunk` describes, and the buffer grows by exactly the bytes consumed |
| Inbound.BufReader.GetLine | src/protocol.rs:481-488 | the line `ReadLine` describes, and the buffer grows by exactly the bytes consumed |
| InboundParse.DecodeAuth | src/protocol.rs:299-304 | succeeds iff the count byte and that many methods are present; the only error is `Incomplete` |
| InboundParse.DecodeReqV4 | src/protocol.rs:306-329 | a request is SOCKS4 and its `raw` is the bytes read before plus the bytes consumed |
| InboundParse.ReqV4Errors | src/protocol.rs:306-329 | the only errors are `Incomplete` and `UnknownCmd(4)`, the latter exactly for an unknown command byte |
| InboundParse.ReqV4Layout | src/protocol.rs:306-329 | command, big-endian port and IPv4 address in that order, type IPv4, no domain, a user id up to a consumed NUL |
| InboundParse.ReqV4Complete | src/protocol.rs:306-329 | a known command, a big-endian port, an IPv4 address and a NUL-free user id with its NUL decode to that request, consuming the whole frame, with `raw` extended by it |
| InboundParse.DecodeAddr | src/protocol.rs:397-407 | a decoded address has exactly one of address and domain |
| InboundParse.AddrErrors | src/protocol.rs:397-407 | the only errors are `Incomplete`, invalid UTF-8 and `AddrTypeUnsupported(5)`, the last exactly for a type other than 1, 3, 4; `Incomplete` exactly when the type byte, the address or the name is cut off, or fewer than 128 bytes follow a type 4 (`get_u128` as written); the UTF-8 error exactly for a complete name that is not UTF-8 |
| InboundParse.AddrLayout | src/protocol.rs:397-407 | the type returned is the byte read; type 1 is four address bytes, 3 a length-prefixed UTF-8 name, 4 sixteen address bytes read with 128 bytes remaining |
| InboundParse.DecodeReqV5 | src/protocol.rs:331-352 | a request is SOCKS5 and its `raw` is the bytes read before plus the bytes consumed |
| InboundParse.ReqV5Errors | src/protocol.rs:331-352 | the only errors are `Incomplete`, invalid UTF-8, `AddrTypeUnsupported(5)` and `UnknownCmd(5)`, the last exactly for an unknown command byte |
| InboundParse.ReqV5Layout | src/protocol.rs:331-352 | command, reserved byte, address, then a big-endian port |
| InboundParse.ReqV5Ipv4Complete | src/protocol.rs:331-352 | a known command, a reserved byte, a type-1 address and a port decode to that request, consuming the whole frame |
| InboundParse.DomainAddrAt | src/protocol.rs:397-407 | a type byte 3, a length byte n and n bytes of valid UTF-8 read as that domain, consuming n+2 bytes |
| InboundParse.ReqV5DomainComplete | src/protocol.rs:331-352 | a known command, a reserved byte, a type-3 UTF-8 name of at most 255 bytes and a port decode to that request, consuming the whole frame |
| InboundParse.Ipv6RequestNeverFrame | src/protocol.rs:263-273 | as written, the complete 22-byte SOCKS5 request for an IPv6 address is "no frame yet" |
| InboundParse.UrlRequest | src/protocol.rs:368-394 | an HTTP Connect request for the URL's host with the URL's port, 80 by default; a domain host gives a domain request, an IP host an address request |
| InboundParse.JudgeRequestLine | src/protocol.rs:357-394 | not three space-separated parts: `Bad Request`; first part not `ONNECT`: `UnknownCmd(0)`; no URL: bad URL; otherwise the request for the URL's host, and a URL without a host is a bad host |
| InboundParse.DecodeReqHttp | src/protocol.rs:354-395 | a request is HTTP and its `raw` is the bytes read before plus the bytes consumed |
| InboundParse.HttpJudgedAfterHeaders | src/protocol.rs:354-395 | the request line is judged only after the headers were read through the empty line; a read error comes first |
| InboundParse.DecodeFrame | src/protocol.rs:274-296 | no byte: `Incomplete`; a byte other than 4, 5, `'C'`: `VnUnsupported` of it; 4 gives a SOCKS4 request, 5 an auth frame before authorisation and a SOCKS5 request after, `'C'` an HTTP request; `raw` is the whole frame |
| InboundParse.PreCheck | src/protocol.rs:263-273 | exactly `Incomplete` becomes "no frame yet", every other error is returned, a frame is returned as found |
| InboundParse.ParseAuth | src/protocol.rs:299-304 | the method returns and advances as `DecodeAuth` says, and the reader records the bytes consumed |
| InboundParse.ParseReqV4 | src/protocol.rs:306-329 | the method returns and advances as `DecodeReqV4` says, and the reader records the bytes consumed |
| InboundParse.GetAddr | src/protocol.rs:397-407 | the method returns and advances as `DecodeAddr` says, and the reader records the bytes consumed |
| InboundParse.ParseReqV5 | src/protocol.rs:331-352 | the method returns and advances as `DecodeReqV5` says, and the reader records the bytes consumed |
| InboundParse.ParseReqHttpConnect | src/protocol.rs:354-395 | the method, with its header loop, returns and advances as `DecodeReqHttp` says, and the reader records the bytes consumed |
| InboundParse.ParseReq | src/protocol.rs:274-296 | the dispatch returns and advances as `DecodeFrame` says |
| InboundParse.PreCheckParsing | src/protocol.rs:263-273 | returns what `PreCheck` says of the data from the cursor on |
| InboundVectors.V4RequestParses | src/protocol.rs:499-516 | the 9-byte SOCKS4 test frame parses to Connect 192.168.1.1:8899 with an empty user id, and `raw` is the whole input |
| InboundVectors.ConnectLineParts | src/protocol.rs:357-363 | the test request line splits into `ONNECT`, `nexel.cc`, `HTTP/1.1` |
| InboundVectors.ConnectHeaders | src/protocol.rs:356 | the headers of the test request end at its last byte |
| InboundVectors.ConnectLineJudged | src/protocol.rs:357-394 | a URL parser that finds host `nexel.cc` and no port makes the test line a request for `nexel.cc`, port 80 |
| InboundVectors.ConnectRequestParses | src/protocol.rs:612-629 | the HTTP test request parses to `nexel.cc`, port 80, and `raw` is the whole input |
| InboundVectors.ConnectWithoutHeadersIsIncomplete | src/protocol.rs:596-611 | a request line without the empty line that ends the headers is `Incomplete`, whatever the URL parser says |
| InboundReply.HeadOnlyReadsBack | src/protocol.rs:153-157 | an HTTP status line followed by an empty line reads back as that line, then the end of the headers |
| InboundReply.HttpResponsesAreHeads | src/protocol.rs:153-184 | the `400` and `200` responses are a single status line and the empty line |
| InboundReply.V4Code | src/protocol.rs:106-122 | the SOCKS4 code of a reply code has the byte `as_u8` gives, and is never 93 |
| InboundReply.V5Code | src/protocol.rs:106-122 | the SOCKS5 code of a reply code has the byte `as_u8` gives |
| InboundReply.ErrorFrame | src/protocol.rs:137-160 | SOCKS4: 8 bytes, 0 and code 91 or 92; SOCKS5: 10 bytes, 5 and code 1, 5 or 7; HTTP: the fixed `400` response |
| InboundReply.AddrBytes | src/protocol.rs:210-236 | an IP of the other family than the type gives `AddrTypeUnsupported` of the type byte; otherwise 4 or 16 big-endian address bytes, or the domain after its length modulo 256 |
| InboundReply.SuccessFrame | src/protocol.rs:162-187 | SOCKS4: 0, 90, the big-endian port, then the IPv4 address (an IPv6 address writes nothing more); SOCKS5: 5, 0, 0, the type, then the address bytes or the error after the head; HTTP: the fixed `200` response |
| InboundReply.Reply.constructor | src/protocol.rs:130-132 | a new reply has an empty buffer and version 5 |
| InboundReply.Reply.SetVer | src/protocol.rs:134-136 | sets the version and leaves the buffer |
| InboundReply.Reply.Write | src/protocol.rs:137-193 | appends bytes to the buffer |
| InboundReply.Reply.Error | src/protocol.rs:137-160 | appends `ErrorFrame` of the version and error, and returns the buffer |
| InboundReply.Reply.WriteAddr | src/protocol.rs:210-236 | appends the address bytes, or appends nothing and returns the error |
| InboundReply.Reply.Successful | src/protocol.rs:162-187 | appends the success frame and returns the buffer, or the address error |
| InboundReply.Reply.Auth | src/protocol.rs:189-193 | appends `[5, n]` and returns the buffer |
| InboundReply.V4ErrorReplyDecodes | src/protocol.rs:137-160 | the SOCKS4 error frame parses with `v4::parse_reply` as code 91 or 92 (by `get_cmd_by_err`) for 0.0.0.0:0 |
| InboundReply.V5ErrorReplyDecodes | src/protocol.rs:137-160 | the SOCKS5 error frame parses with `v5::parse_reply` as the code `get_cmd_by_err` picks, for 0.0.0.0:0 |
| InboundReply.V5ErrorFrameIsSendReply | src/protocol.rs:137-160 | the SOCKS5 error frame is the bytes `v5::send_reply` writes for that reply |
| InboundReply.V4SuccessReplyDecodes | src/protocol.rs:162-187 | the SOCKS4 success frame for an IPv4 address is what `v4::send_reply` writes, and parses back |
| InboundReply.V4SuccessIpv6IsIncomplete | src/protocol.rs:162-187 | the SOCKS4 success frame for an IPv6 address is 4 bytes and parses as `Incomplete` |
| InboundReply.V5SuccessIsSendReply | src/protocol.rs:162-187 | the SOCKS5 success frame of a well-typed address is what `v5::send_reply` writes for the granted reply |
| InboundReply.V5SuccessDomain | src/protocol.rs:162-187 | the domain case of `V5SuccessIsSendReply` |
| InboundReply.V5SuccessIp | src/protocol.rs:162-187 | the IPv4 and IPv6 cases of `V5SuccessIsSendReply` |
| InboundReply.V5SuccessReplyDecodes | src/protocol.rs:162-187 | the SOCKS5 success frame parses back with `v5::parse_reply` as the granted reply; for an IPv6 address it is `Incomplete` after the type byte as written, and the corrected address read then `get_u16` read it back |
| InboundReply.AuthReplyDecodes | src/protocol.rs:189-193 | `auth(n)` parses with `parse_auth_reply` as the method of n, or `ServerRefusedAuth` for 0xFF |
| Rules.RoutingTryFrom | src/rule.rs:17-28 | exactly `"DIRECT"`, `"PROXY"`, `"REJECT"`, case-sensitively, each iff; anything else is `UnknownRouting` |
| Rules.CidrContainsRange | src/rule.rs:109-113 | a block contains an address iff the address is of its family and lies in the range from the network address over 2^(host bits) addresses |
| Rules.LoopbackBlockContains | src/rule.rs:157-165 | `127.0.0.1/8` contains `127.0.0.255` |
| Rules.BlockRange | src/rule.rs:109-113 | same prefix bits iff the address lies in the block's range |
| Rules.KindOf | src/rule.rs:56-75 | a kind is recognised iff it is one of the five table kinds, and each of `DOMAIN`, `DOMAIN-SUFFIX`, `DOMAIN-KEYWORD`, `IP-CIDR`, `IP-CIDR6` selects its own table, iff |
| Rules.ApplyLine | src/rule.rs:52-75 | a line of unknown kind changes nothing; a line of a table kind fails exactly when its CIDR does not parse or its routing is unknown; a loaded line never removes a key |
| Rules.ApplyRule | src/rule.rs:56-75 | an unknown kind changes nothing; an unparsable CIDR of a CIDR kind fails with that content; an unknown routing fails; otherwise each kind stores the routing under its key in its own table and changes nothing else |
| Rules.ApplyLineEntries | src/rule.rs:56-75 | after a loaded line, every table entry is the line's routing for the line's own kind and key, and what it was for every other kind and key |
| Rules.ApplyLinesAppend | src/rule.rs:51-76 | loading `a + b` is loading `a`, stopping at its error, then loading `b` |
| Rules.FirstBadLineAborts | src/rule.rs:51-76 | the first failing line ends loading with its error, keeping the tables built before it |
| Rules.UnknownKindSkipped | src/rule.rs:74 | a line of unknown kind anywhere is as if absent |
| Rules.LastLineWins | src/rule.rs:51-76 | after loading, the last line's key maps to its routing in its kind's table, for all five kinds |
| Rules.EntryKept | src/rule.rs:51-76 | an entry of any table survives lines that do not redefine its kind and key |
| Rules.LoadedEntry | src/rule.rs:48-78 | a line whose kind and key no later line repeats is in its loaded table with its routing; a later duplicate overwrites an earlier one |
| Rules.LoadedDomainRule | src/rule.rs:80-83 | for a `DOMAIN` line whose name no later `DOMAIN` line repeats, `domain()` of its name answers exactly that routing |
| Rules.RejectOnlyFromBlock | src/rule.rs:115-124 | `ip()` answers Reject only through a containing block of the address's family mapped to Reject |
| Rules.OtherFamilyIgnored | src/rule.rs:105-108 | the answer for an IPv4 address does not depend on the IPv6 table, and the other way round |
| Rules.SingleBlockDecides | src/rule.rs:109-113 | when one block contains the address, its routing is the only answer |
| Rules.DomainRejectFromRule | src/rule.rs:80-102 | `domain()` answers Reject only from a Reject entry of a table, or of a block for the first resolved address |
| Rules.RuleTables.constructor | src/rule.rs:34-39 | the five tables start empty |
| Rules.RuleTables.Initial | src/rule.rs:48-78 | the loop leaves the tables `ApplyLines` gives and returns its error, if any |
| Rules.RuleTables.Ip | src/rule.rs:104-125 | the answer is one `IpAnswer` allows: a containing block's routing, else Direct iff the country is `"CN"`, else Proxy; the tables are not changed |
| Rules.RuleTables.Domain | src/rule.rs:80-102 | the answer is one `DomainAnswer` allows: exact, then suffix, then keyword, then `ip()` of the first resolved address, Proxy when none, the resolver's error propagated; the tables are not changed |
| Seqs.Split | src/rule.rs:52-55 | at least one part, no part holds the separator, and joining the parts gives the input back |
| Seqs.SplitJoin | src/protocol.rs:357 | splitting the join of separator-free parts gives the parts back |
| Seqs.SplitFree | src/rule.rs:52-55 | a line without the separator is one part |
| Seqs.SuffixIsContained | src/rule.rs:84-93 | a suffix match is also a keyword match for the same text |

## Left out

- Sockets, the `recv_and_parse_req` read loop and `flush` are I/O and are not modelled. The parsers work on the bytes received so far, and `PreCheck` models the `Incomplete`-to-"no frame yet" step of that loop.
- Tokio's `BufWriter` with capacity 64 is not modelled. `raw` and the reply buffer hold every byte written, which is what `buffer()` returns for frames of at most 64 bytes.
- Stream write errors and short writes are not modelled. The serialisers always write all their bytes, and consecutive writes are one append.
- `Url::parse` is a foreign library. It is the parameter `UrlParser`, which receives `"http://"` followed by the URL bytes. The lossy UTF-8 conversion before it is abstracted by passing the bytes.
- The `Display` implementations are formatting only.
- The `Mutex` locks of the rule tables, and their poisoning, are concurrency.
- Reading and parsing `rule.yaml` is file I/O. `Initial` receives the lines.
- The `geo_ip` table is declared but never used.
- The `maxminddb` country lookup is the parameter `GeoLookup`, which gives the ISO code or nothing.
- `tokio::net::lookup_host` is the parameter `Resolver`. It receives the name exactly as `domain()` passes it.
- `ipnetwork::from_str` is the parameter `CidrParser`. Its `contains` is modelled by prefix division.
- The tests `check_domain`, `check_ip` and `geo_lite_ip` depend on the rule file and the GeoIP database, which are not part of this model.
- Panics from `unwrap` and from slicing a string inside a character are caller preconditions (`requires`).
- Rules.RuleTables.Ip: the `HashMap` iteration order is not modelled, so when several entries match, the contract allows the routing of any of them and not one fixed choice.
- Rules.RuleTables.Domain: the `HashMap` iteration order is not modelled, so when several entries match, the contract allows the routing of any of them and not one fixed choice.
- Rules.RuleTables.Domain: `lookup_host` receives the bare name, without a port; the standard library most likely rejects such a string as an invalid socket address, so in the source an unmatched name probably ends in an error. The `Resolver` parameter is unconstrained, so the model also allows the branch where the first resolved address decides.
- CodecV4.SendReq: on the IPv6 error, the bytes 4, the command and the port already written are not returned; the model returns only the error.
- CodecV4.SendReply: on an error, the 0 (and the code and port) already written are not returned; the model returns only the error.
- CodecV5.SendReply: on `NotV5Cmd` or an address error, the 5 (and the code and 0) already written are not returned; the model returns only the error.
- `src/connection.rs`, `src/tls.rs`, `src/bin/*`, `src/env.rs`, `src/configuration.rs` and `src/lib.rs` are not part of this model.

## Findings

| source | as written | input that shows it | evidently intended | confidence | as-written member | corrected member |
|---|---|---|---|---|---|---|
| src/protocol/mod.rs:207-212 | `get_u128` returns `Incomplete` unless 128 bytes remain, although it reads 16; `BufReader::get_u128` in src/protocol.rs:449-456 has the same check | the 19 bytes `send_addr` writes for an IPv6 address, `[4]` + 16 address bytes + 2 port bytes: `get_addr` answers `Incomplete` for ever | `Incomplete` unless 16 bytes remain | not executed | Codec.DecodeU128AsWritten | Codec.DecodeU128 |
| src/protocol/v4.rs:18-21 | `send_req` writes the user id and its NUL only when a user id is present | a request with `user_id = None`: the 8 bytes sent have no NUL, and `parse_req` answers `Incomplete` | always end the request with a NUL, after an empty user id | not executed | CodecV4.SendReqWithoutUserIdIsIncomplete | CodecV4.SendReqTerminatedRoundTrip |
