/**
 * The request parsers of src/protocol.rs: `parse_req` dispatches on the first
 * byte to SOCKS4, SOCKS5 (authentication or request) or HTTP CONNECT, every
 * read going through one `BufReader` whose recorded bytes become the
 * request's `raw`; `pre_check_parsing` turns `Incomplete` into "no frame yet".
 *
 * Each parser is a method on the cursor and a reader, proved against a
 * function of the data, the start position and the bytes the reader already
 * holds.
 */
module InboundParse {
  import opened Bytes
  import opened Wrappers
  import opened Net
  import opened Cursors
  import opened Seqs
  import opened Inbound
  import Codec

  /** The parts of a parsed URL that `parse_req_http_connect` uses. */
  datatype Host = HostIpv4(a4: u32) | HostIpv6(a6: u128) | HostDomain(name: seq<u8>)
  datatype Url = Url(host: Option<Host>, port: Option<u16>)

  /** `Url::parse`, an external library: a parameter of the model. */
  type UrlParser = seq<u8> -> Option<Url>

  /** The bytes of `"ONNECT"`: the request line of `CONNECT` after the `'C'` taken by the dispatch. */
  const Onnect: seq<u8> := [0x4f, 0x4e, 0x4e, 0x45, 0x43, 0x54]

  /** The bytes of `"http://"`. */
  const HttpScheme: seq<u8> := [0x68, 0x74, 0x74, 0x70, 0x3a, 0x2f, 0x2f]

  const Space: u8 := 0x20

  /** An error after the reads so far; the position is where they stopped. */
  function Fail<U>(e: Error, pos: nat): Step<U, Error>
  {
    Step(Err(e), pos)
  }

  // ---------------------------------------------------------------------------
  // What each parser does to the data

  /** `parse_auth`: a count, then that many method bytes. */
  function DecodeAuth(data: seq<u8>, pos: nat): (s: Step<AuthReq, Error>)
    requires pos <= |data|
    ensures pos <= s.pos <= |data|
    ensures s.result.Err? ==> s.result.error == Incomplete
    ensures s.result.Ok? <==> pos < |data| && |data| - pos - 1 >= data[pos]
    ensures s.result.Ok? ==>
      s.pos == pos + 1 + data[pos] && s.result.value.offered == data[pos + 1..(s.pos)]
  {
    var n := ReadU8(data, pos);
    if n.result.Err? then Fail(n.result.error, n.pos)
    else
      var m := ReadNBytes(data, n.pos, n.result.value);
      if m.result.Err? then Fail(m.result.error, m.pos)
      else Step(Ok(AuthReq(m.result.value)), m.pos)
  }

  /**
   * `parse_req_v4`, from the byte after the version: command, big-endian port
   * and IPv4 address, then a user id up to a NUL that is consumed and dropped.
   * An unknown command is `UnknownCmd(4)` whatever the byte was.
   */
  function DecodeReqV4(data: seq<u8>, pos: nat, pre: seq<u8>): (s: Step<Request, Error>)
    requires pos <= |data|
    ensures pos <= s.pos <= |data|
    ensures s.result.Ok? ==> s.result.value.ver == V4 && s.result.value.raw == pre + data[pos..(s.pos)]
  {
    var c := ReadU8(data, pos);
    if c.result.Err? then Fail(c.result.error, c.pos)
    else match Codec.ReqCmdFromU8(c.result.value)
      case None => Step(Err(UnknownCmd(4)), c.pos)
      case Some(cmd) =>
        var port := ReadU16(data, c.pos);
        if port.result.Err? then Fail(port.result.error, port.pos)
        else
          var ip := ReadU32(data, port.pos);
          if ip.result.Err? then Fail(ip.result.error, ip.pos)
          else
            var user := ReadChunk(data, ip.pos, 0);
            if user.result.Err? then Fail(user.result.error, user.pos)
            else if user.result.value[|user.result.value| - 1] != 0 then Step(Err(Incomplete), user.pos)
            else
              Step(Ok(Request(V4, cmd, 0, None, Some(IpV4(ip.result.value)), port.result.value, AtIpv4,
                              pre + data[pos..user.pos])), user.pos)
  }

  /**
   * `get_addr`: an address type byte, then four bytes, a length-prefixed
   * UTF-8 name or sixteen bytes. Any other type
   * is `AddrTypeUnsupported(5)`.
   */
  function DecodeAddr(data: seq<u8>, pos: nat): (s: Step<(Option<IpAddr>, Option<seq<u8>>, AType), Error>)
    requires pos <= |data|
    ensures pos <= s.pos <= |data|
    ensures s.result.Ok? ==> (s.result.value.0.Some? <==> s.result.value.1.None?)
  {
    var t := ReadU8(data, pos);
    if t.result.Err? then Fail(t.result.error, t.pos)
    else if t.result.value == 1 then
      var a := ReadU32(data, t.pos);
      if a.result.Err? then Fail(a.result.error, a.pos)
      else Step(Ok((Some(IpV4(a.result.value)), None, AtIpv4)), a.pos)
    else if t.result.value == 3 then
      var len := ReadU8(data, t.pos);
      if len.result.Err? then Fail(len.result.error, len.pos)
      else
        var d := ReadNBytes(data, len.pos, len.result.value);
        if d.result.Err? then Fail(d.result.error, d.pos)
        else if !ValidUtf8(d.result.value) then Step(Err(Utf8Error), d.pos)
        else Step(Ok((None, Some(d.result.value), AtDomain)), d.pos)
    else if t.result.value == 4 then
      var a := ReadU128(data, t.pos);
      if a.result.Err? then Fail(a.result.error, a.pos)
      else Step(Ok((Some(IpV6(a.result.value)), None, AtIpv6)), a.pos)
    else Step(Err(AddrTypeUnsupported(5)), t.pos)
  }

  /**
   * `parse_req_v5`, from the byte after the version: command (`UnknownCmd(5)`
   * when unknown), reserved byte, address, big-endian port.
   */
  function DecodeReqV5(data: seq<u8>, pos: nat, pre: seq<u8>): (s: Step<Request, Error>)
    requires pos <= |data|
    ensures pos <= s.pos <= |data|
    ensures s.result.Ok? ==> s.result.value.ver == V5 && s.result.value.raw == pre + data[pos..(s.pos)]
  {
    var c := ReadU8(data, pos);
    if c.result.Err? then Fail(c.result.error, c.pos)
    else match Codec.ReqCmdFromU8(c.result.value)
      case None => Step(Err(UnknownCmd(5)), c.pos)
      case Some(cmd) =>
        var rsv := ReadU8(data, c.pos);
        if rsv.result.Err? then Fail(rsv.result.error, rsv.pos)
        else
          var a := DecodeAddr(data, rsv.pos);
          if a.result.Err? then Fail(a.result.error, a.pos)
          else
            var port := ReadU16(data, a.pos);
            if port.result.Err? then Fail(port.result.error, port.pos)
            else
              var (addr, domain, atype) := a.result.value;
              Step(Ok(Request(V5, cmd, rsv.result.value, domain, addr, port.result.value, atype,
                              pre + data[pos..port.pos])), port.pos)
  }

  /** The request that a parsed URL names, with `raw` as recorded. */
  function UrlRequest(host: Host, port: Option<u16>, raw: seq<u8>): (r: Request)
    ensures r.ver == Http && r.cmd == Codec.Connect && r.rsv == 0 && r.raw == raw
    ensures r.dstPort == (if port.Some? then port.value else 80)
    ensures host.HostDomain? <==> r.aType == AtDomain
    ensures r.dstDomain == (if host.HostDomain? then Some(host.name) else None)
    ensures r.dstAddr ==
      match host
      case HostIpv4(a) => Some(IpV4(a))
      case HostIpv6(a) => Some(IpV6(a))
      case HostDomain(_) => None
  {
    var base := Request(Http, Codec.Connect, 0, None, None, 80, AtDomain, raw);
    var withHost :=
      match host
      case HostIpv4(a) => base.(aType := AtIpv4, dstAddr := Some(IpV4(a)))
      case HostIpv6(a) => base.(aType := AtIpv6, dstAddr := Some(IpV6(a)))
      case HostDomain(d) => base.(dstDomain := Some(d));
    withHost.(dstPort := if port.Some? then port.value else withHost.dstPort)
  }

  const BadRequest: Error := Other("Bad Request")
  const BadRequestUrl: Error := Other("Bad Request Url")
  const BadRequestHost: Error := Other("Bad Request Host")

  /**
   * The tail of `parse_req_http_connect`: a request line (without its
   * `"\r\n"`) is three space-separated parts, the first `"ONNECT"` and the
   * second a URL, once `"http://"` is put before it, that has a host; the
   * request names that host and the URL's port, 80 by default.
   */
  function JudgeRequestLine(line: seq<u8>, url: UrlParser, raw: seq<u8>): (r: Result<Request, Error>)
    ensures var parts := Split(line, Space);
      && (r == Err(BadRequest) <==> |parts| != 3)
      && (r == Err(UnknownCmd(0)) <==> |parts| == 3 && parts[0] != Onnect)
      && (r == Err(BadRequestUrl) <==> |parts| == 3 && parts[0] == Onnect && url(HttpScheme + parts[1]).None?)
      && (r.Ok? <==>
            |parts| == 3 && parts[0] == Onnect && url(HttpScheme + parts[1]).Some?
            && url(HttpScheme + parts[1]).value.host.Some?)
      && (r.Ok? ==>
            var u := url(HttpScheme + parts[1]).value;
            r.value == UrlRequest(u.host.value, u.port, raw))
    ensures r.Err? ==> r.error in {BadRequest, UnknownCmd(0), BadRequestUrl, BadRequestHost}
  {
    var parts := Split(line, Space);
    if |parts| != 3 then Err(BadRequest)
    else if parts[0] != Onnect then Err(UnknownCmd(0))
    else match url(HttpScheme + parts[1])
      case None => Err(BadRequestUrl)
      case Some(u) =>
        if u.host.None? then Err(BadRequestHost)
        else Ok(UrlRequest(u.host.value, u.port, raw))
  }

  /**
   * `parse_req_http_connect`, from the byte after the `'C'`: the request line,
   * then header lines through the first empty one, and only then the
   * judgement of the request line, with `raw` all the bytes read.
   */
  function DecodeReqHttp(data: seq<u8>, pos: nat, pre: seq<u8>, url: UrlParser): (s: Step<Request, Error>)
    requires pos <= |data|
    ensures pos <= s.pos <= |data|
    ensures s.result.Ok? ==> s.result.value.ver == Http && s.result.value.raw == pre + data[pos..(s.pos)]
  {
    var l := ReadLine(data, pos);
    if l.result.Err? then Fail(l.result.error, l.pos)
    else
      var h := ReadHeaders(data, l.pos);
      if h.result.Err? then Fail(h.result.error, h.pos)
      else Step(JudgeRequestLine(l.result.value, url, pre + data[pos..h.pos]), h.pos)
  }

  /**
   * `Parser::parse_req` with a fresh reader: the first byte chooses SOCKS4
   * (4), SOCKS5 authentication (5, not yet authorised) or request (5,
   * authorised), HTTP CONNECT (`'C'`); any other byte is `VnUnsupported`.
   * Every request's `raw` is exactly the input it consumed.
   */
  function DecodeFrame(data: seq<u8>, pos: nat, authorized: bool, url: UrlParser): (s: Step<ReqFrame, Error>)
    requires pos <= |data|
    ensures pos <= s.pos <= |data|
    ensures pos == |data| ==> s.result == Err(Incomplete)
    ensures pos < |data| && data[pos] !in {4, 5, 0x43} ==> s.result == Err(VnUnsupported(data[pos]))
    ensures s.result.Ok? ==> pos < |data| && data[pos] in {4, 5, 0x43}
    ensures s.result.Ok? && data[pos] == 4 ==> s.result.value.Req? && s.result.value.req.ver == V4
    ensures s.result.Ok? && data[pos] == 5 ==>
      if authorized then s.result.value.Req? && s.result.value.req.ver == V5 else s.result.value.Auth?
    ensures s.result.Ok? && data[pos] == 0x43 ==> s.result.value.Req? && s.result.value.req.ver == Http
    ensures s.result.Ok? && s.result.value.Req? ==> s.result.value.req.raw == data[pos..(s.pos)]
  {
    var v := ReadU8(data, pos);
    if v.result.Err? then Fail(v.result.error, v.pos)
    else
      var first := data[pos..v.pos];
      if v.result.value == 4 then
        var r := DecodeReqV4(data, v.pos, first);
        if r.result.Err? then Fail(r.result.error, r.pos)
        else
          Concat(data, pos, v.pos, r.pos);
          Step(Ok(Req(r.result.value)), r.pos)
      else if v.result.value == 5 && !authorized then
        var a := DecodeAuth(data, v.pos);
        if a.result.Err? then Fail(a.result.error, a.pos) else Step(Ok(Auth(a.result.value)), a.pos)
      else if v.result.value == 5 then
        var r := DecodeReqV5(data, v.pos, first);
        if r.result.Err? then Fail(r.result.error, r.pos)
        else
          Concat(data, pos, v.pos, r.pos);
          Step(Ok(Req(r.result.value)), r.pos)
      else if v.result.value == 0x43 then
        var r := DecodeReqHttp(data, v.pos, first, url);
        if r.result.Err? then Fail(r.result.error, r.pos)
        else
          Concat(data, pos, v.pos, r.pos);
          Step(Ok(Req(r.result.value)), r.pos)
      else Step(Err(VnUnsupported(v.result.value)), v.pos)
  }

  /**
   * `pre_check_parsing`: a frame, no frame yet (the data so far is an
   * incomplete frame), or the parse error.
   */
  function PreCheck(data: seq<u8>, pos: nat, authorized: bool, url: UrlParser): (r: Result<Option<ReqFrame>, Error>)
    requires pos <= |data|
    ensures var s := DecodeFrame(data, pos, authorized, url);
      && (r == Ok(None) <==> s.result == Err(Incomplete))
      && (r.Err? <==> s.result.Err? && s.result.error != Incomplete)
      && (r.Err? ==> r.error == s.result.error)
      && (r.Ok? && r.value.Some? <==> s.result.Ok?)
      && (s.result.Ok? ==> r == Ok(Some(s.result.value)))
  {
    var s := DecodeFrame(data, pos, authorized, url);
    match s.result
    case Ok(f) => Ok(Some(f))
    case Err(Incomplete) => Ok(None)
    case Err(e) => Err(e)
  }

  // ---------------------------------------------------------------------------
  // What each parser's result says about the input

  /**
   * The only errors of `parse_req_v4` are `Incomplete` and, for an unknown
   * command whatever its byte, `UnknownCmd(4)`.
   */
  lemma ReqV4Errors(data: seq<u8>, pos: nat, pre: seq<u8>)
    requires pos <= |data|
    ensures var s := DecodeReqV4(data, pos, pre);
      && (s.result.Err? ==> s.result.error in {Incomplete, UnknownCmd(4)})
      && (s.result == Err(UnknownCmd(4)) <==> pos < |data| && Codec.ReqCmdFromU8(data[pos]).None?)
  {
  }

  /**
   * `parse_req_v4` reads command, big-endian port and IPv4 address, and a
   * user id up to a NUL that it consumes and drops.
   */
  lemma ReqV4Layout(data: seq<u8>, pos: nat, pre: seq<u8>)
    requires pos <= |data|
    ensures var s := DecodeReqV4(data, pos, pre);
      s.result.Ok? ==>
        var r := s.result.value;
        && pos + 7 < s.pos
        && r.rsv == 0 && r.aType == AtIpv4 && r.dstDomain == None
        && Codec.ReqCmdByte(r.cmd) == data[pos]
        && r.dstPort == BeValue(data[pos + 1..pos + 3])
        && r.dstAddr.Some? && r.dstAddr.value.IpV4?
        && r.dstAddr.value.v4 == BeValue(data[pos + 3..pos + 7])
        && data[s.pos - 1] == 0 && 0 !in data[pos + 7..s.pos - 1]
  {
  }

  /**
   * The errors of `get_addr`: an unknown type is `AddrTypeUnsupported(5)`, a
   * constant; a domain that is not UTF-8 is the UTF-8 error; too few bytes for
   * the type (for IPv6, fewer than the 128 that `get_u128` demands) is
   * `Incomplete`.
   */
  lemma AddrErrors(data: seq<u8>, pos: nat)
    requires pos <= |data|
    ensures var s := DecodeAddr(data, pos);
      && (s.result.Err? ==> s.result.error in {Incomplete, AddrTypeUnsupported(5), Utf8Error})
      && (s.result == Err(AddrTypeUnsupported(5)) <==> pos < |data| && data[pos] !in {1, 3, 4})
      && (s.result == Err(Incomplete) <==>
            || pos == |data|
            || (data[pos] == 1 && |data| - pos < 5)
            || (data[pos] == 3 && (|data| - pos < 2 || |data| - pos - 2 < data[pos + 1]))
            || (data[pos] == 4 && |data| - pos < 129))
      && (s.result == Err(Utf8Error) <==>
            && pos + 1 < |data| && data[pos] == 3 && pos + 2 + data[pos + 1] <= |data|
            && !ValidUtf8(data[pos + 2..pos + 2 + data[pos + 1]]))
  {
  }

  /**
   * `get_addr`: type 1 is four address bytes, 3 a length-prefixed UTF-8 name,
   * 4 sixteen address bytes, read only when 128 bytes follow the type byte.
   */
  lemma AddrLayout(data: seq<u8>, pos: nat)
    requires pos <= |data|
    ensures var s := DecodeAddr(data, pos);
      && (s.result.Ok? ==> pos < |data| && data[pos] == ATypeByte(s.result.value.2))
      && (s.result.Ok? && data[pos] == 1 ==>
            && s.pos == pos + 5 && s.result.value.0.Some? && s.result.value.0.value.IpV4?
            && s.result.value.0.value.v4 == BeValue(data[pos + 1..pos + 5]))
      && (s.result.Ok? && data[pos] == 3 ==>
            && pos + 1 < |data| && s.pos == pos + 2 + data[pos + 1]
            && s.result.value.1 == Some(data[pos + 2..s.pos])
            && ValidUtf8(data[pos + 2..s.pos]))
      && (s.result.Ok? && data[pos] == 4 ==>
            && s.pos == pos + 17 && pos + 129 <= |data|
            && s.result.value.0.Some? && s.result.value.0.value.IpV6?
            && s.result.value.0.value.v6 == BeValue(data[pos + 1..pos + 17]))
  {
  }

  /** The only errors of `parse_req_v5`; an unknown command is `UnknownCmd(5)`, a constant. */
  lemma ReqV5Errors(data: seq<u8>, pos: nat, pre: seq<u8>)
    requires pos <= |data|
    ensures var s := DecodeReqV5(data, pos, pre);
      && (s.result.Err? ==> s.result.error in {Incomplete, UnknownCmd(5), AddrTypeUnsupported(5), Utf8Error})
      && (s.result == Err(UnknownCmd(5)) <==> pos < |data| && Codec.ReqCmdFromU8(data[pos]).None?)
  {
  }

  /** `parse_req_v5` reads command, reserved byte, address and big-endian port. */
  lemma ReqV5Layout(data: seq<u8>, pos: nat, pre: seq<u8>)
    requires pos <= |data|
    ensures var s := DecodeReqV5(data, pos, pre);
      s.result.Ok? ==>
        var r := s.result.value;
        && pos + 4 <= s.pos
        && Codec.ReqCmdByte(r.cmd) == data[pos] && r.rsv == data[pos + 1]
        && DecodeAddr(data, pos + 2) == Step(Ok((r.dstAddr, r.dstDomain, r.aType)), s.pos - 2)
        && r.dstPort == BeValue(data[s.pos - 2..s.pos])
  {
    var s := DecodeReqV5(data, pos, pre);
    if s.result.Ok? {
      var a := DecodeAddr(data, pos + 2);
      assert a.result.Ok? && s.pos == a.pos + 2;
    }
  }

  /**
   * Conversely, a complete SOCKS4 request after the version byte (a known
   * command, the big-endian port and IPv4 address, a NUL-free user id and its
   * NUL) is parsed as that request, with everything consumed and recorded.
   */
  lemma ReqV4Complete(lead: seq<u8>, cmd: u8, port: u16, ip: u32, uid: seq<u8>, pre: seq<u8>)
    requires Codec.ReqCmdFromU8(cmd).Some? && 0 !in uid
    ensures var bs := [cmd] + U16Be(port) + U32Be(ip) + uid + [0];
      DecodeReqV4(lead + bs, |lead|, pre)
      == Step(Ok(Request(V4, Codec.ReqCmdFromU8(cmd).value, 0, None, Some(IpV4(ip)), port, AtIpv4, pre + bs)),
              |lead + bs|)
  {
    var bs := [cmd] + U16Be(port) + U32Be(ip) + uid + [0];
    var data := lead + bs;
    var k := |lead|;
    assert data[k] == cmd;
    assert data[k + 1..k + 3] == U16Be(port);
    assert data[k + 3..k + 7] == U32Be(ip);
    assert data[k + 7..|data| - 1] == uid;
    ReadUntilAt(data, k + 7, |data| - 1, 0);
    assert data[k..|data|] == bs;
  }

  /** A complete SOCKS5 request to an IPv4 address is parsed as that request. */
  lemma ReqV5Ipv4Complete(lead: seq<u8>, cmd: u8, rsv: u8, ip: u32, port: u16, pre: seq<u8>)
    requires Codec.ReqCmdFromU8(cmd).Some?
    ensures var bs := [cmd, rsv, 1] + U32Be(ip) + U16Be(port);
      DecodeReqV5(lead + bs, |lead|, pre)
      == Step(Ok(Request(V5, Codec.ReqCmdFromU8(cmd).value, rsv, None, Some(IpV4(ip)), port, AtIpv4, pre + bs)),
              |lead + bs|)
  {
    var bs := [cmd, rsv, 1] + U32Be(ip) + U16Be(port);
    var data := lead + bs;
    var k := |lead|;
    assert data[k] == cmd && data[k + 1] == rsv && data[k + 2] == 1;
    assert data[k + 3..k + 7] == U32Be(ip);
    assert data[k + 7..k + 9] == U16Be(port);
    assert data[k..|data|] == bs;
  }

  /** A complete SOCKS5 request to a UTF-8 domain of at most 255 bytes is parsed as that request. */
  lemma ReqV5DomainComplete(lead: seq<u8>, cmd: u8, rsv: u8, d: seq<u8>, port: u16, pre: seq<u8>)
    requires Codec.ReqCmdFromU8(cmd).Some? && ValidUtf8(d) && |d| <= 255
    ensures var bs := [cmd, rsv, 3, |d| as u8] + d + U16Be(port);
      DecodeReqV5(lead + bs, |lead|, pre)
      == Step(Ok(Request(V5, Codec.ReqCmdFromU8(cmd).value, rsv, Some(d), None, port, AtDomain, pre + bs)),
              |lead + bs|)
  {
    var bs := [cmd, rsv, 3, |d| as u8] + d + U16Be(port);
    var data := lead + bs;
    DomainReqBytes(lead, cmd, rsv, d, port);
    DomainAddrAt(data, |lead| + 2, d);
    PortAt(data, |data| - 2, port);
    ReqV5Parts(data, |lead|, pre, cmd, rsv, (None, Some(d), AtDomain), port, bs);
  }

  /** Where the parts of a SOCKS5 request to a domain lie. */
  lemma DomainReqBytes(lead: seq<u8>, cmd: u8, rsv: u8, d: seq<u8>, port: u16)
    requires |d| <= 255
    ensures var bs := [cmd, rsv, 3, |d| as u8] + d + U16Be(port);
      var data := lead + bs;
      var k := |lead|;
      && |data| == k + 6 + |d| && data[k] == cmd && data[k + 1] == rsv
      && data[k + 2] == 3 && data[k + 3] as int == |d| && data[k + 4..k + 4 + |d|] == d
      && data[|data| - 2..] == U16Be(port) && data[k..|data|] == bs
  {
    var bs := [cmd, rsv, 3, |d| as u8] + d + U16Be(port);
    var data := lead + bs;
    var k := |lead|;
    assert data[k + 4..k + 4 + |d|] == d;
    assert data[|data| - 2..] == U16Be(port);
    assert data[k..|data|] == bs;
  }

  /** Two bytes at the end are the big-endian port. */
  lemma PortAt(data: seq<u8>, q: nat, port: u16)
    requires q + 2 == |data| && data[q..] == U16Be(port)
    ensures ReadU16(data, q).result == Ok(port)
  {
    assert data[q..q + 2] == data[q..];
  }

  /**
   * A request whose command is known, whose address reads as `v` and whose
   * last two bytes are the port is parsed from those parts.
   */
  lemma ReqV5Parts(data: seq<u8>, k: nat, pre: seq<u8>, cmd: u8, rsv: u8,
                   v: (Option<IpAddr>, Option<seq<u8>>, AType), port: u16, bs: seq<u8>)
    requires k + 4 <= |data| && data[k] == cmd && data[k + 1] == rsv && Codec.ReqCmdFromU8(cmd).Some?
    requires DecodeAddr(data, k + 2) == Step(Ok(v), |data| - 2)
    requires ReadU16(data, |data| - 2).result == Ok(port) && data[k..|data|] == bs
    ensures DecodeReqV5(data, k, pre)
      == Step(Ok(Request(V5, Codec.ReqCmdFromU8(cmd).value, rsv, v.1, v.0, port, v.2, pre + bs)), |data|)
  {
  }

  /** A domain address: type 3, a length byte, then that many bytes of valid UTF-8. */
  lemma DomainAddrAt(data: seq<u8>, k: nat, d: seq<u8>)
    requires k + 2 + |d| <= |data| && data[k] == 3 && data[k + 1] as int == |d|
    requires data[k + 2..k + 2 + |d|] == d && ValidUtf8(d)
    ensures DecodeAddr(data, k) == Step(Ok((None, Some(d), AtDomain)), k + 2 + |d|)
  {
  }

  /**
   * As written, a SOCKS5 request to an IPv6 address is never a frame on its
   * own: its 22 bytes are fewer than the 128 that the address read demands
   * after the type byte, so `pre_check_parsing` answers "no frame yet".
   */
  lemma Ipv6RequestNeverFrame(cmd: u8, a: seq<u8>, port: u16, url: UrlParser)
    requires Codec.ReqCmdFromU8(cmd).Some? && |a| == 16
    ensures var bs := [5, cmd, 0, 4] + a + U16Be(port);
      |bs| == 22 && PreCheck(bs, 0, true, url) == Ok(None)
  {
    var bs := [5, cmd, 0, 4] + a + U16Be(port);
    assert bs[0] == 5 && bs[1] == cmd && bs[3] == 4;
    assert DecodeAddr(bs, 3).result == Err(Incomplete);
  }

  /**
   * `parse_req_http_connect` reads the request line and the headers through
   * the first empty line before it judges the request line; a read error
   * comes first.
   */
  lemma HttpJudgedAfterHeaders(data: seq<u8>, pos: nat, pre: seq<u8>, url: UrlParser)
    requires pos <= |data|
    ensures var s := DecodeReqHttp(data, pos, pre, url);
      var line := ReadLine(data, pos);
      if line.result.Err? then s.result == Err(line.result.error)
      else
        var h := ReadHeaders(data, line.pos);
        if h.result.Err? then s.result == Err(h.result.error)
        else s == Step(JudgeRequestLine(line.result.value, url, pre + data[pos..h.pos]), h.pos)
  {
  }

  // ---------------------------------------------------------------------------
  // The parsers, reading through the cursor and the reader

  method ParseAuth(src: Cursor, br: BufReader) returns (r: Result<AuthReq, Error>)
    requires src.Valid()
    modifies src, br
    ensures src.Valid() && Step(r, src.pos) == DecodeAuth(src.data, old(src.pos))
    ensures br.buffer == old(br.buffer) + src.data[old(src.pos)..src.pos]
  {
    var nMethods := br.GetU8(src);
    if nMethods.Err? {
      return Err(nMethods.error);
    }
    var p1 := src.pos;
    var offer := br.GetNBytes(src, nMethods.value);
    Glue(old(br.buffer), src.data, old(src.pos), p1, src.pos);
    if offer.Err? {
      return Err(offer.error);
    }
    r := Ok(AuthReq(offer.value));
  }

  method ParseReqV4(src: Cursor, br: BufReader) returns (r: Result<Request, Error>)
    requires src.Valid()
    modifies src, br
    ensures src.Valid() && Step(r, src.pos) == DecodeReqV4(src.data, old(src.pos), old(br.buffer))
    ensures br.buffer == old(br.buffer) + src.data[old(src.pos)..src.pos]
  {
    var nCmd := br.GetU8(src);
    if nCmd.Err? {
      return Err(nCmd.error);
    }
    var cmd := Codec.ReqCmdFromU8(nCmd.value);
    if cmd.None? {
      return Err(UnknownCmd(4));
    }
    var p1 := src.pos;
    var port := br.GetU16(src);
    Glue(old(br.buffer), src.data, old(src.pos), p1, src.pos);
    if port.Err? {
      return Err(port.error);
    }
    var p2 := src.pos;
    var ipv4 := br.GetU32(src);
    Glue(old(br.buffer), src.data, old(src.pos), p2, src.pos);
    if ipv4.Err? {
      return Err(ipv4.error);
    }
    var p3 := src.pos;
    var userId := br.GetUntil(src, 0);
    Glue(old(br.buffer), src.data, old(src.pos), p3, src.pos);
    if userId.Err? {
      return Err(userId.error);
    }
    if userId.value[|userId.value| - 1] != 0 {
      return Err(Incomplete);
    }
    r := Ok(Request(V4, cmd.value, 0, None, Some(IpV4(ipv4.value)), port.value, AtIpv4, br.buffer));
  }

  method GetAddr(src: Cursor, br: BufReader) returns (r: Result<(Option<IpAddr>, Option<seq<u8>>, AType), Error>)
    requires src.Valid()
    modifies src, br
    ensures src.Valid() && Step(r, src.pos) == DecodeAddr(src.data, old(src.pos))
    ensures br.buffer == old(br.buffer) + src.data[old(src.pos)..src.pos]
  {
    var t := br.GetU8(src);
    if t.Err? {
      return Err(t.error);
    }
    var p1 := src.pos;
    if t.value == 1 {
      var a := br.GetU32(src);
      Glue(old(br.buffer), src.data, old(src.pos), p1, src.pos);
      if a.Err? {
        return Err(a.error);
      }
      r := Ok((Some(IpV4(a.value)), None, AtIpv4));
    } else if t.value == 3 {
      var len := br.GetU8(src);
      Glue(old(br.buffer), src.data, old(src.pos), p1, src.pos);
      if len.Err? {
        return Err(len.error);
      }
      var p2 := src.pos;
      var d := br.GetNBytes(src, len.value);
      Glue(old(br.buffer), src.data, old(src.pos), p2, src.pos);
      if d.Err? {
        return Err(d.error);
      }
      if !ValidUtf8(d.value) {
        return Err(Utf8Error);
      }
      r := Ok((None, Some(d.value), AtDomain));
    } else if t.value == 4 {
      var a := br.GetU128(src);
      Glue(old(br.buffer), src.data, old(src.pos), p1, src.pos);
      if a.Err? {
        return Err(a.error);
      }
      r := Ok((Some(IpV6(a.value)), None, AtIpv6));
    } else {
      r := Err(AddrTypeUnsupported(5));
    }
  }

  method ParseReqV5(src: Cursor, br: BufReader) returns (r: Result<Request, Error>)
    requires src.Valid()
    modifies src, br
    ensures src.Valid() && Step(r, src.pos) == DecodeReqV5(src.data, old(src.pos), old(br.buffer))
    ensures br.buffer == old(br.buffer) + src.data[old(src.pos)..src.pos]
  {
    var nCmd := br.GetU8(src);
    if nCmd.Err? {
      return Err(nCmd.error);
    }
    var cmd := Codec.ReqCmdFromU8(nCmd.value);
    if cmd.None? {
      return Err(UnknownCmd(5));
    }
    var p1 := src.pos;
    var rsv := br.GetU8(src);
    Glue(old(br.buffer), src.data, old(src.pos), p1, src.pos);
    if rsv.Err? {
      return Err(rsv.error);
    }
    var p2 := src.pos;
    var addr := GetAddr(src, br);
    Glue(old(br.buffer), src.data, old(src.pos), p2, src.pos);
    if addr.Err? {
      return Err(addr.error);
    }
    var p3 := src.pos;
    var dstPort := br.GetU16(src);
    Glue(old(br.buffer), src.data, old(src.pos), p3, src.pos);
    if dstPort.Err? {
      return Err(dstPort.error);
    }
    var (dstAddr, dstDomain, aType) := addr.value;
    r := Ok(Request(V5, cmd.value, rsv.value, dstDomain, dstAddr, dstPort.value, aType, br.buffer));
  }

  method ParseReqHttpConnect(src: Cursor, br: BufReader, url: UrlParser) returns (r: Result<Request, Error>)
    requires src.Valid()
    modifies src, br
    ensures src.Valid() && Step(r, src.pos) == DecodeReqHttp(src.data, old(src.pos), old(br.buffer), url)
    ensures br.buffer == old(br.buffer) + src.data[old(src.pos)..src.pos]
  {
    var line := br.GetLine(src);
    if line.Err? {
      return Err(line.error);
    }
    var p1 := src.pos;
    while true
      invariant src.Valid() && p1 <= src.pos
      invariant br.buffer == old(br.buffer) + src.data[old(src.pos)..src.pos]
      invariant ReadHeaders(src.data, p1) == ReadHeaders(src.data, src.pos)
      decreases |src.data| - src.pos
    {
      var p := src.pos;
      var header := br.GetLine(src);
      Glue(old(br.buffer), src.data, old(src.pos), p, src.pos);
      if header.Err? {
        return Err(header.error);
      }
      if |header.value| == 0 {
        break;
      }
    }
    r := JudgeRequestLine(line.value, url, br.buffer);
  }

  method ParseReq(src: Cursor, authorized: bool, url: UrlParser) returns (r: Result<ReqFrame, Error>)
    requires src.Valid()
    modifies src
    ensures src.Valid() && Step(r, src.pos) == DecodeFrame(src.data, old(src.pos), authorized, url)
  {
    var br := new BufReader();
    var nVer := br.GetU8(src);
    if nVer.Err? {
      return Err(nVer.error);
    }
    assert br.buffer == src.data[old(src.pos)..src.pos];
    if nVer.value == 4 {
      var req := ParseReqV4(src, br);
      if req.Err? {
        return Err(req.error);
      }
      r := Ok(Req(req.value));
    } else if nVer.value == 5 {
      if !authorized {
        var auth := ParseAuth(src, br);
        if auth.Err? {
          return Err(auth.error);
        }
        r := Ok(Auth(auth.value));
      } else {
        var req := ParseReqV5(src, br);
        if req.Err? {
          return Err(req.error);
        }
        r := Ok(Req(req.value));
      }
    } else if nVer.value == 0x43 {
      var req := ParseReqHttpConnect(src, br, url);
      if req.Err? {
        return Err(req.error);
      }
      r := Ok(Req(req.value));
    } else {
      r := Err(VnUnsupported(nVer.value));
    }
  }

  method PreCheckParsing(src: Cursor, authorized: bool, url: UrlParser) returns (r: Result<Option<ReqFrame>, Error>)
    requires src.Valid()
    modifies src
    ensures r == PreCheck(src.data, old(src.pos), authorized, url)
  {
    var parsed := ParseReq(src, authorized, url);
    match parsed {
      case Ok(req) => r := Ok(Some(req));
      case Err(Incomplete) => r := Ok(None);
      case Err(err) => r := Err(err);
    }
  }

  /** Recording consecutive slices of the input records the slice they make up. */
  lemma Glue(pre: seq<u8>, data: seq<u8>, a: nat, b: nat, c: nat)
    requires a <= b <= c <= |data|
    ensures (pre + data[a..b]) + data[b..c] == pre + data[a..c]
  {
    Concat(data, a, b, c);
  }

  lemma Concat(data: seq<u8>, a: nat, b: nat, c: nat)
    requires a <= b <= c <= |data|
    ensures data[a..b] + data[b..c] == data[a..c]
  {
  }
}
