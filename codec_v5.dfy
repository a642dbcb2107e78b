/**
 * SOCKS5 in the cursor-only codec (src/protocol/v5.rs): method negotiation,
 * requests and replies over a `Cursor` (RFC 1928 sections 3 to 6), each proved
 * against a `Decode*` function, and `send_addr` / `send_reply` as functions
 * producing the bytes they write to the stream.
 */
module CodecV5 {
  import opened Bytes
  import opened Wrappers
  import opened Net
  import opened Errors
  import opened Cursors
  import opened Codec

  /** The discriminant `cmd as u8` (REP of RFC 1928 section 6). */
  function ReplyCmdByte(c: V5ReplyCmd): u8
  {
    match c
    case V5Successful => 0
    case V5ServerError => 1
    case V5RulesNotAllowed => 2
    case V5NetworkUnreachable => 3
    case V5HostUnreachable => 4
    case V5ConnectionRefused => 5
    case V5TtlExpired => 6
    case V5CmdUnsupported => 7
    case V5AddrTypeUnsupported => 8
  }

  function ReplyCmdFromU8(b: u8): (r: Option<V5ReplyCmd>)
    ensures r.Some? <==> b <= 8
    ensures r.Some? ==> ReplyCmdByte(r.value) == b
  {
    if b == 0 then Some(V5Successful)
    else if b == 1 then Some(V5ServerError)
    else if b == 2 then Some(V5RulesNotAllowed)
    else if b == 3 then Some(V5NetworkUnreachable)
    else if b == 4 then Some(V5HostUnreachable)
    else if b == 5 then Some(V5ConnectionRefused)
    else if b == 6 then Some(V5TtlExpired)
    else if b == 7 then Some(V5CmdUnsupported)
    else if b == 8 then Some(V5AddrTypeUnsupported)
    else None
  }

  lemma ReplyCmdRoundTrip(c: V5ReplyCmd)
    ensures ReplyCmdFromU8(ReplyCmdByte(c)) == Some(c)
  {
  }

  const NotV5Cmd: Error := Other("the cmd type was not a v5::ReplyCmd")

  /** `parse_auth_req`, from the byte after the version: NMETHODS, then that many offered bytes. */
  function DecodeAuthReq(data: seq<u8>, pos: nat): (s: Step<ReqAuth, Error>)
    requires pos <= |data|
    ensures pos <= s.pos <= |data|
    ensures s.result.Err? ==> s.result.error == Incomplete
    ensures s.result.Ok? <==> pos < |data| && |data| - pos - 1 >= data[pos]
    ensures s.result.Ok? && data[pos] == 0 ==> s.result.value.offered == None && s.pos == pos + 1
    ensures s.result.Ok? && data[pos] > 0 ==>
      pos + 1 <= s.pos &&
      s.result.value.offered == Some(data[pos + 1..(s.pos)]) && s.pos == pos + 1 + data[pos]
  {
    var n := DecodeU8(data, pos);
    if n.result.Err? then Step(Err(n.result.error), n.pos)
    else if n.result.value == 0 then Step(Ok(ReqAuth(None)), n.pos)
    else
      var ms := DecodeNBytes(data, n.pos, n.result.value);
      if ms.result.Err? then Step(Err(ms.result.error), ms.pos)
      else Step(Ok(ReqAuth(Some(ms.result.value))), ms.pos)
  }

  /** `parse_auth_reply`, from the byte after the version. */
  function DecodeAuthReply(data: seq<u8>, pos: nat): (s: Step<ReplyAuth, Error>)
    requires pos <= |data|
    ensures pos == |data| ==> s.result == Err(Incomplete)
    ensures pos < |data| ==> s.pos == pos + 1
    ensures pos < |data| ==> (s.result == Err(ServerRefusedAuth) <==> data[pos] == 0xFF)
    ensures s.result.Ok? ==> MethodByte(s.result.value.chosen) <= data[pos] && MethodFromU8(data[pos]) == Some(s.result.value.chosen)
  {
    var b := DecodeU8(data, pos);
    if b.result.Err? then Step(Err(b.result.error), b.pos)
    else match MethodFromU8(b.result.value)
      case Some(m) => Step(Ok(ReplyAuth(m)), b.pos)
      case None => Step(Err(ServerRefusedAuth), b.pos)
  }

  /**
   * `get_addr` (RFC 1928 section 5): ATYP 1 is an IPv4 address, 3 a
   * length-prefixed domain that must be UTF-8, 4 an IPv6 address read with
   * `get_u128` as written (128 bytes must remain after the type byte); any
   * other type is `AddrTypeUnsupported`.
   */
  function DecodeAddr(data: seq<u8>, pos: nat): (s: Step<(Option<IpAddr>, Option<seq<u8>>), Error>)
    requires pos <= |data|
    ensures pos <= s.pos <= |data|
    ensures pos < |data| && data[pos] !in {1, 3, 4} ==> s.result == Err(AddrTypeUnsupported)
    ensures s.result.Err? ==> s.result.error in {Incomplete, AddrTypeUnsupported, Utf8Error}
    ensures s.result == Err(Incomplete) <==>
      || pos == |data|
      || (data[pos] == 1 && |data| - pos < 5)
      || (data[pos] == 3 && (|data| - pos < 2 || |data| - pos - 2 < data[pos + 1]))
      || (data[pos] == 4 && |data| - pos < 129)
    ensures s.result == Err(Utf8Error) <==>
      && pos + 1 < |data| && data[pos] == 3 && pos + 2 + data[pos + 1] <= |data|
      && !ValidUtf8(data[pos + 2..pos + 2 + data[pos + 1]])
    ensures s.result.Ok? ==> (s.result.value.0.Some? <==> s.result.value.1.None?)
    ensures s.result.Ok? ==> pos < |data| && data[pos] in {1, 3, 4} && (data[pos] == 3 ==> pos + 1 < |data|)
    ensures s.result.Ok? && data[pos] == 1 ==>
      s.pos == pos + 5 && s.result.value.0 == Some(IpV4(BeValue(data[pos + 1..pos + 5])))
    ensures s.result.Ok? && data[pos] == 3 ==>
      && s.pos == pos + 2 + data[pos + 1]
      && s.result.value.1 == Some(data[pos + 2..(s.pos)])
      && ValidUtf8(data[pos + 2..(s.pos)])
    ensures s.result.Ok? && data[pos] == 4 ==>
      && s.pos == pos + 17 && pos + 129 <= |data|
      && s.result.value.0.Some? && s.result.value.0.value.IpV6?
      && U128Be(s.result.value.0.value.v6) == data[pos + 1..pos + 17]
  {
    var t := DecodeU8(data, pos);
    if t.result.Err? then Step(Err(t.result.error), t.pos)
    else if t.result.value == 1 then
      var a := DecodeU32(data, t.pos);
      if a.result.Err? then Step(Err(a.result.error), a.pos)
      else Step(Ok((Some(IpV4(a.result.value)), None)), a.pos)
    else if t.result.value == 3 then
      var len := DecodeU8(data, t.pos);
      if len.result.Err? then Step(Err(len.result.error), len.pos)
      else
        var d := DecodeNBytes(data, len.pos, len.result.value);
        if d.result.Err? then Step(Err(d.result.error), d.pos)
        else if !ValidUtf8(d.result.value) then Step(Err(Utf8Error), d.pos)
        else Step(Ok((None, Some(d.result.value))), d.pos)
    else if t.result.value == 4 then
      var a := DecodeU128AsWritten(data, t.pos);
      if a.result.Err? then Step(Err(a.result.error), a.pos)
      else
        BeWidthRoundTrip(data[t.pos..t.pos + 16]);
        Step(Ok((Some(IpV6(a.result.value)), None)), a.pos)
    else Step(Err(AddrTypeUnsupported), t.pos)
  }

  /**
   * `get_addr` with `get_u128` as intended: an IPv6 address needs only its
   * sixteen bytes. Every other type is read as `get_addr` reads it.
   */
  function DecodeAddrCorrected(data: seq<u8>, pos: nat): (s: Step<(Option<IpAddr>, Option<seq<u8>>), Error>)
    requires pos <= |data|
    ensures pos <= s.pos <= |data|
    ensures !(pos < |data| && data[pos] == 4) ==> s == DecodeAddr(data, pos)
    ensures pos < |data| && data[pos] == 4 ==>
      && (s.result.Err? <==> |data| - pos < 17)
      && (s.result.Err? ==> s == Step(Err(Incomplete), pos + 1))
      && (s.result.Ok? ==>
            && s.pos == pos + 17 && s.result.value.1 == None
            && s.result.value.0.Some? && s.result.value.0.value.IpV6?
            && U128Be(s.result.value.0.value.v6) == data[pos + 1..pos + 17])
  {
    if pos < |data| && data[pos] == 4 then
      var a := DecodeU128(data, pos + 1);
      if a.result.Err? then Step(Err(a.result.error), a.pos)
      else
        BeWidthRoundTrip(data[pos + 1..pos + 17]);
        Step(Ok((Some(IpV6(a.result.value)), None)), a.pos)
    else DecodeAddr(data, pos)
  }

  /**
   * The corrected reader accepts everything `get_addr` as written accepts, with
   * the same result; it differs only on an IPv6 address followed by fewer than
   * 112 bytes, which `get_addr` calls incomplete.
   */
  lemma AddrCorrectedExtends(data: seq<u8>, pos: nat)
    requires pos <= |data|
    ensures DecodeAddr(data, pos).result.Ok? ==> DecodeAddrCorrected(data, pos) == DecodeAddr(data, pos)
    ensures DecodeAddrCorrected(data, pos) != DecodeAddr(data, pos) <==>
      pos + 17 <= |data| < pos + 129 && data[pos] == 4
  {
    if pos < |data| && data[pos] == 4 && pos + 129 <= |data| {
      BeWidthRoundTrip(data[pos + 1..pos + 17]);
    }
  }

  /** `parse_req`, from the byte after the version. */
  function DecodeReq(data: seq<u8>, pos: nat): (s: Step<Request, Error>)
    requires pos <= |data|
    ensures pos <= s.pos <= |data|
    ensures pos < |data| && ReqCmdFromU8(data[pos]).None? ==> s.result == Err(UnknownCmd(data[pos]))
    ensures s.result.Ok? ==>
      var r := s.result.value;
      && pos + 2 < s.pos
      && r.ver == V5 && r.userId == None && r.rsv == data[pos + 1]
      && ReqCmdByte(r.cmd) == data[pos]
      && (r.dstIp.Some? <==> r.domain.None?)
      && DecodeAddr(data, pos + 2).result == Ok((r.dstIp, r.domain))
      && DecodeU16(data, DecodeAddr(data, pos + 2).pos) == Step(Ok(r.dstPort), s.pos)
  {
    var c := DecodeU8(data, pos);
    if c.result.Err? then Step(Err(c.result.error), c.pos)
    else match ReqCmdFromU8(c.result.value)
      case None => Step(Err(UnknownCmd(c.result.value)), c.pos)
      case Some(cmd) =>
        var rsv := DecodeU8(data, c.pos);
        if rsv.result.Err? then Step(Err(rsv.result.error), rsv.pos)
        else
          var a := DecodeAddr(data, rsv.pos);
          if a.result.Err? then Step(Err(a.result.error), a.pos)
          else
            var port := DecodeU16(data, a.pos);
            if port.result.Err? then Step(Err(port.result.error), port.pos)
            else
              var (ip, domain) := a.result.value;
              Step(Ok(Request(V5, cmd, ip, port.result.value, None, rsv.result.value, domain)), port.pos)
  }

  /** `parse_reply`, from the byte after the version. */
  function DecodeReply(data: seq<u8>, pos: nat): (s: Step<Reply, Error>)
    requires pos <= |data|
    ensures pos <= s.pos <= |data|
    ensures pos < |data| && data[pos] > 8 ==> s.result == Err(UnknownCmd(data[pos]))
    ensures s.result.Ok? ==>
      var r := s.result.value;
      && pos + 2 < s.pos
      && r.ver == V5 && r.rsv == data[pos + 1]
      && r.cmd.ReplyV5? && ReplyCmdByte(r.cmd.v5) == data[pos]
      && (r.bindAddr.Some? <==> r.domain.None?)
      && DecodeAddr(data, pos + 2).result == Ok((r.bindAddr, r.domain))
      && DecodeU16(data, DecodeAddr(data, pos + 2).pos) == Step(Ok(r.bindPort), s.pos)
  {
    var c := DecodeU8(data, pos);
    if c.result.Err? then Step(Err(c.result.error), c.pos)
    else match ReplyCmdFromU8(c.result.value)
      case None => Step(Err(UnknownCmd(c.result.value)), c.pos)
      case Some(cmd) =>
        var rsv := DecodeU8(data, c.pos);
        if rsv.result.Err? then Step(Err(rsv.result.error), rsv.pos)
        else
          var a := DecodeAddr(data, rsv.pos);
          if a.result.Err? then Step(Err(a.result.error), a.pos)
          else
            var port := DecodeU16(data, a.pos);
            if port.result.Err? then Step(Err(port.result.error), port.pos)
            else
              var (ip, domain) := a.result.value;
              Step(Ok(Reply(V5, ReplyV5(cmd), rsv.result.value, ip, domain, port.result.value)), port.pos)
  }

  method ParseAuthReq(src: Cursor) returns (r: Result<ReqAuth, Error>)
    requires src.Valid()
    modifies src
    ensures src.Valid() && Step(r, src.pos) == DecodeAuthReq(src.data, old(src.pos))
  {
    var nMethods := GetU8(src);
    if nMethods.Err? {
      return Err(nMethods.error);
    }
    if nMethods.value > 0 {
      var offer := GetNBytes(src, nMethods.value);
      if offer.Err? {
        return Err(offer.error);
      }
      r := Ok(ReqAuth(Some(offer.value)));
    } else {
      r := Ok(ReqAuth(None));
    }
  }

  method ParseAuthReply(src: Cursor) returns (r: Result<ReplyAuth, Error>)
    requires src.Valid()
    modifies src
    ensures src.Valid() && Step(r, src.pos) == DecodeAuthReply(src.data, old(src.pos))
  {
    var b := GetU8(src);
    if b.Err? {
      return Err(b.error);
    }
    var m := MethodFromU8(b.value);
    if m.Some? {
      r := Ok(ReplyAuth(m.value));
    } else {
      r := Err(ServerRefusedAuth);
    }
  }

  method GetAddr(src: Cursor) returns (r: Result<(Option<IpAddr>, Option<seq<u8>>), Error>)
    requires src.Valid()
    modifies src
    ensures src.Valid() && Step(r, src.pos) == DecodeAddr(src.data, old(src.pos))
  {
    var aType := GetU8(src);
    if aType.Err? {
      return Err(aType.error);
    }
    if aType.value == 1 {
      var a := GetU32(src);
      if a.Err? {
        return Err(a.error);
      }
      r := Ok((Some(IpV4(a.value)), None));
    } else if aType.value == 3 {
      var aLen := GetU8(src);
      if aLen.Err? {
        return Err(aLen.error);
      }
      var d := GetNBytes(src, aLen.value);
      if d.Err? {
        return Err(d.error);
      }
      if !ValidUtf8(d.value) {
        return Err(Utf8Error);
      }
      r := Ok((None, Some(d.value)));
    } else if aType.value == 4 {
      var a := GetU128(src);
      if a.Err? {
        return Err(a.error);
      }
      r := Ok((Some(IpV6(a.value)), None));
    } else {
      r := Err(AddrTypeUnsupported);
    }
  }

  method ParseReq(src: Cursor) returns (r: Result<Request, Error>)
    requires src.Valid()
    modifies src
    ensures src.Valid() && Step(r, src.pos) == DecodeReq(src.data, old(src.pos))
  {
    var nCmd := GetU8(src);
    if nCmd.Err? {
      return Err(nCmd.error);
    }
    var cmd := ReqCmdFromU8(nCmd.value);
    if cmd.None? {
      return Err(UnknownCmd(nCmd.value));
    }
    var rsv := GetU8(src);
    if rsv.Err? {
      return Err(rsv.error);
    }
    var addr := GetAddr(src);
    if addr.Err? {
      return Err(addr.error);
    }
    var port := GetU16(src);
    if port.Err? {
      return Err(port.error);
    }
    var (dstAddr, domain) := addr.value;
    r := Ok(Request(V5, cmd.value, dstAddr, port.value, None, rsv.value, domain));
  }

  method ParseReply(src: Cursor) returns (r: Result<Reply, Error>)
    requires src.Valid()
    modifies src
    ensures src.Valid() && Step(r, src.pos) == DecodeReply(src.data, old(src.pos))
  {
    var nCmd := GetU8(src);
    if nCmd.Err? {
      return Err(nCmd.error);
    }
    var cmd := ReplyCmdFromU8(nCmd.value);
    if cmd.None? {
      return Err(UnknownCmd(nCmd.value));
    }
    var rsv := GetU8(src);
    if rsv.Err? {
      return Err(rsv.error);
    }
    var addr := GetAddr(src);
    if addr.Err? {
      return Err(addr.error);
    }
    var port := GetU16(src);
    if port.Err? {
      return Err(port.error);
    }
    var (bindAddr, domain) := addr.value;
    r := Ok(Reply(V5, ReplyV5(cmd.value), rsv.value, bindAddr, domain, port.value));
  }

  /**
   * `send_addr`: a domain wins over an IP and is cut to its first 255 bytes
   * (slicing a `String` there panics unless 255 is a character boundary, which
   * the caller must ensure); with neither, `AddrTypeUnsupported`. The frame is
   * the type byte, the body, then the big-endian port.
   */
  function SendAddr(ip: Option<IpAddr>, domain: Option<seq<u8>>, port: u16): (r: Result<seq<u8>, Error>)
    requires domain.Some? && |domain.value| > 255 ==> !IsCont(domain.value[255])
    ensures r.Err? <==> domain.None? && ip.None?
    ensures r.Err? ==> r.error == AddrTypeUnsupported
    ensures r.Ok? ==> |r.value| >= 3 && r.value[|r.value| - 2..] == U16Be(port)
    ensures r.Ok? && domain.Some? ==> r.value[0] == 3 && r.value[1] == |r.value| - 4 <= 255
    ensures r.Ok? && domain.None? ==> r.value[0] == (if ip.value.IpV4? then 1 else 4)
  {
    match domain
    case Some(d) =>
      var len := if |d| <= 255 then |d| else 255;
      Ok([3, len] + d[..len] + U16Be(port))
    case None =>
      match ip
      case None => Err(AddrTypeUnsupported)
      case Some(IpV4(a)) => Ok([1] + U32Be(a) + U16Be(port))
      case Some(IpV6(a)) => Ok([4] + U128Be(a) + U16Be(port))
  }

  /** `send_reply`: version 5, the code, RSV 0, then `send_addr`; a non-SOCKS5 code is an error. */
  function SendReply(reply: Reply): (r: Result<seq<u8>, Error>)
    requires reply.domain.Some? && |reply.domain.value| > 255 ==> !IsCont(reply.domain.value[255])
    ensures !reply.cmd.ReplyV5? ==> r == Err(NotV5Cmd)
    ensures r.Ok? ==> |r.value| > 3 && r.value[..3] == [5, ReplyCmdByte(reply.cmd.v5), 0]
    ensures reply.cmd.ReplyV5? ==>
      r == match SendAddr(reply.bindAddr, reply.domain, reply.bindPort)
           case Ok(a) => Ok([5, ReplyCmdByte(reply.cmd.v5), 0] + a)
           case Err(e) => Err(e)
  {
    if !reply.cmd.ReplyV5? then Err(NotV5Cmd)
    else
      match SendAddr(reply.bindAddr, reply.domain, reply.bindPort)
      case Err(e) => Err(e)
      case Ok(a) => Ok([5, ReplyCmdByte(reply.cmd.v5), 0] + a)
  }

  // ---------------------------------------------------------------------------
  // Round trips and the unit tests of v5.rs

  /** The decoded form of what `send_addr` encodes: the domain, cut to 255 bytes, wins over the IP. */
  function SentAddr(ip: Option<IpAddr>, domain: Option<seq<u8>>): (Option<IpAddr>, Option<seq<u8>>)
  {
    match domain
    case Some(d) => (None, Some(if |d| <= 255 then d else d[..255]))
    case None => (ip, None)
  }

  /**
   * `get_addr` followed by `get_u16` on the output of `send_addr`, wherever it
   * stands in a frame, recovers the address and the port and consumes the rest
   * of the frame, for a UTF-8 domain of any length that can be cut at 255, or
   * an IP address of either family, once `get_u128` is corrected. As written,
   * `get_addr` reads the same for a domain or an IPv4 address, and calls the
   * 19 bytes of an IPv6 address and port incomplete.
   */
  lemma SendAddrRoundTrip(pre: seq<u8>, ip: Option<IpAddr>, domain: Option<seq<u8>>, port: u16)
    requires domain.Some? ==> ValidUtf8(domain.value) && (|domain.value| > 255 ==> !IsCont(domain.value[255]))
    requires domain.None? ==> ip.Some?
    ensures SendAddr(ip, domain, port).Ok?
    ensures var bs := pre + SendAddr(ip, domain, port).value;
      var a := DecodeAddrCorrected(bs, |pre|);
      && a.result == Ok(SentAddr(ip, domain)) && DecodeU16(bs, a.pos) == Step(Ok(port), |bs|)
      && if domain.None? && ip.value.IpV6? then DecodeAddr(bs, |pre|) == Step(Err(Incomplete), |pre| + 1)
         else DecodeAddr(bs, |pre|) == a
  {
    match domain {
      case Some(d) => SendDomainRoundTrip(pre, ip, d, port);
      case None => SendIpRoundTrip(pre, ip.value, port);
    }
  }

  lemma SendDomainRoundTrip(pre: seq<u8>, ip: Option<IpAddr>, d: seq<u8>, port: u16)
    requires ValidUtf8(d) && (|d| > 255 ==> !IsCont(d[255]))
    ensures SendAddr(ip, Some(d), port).Ok?
    ensures var bs := pre + SendAddr(ip, Some(d), port).value;
      var a := DecodeAddr(bs, |pre|);
      a.result == Ok(SentAddr(ip, Some(d))) && DecodeU16(bs, a.pos) == Step(Ok(port), |bs|)
  {
    var len := if |d| <= 255 then |d| else 255;
    assert SendAddr(ip, Some(d), port).value == [3, len] + d[..len] + U16Be(port);
    assert d[..len] == SentAddr(ip, Some(d)).1.value;
    DomainRoundTrip(pre, d, port);
  }

  lemma SendIpRoundTrip(pre: seq<u8>, ip: IpAddr, port: u16)
    ensures SendAddr(Some(ip), None, port).Ok?
    ensures var bs := pre + SendAddr(Some(ip), None, port).value;
      var a := DecodeAddrCorrected(bs, |pre|);
      && a.result == Ok((Some(ip), None)) && DecodeU16(bs, a.pos) == Step(Ok(port), |bs|)
      && if ip.IpV6? then DecodeAddr(bs, |pre|) == Step(Err(Incomplete), |pre| + 1)
         else DecodeAddr(bs, |pre|) == a
  {
    match ip {
      case IpV4(v4) =>
        assert pre + SendAddr(Some(ip), None, port).value == pre + [1] + U32Be(v4) + U16Be(port);
        Ipv4RoundTrip(pre, v4, port);
      case IpV6(v6) =>
        assert pre + SendAddr(Some(ip), None, port).value == pre + [4] + U128Be(v6) + U16Be(port);
        Ipv6RoundTrip(pre, v6, port);
    }
  }

  lemma DomainRoundTrip(pre: seq<u8>, d: seq<u8>, port: u16)
    requires ValidUtf8(d) && (|d| > 255 ==> !IsCont(d[255]))
    ensures var len := if |d| <= 255 then |d| else 255;
      var bs: seq<u8> := pre + ([3, len] + d[..len] + U16Be(port));
      && DecodeAddr(bs, |pre|) == Step(Ok((None, Some(d[..len]))), |pre| + 2 + len)
      && DecodeU16(bs, |pre| + 2 + len) == Step(Ok(port), |bs|)
  {
    var k := |pre|;
    var len := if |d| <= 255 then |d| else 255;
    var body := d[..len];
    var p := U16Be(port);
    BeWidthRoundTrip(p);
    var bs: seq<u8> := pre + ([3, len] + body + p);
    ValidUtf8Prefix(d, len);
    assert bs[k] == 3 && bs[k + 1] == len;
    assert bs[k + 2..k + 2 + len] == body;
    DomainAt(bs, k, body);
    assert bs[k + 2 + len..k + 4 + len] == p;
  }

  /** A type-3 address at `k` in any frame: only the bytes it names are read. */
  lemma DomainAt(bs: seq<u8>, k: nat, d: seq<u8>)
    requires ValidUtf8(d) && k + 2 + |d| <= |bs|
    requires bs[k] == 3 && bs[k + 1] == |d| && bs[k + 2..k + 2 + |d|] == d
    ensures DecodeAddr(bs, k) == Step(Ok((None, Some(d))), k + 2 + |d|)
  {
    assert DecodeNBytes(bs, k + 2, |d|) == Step(Ok(d), k + 2 + |d|);
  }

  lemma Ipv4RoundTrip(pre: seq<u8>, v4: u32, port: u16)
    ensures var bs: seq<u8> := pre + [1] + U32Be(v4) + U16Be(port);
      && DecodeAddr(bs, |pre|) == Step(Ok((Some(IpV4(v4)), None)), |pre| + 5)
      && DecodeU16(bs, |pre| + 5) == Step(Ok(port), |bs|)
  {
    var k := |pre|;
    var a := U32Be(v4);
    var p := U16Be(port);
    BeWidthRoundTrip(p);
    var bs: seq<u8> := pre + [1] + a + p;
    assert bs[k] == 1;
    assert bs[k + 1..k + 5] == a && bs[k + 5..k + 7] == p;
  }

  /**
   * An IPv6 address and a port at the end of a frame: the corrected reader
   * recovers both; as written, `get_addr` finds 18 of the 128 bytes it wants
   * and reports `Incomplete` after the type byte.
   */
  lemma Ipv6RoundTrip(pre: seq<u8>, v6: u128, port: u16)
    ensures var bs: seq<u8> := pre + [4] + U128Be(v6) + U16Be(port);
      && DecodeAddrCorrected(bs, |pre|) == Step(Ok((Some(IpV6(v6)), None)), |pre| + 17)
      && DecodeU16(bs, |pre| + 17) == Step(Ok(port), |bs|)
      && DecodeAddr(bs, |pre|) == Step(Err(Incomplete), |pre| + 1)
  {
    var k := |pre|;
    var a := U128Be(v6);
    var p := U16Be(port);
    BeWidthRoundTrip(a);
    BeWidthRoundTrip(p);
    var bs: seq<u8> := pre + [4] + a + p;
    assert bs[k] == 4;
    assert bs[k + 1..k + 17] == a && bs[k + 17..k + 19] == p;
  }

  /**
   * Decoding what `send_reply` writes, after its version byte, recovers the
   * SOCKS5 reply (with the IP dropped when a domain is present) and consumes
   * it, except that `parse_reply` as written calls a reply with an IPv6
   * address incomplete; with the corrected `get_u128` that address and the
   * port are read back too.
   */
  lemma SendReplyRoundTrip(reply: Reply)
    requires reply.ver == V5 && reply.cmd.ReplyV5? && reply.rsv == 0
    requires reply.domain.Some? ==> ValidUtf8(reply.domain.value) && |reply.domain.value| <= 255
    requires reply.domain.None? ==> reply.bindAddr.Some?
    ensures SendReply(reply).Ok?
    ensures var bs := SendReply(reply).value;
      var a := DecodeAddrCorrected(bs, 3);
      && a.result == Ok(SentAddr(reply.bindAddr, reply.domain))
      && DecodeU16(bs, a.pos) == Step(Ok(reply.bindPort), |bs|)
      && if reply.domain.None? && reply.bindAddr.value.IpV6? then
           DecodeReply(bs, 1) == Step(Err(Incomplete), 4)
         else
           DecodeReply(bs, 1) == Step(Ok(reply.(bindAddr := SentAddr(reply.bindAddr, reply.domain).0)), |bs|)
  {
    var pre := [5, ReplyCmdByte(reply.cmd.v5), 0];
    SendAddrRoundTrip(pre, reply.bindAddr, reply.domain, reply.bindPort);
    ReplyCmdRoundTrip(reply.cmd.v5);
  }

  /** `ReplyAuth::send` is read back by `parse_auth_reply`. */
  lemma AuthReplyRoundTrip(r: ReplyAuth)
    ensures DecodeAuthReply(SendReplyAuth(r), 1) == Step(Ok(r), 2)
  {
    MethodRoundTrip(r.chosen);
  }

  /** `www.google.com` in ASCII. */
  const TestHost: seq<u8> := [0x77, 0x77, 0x77, 0x2e, 0x67, 0x6f, 0x6f, 0x67, 0x6c, 0x65, 0x2e, 0x63, 0x6f, 0x6d]

  const TestFrame: seq<u8> := [0x05, 0x02, 0x00, 0x03, 0x0e] + TestHost + [0x18, 0xeb]

  /** A request whose address is a domain `d` at byte 3, whatever the frame. */
  lemma DomainReqAt(bs: seq<u8>, d: seq<u8>)
    requires ValidUtf8(d) && 5 + |d| <= |bs|
    requires bs[1] in {1, 2, 3} && bs[3] == 3 && bs[4] == |d| && bs[5..5 + |d|] == d
    ensures |bs| >= 7 + |d| ==> DecodeReq(bs, 1) == Step(Ok(Request(V5, ReqCmdFromU8(bs[1]).value, None,
      BeValue(bs[5 + |d|..7 + |d|]), None, bs[2], Some(d))), 7 + |d|)
    ensures |bs| < 7 + |d| ==> DecodeReq(bs, 1).result == Err(Incomplete)
  {
    DomainAt(bs, 3, d);
    assert DecodeU8(bs, 1) == Step(Ok(bs[1]), 2);
    assert DecodeU8(bs, 2) == Step(Ok(bs[2]), 3);
  }

  /**
   * The unit test of v5.rs: a Bind request to `www.google.com:6379`.
   */
  lemma ParseReqTestVector()
    ensures DecodeReq(TestFrame, 1).result == Ok(Request(V5, Bind, None, 6379, None, 0, Some(TestHost)))
  {
    TestHostIsUtf8();
    var f := TestFrame;
    assert f[5..19] == TestHost;
    DomainReqAt(f, TestHost);
    assert f[19..21] == [0x18, 0xeb];
    BeValue2(0x18, 0xeb);
  }

  /** The same request without its last byte is `Incomplete`. */
  lemma ParseReqTestVectorCut()
    ensures DecodeReq(TestFrame[..20], 1).result == Err(Incomplete)
  {
    TestHostIsUtf8();
    var g := TestFrame[..20];
    assert g[5..19] == TestHost;
    DomainReqAt(g, TestHost);
  }

  lemma TestHostIsUtf8()
    ensures ValidUtf8(TestHost)
  {
    assert IsAscii(TestHost);
    AsciiIsUtf8(TestHost);
  }
}
