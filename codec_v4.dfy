/**
 * SOCKS4 in the cursor-only codec (src/protocol/v4.rs): request and reply
 * parsers over a `Cursor`, each proved against a `Decode*` function, and the
 * serialisers `send_req` / `send_reply` as functions producing the bytes they
 * write to the stream.
 */
module CodecV4 {
  import opened Bytes
  import opened Wrappers
  import opened Net
  import opened Errors
  import opened Cursors
  import opened Codec

  /** The discriminant `cmd as u8`. */
  function ReplyCmdByte(c: V4ReplyCmd): u8
  {
    match c
    case V4Successful => 90
    case V4ConnectionRefused => 91
    case V4ConnectionFailed => 92
    case V4ConnectionFailedWithUserId => 93
  }

  function ReplyCmdFromU8(b: u8): (r: Option<V4ReplyCmd>)
    ensures r.Some? <==> 90 <= b <= 93
    ensures r.Some? ==> ReplyCmdByte(r.value) == b
  {
    if b == 90 then Some(V4Successful)
    else if b == 91 then Some(V4ConnectionRefused)
    else if b == 92 then Some(V4ConnectionFailed)
    else if b == 93 then Some(V4ConnectionFailedWithUserId)
    else None
  }

  lemma ReplyCmdRoundTrip(c: V4ReplyCmd)
    ensures ReplyCmdFromU8(ReplyCmdByte(c)) == Some(c)
  {
  }

  const NotIpV4Addr: Error := Other("the ip_addr type was not a IpAddr::V4")

  /** `parse_addr`: a big-endian port, then a big-endian IPv4 address. */
  function DecodeAddr(data: seq<u8>, pos: nat): (s: Step<(u16, u32), Error>)
    requires pos <= |data|
    ensures pos <= s.pos <= |data|
    ensures s.result.Err? <==> |data| - pos < 6
    ensures s.result.Err? ==> s.result.error == Incomplete
    ensures s.result.Ok? ==>
      && s.pos == pos + 6
      && s.result.value.0 == BeValue(data[pos..pos + 2])
      && s.result.value.1 == BeValue(data[pos + 2..pos + 6])
  {
    var port := DecodeU16(data, pos);
    if port.result.Err? then Step(Err(port.result.error), port.pos)
    else
      var ip := DecodeU32(data, port.pos);
      if ip.result.Err? then Step(Err(ip.result.error), ip.pos)
      else Step(Ok((port.result.value, ip.result.value)), ip.pos)
  }

  /** `parse_req`, from the byte after the version. */
  function DecodeReq(data: seq<u8>, pos: nat): (s: Step<Request, Error>)
    requires pos <= |data|
    ensures pos <= s.pos <= |data|
    ensures pos < |data| && ReqCmdFromU8(data[pos]).None? ==> s.result == Err(UnknownCmd(data[pos]))
    ensures s.result.Ok? ==>
      var r := s.result.value;
      && pos + 7 < s.pos
      && r.ver == V4 && r.rsv == 0 && r.domain == None
      && ReqCmdByte(r.cmd) == data[pos]
      && r.dstPort == BeValue(data[pos + 1..pos + 3])
      && r.dstIp == Some(IpV4(BeValue(data[pos + 3..pos + 7])))
      && r.userId == Some(data[pos + 7..(s.pos - 1)])
      && data[s.pos - 1] == 0 && 0 !in r.userId.value
      && ValidUtf8(r.userId.value)
  {
    var c := DecodeU8(data, pos);
    if c.result.Err? then Step(Err(c.result.error), c.pos)
    else match ReqCmdFromU8(c.result.value)
      case None => Step(Err(UnknownCmd(c.result.value)), c.pos)
      case Some(cmd) =>
        var a := DecodeAddr(data, c.pos);
        if a.result.Err? then Step(Err(a.result.error), a.pos)
        else
          var u := DecodeUntil(data, a.pos, 0);
          DecodeUntilNul(data, a.pos);
          if u.result.Err? then Step(Err(u.result.error), u.pos)
          else if !ValidUtf8(u.result.value) then Step(Err(Utf8Error), u.pos)
          else
            var (port, ip) := a.result.value;
            Step(Ok(Request(V4, cmd, Some(IpV4(ip)), port, Some(u.result.value), 0, None)), u.pos)
  }

  /**
   * The errors of `parse_req`: an unknown command, `Incomplete` exactly when
   * the frame ends before the address is complete or before a NUL ends the
   * user id, and the UTF-8 error exactly when the user id up to the first NUL
   * is not UTF-8; the cursor then stands just past that NUL.
   */
  lemma DecodeReqErrors(data: seq<u8>, pos: nat)
    requires pos <= |data|
    ensures var s := DecodeReq(data, pos);
      && (s.result.Err? ==> s.result.error in {Incomplete, Utf8Error} || s.result.error.UnknownCmd?)
      && (s.result == Err(Incomplete) <==>
            pos == |data| || (ReqCmdFromU8(data[pos]).Some? && (|data| - pos < 7 || 0 !in data[pos + 7..])))
    ensures var s := DecodeReq(data, pos);
      forall k | pos < |data| && ReqCmdFromU8(data[pos]).Some? &&
                 pos + 7 <= k < |data| && data[k] == 0 && 0 !in data[pos + 7..k] ::
        s.pos == k + 1 && (s.result == Err(Utf8Error) <==> !ValidUtf8(data[pos + 7..k]))
  {
    var s := DecodeReq(data, pos);
    if pos < |data| && ReqCmdFromU8(data[pos]).Some? && |data| - pos >= 7 {
      var a := DecodeAddr(data, pos + 1);
      assert a.pos == pos + 7;
      DecodeUntilNul(data, pos + 7);
      forall k | pos + 7 <= k < |data| && data[k] == 0 && 0 !in data[pos + 7..k]
        ensures s.pos == k + 1 && (s.result == Err(Utf8Error) <==> !ValidUtf8(data[pos + 7..k]))
      {
        DecodeUntilAt(data, pos + 7, k);
      }
    }
  }

  /** `parse_reply`, from the byte after the version. */
  function DecodeReply(data: seq<u8>, pos: nat): (s: Step<Reply, Error>)
    requires pos <= |data|
    ensures pos <= s.pos <= |data|
    ensures pos < |data| && ReplyCmdFromU8(data[pos]).None? ==> s.result == Err(UnknownCmd(data[pos]))
    ensures s.result.Ok? <==> |data| - pos >= 7 && ReplyCmdFromU8(data[pos]).Some?
    ensures s.result.Ok? ==>
      var r := s.result.value;
      && s.pos == pos + 7
      && r.ver == V4 && r.rsv == 0 && r.domain == None
      && r.cmd == ReplyV4(ReplyCmdFromU8(data[pos]).value)
      && r.bindPort == BeValue(data[pos + 1..pos + 3])
      && r.bindAddr == Some(IpV4(BeValue(data[pos + 3..pos + 7])))
  {
    var c := DecodeU8(data, pos);
    if c.result.Err? then Step(Err(c.result.error), c.pos)
    else match ReplyCmdFromU8(c.result.value)
      case None => Step(Err(UnknownCmd(c.result.value)), c.pos)
      case Some(cmd) =>
        var a := DecodeAddr(data, c.pos);
        if a.result.Err? then Step(Err(a.result.error), a.pos)
        else
          var (port, ip) := a.result.value;
          Step(Ok(Reply(V4, ReplyV4(cmd), 0, Some(IpV4(ip)), None, port)), a.pos)
  }

  method ParseAddr(src: Cursor) returns (r: Result<(u16, u32), Error>)
    requires src.Valid()
    modifies src
    ensures src.Valid() && Step(r, src.pos) == DecodeAddr(src.data, old(src.pos))
  {
    var port := GetU16(src);
    if port.Err? {
      return Err(port.error);
    }
    var ipv4 := GetU32(src);
    if ipv4.Err? {
      return Err(ipv4.error);
    }
    r := Ok((port.value, ipv4.value));
  }

  method ParseReq(src: Cursor) returns (r: Result<Request, Error>)
    requires src.Valid()
    modifies src
    ensures src.Valid() && Step(r, src.pos) == DecodeReq(src.data, old(src.pos))
  {
    var nCmd := GetU8(src);
    if nCmd.Err? {
      return Err(nCmd.error);
    }
    var cmd := ReqCmdFromU8(nCmd.value);
    if cmd.None? {
      return Err(UnknownCmd(nCmd.value));
    }
    var addr := ParseAddr(src);
    if addr.Err? {
      return Err(addr.error);
    }
    var userId := GetUntil(src, 0);
    if userId.Err? {
      return Err(userId.error);
    }
    if !ValidUtf8(userId.value) {
      return Err(Utf8Error);
    }
    var (port, ipv4) := addr.value;
    r := Ok(Request(V4, cmd.value, Some(IpV4(ipv4)), port, Some(userId.value), 0, None));
  }

  method ParseReply(src: Cursor) returns (r: Result<Reply, Error>)
    requires src.Valid()
    modifies src
    ensures src.Valid() && Step(r, src.pos) == DecodeReply(src.data, old(src.pos))
  {
    var nCmd := GetU8(src);
    if nCmd.Err? {
      return Err(nCmd.error);
    }
    var cmd := ReplyCmdFromU8(nCmd.value);
    if cmd.None? {
      return Err(UnknownCmd(nCmd.value));
    }
    var addr := ParseAddr(src);
    if addr.Err? {
      return Err(addr.error);
    }
    var (port, ipv4) := addr.value;
    r := Ok(Reply(V4, ReplyV4(cmd.value), 0, Some(IpV4(ipv4)), None, port));
  }

  /**
   * `send_req`: version 4, the command, the big-endian port and IPv4 address,
   * then the user id and a NUL only when a user id is present. An IPv6
   * destination is an error; a missing one is `unwrap` on `None`, which the
   * caller must not do.
   */
  function SendReq(req: Request): (r: Result<seq<u8>, Error>)
    requires req.dstIp.Some?
    ensures r.Err? <==> req.dstIp.value.IpV6?
    ensures r.Err? ==> r.error == NotIpV4Addr
  {
    match req.dstIp.value
    case IpV6(_) => Err(NotIpV4Addr)
    case IpV4(ip) =>
      var head := [4, ReqCmdByte(req.cmd)] + U16Be(req.dstPort) + U32Be(ip);
      match req.userId
      case Some(u) => Ok(head + u + [0])
      case None => Ok(head)
  }

  /**
   * `send_reply`: 0, the code, the big-endian port and IPv4 address. A cmd that
   * is not a SOCKS4 code or an IPv6 address is an error; a missing address is
   * `unwrap` on `None`.
   */
  function SendReply(reply: Reply): (r: Result<seq<u8>, Error>)
    requires reply.cmd.ReplyV4? ==> reply.bindAddr.Some?
    ensures r.Err? <==> !reply.cmd.ReplyV4? || reply.bindAddr.value.IpV6?
  {
    match UnwrapV4(reply.cmd)
    case Err(e) => Err(e)
    case Ok(cmd) =>
      match reply.bindAddr.value
      case IpV6(_) => Err(NotIpV4Addr)
      case IpV4(ip) => Ok([0, ReplyCmdByte(cmd)] + U16Be(reply.bindPort) + U32Be(ip))
  }

  // ---------------------------------------------------------------------------
  // Round trips and the unit tests of v4.rs

  /**
   * Decoding what `send_req` writes, after its version byte, recovers the
   * command, port, address and a NUL-free user id, and consumes the frame.
   */
  lemma SendReqRoundTrip(req: Request)
    requires req.ver == V4 && req.rsv == 0 && req.domain == None
    requires req.dstIp.Some? && req.dstIp.value.IpV4?
    requires req.userId.Some? && 0 !in req.userId.value && ValidUtf8(req.userId.value)
    ensures SendReq(req).Ok?
    ensures var bs := SendReq(req).value;
      |bs| > 0 && bs[0] == 4 && DecodeReq(bs, 1) == Step(Ok(req), |bs|)
  {
    var bs := SendReq(req).value;
    var u := req.userId.value;
    var p := U16Be(req.dstPort);
    var a := U32Be(req.dstIp.value.v4);
    assert bs == [4, ReqCmdByte(req.cmd)] + p + a + u + [0];
    assert bs[2..4] == p && bs[4..8] == a;
    assert bs[1..] == [ReqCmdByte(req.cmd)] + p + a + u + [0];
    assert bs[8..8 + |u|] == u;
    DecodeUntilAt(bs, 8, 8 + |u|);
    ReqCmdRoundTrip(req.cmd, ReqCmdByte(req.cmd));
  }

  /**
   * Without a user id `send_req` writes no terminating NUL, and `parse_req`
   * reads its output as an incomplete frame.
   */
  lemma SendReqWithoutUserIdIsIncomplete(req: Request)
    requires req.dstIp.Some? && req.dstIp.value.IpV4? && req.userId == None
    ensures SendReq(req).Ok?
    ensures DecodeReq(SendReq(req).value, 1).result == Err(Incomplete)
  {
    var bs := SendReq(req).value;
    assert |bs| == 8;
    assert bs[1] == ReqCmdByte(req.cmd);
    ReqCmdRoundTrip(req.cmd, ReqCmdByte(req.cmd));
    DecodeUntilNul(bs, 8);
  }

  /**
   * `send_req` as SOCKS4 intends it: the user id, empty when there is none,
   * is always followed by its terminating NUL.
   */
  function SendReqTerminated(req: Request): (r: Result<seq<u8>, Error>)
    requires req.dstIp.Some?
    ensures r.Err? <==> req.dstIp.value.IpV6?
    ensures r.Err? ==> r.error == NotIpV4Addr
    ensures r.Ok? ==> |r.value| >= 9 && r.value[|r.value| - 1] == 0
  {
    match req.dstIp.value
    case IpV6(_) => Err(NotIpV4Addr)
    case IpV4(ip) =>
      var u := if req.userId.Some? then req.userId.value else [];
      Ok([4, ReqCmdByte(req.cmd)] + U16Be(req.dstPort) + U32Be(ip) + u + [0])
  }

  /**
   * The corrected `send_req` is read back by `parse_req` also without a user
   * id, which then comes back as the empty one.
   */
  lemma SendReqTerminatedRoundTrip(req: Request)
    requires req.ver == V4 && req.rsv == 0 && req.domain == None
    requires req.dstIp.Some? && req.dstIp.value.IpV4?
    requires req.userId.Some? ==> 0 !in req.userId.value && ValidUtf8(req.userId.value)
    ensures SendReqTerminated(req).Ok?
    ensures var bs := SendReqTerminated(req).value;
      var u := if req.userId.Some? then req.userId.value else [];
      |bs| > 0 && bs[0] == 4 && DecodeReq(bs, 1) == Step(Ok(req.(userId := Some(u))), |bs|)
  {
    var u: seq<u8> := if req.userId.Some? then req.userId.value else [];
    assert ValidUtf8(u) by {
      if req.userId.None? {
        assert ValidUtf8([]);
      }
    }
    var full := req.(userId := Some(u));
    assert SendReqTerminated(req) == SendReq(full);
    SendReqRoundTrip(full);
  }

  /** Decoding what `send_reply` writes, after its first byte, recovers the reply. */
  lemma SendReplyRoundTrip(reply: Reply)
    requires reply.ver == V4 && reply.rsv == 0 && reply.domain == None
    requires reply.cmd.ReplyV4? && reply.bindAddr.Some? && reply.bindAddr.value.IpV4?
    ensures SendReply(reply).Ok?
    ensures var bs := SendReply(reply).value;
      |bs| == 8 && bs[0] == 0 && DecodeReply(bs, 1) == Step(Ok(reply), 8)
  {
    var bs := SendReply(reply).value;
    var p := U16Be(reply.bindPort);
    var a := U32Be(reply.bindAddr.value.v4);
    assert bs == [0, ReplyCmdByte(reply.cmd.v4)] + p + a;
    assert bs[2..4] == p && bs[4..8] == a;
    ReplyCmdRoundTrip(reply.cmd.v4);
  }

  const TestFrame: seq<u8> := [0x04, 0x01, 0x01, 0xbb, 0xc0, 0xa8, 0x01, 0x01, 0x41, 0x42, 0x43, 0x00]

  /** The command and address of the test frame, read from any frame that starts with its first 8 bytes. */
  lemma TestFrameHead(f: seq<u8>)
    requires |f| >= 8 && f[..8] == TestFrame[..8]
    ensures DecodeU8(f, 1) == Step(Ok(1), 2)
    ensures DecodeAddr(f, 2) == Step(Ok((443, 0xc0a80101)), 8)
  {
    assert f[1] == f[..8][1] == 1;
    assert f[2..4] == f[..8][2..4] == [0x01, 0xbb];
    var a: seq<u8> := [0xc0, 0xa8, 0x01, 0x01];
    assert f[4..8] == f[..8][4..8] == a;
    BeValue2(0x01, 0xbb);
    assert BeValue(a) == 0xc0a80101 by {
      assert a[..3] == [0xc0, 0xa8, 0x01];
      assert a[..3][..2] == [0xc0, 0xa8];
      BeValue2(0xc0, 0xa8);
    }
  }

  /** The unit test of v4.rs: `192.168.1.1:443`, user "ABC". */
  lemma ParseReqTestVector()
    ensures DecodeReq(TestFrame, 1).result
      == Ok(Request(V4, Connect, Some(IpV4(0xc0a80101)), 443, Some([0x41, 0x42, 0x43]), 0, None))
  {
    var f := TestFrame;
    var user: seq<u8> := [0x41, 0x42, 0x43];
    TestFrameHead(f);
    assert ValidUtf8(user) by { AsciiIsUtf8(user); }
    assert f[8..11] == user;
    DecodeUntilAt(f, 8, 11);
  }

  /** The same frame without its NUL is `Incomplete`. */
  lemma ParseReqTestVectorCut()
    ensures DecodeReq(TestFrame[..11], 1).result == Err(Incomplete)
  {
    var cut := TestFrame[..11];
    assert cut[..8] == TestFrame[..8];
    TestFrameHead(cut);
    assert cut[8..] == TestFrame[8..11] == [0x41, 0x42, 0x43];
    DecodeUntilNul(cut, 8);
  }
}
