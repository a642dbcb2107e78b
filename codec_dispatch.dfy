/**
 * The version dispatch of the cursor codec (src/protocol/mod.rs): `parse_req`
 * and `Reply::send` choose the SOCKS4 or the SOCKS5 codec by `NVer`, and
 * `parse_auth_req` is the SOCKS5 one.
 */
module CodecDispatch {
  import opened Bytes
  import opened Wrappers
  import opened Net
  import opened Errors
  import opened Cursors
  import opened Codec
  import CodecV4
  import CodecV5

  /** `parse_req(src, ver)`, from the byte after the version. */
  function DecodeReq(data: seq<u8>, pos: nat, ver: NVer): (s: Step<Request, Error>)
    requires pos <= |data|
    ensures pos <= s.pos <= |data|
    ensures s.result.Ok? ==> s.result.value.ver == ver
    ensures s.result.Ok? && ver == V4 ==>
      && s.result.value.dstIp.Some? && s.result.value.dstIp.value.IpV4?
      && s.result.value.userId.Some? && s.result.value.domain.None?
    ensures s.result.Ok? && ver == V5 ==>
      s.result.value.userId.None? && (s.result.value.dstIp.Some? <==> s.result.value.domain.None?)
  {
    match ver
    case V4 => CodecV4.DecodeReq(data, pos)
    case V5 => CodecV5.DecodeReq(data, pos)
  }

  method ParseReq(src: Cursor, ver: NVer) returns (r: Result<Request, Error>)
    requires src.Valid()
    modifies src
    ensures src.Valid() && Step(r, src.pos) == DecodeReq(src.data, old(src.pos), ver)
  {
    match ver {
      case V4 => r := CodecV4.ParseReq(src);
      case V5 => r := CodecV5.ParseReq(src);
    }
  }

  method ParseAuthReq(src: Cursor) returns (r: Result<ReqAuth, Error>)
    requires src.Valid()
    modifies src
    ensures src.Valid() && Step(r, src.pos) == CodecV5.DecodeAuthReq(src.data, old(src.pos))
  {
    r := CodecV5.ParseAuthReq(src);
  }

  /**
   * `Reply::send`: the bytes of the SOCKS4 reply (first byte 0) or of the
   * SOCKS5 reply (first byte 5), by the reply's own version.
   */
  function SendReply(reply: Reply): (r: Result<seq<u8>, Error>)
    requires reply.ver == V4 && reply.cmd.ReplyV4? ==> reply.bindAddr.Some?
    requires reply.ver == V5 && reply.domain.Some? && |reply.domain.value| > 255 ==> !IsCont(reply.domain.value[255])
    ensures r.Ok? ==> |r.value| > 0 && r.value[0] == (if reply.ver == V4 then 0 else 5)
    ensures r.Err? && reply.ver == V4 ==> !reply.cmd.ReplyV4? || reply.bindAddr.value.IpV6?
    ensures r.Err? && reply.ver == V5 ==>
      !reply.cmd.ReplyV5? || (reply.domain.None? && reply.bindAddr.None?)
  {
    match reply.ver
    case V4 => CodecV4.SendReply(reply)
    case V5 => CodecV5.SendReply(reply)
  }

  /**
   * What `Reply::send` writes, read back by the same version's `parse_reply`
   * after its first byte, is the reply that was sent (for SOCKS5, a domain
   * hides the IP), and the whole frame is consumed. The exception is a SOCKS5
   * reply with an IPv6 address, which `parse_reply` as written calls
   * incomplete; the corrected address reader recovers its address and port.
   */
  lemma SendReplyRoundTrip(reply: Reply)
    requires reply.rsv == 0
    requires reply.ver == V4 ==>
      reply.cmd.ReplyV4? && reply.domain == None && reply.bindAddr.Some? && reply.bindAddr.value.IpV4?
    requires reply.ver == V5 ==>
      && reply.cmd.ReplyV5?
      && (reply.domain.Some? ==> ValidUtf8(reply.domain.value) && |reply.domain.value| <= 255)
      && (reply.domain.None? ==> reply.bindAddr.Some?)
    ensures SendReply(reply).Ok?
    ensures var bs := SendReply(reply).value;
      var expected := if reply.domain.Some? then reply.(bindAddr := None) else reply;
      match reply.ver
      case V4 => CodecV4.DecodeReply(bs, 1) == Step(Ok(expected), |bs|)
      case V5 =>
        if reply.domain.None? && reply.bindAddr.value.IpV6? then
          && CodecV5.DecodeReply(bs, 1) == Step(Err(Incomplete), 4)
          && CodecV5.DecodeAddrCorrected(bs, 3) == Step(Ok((reply.bindAddr, None)), |bs| - 2)
          && DecodeU16(bs, |bs| - 2) == Step(Ok(reply.bindPort), |bs|)
        else CodecV5.DecodeReply(bs, 1) == Step(Ok(expected), |bs|)
  {
    match reply.ver {
      case V4 => CodecV4.SendReplyRoundTrip(reply);
      case V5 => CodecV5.SendReplyRoundTrip(reply);
    }
  }
}
