/**
 * The replies of the inbound side (src/protocol.rs, `Reply` and
 * `write_addr`): the frames a connection answers with, in the version of the
 * request it answers. A `Reply` collects everything it writes; each operation
 * returns all of it.
 */
module InboundReply {
  import opened Bytes
  import opened Wrappers
  import opened Net
  import opened Cursors
  import opened Inbound
  import opened InboundParse
  import Codec
  import CodecV4
  import CodecV5
  import Seqs

  /** The address a request named: its type, its IP and its domain. */
  type Addr = (AType, Option<IpAddr>, Option<seq<u8>>)

  // ---------------------------------------------------------------------------
  // HTTP responses

  /** `"HTTP/1.1"` */
  const Http11: seq<u8> := [0x48, 0x54, 0x54, 0x50, 0x2f, 0x31, 0x2e, 0x31]

  /** `"Connection"` */
  const ConnectionWord: seq<u8> := [0x43, 0x6f, 0x6e, 0x6e, 0x65, 0x63, 0x74, 0x69, 0x6f, 0x6e]

  /** `"HTTP/1.1 400 Connection Failed"` */
  const StatusFailed: seq<u8> :=
    Http11 + [Space, 0x34, 0x30, 0x30, Space] + ConnectionWord + [Space, 0x46, 0x61, 0x69, 0x6c, 0x65, 0x64]

  /** `"HTTP/1.1 200 Connection Established"` */
  const StatusEstablished: seq<u8> :=
    Http11 + [Space, 0x32, 0x30, 0x30, Space] + ConnectionWord
    + [Space, 0x45, 0x73, 0x74, 0x61, 0x62, 0x6c, 0x69, 0x73, 0x68, 0x65, 0x64]

  /** A response without headers: the status line and the empty line. */
  function HeadOnly(status: seq<u8>): seq<u8>
  {
    status + [CR, LF, CR, LF]
  }

  /**
   * A response without headers is read, by this side's own line reader, as
   * its status line and then an empty header block that ends with the frame.
   */
  lemma HeadOnlyReadsBack(status: seq<u8>)
    requires CR !in status
    ensures var bs := HeadOnly(status);
      && ReadLine(bs, 0) == Step(Ok(status), |status| + 2)
      && ReadHeaders(bs, |status| + 2) == Step(Ok(()), |bs|)
  {
    var bs := HeadOnly(status);
    var n := |status|;
    assert bs[0..n] == status;
    ReadLineAt(bs, 0, n);
    assert bs[n + 2..n + 2] == [];
    ReadLineAt(bs, n + 2, n + 2);
  }

  /** Both HTTP responses are a status line with no headers. */
  lemma HttpResponsesAreHeads()
    ensures CR !in StatusFailed && CR !in StatusEstablished
    ensures ReadLine(HeadOnly(StatusFailed), 0) == Step(Ok(StatusFailed), |StatusFailed| + 2)
    ensures ReadLine(HeadOnly(StatusEstablished), 0) == Step(Ok(StatusEstablished), |StatusEstablished| + 2)
  {
    assert CR !in StatusFailed;
    assert CR !in StatusEstablished;
    HeadOnlyReadsBack(StatusFailed);
    HeadOnlyReadsBack(StatusEstablished);
  }

  // ---------------------------------------------------------------------------
  // The frames, as functions of what is answered

  /** The SOCKS4 command a byte of `as_u8` names, the code that `v4::ReplyCmd` parses it as. */
  function V4Code(c: ReplyCmd): (r: Codec.V4ReplyCmd)
    ensures CodecV4.ReplyCmdByte(r) == AsU8(c, V4)
    ensures r != Codec.V4ConnectionFailedWithUserId
  {
    if c == RepSuccessful then Codec.V4Successful
    else if c == RepConnectionRefused then Codec.V4ConnectionRefused
    else Codec.V4ConnectionFailed
  }

  /** The `v5::ReplyCmd` with the same REP value. */
  function V5Code(c: ReplyCmd): (r: Codec.V5ReplyCmd)
    ensures CodecV5.ReplyCmdByte(r) == AsU8(c, V5)
  {
    match c
    case RepSuccessful => Codec.V5Successful
    case RepServerError => Codec.V5ServerError
    case RepRulesNotAllowed => Codec.V5RulesNotAllowed
    case RepNetworkUnreachable => Codec.V5NetworkUnreachable
    case RepHostUnreachable => Codec.V5HostUnreachable
    case RepConnectionRefused => Codec.V5ConnectionRefused
    case RepTtlExpired => Codec.V5TtlExpired
    case RepCmdTypeUnsupported => Codec.V5CmdUnsupported
    case RepAddrTypeUnsupported => Codec.V5AddrTypeUnsupported
  }

  /**
   * `Reply::error`: SOCKS4 answers 0, the code and a zero port and address;
   * SOCKS5 answers version 5, the code, RSV 0 and the zero IPv4 address and
   * port; HTTP answers `400 Connection Failed`.
   */
  function ErrorFrame(ver: Ver, err: Error): (bs: seq<u8>)
    ensures ver == V4 ==> |bs| == 8 && bs[0] == 0 && 91 <= bs[1] <= 92
    ensures ver == V5 ==> |bs| == 10 && bs[0] == 5 && bs[1] in {1, 5, 7}
    ensures ver == Http ==> bs == HeadOnly(StatusFailed)
  {
    var code := AsU8(CmdByErr(err), ver);
    match ver
    case V4 => [0, code] + U16Be(0) + U32Be(0)
    case V5 => [5, code, 0, ATypeByte(AtIpv4)] + U32Be(0) + U16Be(0)
    case Http => HeadOnly(StatusFailed)
  }

  /** What `write_addr` unwraps: the domain of a domain address, the IP of any other. */
  predicate AddrPresent(addr: Addr)
  {
    && (addr.0 == AtDomain ==> addr.2.Some?)
    && (addr.0 != AtDomain ==> addr.1.Some?)
  }

  /**
   * `write_addr`: the four or sixteen address bytes when the IP has the
   * family the type names (`AddrTypeUnsupported` of the type otherwise, with
   * nothing written); for a domain its length as a byte, wrapped modulo 256,
   * then all of its bytes.
   */
  function AddrBytes(addr: Addr): (r: Result<seq<u8>, Error>)
    requires AddrPresent(addr)
    ensures r.Err? <==>
      (addr.0 == AtIpv4 && addr.1.value.IpV6?) || (addr.0 == AtIpv6 && addr.1.value.IpV4?)
    ensures r.Err? ==> r.error == AddrTypeUnsupported(ATypeByte(addr.0))
    ensures r.Ok? && addr.0 == AtIpv4 ==> |r.value| == 4 && BeValue(r.value) == addr.1.value.v4
    ensures r.Ok? && addr.0 == AtIpv6 ==> |r.value| == 16 && BeValue(r.value) == addr.1.value.v6
    ensures r.Ok? && addr.0 == AtDomain ==>
      |r.value| == |addr.2.value| + 1 && r.value[0] == |addr.2.value| % 256 && r.value[1..] == addr.2.value
  {
    match addr.0
    case AtIpv4 =>
      (match addr.1.value
       case IpV4(ip) => Ok(U32Be(ip))
       case IpV6(_) => Err(AddrTypeUnsupported(ATypeByte(addr.0))))
    case AtDomain =>
      var d := addr.2.value;
      Ok([|d| % 256] + d)
    case AtIpv6 =>
      (match addr.1.value
       case IpV6(ip) => Ok(U128Be(ip))
       case IpV4(_) => Err(AddrTypeUnsupported(ATypeByte(addr.0))))
  }

  /** What `Reply::successful` needs in order not to unwrap `None`. */
  predicate SuccessDefined(ver: Ver, addr: Addr)
  {
    && (ver == V4 ==> addr.1.Some?)
    && (ver == V5 ==> AddrPresent(addr))
  }

  /**
   * `Reply::successful`: the bytes written and the error that stopped it, if
   * any. SOCKS4 writes 0, 90 and the port, then the address only when it is
   * IPv4; SOCKS5 writes 5, 0, RSV 0 and the type, then `write_addr` and the
   * port, stopping after the four header bytes when `write_addr` fails; HTTP
   * writes `200 Connection Established`.
   */
  function SuccessFrame(ver: Ver, addr: Addr, port: u16): (w: (seq<u8>, Option<Error>))
    requires SuccessDefined(ver, addr)
    ensures ver != V5 ==> w.1.None?
    ensures ver == V4 ==>
      && |w.0| == (if addr.1.value.IpV4? then 8 else 4) && w.0[..2] == [0, 90]
      && BeValue(w.0[2..4]) == port
    ensures ver == V5 ==>
      && |w.0| >= 4 && w.0[..4] == [5, 0, 0, ATypeByte(addr.0)]
      && (w.1.Some? <==> AddrBytes(addr).Err?)
      && (w.1.Some? ==> |w.0| == 4 && w.1.value == AddrBytes(addr).error)
    ensures ver == Http ==> w.0 == HeadOnly(StatusEstablished)
  {
    match ver
    case V4 =>
      var head := [0, AsU8(RepSuccessful, V4)] + U16Be(port);
      assert head[2..4] == U16Be(port);
      (match addr.1.value
       case IpV4(ip) =>
         assert (head + U32Be(ip))[2..4] == head[2..4];
         (head + U32Be(ip), None)
       case IpV6(_) => (head, None))
    case V5 =>
      var head := [5, AsU8(RepSuccessful, V5), 0, ATypeByte(addr.0)];
      (match AddrBytes(addr)
       case Err(e) => (head, Some(e))
       case Ok(a) => (head + a + U16Be(port), None))
    case Http => (HeadOnly(StatusEstablished), None)
  }

  // ---------------------------------------------------------------------------
  // The reply writer

  /** `Reply`: the version it answers in, and every byte written so far. */
  class Reply {
    var buffer: seq<u8>
    var ver: Ver

    /** `Reply::new`: nothing written yet, answering in SOCKS5. */
    constructor ()
      ensures buffer == [] && ver == V5
    {
      buffer := [];
      ver := V5;
    }

    method SetVer(v: Ver)
      modifies this
      ensures ver == v && buffer == old(buffer)
    {
      ver := v;
    }

    /**
     * The writer's `write_*` calls (a run of `write_u8` is one call here):
     * the bytes go after everything written before.
     */
    method Write(bs: seq<u8>)
      modifies this
      ensures buffer == old(buffer) + bs && ver == old(ver)
    {
      buffer := buffer + bs;
    }

    method Error(err: Error) returns (out: seq<u8>)
      modifies this
      ensures ver == old(ver) && buffer == old(buffer) + ErrorFrame(ver, err) && out == buffer
    {
      var code := AsU8(CmdByErr(err), ver);
      ghost var start := buffer;
      match ver {
        case V4 =>
          Write([0, code]);
          Write(U16Be(0));
          Write(U32Be(0));
          Seqs.Append3(start, [0, code], U16Be(0), U32Be(0));
        case V5 =>
          Write([5, code, 0, 1]);
          Write(U32Be(0));
          Write(U16Be(0));
          Seqs.Append3(start, [5, code, 0, ATypeByte(AtIpv4)], U32Be(0), U16Be(0));
        case Http =>
          Write(HeadOnly(StatusFailed));
      }
      out := buffer;
    }

    /** `write_addr` into this reply: nothing is written when it fails. */
    method WriteAddr(addr: Addr) returns (r: Result<(), Error>)
      requires AddrPresent(addr)
      modifies this
      ensures ver == old(ver)
      ensures AddrBytes(addr).Err? ==> r == Err(AddrBytes(addr).error) && buffer == old(buffer)
      ensures AddrBytes(addr).Ok? ==> r == Ok(()) && buffer == old(buffer) + AddrBytes(addr).value
    {
      match addr.0 {
        case AtIpv4 =>
          if addr.1.value.IpV4? {
            Write(U32Be(addr.1.value.v4));
            r := Ok(());
          } else {
            r := Err(AddrTypeUnsupported(ATypeByte(addr.0)));
          }
        case AtDomain =>
          var d := addr.2.value;
          Write([|d| % 256]);
          Write(d);
          r := Ok(());
        case AtIpv6 =>
          if addr.1.value.IpV6? {
            Write(U128Be(addr.1.value.v6));
            r := Ok(());
          } else {
            r := Err(AddrTypeUnsupported(ATypeByte(addr.0)));
          }
      }
    }

    method Successful(addr: Addr, port: u16) returns (r: Result<seq<u8>, Error>)
      requires SuccessDefined(ver, addr)
      modifies this
      ensures ver == old(ver)
      ensures var w := SuccessFrame(ver, addr, port);
        && buffer == old(buffer) + w.0
        && r == (if w.1.Some? then Err(w.1.value) else Ok(buffer))
    {
      ghost var start := buffer;
      match ver {
        case V4 =>
          Write([0, AsU8(RepSuccessful, ver)]);
          Write(U16Be(port));
          if addr.1.value.IpV4? {
            Write(U32Be(addr.1.value.v4));
            Seqs.Append3(start, [0, 90], U16Be(port), U32Be(addr.1.value.v4));
          } else {
            assert buffer == start + ([0, 90] + U16Be(port));
          }
        case V5 =>
          var head := [5, AsU8(RepSuccessful, ver), 0, ATypeByte(addr.0)];
          Write(head);
          var a := WriteAddr(addr);
          if a.Err? {
            return Err(a.error);
          }
          Write(U16Be(port));
          Seqs.Append3(start, head, AddrBytes(addr).value, U16Be(port));
        case Http =>
          Write(HeadOnly(StatusEstablished));
      }
      r := Ok(buffer);
    }

    /** `Reply::auth`: version 5 and the chosen method. */
    method Auth(nMethod: u8) returns (out: seq<u8>)
      modifies this
      ensures ver == old(ver) && buffer == old(buffer) + [5, nMethod] && out == buffer
    {
      Write([5, nMethod]);
      out := buffer;
    }
  }

  // ---------------------------------------------------------------------------
  // What the client reads back

  /**
   * The SOCKS4 error frame, read by `v4::parse_reply` after its first byte,
   * is a rejection (91) for a refused or reset connection and a failure (92)
   * otherwise, with a zero port and address.
   */
  lemma V4ErrorReplyDecodes(err: Error)
    ensures var bs := ErrorFrame(V4, err);
      var code := if CmdByErr(err) == RepConnectionRefused then Codec.V4ConnectionRefused else Codec.V4ConnectionFailed;
      CodecV4.DecodeReply(bs, 1) == Step(Ok(Codec.Reply(Codec.V4, Codec.ReplyV4(code), 0, Some(IpV4(0)), None, 0)), 8)
  {
    var bs := ErrorFrame(V4, err);
    var c := V4Code(CmdByErr(err));
    CodecV4.ReplyCmdRoundTrip(c);
    assert bs[2..4] == U16Be(0) && bs[4..8] == U32Be(0);
  }

  /**
   * The SOCKS5 error frame, read by `v5::parse_reply` after its version, is
   * the reply with the REP value of `get_cmd_by_err`, the zero IPv4 address
   * and port 0.
   */
  lemma V5ErrorReplyDecodes(err: Error)
    ensures var bs := ErrorFrame(V5, err);
      CodecV5.DecodeReply(bs, 1)
      == Step(Ok(Codec.Reply(Codec.V5, Codec.ReplyV5(V5Code(CmdByErr(err))), 0, Some(IpV4(0)), None, 0)), 10)
  {
    var c := V5Code(CmdByErr(err));
    var r := Codec.Reply(Codec.V5, Codec.ReplyV5(c), 0, Some(IpV4(0)), None, 0);
    V5ErrorFrameIsSendReply(err);
    CodecV5.SendReplyRoundTrip(r);
  }

  /** The SOCKS5 error frame is what `v5::Reply::send` writes for that reply. */
  lemma V5ErrorFrameIsSendReply(err: Error)
    ensures var r := Codec.Reply(Codec.V5, Codec.ReplyV5(V5Code(CmdByErr(err))), 0, Some(IpV4(0)), None, 0);
      CodecV5.SendReply(r) == Ok(ErrorFrame(V5, err))
  {
    var code := AsU8(CmdByErr(err), V5);
    ZeroIpv4Addr();
    assert ErrorFrame(V5, err) == [5, code, 0, 1] + U32Be(0) + U16Be(0);
    Seqs.Append3([5, code, 0], [1], U32Be(0), U16Be(0));
    assert [5, code, 0] + [1] == [5, code, 0, 1];
  }

  /** `send_addr` of the zero IPv4 address and port 0. */
  lemma ZeroIpv4Addr()
    ensures CodecV5.SendAddr(Some(IpV4(0)), None, 0) == Ok([1] + U32Be(0) + U16Be(0))
  {
  }

  /**
   * A SOCKS4 success for an IPv4 address is what `v4::Reply::send` writes for
   * a granted reply, and reads back as that reply.
   */
  lemma V4SuccessReplyDecodes(addr: Addr, port: u16)
    requires addr.1.Some? && addr.1.value.IpV4?
    ensures var w := SuccessFrame(V4, addr, port);
      var reply := Codec.Reply(Codec.V4, Codec.ReplyV4(Codec.V4Successful), 0, addr.1, None, port);
      && w.1.None? && w.0 == CodecV4.SendReply(reply).value
      && CodecV4.DecodeReply(w.0, 1) == Step(Ok(reply), 8)
  {
    var reply := Codec.Reply(Codec.V4, Codec.ReplyV4(Codec.V4Successful), 0, addr.1, None, port);
    CodecV4.SendReplyRoundTrip(reply);
  }

  /**
   * A SOCKS4 success for an IPv6 address has no address bytes, and the
   * client's `parse_reply` finds it incomplete.
   */
  lemma V4SuccessIpv6IsIncomplete(addr: Addr, port: u16)
    requires addr.1.Some? && addr.1.value.IpV6?
    ensures var w := SuccessFrame(V4, addr, port);
      |w.0| == 4 && CodecV4.DecodeReply(w.0, 1).result == Err(Errors.Incomplete)
  {
  }

  /** The granted SOCKS5 reply for an address: its domain, or else its IP. */
  function V5Granted(addr: Addr, port: u16): Codec.Reply
  {
    Codec.Reply(Codec.V5, Codec.ReplyV5(Codec.V5Successful), 0,
                if addr.0 == AtDomain then None else addr.1,
                if addr.0 == AtDomain then addr.2 else None, port)
  }

  /** An address whose IP has the family its type names, with a UTF-8 domain of at most 255 bytes. */
  predicate WellTyped(addr: Addr)
  {
    && AddrPresent(addr)
    && (addr.0 == AtIpv4 ==> addr.1.value.IpV4?)
    && (addr.0 == AtIpv6 ==> addr.1.value.IpV6?)
    && (addr.0 == AtDomain ==> ValidUtf8(addr.2.value) && |addr.2.value| <= 255)
  }

  /**
   * For a well-typed address the SOCKS5 success is exactly what
   * `v5::Reply::send` writes for the granted reply.
   */
  lemma V5SuccessIsSendReply(addr: Addr, port: u16)
    requires WellTyped(addr)
    ensures CodecV5.SendReply(V5Granted(addr, port)).Ok?
    ensures var w := SuccessFrame(V5, addr, port);
      w.1.None? && w.0 == CodecV5.SendReply(V5Granted(addr, port)).value
  {
    match addr.0 {
      case AtDomain => V5SuccessDomain(addr, port);
      case AtIpv4 => V5SuccessIp(addr, port);
      case AtIpv6 => V5SuccessIp(addr, port);
    }
  }

  lemma V5SuccessDomain(addr: Addr, port: u16)
    requires WellTyped(addr) && addr.0 == AtDomain
    ensures CodecV5.SendReply(V5Granted(addr, port)).Ok?
    ensures var w := SuccessFrame(V5, addr, port);
      w.1.None? && w.0 == CodecV5.SendReply(V5Granted(addr, port)).value
  {
    var d := addr.2.value;
    var w := SuccessFrame(V5, addr, port);
    assert w.0 == [5, 0, 0, 3] + ([|d|] + d) + U16Be(port);
    assert d[..|d|] == d;
    assert CodecV5.SendAddr(None, Some(d), port).value == [3, |d|] + d + U16Be(port);
  }

  lemma V5SuccessIp(addr: Addr, port: u16)
    requires WellTyped(addr) && addr.0 != AtDomain
    ensures CodecV5.SendReply(V5Granted(addr, port)).Ok?
    ensures var w := SuccessFrame(V5, addr, port);
      w.1.None? && w.0 == CodecV5.SendReply(V5Granted(addr, port)).value
  {
    var w := SuccessFrame(V5, addr, port);
    var t := ATypeByte(addr.0);
    var a := AddrBytes(addr).value;
    assert w.0 == [5, 0, 0, t] + a + U16Be(port);
    assert CodecV5.SendAddr(addr.1, None, port).value == [t] + a + U16Be(port);
    assert V5Granted(addr, port).bindAddr == addr.1 && V5Granted(addr, port).domain == None;
    assert CodecV5.SendReply(V5Granted(addr, port)).value == [5, 0, 0] + ([t] + a + U16Be(port));
    Seqs.Append3([5, 0, 0], [t], a, U16Be(port));
    assert [5, 0, 0] + [t] == [5, 0, 0, t];
  }

  /**
   * A SOCKS5 success for a well-typed domain or IPv4 address is read back by
   * `v5::parse_reply`, after its version, as the granted reply for that
   * address, and the whole frame is consumed. For an IPv6 address
   * `parse_reply` as written reports `Incomplete`; the corrected address
   * reader recovers the address and the port.
   */
  lemma V5SuccessReplyDecodes(addr: Addr, port: u16)
    requires WellTyped(addr)
    ensures var w := SuccessFrame(V5, addr, port);
      && w.1.None?
      && if addr.0 == AtIpv6 then
           && CodecV5.DecodeReply(w.0, 1) == Step(Err(Errors.Incomplete), 4)
           && CodecV5.DecodeAddrCorrected(w.0, 3) == Step(Ok((addr.1, None)), |w.0| - 2)
           && Codec.DecodeU16(w.0, |w.0| - 2) == Step(Ok(port), |w.0|)
         else CodecV5.DecodeReply(w.0, 1) == Step(Ok(V5Granted(addr, port)), |w.0|)
  {
    V5SuccessIsSendReply(addr, port);
    CodecV5.SendReplyRoundTrip(V5Granted(addr, port));
  }

  /**
   * `Reply::auth(n)`, read by `parse_auth_reply` after its version, is the
   * method `n` names, or the server's refusal for 0xFF.
   */
  lemma AuthReplyDecodes(n: u8)
    ensures n == 0xFF ==> CodecV5.DecodeAuthReply([5, n], 1) == Step(Err(Errors.ServerRefusedAuth), 2)
    ensures n != 0xFF ==>
      CodecV5.DecodeAuthReply([5, n], 1) == Step(Ok(Codec.ReplyAuth(Codec.MethodFromU8(n).value)), 2)
    ensures CodecV5.DecodeAuthReply([5, 0], 1) == Step(Ok(Codec.ReplyAuth(Codec.NoAuth)), 2)
  {
  }
}
