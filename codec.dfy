/**
 * The cursor-only SOCKS codec of src/protocol/mod.rs: its message types, the
 * fixed-width big-endian readers, NUL-terminated strings, and the method and
 * command decoding tables of RFC 1928 section 3 and section 4.
 *
 * Every reader is a method on a `Cursor`, proved against a `Decode*` function
 * that says what the read yields and where it leaves the cursor.
 */
module Codec {
  import opened Bytes
  import opened Wrappers
  import opened Net
  import opened Errors
  import opened Cursors

  /** Authentication methods (RFC 1928 section 3); `NoAuth` is the source's `Method::None`. */
  datatype Method = NoAuth | GssApi | UserVerify | IanaAssigned | Private

  /** The discriminant `method as u8`. */
  function MethodByte(m: Method): u8
  {
    match m
    case NoAuth => 0
    case GssApi => 1
    case UserVerify => 2
    case IanaAssigned => 3
    case Private => 0x80
  }

  function MethodFromU8(b: u8): (r: Option<Method>)
    ensures r.None? <==> b == 0xFF
    ensures r == Some(NoAuth) <==> b == 0
    ensures r == Some(GssApi) <==> b == 1
    ensures r == Some(UserVerify) <==> b == 2
    ensures r == Some(IanaAssigned) <==> 0x03 <= b <= 0x7F
    ensures r == Some(Private) <==> 0x80 <= b <= 0xFE
  {
    if b == 0 then Some(NoAuth)
    else if b == 1 then Some(GssApi)
    else if b == 2 then Some(UserVerify)
    else if b <= 0x7F then Some(IanaAssigned)
    else if b <= 0xFE then Some(Private)
    else None
  }

  /** Every method's discriminant decodes back to that method. */
  lemma MethodRoundTrip(m: Method)
    ensures MethodFromU8(MethodByte(m)) == Some(m)
  {
  }

  datatype ReqCmd = Connect | Bind | Udp

  /** The discriminant `cmd as u8`. */
  function ReqCmdByte(c: ReqCmd): u8
  {
    match c
    case Connect => 1
    case Bind => 2
    case Udp => 3
  }

  function ReqCmdFromU8(b: u8): (r: Option<ReqCmd>)
    ensures r.Some? <==> 1 <= b <= 3
    ensures r.Some? ==> ReqCmdByte(r.value) == b
  {
    if b == 1 then Some(Connect)
    else if b == 2 then Some(Bind)
    else if b == 3 then Some(Udp)
    else None
  }

  /** `ReqCmd::from_u8` inverts the discriminant cast. */
  lemma ReqCmdRoundTrip(c: ReqCmd, b: u8)
    ensures ReqCmdFromU8(ReqCmdByte(c)) == Some(c)
    ensures ReqCmdFromU8(b) == Some(c) <==> b == ReqCmdByte(c)
  {
  }

  datatype NVer = V4 | V5

  datatype ReqAuth = ReqAuth(offered: Option<seq<u8>>)

  datatype ReplyAuth = ReplyAuth(chosen: Method)

  /** `ReplyAuth::send`: the version byte and the chosen method. */
  function SendReplyAuth(r: ReplyAuth): (bs: seq<u8>)
    ensures |bs| == 2 && bs[0] == 5 && bs[1] == MethodByte(r.chosen) && MethodFromU8(bs[1]) == Some(r.chosen)
  {
    [5, MethodByte(r.chosen)]
  }

  /** A SOCKS request; strings are their UTF-8 bytes. */
  datatype Request = Request(
    ver: NVer,
    cmd: ReqCmd,
    dstIp: Option<IpAddr>,
    dstPort: u16,
    userId: Option<seq<u8>>,
    rsv: u8,
    domain: Option<seq<u8>>)

  /** `v4::ReplyCmd` (SOCKS4 codes 90..93). */
  datatype V4ReplyCmd = V4Successful | V4ConnectionRefused | V4ConnectionFailed | V4ConnectionFailedWithUserId

  /** `v5::ReplyCmd` (RFC 1928 section 6, REP 0..8). */
  datatype V5ReplyCmd =
    | V5Successful
    | V5ServerError
    | V5RulesNotAllowed
    | V5NetworkUnreachable
    | V5HostUnreachable
    | V5ConnectionRefused
    | V5TtlExpired
    | V5CmdUnsupported
    | V5AddrTypeUnsupported

  /** `protocol::ReplyCmd::V4` and `::V5`. */
  datatype ReplyCmd = ReplyV4(v4: V4ReplyCmd) | ReplyV5(v5: V5ReplyCmd)

  datatype Reply = Reply(
    ver: NVer,
    cmd: ReplyCmd,
    rsv: u8,
    bindAddr: Option<IpAddr>,
    domain: Option<seq<u8>>,
    bindPort: u16)

  const InvalidCmd: Error := Other("invalid cmd")

  function UnwrapV4(c: ReplyCmd): (r: Result<V4ReplyCmd, Error>)
    ensures r.Ok? <==> c.ReplyV4?
    ensures r.Ok? ==> c == ReplyV4(r.value)
    ensures r.Err? ==> r.error == InvalidCmd
  {
    match c
    case ReplyV4(cmd) => Ok(cmd)
    case _ => Err(InvalidCmd)
  }

  function UnwrapV5(c: ReplyCmd): (r: Result<V5ReplyCmd, Error>)
    ensures r.Ok? <==> c.ReplyV5?
    ensures r.Ok? ==> c == ReplyV5(r.value)
    ensures r.Err? ==> r.error == InvalidCmd
  {
    match c
    case ReplyV5(cmd) => Ok(cmd)
    case _ => Err(InvalidCmd)
  }

  // ---------------------------------------------------------------------------
  // Readers as functions of the buffer and the position

  /**
   * What a fixed-width reader promises: `Incomplete` with the cursor unmoved
   * when fewer than `need` bytes remain, otherwise the big-endian value of the
   * next `width` bytes and a cursor advanced by exactly `width`.
   */
  ghost predicate FixedRead(data: seq<u8>, pos: nat, need: nat, width: nat, s: Step<int, Error>)
    requires pos <= |data| && width <= need
  {
    && (s.result.Err? <==> |data| - pos < need)
    && (s.result.Err? ==> s.result.error == Incomplete && s.pos == pos)
    && (s.result.Ok? ==> s.pos == pos + width && s.result.value == BeValue(data[pos..pos + width]))
  }

  function DecodeU8(data: seq<u8>, pos: nat): (s: Step<u8, Error>)
    requires pos <= |data|
    ensures FixedRead(data, pos, 1, 1, s)
  {
    if pos == |data| then Step(Err(Incomplete), pos)
    else
      assert data[pos..pos + 1][..0] == [];
      Step(Ok(data[pos]), pos + 1)
  }

  function DecodeU16(data: seq<u8>, pos: nat): (s: Step<u16, Error>)
    requires pos <= |data|
    ensures FixedRead(data, pos, 2, 2, s)
  {
    if |data| - pos < 2 then Step(Err(Incomplete), pos)
    else
      var bs := data[pos..pos + 2];
      BeWidthRoundTrip(bs);
      Step(Ok(BeValue(bs)), pos + 2)
  }

  function DecodeU32(data: seq<u8>, pos: nat): (s: Step<u32, Error>)
    requires pos <= |data|
    ensures FixedRead(data, pos, 4, 4, s)
  {
    if |data| - pos < 4 then Step(Err(Incomplete), pos)
    else
      var bs := data[pos..pos + 4];
      BeWidthRoundTrip(bs);
      Step(Ok(BeValue(bs)), pos + 4)
  }

  /**
   * `get_u128` as written: it demands 128 remaining bytes (the width in bits)
   * before it consumes 16.
   */
  function DecodeU128AsWritten(data: seq<u8>, pos: nat): (s: Step<u128, Error>)
    requires pos <= |data|
    ensures FixedRead(data, pos, 128, 16, s)
  {
    if |data| - pos < 128 then Step(Err(Incomplete), pos)
    else
      var bs := data[pos..pos + 16];
      BeWidthRoundTrip(bs);
      Step(Ok(BeValue(bs)), pos + 16)
  }

  /**
   * As written, a 16-byte address at the end of a frame, followed by at most
   * 111 more bytes (a port, say), is not read: the frame looks incomplete.
   */
  lemma U128AsWrittenRejectsAddress(data: seq<u8>, pos: nat)
    requires pos + 16 <= |data| < pos + 128
    ensures DecodeU128(data, pos).result.Ok?
    ensures DecodeU128AsWritten(data, pos) == Step(Err(Incomplete), pos)
  {
  }

  /** `get_u128` as intended: the next 16 bytes, when 16 remain. */
  function DecodeU128(data: seq<u8>, pos: nat): (s: Step<u128, Error>)
    requires pos <= |data|
    ensures FixedRead(data, pos, 16, 16, s)
  {
    if |data| - pos < 16 then Step(Err(Incomplete), pos)
    else
      var bs := data[pos..pos + 16];
      BeWidthRoundTrip(bs);
      Step(Ok(BeValue(bs)), pos + 16)
  }

  function DecodeNBytes(data: seq<u8>, pos: nat, n: nat): (s: Step<seq<u8>, Error>)
    requires pos <= |data|
    ensures s.result.Err? <==> |data| - pos < n
    ensures s.result.Err? ==> s.result.error == Incomplete && s.pos == pos
    ensures s.result.Ok? ==> s.pos == pos + n && s.result.value == data[pos..pos + n]
  {
    if |data| - pos < n then Step(Err(Incomplete), pos)
    else Step(Ok(data[pos..pos + n]), pos + n)
  }

  /**
   * `get_until(c)`: `read_until(c)`, then drop the last byte read, which must
   * be 0 (whatever `c` is); otherwise `Incomplete`. The cursor moves past what
   * `read_until` consumed in every case.
   */
  function DecodeUntil(data: seq<u8>, pos: nat, c: u8): (s: Step<seq<u8>, Error>)
    requires pos <= |data|
    ensures pos <= s.pos <= |data|
    ensures s.result.Err? ==> s.result.error == Incomplete
    ensures s.result.Ok? ==> s.pos > pos && data[pos..(s.pos)] == s.result.value + [0]
  {
    var chunk := ReadUntil(data, pos, c);
    var next := pos + |chunk|;
    if chunk == [] then Step(Err(Incomplete), next)
    else if chunk[|chunk| - 1] == 0 then Step(Ok(chunk[..|chunk| - 1]), next)
    else Step(Err(Incomplete), next)
  }

  /**
   * With the terminator 0 that every caller passes: the bytes before the first
   * NUL, the cursor just past it; `Incomplete`, everything consumed, when no NUL
   * is left.
   */
  lemma {:induction false} DecodeUntilNul(data: seq<u8>, pos: nat)
    requires pos <= |data|
    ensures var s := DecodeUntil(data, pos, 0);
      if 0 in data[pos..] then
        && s.result.Ok?
        && s.pos == pos + |s.result.value| + 1
        && data[pos..s.pos - 1] == s.result.value
        && data[s.pos - 1] == 0
        && 0 !in s.result.value
      else
        s.result == Err(Incomplete) && s.pos == |data|
  {
    var chunk := ReadUntil(data, pos, 0);
    var s := DecodeUntil(data, pos, 0);
    if 0 in data[pos..] {
      assert s.result.value == chunk[..|chunk| - 1];
      assert forall i :: 0 <= i < |s.result.value| ==> s.result.value[i] == chunk[i];
    } else {
      assert chunk == [] || chunk[|chunk| - 1] != 0 by {
        if chunk != [] { assert chunk[|chunk| - 1] == data[pos..][|chunk| - 1]; }
      }
    }
  }

  /** The bytes up to a NUL at `k`, when nothing before it is a NUL. */
  lemma DecodeUntilAt(data: seq<u8>, pos: nat, k: nat)
    requires pos <= k < |data| && data[k] == 0 && 0 !in data[pos..k]
    ensures DecodeUntil(data, pos, 0) == Step(Ok(data[pos..k]), k + 1)
  {
    ReadUntilAt(data, pos, k, 0);
    assert data[pos..k + 1][..k - pos] == data[pos..k];
  }

  /** The quirk that the terminator tested is 0, not `c`. */
  lemma DecodeUntilTestsNul()
    ensures DecodeUntil([5], 0, 5).result == Err(Incomplete)
    ensures DecodeUntil([7, 0], 0, 5).result == Ok([7])
  {
    assert ReadUntil([5], 0, 5) == [5];
    assert ReadUntil([7, 0], 1, 5) == [0];
    assert ReadUntil([7, 0], 0, 5) == [7, 0];
  }

  // ---------------------------------------------------------------------------
  // Readers as cursor methods

  method GetU8(src: Cursor) returns (r: Result<u8, Error>)
    requires src.Valid()
    modifies src
    ensures src.Valid() && Step(r, src.pos) == DecodeU8(src.data, old(src.pos))
  {
    if src.Remaining() == 0 {
      return Err(Incomplete);
    }
    r := Ok(src.data[src.pos]);
    src.pos := src.pos + 1;
  }

  method GetU16(src: Cursor) returns (r: Result<u16, Error>)
    requires src.Valid()
    modifies src
    ensures src.Valid() && Step(r, src.pos) == DecodeU16(src.data, old(src.pos))
  {
    if src.Remaining() < 2 {
      return Err(Incomplete);
    }
    var bs := src.data[src.pos..src.pos + 2];
    BeWidthRoundTrip(bs);
    r := Ok(BeValue(bs));
    src.pos := src.pos + 2;
  }

  method GetU32(src: Cursor) returns (r: Result<u32, Error>)
    requires src.Valid()
    modifies src
    ensures src.Valid() && Step(r, src.pos) == DecodeU32(src.data, old(src.pos))
  {
    if src.Remaining() < 4 {
      return Err(Incomplete);
    }
    var bs := src.data[src.pos..src.pos + 4];
    BeWidthRoundTrip(bs);
    r := Ok(BeValue(bs));
    src.pos := src.pos + 4;
  }

  /** `get_u128` as written: 128 bytes must remain, 16 are consumed. */
  method GetU128(src: Cursor) returns (r: Result<u128, Error>)
    requires src.Valid()
    modifies src
    ensures src.Valid() && Step(r, src.pos) == DecodeU128AsWritten(src.data, old(src.pos))
  {
    if src.Remaining() < 128 {
      return Err(Incomplete);
    }
    var bs := src.data[src.pos..src.pos + 16];
    BeWidthRoundTrip(bs);
    r := Ok(BeValue(bs));
    src.pos := src.pos + 16;
  }

  /** Pushes the next `n` bytes one `get_u8` at a time, after checking that `n` remain. */
  method GetNBytes(src: Cursor, n: nat) returns (r: Result<seq<u8>, Error>)
    requires src.Valid()
    modifies src
    ensures src.Valid() && Step(r, src.pos) == DecodeNBytes(src.data, old(src.pos), n)
  {
    if src.Remaining() < n {
      return Err(Incomplete);
    }
    var result: seq<u8> := [];
    var left := n;
    while left > 0
      invariant src.Valid()
      invariant src.pos + left == old(src.pos) + n
      invariant result == src.data[old(src.pos)..src.pos]
    {
      var b := GetU8(src);
      assert b.Ok?;
      result := result + [b.value];
      left := left - 1;
    }
    r := Ok(result);
  }

  method GetUntil(src: Cursor, c: u8) returns (r: Result<seq<u8>, Error>)
    requires src.Valid()
    modifies src
    ensures src.Valid() && Step(r, src.pos) == DecodeUntil(src.data, old(src.pos), c)
  {
    var result := src.ReadUntilByte(c);
    if |result| == 0 {
      return Err(Incomplete);
    }
    var last := result[|result| - 1];
    result := result[..|result| - 1];
    if last == 0 {
      return Ok(result);
    }
    r := Err(Incomplete);
  }
}
