/**
 * The incremental request reader of src/protocol.rs: its own error type (with
 * `AddrTypeUnsupported(u8)`), the request and reply vocabulary, the reply-code
 * mapping, and `BufReader`, which reads from a `Cursor` and records every byte
 * it consumes.
 */
module Inbound {
  import opened Bytes
  import opened Wrappers
  import opened Net
  import opened Cursors
  import Errors
  import Codec

  /** src/error.rs as src/protocol.rs uses it: an unsupported address type carries a byte. */
  datatype Error =
    | Incomplete
    | VnUnsupported(vn: u8)
    | UnknownCmd(cmd: u8)
    | NotIpV4
    | NotIpV6
    | AddrTypeUnsupported(atype: u8)
    | NotImplemented
    | ServerRefusedAuth
    | IoErr(kind: Errors.IoKind)
    | Other(desc: string)

  /** The `From<FromUtf8Error>` conversion; the message text is abstracted. */
  const Utf8Error: Error := Other("invalid utf-8")

  datatype Ver = V4 | V5 | Http

  /** Address types of RFC 1928 section 5. */
  datatype AType = AtIpv4 | AtDomain | AtIpv6

  function ATypeByte(t: AType): (b: u8)
    ensures b in {1, 3, 4}
  {
    match t
    case AtIpv4 => 1
    case AtDomain => 3
    case AtIpv6 => 4
  }

  /** Reply codes, named after the REP values of RFC 1928 section 6. */
  datatype ReplyCmd =
    | RepSuccessful | RepServerError | RepRulesNotAllowed | RepNetworkUnreachable | RepHostUnreachable
    | RepConnectionRefused | RepTtlExpired | RepCmdTypeUnsupported | RepAddrTypeUnsupported

  /** The discriminant `*self as u8`. */
  function ReplyCmdByte(c: ReplyCmd): u8
  {
    match c
    case RepSuccessful => 0
    case RepServerError => 1
    case RepRulesNotAllowed => 2
    case RepNetworkUnreachable => 3
    case RepHostUnreachable => 4
    case RepConnectionRefused => 5
    case RepTtlExpired => 6
    case RepCmdTypeUnsupported => 7
    case RepAddrTypeUnsupported => 8
  }

  /** The discriminants are the nine distinct codes 0..8. */
  lemma ReplyCmdByteInjective(c: ReplyCmd, d: ReplyCmd)
    ensures ReplyCmdByte(c) <= 8
    ensures ReplyCmdByte(c) == ReplyCmdByte(d) ==> c == d
  {
  }

  /**
   * `ReplyCmd::as_u8`: SOCKS4 knows only granted (90), rejected (91) and
   * failed (92); SOCKS5 uses the REP value; HTTP has no code and gets 0.
   */
  function AsU8(c: ReplyCmd, ver: Ver): (b: u8)
    ensures ver == V4 ==> 90 <= b <= 92
    ensures ver == V4 ==> (b == 90 <==> c == RepSuccessful) && (b == 91 <==> c == RepConnectionRefused)
    ensures ver == V5 ==> b <= 8 && (forall d :: ReplyCmdByte(d) == b ==> d == c)
    ensures ver == Http ==> b == 0
  {
    match ver
    case V4 =>
      if c == RepSuccessful then 90 else if c == RepConnectionRefused then 91 else 92
    case V5 =>
      ReplyCmdByteInjective(c, c);
      forall d | ReplyCmdByte(d) == ReplyCmdByte(c) ensures d == c {
        ReplyCmdByteInjective(d, c);
      }
      ReplyCmdByte(c)
    case Http => 0
  }

  /**
   * `Reply::get_cmd_by_err`: a bad address type or command is reported as an
   * unsupported command, a refused or reset connection as refused, and
   * everything else as a server error.
   */
  function CmdByErr(err: Error): (c: ReplyCmd)
    ensures c in {RepCmdTypeUnsupported, RepConnectionRefused, RepServerError}
    ensures c == RepCmdTypeUnsupported <==> err.AddrTypeUnsupported? || err.UnknownCmd?
    ensures c == RepConnectionRefused <==>
      err.IoErr? && err.kind in {Errors.ConnectionRefused, Errors.ConnectionReset}
  {
    match err
    case AddrTypeUnsupported(_) => RepCmdTypeUnsupported
    case UnknownCmd(_) => RepCmdTypeUnsupported
    case IoErr(kind) =>
      if kind == Errors.ConnectionRefused || kind == Errors.ConnectionReset then RepConnectionRefused
      else RepServerError
    case _ => RepServerError
  }

  datatype AuthReq = AuthReq(offered: seq<u8>)

  /** A parsed request; `raw` holds the bytes the reader consumed for it. */
  datatype Request = Request(
    ver: Ver,
    cmd: Codec.ReqCmd,
    rsv: u8,
    dstDomain: Option<seq<u8>>,
    dstAddr: Option<IpAddr>,
    dstPort: u16,
    aType: AType,
    raw: seq<u8>)

  datatype ReqFrame = Auth(auth: AuthReq) | Req(req: Request)

  // ---------------------------------------------------------------------------
  // What the reader's operations do to a byte slice

  /**
   * The fixed-width reads of `BufReader` are those of the cursor codec; the
   * only way they fail is `Incomplete`.
   */
  function Lift<T>(s: Step<T, Errors.Error>): (t: Step<T, Error>)
    requires s.result.Err? ==> s.result.error == Errors.Incomplete
    ensures t.pos == s.pos
    ensures s.result.Ok? ==> t.result == Ok(s.result.value)
    ensures s.result.Err? ==> t.result == Err(Incomplete)
  {
    match s.result
    case Ok(v) => Step(Ok(v), s.pos)
    case Err(_) => Step(Err(Incomplete), s.pos)
  }

  function ReadU8(data: seq<u8>, pos: nat): Step<u8, Error>
    requires pos <= |data|
  {
    Lift(Codec.DecodeU8(data, pos))
  }

  function ReadU16(data: seq<u8>, pos: nat): Step<u16, Error>
    requires pos <= |data|
  {
    Lift(Codec.DecodeU16(data, pos))
  }

  function ReadU32(data: seq<u8>, pos: nat): Step<u32, Error>
    requires pos <= |data|
  {
    Lift(Codec.DecodeU32(data, pos))
  }

  /**
   * `BufReader::get_u128` as written: like the cursor codec's `get_u128`, it
   * demands 128 remaining bytes before it consumes 16.
   */
  function ReadU128(data: seq<u8>, pos: nat): Step<u128, Error>
    requires pos <= |data|
  {
    Lift(Codec.DecodeU128AsWritten(data, pos))
  }

  function ReadNBytes(data: seq<u8>, pos: nat, n: nat): Step<seq<u8>, Error>
    requires pos <= |data|
  {
    Lift(Codec.DecodeNBytes(data, pos, n))
  }

  /**
   * `BufReader::get_until(c)`: everything through the first `c`, or the rest
   * of the data when there is none, keeping `c`; `Incomplete` only when
   * nothing is left.
   */
  function ReadChunk(data: seq<u8>, pos: nat, c: u8): (s: Step<seq<u8>, Error>)
    requires pos <= |data|
    ensures pos <= s.pos <= |data|
    ensures s.result.Err? <==> pos == |data|
    ensures s.result.Err? ==> s.result.error == Incomplete && s.pos == pos
    ensures s.result.Ok? ==> s.result.value == data[pos..(s.pos)] && s.pos > pos
    ensures s.result.Ok? ==> c !in data[pos..(s.pos - 1)]
    ensures s.result.Ok? && data[s.pos - 1] != c ==> s.pos == |data|
  {
    var chunk := ReadUntil(data, pos, c);
    if chunk == [] then Step(Err(Incomplete), pos)
    else
      assert data[pos..pos + |chunk| - 1] == chunk[..|chunk| - 1];
      Step(Ok(chunk), pos + |chunk|)
  }

  /** `"broken line"`: a `'\r'` not followed by `'\n'`. */
  const BrokenLine: Error := Other("broken line")

  const CR: u8 := 0x0d
  const LF: u8 := 0x0a

  /**
   * `BufReader::get_line`: the bytes before a `"\r\n"`, which is consumed
   * too. A line cut off before its `'\n'` is `Incomplete`; a `'\r'` followed
   * by anything else is a broken line.
   */
  function ReadLine(data: seq<u8>, pos: nat): (s: Step<seq<u8>, Error>)
    requires pos <= |data|
    ensures pos <= s.pos <= |data|
    ensures s.result.Ok? ==>
      && s.pos == pos + |s.result.value| + 2
      && s.result.value == data[pos..s.pos - 2] && data[s.pos - 2] == CR && data[s.pos - 1] == LF
      && CR !in s.result.value
    ensures s.result.Err? ==> s.result.error in {Incomplete, BrokenLine}
    ensures s.result == Err(BrokenLine) ==>
      pos + 2 <= s.pos && data[s.pos - 2] == CR && data[s.pos - 1] != LF && CR !in data[pos..s.pos - 2]
  {
    var line := ReadChunk(data, pos, CR);
    if line.result.Err? then Step(Err(line.result.error), line.pos)
    else
      var next := ReadU8(data, line.pos);
      if next.result.Err? then Step(Err(next.result.error), next.pos)
      else if next.result.value != LF then Step(Err(BrokenLine), next.pos)
      else
        var l := line.result.value;
        assert data[pos..next.pos] == l + [LF];
        assert l == l[..|l| - 1] + [CR];
        Step(Ok(l[..|l| - 1]), next.pos)
  }

  /** The line that `ReadLine` finds when a `"\r\n"` ends the first `'\r'`-free run. */
  lemma ReadLineAt(data: seq<u8>, pos: nat, k: nat)
    requires pos <= k && k + 2 <= |data| && data[k] == CR && data[k + 1] == LF && CR !in data[pos..k]
    ensures ReadLine(data, pos) == Step(Ok(data[pos..k]), k + 2)
  {
    ReadUntilAt(data, pos, k, CR);
    assert data[pos..k + 1][..k - pos] == data[pos..k];
  }

  /** A `'\r'` followed by something other than `'\n'` ends the line as a broken one. */
  lemma ReadLineBroken(data: seq<u8>, pos: nat, k: nat)
    requires pos <= k && k + 1 < |data| && data[k] == CR && data[k + 1] != LF && CR !in data[pos..k]
    ensures ReadLine(data, pos) == Step(Err(BrokenLine), k + 2)
  {
    ReadUntilAt(data, pos, k, CR);
  }

  /**
   * Without a `'\r'` before the last byte the line is cut off: `Incomplete`,
   * with everything consumed.
   */
  lemma ReadLineIncomplete(data: seq<u8>, pos: nat)
    requires pos <= |data|
    requires forall k :: pos <= k < |data| - 1 ==> data[k] != CR
    ensures ReadLine(data, pos) == Step(Err(Incomplete), |data|)
  {
    var chunk := ReadUntil(data, pos, CR);
    if chunk != [] && chunk[|chunk| - 1] == CR {
      assert data[pos + |chunk| - 1] == chunk[|chunk| - 1];
    }
  }

  /**
   * The `while` loop over `get_line`: header lines up to and including the
   * first empty one; the first failing line's error otherwise.
   */
  function ReadHeaders(data: seq<u8>, pos: nat): (s: Step<(), Error>)
    requires pos <= |data|
    ensures pos <= s.pos <= |data|
    ensures s.result.Ok? ==> pos + 2 <= s.pos
    ensures s.result.Err? ==> s.result.error in {Incomplete, BrokenLine}
    decreases |data| - pos
  {
    var l := ReadLine(data, pos);
    if l.result.Err? then Step(Err(l.result.error), l.pos)
    else if l.result.value == [] then Step(Ok(()), l.pos)
    else ReadHeaders(data, l.pos)
  }

  /** A `"\r\n"` starts at `j`. */
  predicate Crlf(data: seq<u8>, j: int)
  {
    0 <= j && j + 2 <= |data| && data[j] == CR && data[j + 1] == LF
  }

  /** An empty line starts at `j` of a header block that starts at `pos`: at `pos`, or right after a `"\r\n"`. */
  predicate BlankAt(data: seq<u8>, pos: nat, j: int)
  {
    Crlf(data, j) && (j == pos || (j >= pos + 2 && Crlf(data, j - 2)))
  }

  /** A `'\r'` at `k`, if there is one, is followed by `'\n'`. */
  predicate CrPaired(data: seq<u8>, k: int)
  {
    0 <= k < |data| && data[k] == CR ==> Crlf(data, k)
  }

  /**
   * Up to `x`, the block from `pos` has no empty line and no `'\r'` without
   * its `'\n'`.
   */
  predicate Clean(data: seq<u8>, pos: nat, x: int)
  {
    && (forall k :: pos <= k < x ==> CrPaired(data, k))
    && (forall j :: pos <= j < x ==> !BlankAt(data, pos, j))
  }

  /** The header block from `pos` ends at `e`: its first empty line ends there. */
  predicate HeadersEnd(data: seq<u8>, pos: nat, e: int)
  {
    pos + 2 <= e && BlankAt(data, pos, e - 2) && Clean(data, pos, e - 2)
  }

  /** The header block from `pos` breaks at `k`: a `'\r'` without its `'\n'`, before any empty line. */
  predicate HeadersBroken(data: seq<u8>, pos: nat, k: int)
  {
    pos <= k && k + 1 < |data| && data[k] == CR && data[k + 1] != LF && Clean(data, pos, k)
  }

  /** The first `'\r'` at or after `pos`, or the end of the data when there is none. */
  function NextCr(data: seq<u8>, pos: nat): (k: nat)
    requires pos <= |data|
    ensures pos <= k <= |data| && (k < |data| ==> data[k] == CR) && CR !in data[pos..k]
    decreases |data| - pos
  {
    if pos == |data| || data[pos] == CR then pos
    else
      var k := NextCr(data, pos + 1);
      assert data[pos..k] == [data[pos]] + data[pos + 1..k];
      k
  }

  /** No `'\r'` at or after `pos` comes before the first one. */
  lemma NextCrBefore(data: seq<u8>, pos: nat, j: nat)
    requires pos <= j < |data| && data[j] == CR
    ensures NextCr(data, pos) <= j
  {
    NoCrBefore(data, pos, NextCr(data, pos));
  }

  /**
   * The header block read by jumping from each line's first `'\r'` to the
   * next line: where the block ends, or where and how it fails.
   *
   * `ReadHeadersIsScan` shows that the header loop agrees with this scan on
   * every input. It goes through `HeadersFrom`, the loop as a function of the
   * position, so that the induction in `TurnsAreScan` reasons about one turn
   * at a time and never about `get_line` itself.
   */
  function HeaderScan(data: seq<u8>, pos: nat): Step<(), Error>
    requires pos <= |data|
    decreases |data| - pos
  {
    var k := NextCr(data, pos);
    if k + 1 >= |data| then Step(Err(Incomplete), |data|)
    else if data[k + 1] != LF then Step(Err(BrokenLine), k + 2)
    else if k == pos then Step(Ok(()), pos + 2)
    else HeaderScan(data, k + 2)
  }

  /**
   * One turn of the header loop `h`, which gives the outcome from every
   * position, over a first line whose first `'\r'` is at `k`: it ends there
   * as `HeaderScan` does, or goes on from the next line.
   */
  predicate ScanTurn(data: seq<u8>, h: nat -> Step<(), Error>, p: nat, k: nat)
    requires p <= k <= |data|
  {
    h(p) ==
      if k + 1 >= |data| then Step(Err(Incomplete), |data|)
      else if data[k + 1] != LF then Step(Err(BrokenLine), k + 2)
      else if k == p then Step(Ok(()), p + 2)
      else h(k + 2)
  }

  /** A loop that turns as `ScanTurn` says from every position is `HeaderScan`. */
  lemma {:induction false} TurnsAreScan(data: seq<u8>, h: nat -> Step<(), Error>, pos: nat)
    requires pos <= |data|
    requires forall p :: pos <= p <= |data| ==> ScanTurn(data, h, p, NextCr(data, p))
    ensures h(pos) == HeaderScan(data, pos)
    decreases |data| - pos
  {
    var k := NextCr(data, pos);
    assert ScanTurn(data, h, pos, k);
    if k != pos && Crlf(data, k) {
      TurnsAreScan(data, h, k + 2);
    }
  }

  /** The header loop from every position, with an out-of-range position read as the end. */
  function HeadersFrom(data: seq<u8>): nat -> Step<(), Error>
  {
    (q: nat) => if q <= |data| then ReadHeaders(data, q) else Step(Err(Incomplete), |data|)
  }

  /** Every turn of the header loop, over a first line whose first `'\r'` is at `k`, is a `ScanTurn`. */
  lemma ReadHeadersTurn(data: seq<u8>, p: nat, k: nat)
    requires p <= k <= |data| && (k < |data| ==> data[k] == CR) && CR !in data[p..k]
    ensures ScanTurn(data, HeadersFrom(data), p, k)
  {
    if k + 1 >= |data| {
      TurnCut(data, p, k);
    } else if data[k + 1] != LF {
      TurnBroken(data, p, k);
    } else if k == p {
      TurnBlank(data, p);
    } else {
      TurnNext(data, p, k);
    }
  }

  /** A first line cut off before its line break ends the loop `Incomplete`, as the scan does. */
  lemma TurnCut(data: seq<u8>, p: nat, k: nat)
    requires p <= k <= |data| && |data| <= k + 1 && CR !in data[p..k]
    ensures ScanTurn(data, HeadersFrom(data), p, k)
  {
    ReadHeadersCut(data, p, k);
  }

  /** A first line broken at `k` ends the loop there, as the scan does. */
  lemma TurnBroken(data: seq<u8>, p: nat, k: nat)
    requires p <= k && k + 1 < |data| && data[k] == CR && data[k + 1] != LF && CR !in data[p..k]
    ensures ScanTurn(data, HeadersFrom(data), p, k)
  {
    ReadHeadersBrokenLine(data, p, k);
  }

  /** An empty first line ends the loop just after it, as the scan does. */
  lemma TurnBlank(data: seq<u8>, p: nat)
    requires Crlf(data, p)
    ensures ScanTurn(data, HeadersFrom(data), p, p)
  {
    ReadHeadersStep(data, p, p);
  }

  /** Past a non-empty first line the loop goes on from the next line, as the scan does. */
  lemma TurnNext(data: seq<u8>, p: nat, k: nat)
    requires p < k && Crlf(data, k) && CR !in data[p..k]
    ensures ScanTurn(data, HeadersFrom(data), p, k)
  {
    HeadersFromNext(data, p, k);
    ScanTurnNext(data, HeadersFrom(data), p, k);
  }

  /** Past a non-empty first line, `HeadersFrom` goes on from the next line. */
  lemma HeadersFromNext(data: seq<u8>, p: nat, k: nat)
    requires p < k && Crlf(data, k) && CR !in data[p..k]
    ensures HeadersFrom(data)(p) == HeadersFrom(data)(k + 2)
  {
    ReadHeadersNext(data, p, k);
    HeadersFromEq(data, p, k + 2);
  }

  /** A loop that goes on from the next line past a first, non-empty line turns as `ScanTurn` says. */
  lemma ScanTurnNext(data: seq<u8>, h: nat -> Step<(), Error>, p: nat, k: nat)
    requires p < k && Crlf(data, k) && h(p) == h(k + 2)
    ensures ScanTurn(data, h, p, k)
  {
  }

  /** `HeadersFrom` agrees at two positions from which the header loop agrees. */
  lemma HeadersFromEq(data: seq<u8>, p: nat, q: nat)
    requires p <= |data| && q <= |data| && ReadHeaders(data, p) == ReadHeaders(data, q)
    ensures HeadersFrom(data)(p) == HeadersFrom(data)(q)
  {
  }

  /**
   * Whatever the bytes, the header loop ends where `HeaderScan` ends and
   * with the same outcome: each `get_line` stops at the first `'\r'`.
   */
  lemma ReadHeadersIsScan(data: seq<u8>, pos: nat)
    requires pos <= |data|
    ensures ReadHeaders(data, pos) == HeaderScan(data, pos)
  {
    forall p | pos <= p <= |data|
      ensures ScanTurn(data, HeadersFrom(data), p, NextCr(data, p))
    {
      ReadHeadersTurn(data, p, NextCr(data, p));
    }
    TurnsAreScan(data, HeadersFrom(data), pos);
  }

  /** Past a first, non-empty line, the header loop goes on from the next line. */
  lemma ReadHeadersNext(data: seq<u8>, pos: nat, k: nat)
    requires pos < k && Crlf(data, k) && CR !in data[pos..k]
    ensures ReadHeaders(data, pos) == ReadHeaders(data, k + 2)
  {
    ReadHeadersStep(data, pos, k);
  }

  /** A first line with no `'\r'` before the last byte leaves the header loop `Incomplete`. */
  lemma ReadHeadersCut(data: seq<u8>, pos: nat, k: nat)
    requires pos <= k <= |data| && |data| <= k + 1 && CR !in data[pos..k]
    ensures ReadHeaders(data, pos) == Step(Err(Incomplete), |data|)
  {
    NoCrBefore(data, pos, k);
    ReadLineIncomplete(data, pos);
  }

  /** A first line broken at `k` stops the header loop there. */
  lemma ReadHeadersBrokenLine(data: seq<u8>, pos: nat, k: nat)
    requires pos <= k && k + 1 < |data| && data[k] == CR && data[k + 1] != LF && CR !in data[pos..k]
    ensures ReadHeaders(data, pos) == Step(Err(BrokenLine), k + 2)
  {
    ReadLineBroken(data, pos, k);
  }

  /**
   * The header loop succeeds exactly when a header block ends, and then it
   * stops just after the first empty line.
   */
  lemma ReadHeadersOk(data: seq<u8>, pos: nat, e: nat)
    requires pos <= |data|
    ensures ReadHeaders(data, pos) == Step(Ok(()), e) <==> HeadersEnd(data, pos, e)
  {
    ReadHeadersIsScan(data, pos);
    if HeaderScan(data, pos) == Step(Ok(()), e) {
      ScanOkEnd(data, pos, e);
    }
    if HeadersEnd(data, pos, e) {
      ScanEndOk(data, pos, e);
    }
  }

  lemma {:induction false} ScanOkEnd(data: seq<u8>, pos: nat, e: nat)
    requires pos <= |data| && HeaderScan(data, pos) == Step(Ok(()), e)
    ensures HeadersEnd(data, pos, e)
    decreases |data| - pos
  {
    var c := NextCr(data, pos);
    if c == pos {
      HeadersEndEmpty(data, pos);
    } else {
      ScanOkEnd(data, c + 2, e);
      HeadersEndBeforeLine(data, pos, c, e);
    }
  }

  lemma {:induction false} ScanEndOk(data: seq<u8>, pos: nat, e: nat)
    requires pos <= |data| && HeadersEnd(data, pos, e)
    ensures HeaderScan(data, pos) == Step(Ok(()), e)
    decreases |data| - pos
  {
    var c := NextCr(data, pos);
    NextCrBefore(data, pos, e - 2);
    assert Crlf(data, c) by {
      if c < e - 2 {
        assert CrPaired(data, c);
      }
    }
    if c != pos {
      HeadersEndAfterLine(data, pos, c, e);
      ScanEndOk(data, c + 2, e);
    } else {
      assert BlankAt(data, pos, pos);
    }
  }

  /** A block that ends at `e` and whose first line is not empty ends at `e` after that line too. */
  lemma HeadersEndAfterLine(data: seq<u8>, pos: nat, c: nat, e: nat)
    requires HeadersEnd(data, pos, e) && pos < c <= e - 2 && Crlf(data, c) && CR !in data[pos..c]
    ensures HeadersEnd(data, c + 2, e)
  {
    NoCrBefore(data, pos, c);
    assert !BlankAt(data, pos, c) by {
      if c >= pos + 2 {
        assert data[c - 2] != CR;
      }
    }
    assert c != e - 2 && data[c + 1] != data[e - 2];
    ShiftLine(data, pos, c, e - 2);
  }

  /** A block whose first line is empty ends right after it. */
  lemma HeadersEndEmpty(data: seq<u8>, pos: nat)
    requires Crlf(data, pos)
    ensures HeadersEnd(data, pos, pos + 2)
  {
  }

  /** A block that ends at `e` after a first, non-empty line ends at `e` from the start of that line. */
  lemma HeadersEndBeforeLine(data: seq<u8>, pos: nat, c: nat, e: nat)
    requires pos < c && Crlf(data, c) && CR !in data[pos..c] && HeadersEnd(data, c + 2, e)
    ensures HeadersEnd(data, pos, e)
  {
    ShiftLine(data, pos, c, e - 2);
  }

  /**
   * The header loop stops at a broken line exactly when the block breaks,
   * just after the offending `'\r'` and the byte after it.
   */
  lemma ReadHeadersBroken(data: seq<u8>, pos: nat, k: nat)
    requires pos <= |data|
    ensures ReadHeaders(data, pos) == Step(Err(BrokenLine), k + 2) <==> HeadersBroken(data, pos, k)
  {
    ReadHeadersIsScan(data, pos);
    if HeaderScan(data, pos) == Step(Err(BrokenLine), k + 2) {
      ScanErrBroken(data, pos, k);
    }
    if HeadersBroken(data, pos, k) {
      ScanBrokenErr(data, pos, k);
    }
  }

  lemma {:induction false} ScanErrBroken(data: seq<u8>, pos: nat, k: nat)
    requires pos <= |data| && HeaderScan(data, pos) == Step(Err(BrokenLine), k + 2)
    ensures HeadersBroken(data, pos, k)
    decreases |data| - pos
  {
    var c := NextCr(data, pos);
    if data[c + 1] != LF {
      HeadersBrokenFirst(data, pos, k);
    } else {
      ScanErrBroken(data, c + 2, k);
      HeadersBrokenBeforeLine(data, pos, c, k);
    }
  }

  lemma {:induction false} ScanBrokenErr(data: seq<u8>, pos: nat, k: nat)
    requires pos <= |data| && HeadersBroken(data, pos, k)
    ensures HeaderScan(data, pos) == Step(Err(BrokenLine), k + 2)
    decreases |data| - pos
  {
    var c := NextCr(data, pos);
    NextCrBefore(data, pos, k);
    if c < k {
      assert CrPaired(data, c);
      HeadersBrokenAfterLine(data, pos, c, k);
      ScanBrokenErr(data, c + 2, k);
    }
  }

  /** A first line broken at `k` breaks the block there. */
  lemma HeadersBrokenFirst(data: seq<u8>, pos: nat, k: nat)
    requires pos <= k && k + 1 < |data| && data[k] == CR && data[k + 1] != LF && CR !in data[pos..k]
    ensures HeadersBroken(data, pos, k)
  {
    NoCrBefore(data, pos, k);
  }

  /** A block that breaks at `k` after a first, non-empty line breaks at `k` from the start of that line. */
  lemma HeadersBrokenBeforeLine(data: seq<u8>, pos: nat, c: nat, k: nat)
    requires pos < c && Crlf(data, c) && CR !in data[pos..c] && HeadersBroken(data, c + 2, k)
    ensures HeadersBroken(data, pos, k)
  {
    ShiftLine(data, pos, c, k);
  }

  /** A block that breaks at `k` and whose first line ends at `c < k` is not empty there, and breaks at `k` after it. */
  lemma HeadersBrokenAfterLine(data: seq<u8>, pos: nat, c: nat, k: nat)
    requires HeadersBroken(data, pos, k) && pos <= c < k && Crlf(data, c) && CR !in data[pos..c]
    ensures pos < c && HeadersBroken(data, c + 2, k)
  {
    NoCrBefore(data, pos, c);
    assert BlankAt(data, pos, c) <==> c == pos;
    assert !BlankAt(data, pos, c) by {
      if c >= pos + 2 {
        assert data[c - 2] != CR;
      }
    }
    ShiftLine(data, pos, c, k);
  }

  /** One turn of the header loop, over a first line that ends with the `"\r\n"` at `c`. */
  lemma ReadHeadersStep(data: seq<u8>, pos: nat, c: nat)
    requires pos <= c && Crlf(data, c) && CR !in data[pos..c]
    ensures ReadHeaders(data, pos) == if c == pos then Step(Ok(()), pos + 2) else ReadHeaders(data, c + 2)
  {
    ReadLineAt(data, pos, c);
    assert |data[pos..c]| == c - pos;
  }

  /**
   * After a first, non-empty line that ends with the `"\r\n"` at `c`, the
   * block from `pos` and the block from `c + 2` agree on where empty lines
   * start and on what is clean.
   */
  lemma ShiftLine(data: seq<u8>, pos: nat, c: nat, x: int)
    requires pos < c && Crlf(data, c) && CR !in data[pos..c] && c + 2 <= x
    ensures forall y :: y >= c + 2 ==> (BlankAt(data, pos, y) <==> BlankAt(data, c + 2, y))
    ensures Clean(data, pos, x) <==> Clean(data, c + 2, x)
  {
    NoCrBefore(data, pos, c);
    var m := c + 2;
    forall y | y >= m
      ensures BlankAt(data, pos, y) <==> BlankAt(data, m, y)
    {
      if y == m + 1 {
        assert !Crlf(data, y - 2);
      }
    }
    forall k | pos <= k < m
      ensures CrPaired(data, k)
    {
    }
    forall j | pos <= j < m
      ensures !BlankAt(data, pos, j)
    {
      if j == c && j >= pos + 2 {
        assert data[j - 2] != CR;
      } else if j == c + 1 {
        assert !Crlf(data, j);
      }
    }
  }

  lemma NoCrBefore(data: seq<u8>, pos: nat, c: nat)
    requires pos <= c <= |data| && CR !in data[pos..c]
    ensures forall k :: pos <= k < c ==> data[k] != CR
  {
    forall k | pos <= k < c ensures data[k] != CR {
      assert data[k] == data[pos..c][k - pos];
    }
  }

  // ---------------------------------------------------------------------------
  // The reader

  /**
   * `BufReader`: `buffer` is every byte its reads have consumed, in order
   * (the bytes written to its `BufWriter`).
   */
  class BufReader {
    var buffer: seq<u8>

    constructor ()
      ensures buffer == []
    {
      buffer := [];
    }

    method GetU8(src: Cursor) returns (r: Result<u8, Error>)
      requires src.Valid()
      modifies src, this
      ensures src.Valid() && Step(r, src.pos) == ReadU8(src.data, old(src.pos))
      ensures buffer == old(buffer) + src.data[old(src.pos)..src.pos]
    {
      var b := Codec.GetU8(src);
      if b.Err? {
        return Err(Incomplete);
      }
      buffer := buffer + [b.value];
      r := Ok(b.value);
    }

    method GetU16(src: Cursor) returns (r: Result<u16, Error>)
      requires src.Valid()
      modifies src, this
      ensures src.Valid() && Step(r, src.pos) == ReadU16(src.data, old(src.pos))
      ensures buffer == old(buffer) + src.data[old(src.pos)..src.pos]
    {
      var v := Codec.GetU16(src);
      if v.Err? {
        return Err(Incomplete);
      }
      BeWidthRoundTrip(src.data[old(src.pos)..src.pos]);
      buffer := buffer + U16Be(v.value);
      r := Ok(v.value);
    }

    method GetU32(src: Cursor) returns (r: Result<u32, Error>)
      requires src.Valid()
      modifies src, this
      ensures src.Valid() && Step(r, src.pos) == ReadU32(src.data, old(src.pos))
      ensures buffer == old(buffer) + src.data[old(src.pos)..src.pos]
    {
      var v := Codec.GetU32(src);
      if v.Err? {
        return Err(Incomplete);
      }
      BeWidthRoundTrip(src.data[old(src.pos)..src.pos]);
      buffer := buffer + U32Be(v.value);
      r := Ok(v.value);
    }

    method GetU128(src: Cursor) returns (r: Result<u128, Error>)
      requires src.Valid()
      modifies src, this
      ensures src.Valid() && Step(r, src.pos) == ReadU128(src.data, old(src.pos))
      ensures buffer == old(buffer) + src.data[old(src.pos)..src.pos]
    {
      var v := Codec.GetU128(src);
      if v.Err? {
        return Err(Incomplete);
      }
      BeWidthRoundTrip(src.data[old(src.pos)..src.pos]);
      buffer := buffer + U128Be(v.value);
      r := Ok(v.value);
    }

    /** Checks that `n` bytes remain, then takes them one `get_u8` at a time. */
    method GetNBytes(src: Cursor, n: nat) returns (r: Result<seq<u8>, Error>)
      requires src.Valid()
      modifies src, this
      ensures src.Valid() && Step(r, src.pos) == ReadNBytes(src.data, old(src.pos), n)
      ensures buffer == old(buffer) + src.data[old(src.pos)..src.pos]
    {
      if src.Remaining() < n {
        return Err(Incomplete);
      }
      var result: seq<u8> := [];
      var left := n;
      while left > 0
        invariant src.Valid()
        invariant src.pos + left == old(src.pos) + n
        invariant result == src.data[old(src.pos)..src.pos]
        invariant buffer == old(buffer) + result
      {
        var b := GetU8(src);
        assert b.Ok?;
        result := result + [b.value];
        left := left - 1;
      }
      r := Ok(result);
    }

    method GetUntil(src: Cursor, c: u8) returns (r: Result<seq<u8>, Error>)
      requires src.Valid()
      modifies src, this
      ensures src.Valid() && Step(r, src.pos) == ReadChunk(src.data, old(src.pos), c)
      ensures buffer == old(buffer) + src.data[old(src.pos)..src.pos]
    {
      var result := src.ReadUntilByte(c);
      if |result| == 0 {
        return Err(Incomplete);
      }
      buffer := buffer + result;
      r := Ok(result);
    }

    method GetLine(src: Cursor) returns (r: Result<seq<u8>, Error>)
      requires src.Valid()
      modifies src, this
      ensures src.Valid() && Step(r, src.pos) == ReadLine(src.data, old(src.pos))
      ensures buffer == old(buffer) + src.data[old(src.pos)..src.pos]
    {
      var line := GetUntil(src, CR);
      if line.Err? {
        return Err(line.error);
      }
      var mid := src.pos;
      var next := GetU8(src);
      assert src.data[old(src.pos)..src.pos] == src.data[old(src.pos)..mid] + src.data[mid..src.pos];
      if next.Err? {
        return Err(next.error);
      }
      if next.value != LF {
        return Err(BrokenLine);
      }
      r := Ok(line.value[..|line.value| - 1]);
    }
  }
}
