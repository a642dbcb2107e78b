/**
 * The test cases of src/protocol.rs, as statements about the parser
 * functions: a complete SOCKS4 request, a complete HTTP CONNECT request, and
 * one whose headers have not ended yet.
 */
module InboundVectors {
  import opened Bytes
  import opened Wrappers
  import opened Net
  import opened Cursors
  import opened Seqs
  import opened Inbound
  import opened InboundParse
  import opened InboundReply
  import Codec

  /** SOCKS4 CONNECT to 192.168.1.1 port 8899 with an empty user id. */
  const V4Request: seq<u8> := [4, 1, 0x22, 0xc3, 0xc0, 0xa8, 1, 1, 0]

  /** `parse_v4_that_completed`: `raw` is the whole input, the version byte included. */
  lemma V4RequestParses(authorized: bool, url: UrlParser)
    ensures var expected := Request(V4, Codec.Connect, 0, None, Some(IpV4(0xc0a8_0101)), 8899, AtIpv4, V4Request);
      && DecodeReqV4(V4Request, 1, [4]) == Step(Ok(expected), 9)
      && DecodeFrame(V4Request, 0, authorized, url) == Step(Ok(Req(expected)), 9)
  {
    var d := V4Request;
    assert d[2..4] == [0x22, 0xc3];
    BeValue2(0x22, 0xc3);
    assert BeValue(d[4..8]) == 0xc0a8_0101 by {
      assert d[4..8][..3] == [0xc0, 0xa8, 0x01];
      assert d[4..8][..3][..2] == [0xc0, 0xa8];
      BeValue2(0xc0, 0xa8);
    }
    ReadUntilAt(d, 8, 8, 0);
    assert [4] + d[1..9] == d;
  }

  /** `"nexel.cc"` */
  const NexelCc: seq<u8> := [0x6e, 0x65, 0x78, 0x65, 0x6c, 0x2e, 0x63, 0x63]

  /** `"Host: nexel.cc"` */
  const HostHeader: seq<u8> := [0x48, 0x6f, 0x73, 0x74, 0x3a, 0x20] + NexelCc

  /** `"ONNECT nexel.cc HTTP/1.1"`: the request line after the dispatch took its `'C'`. */
  const ConnectLine: seq<u8> := Onnect + [Space] + NexelCc + [Space] + Http11

  /** `"CONNECT nexel.cc HTTP/1.1\r\nHost: nexel.cc\r\n\r\n"` */
  const ConnectReq: seq<u8> := [0x43] + ConnectTail

  /** What follows the `'C'`. */
  const ConnectTail: seq<u8> := ConnectLine + [CR, LF] + HostHeader + [CR, LF, CR, LF]

  /** The three parts of the request line are what `split(' ')` finds. */
  lemma ConnectLineParts()
    ensures Split(ConnectLine, Space) == [Onnect, NexelCc, Http11]
  {
    var parts := [Onnect, NexelCc, Http11];
    assert parts[1..] == [NexelCc, Http11];
    assert parts[1..][1..] == [Http11];
    assert Join([Http11], Space) == Http11;
    assert Join(parts[1..], Space) == NexelCc + [Space] + Http11;
    assert Join(parts, Space) == Onnect + [Space] + (NexelCc + [Space] + Http11);
    assert Onnect + [Space] + (NexelCc + [Space] + Http11) == ConnectLine;
    forall i | 0 <= i < |parts|
      ensures Space !in parts[i]
    {
    }
    SplitJoin(parts, Space);
  }

  /** The request line ends at the first CR, at index 25. */
  lemma ConnectFirstLine()
    ensures ReadLine(ConnectReq, 1) == Step(Ok(ConnectLine), 27)
  {
    var d := ConnectReq;
    assert d[1..25] == ConnectLine;
    ReadLineAt(d, 1, 25);
  }

  /** One header line, then the empty line that ends the request at its last byte. */
  lemma ConnectHeaders()
    ensures ReadHeaders(ConnectReq, 27) == Step(Ok(()), 45)
  {
    ConnectHostLine();
    ConnectEndLine();
    assert |ConnectReq| == 45;
    assert ReadHeaders(ConnectReq, 43) == Step(Ok(()), 45);
  }

  lemma ConnectHostLine()
    ensures ReadLine(ConnectReq, 27) == Step(Ok(HostHeader), 43)
  {
    var d := ConnectReq;
    assert d[27..41] == HostHeader;
    ReadLineAt(d, 27, 41);
  }

  lemma ConnectEndLine()
    ensures |ConnectReq| == 45 && ReadLine(ConnectReq, 43) == Step(Ok([]), 45)
  {
    ReadLineAt(ConnectReq, 43, 43);
  }

  /** The request line names `nexel.cc`, and a URL parser that finds it there gives its request. */
  lemma ConnectLineJudged(url: UrlParser, raw: seq<u8>)
    requires url(HttpScheme + NexelCc) == Some(Url(Some(HostDomain(NexelCc)), None))
    ensures JudgeRequestLine(ConnectLine, url, raw)
      == Ok(Request(Http, Codec.Connect, 0, Some(NexelCc), None, 80, AtDomain, raw))
  {
    ConnectLineParts();
  }

  /**
   * `parse_http_req_with_successful`, for a URL parser that finds the host
   * `nexel.cc` and no port in `"http://nexel.cc"`: a request for that domain,
   * port 80, whose `raw` is the whole input.
   */
  lemma ConnectRequestParses(url: UrlParser)
    requires url(HttpScheme + NexelCc) == Some(Url(Some(HostDomain(NexelCc)), None))
    ensures var expected := Request(Http, Codec.Connect, 0, Some(NexelCc), None, 80, AtDomain, ConnectReq);
      DecodeReqHttp(ConnectReq, 1, [0x43], url) == Step(Ok(expected), |ConnectReq|)
  {
    var d := ConnectReq;
    ConnectFirstLine();
    ConnectHeaders();
    ConnectRaw();
    ConnectLineJudged(url, d);
    HttpJudgedAfterHeaders(d, 1, [0x43], url);
  }

  /** The dispatch's `'C'` and the bytes the HTTP parser reads are the whole request. */
  lemma ConnectRaw()
    ensures |ConnectReq| == 45 && [0x43] + ConnectReq[1..45] == ConnectReq
  {
    assert |ConnectTail| == 44;
    assert ConnectReq[1..] == ConnectTail;
  }

  /** `"CONNECT http://nexel.cc HTTP/1.1\r\n"`: a request line and no end of headers. */
  const ConnectNoHeaders: seq<u8> :=
    [0x43] + Onnect + [Space] + HttpScheme + NexelCc + [Space] + Http11 + [CR, LF]

  /**
   * `parse_http_req_with_incomplete`: without the empty line that ends the
   * headers the request is `Incomplete`, whatever the URL parser says.
   */
  lemma ConnectWithoutHeadersIsIncomplete(url: UrlParser)
    ensures DecodeReqHttp(ConnectNoHeaders, 1, [], url).result == Err(Incomplete)
  {
    var d := ConnectNoHeaders;
    assert |d| == 34;
    ReadLineAt(d, 1, 32);
    HttpJudgedAfterHeaders(d, 1, [], url);
  }
}
