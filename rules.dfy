/**
 * The routing rules of src/rule.rs: the five rule tables `initial` fills
 * from rule lines `KIND,CONTENT,ROUTING`, and the two queries `domain` and
 * `ip` that read them. The DNS resolver, the GeoIP database and the CIDR
 * text parser are parameters.
 */
module Rules {
  import opened Wrappers
  import opened Bytes
  import opened Net
  import opened Seqs
  import opened Errors

  datatype Routing = Direct | Proxy | Reject

  const UnknownRouting: Error := Other("unknown routing")

  /** `Routing::try_from`: exactly the three upper-case names. */
  function RoutingTryFrom(value: string): (r: Result<Routing, Error>)
    ensures r == Ok(Direct) <==> value == "DIRECT"
    ensures r == Ok(Proxy) <==> value == "PROXY"
    ensures r == Ok(Reject) <==> value == "REJECT"
    ensures r.Err? <==> value !in {"DIRECT", "PROXY", "REJECT"}
    ensures r.Err? ==> r.error == UnknownRouting
  {
    if value == "DIRECT" then Ok(Direct)
    else if value == "PROXY" then Ok(Proxy)
    else if value == "REJECT" then Ok(Reject)
    else Err(UnknownRouting)
  }

  // ---------------------------------------------------------------------------
  // CIDR blocks

  type Prefix4 = p: nat | p <= 32
  type Prefix6 = p: nat | p <= 128

  /** `ipnetwork::IpNetwork`: an address and the length of its network prefix. */
  datatype Cidr = Cidr4(a4: u32, p4: Prefix4) | Cidr6(a6: u128, p6: Prefix6)

  function Pow2(n: nat): (r: nat)
    ensures r > 0
  {
    if n == 0 then 1 else 2 * Pow2(n - 1)
  }

  /**
   * `IpNetwork::contains`: an address of the block's own family whose first
   * `prefix` bits are the block's, i.e. whose value divided by the size of
   * the block is the block address's.
   */
  predicate CidrContains(c: Cidr, ip: IpAddr)
  {
    match c
    case Cidr4(a, p) => ip.IpV4? && ip.v4 / Pow2(32 - p) == a / Pow2(32 - p)
    case Cidr6(a, p) => ip.IpV6? && ip.v6 / Pow2(128 - p) == a / Pow2(128 - p)
  }

  /** The first address of the block: the block address with its host bits cleared. */
  function Network(a: nat, hostBits: nat): int
  {
    a - a % Pow2(hostBits)
  }

  /** Two addresses agree on all but the low `hostBits` bits iff one lies in the other's block. */
  lemma BlockRange(x: nat, a: nat, hostBits: nat)
    ensures x / Pow2(hostBits) == a / Pow2(hostBits)
      <==> Network(a, hostBits) <= x < Network(a, hostBits) + Pow2(hostBits)
  {
    DivAgree(x, a, Pow2(hostBits));
  }

  lemma DivAgree(x: nat, a: nat, q: nat)
    requires q > 0
    ensures x / q == a / q <==> a - a % q <= x < a - a % q + q
  {
    var k := a / q;
    assert a - a % q == k * q;
    DivRange(x, q, k);
  }

  lemma DivRange(x: nat, q: nat, k: nat)
    requires q > 0
    ensures x / q == k <==> k * q <= x < k * q + q
  {
    var d, m := x / q, x % q;
    assert x == d * q + m && 0 <= m < q;
    if k < d {
      assert k * q + q <= d * q by { MulMono(k + 1, d, q); }
    } else if d < k {
      assert (d + 1) * q <= k * q by { MulMono(d + 1, k, q); }
    }
  }

  lemma MulMono(a: nat, b: nat, q: nat)
    requires a <= b
    ensures a * q <= b * q
  {
  }

  /**
   * Containment is membership in the address range the block spans:
   * `2^(width - prefix)` addresses from its network address on.
   */
  lemma CidrContainsRange(c: Cidr, ip: IpAddr)
    ensures c.Cidr4? ==>
      (CidrContains(c, ip) <==>
         ip.IpV4? && Network(c.a4, 32 - c.p4) <= ip.v4 < Network(c.a4, 32 - c.p4) + Pow2(32 - c.p4))
    ensures c.Cidr6? ==>
      (CidrContains(c, ip) <==>
         ip.IpV6? && Network(c.a6, 128 - c.p6) <= ip.v6 < Network(c.a6, 128 - c.p6) + Pow2(128 - c.p6))
  {
    match c {
      case Cidr4(a, p) =>
        if ip.IpV4? { BlockRange(ip.v4, a, 32 - p); }
      case Cidr6(a, p) =>
        if ip.IpV6? { BlockRange(ip.v6, a, 128 - p); }
    }
  }

  /** `ipnetwork_test`: `127.0.0.1/8` contains `127.0.0.255`. */
  lemma LoopbackBlockContains()
    ensures CidrContains(Cidr4(0x7f00_0001, 8), IpV4(0x7f00_00ff))
  {
    Pow2Of24();
  }

  lemma Pow2Of24()
    ensures Pow2(24) == 0x100_0000
  {
    assert Pow2(8) == 256;
    Pow2Add(16, 8);
    Pow2Add(24, 8);
  }

  lemma {:induction false} Pow2Add(n: nat, k: nat)
    requires k <= n
    ensures Pow2(n) == Pow2(k) * Pow2(n - k)
    decreases k
  {
    if k > 0 {
      Pow2Add(n - 1, k - 1);
    }
  }

  // ---------------------------------------------------------------------------
  // The tables and how rule lines fill them

  /** The five rule tables: exact domains, suffixes, keywords, IPv4 and IPv6 blocks. */
  datatype Tables = Tables(
    domain: map<string, Routing>,
    suffix: map<string, Routing>,
    keyword: map<string, Routing>,
    cidr4: map<Cidr, Routing>,
    cidr6: map<Cidr, Routing>)

  /** `IpNetwork::from_str`, a parse the model takes as given. */
  type CidrParser = string -> Option<Cidr>

  /** Why loading stopped: a CIDR that does not parse, or an unknown routing. */
  datatype LoadError = BadCidr(text: string) | BadRouting(err: Error)

  /** `split_iter.next().unwrap_or("_")` for the field at `i`. */
  function Field(fields: seq<string>, i: nat): string
  {
    if i < |fields| then fields[i] else "_"
  }

  const Kinds: set<string> := {"DOMAIN", "DOMAIN-SUFFIX", "DOMAIN-KEYWORD", "IP-CIDR", "IP-CIDR6"}

  /** The rule kinds `initial` stores. */
  datatype Kind = DomainKind | SuffixKind | KeywordKind | Cidr4Kind | Cidr6Kind

  /** The kind a rule line's first field names, if it is one of the five. */
  function KindOf(name: string): (k: Option<Kind>)
    ensures k.None? <==> name !in Kinds
    ensures k == Some(DomainKind) <==> name == "DOMAIN"
    ensures k == Some(SuffixKind) <==> name == "DOMAIN-SUFFIX"
    ensures k == Some(KeywordKind) <==> name == "DOMAIN-KEYWORD"
    ensures k == Some(Cidr4Kind) <==> name == "IP-CIDR"
    ensures k == Some(Cidr6Kind) <==> name == "IP-CIDR6"
  {
    if name == "DOMAIN" then Some(DomainKind)
    else if name == "DOMAIN-SUFFIX" then Some(SuffixKind)
    else if name == "DOMAIN-KEYWORD" then Some(KeywordKind)
    else if name == "IP-CIDR" then Some(Cidr4Kind)
    else if name == "IP-CIDR6" then Some(Cidr6Kind)
    else None
  }

  /** The kind, content and routing fields of a rule line. */
  function LineFields(line: string): (string, string, string)
  {
    var fields := Split(line, ',');
    (fields[0], Field(fields, 1), Field(fields, 2))
  }

  /** The two kinds whose content is a CIDR block. */
  predicate IsCidrKind(k: Kind)
  {
    k == Cidr4Kind || k == Cidr6Kind
  }

  /** Where a table entry is filed: a name in a domain table, a block in a CIDR table. */
  datatype Key = Name(name: string) | Block(cidr: Cidr)

  /** The entry of the table of kind `k` for `key`, if there is one. */
  function Lookup(t: Tables, k: Kind, key: Key): Option<Routing>
  {
    match key
    case Name(n) =>
      (match k
       case DomainKind => if n in t.domain then Some(t.domain[n]) else None
       case SuffixKind => if n in t.suffix then Some(t.suffix[n]) else None
       case KeywordKind => if n in t.keyword then Some(t.keyword[n]) else None
       case _ => None)
    case Block(c) =>
      (match k
       case Cidr4Kind => if c in t.cidr4 then Some(t.cidr4[c]) else None
       case Cidr6Kind => if c in t.cidr6 then Some(t.cidr6[c]) else None
       case _ => None)
  }

  /**
   * The table and key a rule line is stored under: its kind's table, keyed by
   * its content, or by the block the content parses to for a CIDR kind.
   * Nothing for a kind that is skipped or a CIDR that does not parse.
   */
  function LineKey(line: string, parseCidr: CidrParser): Option<(Kind, Key)>
  {
    var (kind, content, _) := LineFields(line);
    match KindOf(kind)
    case None => None
    case Some(k) =>
      if IsCidrKind(k) then
        (match parseCidr(content)
         case None => None
         case Some(c) => Some((k, Block(c))))
      else Some((k, Name(content)))
  }

  /**
   * One rule line: a domain kind stores its content, an IP kind the block its
   * content parses to (the CIDR is parsed before the routing), under the
   * routing the third field names; another kind is skipped. A failure stores
   * nothing.
   */
  function ApplyLine(t: Tables, line: string, parseCidr: CidrParser): (r: Result<Tables, LoadError>)
    ensures LineFields(line).0 !in Kinds ==> r == Ok(t)
    ensures r.Err? <==>
      LineFields(line).0 in Kinds && (LineKey(line, parseCidr).None? || RoutingTryFrom(LineFields(line).2).Err?)
    ensures r.Ok? ==>
      && t.domain.Keys <= r.value.domain.Keys && t.suffix.Keys <= r.value.suffix.Keys
      && t.keyword.Keys <= r.value.keyword.Keys
      && t.cidr4.Keys <= r.value.cidr4.Keys && t.cidr6.Keys <= r.value.cidr6.Keys
  {
    var (kind, content, routing) := LineFields(line);
    ApplyRule(t, kind, content, routing, parseCidr)
  }

  /** The rule a line's three fields name, applied to the tables. */
  function ApplyRule(t: Tables, kind: string, content: string, routing: string, parseCidr: CidrParser): (r: Result<Tables, LoadError>)
    ensures kind !in Kinds ==> r == Ok(t)
    ensures KindOf(kind).Some? && IsCidrKind(KindOf(kind).value) && parseCidr(content).None? ==>
      r == Err(BadCidr(content))
    ensures KindOf(kind).Some? && !(IsCidrKind(KindOf(kind).value) && parseCidr(content).None?)
            && RoutingTryFrom(routing).Err? ==>
      r == Err(BadRouting(UnknownRouting))
    ensures RoutingTryFrom(routing).Ok? ==>
      var rt := RoutingTryFrom(routing).value;
      && (KindOf(kind) == Some(DomainKind) ==> r == Ok(t.(domain := t.domain[content := rt])))
      && (KindOf(kind) == Some(SuffixKind) ==> r == Ok(t.(suffix := t.suffix[content := rt])))
      && (KindOf(kind) == Some(KeywordKind) ==> r == Ok(t.(keyword := t.keyword[content := rt])))
      && (KindOf(kind) == Some(Cidr4Kind) && parseCidr(content).Some? ==>
            r == Ok(t.(cidr4 := t.cidr4[parseCidr(content).value := rt])))
      && (KindOf(kind) == Some(Cidr6Kind) && parseCidr(content).Some? ==>
            r == Ok(t.(cidr6 := t.cidr6[parseCidr(content).value := rt])))
    ensures r.Ok? ==>
      && t.domain.Keys <= r.value.domain.Keys && t.suffix.Keys <= r.value.suffix.Keys
      && t.keyword.Keys <= r.value.keyword.Keys
      && t.cidr4.Keys <= r.value.cidr4.Keys && t.cidr6.Keys <= r.value.cidr6.Keys
  {
    match KindOf(kind)
    case None => Ok(t)
    case Some(k) =>
      if IsCidrKind(k) then
        match parseCidr(content)
        case None => Err(BadCidr(content))
        case Some(c) =>
          match RoutingTryFrom(routing)
          case Err(e) => Err(BadRouting(e))
          case Ok(r) =>
            if k == Cidr4Kind then Ok(t.(cidr4 := t.cidr4[c := r]))
            else Ok(t.(cidr6 := t.cidr6[c := r]))
      else
        match RoutingTryFrom(routing)
        case Err(e) => Err(BadRouting(e))
        case Ok(r) =>
          if k == DomainKind then Ok(t.(domain := t.domain[content := r]))
          else if k == SuffixKind then Ok(t.(suffix := t.suffix[content := r]))
          else Ok(t.(keyword := t.keyword[content := r]))
  }

  /**
   * What a line that loads does to the tables, all five at once: the entry
   * it is stored under now holds its routing, and every other entry of every
   * table is as it was.
   */
  lemma ApplyLineEntries(t: Tables, line: string, parseCidr: CidrParser)
    requires ApplyLine(t, line, parseCidr).Ok?
    ensures var t1 := ApplyLine(t, line, parseCidr).value;
      forall k: Kind, key: Key :: Lookup(t1, k, key) ==
        if LineKey(line, parseCidr) == Some((k, key)) then Some(RoutingTryFrom(LineFields(line).2).value)
        else Lookup(t, k, key)
  {
    var (kind, content, routing) := LineFields(line);
    var t1 := ApplyLine(t, line, parseCidr).value;
    if KindOf(kind).Some? {
      var k := KindOf(kind).value;
      assert RoutingTryFrom(routing).Ok?;
      var key := if IsCidrKind(k) then Block(parseCidr(content).value) else Name(content);
      assert LineKey(line, parseCidr) == Some((k, key));
      assert t1 == Store(t, k, key, RoutingTryFrom(routing).value);
      StoreEntries(t, k, key, RoutingTryFrom(routing).value);
    }
  }

  /** The tables with the entry `key` of the table of kind `k` set to `r`. */
  function Store(t: Tables, k: Kind, key: Key, r: Routing): Tables
    requires key.Name? <==> !IsCidrKind(k)
  {
    match k
    case DomainKind => t.(domain := t.domain[key.name := r])
    case SuffixKind => t.(suffix := t.suffix[key.name := r])
    case KeywordKind => t.(keyword := t.keyword[key.name := r])
    case Cidr4Kind => t.(cidr4 := t.cidr4[key.cidr := r])
    case Cidr6Kind => t.(cidr6 := t.cidr6[key.cidr := r])
  }

  lemma StoreEntries(t: Tables, k: Kind, key: Key, r: Routing)
    requires key.Name? <==> !IsCidrKind(k)
    ensures forall k1: Kind, key1: Key ::
              Lookup(Store(t, k, key, r), k1, key1) == if (k1, key1) == (k, key) then Some(r) else Lookup(t, k1, key1)
  {
    forall k1: Kind, key1: Key
      ensures Lookup(Store(t, k, key, r), k1, key1) == if (k1, key1) == (k, key) then Some(r) else Lookup(t, k1, key1)
    {
    }
  }

  /**
   * The lines in order, stopping at the first that fails: the tables as they
   * stand then (earlier lines kept) and that line's error.
   */
  function ApplyLines(t: Tables, lines: seq<string>, parseCidr: CidrParser): (Tables, Option<LoadError>)
    decreases |lines|
  {
    if lines == [] then (t, None)
    else match ApplyLine(t, lines[0], parseCidr)
      case Err(e) => (t, Some(e))
      case Ok(t1) => ApplyLines(t1, lines[1..], parseCidr)
  }

  /** Loading `a + b` is loading `a`, then, unless it failed, `b` from where `a` left the tables. */
  lemma {:induction false} ApplyLinesAppend(t: Tables, a: seq<string>, b: seq<string>, parseCidr: CidrParser)
    ensures var (ta, ea) := ApplyLines(t, a, parseCidr);
      ApplyLines(t, a + b, parseCidr) == if ea.Some? then (ta, ea) else ApplyLines(ta, b, parseCidr)
    decreases |a|
  {
    if a == [] {
      assert a + b == b;
    } else {
      assert (a + b)[0] == a[0] && (a + b)[1..] == a[1..] + b;
      match ApplyLine(t, a[0], parseCidr) {
        case Err(_) =>
        case Ok(t1) => ApplyLinesAppend(t1, a[1..], b, parseCidr);
      }
    }
  }

  /**
   * A failing line aborts the load: the lines before it stay stored, nothing
   * after it is read, and its error is the result.
   */
  lemma FirstBadLineAborts(t: Tables, lines: seq<string>, k: nat, parseCidr: CidrParser)
    requires k < |lines|
    requires ApplyLines(t, lines[..k], parseCidr).1.None?
    requires ApplyLine(ApplyLines(t, lines[..k], parseCidr).0, lines[k], parseCidr).Err?
    ensures var before := ApplyLines(t, lines[..k], parseCidr).0;
      ApplyLines(t, lines, parseCidr) == (before, Some(ApplyLine(before, lines[k], parseCidr).error))
  {
    assert lines == lines[..k] + lines[k..];
    ApplyLinesAppend(t, lines[..k], lines[k..], parseCidr);
    assert lines[k..][0] == lines[k];
  }

  /** A line of any other kind (`MATCH`, `GEOIP`, ...) is skipped wherever it stands. */
  lemma UnknownKindSkipped(t: Tables, a: seq<string>, line: string, b: seq<string>, parseCidr: CidrParser)
    requires LineFields(line).0 !in Kinds
    ensures ApplyLines(t, a + [line] + b, parseCidr) == ApplyLines(t, a + b, parseCidr)
  {
    var alb := a + ([line] + b);
    assert a + [line] + b == alb;
    ApplyLinesAppend(t, a, [line] + b, parseCidr);
    ApplyLinesAppend(t, a, b, parseCidr);
    var ta := ApplyLines(t, a, parseCidr).0;
    if ApplyLines(t, a, parseCidr).1.None? {
      SkipHead(ta, line, b, parseCidr);
    }
  }

  lemma SkipHead(t: Tables, line: string, b: seq<string>, parseCidr: CidrParser)
    requires LineFields(line).0 !in Kinds
    ensures ApplyLines(t, [line] + b, parseCidr) == ApplyLines(t, b, parseCidr)
  {
    var ls := [line] + b;
    assert ls[0] == line && ls[1..] == b;
  }

  lemma ApplyLinesOne(t: Tables, line: string, parseCidr: CidrParser)
    ensures var r := ApplyLine(t, line, parseCidr);
      ApplyLines(t, [line], parseCidr) == if r.Err? then (t, Some(r.error)) else (r.value, None)
  {
    assert [line][0] == line && [line][1..] == [];
  }

  /**
   * Of several lines for the same entry, the last one decides: after a load
   * that ends with a line of a stored kind, the entry it is stored under
   * holds its routing, whatever came before.
   */
  lemma LastLineWins(t: Tables, a: seq<string>, line: string, parseCidr: CidrParser)
    requires LineKey(line, parseCidr).Some?
    requires ApplyLines(t, a + [line], parseCidr).1.None?
    ensures var (k, key) := LineKey(line, parseCidr).value;
      var final := ApplyLines(t, a + [line], parseCidr).0;
      RoutingTryFrom(LineFields(line).2).Ok? && Lookup(final, k, key) == Some(RoutingTryFrom(LineFields(line).2).value)
  {
    ApplyLinesAppend(t, a, [line], parseCidr);
    var ta := ApplyLines(t, a, parseCidr).0;
    assert ApplyLines(t, a, parseCidr).1.None?;
    ApplyLinesOne(ta, line, parseCidr);
    ApplyLineEntries(ta, line, parseCidr);
  }

  /**
   * An entry survives a load, from line `from` on, in which no line is stored
   * under it again.
   */
  lemma {:induction false} EntryKept(t: Tables, lines: seq<string>, from: nat, k: Kind, key: Key, parseCidr: CidrParser)
    requires from <= |lines| && ApplyLines(t, lines[from..], parseCidr).1.None?
    requires forall j :: from <= j < |lines| ==> LineKey(lines[j], parseCidr) != Some((k, key))
    ensures Lookup(ApplyLines(t, lines[from..], parseCidr).0, k, key) == Lookup(t, k, key)
    decreases |lines| - from
  {
    if from < |lines| {
      var rest := lines[from..];
      assert rest[0] == lines[from] && rest[1..] == lines[from + 1..];
      var r := ApplyLine(t, lines[from], parseCidr);
      assert r.Ok?;
      ApplyLineEntries(t, lines[from], parseCidr);
      EntryKept(r.value, lines, from + 1, k, key, parseCidr);
    }
  }

  /**
   * After a load that succeeds, a line of a stored kind that no later line
   * is stored over is in its table with its routing: a later duplicate
   * overwrites an earlier one, in every table.
   */
  lemma LoadedEntry(t: Tables, lines: seq<string>, i: nat, parseCidr: CidrParser)
    requires i < |lines| && LineKey(lines[i], parseCidr).Some?
    requires ApplyLines(t, lines, parseCidr).1.None?
    requires forall j :: i < j < |lines| ==> LineKey(lines[j], parseCidr) != LineKey(lines[i], parseCidr)
    ensures var (k, key) := LineKey(lines[i], parseCidr).value;
      var routing := RoutingTryFrom(LineFields(lines[i]).2);
      routing.Ok? && Lookup(ApplyLines(t, lines, parseCidr).0, k, key) == Some(routing.value)
  {
    var (k, key) := LineKey(lines[i], parseCidr).value;
    var head, rest := lines[..i], lines[i + 1..];
    assert lines == head + [lines[i]] + rest;
    ApplyLinesAppend(t, head + [lines[i]], rest, parseCidr);
    var ti := ApplyLines(t, head + [lines[i]], parseCidr).0;
    LastLineWins(t, head, lines[i], parseCidr);
    EntryKept(ti, lines, i + 1, k, key, parseCidr);
  }

  /**
   * So that line's routing is the only answer `domain` can give for the
   * name, whatever the other tables, the resolver and GeoIP say.
   */
  lemma LoadedDomainRule(t: Tables, lines: seq<string>, i: nat, parseCidr: CidrParser, resolve: Resolver, geo: GeoLookup, r: Result<Routing, Error>)
    requires i < |lines| && LineFields(lines[i]).0 == "DOMAIN"
    requires ApplyLines(t, lines, parseCidr).1.None?
    requires forall j :: i < j < |lines| ==> LineKey(lines[j], parseCidr) != LineKey(lines[i], parseCidr)
    ensures var (_, content, routing) := LineFields(lines[i]);
      RoutingTryFrom(routing).Ok? &&
      (DomainAnswer(ApplyLines(t, lines, parseCidr).0, content, resolve, geo, r) <==> r == RoutingTryFrom(routing))
  {
    LoadedEntry(t, lines, i, parseCidr);
  }

  // ---------------------------------------------------------------------------
  // The queries

  /** `tokio::net::lookup_host`: the addresses a name resolves to, or the I/O error. */
  type Resolver = string -> Result<seq<IpAddr>, IoKind>

  /** The GeoIP database: the ISO country code of an address, when it knows one. */
  type GeoLookup = IpAddr -> Option<string>

  /** The block table `ip` consults for an address: IPv4 and IPv6 have separate ones. */
  function FamilyTable(t: Tables, ip: IpAddr): map<Cidr, Routing>
  {
    if ip.IpV4? then t.cidr4 else t.cidr6
  }

  predicate BlockMatch(table: map<Cidr, Routing>, ip: IpAddr)
  {
    exists c :: c in table && CidrContains(c, ip)
  }

  /** Without a matching block: direct for an address GeoIP places in China, else the proxy. */
  function GeoRouting(ip: IpAddr, geo: GeoLookup): Routing
  {
    if geo(ip) == Some("CN") then Direct else Proxy
  }

  /**
   * What `ip` may answer: the routing of some block of the address's family
   * that contains it (the table's order is unspecified) or, when none does,
   * the GeoIP routing.
   */
  predicate IpAnswer(t: Tables, ip: IpAddr, geo: GeoLookup, r: Routing)
  {
    var table := FamilyTable(t, ip);
    if BlockMatch(table, ip) then exists c :: c in table && CidrContains(c, ip) && table[c] == r
    else r == GeoRouting(ip, geo)
  }

  predicate SuffixMatch(t: Tables, d: string)
  {
    exists s :: s in t.suffix && EndsWith(d, s)
  }

  predicate KeywordMatch(t: Tables, d: string)
  {
    exists k :: k in t.keyword && Contains(d, k)
  }

  /**
   * What `domain` may answer: the exact entry first; else some matching
   * suffix's routing; else some contained keyword's; else, by the first
   * address the name resolves to, `ip`'s answer, the proxy when there is no
   * address, and the resolver's error when it fails.
   */
  predicate DomainAnswer(t: Tables, d: string, resolve: Resolver, geo: GeoLookup, r: Result<Routing, Error>)
  {
    if d in t.domain then r == Ok(t.domain[d])
    else if SuffixMatch(t, d) then r.Ok? && exists s :: s in t.suffix && EndsWith(d, s) && t.suffix[s] == r.value
    else if KeywordMatch(t, d) then r.Ok? && exists k :: k in t.keyword && Contains(d, k) && t.keyword[k] == r.value
    else match resolve(d)
      case Err(kind) => r == Err(IoErr(kind))
      case Ok(ips) => if ips == [] then r == Ok(Proxy) else r.Ok? && IpAnswer(t, ips[0], geo, r.value)
  }

  /** `Reject` never comes from GeoIP: only a block rule of the address's family gives it. */
  lemma RejectOnlyFromBlock(t: Tables, ip: IpAddr, geo: GeoLookup)
    requires IpAnswer(t, ip, geo, Reject)
    ensures exists c :: c in FamilyTable(t, ip) && CidrContains(c, ip) && FamilyTable(t, ip)[c] == Reject
  {
  }

  /** The other family's table plays no part in `ip`'s answer. */
  lemma OtherFamilyIgnored(t: Tables, ip: IpAddr, geo: GeoLookup, r: Routing, other: map<Cidr, Routing>)
    ensures ip.IpV4? ==> (IpAnswer(t, ip, geo, r) <==> IpAnswer(t.(cidr6 := other), ip, geo, r))
    ensures ip.IpV6? ==> (IpAnswer(t, ip, geo, r) <==> IpAnswer(t.(cidr4 := other), ip, geo, r))
  {
  }

  /**
   * When exactly one block of its family contains the address, `ip` has
   * exactly one answer: that block's routing.
   */
  lemma SingleBlockDecides(t: Tables, ip: IpAddr, geo: GeoLookup, c: Cidr, r: Routing)
    requires c in FamilyTable(t, ip) && CidrContains(c, ip)
    requires forall b :: b in FamilyTable(t, ip) && CidrContains(b, ip) ==> b == c
    ensures IpAnswer(t, ip, geo, r) <==> r == FamilyTable(t, ip)[c]
  {
  }

  /** A domain's `Reject` comes from some table entry, never from the resolver or GeoIP. */
  lemma DomainRejectFromRule(t: Tables, d: string, resolve: Resolver, geo: GeoLookup)
    requires DomainAnswer(t, d, resolve, geo, Ok(Reject))
    ensures || (d in t.domain && t.domain[d] == Reject)
            || (exists s :: s in t.suffix && t.suffix[s] == Reject)
            || (exists k :: k in t.keyword && t.keyword[k] == Reject)
            || (resolve(d).Ok? && |resolve(d).value| > 0 &&
                exists c :: c in FamilyTable(t, resolve(d).value[0]) && FamilyTable(t, resolve(d).value[0])[c] == Reject)
  {
    if d !in t.domain && !SuffixMatch(t, d) && !KeywordMatch(t, d) {
      var ips := resolve(d).value;
      RejectOnlyFromBlock(t, ips[0], geo);
    }
  }

  /** The five global tables. */
  class RuleTables {
    var domain: map<string, Routing>
    var suffix: map<string, Routing>
    var keyword: map<string, Routing>
    var cidr4: map<Cidr, Routing>
    var cidr6: map<Cidr, Routing>

    /** The tables start empty. */
    constructor ()
      ensures Snapshot() == Tables(map[], map[], map[], map[], map[])
    {
      domain, suffix, keyword, cidr4, cidr6 := map[], map[], map[], map[], map[];
    }

    function Snapshot(): Tables
      reads this
    {
      Tables(domain, suffix, keyword, cidr4, cidr6)
    }

    /**
     * `initial`, for the rule lines of the rule file: each line in turn,
     * stopping at the first one that fails.
     */
    method Initial(lines: seq<string>, parseCidr: CidrParser) returns (r: Result<(), LoadError>)
      modifies this
      ensures var (t, e) := ApplyLines(old(Snapshot()), lines, parseCidr);
        Snapshot() == t && (r.Err? <==> e.Some?) && (r.Err? ==> r.error == e.value)
    {
      var i := 0;
      while i < |lines|
        invariant 0 <= i <= |lines|
        invariant ApplyLines(old(Snapshot()), lines, parseCidr) == ApplyLines(Snapshot(), lines[i..], parseCidr)
      {
        assert lines[i..][0] == lines[i] && lines[i..][1..] == lines[i + 1..];
        var fields := Split(lines[i], ',');
        var kind := KindOf(fields[0]);
        var content := Field(fields, 1);
        var routing := Field(fields, 2);
        match kind {
          case None =>
          case Some(k) =>
            if k == Cidr4Kind || k == Cidr6Kind {
              var cidr := parseCidr(content);
              if cidr.None? {
                return Err(BadCidr(content));
              }
              var rt := RoutingTryFrom(routing);
              if rt.Err? {
                return Err(BadRouting(rt.error));
              }
              if k == Cidr4Kind {
                cidr4 := cidr4[cidr.value := rt.value];
              } else {
                cidr6 := cidr6[cidr.value := rt.value];
              }
            } else {
              var rt := RoutingTryFrom(routing);
              if rt.Err? {
                return Err(BadRouting(rt.error));
              }
              if k == DomainKind {
                domain := domain[content := rt.value];
              } else if k == SuffixKind {
                suffix := suffix[content := rt.value];
              } else {
                keyword := keyword[content := rt.value];
              }
            }
        }
        i := i + 1;
      }
      r := Ok(());
    }

    /**
     * `ip`: the first block of the address's family found to contain it, in
     * an unspecified order, else the GeoIP routing.
     */
    method Ip(ip: IpAddr, geo: GeoLookup) returns (r: Routing)
      ensures IpAnswer(Snapshot(), ip, geo, r)
    {
      var table := if ip.IpV4? then cidr4 else cidr6;
      var left := table.Keys;
      while left != {}
        invariant left <= table.Keys
        invariant forall c :: c in table && c !in left ==> !CidrContains(c, ip)
        decreases |left|
      {
        var c :| c in left;
        if CidrContains(c, ip) {
          return table[c];
        }
        left := left - {c};
      }
      r := GeoRouting(ip, geo);
    }

    /**
     * `domain`: the exact table, then the suffix table, then the keyword table
     * (each in an unspecified order), then `ip` of the first resolved address.
     */
    method Domain(d: string, resolve: Resolver, geo: GeoLookup) returns (r: Result<Routing, Error>)
      ensures DomainAnswer(Snapshot(), d, resolve, geo, r)
    {
      if d in domain {
        return Ok(domain[d]);
      }
      var left := suffix.Keys;
      while left != {}
        invariant left <= suffix.Keys
        invariant forall s :: s in suffix && s !in left ==> !EndsWith(d, s)
        decreases |left|
      {
        var s :| s in left;
        if EndsWith(d, s) {
          return Ok(suffix[s]);
        }
        left := left - {s};
      }
      left := keyword.Keys;
      while left != {}
        invariant left <= keyword.Keys
        invariant forall k :: k in keyword && k !in left ==> !Contains(d, k)
        decreases |left|
      {
        var k :| k in left;
        if Contains(d, k) {
          return Ok(keyword[k]);
        }
        left := left - {k};
      }
      match resolve(d) {
        case Err(kind) =>
          return Err(IoErr(kind));
        case Ok(ips) =>
          if ips == [] {
            return Ok(Proxy);
          }
          var routing := Ip(ips[0], geo);
          return Ok(routing);
      }
    }
  }
}
