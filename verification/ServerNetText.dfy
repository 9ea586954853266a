/** The WG_SERVER_NET value: ParseServerNet on text, and the service's fallback
    (clients/alloc.go, clients/service.go). */
module ServerNetText {
  import opened Wrappers
  import opened Text
  import opened Ipv4
  import opened Alloc

  const DEFAULT_SERVER_NET := "172.16.15.1/24"

  /** The prefix length of a CIDR: digits only, leading zeros allowed, at most 32. */
  function ParsePrefix(s: string): (r: Option<nat>)
    ensures r.Some? ==> r.value <= 32
  {
    if s == "" || (exists c :: c in s && !IsDigit(c)) || ReadDigits(s) > 32 then None else Some(ReadDigits(s))
  }

  /** net.ParseCIDR on an IPv4 "host/prefix". */
  function ParseCidr(s: string): (r: Option<ServerNet>)
    ensures r.Some? ==> r.value.Valid()
  {
    if '/' !in s then None
    else
      BeforeIsShorter(s, '/');
      var host, ones := Parse(Before(s, '/')), ParsePrefix(s[|Before(s, '/')| + 1..]);
      if host.None? || ones.None? then None else Some(MakeServerNet(host.value, ones.value))
  }

  /** ParseServerNet; None is its error. */
  function ParseServerNet(s: string): (r: Option<ServerNet>)
    ensures r.Some? ==> r.value.Valid()
  {
    ParseCidr(if s == "" then DEFAULT_SERVER_NET else s)
  }

  /** What a text must be to name a server net. */
  ghost predicate Names(s: string, host: u32, mask: string, sn: ServerNet) {
    s == Print(host) + "/" + mask && ParsePrefix(mask).Some? && sn == MakeServerNet(host, ParsePrefix(mask).value)
  }

  lemma NamedTextParses(s: string, host: u32, mask: string, sn: ServerNet)
    requires Names(s, host, mask, sn)
    ensures ParseCidr(s) == Some(sn)
  {
    PrintHasNoSlash(host);
    BeforeFirst(Print(host), '/', mask);
    assert s == Print(host) + ['/'] + mask;
    assert s[|Print(host)| + 1..] == mask;
    assert s[|Print(host)|] == '/';
    ParsePrint(host);
  }

  lemma AcceptedTextIsNamed(s: string, sn: ServerNet) returns (host: u32, mask: string)
    requires ParseCidr(s) == Some(sn)
    ensures Names(s, host, mask, sn)
  {
    CutAtFirst(s, '/');
    var quad := Before(s, '/');
    PrintParse(quad);
    host, mask := Parse(quad).value, s[|quad| + 1..];
  }

  /** A non-empty value is accepted exactly when it is a canonical dotted quad, a slash and a
      prefix length of at most 32; the net is then that host's subnet with the host reserved. */
  lemma ParseServerNetIff(s: string, sn: ServerNet)
    requires s != ""
    ensures ParseServerNet(s) == Some(sn) <==> exists host, mask :: Names(s, host, mask, sn)
  {
    if host, mask :| Names(s, host, mask, sn) { NamedTextParses(s, host, mask, sn); }
    if ParseServerNet(s) == Some(sn) { var host, mask := AcceptedTextIsNamed(s, sn); }
  }

  /** Every host and prefix length can be written, and reads back. */
  lemma EveryNetParses(host: u32, ones: nat)
    requires ones <= 32
    ensures ParseServerNet(Print(host) + "/" + Decimal(ones)) == Some(MakeServerNet(host, ones))
  {
    DecimalRead(ones);
    NamedTextParses(Print(host) + "/" + Decimal(ones), host, Decimal(ones), MakeServerNet(host, ones));
  }

  const DEFAULT_HOST: u32 := 0xAC100F01

  lemma DefaultHostPrints()
    ensures Print(DEFAULT_HOST) == "172.16.15.1"
  {
    assert Octet(DEFAULT_HOST, 0) == 172 && Octet(DEFAULT_HOST, 1) == 16;
    assert Octet(DEFAULT_HOST, 2) == 15 && Octet(DEFAULT_HOST, 3) == 1;
    assert PrintOctet(172) == "172" && PrintOctet(16) == "16" && PrintOctet(15) == "15" && PrintOctet(1) == "1";
  }

  lemma DefaultPrefixPrints()
    ensures Decimal(24) == "24"
  {
    assert Decimal(2) == "2";
  }

  /** The empty value means 172.16.15.1/24, and is never an error. */
  lemma EmptyMeansDefault()
    ensures ParseServerNet("") == Some(MakeServerNet(DEFAULT_HOST, 24))
  {
    DefaultHostPrints();
    DefaultPrefixPrints();
    EveryNetParses(DEFAULT_HOST, 24);
    assert DEFAULT_SERVER_NET == "172.16.15.1" + "/" + "24";
  }

  /** NewService's net: a malformed value falls back to the default, so the net is always valid. */
  method ServiceNet(s: string) returns (sn: ServerNet)
    ensures sn.Valid()
    ensures if ParseServerNet(s).Some? then Some(sn) == ParseServerNet(s) else sn == MakeServerNet(DEFAULT_HOST, 24)
  {
    EmptyMeansDefault();
    var parsed := ParseServerNet(s);
    if parsed.None? {
      parsed := ParseServerNet("");
    }
    sn := parsed.value;
  }
}
