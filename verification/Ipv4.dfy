/** Dotted quads: net.ParseIP on IPv4 text and net.IP.String, as far as the allocator,
    the validators and the renderer use them. */
module Ipv4 {
  import opened Wrappers
  import opened Text

  const TWO32 := 0x1_0000_0000
  type u32 = x: int | 0 <= x < TWO32

  predicate IsDigit(c: char) { '0' <= c <= '9' }

  function DigitValue(c: char): (n: nat)
    requires IsDigit(c)
  {
    (c as int) - ('0' as int)
  }

  function DigitChar(n: nat): (c: char)
    requires n <= 9
  {
    (n + '0' as int) as char
  }

  /** One octet: one to three digits, no leading zero, at most 255. */
  function ParseOctet(s: string): Option<nat> {
    if !(1 <= |s| <= 3) || (exists i :: 0 <= i < |s| && !IsDigit(s[i])) then None
    else if |s| > 1 && s[0] == '0' then None
    else
      var v :=
        if |s| == 1 then DigitValue(s[0])
        else if |s| == 2 then DigitValue(s[0]) * 10 + DigitValue(s[1])
        else (DigitValue(s[0]) * 10 + DigitValue(s[1])) * 10 + DigitValue(s[2]);
      if v <= 255 then Some(v) else None
  }

  function PrintOctet(n: nat): (s: string)
    requires n <= 255
  {
    if n < 10 then [DigitChar(n)]
    else if n < 100 then [DigitChar(n / 10), DigitChar(n % 10)]
    else [DigitChar(n / 10 / 10), DigitChar(n / 10 % 10), DigitChar(n % 10)]
  }

  lemma PrintOctetPlain(n: nat)
    requires n <= 255
    ensures forall c :: c in PrintOctet(n) ==> IsDigit(c)
  {
  }

  lemma ParsePrintOctet(n: nat)
    requires n <= 255
    ensures ParseOctet(PrintOctet(n)) == Some(n)
  {
    PrintOctetPlain(n);
    var s := PrintOctet(n);
    assert forall i :: 0 <= i < |s| ==> IsDigit(s[i]);
  }

  lemma LowDigit(x: nat, d: nat)
    requires d <= 9
    ensures (x * 10 + d) / 10 == x && (x * 10 + d) % 10 == d
  {
  }

  lemma PrintParseOctet(s: string)
    requires ParseOctet(s).Some?
    ensures PrintOctet(ParseOctet(s).value) == s
  {
    assert forall i :: 0 <= i < |s| ==> IsDigit(s[i]);
    if |s| > 1 { LowDigit(DigitValue(s[0]), DigitValue(s[1])); }
    if |s| > 2 { LowDigit(DigitValue(s[0]) * 10 + DigitValue(s[1]), DigitValue(s[2])); }
  }

  function Octet(v: u32, i: nat): (n: nat)
    requires i < 4
    ensures n <= 255
  {
    if i == 0 then v / 256 / 256 / 256
    else if i == 1 then v / 256 / 256 % 256
    else if i == 2 then v / 256 % 256
    else v % 256
  }

  function FromOctets(a: nat, b: nat, c: nat, d: nat): u32
    requires a <= 255 && b <= 255 && c <= 255 && d <= 255
  {
    ((a * 256 + b) * 256 + c) * 256 + d
  }

  lemma OctetsRoundTrip(v: u32)
    ensures FromOctets(Octet(v, 0), Octet(v, 1), Octet(v, 2), Octet(v, 3)) == v
  {
  }

  lemma LowByte(x: nat, d: nat)
    requires d <= 255
    ensures (x * 256 + d) / 256 == x && (x * 256 + d) % 256 == d
  {
  }

  lemma RoundTripOctets(a: nat, b: nat, c: nat, d: nat)
    requires a <= 255 && b <= 255 && c <= 255 && d <= 255
    ensures var v := FromOctets(a, b, c, d);
            Octet(v, 0) == a && Octet(v, 1) == b && Octet(v, 2) == c && Octet(v, 3) == d
  {
    LowByte((a * 256 + b) * 256 + c, d);
    LowByte(a * 256 + b, c);
    LowByte(a, b);
  }

  /** net.IP.String on a four-byte address. */
  function Print(v: u32): string {
    PrintOctet(Octet(v, 0)) + "." +
      (PrintOctet(Octet(v, 1)) + "." + (PrintOctet(Octet(v, 2)) + "." + PrintOctet(Octet(v, 3))))
  }

  /** net.ParseIP(s).To4() on dotted quads. */
  function Parse(s: string): Option<u32> {
    var f := SplitOn(s, '.');
    if |f| != 4 then None
    else
      var a, b, c, d := ParseOctet(f[0]), ParseOctet(f[1]), ParseOctet(f[2]), ParseOctet(f[3]);
      if a.Some? && b.Some? && c.Some? && d.Some?
      then Some(FromOctets(a.value, b.value, c.value, d.value)) else None
  }

  /** An "ip" or "ip/32" string: whatever follows the first slash is ignored. */
  function ParseHost(s: string): Option<u32> {
    Parse(Before(s, '/'))
  }

  /** The canonical form the allocator and the override check hand out. */
  function HostCidr(v: u32): string {
    Print(v) + "/32"
  }

  lemma SplitPrint(v: u32)
    ensures SplitOn(Print(v), '.') ==
            [PrintOctet(Octet(v, 0)), PrintOctet(Octet(v, 1)), PrintOctet(Octet(v, 2)), PrintOctet(Octet(v, 3))]
  {
    var a, b := PrintOctet(Octet(v, 0)), PrintOctet(Octet(v, 1));
    var c, d := PrintOctet(Octet(v, 2)), PrintOctet(Octet(v, 3));
    PrintOctetPlain(Octet(v, 0)); PrintOctetPlain(Octet(v, 1));
    PrintOctetPlain(Octet(v, 2)); PrintOctetPlain(Octet(v, 3));
    SplitNone(d, '.');
    SplitFirst(c, '.', d);
    SplitFirst(b, '.', c + "." + d);
    SplitFirst(a, '.', b + "." + (c + "." + d));
    assert c + ['.'] + d == c + "." + d;
    assert b + ['.'] + (c + "." + d) == b + "." + (c + "." + d);
    assert a + ['.'] + (b + "." + (c + "." + d)) == a + "." + (b + "." + (c + "." + d));
  }

  /** Parsing undoes printing, so distinct numbers have distinct text. */
  lemma ParsePrint(v: u32)
    ensures Parse(Print(v)) == Some(v)
  {
    SplitPrint(v);
    ParsePrintOctet(Octet(v, 0)); ParsePrintOctet(Octet(v, 1));
    ParsePrintOctet(Octet(v, 2)); ParsePrintOctet(Octet(v, 3));
    OctetsRoundTrip(v);
  }

  /** Printing undoes parsing: the quad text is canonical (no leading zeros). */
  lemma PrintParse(s: string)
    requires Parse(s).Some?
    ensures Print(Parse(s).value) == s
  {
    var f := SplitOn(s, '.');
    PrintParseOctet(f[0]); PrintParseOctet(f[1]); PrintParseOctet(f[2]); PrintParseOctet(f[3]);
    RoundTripOctets(ParseOctet(f[0]).value, ParseOctet(f[1]).value, ParseOctet(f[2]).value, ParseOctet(f[3]).value);
    JoinSplit(s, '.');
    assert f == [f[0], f[1], f[2], f[3]];
    assert Join([f[3]], '.') == f[3];
    assert Join([f[2], f[3]], '.') == f[2] + "." + f[3];
    assert Join([f[1], f[2], f[3]], '.') == f[1] + "." + (f[2] + "." + f[3]);
    assert Join(f, '.') == f[0] + "." + (f[1] + "." + (f[2] + "." + f[3]));
  }

  lemma PrintHasNoSlash(v: u32)
    ensures '/' !in Print(v)
  {
    PrintOctetPlain(Octet(v, 0)); PrintOctetPlain(Octet(v, 1));
    PrintOctetPlain(Octet(v, 2)); PrintOctetPlain(Octet(v, 3));
  }

  /** The canonical text of v parses to v; hence a row holding that text holds v. */
  lemma ParseHostCidr(v: u32)
    ensures ParseHost(HostCidr(v)) == Some(v)
    ensures ParseHost(Print(v)) == Some(v)
  {
    PrintHasNoSlash(v);
    BeforeFirst(Print(v), '/', "32");
    assert Print(v) + ['/'] + "32" == HostCidr(v);
    ParsePrint(v);
  }
}
