/** Field, override and bulk validation (clients/validate.go). */
module Validate {
  import opened Wrappers
  import opened Text
  import opened Ipv4
  import opened Alloc
  import opened Types

  predicate NameChar(c: char) {
    'A' <= c <= 'Z' || 'a' <= c <= 'z' || '0' <= c <= '9' || c == '.' || c == '_' || c == '-'
  }

  /** nameRe: one or more name characters. */
  predicate ValidName(s: string) {
    s != "" && forall c :: c in s ==> NameChar(c)
  }

  predicate KeyChar(c: char) {
    'A' <= c <= 'Z' || 'a' <= c <= 'z' || '0' <= c <= '9' || c == '+' || c == '/'
  }

  /** pubKeyRe: 43 base64 characters and one pad. */
  predicate ValidPublicKey(s: string) {
    |s| == 44 && s[43] == '=' && forall i :: 0 <= i < 43 ==> KeyChar(s[i])
  }

  /** addrRe: digits and dots, then "/32". */
  predicate AddressShape(s: string) {
    |s| > 3 && s[|s| - 3..] == "/32" && forall i :: 0 <= i < |s| - 3 ==> IsDigit(s[i]) || s[i] == '.'
  }

  /** ValidateAddress: the shape, a real IPv4, inside the server subnet. */
  predicate ValidAddress(sn: ServerNet, s: string)
    requires sn.Valid()
  {
    AddressShape(s) && ParseHost(s).Some? && sn.Contains(ParseHost(s).value)
  }

  lemma ShapeSplits(s: string)
    requires AddressShape(s)
    ensures s == s[..|s| - 3] + ['/'] + "32" && '/' !in s[..|s| - 3]
    ensures Before(s, '/') == s[..|s| - 3]
  {
    BeforeFirst(s[..|s| - 3], '/', "32");
    assert s == s[..|s| - 3] + s[|s| - 3..];
  }

  /** A valid address is already in canonical form: normalising it changes nothing. */
  lemma ValidAddressIsCanonical(sn: ServerNet, s: string)
    requires sn.Valid() && ValidAddress(sn, s)
    ensures HostCidr(ParseHost(s).value) == s
  {
    ShapeSplits(s);
    PrintParse(s[..|s| - 3]);
  }

  lemma QuadShape(v: u32)
    ensures Print(v) != "" && forall c :: c in Print(v) ==> IsDigit(c) || c == '.'
  {
    PrintOctetPlain(Octet(v, 0)); PrintOctetPlain(Octet(v, 1));
    PrintOctetPlain(Octet(v, 2)); PrintOctetPlain(Octet(v, 3));
  }

  /** The canonical text of every host in the subnet is itself a valid address. */
  lemma HostCidrIsValid(sn: ServerNet, v: u32)
    requires sn.Valid() && sn.Contains(v)
    ensures ValidAddress(sn, HostCidr(v))
  {
    QuadShape(v);
    ParseHostCidr(v);
    var s := HostCidr(v);
    assert s[..|s| - 3] == Print(v);
    forall i | 0 <= i < |s| - 3 ensures IsDigit(s[i]) || s[i] == '.' {
      assert s[i] == Print(v)[i] && Print(v)[i] in Print(v);
    }
  }

  /** Which texts are addresses of the subnet: the canonical forms of its members and no others. */
  lemma ValidAddressIff(sn: ServerNet, s: string)
    requires sn.Valid()
    ensures ValidAddress(sn, s) <==> exists v: u32 :: sn.network <= v < sn.network + sn.Size() && s == HostCidr(v)
  {
    if ValidAddress(sn, s) {
      ContainsIff(sn, ParseHost(s).value);
      ValidAddressIsCanonical(sn, s);
    }
    if v: u32 :| sn.network <= v < sn.network + sn.Size() && s == HostCidr(v) {
      ContainsIff(sn, v);
      HostCidrIsValid(sn, v);
    }
  }

  /** ValidateOverride; None is any of its rejections. */
  function Override(sn: ServerNet, addr: string, used: seq<string>): Option<string>
    requires sn.Valid()
  {
    if ValidAddress(sn, addr) && ParseHost(addr).value !in Reserved(sn, used)
    then Some(HostCidr(ParseHost(addr).value))
    else None
  }

  method ValidateOverride(sn: ServerNet, addr: string, used: seq<string>) returns (r: Option<string>)
    requires sn.Valid()
    ensures r == Override(sn, addr, used)
  {
    if !ValidAddress(sn, addr) {
      return None;
    }
    var v := ParseHost(addr).value;
    if v == sn.serverIP {
      return None;
    }
    for i := 0 to |used|
      invariant forall j :: 0 <= j < i ==> ParseHost(used[j]) != Some(v)
    {
      if ParseHost(used[i]) == Some(v) {
        assert used[i] in used;
        return None;
      }
    }
    assert v !in ParsedSet(used);
    return Some(HostCidr(v));
  }

  /** A text whose number is not among the used numbers is not among the used texts. */
  lemma FreshHostIsFreshText(used: seq<string>, v: u32)
    requires v !in ParsedSet(used)
    ensures HostCidr(v) !in used
  {
    ParseHostCidr(v);
  }

  /** An accepted override is the operator's own text, in the subnet, not the server, and
      neither its number nor its text is in use; everything else is rejected. */
  lemma OverrideMeaning(sn: ServerNet, addr: string, used: seq<string>)
    requires sn.Valid()
    ensures Override(sn, addr, used) ==
            if && ValidAddress(sn, addr)
               && ParseHost(addr) != Some(sn.serverIP)
               && (forall u :: u in used ==> ParseHost(u) != ParseHost(addr))
            then Some(addr) else None
    ensures Override(sn, addr, used).Some? ==> addr !in used
  {
    if ValidAddress(sn, addr) {
      ValidAddressIsCanonical(sn, addr);
      var v := ParseHost(addr).value;
      if v !in Reserved(sn, used) {
        FreshHostIsFreshText(used, v);
        assert forall u :: u in used && ParseHost(u).Some? ==> ParseHost(u).value in ParsedSet(used);
      } else if v != sn.serverIP {
        assert exists u :: u in used && ParseHost(u) == Some(v);
      }
    }
  }

  predicate ValidEntry(sn: ServerNet, e: Entry)
    requires sn.Valid()
  {
    ValidName(e.name) && ValidPublicKey(e.publicKey) && ValidAddress(sn, e.address)
  }

  /** No two entries share a name, a key or an address. */
  ghost predicate DistinctEntries(es: seq<Entry>) {
    forall i, j :: 0 <= i < j < |es| ==>
      es[i].name != es[j].name && es[i].publicKey != es[j].publicKey && es[i].address != es[j].address
  }

  ghost predicate ValidSet(sn: ServerNet, es: seq<Entry>)
    requires sn.Valid()
  {
    (forall i :: 0 <= i < |es| ==> ValidEntry(sn, es[i])) && DistinctEntries(es)
  }

  function Names(es: seq<Entry>): set<string> { set e | e in es :: e.name }
  function Keys(es: seq<Entry>): set<string> { set e | e in es :: e.publicKey }
  function Addresses(es: seq<Entry>): set<string> { set e | e in es :: e.address }

  lemma SeenOneMore(es: seq<Entry>, e: Entry)
    ensures Names(es + [e]) == Names(es) + {e.name}
    ensures Keys(es + [e]) == Keys(es) + {e.publicKey}
    ensures Addresses(es + [e]) == Addresses(es) + {e.address}
  {
  }

  lemma DistinctOneMore(es: seq<Entry>, e: Entry)
    ensures DistinctEntries(es + [e]) <==>
            DistinctEntries(es) && e.name !in Names(es) && e.publicKey !in Keys(es) && e.address !in Addresses(es)
  {
    var more := es + [e];
    if DistinctEntries(more) {
      forall i | 0 <= i < |es|
        ensures es[i].name != e.name && es[i].publicKey != e.publicKey && es[i].address != e.address
      {
        assert more[i] == es[i] && more[|es|] == e;
      }
      assert forall i :: 0 <= i < |es| ==> more[i] == es[i];
    }
  }

  lemma ValidSetOneMore(sn: ServerNet, es: seq<Entry>, e: Entry)
    requires sn.Valid()
    ensures ValidSet(sn, es + [e]) <==>
            && ValidSet(sn, es) && ValidEntry(sn, e)
            && e.name !in Names(es) && e.publicKey !in Keys(es) && e.address !in Addresses(es)
  {
    var more := es + [e];
    DistinctOneMore(es, e);
    assert more[|es|] == e && forall i :: 0 <= i < |es| ==> more[i] == es[i];
  }

  lemma PrefixOfValid(sn: ServerNet, es: seq<Entry>, n: nat)
    requires sn.Valid() && n <= |es|
    ensures ValidSet(sn, es) ==> ValidSet(sn, es[..n])
  {
  }

  /** validateSet: one pass with three seen-sets decides pairwise distinctness. */
  method ValidateSet(sn: ServerNet, es: seq<Entry>) returns (ok: bool)
    requires sn.Valid()
    ensures ok <==> ValidSet(sn, es)
  {
    var seenNames, seenKeys, seenAddrs := {}, {}, {};
    for i := 0 to |es|
      invariant seenNames == Names(es[..i]) && seenKeys == Keys(es[..i]) && seenAddrs == Addresses(es[..i])
      invariant ValidSet(sn, es[..i])
    {
      var e := es[i];
      assert es[..i + 1] == es[..i] + [e];
      SeenOneMore(es[..i], e);
      ValidSetOneMore(sn, es[..i], e);
      PrefixOfValid(sn, es, i + 1);
      if !ValidEntry(sn, e) || e.name in seenNames || e.publicKey in seenKeys || e.address in seenAddrs {
        return false;
      }
      seenNames, seenKeys, seenAddrs := seenNames + {e.name}, seenKeys + {e.publicKey}, seenAddrs + {e.address};
    }
    assert es[..|es|] == es;
    return true;
  }
}
