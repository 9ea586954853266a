/** Reading the live configuration back: no name, key or address can add a line of its own. */
module LiveText {
  import opened Wrappers
  import opened Text
  import opened Ipv4
  import opened Alloc
  import opened Types
  import opened Validate
  import opened ClientTable
  import opened Rendering
  import opened PeerService
  import opened LiveConfig
  import PT = PromText
  import PP = PromParse

  /** The lines of a text that ends in a newline, put together. */
  function Unlines(lines: seq<string>): string {
    if lines == [] then "" else Unlines(lines[..|lines| - 1]) + lines[|lines| - 1] + "\n"
  }

  lemma {:induction false} UnlinesConcat(a: seq<string>, b: seq<string>)
    ensures Unlines(a + b) == Unlines(a) + Unlines(b)
    decreases |b|
  {
    if b == [] {
      assert a + b == a;
    } else {
      var init, last := b[..|b| - 1], b[|b| - 1];
      UnlinesConcat(a, init);
      assert (a + b)[..|a + b| - 1] == a + init;
      assert Unlines(a + b) == Unlines(a + init) + last + "\n" && Unlines(b) == Unlines(init) + last + "\n";
      assert (Unlines(a) + Unlines(init)) + last + "\n" == Unlines(a) + (Unlines(init) + last + "\n");
    }
  }

  ghost predicate NoBreaks(lines: seq<string>) { forall l :: l in lines ==> '\n' !in l }

  lemma LineInFront(text: string, line: string, rest: string)
    ensures text + line + "\n" + rest == text + (line + ['\n'] + rest)
  {
  }

  lemma SplitStep(text: string, init: seq<string>, last: string, rest: string)
    requires '\n' !in last
    requires SplitOn(text + (last + ['\n'] + rest), '\n') == init + SplitOn(last + ['\n'] + rest, '\n')
    ensures SplitOn(text + last + "\n" + rest, '\n') == init + [last] + SplitOn(rest, '\n')
  {
    LineInFront(text, last, rest);
    SplitFirst(last, '\n', rest);
    assert init + ([last] + SplitOn(rest, '\n')) == init + [last] + SplitOn(rest, '\n');
  }

  lemma {:induction false} SplitUnlines(lines: seq<string>, rest: string)
    requires NoBreaks(lines)
    ensures SplitOn(Unlines(lines) + rest, '\n') == lines + SplitOn(rest, '\n')
    decreases |lines|
  {
    if lines == [] {
      assert "" + rest == rest && [] + SplitOn(rest, '\n') == SplitOn(rest, '\n');
    } else {
      var init, last := lines[..|lines| - 1], lines[|lines| - 1];
      assert lines == init + [last];
      SplitUnlines(init, last + ['\n'] + rest);
      SplitStep(Unlines(init), init, last, rest);
    }
  }

  /** What follows the key on a line that starts with it. */
  function ValueOf(key: string, line: string): seq<string> { if key <= line then [line[|key|..]] else [] }

  function ValuesOf(key: string, lines: seq<string>): seq<string> {
    if lines == [] then [] else ValuesOf(key, lines[..|lines| - 1]) + ValueOf(key, lines[|lines| - 1])
  }

  lemma {:induction false} ValuesConcat(key: string, a: seq<string>, b: seq<string>)
    ensures ValuesOf(key, a + b) == ValuesOf(key, a) + ValuesOf(key, b)
    decreases |b|
  {
    if b == [] {
      assert a + b == a;
    } else {
      var init, v := b[..|b| - 1], ValueOf(key, b[|b| - 1]);
      ValuesConcat(key, a, init);
      assert (a + b)[..|a + b| - 1] == a + init;
      assert ValuesOf(key, a + b) == ValuesOf(key, a + init) + v && ValuesOf(key, b) == ValuesOf(key, init) + v;
      assert (ValuesOf(key, a) + ValuesOf(key, init)) + v == ValuesOf(key, a) + (ValuesOf(key, init) + v);
    }
  }

  /** Nothing in a client's fields breaks a line. */
  predicate OneLined(c: Client) {
    c.name != "" && '\n' !in c.name && '\n' !in c.publicKey && '\n' !in c.address
  }

  lemma AddressHasNoBreak(sn: ServerNet, address: string)
    requires sn.Valid() && ValidAddress(sn, address)
    ensures '\n' !in address
  {
    ValidAddressIsCanonical(sn, address);
    QuadShape(ParseHost(address).value);
  }

  lemma KeyHasNoBreak(key: string)
    requires ValidPublicKey(key)
    ensures '\n' !in key
  {
    forall i | 0 <= i < |key| ensures key[i] != '\n' { assert i == 43 || KeyChar(key[i]); }
  }

  lemma ValidIsOneLined(sn: ServerNet, c: Client)
    requires sn.Valid() && ValidEntry(sn, ToEntry(c))
    ensures OneLined(c)
  {
    AddressHasNoBreak(sn, c.address);
    KeyHasNoBreak(c.publicKey);
  }

  lemma {:induction false} PlainNeedsNoEscape(s: string)
    requires forall c :: c in s ==> c != '\\' && c != '"' && c != '\n'
    ensures PT.EscapeOnce(s) == s
  {
    if s != "" {
      assert s == [s[0]] + s[1..];
      assert s[0] in s && forall c :: c in s[1..] ==> c in s;
      PlainNeedsNoEscape(s[1..]);
    }
  }

  /** A client's name is one word, and stands in a metric label as it is. */
  lemma NamesArePlain(name: string)
    requires ValidName(name)
    ensures PT.EscapeLabel(name) == name && forall c :: c in name ==> !PP.IsSpace(c)
  {
    PT.ThreePassesAreOne(name);
    forall c | c in name ensures c != '\\' && c != '"' && c != '\n' && !PP.IsSpace(c) { assert NameChar(c); }
    PlainNeedsNoEscape(name);
  }

  function LinesOf(c: Client): seq<string> {
    ["# " + c.name, "[Peer]", "PublicKey = " + c.publicKey, "AllowedIPs = " + c.address, "PersistentKeepalive = 25"]
  }

  lemma LinesHaveNoBreaks(c: Client)
    requires OneLined(c)
    ensures NoBreaks(LinesOf(c))
  {
    assert '\n' !in "PersistentKeepalive = 25";
  }

  lemma UnlinesOneMore(lines: seq<string>, n: nat)
    requires n < |lines|
    ensures Unlines(lines[..n + 1]) == Unlines(lines[..n]) + lines[n] + "\n"
  {
    assert lines[..n + 1][..n] == lines[..n];
  }

  lemma KeyedLine(front: string, key: string, value: string)
    ensures front + key + value + "\n" == front + (key + value) + "\n"
  {
  }

  lemma PlainLine(front: string, line: string, whole: string)
    requires whole == line + "\n"
    ensures front + whole == front + line + "\n"
  {
  }

  lemma PeerLinesAre(c: Client)
    requires c.name != ""
    ensures PeerLines(c) == Unlines(LinesOf(c))
  {
    var l := LinesOf(c);
    UnlinesOneMore(l, 0); UnlinesOneMore(l, 1); UnlinesOneMore(l, 2); UnlinesOneMore(l, 3); UnlinesOneMore(l, 4);
    assert l[..0] == [] && l[..5] == l;
    var a := "# " + c.name + "\n";
    assert a == "" + ("# " + c.name) + "\n";
    PlainLine(a, "[Peer]", "[Peer]\n");
    var b := a + "[Peer]\n";
    KeyedLine(b, "PublicKey = ", c.publicKey);
    var d := b + "PublicKey = " + c.publicKey + "\n";
    KeyedLine(d, "AllowedIPs = ", c.address);
    PlainLine(d + "AllowedIPs = " + c.address + "\n", "PersistentKeepalive = 25", "PersistentKeepalive = 25\n");
  }

  function BlockLines(cs: seq<Client>): seq<string> {
    if cs == [] then []
    else if |cs| == 1 then LinesOf(cs[0])
    else BlockLines(cs[..|cs| - 1]) + [""] + LinesOf(cs[|cs| - 1])
  }

  lemma {:induction false} BlocksAre(cs: seq<Client>)
    requires forall c :: c in cs ==> OneLined(c)
    ensures PeerBlocks(cs) == Unlines(BlockLines(cs)) && NoBreaks(BlockLines(cs))
    decreases |cs|
  {
    if cs != [] {
      var init, last := cs[..|cs| - 1], cs[|cs| - 1];
      assert last in cs && OneLined(last);
      PeerLinesAre(last);
      LinesHaveNoBreaks(last);
      if |cs| > 1 {
        BlocksAre(init);
        assert [""][..0] == [] && Unlines([""]) == "\n";
        UnlinesConcat(BlockLines(init), [""]);
        UnlinesConcat(BlockLines(init) + [""], LinesOf(last));
      }
    }
  }

  /** The line goes a way of its own at place i of the key. */
  predicate PartsAt(key: string, line: string, i: nat) { i < |key| && i < |line| && key[i] != line[i] }

  ghost predicate AllOther(key: string, lines: seq<string>) {
    forall l :: l in lines ==> PartsAt(key, l, 0) || PartsAt(key, l, 1)
  }

  lemma {:induction false} OthersShowNothing(key: string, lines: seq<string>)
    requires AllOther(key, lines)
    ensures ValuesOf(key, lines) == []
    decreases |lines|
  {
    if lines != [] {
      var last := lines[|lines| - 1];
      OthersShowNothing(key, lines[..|lines| - 1]);
      assert last in lines && !(key <= last);
    }
  }

  /** Among lines that start otherwise, the one line with the key shows its value. */
  lemma OneLineShows(key: string, before: seq<string>, value: string, after: seq<string>)
    requires AllOther(key, before) && AllOther(key, after)
    ensures ValuesOf(key, before + [key + value] + after) == [value]
  {
    OthersShowNothing(key, before);
    OthersShowNothing(key, after);
    ValuesConcat(key, before + [key + value], after);
    ValuesConcat(key, before, [key + value]);
    assert [key + value][..0] == [] && ValueOf(key, key + value) == [value];
  }

  lemma NameOfBlock(c: Client)
    ensures ValuesOf("# ", LinesOf(c)) == [c.name]
  {
    var l := LinesOf(c);
    var after := [l[1], l[2], l[3], l[4]];
    assert AllOther("# ", []) && AllOther("# ", after);
    OneLineShows("# ", [], c.name, after);
    assert l == [] + ["# " + c.name] + after;
  }

  lemma KeyOfBlock(c: Client)
    ensures ValuesOf("PublicKey = ", LinesOf(c)) == [c.publicKey]
  {
    var l := LinesOf(c);
    var before, after := [l[0], l[1]], [l[3], l[4]];
    assert PartsAt("PublicKey = ", l[4], 1);
    assert AllOther("PublicKey = ", before) && AllOther("PublicKey = ", after);
    OneLineShows("PublicKey = ", before, c.publicKey, after);
    assert l == before + ["PublicKey = " + c.publicKey] + after;
  }

  lemma AddressOfBlock(c: Client)
    ensures ValuesOf("AllowedIPs = ", LinesOf(c)) == [c.address]
  {
    var l := LinesOf(c);
    var before, after := [l[0], l[1], l[2]], [l[4]];
    assert AllOther("AllowedIPs = ", before) && AllOther("AllowedIPs = ", after);
    OneLineShows("AllowedIPs = ", before, c.address, after);
    assert l == before + ["AllowedIPs = " + c.address] + after;
  }

  function Names(cs: seq<Client>): seq<string> { seq(|cs|, i requires 0 <= i < |cs| => cs[i].name) }

  function Keys(cs: seq<Client>): seq<string> { seq(|cs|, i requires 0 <= i < |cs| => cs[i].publicKey) }

  function Addresses(cs: seq<Client>): seq<string> { seq(|cs|, i requires 0 <= i < |cs| => cs[i].address) }

  /** The lines show these clients, in this order: their names, keys and addresses, and no others. */
  ghost predicate Shows(lines: seq<string>, cs: seq<Client>) {
    && ValuesOf("# ", lines) == Names(cs) && ValuesOf("PublicKey = ", lines) == Keys(cs)
    && ValuesOf("AllowedIPs = ", lines) == Addresses(cs)
  }

  lemma BlockShows(c: Client)
    ensures Shows(LinesOf(c), [c])
  {
    NameOfBlock(c);
    KeyOfBlock(c);
    AddressOfBlock(c);
  }

  lemma FieldsConcat(a: seq<Client>, b: seq<Client>)
    ensures Names(a + b) == Names(a) + Names(b)
    ensures Keys(a + b) == Keys(a) + Keys(b)
    ensures Addresses(a + b) == Addresses(a) + Addresses(b)
  {
  }

  lemma ShowsBoth(lines: seq<string>, cs: seq<Client>, more: seq<string>, ds: seq<Client>)
    requires Shows(lines, cs) && Shows(more, ds)
    ensures Shows(lines + more, cs + ds)
  {
    FieldsConcat(cs, ds);
    ValuesConcat("# ", lines, more);
    ValuesConcat("PublicKey = ", lines, more);
    ValuesConcat("AllowedIPs = ", lines, more);
  }

  lemma BlankValue(key: string, lines: seq<string>)
    requires key != ""
    ensures ValuesOf(key, lines + [""]) == ValuesOf(key, lines)
  {
    ValuesConcat(key, lines, [""]);
    assert [""][..0] == [] && ValuesOf(key, [""]) == [];
  }

  lemma BlankLine(lines: seq<string>, cs: seq<Client>)
    ensures Shows(lines + [""], cs) <==> Shows(lines, cs)
  {
    BlankValue("# ", lines);
    BlankValue("PublicKey = ", lines);
    BlankValue("AllowedIPs = ", lines);
  }

  lemma {:induction false} BlocksShow(cs: seq<Client>)
    ensures Shows(BlockLines(cs), cs)
    decreases |cs|
  {
    if cs != [] {
      var init, last := cs[..|cs| - 1], cs[|cs| - 1];
      assert cs == init + [last];
      BlockShows(last);
      if |cs| == 1 {
        assert cs == [last];
      } else {
        BlocksShow(init);
        BlankLine(BlockLines(init), init);
        ShowsBoth(BlockLines(init) + [""], init, LinesOf(last), [last]);
      }
    }
  }

  ghost predicate AllValid(sn: ServerNet, rows: Rows)
    requires sn.Valid()
  {
    forall k :: k in rows ==> ValidEntry(sn, ToEntry(rows[k]))
  }

  /** The live text of a table of valid rows reads back, line by line, as the enabled rows: no field of a
      row can smuggle in a line, a key or an address. */
  lemma LiveTextReadsBack(sn: ServerNet, rows: Rows) returns (cs: seq<Client>)
    requires sn.Valid() && Keyed(rows) && Injective(rows) && AllValid(sn, rows)
    ensures IsLiveListing(rows, cs) && Shows(SplitOn(Render(rows), '\n'), cs)
  {
    cs := RenderSpellsEnabledRows(rows);
    forall c | c in cs ensures OneLined(c) { ValidIsOneLined(sn, c); }
    BlocksAre(cs);
    SplitUnlines(BlockLines(cs), "");
    BlocksShow(cs);
    BlankLine(BlockLines(cs), cs);
    assert SplitOn("", '\n') == [""] && Unlines(BlockLines(cs)) + "" == Unlines(BlockLines(cs));
  }

  function Prefixed(prefix: string, values: seq<string>): seq<string> {
    seq(|values|, i requires 0 <= i < |values| => prefix + values[i])
  }

  /** The lines of the interface block: its four settings and then each hook, in order. */
  function InterfaceLines(iface: ServerInterface): seq<string> {
    ["[Interface]", "Address = " + iface.address, "ListenPort = " + Decimal(iface.listenPort),
     "PrivateKey = " + iface.privateKey]
    + Prefixed("PostUp = ", iface.postUp) + Prefixed("PostDown = ", iface.postDown)
  }

  lemma {:induction false} HookLines(prefix: string, values: seq<string>)
    ensures Lines(prefix, values) == Unlines(Prefixed(prefix, values))
    decreases |values|
  {
    if values != [] {
      var init, last := values[..|values| - 1], values[|values| - 1];
      var lines := Prefixed(prefix, values);
      HookLines(prefix, init);
      assert lines[..|lines| - 1] == Prefixed(prefix, init) && lines[|lines| - 1] == prefix + last;
      KeyedLine(Lines(prefix, init), prefix, last);
    }
  }

  lemma SettingLines(iface: ServerInterface)
    ensures "[Interface]\n" + "Address = " + iface.address + "\n" + "ListenPort = " + Decimal(iface.listenPort) + "\n"
            + "PrivateKey = " + iface.privateKey + "\n" == Unlines(InterfaceLines(iface)[..4])
  {
    var l := InterfaceLines(iface)[..4];
    UnlinesOneMore(l, 0); UnlinesOneMore(l, 1); UnlinesOneMore(l, 2); UnlinesOneMore(l, 3);
    assert l[..0] == [] && l[..4] == l;
    var a := "[Interface]\n";
    PlainLine("", "[Interface]", a);
    assert "" + a == a;
    KeyedLine(a, "Address = ", iface.address);
    var b := a + "Address = " + iface.address + "\n";
    KeyedLine(b, "ListenPort = ", Decimal(iface.listenPort));
    KeyedLine(b + "ListenPort = " + Decimal(iface.listenPort) + "\n", "PrivateKey = ", iface.privateKey);
  }

  lemma InterfaceIsLines(iface: ServerInterface)
    ensures InterfaceText(iface) == Unlines(InterfaceLines(iface))
  {
    var l := InterfaceLines(iface);
    var up, down := Prefixed("PostUp = ", iface.postUp), Prefixed("PostDown = ", iface.postDown);
    SettingLines(iface);
    HookLines("PostUp = ", iface.postUp);
    HookLines("PostDown = ", iface.postDown);
    UnlinesConcat(l[..4], up);
    UnlinesConcat(l[..4] + up, down);
    assert l == l[..4] + up + down;
  }

  lemma PrefixedHaveNoBreaks(prefix: string, values: seq<string>)
    requires '\n' !in prefix && NoBreaks(values)
    ensures NoBreaks(Prefixed(prefix, values))
  {
    forall l | l in Prefixed(prefix, values) ensures '\n' !in l {
      var i :| 0 <= i < |values| && l == prefix + values[i];
      assert values[i] in values;
    }
  }

  /** The interface block reads back line by line, if no setting holds a newline. */
  lemma InterfaceReadsBack(iface: ServerInterface)
    requires '\n' !in iface.address && '\n' !in iface.privateKey && NoBreaks(iface.postUp) && NoBreaks(iface.postDown)
    ensures SplitOn(InterfaceText(iface), '\n') == InterfaceLines(iface) + [""]
  {
    var l := InterfaceLines(iface);
    DecimalRead(iface.listenPort);
    PrefixedHaveNoBreaks("PostUp = ", iface.postUp);
    PrefixedHaveNoBreaks("PostDown = ", iface.postDown);
    assert NoBreaks(l[..4]);
    InterfaceIsLines(iface);
    SplitUnlines(l, "");
    assert Unlines(l) + "" == Unlines(l) && SplitOn("", '\n') == [""];
  }
}
