/** The parser applied to the printer's output: which parts of the snapshot come back. */
module PromRoundTrip {
  import opened Wrappers
  import opened Text
  import opened PromText
  import opened PromParse
  import opened PromReport
  import opened PromLines

  /** What the round trip needs of the number library: printed numbers are single words that
      parse to the float they denote, and 0 and 1 are told apart. */
  ghost predicate Faithful<F(!new)>(c: Codec<F>) {
    && (forall n :: Token(c.printInt(n)) && c.parseFloat(c.printInt(n)) == Some(c.toFloat(n)))
    && (forall f :: Token(c.printFloat(f)) && c.parseFloat(c.printFloat(f)) == Some(f))
    && c.isZero(c.toFloat(0)) && !c.isZero(c.toFloat(1))
  }

  lemma NameLengths()
    ensures |Name(Service)| == 24 && |Name(PeersTotal)| == 21 && |Name(PeersOnline)| == 22
    ensures |Name(HandshakeAge)| == 41 && |Name(RxBytes)| == 29 && |Name(TxBytes)| == 29
    ensures |Name(Cpu)| == 26 && |Name(Memory)| == 29 && |Name(Disk)| == 27
    ensures |Name(ActiveAlerts)| == 23 && |Name(BuildInfo)| == 20
    ensures Name(RxBytes)[15] == 'r' && Name(TxBytes)[15] == 't' && Name(Memory)[15] == 'm'
  {
  }

  /** The parser's list has every family the printer knows, under the printer's name for it: the
      names are pairwise different, so the dispatch finds the printed family. */
  lemma FamilyIsFound(f: Family)
    ensures FamilyOf(Name(f)) == Some(f)
  {
    NameLengths();
  }

  predicate NameChar(c: char) { 'a' <= c <= 'z' || c == '_' }

  lemma PeerNameIsPlain(f: Family)
    requires f.PeersTotal? || f.PeersOnline? || f.HandshakeAge? || f.RxBytes? || f.TxBytes?
    ensures forall c :: c in Name(f) ==> NameChar(c)
  {
  }

  lemma HostNameIsPlain(f: Family)
    requires f.Service? || f.Cpu? || f.Memory? || f.Disk? || f.ActiveAlerts? || f.BuildInfo?
    ensures forall c :: c in Name(f) ==> NameChar(c)
  {
  }

  lemma NameIsPlain(f: Family)
    ensures Name(f)[0] == 'w' && forall c :: c in Name(f) ==> NameChar(c)
  {
    if f.PeersTotal? || f.PeersOnline? || f.HandshakeAge? || f.RxBytes? || f.TxBytes? {
      PeerNameIsPlain(f);
    } else {
      HostNameIsPlain(f);
    }
    NameLengths();
  }

  lemma NameIsToken(f: Family)
    ensures Name(f) != "" && Name(f)[0] == 'w' && Token(Name(f)) && '\n' !in Name(f)
  {
    NameIsPlain(f);
  }

  /** A line the printer can emit: word-like value, plain label names. */
  predicate Printable(item: Item) {
    item.Series? ==> Token(item.value) && PlainKeys(item.labels)
  }

  lemma {:induction false} EscapeHasNoNewline(s: string)
    ensures '\n' !in EscapeOnce(s)
  {
    if s != "" { EscapeHasNoNewline(s[1..]); }
  }

  lemma {:induction false} ReplaceRemoves(s: string, c: char, rep: string)
    requires c !in rep
    ensures c !in ReplaceByte(s, c, rep)
  {
    if s != "" { ReplaceRemoves(s[1..], c, rep); }
  }

  lemma {:induction false} LabelsHaveNoNewline(labels: seq<(string, string)>)
    requires PlainKeys(labels)
    ensures '\n' !in LabelText(labels)
    decreases |labels|
  {
    if labels != [] {
      LabelTextSplits(labels);
      assert labels[0] in labels;
      ThreePassesAreOne(labels[0].1);
      EscapeHasNoNewline(labels[0].1);
      if |labels| > 1 { LabelsHaveNoNewline(labels[1..]); }
    }
  }

  lemma ItemIsOneLine(help: Family -> string, item: Item)
    requires Printable(item)
    ensures '\n' !in ItemText(help, item)
  {
    match item
    case Help(f) =>
      NameIsToken(f);
      ReplaceRemoves(ReplaceByte(help(f), '\\', "\\\\"), '\n', "\\n");
    case Type(f) => NameIsToken(f);
    case Series(f, labels, value) =>
      NameIsToken(f);
      LabelsHaveNoNewline(labels);
  }

  /** What a line means to the parser. */
  function Interpret<F>(c: Codec<F>, acc: Acc<F>, item: Item): Acc<F> {
    if item.Series? then ApplyFamily(c, acc, item.f, WithLabels(map[], item.labels), item.value) else acc
  }

  lemma {:induction false} TrimKeepsHead(s: string)
    requires s != "" && !IsSpace(s[0])
    ensures TrimRight(s) != "" && TrimRight(s)[0] == s[0]
  {
    if IsSpace(s[|s| - 1]) { TrimKeepsHead(s[..|s| - 1]); }
  }

  lemma CommentIgnored<F>(c: Codec<F>, acc: Acc<F>, line: string)
    requires line != "" && line[0] == '#'
    ensures ApplyLine(c, acc, line) == acc
  {
    TrimKeepsHead(line);
  }

  lemma CommentStarts(help: Family -> string, item: Item)
    requires !item.Series?
    ensures ItemText(help, item) != "" && ItemText(help, item)[0] == '#'
  {
  }

  lemma SeriesTrims(help: Family -> string, f: Family, labels: seq<(string, string)>, value: string)
    requires Token(value)
    ensures var line := ItemText(help, Series(f, labels, value)); line != "" && line[0] != '#' && Trim(line) == line
  {
    var line := ItemText(help, Series(f, labels, value));
    NameIsToken(f);
    assert value[|value| - 1] in value;
    assert line[0] == 'w' && line[|line| - 1] == value[|value| - 1];
    NoSpaceTrim(line);
  }

  lemma SeriesRead(help: Family -> string, f: Family, labels: seq<(string, string)>, value: string)
    requires Token(value) && PlainKeys(labels)
    ensures ParseLine(ItemText(help, Series(f, labels, value))) ==
            Some(Sample(Name(f), WithLabels(map[], labels), value))
  {
    NameIsToken(f);
    if labels == [] { LineReadPlain(Name(f), value); } else { LineReadLabelled(Name(f), labels, value); }
  }

  lemma SeriesApplied<F>(c: Codec<F>, acc: Acc<F>, help: Family -> string, f: Family, labels: seq<(string, string)>,
                         value: string)
    requires Token(value) && PlainKeys(labels)
    ensures ApplyLine(c, acc, ItemText(help, Series(f, labels, value))) ==
            ApplyFamily(c, acc, f, WithLabels(map[], labels), value)
  {
    SeriesTrims(help, f, labels, value);
    SeriesRead(help, f, labels, value);
    FamilyIsFound(f);
  }

  lemma ItemApplied<F>(c: Codec<F>, acc: Acc<F>, help: Family -> string, item: Item)
    requires Printable(item)
    ensures ApplyLine(c, acc, ItemText(help, item)) == Interpret(c, acc, item)
  {
    if item.Series? {
      SeriesApplied(c, acc, help, item.f, item.labels, item.value);
    } else {
      CommentStarts(help, item);
      CommentIgnored(c, acc, ItemText(help, item));
    }
  }

  function InterpretAll<F>(c: Codec<F>, acc: Acc<F>, items: seq<Item>): Acc<F> {
    if items == [] then acc else Interpret(c, InterpretAll(c, acc, items[..|items| - 1]), items[|items| - 1])
  }

  function FoldText<F>(c: Codec<F>, acc: Acc<F>, text: string): Acc<F> {
    FoldLines(c, acc, SplitOn(text, '\n'))
  }

  lemma LineFolds<F>(c: Codec<F>, acc: Acc<F>, line: string, rest: string)
    requires '\n' !in line
    ensures FoldText(c, acc, (line + "\n") + rest) == FoldText(c, ApplyLine(c, acc, line), rest)
  {
    SplitFirst(line, '\n', rest);
    assert (line + "\n") + rest == line + ['\n'] + rest;
    var lines := [line] + SplitOn(rest, '\n');
    assert lines[1..] == SplitOn(rest, '\n');
  }

  predicate AllPrintable(items: seq<Item>) { forall i :: 0 <= i < |items| ==> Printable(items[i]) }

  /** Printed lines fold as their meanings, whatever text follows them. */
  lemma {:induction false} BodyFolds<F>(c: Codec<F>, acc: Acc<F>, help: Family -> string, items: seq<Item>,
                                        rest: string)
    requires AllPrintable(items)
    ensures FoldText(c, acc, Body(Printer(help), items) + rest) == FoldText(c, InterpretAll(c, acc, items), rest)
    decreases |items|
  {
    if items == [] {
      assert Body(Printer(help), items) + rest == rest;
    } else {
      var init, last := items[..|items| - 1], items[|items| - 1];
      var line := ItemText(help, last);
      assert Body(Printer(help), items) + rest == Body(Printer(help), init) + ((line + "\n") + rest);
      BodyFolds(c, acc, help, init, (line + "\n") + rest);
      ItemIsOneLine(help, last);
      LineFolds(c, InterpretAll(c, acc, init), line, rest);
      ItemApplied(c, InterpretAll(c, acc, init), help, last);
    }
  }

  /** A metric family's section: its header, then its samples. */
  lemma SectionFolds<F>(c: Codec<F>, acc: Acc<F>, help: Family -> string, f: Family, items: seq<Item>, rest: string)
    requires AllPrintable(items)
    ensures FoldText(c, acc, Body(Printer(help), Header(f)) + Body(Printer(help), items) + rest)
         == FoldText(c, InterpretAll(c, acc, items), rest)
  {
    var head, body := Body(Printer(help), Header(f)), Body(Printer(help), items);
    assert head + body + rest == head + (body + rest);
    BodyFolds(c, acc, help, Header(f), body + rest);
    assert Header(f)[..1][..0] == [];
    assert InterpretAll(c, acc, Header(f)[..1]) == acc;
    BodyFolds(c, acc, help, items, rest);
  }

  lemma EndFolds<F>(c: Codec<F>, acc: Acc<F>)
    ensures FoldText(c, acc, "") == acc
  {
    assert SplitOn("", '\n') == [""];
    assert [""][1..] == [];
  }

  lemma {:induction false} PeerItemsPrintable<F(!new)>(c: Codec<F>, now: int, peers: seq<PeerMetric>)
    requires Faithful(c)
    ensures AllPrintable(AgeItems(c, now, peers)) && AllPrintable(RxItems(c, peers)) && AllPrintable(TxItems(c, peers))
    decreases |peers|
  {
    if peers != [] { PeerItemsPrintable(c, now, peers[..|peers| - 1]); }
  }

  lemma {:induction false} DiskItemsPrintable<F(!new)>(c: Codec<F>, disks: seq<DiskMetric<F>>)
    requires Faithful(c)
    ensures AllPrintable(DiskItems(c, disks))
    decreases |disks|
  {
    if disks != [] { DiskItemsPrintable(c, disks[..|disks| - 1]); }
  }

  lemma ScalarItemsPrintable<F(!new)>(c: Codec<F>, snap: Snapshot<F>)
    requires Faithful(c)
    ensures AllPrintable(ServiceItems(c, snap)) && AllPrintable(CountItems(c, snap))
    ensures AllPrintable(HostItems(c, snap)) && AllPrintable(TailItems(c, snap))
  {
  }

  /** The meaning of the whole exposition. */
  function Meaning<F>(c: Codec<F>, snap: Snapshot<F>): Acc<F> {
    var top := InterpretAll(c, InterpretAll(c, Start(), ServiceItems(c, snap)), CountItems(c, snap));
    var peers := InterpretAll(c, InterpretAll(c, InterpretAll(c, top, AgeItems(c, snap.now, snap.peers)),
                                              RxItems(c, snap.peers)), TxItems(c, snap.peers));
    var disks := InterpretAll(c, InterpretAll(c, peers, HostItems(c, snap)), DiskItems(c, snap.disks));
    InterpretAll(c, disks, TailItems(c, snap))
  }

  lemma MiddleFolds<F(!new)>(c: Codec<F>, acc: Acc<F>, help: Family -> string, snap: Snapshot<F>, rest: string)
    requires Faithful(c)
    ensures FoldText(c, acc, AgeText(Printer(help), c, snap)
                             + (RxText(Printer(help), c, snap.peers) + (TxText(Printer(help), c, snap.peers) + rest)))
         == FoldText(c, InterpretAll(c, InterpretAll(c, InterpretAll(c, acc, AgeItems(c, snap.now, snap.peers)),
                                                    RxItems(c, snap.peers)), TxItems(c, snap.peers)), rest)
  {
    var line := Printer(help);
    PeerItemsPrintable(c, snap.now, snap.peers);
    var ages := InterpretAll(c, acc, AgeItems(c, snap.now, snap.peers));
    var rxs := InterpretAll(c, ages, RxItems(c, snap.peers));
    SectionFolds(c, acc, help, HandshakeAge, AgeItems(c, snap.now, snap.peers),
                 RxText(line, c, snap.peers) + (TxText(line, c, snap.peers) + rest));
    SectionFolds(c, ages, help, RxBytes, RxItems(c, snap.peers), TxText(line, c, snap.peers) + rest);
    SectionFolds(c, rxs, help, TxBytes, TxItems(c, snap.peers), rest);
  }

  lemma EndingFolds<F(!new)>(c: Codec<F>, acc: Acc<F>, help: Family -> string, snap: Snapshot<F>)
    requires Faithful(c)
    ensures FoldText(c, acc, Body(Printer(help), HostItems(c, snap))
                             + (DiskText(Printer(help), c, snap.disks) +
                                (Body(Printer(help), TailItems(c, snap)) + "")))
         == InterpretAll(c, InterpretAll(c, InterpretAll(c, acc, HostItems(c, snap)), DiskItems(c, snap.disks)),
                         TailItems(c, snap))
  {
    var line := Printer(help);
    ScalarItemsPrintable(c, snap);
    DiskItemsPrintable(c, snap.disks);
    var host := InterpretAll(c, acc, HostItems(c, snap));
    var disks := InterpretAll(c, host, DiskItems(c, snap.disks));
    var tail := Body(line, TailItems(c, snap)) + "";
    BodyFolds(c, acc, help, HostItems(c, snap), DiskText(line, c, snap.disks) + tail);
    SectionFolds(c, host, help, Disk, DiskItems(c, snap.disks), tail);
    BodyFolds(c, disks, help, TailItems(c, snap), "");
    EndFolds(c, InterpretAll(c, disks, TailItems(c, snap)));
  }

  lemma Reassociate(a: string, b: string, d: string, e: string, f: string, g: string, h: string, i: string)
    ensures (a + b) + d + e + f + g + h + i == a + (b + (d + (e + (f + (g + (h + (i + "")))))))
  {
    assert (a + b) + d + e == a + (b + (d + e));
    assert f + g + h + i == f + (g + (h + (i + "")));
    var x, y := (a + b) + d + e, f + g + h + i;
    assert x + f + g + h + i == x + y;
    assert a + (b + (d + e)) + y == a + (b + (d + (e + y)));
  }

  lemma ExpositionNests<F>(line: Item -> string, c: Codec<F>, snap: Snapshot<F>)
    ensures Exposition(line, c, snap) ==
            Body(line, ServiceItems(c, snap)) + (Body(line, CountItems(c, snap)) +
              (AgeText(line, c, snap) + (RxText(line, c, snap.peers) + (TxText(line, c, snap.peers) +
                (Body(line, HostItems(c, snap)) +
                  (DiskText(line, c, snap.disks) + (Body(line, TailItems(c, snap)) + "")))))))
  {
    var a, b := Body(line, ServiceItems(c, snap)), Body(line, CountItems(c, snap));
    var d, e := AgeText(line, c, snap), RxText(line, c, snap.peers);
    var f, g := TxText(line, c, snap.peers), Body(line, HostItems(c, snap));
    var h, i := DiskText(line, c, snap.disks), Body(line, TailItems(c, snap));
    Reassociate(a, b, d, e, f, g, h, i);
  }

  /** Parsing the printed text folds exactly the printed samples, in order. */
  lemma ParsesToMeaning<F(!new)>(c: Codec<F>, help: Family -> string, snap: Snapshot<F>)
    requires Faithful(c)
    ensures FoldText(c, Start(), Exposition(Printer(help), c, snap)) == Meaning(c, snap)
  {
    var line := Printer(help);
    ExpositionNests(line, c, snap);
    ScalarItemsPrintable(c, snap);
    var end := Body(line, HostItems(c, snap)) + (DiskText(line, c, snap.disks) + (Body(line, TailItems(c, snap)) + ""));
    var middle := AgeText(line, c, snap) + (RxText(line, c, snap.peers) + (TxText(line, c, snap.peers) + end));
    var service := InterpretAll(c, Start(), ServiceItems(c, snap));
    var top := InterpretAll(c, service, CountItems(c, snap));
    BodyFolds(c, Start(), help, ServiceItems(c, snap), Body(line, CountItems(c, snap)) + middle);
    BodyFolds(c, service, help, CountItems(c, snap), middle);
    MiddleFolds(c, top, help, snap, end);
    EndingFolds(c, InterpretAll(c, InterpretAll(c, InterpretAll(c, top, AgeItems(c, snap.now, snap.peers)),
                                               RxItems(c, snap.peers)), TxItems(c, snap.peers)), help, snap);
  }
}
