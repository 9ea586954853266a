/** Every printed line is read back as what was printed, for arbitrary label bytes. */
module PromLines {
  import opened Wrappers
  import opened Text
  import opened PromText
  import opened PromParse

  predicate Shifted(r: Option<nat>, n: nat, inner: Option<nat>) {
    r == if inner.None? then None else Some(n + inner.value)
  }

  /** A byte the label scanner passes over unchanged, inside or outside quotes. */
  predicate Ordinary(c: char) { c != '\\' && c != '"' && c != '}' }

  lemma {:induction false} CloseSkipsOrdinary(s: string, rest: string, q: bool)
    requires forall c :: c in s ==> Ordinary(c)
    ensures Shifted(FindClose(s + rest, q, false), |s|, FindClose(rest, q, false))
  {
    if s == "" {
      assert s + rest == rest;
    } else {
      assert (s + rest)[1..] == s[1..] + rest;
      assert s[0] in s && (s + rest)[0] == s[0];
      assert forall c :: c in s[1..] ==> c in s;
      CloseSkipsOrdinary(s[1..], rest, q);
    }
  }

  lemma CloseSkipsEscape(c: char, rest: string)
    ensures Shifted(FindClose(EscapeByte(c) + rest, true, false), |EscapeByte(c)|, FindClose(rest, true, false))
  {
    var s := EscapeByte(c) + rest;
    if |EscapeByte(c)| == 2 {
      assert s[1..] == [EscapeByte(c)[1]] + rest;
      assert s[1..][1..] == rest;
    } else {
      assert s[1..] == rest;
    }
  }

  /** Inside quotes, an escaped value never closes the quotes or the block. */
  lemma {:induction false} CloseSkipsValue(v: string, rest: string)
    ensures Shifted(FindClose(EscapeOnce(v) + rest, true, false), |EscapeOnce(v)|, FindClose(rest, true, false))
  {
    if v == "" {
      assert EscapeOnce(v) + rest == rest;
    } else {
      assert EscapeOnce(v) + rest == EscapeByte(v[0]) + (EscapeOnce(v[1..]) + rest);
      CloseSkipsEscape(v[0], EscapeOnce(v[1..]) + rest);
      CloseSkipsValue(v[1..], rest);
    }
  }

  /** Label names: lower-case letters. */
  predicate PlainKey(k: string) { k != "" && forall c :: c in k ==> 'a' <= c <= 'z' }

  predicate PlainKeys(labels: seq<(string, string)>) { forall l :: l in labels ==> PlainKey(l.0) }

  function OneLabel(l: (string, string)): string { l.0 + "=\"" + EscapeLabel(l.1) + "\"" }

  lemma CloseSkipsLabel(l: (string, string), rest: string)
    requires PlainKey(l.0)
    ensures Shifted(FindClose(OneLabel(l) + rest, false, false), |OneLabel(l)|, FindClose(rest, false, false))
  {
    ThreePassesAreOne(l.1);
    var quoted := EscapeOnce(l.1) + ("\"" + rest);
    assert OneLabel(l) + rest == (l.0 + "=") + ("\"" + quoted);
    CloseSkipsOrdinary(l.0 + "=", "\"" + quoted, false);
    assert ("\"" + quoted)[1..] == quoted;
    CloseSkipsValue(l.1, "\"" + rest);
    assert ("\"" + rest)[1..] == rest;
  }

  lemma LabelTextSplits(labels: seq<(string, string)>)
    requires labels != []
    ensures LabelText(labels) == OneLabel(labels[0]) + if |labels| == 1 then "" else "," + LabelText(labels[1..])
  {
  }

  /** findLabelClose finds the true closing brace. */
  lemma {:induction false} CloseIsFound(labels: seq<(string, string)>, rest: string)
    requires labels != [] && PlainKeys(labels)
    ensures FindClose(LabelText(labels) + ("}" + rest), false, false) == Some(|LabelText(labels)|)
    decreases |labels|
  {
    LabelTextSplits(labels);
    assert labels[0] in labels;
    var first := OneLabel(labels[0]);
    if |labels| == 1 {
      CloseSkipsLabel(labels[0], "}" + rest);
      assert LabelText(labels) == first;
    } else {
      var tail := LabelText(labels[1..]) + ("}" + rest);
      assert LabelText(labels) + ("}" + rest) == first + ("," + tail);
      CloseSkipsLabel(labels[0], "," + tail);
      CloseSkipsOrdinary(",", tail, false);
      CloseIsFound(labels[1..], rest);
    }
  }

  lemma ScanReadsByte(c: char, tail: string)
    ensures ScanValue(EscapeByte(c) + tail) ==
            if ScanValue(tail).None? then None else Some(([c] + ScanValue(tail).value.0, ScanValue(tail).value.1))
  {
    var s := EscapeByte(c) + tail;
    if |EscapeByte(c)| == 2 {
      assert s[2..] == tail;
    } else {
      assert s[1..] == tail;
    }
  }

  lemma QuoteEndsValue(rest: string)
    ensures ScanValue("\"" + rest) == Some(("", rest))
  {
    assert ("\"" + rest)[1..] == rest;
  }

  lemma EscapedHead(v: string, rest: string)
    requires v != ""
    ensures EscapeOnce(v) + rest == EscapeByte(v[0]) + (EscapeOnce(v[1..]) + rest)
  {
  }

  /** Unescaping undoes escaping, and stops at the closing quote. */
  lemma {:induction false} ScanReadsValue(v: string, rest: string)
    ensures ScanValue(EscapeOnce(v) + ("\"" + rest)) == Some((v, rest))
    decreases |v|
  {
    if v == "" {
      assert EscapeOnce(v) + ("\"" + rest) == "\"" + rest;
      QuoteEndsValue(rest);
    } else {
      ScanReadsValue(v[1..], rest);
      EscapedHead(v, "\"" + rest);
      ScanReadsByte(v[0], EscapeOnce(v[1..]) + ("\"" + rest));
      assert v == [v[0]] + v[1..];
    }
  }

  lemma {:induction false} NoSpaceTrim(s: string)
    requires s != "" && !IsSpace(s[0]) && !IsSpace(s[|s| - 1])
    ensures Trim(s) == s
  {
  }

  function WithLabels(acc: map<string, string>, labels: seq<(string, string)>): map<string, string>
    decreases |labels|
  {
    if labels == [] then acc else WithLabels(acc[labels[0].0 := labels[0].1], labels[1..])
  }

  lemma LabelHead(l: (string, string), rest: string)
    requires PlainKey(l.0)
    ensures OneLabel(l) + rest != ""
    ensures SkipSeparators(OneLabel(l) + rest) == OneLabel(l) + rest
    ensures Before(OneLabel(l) + rest, '=') == l.0 && '=' in OneLabel(l) + rest
    ensures Trim(l.0) == l.0
  {
    var s := OneLabel(l) + rest;
    assert s[0] == l.0[0] && l.0[0] in l.0 && l.0[|l.0| - 1] in l.0;
    assert s == l.0 + ['='] + ("\"" + EscapeLabel(l.1) + "\"" + rest);
    BeforeFirst(l.0, '=', "\"" + EscapeLabel(l.1) + "\"" + rest);
    NoSpaceTrim(l.0);
  }

  lemma OneLabelRead(l: (string, string), rest: string, acc: map<string, string>)
    requires PlainKey(l.0)
    ensures ParseLabels(OneLabel(l) + rest, acc) == ParseLabels(rest, acc[l.0 := l.1])
  {
    var s := OneLabel(l) + rest;
    LabelHead(l, rest);
    ThreePassesAreOne(l.1);
    var u := "\"" + (EscapeOnce(l.1) + ("\"" + rest));
    assert s == l.0 + ['='] + u;
    assert s[|l.0| + 1..] == u;
    assert u[1..] == EscapeOnce(l.1) + ("\"" + rest);
    ScanReadsValue(l.1, rest);
  }

  lemma SeparatorSkipped(s: string, acc: map<string, string>)
    ensures ParseLabels("," + s, acc) == ParseLabels(s, acc)
  {
    var t := "," + s;
    assert t[1..] == s && t[0] == ',';
    assert SkipSeparators(t) == SkipSeparators(s);
    LabelsSkip(t, acc);
    LabelsSkip(s, acc);
  }

  /** parsePromLabels reads back every label, whatever bytes its value holds. */
  lemma {:induction false} LabelsRead(labels: seq<(string, string)>, acc: map<string, string>)
    requires PlainKeys(labels)
    ensures ParseLabels(LabelText(labels), acc) == Some(WithLabels(acc, labels))
    decreases |labels|
  {
    if labels != [] {
      LabelTextSplits(labels);
      assert labels[0] in labels;
      var next := acc[labels[0].0 := labels[0].1];
      if |labels| == 1 {
        assert LabelText(labels) == OneLabel(labels[0]) + "";
        OneLabelRead(labels[0], "", acc);
      } else {
        OneLabelRead(labels[0], "," + LabelText(labels[1..]), acc);
        LabelsRead(labels[1..], next);
        assert labels[1] in labels;
        SeparatorSkipped(LabelText(labels[1..]), next);
      }
    }
  }

  /** A number's text: one non-empty word without braces. */
  predicate Token(s: string) { s != "" && forall c :: c in s ==> !IsSpace(c) && c != '{' }

  lemma {:induction false} WordOfToken(s: string, rest: string)
    requires forall c :: c in s ==> !IsSpace(c)
    requires rest == "" || IsSpace(rest[0])
    ensures Word(s + rest) == s
  {
    if s == "" {
      assert s + rest == rest;
    } else {
      assert (s + rest)[1..] == s[1..] + rest;
      WordOfToken(s[1..], rest);
      assert s == [s[0]] + s[1..];
    }
  }

  lemma FieldsOfToken(v: string)
    requires Token(v)
    ensures Fields(v) == [v]
    ensures Fields(" " + v) == [v]
  {
    assert v[0] in v;
    WordOfToken(v, "");
    assert v + "" == v && v[|v|..] == "";
    assert Fields("") == [];
    assert (" " + v)[1..] == v;
    assert TrimLeft(" " + v) == v;
  }

  lemma FieldsOfTwo(a: string, v: string)
    requires Token(a) && Token(v)
    ensures Fields(a + " " + v) == [a, v]
  {
    var s := a + " " + v;
    assert a[0] in a && s == a + (" " + v);
    WordOfToken(a, " " + v);
    assert s[|a|..] == " " + v;
    FieldsOfToken(v);
  }

  lemma LineReadPlain(name: string, value: string)
    requires Token(name) && Token(value)
    ensures ParseLine(name + " " + value) == Some(Sample(name, map[], value))
  {
    FieldsOfTwo(name, value);
    assert '{' !in name + " " + value;
  }

  lemma LineShape(name: string, inner: string, value: string)
    ensures name + "{" + inner + "} " + value == name + ['{'] + (inner + ("}" + (" " + value)))
  {
    assert "} " + value == "}" + (" " + value);
  }

  lemma RestSlices(inner: string, value: string)
    ensures var rest := inner + ("}" + (" " + value)); rest[..|inner|] == inner && rest[|inner| + 1..] == " " + value
  {
  }

  lemma LineSplits(name: string, inner: string, value: string)
    requires Token(name)
    requires FindClose(inner + ("}" + (" " + value)), false, false) == Some(|inner|)
    ensures ParseLine(name + ['{'] + (inner + ("}" + (" " + value)))) ==
            (var labels, fields := ParseLabels(inner, map[]), Fields(" " + value);
             if labels.None? || fields == [] then None else Some(Sample(Trim(name), labels.value, fields[0])))
  {
    var rest := inner + ("}" + (" " + value));
    var line := name + ['{'] + rest;
    BeforeFirst(name, '{', rest);
    assert line[|name|] == '{' && '{' in line;
    assert line[|name| + 1..] == rest;
    RestSlices(inner, value);
  }

  lemma NameIsTrim(name: string)
    requires Token(name)
    ensures Trim(name) == name
  {
    assert name[0] in name && name[|name| - 1] in name;
    NoSpaceTrim(name);
  }

  lemma LineReadLabelled(name: string, labels: seq<(string, string)>, value: string)
    requires Token(name) && Token(value) && labels != [] && PlainKeys(labels)
    ensures ParseLine(name + "{" + LabelText(labels) + "} " + value) ==
            Some(Sample(name, WithLabels(map[], labels), value))
  {
    CloseIsFound(labels, " " + value);
    LineShape(name, LabelText(labels), value);
    LineSplits(name, LabelText(labels), value);
    LabelsRead(labels, map[]);
    FieldsOfToken(value);
    NameIsTrim(name);
  }
}
