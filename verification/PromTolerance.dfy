/** What the parser makes of lines that the printer never prints (mcp tools/host_metrics.go). */
module PromTolerance {
  import opened Wrappers
  import opened Text
  import opened PromText
  import opened PromParse
  import opened PromLines

  /** No quote at i, and no backslash that starts one of the escapes the parser knows. */
  predicate VerbatimAt(v: string, i: nat)
    requires i < |v|
  {
    && v[i] != '"'
    && (v[i] == '\\' ==> i + 1 < |v| && v[i + 1] != '\\' && v[i + 1] != 'n')
  }

  ghost predicate Verbatim(v: string) { forall i :: 0 <= i < |v| ==> VerbatimAt(v, i) }

  lemma VerbatimTail(v: string)
    requires Verbatim(v) && v != ""
    ensures Verbatim(v[1..])
  {
    forall i | 0 <= i < |v[1..]| ensures VerbatimAt(v[1..], i) {
      assert VerbatimAt(v, i + 1) && v[1..][i] == v[i + 1];
      assert i + 2 < |v| ==> v[1..][i + 1] == v[i + 2];
    }
  }

  /** Bytes that are no escape the parser knows stay as they are, their backslashes included. */
  lemma {:induction false} VerbatimValueReads(v: string, rest: string)
    requires Verbatim(v)
    ensures ScanValue(v + ("\"" + rest)) == Some((v, rest))
    decreases |v|
  {
    var s := v + ("\"" + rest);
    if v == "" {
      assert s == "\"" + rest;
      QuoteEndsValue(rest);
    } else {
      VerbatimTail(v);
      VerbatimValueReads(v[1..], rest);
      assert VerbatimAt(v, 0) && (|v| > 1 ==> VerbatimAt(v, 1));
      assert s[0] == v[0] && s[1..] == v[1..] + ("\"" + rest);
      assert |v| > 1 ==> s[1] == v[1];
      assert !IsEscape(s);
      assert v == [v[0]] + v[1..];
    }
  }

  /** Outside quotes the first brace closes the block; a backslash there is nothing special. */
  lemma {:induction false} FirstBraceCloses(s: string, rest: string)
    requires '"' !in s && '}' !in s
    ensures FindClose(s + ("}" + rest), false, false) == Some(|s|)
    decreases |s|
  {
    var all := s + ("}" + rest);
    if s != "" {
      assert s[0] in s && forall c :: c in s[1..] ==> c in s;
      assert all[0] == s[0] && all[1..] == s[1..] + ("}" + rest);
      FirstBraceCloses(s[1..], rest);
    }
  }

  predicate Spaces(s: string) { forall c :: c in s ==> IsSpace(c) }

  /** The text after a word: nothing, or white space first. */
  predicate Ended(s: string) { s == "" || IsSpace(s[0]) }

  lemma {:induction false} TrimLeftSplits(s: string) returns (a: string)
    ensures s == a + TrimLeft(s) && Spaces(a) && (TrimLeft(s) != "" ==> !IsSpace(TrimLeft(s)[0]))
    ensures s != "" && IsSpace(s[0]) ==> a != ""
    decreases |s|
  {
    a := "";
    if s != "" && IsSpace(s[0]) {
      var b := TrimLeftSplits(s[1..]);
      a := [s[0]] + b;
      assert s == [s[0]] + s[1..];
    }
  }

  lemma {:induction false} TrimLeftDrops(a: string, rest: string)
    requires Spaces(a)
    ensures TrimLeft(a + rest) == TrimLeft(rest)
    decreases |a|
  {
    if a == "" {
      assert a + rest == rest;
    } else {
      assert a[0] in a && forall c :: c in a[1..] ==> c in a;
      assert (a + rest)[0] == a[0] && (a + rest)[1..] == a[1..] + rest;
      TrimLeftDrops(a[1..], rest);
    }
  }

  lemma {:induction false} WordSplits(t: string)
    ensures t[..|Word(t)|] == Word(t) && Ended(t[|Word(t)|..]) && forall c :: c in Word(t) ==> !IsSpace(c)
    decreases |t|
  {
    if t != "" && !IsSpace(t[0]) { WordSplits(t[1..]); }
  }

  /** One word of a line: not empty, and free of white space. */
  predicate IsWord(w: string) { w != "" && forall c :: c in w ==> !IsSpace(c) }

  lemma FirstField(a: string, w: string, rest: string)
    requires Spaces(a) && IsWord(w) && Ended(rest)
    ensures Fields(a + w + rest) == [w] + Fields(rest)
  {
    assert a + w + rest == a + (w + rest);
    TrimLeftDrops(a, w + rest);
    assert w[0] in w && TrimLeft(w + rest) == w + rest;
    WordOfToken(w, rest);
    assert (w + rest)[|w|..] == rest;
  }

  lemma NoFields(c: string)
    requires Spaces(c)
    ensures Fields(c) == []
  {
    TrimLeftDrops(c, "");
    assert c + "" == c;
  }

  lemma FieldSplits(s: string) returns (a: string, rest: string)
    requires Fields(s) != []
    ensures s == a + Fields(s)[0] + rest && Spaces(a) && IsWord(Fields(s)[0]) && Ended(rest)
    ensures Fields(s) == [Fields(s)[0]] + Fields(rest)
    ensures s != "" && IsSpace(s[0]) ==> a != ""
  {
    a := TrimLeftSplits(s);
    var t := TrimLeft(s);
    WordSplits(t);
    rest := t[|Word(t)|..];
    assert t == Word(t) + rest;
  }

  lemma FieldlessIsSpace(s: string)
    requires Fields(s) == []
    ensures Spaces(s)
  {
    var a := TrimLeftSplits(s);
    assert a + "" == a;
  }

  lemma ValueIsFirstField(value: string, more: string)
    requires IsWord(value)
    ensures Fields(" " + (value + " " + more)) == [value] + Fields(" " + more)
  {
    FirstField(" ", value, " " + more);
    assert " " + (value + " " + more) == " " + value + (" " + more);
  }

  /** Anything may follow the value of a labelled sample, a time stamp for one. */
  lemma RestOfLineIgnored(name: string, labels: seq<(string, string)>, value: string, more: string)
    requires Token(name) && Token(value) && labels != [] && PlainKeys(labels)
    ensures ParseLine(name + "{" + LabelText(labels) + "} " + (value + " " + more)) ==
            Some(Sample(name, WithLabels(map[], labels), value))
  {
    var tail := value + " " + more;
    CloseIsFound(labels, " " + tail);
    LineShape(name, LabelText(labels), tail);
    LineSplits(name, LabelText(labels), tail);
    LabelsRead(labels, map[]);
    ValueIsFirstField(value, more);
    NameIsTrim(name);
  }

  /** The line is a name and a value with white space around and between them. */
  ghost predicate IsPlainSample(line: string, name: string, value: string) {
    && IsWord(name) && IsWord(value)
    && exists a, b, c :: Spaces(a) && Spaces(b) && b != "" && Spaces(c) && line == a + name + (b + value + c)
  }

  /** A line without a brace is a sample exactly when it is one name and one value, whatever the white
      space; anything more or less is rejected. */
  lemma PlainLineIff(line: string, name: string, value: string)
    requires '{' !in line
    ensures ParseLine(line) == Some(Sample(name, map[], value)) <==> IsPlainSample(line, name, value)
  {
    if IsPlainSample(line, name, value) {
      var a, b, c :| Spaces(a) && Spaces(b) && b != "" && Spaces(c) && line == a + name + (b + value + c);
      assert b[0] in b && (b + value + c)[0] == b[0];
      FirstField(a, name, b + value + c);
      assert c != "" ==> c[0] in c;
      FirstField(b, value, c);
      NoFields(c);
      assert [name] + ([value] + []) == [name, value];
    }
    if ParseLine(line) == Some(Sample(name, map[], value)) {
      assert Fields(line) == [name, value];
      var a, rest := FieldSplits(line);
      assert Fields(rest) == [value] by { assert Fields(line)[1..] == Fields(rest); }
      var b, c := FieldSplits(rest);
      assert Fields(c) == [] by { assert Fields(rest)[1..] == Fields(c); }
      FieldlessIsSpace(c);
      assert rest != "";
      assert line == a + name + (b + value + c);
    }
  }
}
