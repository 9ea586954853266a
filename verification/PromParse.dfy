/** The tolerant parser of that exposition (mcp tools/host_metrics.go). */
module PromParse {
  import opened Wrappers
  import opened Text

  /** ASCII white space, as strings.TrimSpace and strings.Fields see it. */
  predicate IsSpace(c: char) {
    c == ' ' || c == '\t' || c == '\n' || c == '\r' || c == '\U{000B}' || c == '\U{000C}'
  }

  function TrimLeft(s: string): (t: string)
    ensures |t| <= |s|
  {
    if s != "" && IsSpace(s[0]) then TrimLeft(s[1..]) else s
  }

  function TrimRight(s: string): string {
    if s != "" && IsSpace(s[|s| - 1]) then TrimRight(s[..|s| - 1]) else s
  }

  function Trim(s: string): string { TrimRight(TrimLeft(s)) }

  /** The longest prefix without white space. */
  function Word(s: string): (w: string)
    ensures |w| <= |s|
  {
    if s == "" || IsSpace(s[0]) then "" else [s[0]] + Word(s[1..])
  }

  /** strings.Fields. */
  function Fields(s: string): seq<string>
    decreases |s|
  {
    var t := TrimLeft(s);
    var w := Word(t);
    if w == "" then [] else [w] + Fields(t[|w|..])
  }

  datatype Sample = Sample(name: string, labels: map<string, string>, value: string)

  /** findLabelClose on the text after the opening brace: the offset of the closing one. */
  function FindClose(s: string, inQuotes: bool, escaped: bool): Option<nat> {
    if s == "" then None
    else if !escaped && s[0] == '}' && !inQuotes then Some(0)
    else
      var rest := if escaped then FindClose(s[1..], inQuotes, false)
                  else if s[0] == '\\' then FindClose(s[1..], inQuotes, inQuotes)
                  else if s[0] == '"' then FindClose(s[1..], !inQuotes, false)
                  else FindClose(s[1..], inQuotes, false);
      if rest.None? then None else Some(rest.value + 1)
  }

  lemma {:induction false} FindCloseInBounds(s: string, q: bool, e: bool)
    ensures FindClose(s, q, e).Some? ==> FindClose(s, q, e).value < |s|
  {
    if s != "" && !(!e && s[0] == '}' && !q) {
      FindCloseInBounds(s[1..], q, false);
      FindCloseInBounds(s[1..], q, q);
      FindCloseInBounds(s[1..], !q, false);
    }
  }

  predicate IsEscape(s: string) {
    |s| >= 2 && s[0] == '\\' && (s[1] == '"' || s[1] == '\\' || s[1] == 'n')
  }

  /** The value of a quoted label and what follows its closing quote. */
  function ScanValue(s: string): (r: Option<(string, string)>)
    ensures r.Some? ==> |r.value.1| < |s|
    decreases |s|
  {
    if s == "" then None
    else if IsEscape(s) then
      var r := ScanValue(s[2..]);
      if r.None? then None else Some(([if s[1] == 'n' then '\n' else s[1]] + r.value.0, r.value.1))
    else if s[0] == '"' then Some(("", s[1..]))
    else
      var r := ScanValue(s[1..]);
      if r.None? then None else Some(([s[0]] + r.value.0, r.value.1))
  }

  function SkipSeparators(s: string): (t: string)
    ensures |t| <= |s|
  {
    if s != "" && (s[0] == ' ' || s[0] == ',') then SkipSeparators(s[1..]) else s
  }

  /** parsePromLabels from some point on; None is a malformed block. */
  function ParseLabels(s: string, acc: map<string, string>): Option<map<string, string>>
    decreases |s|
  {
    var t := SkipSeparators(s);
    if t == "" then Some(acc)
    else if '=' !in t then None
    else
      BeforeIsShorter(t, '=');
      var key := Trim(Before(t, '='));
      var u := t[|Before(t, '=')| + 1..];
      if u == "" || u[0] != '"' then None
      else
        var v := ScanValue(u[1..]);
        if v.None? then None else ParseLabels(v.value.1, acc[key := v.value.0])
  }

  /** parsePromLine on a trimmed, non-comment line. */
  function ParseLine(line: string): Option<Sample> {
    if '{' !in line then
      var fields := Fields(line);
      if |fields| != 2 then None else Some(Sample(fields[0], map[], fields[1]))
    else
      BeforeIsShorter(line, '{');
      var name := Before(line, '{');
      var rest := line[|name| + 1..];
      var close := FindClose(rest, false, false);
      if close.None? then None
      else
        FindCloseInBounds(rest, false, false);
        var labels := ParseLabels(rest[..close.value], map[]);
        var fields := Fields(rest[close.value + 1..]);
        if labels.None? || fields == [] then None
        else Some(Sample(Trim(name), labels.value, fields[0]))
  }

  /** findLabelClose, with the source's index and flags. */
  method FindLabelClose(line: string, openIdx: nat) returns (idx: int)
    requires openIdx < |line|
    ensures var r := FindClose(line[openIdx + 1..], false, false);
            idx == if r.None? then -1 else openIdx + 1 + r.value
  {
    var inQuotes, escaped := false, false;
    var i := openIdx + 1;
    ghost var all := FindClose(line[openIdx + 1..], false, false);
    while i < |line|
      invariant openIdx + 1 <= i <= |line|
      invariant var r := FindClose(line[i..], inQuotes, escaped);
                if r.None? then all.None? else all == Some(r.value + (i - openIdx - 1))
    {
      assert line[i..][1..] == line[i + 1..];
      var c := line[i];
      if escaped {
        escaped := false;
      } else if c == '\\' {
        if inQuotes { escaped := true; }
      } else if c == '"' {
        inQuotes := !inQuotes;
      } else if c == '}' && !inQuotes {
        return i;
      }
      i := i + 1;
    }
    return -1;
  }

  lemma AppendAssoc(val: string, c: char, r: Option<(string, string)>)
    ensures r.Some? ==> val + ([c] + r.value.0) == val + [c] + r.value.0
  {
  }

  /** The inner loop of parsePromLabels: reads a quoted value into a builder. */
  method ReadValue(s: string, start: nat) returns (closed: bool, val: string, i: nat)
    requires start <= |s|
    ensures start <= i <= |s|
    ensures var r := ScanValue(s[start..]);
            if closed then r == Some((val, s[i..])) else r.None?
  {
    val, i, closed := "", start, false;
    ghost var all := ScanValue(s[start..]);
    if all.Some? { assert "" + all.value.0 == all.value.0; }
    while i < |s| && !closed
      invariant start <= i <= |s|
      invariant !closed ==>
                  var r := ScanValue(s[i..]);
                  if r.None? then all.None? else all == Some((val + r.value.0, r.value.1))
      invariant closed ==> all == Some((val, s[i..]))
      decreases |s| - i, !closed
    {
      assert s[i..][1..] == s[i + 1..];
      if s[i] == '\\' && i + 1 < |s| && (s[i + 1] == '"' || s[i + 1] == '\\' || s[i + 1] == 'n') {
        assert s[i..][2..] == s[i + 2..] && IsEscape(s[i..]);
        AppendAssoc(val, if s[i + 1] == 'n' then '\n' else s[i + 1], ScanValue(s[i + 2..]));
        val := val + [if s[i + 1] == 'n' then '\n' else s[i + 1]];
        i := i + 2;
      } else if s[i] == '"' {
        assert val + "" == val;
        closed := true;
        i := i + 1;
      } else {
        AppendAssoc(val, s[i], ScanValue(s[i + 1..]));
        val := val + [s[i]];
        i := i + 1;
      }
    }
  }

  lemma SkipOne(s: string, i: nat)
    requires i <= |s|
    ensures i < |s| && (s[i] == ' ' || s[i] == ',') ==> SkipSeparators(s[i..]) == SkipSeparators(s[i + 1..])
    ensures !(i < |s| && (s[i] == ' ' || s[i] == ',')) ==> SkipSeparators(s[i..]) == s[i..]
  {
    if i < |s| { assert s[i..][1..] == s[i + 1..]; }
  }

  method SkipToKey(s: string, start: nat) returns (i: nat)
    requires start <= |s|
    ensures start <= i <= |s| && s[i..] == SkipSeparators(s[start..])
  {
    i := start;
    while i < |s| && (s[i] == ' ' || s[i] == ',')
      invariant start <= i <= |s|
      invariant SkipSeparators(s[i..]) == SkipSeparators(s[start..])
    {
      SkipOne(s, i);
      i := i + 1;
    }
    SkipOne(s, i);
  }

  /** One key="value" of a block, at an index where no separator stands. */
  method ReadLabel(s: string, at: nat, ghost labels: map<string, string>)
    returns (ok: bool, key: string, val: string, next: nat)
    requires at < |s| && SkipSeparators(s[at..]) == s[at..]
    ensures !ok ==> ParseLabels(s[at..], labels).None?
    ensures ok ==> at < next <= |s| && ParseLabels(s[at..], labels) == ParseLabels(s[next..], labels[key := val])
  {
    ok, key, val, next := false, "", "", at;
    var t := s[at..];
    if '=' !in t {
      return;
    }
    BeforeIsShorter(t, '=');
    var eq := |Before(t, '=')|;
    key := Trim(Before(t, '='));
    assert t[eq + 1..] == s[at + eq + 1..];
    if at + eq + 1 >= |s| || s[at + eq + 1] != '"' {
      return;
    }
    assert s[at + eq + 1..][1..] == s[at + eq + 2..];
    ok, val, next := ReadValue(s, at + eq + 2);
  }

  lemma SkipTwice(s: string)
    ensures SkipSeparators(SkipSeparators(s)) == SkipSeparators(s)
  {
  }

  lemma LabelsSkip(s: string, acc: map<string, string>)
    ensures ParseLabels(SkipSeparators(s), acc) == ParseLabels(s, acc)
  {
    SkipTwice(s);
  }

  /** parsePromLabels, with the source's index. */
  method ParsePromLabels(s: string) returns (r: Option<map<string, string>>)
    ensures r == ParseLabels(s, map[])
  {
    var labels: map<string, string> := map[];
    var i := 0;
    assert s[0..] == s;
    while i < |s|
      invariant 0 <= i <= |s|
      invariant ParseLabels(s[i..], labels) == ParseLabels(s, map[])
      decreases |s| - i
    {
      var at := SkipToKey(s, i);
      SkipTwice(s[i..]);
      LabelsSkip(s[i..], labels);
      if at >= |s| {
        return Some(labels);
      }
      var ok, key, val, next := ReadLabel(s, at, labels);
      if !ok {
        return None;
      }
      labels := labels[key := val];
      i := next;
    }
    return Some(labels);
  }

  /** parsePromLine. */
  method ParsePromLine(line: string) returns (r: Option<Sample>)
    ensures r == ParseLine(line)
  {
    if '{' !in line {
      var fields := Fields(line);
      if |fields| != 2 {
        return None;
      }
      return Some(Sample(fields[0], map[], fields[1]));
    }
    BeforeIsShorter(line, '{');
    var name := Before(line, '{');
    FindCloseInBounds(line[|name| + 1..], false, false);
    var close := FindLabelClose(line, |name|);
    if close < 0 {
      return None;
    }
    assert line[|name| + 1..][..close - |name| - 1] == line[|name| + 1..close];
    assert line[|name| + 1..][close - |name|..] == line[close + 1..];
    var labels := ParsePromLabels(line[|name| + 1..close]);
    if labels.None? {
      return None;
    }
    var fields := Fields(line[close + 1..]);
    if fields == [] {
      return None;
    }
    return Some(Sample(Trim(name), labels.value, fields[0]));
  }
}
