/** String splitting as strings.Split and strings.IndexByte do it. */
module Text {

  /** strings.Split on a one-byte separator: always at least one field. */
  function SplitOn(s: string, sep: char): (fields: seq<string>)
    ensures |fields| >= 1
  {
    if s == "" then [""]
    else
      var rest := SplitOn(s[1..], sep);
      if s[0] == sep then [""] + rest else [[s[0]] + rest[0]] + rest[1..]
  }

  function Join(fields: seq<string>, sep: char): string
    requires |fields| >= 1
  {
    if |fields| == 1 then fields[0] else fields[0] + [sep] + Join(fields[1..], sep)
  }

  lemma {:induction false} SplitFirst(a: string, sep: char, b: string)
    requires sep !in a
    ensures SplitOn(a + [sep] + b, sep) == [a] + SplitOn(b, sep)
  {
    var s := a + [sep] + b;
    if a == "" {
      assert s[1..] == b;
    } else {
      assert s[1..] == a[1..] + [sep] + b;
      SplitFirst(a[1..], sep, b);
      assert a == [a[0]] + a[1..];
    }
  }

  lemma {:induction false} SplitNone(a: string, sep: char)
    requires sep !in a
    ensures SplitOn(a, sep) == [a]
  {
    if a != "" {
      SplitNone(a[1..], sep);
      assert a == [a[0]] + a[1..];
    }
  }

  /** Splitting loses nothing: joining the fields gives the text back. */
  lemma {:induction false} JoinSplit(s: string, sep: char)
    ensures Join(SplitOn(s, sep), sep) == s
  {
    if s != "" {
      var rest := SplitOn(s[1..], sep);
      JoinSplit(s[1..], sep);
      if s[0] == sep {
        assert ([""] + rest)[1..] == rest;
      } else {
        var fields := [[s[0]] + rest[0]] + rest[1..];
        assert fields[1..] == rest[1..];
      }
    }
  }

  /** The part before the first occurrence of sep, or all of s. */
  function Before(s: string, sep: char): string {
    if s == "" || s[0] == sep then "" else [s[0]] + Before(s[1..], sep)
  }

  lemma {:induction false} BeforeFirst(a: string, sep: char, b: string)
    requires sep !in a
    ensures Before(a + [sep] + b, sep) == a
    ensures Before(a, sep) == a
  {
    var s := a + [sep] + b;
    if a != "" {
      assert s[1..] == a[1..] + [sep] + b;
      BeforeFirst(a[1..], sep, b);
      assert a == [a[0]] + a[1..];
    }
  }

  lemma {:induction false} BeforeIsShorter(s: string, c: char)
    ensures |Before(s, c)| <= |s|
    ensures c in s ==> |Before(s, c)| < |s| && s[|Before(s, c)|] == c
    ensures s[..|Before(s, c)|] == Before(s, c) && c !in Before(s, c)
  {
    if s != "" && s[0] != c { BeforeIsShorter(s[1..], c); }
  }

  /** Cutting at the first separator loses nothing else. */
  lemma CutAtFirst(s: string, c: char)
    requires c in s
    ensures |Before(s, c)| < |s| && c !in Before(s, c)
    ensures s == Before(s, c) + [c] + s[|Before(s, c)| + 1..]
  {
    BeforeIsShorter(s, c);
  }

  /** Decimal digits of a natural number (%d). */
  function Decimal(n: nat): string {
    if n < 10 then [(n + '0' as int) as char] else Decimal(n / 10) + [(n % 10 + '0' as int) as char]
  }

  /** The number a run of digits writes, leading zeros allowed. */
  function ReadDigits(s: string): nat {
    if s == "" then 0
    else
      var last := s[|s| - 1];
      ReadDigits(s[..|s| - 1]) * 10 + if '0' <= last <= '9' then (last as int) - ('0' as int) else 0
  }

  lemma {:induction false} DecimalRead(n: nat)
    ensures ReadDigits(Decimal(n)) == n && Decimal(n) != ""
    ensures forall c :: c in Decimal(n) ==> '0' <= c <= '9'
  {
    if n >= 10 {
      DecimalRead(n / 10);
      assert Decimal(n)[..|Decimal(n)| - 1] == Decimal(n / 10);
    } else {
      assert Decimal(n)[..0] == "";
    }
  }
}
