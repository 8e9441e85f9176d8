/**
 * The handful of Python string operations the exporters use, written out
 * over `string` (a sequence of characters).
 */
module Text {

  /** Python's `a or b` on strings: `a` unless it is empty. */
  function OrElse(a: string, b: string): string {
    if a != "" then a else b
  }

  /** Python's `s[:n]`: the first `n` characters, or all of `s` when it is shorter. */
  function Take(s: string, n: nat): (r: string)
    ensures |r| == if |s| < n then |s| else n
    ensures r == s[..|r|]
  {
    if |s| <= n then s else s[..n]
  }

  /** Python's `s.split(sep)` with an explicit one-character separator. */
  function Split(s: string, sep: char): (parts: seq<string>)
    ensures |parts| >= 1
    ensures forall p <- parts :: sep !in p
    ensures sep !in s ==> parts == [s]
  {
    if |s| == 0 then [""]
    else
      var rest := Split(s[1..], sep);
      assert s == [s[0]] + s[1..];
      if s[0] == sep then [""] + rest
      else [[s[0]] + rest[0]] + rest[1..]
  }

  /** Python's `sep.join(parts)`. */
  function Join(parts: seq<string>, sep: char): string {
    if |parts| == 0 then ""
    else if |parts| == 1 then parts[0]
    else parts[0] + [sep] + Join(parts[1..], sep)
  }

  /** A join is empty only for no parts or one empty part. */
  lemma JoinEmpty(parts: seq<string>, sep: char)
    ensures Join(parts, sep) == "" <==> parts == [] || parts == [""]
  {
    if |parts| >= 2 {
      var j := Join(parts, sep);
      assert j == parts[0] + [sep] + Join(parts[1..], sep);
      assert j[|parts[0]|] == sep;
    }
  }

  /** Splitting and joining back gives the original string. */
  lemma {:induction false} JoinSplit(s: string, sep: char)
    ensures Join(Split(s, sep), sep) == s
  {
    if |s| > 0 {
      JoinSplit(s[1..], sep);
      var rest := Split(s[1..], sep);
      if s[0] == sep {
        assert s == [sep] + s[1..];
      } else {
        if |rest| == 1 {
          assert Join(rest, sep) == rest[0];
        } else {
          assert Join(rest, sep) == rest[0] + [sep] + Join(rest[1..], sep);
          assert ([[s[0]] + rest[0]] + rest[1..])[1..] == rest[1..];
        }
        assert s == [s[0]] + s[1..];
      }
    }
  }

  /** One step of `Split`: the first character either ends the first part or joins it. */
  lemma SplitCons(x: char, t: string, sep: char)
    ensures Split([x] + t, sep) ==
      if x == sep then [""] + Split(t, sep) else [[x] + Split(t, sep)[0]] + Split(t, sep)[1..]
  {
    assert ([x] + t)[1..] == t;
  }

  /** Splitting at a separator splits the two sides independently. */
  lemma {:induction false} SplitAppend(a: string, b: string, sep: char)
    ensures Split(a + [sep] + b, sep) == Split(a, sep) + Split(b, sep)
  {
    if a == [] {
      assert a + [sep] + b == [sep] + b;
      SplitCons(sep, b, sep);
    } else {
      SplitAppend(a[1..], b, sep);
      ConsShift(a[0], a[1..], [sep], b);
      assert a == [a[0]] + a[1..];
      SplitAppendStep(a[0], a[1..], b, sep);
    }
  }

  lemma ConsShift<T>(x: T, t: seq<T>, u: seq<T>, v: seq<T>)
    ensures [x] + t + u + v == [x] + (t + u + v)
  {
  }

  /** The inductive step of `SplitAppend`: one more character in front. */
  lemma SplitAppendStep(x: char, t: string, b: string, sep: char)
    requires Split(t + [sep] + b, sep) == Split(t, sep) + Split(b, sep)
    ensures Split([x] + (t + [sep] + b), sep) == Split([x] + t, sep) + Split(b, sep)
  {
    SplitCons(x, t + [sep] + b, sep);
    SplitCons(x, t, sep);
    if x == sep {
      ConsAssoc("", Split(t, sep), Split(b, sep));
    } else {
      GlueFirst([x], Split(t, sep), Split(b, sep));
    }
  }

  lemma AppendAssoc<T>(a: seq<T>, b: seq<T>, c: seq<T>)
    ensures a + (b + c) == a + b + c
  {
  }

  lemma ConsAssoc<T>(x: T, s: seq<T>, t: seq<T>)
    ensures [x] + (s + t) == ([x] + s) + t
  {
  }

  /** Gluing a prefix onto the first part commutes with appending more parts. */
  lemma GlueFirst(pre: string, st: seq<string>, sb: seq<string>)
    requires st != []
    ensures [pre + (st + sb)[0]] + (st + sb)[1..] == ([pre + st[0]] + st[1..]) + sb
  {
    assert (st + sb)[0] == st[0];
    assert (st + sb)[1..] == st[1..] + sb;
  }

  /** Joining parts without the separator and splitting again gives the parts back. */
  lemma {:induction false} SplitJoin(parts: seq<string>, sep: char)
    requires |parts| >= 1
    requires forall p <- parts :: sep !in p
    ensures Split(Join(parts, sep), sep) == parts
  {
    if |parts| > 1 {
      assert parts[1..][0] in parts;
      SplitJoin(parts[1..], sep);
      assert parts[0] in parts;
      SplitAppend(parts[0], Join(parts[1..], sep), sep);
      assert parts == [parts[0]] + parts[1..];
    } else {
      assert parts[0] in parts;
    }
  }

  /** Python's `s.split(sep)[-1]`: the text after the last separator. */
  function LastPart(s: string, sep: char): string {
    var parts := Split(s, sep);
    parts[|parts| - 1]
  }

  /** The last part is the longest suffix that holds no separator. */
  lemma {:induction false} LastPartIsSuffix(s: string, sep: char)
    ensures |LastPart(s, sep)| <= |s|
    ensures LastPart(s, sep) == s[|s| - |LastPart(s, sep)|..]
    ensures sep !in LastPart(s, sep)
    ensures |LastPart(s, sep)| < |s| ==> s[|s| - |LastPart(s, sep)| - 1] == sep
  {
    if |s| > 0 {
      LastPartIsSuffix(s[1..], sep);
      var rest := Split(s[1..], sep);
      var parts := Split(s, sep);
      if s[0] == sep {
        assert parts[|parts| - 1] == rest[|rest| - 1];
      } else if |rest| > 1 {
        assert parts[|parts| - 1] == rest[|rest| - 1];
      } else {
        JoinSplit(s[1..], sep);
        assert parts == [[s[0]] + rest[0]];
        assert s == [s[0]] + s[1..];
      }
    }
  }

  /** Python's `sub in s`. */
  predicate Contains(s: string, sub: string)
    decreases |s|
  {
    |sub| <= |s| && (s[..|sub|] == sub || Contains(s[1..], sub))
  }

  /** Python's `str.upper()` restricted to ASCII letters. */
  function UpperChar(c: char): char {
    if 'a' <= c <= 'z' then (c as int - 32) as char else c
  }

  function Upper(s: string): (r: string)
    ensures |r| == |s|
    ensures forall i :: 0 <= i < |s| ==> r[i] == UpperChar(s[i])
  {
    seq(|s|, i requires 0 <= i < |s| => UpperChar(s[i]))
  }

  /** The characters for which Python's `str.isspace()` is true. */
  predicate IsSpace(c: char) {
    || c == ' ' || '\t' <= c <= '\r' || '\U{1c}' <= c <= '\U{1f}' || c == '\U{85}' || c == '\U{a0}'
    || c == '\U{1680}' || '\U{2000}' <= c <= '\U{200a}' || c == '\U{2028}' || c == '\U{2029}'
    || c == '\U{202f}' || c == '\U{205f}' || c == '\U{3000}'
  }

  function TrimStart(s: string): (r: string)
    ensures |r| <= |s| && r == s[|s| - |r|..]
    ensures forall i :: 0 <= i < |s| - |r| ==> IsSpace(s[i])
    ensures r != [] ==> !IsSpace(r[0])
  {
    if s != [] && IsSpace(s[0]) then TrimStart(s[1..]) else s
  }

  function TrimEnd(s: string): (r: string)
    ensures |r| <= |s| && r == s[..|r|]
    ensures forall i :: |r| <= i < |s| ==> IsSpace(s[i])
    ensures r != [] ==> !IsSpace(r[|r| - 1])
  {
    if s != [] && IsSpace(s[|s| - 1]) then TrimEnd(s[..|s| - 1]) else s
  }

  /** Python's `s.strip()`: drop leading and trailing white space. */
  function Strip(s: string): string {
    TrimEnd(TrimStart(s))
  }

  /** A stripped string has no white space at either end, and it is empty exactly when `s` is all white space. */
  lemma StripProperties(s: string)
    ensures Strip(s) != [] ==> !IsSpace(Strip(s)[0]) && !IsSpace(Strip(s)[|Strip(s)| - 1])
    ensures Strip(s) == [] <==> forall i :: 0 <= i < |s| ==> IsSpace(s[i])
  {
    var t := TrimStart(s);
    if Strip(s) != [] {
      assert Strip(s)[0] == t[0];
    }
  }

  /** The text before the first `sep`, or all of `s`: `s.split(sep)[0]`. */
  function FirstPart(s: string, sep: char): (r: string)
    ensures r == Split(s, sep)[0]
    ensures |r| <= |s| && r == s[..|r|]
    ensures sep !in r
    ensures |r| < |s| ==> s[|r|] == sep
    ensures sep !in s ==> r == s
  {
    if |s| == 0 || s[0] == sep then "" else [s[0]] + FirstPart(s[1..], sep)
  }

  function DigitChar(d: int): char
    requires 0 <= d < 10
  {
    ('0' as int + d) as char
  }

  predicate IsDigit(c: char) {
    '0' <= c <= '9'
  }

  function DigitValue(c: char): int
    requires IsDigit(c)
  {
    c as int - '0' as int
  }

  /** Python's `str(n)` for a natural number. */
  function NatToString(n: nat): (s: string)
    ensures |s| >= 1 && forall c <- s :: IsDigit(c)
  {
    if n < 10 then [DigitChar(n)] else NatToString(n / 10) + [DigitChar(n % 10)]
  }

  /** The number a string of decimal digits denotes (Python's `int(s)`). */
  function DigitsValue(s: string): int
    requires forall c <- s :: IsDigit(c)
  {
    if s == [] then 0
    else
      assert forall c <- s[..|s| - 1] :: c in s;
      DigitsValue(s[..|s| - 1]) * 10 + DigitValue(s[|s| - 1])
  }

  /** `str(n)` is the decimal representation of `n`: it denotes `n` and has no leading zero. */
  lemma {:induction false} NatToStringValue(n: nat)
    ensures DigitsValue(NatToString(n)) == n
    ensures NatToString(n)[0] == '0' ==> n == 0
  {
    if n >= 10 {
      NatToStringValue(n / 10);
      var s := NatToString(n);
      assert s[..|s| - 1] == NatToString(n / 10);
      assert s[0] == NatToString(n / 10)[0];
    }
  }

  /** Python's `s.lstrip(ch)` for one character. */
  function LStripChar(s: string, ch: char): (r: string)
    ensures |r| <= |s| && r == s[|s| - |r|..]
    ensures forall i :: 0 <= i < |s| - |r| ==> s[i] == ch
    ensures r != [] ==> r[0] != ch
  {
    if s != [] && s[0] == ch then LStripChar(s[1..], ch) else s
  }

  /** Python's `s.rstrip(ch)` for one character. */
  function RStripChar(s: string, ch: char): (r: string)
    ensures |r| <= |s| && r == s[..|r|]
    ensures forall i :: |r| <= i < |s| ==> s[i] == ch
    ensures r != [] ==> r[|r| - 1] != ch
  {
    if s != [] && s[|s| - 1] == ch then RStripChar(s[..|s| - 1], ch) else s
  }

  /** Python's `s.strip(ch)` for one character: drop every leading and every trailing `ch`. */
  function StripChar(s: string, ch: char): (r: string)
    ensures r != [] ==> r[0] != ch && r[|r| - 1] != ch
    ensures (s != [] && s[0] != ch && s[|s| - 1] != ch) ==> r == s
  {
    var u := LStripChar(s, ch);
    var r := RStripChar(u, ch);
    assert r != [] ==> r[0] == u[0];
    r
  }

  /**
   * `strip(ch)` leaves the slice of `s` between its leading and its trailing
   * run of `ch`, and nothing else.
   */
  lemma StripCharSlice(s: string, ch: char) returns (i: nat)
    ensures i + |StripChar(s, ch)| <= |s| && StripChar(s, ch) == s[i..i + |StripChar(s, ch)|]
    ensures forall k :: 0 <= k < i ==> s[k] == ch
    ensures forall k :: i + |StripChar(s, ch)| <= k < |s| ==> s[k] == ch
  {
    var u := LStripChar(s, ch);
    i := |s| - |u|;
    var r := RStripChar(u, ch);
    assert StripChar(s, ch) == r;
    SliceOfSuffix(s, u, r, i, ch);
  }

  lemma SliceOfSuffix(s: string, u: string, r: string, i: nat, ch: char)
    requires i <= |s| && u == s[i..] && |r| <= |u| && r == u[..|r|]
    requires forall k :: |r| <= k < |u| ==> u[k] == ch
    ensures i + |r| <= |s| && r == s[i..i + |r|]
    ensures forall k :: i + |r| <= k < |s| ==> s[k] == ch
  {
    forall k | i + |r| <= k < |s| ensures s[k] == ch {
      assert s[k] == u[k - i];
    }
  }
}
