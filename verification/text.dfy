/** The Python string built-ins the server relies on, over `string`
    (`seq<char>`): `strip`, `split`, `join`, `startswith`, `removeprefix`,
    `removesuffix`, `lower`, `splitlines`, and `int()` / `str()` on
    base-10 integers written with ASCII digits and an optional sign. */
module Text {
  import opened Wrappers

  predicate IsDigit(c: char) { '0' <= c <= '9' }

  /** The characters `str.strip()` removes by default that lie in the ASCII
      and Latin-1 ranges. */
  predicate IsSpace(c: char) {
    c == ' ' || c == '\t' || c == '\n' || c == '\r' || c == '\U{0B}' || c == '\U{0C}'
    || ('\U{1C}' <= c <= '\U{1F}') || c == '\U{85}' || c == '\U{A0}'
  }

  /** The characters of `str.strip("'\"")`. */
  predicate IsQuote(c: char) { c == '\'' || c == '"' }

  /** Drops the leading characters that satisfy `drop`. */
  function TrimLeft(s: string, drop: char -> bool): (r: string)
    ensures |r| <= |s| && r == s[|s| - |r|..]
    ensures r == [] || !drop(r[0])
    ensures forall i :: 0 <= i < |s| - |r| ==> drop(s[i])
    decreases |s|
  {
    if s != [] && drop(s[0]) then TrimLeft(s[1..], drop) else s
  }

  /** Drops the trailing characters that satisfy `drop`. */
  function TrimRight(s: string, drop: char -> bool): (r: string)
    ensures |r| <= |s| && r == s[..|r|]
    ensures r == [] || !drop(r[|r| - 1])
    ensures forall i :: |r| <= i < |s| ==> drop(s[i])
    decreases |s|
  {
    if s != [] && drop(s[|s| - 1]) then TrimRight(s[..|s| - 1], drop) else s
  }

  /** `s.strip()` */
  function Strip(s: string): string {
    TrimRight(TrimLeft(s, IsSpace), IsSpace)
  }

  /** `s.strip("'\"")` */
  function StripQuotes(s: string): string {
    TrimRight(TrimLeft(s, IsQuote), IsQuote)
  }

  /** A string that neither starts nor ends with whitespace is its own strip. */
  lemma StripUnchanged(s: string)
    requires s == [] || (!IsSpace(s[0]) && !IsSpace(s[|s| - 1]))
    ensures Strip(s) == s
  {
  }

  /** Stripping twice is stripping once. */
  lemma StripIdempotent(s: string)
    ensures Strip(Strip(s)) == Strip(s)
  {
    var t := Strip(s);
    var l := TrimLeft(s, IsSpace);
    if t != [] {
      assert t[0] == l[0];
    }
    StripUnchanged(t);
  }

  /** `s.split(sep)` for a one-character separator: always at least one piece. */
  function Split(s: string, sep: char): (r: seq<string>)
    ensures |r| >= 1
    decreases |s|
  {
    if s == [] then [[]]
    else
      var rest := Split(s[1..], sep);
      if s[0] == sep then [[]] + rest
      else [[s[0]] + rest[0]] + rest[1..]
  }

  /** `sep.join(parts)` */
  function Join(parts: seq<string>, sep: string): string
    decreases |parts|
  {
    if |parts| == 0 then []
    else if |parts| == 1 then parts[0]
    else parts[0] + sep + Join(parts[1..], sep)
  }

  /** Joining one more piece appends the separator and the piece. */
  lemma {:induction false} JoinSnoc(parts: seq<string>, last: string, sep: string)
    ensures Join(parts + [last], sep) == if parts == [] then last else Join(parts, sep) + sep + last
    decreases |parts|
  {
    if |parts| == 1 {
      assert parts + [last] == [parts[0], last];
      assert [parts[0], last][1..] == [last];
    } else if |parts| > 1 {
      assert (parts + [last])[1..] == parts[1..] + [last];
      JoinSnoc(parts[1..], last, sep);
    }
  }

  /** Splitting and joining again with the same separator gives back the string. */
  lemma {:induction false} SplitJoin(s: string, sep: char)
    ensures Join(Split(s, sep), [sep]) == s
    decreases |s|
  {
    if s != [] {
      var rest := Split(s[1..], sep);
      SplitJoin(s[1..], sep);
      if s[0] == sep {
        assert Split(s, sep) == [[]] + rest;
        assert s == [sep] + s[1..];
      } else {
        var r := Split(s, sep);
        assert r == [[s[0]] + rest[0]] + rest[1..];
        if |rest| == 1 {
          assert Join(r, [sep]) == [s[0]] + rest[0];
        } else {
          assert Join(rest, [sep]) == rest[0] + [sep] + Join(rest[1..], [sep]);
          assert r[1..] == rest[1..];
        }
        assert s == [s[0]] + s[1..];
      }
    }
  }

  /** No piece of a split contains the separator. */
  lemma {:induction false} SplitPiecesFree(s: string, sep: char)
    ensures forall k :: 0 <= k < |Split(s, sep)| ==> sep !in Split(s, sep)[k]
    decreases |s|
  {
    if s != [] {
      SplitPiecesFree(s[1..], sep);
    }
  }

  /** A string without the separator splits into itself alone. */
  lemma {:induction false} SplitNoSeparator(s: string, sep: char)
    requires sep !in s
    ensures Split(s, sep) == [s]
    decreases |s|
  {
    if s != [] {
      SplitNoSeparator(s[1..], sep);
      assert s == [s[0]] + s[1..];
    }
  }

  /** Splitting `a + sep + b` gives the pieces of `a` followed by those of `b`. */
  lemma {:induction false} SplitAppend(a: string, b: string, sep: char)
    ensures Split(a + [sep] + b, sep) == Split(a, sep) + Split(b, sep)
    decreases |a|
  {
    var s := a + [sep] + b;
    if a == [] {
      assert s[1..] == b;
    } else {
      assert s[1..] == a[1..] + [sep] + b;
      SplitAppend(a[1..], b, sep);
    }
  }

  /** The position of the first `c` in `s`. */
  function IndexOf(s: string, c: char): (i: nat)
    requires c in s
    ensures i < |s| && s[i] == c && c !in s[..i]
    decreases |s|
  {
    if s[0] == c then 0 else 1 + IndexOf(s[1..], c)
  }

  /** `s.split(c, 1)` when `c` occurs in `s`: the text before and after its first occurrence. */
  function SplitOnce(s: string, c: char): (r: (string, string))
    requires c in s
    ensures c !in r.0 && r.0 + [c] + r.1 == s
  {
    var i := IndexOf(s, c);
    assert s == s[..i] + [c] + s[i + 1..];
    (s[..i], s[i + 1..])
  }

  /** Splitting at the first `c` finds the `c` placed after a `c`-free prefix. */
  lemma SplitOnceAt(a: string, b: string, c: char)
    requires c !in a
    ensures c in a + [c] + b
    ensures SplitOnce(a + [c] + b, c) == (a, b)
  {
    var s := a + [c] + b;
    assert s[|a|] == c;
    var i := IndexOf(s, c);
    assert forall j :: 0 <= j < |a| ==> s[j] == a[j] && s[j] != c;
    assert forall j :: 0 <= j < i ==> s[..i][j] == s[j] && s[j] != c;
    assert i == |a|;
    assert s[..i] == a && s[i + 1..] == b;
  }

  predicate StartsWith(s: string, prefix: string) {
    |prefix| <= |s| && s[..|prefix|] == prefix
  }

  predicate EndsWith(s: string, suffix: string) {
    |suffix| <= |s| && s[|s| - |suffix|..] == suffix
  }

  /** `s.removeprefix(prefix)` */
  function RemovePrefix(s: string, prefix: string): (r: string)
    ensures StartsWith(s, prefix) ==> prefix + r == s
    ensures !StartsWith(s, prefix) ==> r == s
  {
    if StartsWith(s, prefix) then s[|prefix|..] else s
  }

  /** `s.removesuffix(suffix)` */
  function RemoveSuffix(s: string, suffix: string): (r: string)
    ensures EndsWith(s, suffix) ==> r + suffix == s
    ensures !EndsWith(s, suffix) ==> r == s
  {
    if EndsWith(s, suffix) then s[..|s| - |suffix|] else s
  }

  function LowerChar(c: char): char {
    if 'A' <= c <= 'Z' then (c as int + 32) as char else c
  }

  /** `s.lower()` on the ASCII letters. */
  function Lower(s: string): (r: string)
    ensures |r| == |s|
  {
    seq(|s|, i requires 0 <= i < |s| => LowerChar(s[i]))
  }

  /** The last piece of a split is empty exactly when the text is empty or
      ends with the separator. */
  lemma LastPieceEmpty(s: string, sep: char)
    ensures var p := Split(s, sep); p[|p| - 1] == [] <==> s == [] || s[|s| - 1] == sep
  {
    var p := Split(s, sep);
    if s != [] && s[|s| - 1] == sep {
      var init := s[..|s| - 1];
      assert s == init + [sep] + [];
      SplitAppend(init, [], sep);
    }
    if p[|p| - 1] == [] {
      var front := p[..|p| - 1];
      assert p == front + [[]];
      SplitJoin(s, sep);
      JoinSnoc(front, [], [sep]);
    }
  }

  /** `text.splitlines()` when '\n' is the only line break: the pieces of
      `split("\n")`, without the empty piece after a final line break, so
      the empty text has no lines and a final line break adds no line. */
  function SplitLines(text: string): (r: seq<string>)
    ensures forall k :: 0 <= k < |r| ==> '\n' !in r[k]
    ensures text == Join(r, "\n") || text == Join(r, "\n") + "\n"
    ensures r == [] <==> text == []
    ensures text != [] && text[|text| - 1] == '\n' ==> text == Join(r, "\n") + "\n"
    ensures (text == [] || text[|text| - 1] != '\n') ==> text == Join(r, "\n")
  {
    var pieces := Split(text, '\n');
    SplitPiecesFree(text, '\n');
    SplitJoin(text, '\n');
    LastPieceEmpty(text, '\n');
    if pieces[|pieces| - 1] == [] then
      var r := pieces[..|pieces| - 1];
      assert pieces == r + [[]];
      JoinSnoc(r, [], "\n");
      if text != [] then
        var init := text[..|text| - 1];
        assert text == init + "\n" + [];
        SplitAppend(init, [], '\n');
        assert r == Split(init, '\n');
        SplitJoin(init, '\n');
        r
      else r
    else pieces
  }

  predicate AllDigits(s: string) {
    forall i :: 0 <= i < |s| ==> IsDigit(s[i])
  }

  function DigitValue(c: char): nat
    requires IsDigit(c)
  {
    c as int - '0' as int
  }

  function DigitChar(d: nat): (c: char)
    requires d < 10
    ensures IsDigit(c) && DigitValue(c) == d
  {
    ('0' as int + d) as char
  }

  /** The number a string of decimal digits denotes. */
  function DigitsValue(s: string): nat
    requires AllDigits(s)
    decreases |s|
  {
    if s == [] then 0 else 10 * DigitsValue(s[..|s| - 1]) + DigitValue(s[|s| - 1])
  }

  /** `str(n)` for a non-negative integer. */
  function NatToString(n: nat): (r: string)
    ensures r != [] && AllDigits(r)
  {
    if n < 10 then [DigitChar(n)] else NatToString(n / 10) + [DigitChar(n % 10)]
  }

  /** Reading back the decimal rendering of `n` gives `n`. */
  lemma {:induction false} NatToStringRoundTrip(n: nat)
    ensures DigitsValue(NatToString(n)) == n
  {
    if n >= 10 {
      var s := NatToString(n);
      assert s[..|s| - 1] == NatToString(n / 10);
      NatToStringRoundTrip(n / 10);
    }
  }

  /** `str(n)` for any integer. */
  function IntToString(n: int): (r: string)
    ensures r != []
  {
    if n < 0 then "-" + NatToString(-n) else NatToString(n)
  }

  /** The value of a non-empty run of decimal digits. */
  function Magnitude(digits: string): Option<nat> {
    if digits != [] && AllDigits(digits) then Some(DigitsValue(digits)) else None
  }

  /** An optionally signed run of decimal digits, with nothing around it. */
  function ParseSigned(t: string): Option<int> {
    if t == [] || (t[0] != '+' && t[0] != '-') then
      match Magnitude(t)
      case None => None
      case Some(m) => Some(m as int)
    else
      match Magnitude(t[1..])
      case None => None
      case Some(m) => Some(if t[0] == '-' then -(m as int) else m as int)
  }

  /** `int(s)` for base-10 text: surrounding whitespace is ignored, one
      leading sign is allowed, and the rest must be a non-empty run of
      decimal digits; anything else fails. */
  function ParseInt(s: string): Option<int> {
    ParseSigned(Strip(s))
  }

  /** `int(str(n)) == n` for a non-negative `n`. */
  lemma ParseIntOfNatToString(n: nat)
    ensures ParseInt(NatToString(n)) == Some(n)
  {
    var s := NatToString(n);
    assert IsDigit(s[0]) && IsDigit(s[|s| - 1]);
    StripUnchanged(s);
    NatToStringRoundTrip(n);
  }

  /** `int()` reads a minus sign followed by digits as a negative number. */
  lemma NegativeDigits(t: string)
    requires |t| >= 2 && t[0] == '-' && AllDigits(t[1..])
    ensures ParseInt(t) == Some(-(DigitsValue(t[1..]) as int))
  {
    var digits := t[1..];
    assert IsDigit(t[|t| - 1]) by { assert t[|t| - 1] == digits[|t| - 2]; }
    StripUnchanged(t);
    MinusMagnitude(t, DigitsValue(digits));
  }

  /** A minus sign before a magnitude negates it. */
  lemma MinusMagnitude(t: string, m: nat)
    requires t != [] && t[0] == '-' && Magnitude(t[1..]) == Some(m)
    ensures ParseSigned(t) == Some(-(m as int))
  {
  }

  /** `int(str(n)) == n` */
  lemma ParseIntOfIntToString(n: int)
    ensures ParseInt(IntToString(n)) == Some(n)
  {
    if n < 0 {
      var t := IntToString(n);
      var digits := NatToString(-n);
      assert t[0] == '-' && t[1..] == digits;
      NegativeDigits(t);
      NatToStringRoundTrip(-n);
      assert DigitsValue(t[1..]) == -n;
    } else {
      ParseIntOfNatToString(n);
    }
  }

  /** A text that starts with a digit and has a character other than a
      digit further on is no signed number. */
  lemma NotSigned(t: string, i: int)
    requires 0 < i < |t| && IsDigit(t[0]) && !IsDigit(t[i])
    ensures ParseSigned(t) == None
  {
    assert !AllDigits(t);
  }

  /** `int()` rejects a text that starts and ends with a digit and has a
      character other than a digit in between. */
  lemma NotAnInt(t: string, i: int)
    requires 0 < i < |t| - 1 && IsDigit(t[0]) && IsDigit(t[|t| - 1]) && !IsDigit(t[i])
    ensures ParseInt(t) == None
  {
    StripUnchanged(t);
    NotSigned(t, i);
  }

  /** `int()` rejects two runs of digits joined by a dash: the dash is
      neither a sign in front nor a digit. */
  lemma DashedIsNotInt(x: string, y: string)
    requires x != [] && AllDigits(x) && y != [] && AllDigits(y)
    ensures ParseInt(x + "-" + y) == None
  {
    var t := x + "-" + y;
    var first, last := x[0], y[|y| - 1];
    assert IsDigit(first) && IsDigit(last);
    assert t[0] == first && t[|t| - 1] == last && t[|x|] == '-';
    NotAnInt(t, |x|);
  }
}
