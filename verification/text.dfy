/** The JavaScript string operations the extension relies on, on `string`
    (a sequence of characters). */
module Text {
  import opened Wrappers

  predicate StartsWith(s: string, prefix: string) {
    |prefix| <= |s| && s[..|prefix|] == prefix
  }

  predicate OccursAt(s: string, pattern: string, i: nat) {
    i + |pattern| <= |s| && s[i..i + |pattern|] == pattern
  }

  /** The leftmost occurrence of `pattern` at or after position `from`. */
  function IndexFrom(s: string, pattern: string, from: nat): (r: Option<nat>)
    requires from <= |s|
    decreases |s| - from
    ensures r.Some? ==> from <= r.value && OccursAt(s, pattern, r.value)
    ensures r.Some? ==> forall j :: from <= j < r.value ==> !OccursAt(s, pattern, j)
    ensures r.None? ==> forall j :: from <= j <= |s| ==> !OccursAt(s, pattern, j)
  {
    if from + |pattern| > |s| then None
    else if s[from..from + |pattern|] == pattern then Some(from)
    else IndexFrom(s, pattern, from + 1)
  }

  /** `s.indexOf(pattern)`, with "not found" as `None`. */
  function IndexOf(s: string, pattern: string): (r: Option<nat>)
    ensures r.Some? ==> OccursAt(s, pattern, r.value)
    ensures r.Some? ==> forall j :: 0 <= j < r.value ==> !OccursAt(s, pattern, j)
    ensures r.None? ==> forall j :: 0 <= j <= |s| ==> !OccursAt(s, pattern, j)
  {
    IndexFrom(s, pattern, 0)
  }

  /** `s.includes(pattern)`. */
  predicate Contains(s: string, pattern: string) {
    IndexOf(s, pattern).Some?
  }

  /** `s.replace(pattern, replacement)` with a string pattern: only the first
      occurrence is replaced. */
  function ReplaceFirst(s: string, pattern: string, replacement: string): (r: string)
    ensures !Contains(s, pattern) ==> r == s
    ensures Contains(s, pattern) ==> |r| == |s| - |pattern| + |replacement|
  {
    match IndexOf(s, pattern)
    case None => s
    case Some(i) => s[..i] + replacement + s[i + |pattern|..]
  }

  /** The characters JavaScript's `trim` and `parseInt` treat as white space:
      WhiteSpace and LineTerminator of ECMA-262, section 12.2 and 12.3. */
  predicate IsSpace(c: char) {
    c == '\U{9}' || c == '\U{B}' || c == '\U{C}' || c == ' ' || c == '\U{A0}'
    || c == '\U{FEFF}' || c == '\U{1680}' || ('\U{2000}' <= c <= '\U{200A}')
    || c == '\U{202F}' || c == '\U{205F}' || c == '\U{3000}'
    || c == '\n' || c == '\r' || c == '\U{2028}' || c == '\U{2029}'
  }

  predicate AllSpace(s: string) {
    forall i :: 0 <= i < |s| ==> IsSpace(s[i])
  }

  /** Number of leading white-space characters. */
  function LeadingSpace(s: string): (k: nat)
    ensures k <= |s| && AllSpace(s[..k])
    ensures k < |s| ==> !IsSpace(s[k])
  {
    if |s| == 0 || !IsSpace(s[0]) then 0
    else
      var k := 1 + LeadingSpace(s[1..]);
      assert s[..k] == [s[0]] + s[1..][..k - 1];
      k
  }

  /** Length of `s` once trailing white space is removed. */
  function TrailingStop(s: string): (k: nat)
    ensures k <= |s| && AllSpace(s[k..])
    ensures k > 0 ==> !IsSpace(s[k - 1])
  {
    if |s| == 0 || !IsSpace(s[|s| - 1]) then |s|
    else
      var k := TrailingStop(s[..|s| - 1]);
      assert s[k..] == s[..|s| - 1][k..] + [s[|s| - 1]];
      k
  }

  /** `s.trim()`. */
  function Trim(s: string): (r: string)
    ensures r == "" <==> AllSpace(s)
    ensures r != "" ==> !IsSpace(r[0]) && !IsSpace(r[|r| - 1])
    ensures |r| <= |s|
  {
    var a := LeadingSpace(s);
    var rest := s[a..];
    var b := TrailingStop(rest);
    if b == 0 then
      assert AllSpace(rest) by { assert rest[0..] == rest; }
      assert a == |s|;
      assert AllSpace(s) by { assert s[..a] == s; }
      ""
    else
      assert !IsSpace(rest[0]);
      assert !AllSpace(s) by { assert s[a] == rest[0]; }
      rest[..b]
  }

  /** Trimming a trimmed string changes nothing. */
  lemma TrimIdempotent(s: string)
    ensures Trim(Trim(s)) == Trim(s)
  {
    var t := Trim(s);
    if t != "" {
      assert LeadingSpace(t) == 0;
      assert TrailingStop(t[0..]) == |t| by { assert t[0..] == t; }
      assert t[0..][..|t|] == t;
    }
  }

  /** ASCII upper-case letters are folded; everything else is kept. */
  function LowerChar(c: char): char {
    if 'A' <= c <= 'Z' then (c as int + 32) as char else c
  }

  function UpperChar(c: char): char {
    if 'a' <= c <= 'z' then (c as int - 32) as char else c
  }

  /** `s.toLowerCase()` restricted to ASCII letters. */
  function ToLower(s: string): (r: string)
    ensures |r| == |s|
    ensures forall i :: 0 <= i < |s| ==> r[i] == LowerChar(s[i])
  {
    if s == "" then "" else [LowerChar(s[0])] + ToLower(s[1..])
  }

  /** `s.toUpperCase()` restricted to ASCII letters. */
  function ToUpper(s: string): (r: string)
    ensures |r| == |s|
    ensures forall i :: 0 <= i < |s| ==> r[i] == UpperChar(s[i])
  {
    if s == "" then "" else [UpperChar(s[0])] + ToUpper(s[1..])
  }

  predicate IsDigit(c: char) {
    '0' <= c <= '9'
  }

  predicate AllDigits(s: string) {
    forall i :: 0 <= i < |s| ==> IsDigit(s[i])
  }

  function DigitChar(d: nat): (c: char)
    requires d < 10
    ensures IsDigit(c)
  {
    ('0' as int + d) as char
  }

  /** The value of a string of decimal digits. */
  function DigitsValue(s: string): (n: nat)
    requires AllDigits(s)
  {
    if s == "" then 0
    else DigitsValue(s[..|s| - 1]) * 10 + (s[|s| - 1] as int - '0' as int)
  }

  /** `String(n)` for a non-negative integer: its decimal digits, no leading
      zero. */
  function NatToString(n: nat): (r: string)
    ensures |r| >= 1 && AllDigits(r)
    ensures r[0] == '0' ==> n == 0
  {
    if n < 10 then [DigitChar(n)]
    else NatToString(n / 10) + [DigitChar(n % 10)]
  }

  /** Reading back the decimal digits of `n` gives `n`. */
  lemma {:induction false} NatToStringRoundTrip(n: nat)
    ensures DigitsValue(NatToString(n)) == n
  {
    var s := NatToString(n);
    if n >= 10 {
      NatToStringRoundTrip(n / 10);
      assert s[..|s| - 1] == NatToString(n / 10);
    } else {
      assert s[..0] == "";
    }
  }

  /** `String(x)` for an integer. */
  function IntToString(x: int): (r: string)
    ensures r != ""
  {
    if x < 0 then "-" + NatToString(-x) else NatToString(x)
  }

  /** `String(x)` is one-to-one on integers. */
  lemma IntToStringInjective(a: int, b: int)
    requires IntToString(a) == IntToString(b)
    ensures a == b
  {
    IntToStringSign(a);
    IntToStringSign(b);
    var na: nat := if a < 0 then -a else a;
    var nb: nat := if b < 0 then -b else b;
    assert NatToString(na) == NatToString(nb);
    NatToStringRoundTrip(na);
    NatToStringRoundTrip(nb);
  }

  /** `String(x)` starts with a minus sign exactly for a negative `x`,
      followed by the digits of its magnitude. */
  lemma IntToStringSign(x: int)
    ensures (IntToString(x)[0] == '-') == (x < 0)
    ensures x < 0 ==> IntToString(x)[1..] == NatToString(-x)
    ensures x >= 0 ==> IntToString(x) == NatToString(x)
  {
    var d := if x < 0 then NatToString(-x) else NatToString(x);
    assert IsDigit(d[0]);
  }

  /** The first separator of a separator-free head, the separator and a
      tail is the one after the head. */
  lemma FirstSeparator(h: string, t: string, sep: char)
    requires sep !in h
    ensures IndexOf(h + [sep] + t, [sep]) == Some(|h|)
  {
    var s := h + [sep] + t;
    assert s[|h|..|h| + 1] == [sep];
    assert OccursAt(s, [sep], |h|);
    forall j | 0 <= j < |h| ensures !OccursAt(s, [sep], j) {
      assert s[j..j + 1] == [h[j]];
      assert h[j] != sep;
    }
    var r := IndexOf(s, [sep]);
    assert r.Some?;
    assert r.value >= |h|;
  }

  /** Two strings each made of a separator-free head, the separator and a
      tail are equal only when heads and tails are. */
  lemma SplitAtSeparator(h1: string, t1: string, h2: string, t2: string, sep: char)
    requires sep !in h1 && sep !in h2
    requires h1 + [sep] + t1 == h2 + [sep] + t2
    ensures h1 == h2 && t1 == t2
  {
    var s := h1 + [sep] + t1;
    FirstSeparator(h1, t1, sep);
    FirstSeparator(h2, t2, sep);
    assert h1 == s[..|h1|] == h2;
    assert t1 == s[|h1| + 1..] == t2;
  }

  /** Length of the maximal run of digits at the start of `s`. */
  function LeadingDigits(s: string): (k: nat)
    ensures k <= |s| && AllDigits(s[..k])
    ensures k < |s| ==> !IsDigit(s[k])
  {
    if |s| == 0 || !IsDigit(s[0]) then 0
    else
      var k := 1 + LeadingDigits(s[1..]);
      assert s[..k] == [s[0]] + s[1..][..k - 1];
      k
  }

  /** `Number.parseInt(s, 10)`: leading white space, an optional sign, then
      the longest run of decimal digits; `None` stands for NaN. */
  function ParseInt(s: string): (r: Option<int>)
    ensures r.None? ==> LeadingDigits(s[LeadingSpace(s)..]) == 0
                        || s[LeadingSpace(s)] in "+-"
  {
    var body := s[LeadingSpace(s)..];
    var negative := |body| > 0 && body[0] == '-';
    var unsigned := if |body| > 0 && (body[0] == '-' || body[0] == '+') then body[1..] else body;
    var k := LeadingDigits(unsigned);
    if k == 0 then None
    else
      var v := DigitsValue(unsigned[..k]);
      Some(if negative then -(v as int) else v as int)
  }

  /** Parsing the decimal form of a natural number gives it back. */
  lemma ParseIntOfNatToString(n: nat)
    ensures ParseInt(NatToString(n)) == Some(n)
  {
    ParseIntOfDigits(NatToString(n));
    NatToStringRoundTrip(n);
  }

  /** A non-empty run of digits parses to its value. */
  lemma ParseIntOfDigits(s: string)
    requires s != "" && AllDigits(s)
    ensures ParseInt(s) == Some(DigitsValue(s))
  {
    assert IsDigit(s[0]);
    assert !IsSpace(s[0]) && s[0] != '-' && s[0] != '+';
    assert LeadingSpace(s) == 0;
    assert s[0..] == s;
    LeadingDigitsOfDigits(s);
    assert s[..|s|] == s;
  }

  lemma {:induction false} LeadingDigitsOfDigits(s: string)
    requires AllDigits(s)
    ensures LeadingDigits(s) == |s|
  {
    if |s| > 0 {
      LeadingDigitsOfDigits(s[1..]);
    }
  }

  /** `s.split(sep)` with a one-character separator. */
  function Split(s: string, sep: char): (r: seq<string>)
    ensures |r| >= 1
    ensures forall i :: 0 <= i < |r| ==> sep !in r[i]
    decreases |s|
  {
    match IndexOf(s, [sep])
    case None =>
      assert sep !in s by {
        forall i | 0 <= i < |s| ensures s[i] != sep { assert !OccursAt(s, [sep], i); }
      }
      [s]
    case Some(i) =>
      assert sep !in s[..i] by {
        forall j | 0 <= j < i ensures s[j] != sep { assert !OccursAt(s, [sep], j); }
      }
      [s[..i]] + Split(s[i + 1..], sep)
  }

  /** `parts.join(sep)`; the empty list joins to the empty string. */
  function Join(parts: seq<string>, sep: char): (r: string)
  {
    if |parts| == 0 then ""
    else if |parts| == 1 then parts[0]
    else parts[0] + [sep] + Join(parts[1..], sep)
  }

  /** Splitting and joining with the same separator gives back the string. */
  lemma {:induction false} JoinSplit(s: string, sep: char)
    ensures Join(Split(s, sep), sep) == s
    decreases |s|
  {
    match IndexOf(s, [sep])
    case None =>
    case Some(i) =>
      JoinSplit(s[i + 1..], sep);
      assert s[i..i + 1] == [sep];
      assert s == s[..i] + [sep] + s[i + 1..];
  }

  /** What `[head, ...rest] = s.split(sep); rest.join(sep)` yields: everything
      after the first separator, or nothing when there is none. */
  lemma RestAfterFirstSeparator(s: string, sep: char)
    ensures IndexOf(s, [sep]).None? ==> Join(Split(s, sep)[1..], sep) == ""
    ensures IndexOf(s, [sep]).Some? ==>
      Join(Split(s, sep)[1..], sep) == s[IndexOf(s, [sep]).value + 1..]
    ensures Split(s, sep)[0] == (if IndexOf(s, [sep]).Some? then s[..IndexOf(s, [sep]).value] else s)
  {
    match IndexOf(s, [sep])
    case None =>
    case Some(i) =>
      JoinSplit(s[i + 1..], sep);
      assert Split(s, sep)[1..] == Split(s[i + 1..], sep);
  }

  /** JavaScript's reading of a `slice` bound: negative counts from the end,
      and the result is clamped to the string. */
  function SliceBound(x: int, len: nat): (k: nat)
    ensures k <= len
    ensures 0 <= x <= len ==> k == x
  {
    if x < 0 then (if len + x < 0 then 0 else len + x)
    else if x > len then len
    else x
  }

  /** `s.slice(from, to)`: never fails, empty when the bounds cross. */
  function Slice(s: string, from: int, to: int): (r: string)
    ensures |r| <= |s|
    ensures 0 <= from <= to <= |s| ==> r == s[from..to]
    ensures SliceBound(from, |s|) >= SliceBound(to, |s|) ==> r == ""
  {
    var f := SliceBound(from, |s|);
    var t := SliceBound(to, |s|);
    if f >= t then "" else s[f..t]
  }

  /** A suffix cut at two points is the three pieces in order. */
  lemma SplitThree(t: string, a: nat, b: nat, c: nat)
    requires a <= b <= c <= |t|
    ensures t[a..] == t[a..b] + t[b..c] + t[c..]
  {
    assert t[a..] == t[a..b] + t[b..];
    assert t[b..] == t[b..c] + t[c..];
  }
}
