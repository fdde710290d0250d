/** Character classes and string operations with Python's meaning: `str.strip`,
    `str.find`, `in` on strings, `str.split` on one separator, `int()` of a string,
    `float()` of a run of digits and points, and `str()` of an integer. */
module Text {
  import opened Wrappers

  /** Python's `str.isspace()`, which is also what `\s` matches in a `str` pattern. */
  predicate IsSpace(c: char) {
    c == ' ' || ('\t' <= c <= '\r') || ('\U{1C}' <= c <= '\U{1F}')
    || c == '\U{85}' || c == '\U{A0}' || c == '\U{1680}'
    || ('\U{2000}' <= c <= '\U{200A}')
    || c == '\U{2028}' || c == '\U{2029}' || c == '\U{202F}' || c == '\U{205F}' || c == '\U{3000}'
  }

  /** The class `[0-9]`. */
  predicate IsDigit(c: char) {
    '0' <= c <= '9'
  }

  /** The class `[A-Za-z]`. */
  predicate IsAsciiLetter(c: char) {
    ('a' <= c <= 'z') || ('A' <= c <= 'Z')
  }

  /** `\w` restricted to ASCII: letters, digits and the underscore. */
  predicate IsWordChar(c: char) {
    IsAsciiLetter(c) || IsDigit(c) || c == '_'
  }

  /** The class `[0-9.]` of the numeric patterns. */
  predicate IsNumChar(c: char) {
    IsDigit(c) || c == '.'
  }

  predicate AllDigits(s: string) {
    forall i | 0 <= i < |s| :: IsDigit(s[i])
  }

  function Upper(c: char): (u: char)
    ensures 'a' <= c <= 'z' ==> 'A' <= u <= 'Z' && u as int == c as int - 32
    ensures !('a' <= c <= 'z') ==> u == c
  {
    if 'a' <= c <= 'z' then (c as int - 32) as char else c
  }

  function Lower(c: char): (l: char)
    ensures 'A' <= c <= 'Z' ==> 'a' <= l <= 'z' && l as int == c as int + 32
    ensures !('A' <= c <= 'Z') ==> l == c
  {
    if 'A' <= c <= 'Z' then (c as int + 32) as char else c
  }

  /** `str.upper()` on the ASCII letters; every other character is kept. */
  function UpperStr(s: string): (u: string)
    ensures |u| == |s|
    ensures forall i | 0 <= i < |s| :: u[i] == Upper(s[i])
  {
    seq(|s|, i requires 0 <= i < |s| => Upper(s[i]))
  }

  /** `str.lower()` on the ASCII letters; every other character is kept. */
  function LowerStr(s: string): (l: string)
    ensures |l| == |s|
    ensures forall i | 0 <= i < |s| :: l[i] == Lower(s[i])
  {
    seq(|s|, i requires 0 <= i < |s| => Lower(s[i]))
  }

  predicate StartsWith(s: string, p: string) {
    |p| <= |s| && s[..|p|] == p
  }

  /** Python's `p in s`. */
  predicate Contains(s: string, p: string)
    decreases |s|
  {
    StartsWith(s, p) || (|s| > 0 && Contains(s[1..], p))
  }

  lemma ContainsAt(s: string, p: string, i: nat)
    requires i + |p| <= |s| && s[i..i + |p|] == p
    ensures Contains(s, p)
    decreases i
  {
    if i > 0 {
      assert s[1..][i - 1..i - 1 + |p|] == s[i..i + |p|];
      ContainsAt(s[1..], p, i - 1);
    }
  }

  lemma ContainsWitness(s: string, p: string) returns (i: nat)
    requires Contains(s, p)
    ensures i + |p| <= |s| && s[i..i + |p|] == p
    decreases |s|
  {
    if StartsWith(s, p) {
      i := 0;
    } else {
      var j := ContainsWitness(s[1..], p);
      assert s[1..][j..j + |p|] == s[j + 1..j + 1 + |p|];
      i := j + 1;
    }
  }

  /** `p` occurs in `s` at index `k`. */
  predicate OccursAt(s: string, p: string, k: nat) {
    k + |p| <= |s| && s[k..k + |p|] == p
  }

  /** Python's `s.find(p, start)`: the first index at or after `start` where `p`
      occurs, or -1. */
  function Find(s: string, p: string, start: nat): (r: int)
    ensures r == -1 || (start <= r && OccursAt(s, p, r))
    ensures r == -1 ==> forall k: nat | start <= k :: !OccursAt(s, p, k)
    ensures r != -1 ==> forall k: nat | start <= k < r :: !OccursAt(s, p, k)
    decreases |s| - start
  {
    if start + |p| > |s| then -1
    else if s[start..start + |p|] == p then start
    else Find(s, p, start + 1)
  }

  /** The number of leading characters of `s` that are whitespace. */
  function LeadingSpace(s: string): (n: nat)
    ensures n <= |s|
    ensures forall k | 0 <= k < n :: IsSpace(s[k])
    ensures n < |s| ==> !IsSpace(s[n])
    decreases |s|
  {
    if |s| > 0 && IsSpace(s[0]) then 1 + LeadingSpace(s[1..]) else 0
  }

  /** The number of trailing characters of `s` that are whitespace. */
  function TrailingSpace(s: string): (n: nat)
    ensures n <= |s|
    ensures forall k | |s| - n <= k < |s| :: IsSpace(s[k])
    ensures n < |s| ==> !IsSpace(s[|s| - n - 1])
    decreases |s|
  {
    if |s| > 0 && IsSpace(s[|s| - 1]) then 1 + TrailingSpace(s[..|s| - 1]) else 0
  }

  /** Python's `str.strip()`: drops leading and trailing whitespace only. */
  function Strip(s: string): (r: string)
    ensures LeadingSpace(s) + |r| <= |s|
    ensures r == s[LeadingSpace(s)..LeadingSpace(s) + |r|]
    ensures r != [] ==> !IsSpace(r[0]) && !IsSpace(r[|r| - 1])
    ensures forall k | 0 <= k < LeadingSpace(s) :: IsSpace(s[k])
    ensures forall k | LeadingSpace(s) + |r| <= k < |s| :: IsSpace(s[k])
  {
    var t := s[LeadingSpace(s)..];
    t[..|t| - TrailingSpace(t)]
  }

  lemma StripNoSpace(s: string)
    requires s == [] || (!IsSpace(s[0]) && !IsSpace(s[|s| - 1]))
    ensures Strip(s) == s
  {
  }

  // ---------------------------------------------------------------------------
  // Integers and their decimal text

  function DigitValue(c: char): (d: nat)
    requires IsDigit(c)
    ensures d < 10
  {
    c as int - '0' as int
  }

  function DigitChar(d: nat): (c: char)
    requires d < 10
    ensures IsDigit(c) && DigitValue(c) == d
  {
    ('0' as int + d) as char
  }

  /** The value of a string of decimal digits, most significant first. */
  function DigitsValue(ds: string): nat
    requires AllDigits(ds)
    decreases |ds|
  {
    if ds == [] then 0 else DigitsValue(ds[..|ds| - 1]) * 10 + DigitValue(ds[|ds| - 1])
  }

  /** Python's `str(n)` for a natural number. */
  function NatToString(n: nat): (s: string)
    ensures |s| > 0 && AllDigits(s)
    ensures DigitsValue(s) == n
    ensures n > 0 ==> s[0] != '0'
    decreases n
  {
    if n < 10 then [DigitChar(n)]
    else
      var s := NatToString(n / 10) + [DigitChar(n % 10)];
      assert s[..|s| - 1] == NatToString(n / 10);
      s
  }

  /** Python's `str(n)` for any integer. */
  function IntToString(n: int): (s: string)
    ensures |s| > 0
    ensures n >= 0 ==> s == NatToString(n)
    ensures n < 0 ==> s == "-" + NatToString(-n)
  {
    if n >= 0 then NatToString(n) else "-" + NatToString(-n)
  }

  /** The digit groups `int()` accepts: digits with single underscores between them. */
  predicate IsUnderscoredDigits(s: string) {
    |s| > 0 && IsDigit(s[0]) && IsDigit(s[|s| - 1])
    && (forall i | 0 <= i < |s| :: IsDigit(s[i]) || s[i] == '_')
    && (forall i | 0 <= i < |s| - 1 :: !(s[i] == '_' && s[i + 1] == '_'))
  }

  function RemoveUnderscores(s: string): (r: string)
    requires forall i | 0 <= i < |s| :: IsDigit(s[i]) || s[i] == '_'
    ensures AllDigits(r)
    ensures |r| <= |s|
    ensures AllDigits(s) ==> r == s
    decreases |s|
  {
    if s == [] then []
    else if s[0] == '_' then RemoveUnderscores(s[1..])
    else [s[0]] + RemoveUnderscores(s[1..])
  }

  /** Python's `int(s)` on a string: surrounding whitespace, an optional sign and
      digit groups joined by single underscores; `None` stands for `ValueError`. */
  function ParsePyInt(s: string): (r: Option<int>)
    ensures r.Some? ==> exists i | 0 <= i < |s| :: IsDigit(s[i])
  {
    var t := Strip(s);
    var negative := |t| > 0 && t[0] == '-';
    var body := if |t| > 0 && (t[0] == '-' || t[0] == '+') then t[1..] else t;
    if IsUnderscoredDigits(body) then
      var v: int := DigitsValue(RemoveUnderscores(body));
      assert IsDigit(body[0]);
      assert body[0] == s[LeadingSpace(s) + (|t| - |body|)];
      Some(if negative then -v else v)
    else None
  }

  lemma DigitsNotSpace(s: string)
    requires AllDigits(s)
    ensures s == [] || (!IsSpace(s[0]) && !IsSpace(s[|s| - 1]))
  {
  }

  lemma UnderscoredOfDigits(s: string)
    requires |s| > 0 && AllDigits(s)
    ensures IsUnderscoredDigits(s)
  {
  }

  /** `int(str(n)) == n`: the decimal text of an integer parses back to it. */
  lemma ParseIntToString(n: int)
    ensures ParsePyInt(IntToString(n)) == Some(n)
  {
    var d := NatToString(if n >= 0 then n else -n);
    DigitsNotSpace(d);
    UnderscoredOfDigits(d);
    if n >= 0 {
      StripNoSpace(d);
      assert d[0] != '-' && d[0] != '+';
    } else {
      var s := "-" + d;
      StripNoSpace(s);
      assert s[1..] == d;
    }
  }

  // ---------------------------------------------------------------------------
  // float() of a numeric run

  function CountChar(s: string, c: char): (n: nat)
    ensures n <= |s|
    decreases |s|
  {
    if s == [] then 0 else (if s[0] == c then 1 else 0) + CountChar(s[1..], c)
  }

  function IndexOfChar(s: string, c: char): (i: nat)
    ensures i <= |s|
    ensures i < |s| ==> s[i] == c
    ensures forall k | 0 <= k < i :: s[k] != c
    decreases |s|
  {
    if s == [] then 0 else if s[0] == c then 0 else 1 + IndexOfChar(s[1..], c)
  }

  /** A run of `[0-9.]` that Python's `float()` accepts: at least one digit and at
      most one point. */
  predicate IsDecimalRun(s: string) {
    (forall i | 0 <= i < |s| :: IsNumChar(s[i]))
    && CountChar(s, '.') <= 1
    && exists i | 0 <= i < |s| :: IsDigit(s[i])
  }

  function Pow10(k: nat): (p: nat)
    ensures p >= 1
  {
    if k == 0 then 1 else 10 * Pow10(k - 1)
  }

  lemma CountZeroNoChar(s: string, c: char)
    requires CountChar(s, c) == 0
    ensures forall i | 0 <= i < |s| :: s[i] != c
    decreases |s|
  {
    if s != [] {
      CountZeroNoChar(s[1..], c);
      assert forall i | 1 <= i < |s| :: s[i] == s[1..][i - 1];
    }
  }

  lemma CountSplit(s: string, c: char, i: nat)
    requires i < |s| && s[i] == c
    ensures CountChar(s, c) == CountChar(s[..i], c) + 1 + CountChar(s[i + 1..], c)
    decreases i
  {
    if i > 0 {
      CountSplit(s[1..], c, i - 1);
      assert s[1..][..i - 1] == s[1..i];
      assert s[1..][i..] == s[i + 1..];
      assert s[..i][1..] == s[1..i];
    }
  }

  /** Python's `float(s)` for a string matching `-?[0-9.]+`; `None` stands for the
      `ValueError` it raises on "." or "1.2.3". Other spellings `float()` accepts
      (exponents, "inf") never reach it. */
  function FloatOfRun(s: string): (r: Option<real>)
    ensures (|s| > 0 && s[0] == '-') ==> (r.Some? <==> IsDecimalRun(s[1..]))
    ensures (|s| == 0 || s[0] != '-') ==> (r.Some? <==> IsDecimalRun(s))
    ensures r.Some? && (|s| == 0 || s[0] != '-') ==> r.value >= 0.0
  {
    var negative := |s| > 0 && s[0] == '-';
    var body := if negative then s[1..] else s;
    if IsDecimalRun(body) then
      var v := DecimalValue(body);
      Some(if negative then -v else v)
    else None
  }

  /** The digits before the point of a decimal run, and those after it. */
  lemma DecimalDigits(body: string, p: nat)
    requires IsDecimalRun(body) && p == IndexOfChar(body, '.')
    ensures AllDigits(body[..p])
    ensures p < |body| ==> AllDigits(body[p + 1..])
  {
    var whole := body[..p];
    assert forall i | 0 <= i < |whole| :: whole[i] == body[i];
    if p < |body| {
      var frac := body[p + 1..];
      assert forall i | 0 <= i < |frac| :: frac[i] == body[p + 1 + i];
      CountSplit(body, '.', p);
      CountZeroNoChar(frac, '.');
    }
  }

  /** The value of a run of digits with at most one point: the whole part plus the
      fraction's digits over the matching power of ten. */
  function DecimalValue(body: string): (v: real)
    requires IsDecimalRun(body)
    ensures v >= 0.0
  {
    var p := IndexOfChar(body, '.');
    DecimalDigits(body, p);
    var frac := if p < |body| then body[p + 1..] else [];
    var f := DigitsValue(frac) as real;
    var d := Pow10(|frac|) as real;
    assert f / d >= 0.0;
    DigitsValue(body[..p]) as real + f / d
  }

  /** `float(str(n)) == n` for the digit string of a natural number. */
  lemma FloatOfNatString(n: nat)
    ensures FloatOfRun(NatToString(n)) == Some(n as real)
  {
    var s := NatToString(n);
    assert forall i | 0 <= i < |s| :: s[i] != '.';
    CountNone(s, '.');
    assert IsDigit(s[0]);
    assert IndexOfChar(s, '.') == |s|;
    assert s[..|s|] == s;
  }

  lemma CountNone(s: string, c: char)
    requires forall i | 0 <= i < |s| :: s[i] != c
    ensures CountChar(s, c) == 0
    decreases |s|
  {
    if s != [] {
      assert forall i | 0 <= i < |s| - 1 :: s[1..][i] == s[i + 1];
      CountNone(s[1..], c);
    }
  }

  // ---------------------------------------------------------------------------
  // split and join on one character

  function Join(parts: seq<string>, sep: char): string
    decreases |parts|
  {
    if parts == [] then []
    else if |parts| == 1 then parts[0]
    else parts[0] + [sep] + Join(parts[1..], sep)
  }

  /** Python's `s.split(sep)` for a one-character separator. */
  function Split(s: string, sep: char): (parts: seq<string>)
    ensures |parts| >= 1
    ensures Join(parts, sep) == s
    ensures forall k | 0 <= k < |parts| :: forall i | 0 <= i < |parts[k]| :: parts[k][i] != sep
    ensures |parts| == CountChar(s, sep) + 1
    decreases |s|
  {
    var i := IndexOfChar(s, sep);
    if i == |s| then
      CountNone(s, sep);
      [s]
    else
      var rest := Split(s[i + 1..], sep);
      CountSplit(s, sep, i);
      CountNone(s[..i], sep);
      assert s[..i] + [sep] + s[i + 1..] == s;
      [s[..i]] + rest
  }

  /** A piece without the separator, then the separator: the piece is the first
      part and the rest is split on its own. */
  lemma {:induction false} SplitCons(l: string, rest: string, sep: char)
    requires forall j | 0 <= j < |l| :: l[j] != sep
    ensures Split(l + [sep] + rest, sep) == [l] + Split(rest, sep)
  {
    var s := l + [sep] + rest;
    IndexAfterPiece(l, rest, sep);
    assert s[..|l|] == l;
    assert s[|l| + 1..] == rest;
  }

  lemma {:induction false} IndexAfterPiece(l: string, rest: string, sep: char)
    requires forall j | 0 <= j < |l| :: l[j] != sep
    ensures IndexOfChar(l + [sep] + rest, sep) == |l|
    decreases |l|
  {
    if l != [] {
      assert (l + [sep] + rest)[1..] == l[1..] + [sep] + rest;
      IndexAfterPiece(l[1..], rest, sep);
    }
  }

  /** Text without the separator splits into itself alone. */
  lemma SplitNone(s: string, sep: char)
    requires forall j | 0 <= j < |s| :: s[j] != sep
    ensures Split(s, sep) == [s]
  {
    IndexNone(s, sep);
  }

  lemma {:induction false} IndexNone(s: string, sep: char)
    requires forall j | 0 <= j < |s| :: s[j] != sep
    ensures IndexOfChar(s, sep) == |s|
    decreases |s|
  {
    if s != [] {
      IndexNone(s[1..], sep);
    }
  }

  /** Splitting a joined text gives the parts back when no part holds the
      separator. */
  lemma {:induction false} JoinSplit(parts: seq<string>, sep: char)
    requires |parts| >= 1
    requires forall k, i | 0 <= k < |parts| && 0 <= i < |parts[k]| :: parts[k][i] != sep
    ensures Split(Join(parts, sep), sep) == parts
    decreases |parts|
  {
    if |parts| == 1 {
      SplitNone(parts[0], sep);
    } else {
      var tail := parts[1..];
      assert forall k | 0 <= k < |tail| :: tail[k] == parts[k + 1];
      JoinSplit(tail, sep);
      SplitCons(parts[0], Join(tail, sep), sep);
      assert parts == [parts[0]] + tail;
    }
  }
}
