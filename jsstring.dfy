/**
 * The few JavaScript string operations the extension relies on, written out
 * over `seq<char>`: `trim`, `split`, `join`, `indexOf`, `includes`,
 * `replace` with a string pattern, `toLowerCase` and number-to-text.
 */
module JsString {
  import opened Wrappers

  /** The characters `String.prototype.trim` removes: WhiteSpace and LineTerminator of ECMAScript. */
  predicate IsWhitespace(c: char) {
    || c == '\t' || c == '\n' || c == '\U{000B}' || c == '\U{000C}' || c == '\r' || c == ' '
    || c == '\U{00A0}' || c == '\U{1680}' || ('\U{2000}' <= c <= '\U{200A}')
    || c == '\U{2028}' || c == '\U{2029}' || c == '\U{202F}' || c == '\U{205F}'
    || c == '\U{3000}' || c == '\U{FEFF}'
  }

  /** A string made of whitespace only (the empty string included). */
  predicate IsBlank(s: string) {
    forall i :: 0 <= i < |s| ==> IsWhitespace(s[i])
  }

  /** `s.trimStart()`. */
  function TrimStart(s: string): string {
    if |s| > 0 && IsWhitespace(s[0]) then TrimStart(s[1..]) else s
  }

  /** `s.trimEnd()`. */
  function TrimEnd(s: string): string {
    if |s| > 0 && IsWhitespace(s[|s| - 1]) then TrimEnd(s[..|s| - 1]) else s
  }

  /** `s.trim()`. */
  function Trim(s: string): string {
    TrimEnd(TrimStart(s))
  }

  /** `trimStart` drops the leading whitespace and nothing else. */
  lemma {:induction false} TrimStartSpec(s: string)
    ensures |TrimStart(s)| <= |s| && TrimStart(s) == s[|s| - |TrimStart(s)|..]
    ensures IsBlank(s[..|s| - |TrimStart(s)|])
    ensures TrimStart(s) == [] || !IsWhitespace(TrimStart(s)[0])
  {
    if |s| > 0 && IsWhitespace(s[0]) {
      TrimStartSpec(s[1..]);
      var n := |s| - |TrimStart(s)|;
      assert s[1..][n - 1..] == s[n..];
      forall i | 0 <= i < n ensures IsWhitespace(s[..n][i]) {
        if i == 0 {
          assert s[..n][i] == s[0];
        } else {
          assert s[..n][i] == s[1..][..n - 1][i - 1];
          assert IsWhitespace(s[1..][..n - 1][i - 1]);
        }
      }
    }
  }

  /** `trimEnd` drops the trailing whitespace and nothing else. */
  lemma {:induction false} TrimEndSpec(s: string)
    ensures |TrimEnd(s)| <= |s| && TrimEnd(s) == s[..|TrimEnd(s)|]
    ensures IsBlank(s[|TrimEnd(s)|..])
    ensures TrimEnd(s) == [] || !IsWhitespace(TrimEnd(s)[|TrimEnd(s)| - 1])
  {
    if |s| > 0 && IsWhitespace(s[|s| - 1]) {
      TrimEndSpec(s[..|s| - 1]);
      var n := |TrimEnd(s)|;
      assert s[..|s| - 1][..n] == s[..n];
      forall i | 0 <= i < |s| - n ensures IsWhitespace(s[n..][i]) {
        if i < |s| - 1 - n {
          assert s[n..][i] == s[..|s| - 1][n..][i];
        }
      }
    }
  }

  /** Only a blank string loses everything to `trimStart`. */
  lemma {:induction false} TrimStartEmptyIffBlank(s: string)
    ensures TrimStart(s) == "" <==> IsBlank(s)
  {
    if |s| > 0 && IsWhitespace(s[0]) {
      TrimStartEmptyIffBlank(s[1..]);
      assert IsBlank(s) <==> IsBlank(s[1..]) by {
        assert forall j :: 0 <= j < |s| - 1 ==> s[1..][j] == s[j + 1];
      }
    }
  }

  /** Only a blank string loses everything to `trimEnd`. */
  lemma {:induction false} TrimEndEmptyIffBlank(s: string)
    ensures TrimEnd(s) == "" <==> IsBlank(s)
  {
    if |s| > 0 && IsWhitespace(s[|s| - 1]) {
      TrimEndEmptyIffBlank(s[..|s| - 1]);
      assert IsBlank(s) <==> IsBlank(s[..|s| - 1]) by {
        assert forall j :: 0 <= j < |s| - 1 ==> s[..|s| - 1][j] == s[j];
      }
    }
  }

  /** `s.trim() === ''` holds exactly of the blank strings. */
  lemma TrimEmptyIffBlank(s: string)
    ensures Trim(s) == "" <==> IsBlank(s)
  {
    TrimStartEmptyIffBlank(s);
    TrimEndEmptyIffBlank(TrimStart(s));
    TrimStartEmptyIffBlank(TrimStart(s));
    TrimStartIdempotent(s);
  }

  lemma {:induction false} TrimStartIdempotent(s: string)
    ensures TrimStart(TrimStart(s)) == TrimStart(s)
  {
    if |s| > 0 && IsWhitespace(s[0]) {
      TrimStartIdempotent(s[1..]);
    }
  }

  /** Trimming a string that neither starts nor ends with whitespace leaves it alone. */
  lemma TrimUnpadded(s: string)
    requires s != [] && !IsWhitespace(s[0]) && !IsWhitespace(s[|s| - 1])
    ensures Trim(s) == s
  {
  }

  /** Concatenation regroups freely (stated once so that long appends stay cheap to check). */
  lemma ConcatAssoc<T>(a: seq<T>, b: seq<T>, c: seq<T>)
    ensures (a + b) + c == a + (b + c)
  {
  }

  /** The index of the first `c` in `s`. */
  function FirstIndexOfChar(s: string, c: char): (i: nat)
    requires c in s
    ensures i < |s| && s[i] == c && c !in s[..i]
  {
    if s[0] == c then 0 else 1 + FirstIndexOfChar(s[1..], c)
  }

  /** `parts.join(sep)`; the empty array joins to the empty string. */
  function Join(parts: seq<string>, sep: char): string {
    if |parts| == 0 then ""
    else if |parts| == 1 then parts[0]
    else parts[0] + [sep] + Join(parts[1..], sep)
  }

  /**
   * `s.split(sep)` for a one-character separator: the pieces between the
   * separators, always at least one, and joining them back gives `s`.
   */
  function Split(s: string, sep: char): (parts: seq<string>)
    ensures |parts| >= 1
    ensures forall k :: 0 <= k < |parts| ==> sep !in parts[k]
    ensures Join(parts, sep) == s
    ensures |parts| == 1 <==> sep !in s
    decreases |s|
  {
    if sep !in s then [s]
    else
      var i := FirstIndexOfChar(s, sep);
      assert s == s[..i] + [sep] + s[i + 1..];
      [s[..i]] + Split(s[i + 1..], sep)
  }

  /** Splitting `a + sep + b` where `a` holds no separator yields `a` and then the pieces of `b`. */
  lemma SplitCons(a: string, sep: char, b: string)
    requires sep !in a
    ensures Split(a + [sep] + b, sep) == [a] + Split(b, sep)
  {
    var s := a + [sep] + b;
    assert s[..|a|] == a;
    assert s[|a|] == sep;
    var i := FirstIndexOfChar(s, sep);
    assert forall j :: 0 <= j < |a| ==> s[j] == a[j];
    assert i <= |a| by {
      assert forall j :: 0 <= j < i ==> s[..i][j] == s[j];
    }
    assert s[..i] == a;
    assert s[i + 1..] == b;
  }

  /** Every piece of a blank string is blank. */
  lemma {:induction false} SplitBlank(s: string, sep: char)
    requires IsBlank(s)
    ensures forall k :: 0 <= k < |Split(s, sep)| ==> IsBlank(Split(s, sep)[k])
    decreases |s|
  {
    if sep in s {
      var i := FirstIndexOfChar(s, sep);
      var rest := s[i + 1..];
      assert IsBlank(rest) by {
        forall j | 0 <= j < |rest| ensures IsWhitespace(rest[j]) {
          assert rest[j] == s[i + 1 + j];
        }
      }
      SplitBlank(rest, sep);
      var parts := Split(s, sep);
      assert parts == [s[..i]] + Split(rest, sep);
      forall k | 0 <= k < |parts| ensures IsBlank(parts[k]) {
        if k == 0 {
          forall j | 0 <= j < i ensures IsWhitespace(s[..i][j]) {
            assert s[..i][j] == s[j];
          }
        } else {
          assert parts[k] == Split(rest, sep)[k - 1];
        }
      }
    }
  }

  /** `p` occurs in `s` at index `i`. */
  predicate OccursAt(s: string, p: string, i: nat) {
    i + |p| <= |s| && s[i..i + |p|] == p
  }

  /** `s.indexOf(p, from)`, searching from index `from` on; `None` stands for -1. */
  function IndexOfFrom(s: string, p: string, from: nat): (r: Option<nat>)
    ensures r.Some? ==> from <= r.value && OccursAt(s, p, r.value)
    ensures r.Some? ==> forall j :: from <= j < r.value ==> !OccursAt(s, p, j)
    ensures r.None? ==> forall j :: from <= j ==> !OccursAt(s, p, j)
    decreases |s| - from
  {
    if from + |p| > |s| then None
    else if s[from..from + |p|] == p then Some(from)
    else IndexOfFrom(s, p, from + 1)
  }

  /** `s.indexOf(p)`: the first index at which `p` occurs. */
  function IndexOf(s: string, p: string): (r: Option<nat>)
    ensures r.Some? <==> exists j :: OccursAt(s, p, j)
    ensures r.Some? ==> OccursAt(s, p, r.value) && forall j :: 0 <= j < r.value ==> !OccursAt(s, p, j)
  {
    IndexOfFrom(s, p, 0)
  }

  /** `s.includes(p)`. */
  predicate Includes(s: string, p: string) {
    IndexOf(s, p).Some?
  }

  /**
   * `s.replace(p, v)` with a string pattern: the first occurrence of `p` is
   * replaced by `v`; without an occurrence `s` is returned. The `$` patterns
   * that `replace` expands in `v` are not modelled, hence the precondition.
   */
  function ReplaceFirst(s: string, p: string, v: string): string
    requires '$' !in v
  {
    match IndexOf(s, p)
    case None => s
    case Some(i) => s[..i] + v + s[i + |p|..]
  }

  /** Without an occurrence of `p`, `replace` returns the text unchanged. */
  lemma ReplaceFirstAbsent(s: string, p: string, v: string)
    requires '$' !in v
    requires forall j :: !OccursAt(s, p, j)
    ensures ReplaceFirst(s, p, v) == s
  {
  }

  /** With its first occurrence at `i`, `replace` splices `v` in there and keeps the rest. */
  lemma ReplaceFirstAt(s: string, p: string, v: string, i: nat)
    requires '$' !in v
    requires OccursAt(s, p, i) && forall j: nat :: j < i ==> !OccursAt(s, p, j)
    ensures ReplaceFirst(s, p, v) == s[..i] + v + s[i + |p|..]
  {
    var first := IndexOf(s, p);
    assert first.Some?;
    assert !(i < first.value);
    assert !(first.value < i);
  }

  /** One character of `toLowerCase`, for the ASCII letters. */
  function LowerChar(c: char): char {
    if 'A' <= c <= 'Z' then (c as int + 32) as char else c
  }

  /** `s.toLowerCase()` over ASCII: every upper-case letter is replaced by its lower-case one. */
  function LowerCase(s: string): (r: string)
    ensures |r| == |s|
    ensures forall i :: 0 <= i < |r| ==> !('A' <= r[i] <= 'Z')
    ensures forall i :: 0 <= i < |s| && !('A' <= s[i] <= 'Z') ==> r[i] == s[i]
    ensures forall i :: 0 <= i < |s| && 'A' <= s[i] <= 'Z' ==> r[i] == (s[i] as int + 32) as char
  {
    seq(|s|, i requires 0 <= i < |s| => LowerChar(s[i]))
  }

  /** Lower-casing twice is lower-casing once, so a lower-cased key looks itself up. */
  lemma LowerCaseIdempotent(s: string)
    ensures LowerCase(LowerCase(s)) == LowerCase(s)
  {
  }

  function DigitChar(d: nat): char
    requires d < 10
  {
    ('0' as int + d) as char
  }

  predicate IsDigit(c: char) {
    '0' <= c <= '9'
  }

  /** `String(n)` for a natural number: its decimal digits, without leading zeros. */
  function NatToString(n: nat): (r: string)
    ensures |r| >= 1 && forall i :: 0 <= i < |r| ==> IsDigit(r[i])
    ensures n > 0 ==> r[0] != '0'
  {
    if n < 10 then [DigitChar(n)] else NatToString(n / 10) + [DigitChar(n % 10)]
  }

  /** `String(i)` for an integer. */
  function IntToString(i: int): (r: string)
    ensures i < 0 <==> (|r| > 0 && r[0] == '-')
  {
    if i < 0 then "-" + NatToString(-i) else NatToString(i)
  }

  function DigitValue(c: char): nat
    requires IsDigit(c)
  {
    c as int - '0' as int
  }

  /** The value of a string of decimal digits, as `Number` reads it. */
  function ParseNat(s: string): nat
    requires forall i :: 0 <= i < |s| ==> IsDigit(s[i])
  {
    if |s| == 0 then 0 else 10 * ParseNat(s[..|s| - 1]) + DigitValue(s[|s| - 1])
  }

  /**
   * `Number.MAX_SAFE_INTEGER`: up to it a JavaScript number holds every
   * integer exactly, and `String(n)` writes it in plain decimal digits.
   */
  const MaxSafeInteger: nat := 9007199254740991

  /** Reading back the decimal text of `n` gives `n`, for a number JavaScript holds exactly. */
  lemma {:induction false} ParseNatToString(n: nat)
    requires n <= MaxSafeInteger
    ensures ParseNat(NatToString(n)) == n
  {
    var s := NatToString(n);
    if n >= 10 {
      ParseNatToString(n / 10);
      var front := NatToString(n / 10);
      assert s == front + [DigitChar(n % 10)];
      assert s[..|s| - 1] == front;
      assert ParseNat(s) == 10 * ParseNat(front) + n % 10;
    } else {
      assert s[..0] == [];
    }
  }

  /** Decimal digits as `String(n)` writes them: at least one, and no leading zero unless the number is 0. */
  predicate CanonicalDigits(d: string) {
    && |d| >= 1
    && (forall i :: 0 <= i < |d| ==> IsDigit(d[i]))
    && (|d| == 1 || d[0] != '0')
  }

  lemma {:induction false} ParseNatPositive(d: string)
    requires |d| >= 1 && (forall i :: 0 <= i < |d| ==> IsDigit(d[i])) && d[0] != '0'
    ensures ParseNat(d) > 0
  {
    if |d| > 1 {
      var front := d[..|d| - 1];
      assert front[0] == d[0];
      ParseNatPositive(front);
    }
  }

  /** Digits written as `String(n)` writes them are the text of the number they denote. */
  lemma {:induction false} ToStringParseNat(d: string)
    requires CanonicalDigits(d) && ParseNat(d) <= MaxSafeInteger
    ensures NatToString(ParseNat(d)) == d
  {
    var last := d[|d| - 1];
    var front := d[..|d| - 1];
    if |d| == 1 {
      assert front == [];
      assert DigitChar(DigitValue(last)) == last;
    } else {
      assert front[0] == d[0];
      ToStringParseNat(front);
      ParseNatPositive(front);
      var n := ParseNat(d);
      assert n == 10 * ParseNat(front) + DigitValue(last);
      assert n / 10 == ParseNat(front) && n % 10 == DigitValue(last);
      assert DigitChar(DigitValue(last)) == last;
      assert d == front + [last];
    }
  }
}
