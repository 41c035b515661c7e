/**
 * ASCII string helpers shared by the model.  Strings are `seq<char>` and every
 * case conversion folds only the ASCII letters, which is what `to_lowercase`,
 * `to_uppercase` and `eq_ignore_ascii_case` do on ASCII input.
 */
module Text {
  import opened Wrappers

  function LowerChar(c: char): char {
    if 'A' <= c <= 'Z' then (c as int + 32) as char else c
  }

  function UpperChar(c: char): char {
    if 'a' <= c <= 'z' then (c as int - 32) as char else c
  }

  function Lower(s: string): (r: string)
    ensures |r| == |s|
    ensures forall i :: 0 <= i < |s| ==> r[i] == LowerChar(s[i])
  {
    seq(|s|, i requires 0 <= i < |s| => LowerChar(s[i]))
  }

  function Upper(s: string): (r: string)
    ensures |r| == |s|
    ensures forall i :: 0 <= i < |s| ==> r[i] == UpperChar(s[i])
  {
    seq(|s|, i requires 0 <= i < |s| => UpperChar(s[i]))
  }

  /** `a.eq_ignore_ascii_case(b)` */
  predicate EqIgnoreCase(a: string, b: string) {
    Lower(a) == Lower(b)
  }

  predicate StartsWith(s: string, prefix: string) {
    |prefix| <= |s| && s[..|prefix|] == prefix
  }

  predicate EndsWith(s: string, suffix: string) {
    |suffix| <= |s| && s[|s| - |suffix|..] == suffix
  }

  /** `sub` occurs in `s` starting at index `i`. */
  predicate OccursAt(s: string, sub: string, i: nat) {
    i + |sub| <= |s| && s[i..i + |sub|] == sub
  }

  /** `s.contains(sub)` */
  predicate Contains(s: string, sub: string) {
    exists i: nat | i <= |s| :: OccursAt(s, sub, i)
  }

  /** `s.find(sub)` searching from index `from` on. */
  function FindFrom(s: string, sub: string, from: nat): (r: Option<nat>)
    requires from <= |s|
    ensures r.Some? ==> from <= r.value && OccursAt(s, sub, r.value)
    ensures r.Some? ==> forall j: nat :: from <= j < r.value ==> !OccursAt(s, sub, j)
    ensures r.None? ==> forall j: nat :: from <= j ==> !OccursAt(s, sub, j)
    decreases |s| - from
  {
    if OccursAt(s, sub, from) then Some(from)
    else if from == |s| then None
    else FindFrom(s, sub, from + 1)
  }

  /** `s.find(sub)`: the first index where `sub` occurs. */
  function Find(s: string, sub: string): (r: Option<nat>)
    ensures r.Some? <==> Contains(s, sub)
    ensures r.Some? ==> OccursAt(s, sub, r.value)
    ensures r.Some? ==> forall j: nat :: j < r.value ==> !OccursAt(s, sub, j)
  {
    FindFrom(s, sub, 0)
  }

  /** Rust's `char::is_whitespace`: the Unicode `White_Space` property. */
  predicate IsWhitespace(c: char) {
    ('\U{9}' <= c <= '\U{D}') || c == ' ' || c == '\U{85}' || c == '\U{A0}' || c == '\U{1680}'
    || ('\U{2000}' <= c <= '\U{200A}') || c == '\U{2028}' || c == '\U{2029}' || c == '\U{202F}'
    || c == '\U{205F}' || c == '\U{3000}'
  }

  /** The length of the run of whitespace that starts `s`. */
  function LeadingWhitespace(s: string): (k: nat)
    ensures k <= |s|
    ensures forall i :: 0 <= i < k ==> IsWhitespace(s[i])
    ensures k < |s| ==> !IsWhitespace(s[k])
  {
    if s != [] && IsWhitespace(s[0]) then 1 + LeadingWhitespace(s[1..]) else 0
  }

  /** The length of the run of whitespace that ends `s`. */
  function TrailingWhitespace(s: string): (k: nat)
    ensures k <= |s|
    ensures forall i :: |s| - k <= i < |s| ==> IsWhitespace(s[i])
    ensures k < |s| ==> !IsWhitespace(s[|s| - k - 1])
  {
    if s != [] && IsWhitespace(s[|s| - 1]) then 1 + TrailingWhitespace(s[..|s| - 1]) else 0
  }

  /** `s.trim()` */
  function Trim(s: string): string {
    var k := LeadingWhitespace(s);
    s[k..|s| - TrailingWhitespace(s[k..])]
  }

  /** The length of the run of `c` that starts `s`. */
  function LeadingRun(s: string, c: char): (k: nat)
    ensures k <= |s|
    ensures forall i :: 0 <= i < k ==> s[i] == c
    ensures k < |s| ==> s[k] != c
  {
    if s != [] && s[0] == c then 1 + LeadingRun(s[1..], c) else 0
  }

  /** The length of the run of `c` that ends `s`. */
  function TrailingRun(s: string, c: char): (k: nat)
    ensures k <= |s|
    ensures forall i :: |s| - k <= i < |s| ==> s[i] == c
    ensures k < |s| ==> s[|s| - k - 1] != c
  {
    if s != [] && s[|s| - 1] == c then 1 + TrailingRun(s[..|s| - 1], c) else 0
  }

  /** `s.trim_matches(c)` */
  function TrimMatches(s: string, c: char): string {
    var k := LeadingRun(s, c);
    s[k..|s| - TrailingRun(s[k..], c)]
  }

  /** Trimming keeps a property every character of the input has. */
  lemma TrimKeeps(s: string, p: char -> bool)
    requires forall i :: 0 <= i < |s| ==> p(s[i])
    ensures forall i :: 0 <= i < |Trim(s)| ==> p(Trim(s)[i])
  {
  }

  lemma TrimMatchesKeeps(s: string, c: char, p: char -> bool)
    requires forall i :: 0 <= i < |s| ==> p(s[i])
    ensures forall i :: 0 <= i < |TrimMatches(s, c)| ==> p(TrimMatches(s, c)[i])
  {
  }

  /** A trimmed string neither starts nor ends with whitespace. */
  lemma TrimEnds(s: string)
    ensures var r := Trim(s); r != [] ==> !IsWhitespace(r[0]) && !IsWhitespace(r[|r| - 1])
  {
  }

  /** A string trimmed of `c` neither starts nor ends with `c`. */
  lemma TrimMatchesEnds(s: string, c: char)
    ensures var r := TrimMatches(s, c); r != [] ==> r[0] != c && r[|r| - 1] != c
  {
  }

  /** Trimming removes nothing from a string whose ends are not whitespace. */
  lemma TrimUntouched(s: string)
    requires s != [] ==> !IsWhitespace(s[0]) && !IsWhitespace(s[|s| - 1])
    ensures Trim(s) == s
  {
  }

  lemma TrimMatchesUntouched(s: string, c: char)
    requires s != [] ==> s[0] != c && s[|s| - 1] != c
    ensures TrimMatches(s, c) == s
  {
  }

  // ---------------------------------------------------------------------------
  // UTF-8 length (`str::len`)
  // ---------------------------------------------------------------------------

  /** Bytes UTF-8 needs for one scalar value. */
  function Utf8Width(c: char): nat {
    if c as int < 0x80 then 1 else if c as int < 0x800 then 2 else if c as int < 0x1_0000 then 3 else 4
  }

  /** `s.len()`: the length of `s` in UTF-8 bytes. */
  function Utf8Length(s: string): (n: nat)
    ensures |s| <= n <= 4 * |s|
  {
    if s == [] then 0 else Utf8Length(s[..|s| - 1]) + Utf8Width(s[|s| - 1])
  }

  /** ASCII text takes one byte per character. */
  lemma {:induction false} Utf8LengthAscii(s: string)
    requires forall i :: 0 <= i < |s| ==> s[i] as int < 0x80
    ensures Utf8Length(s) == |s|
  {
    if s != [] {
      Utf8LengthAscii(s[..|s| - 1]);
    }
  }

  /** Byte lengths add up over concatenation. */
  lemma {:induction false} Utf8LengthConcat(a: string, b: string)
    ensures Utf8Length(a + b) == Utf8Length(a) + Utf8Length(b)
    decreases |b|
  {
    if b != [] {
      var b' := b[..|b| - 1];
      assert (a + b)[..|a + b| - 1] == a + b';
      Utf8LengthConcat(a, b');
    } else {
      assert a + b == a;
    }
  }

  lemma Utf8LengthSplit(s: string, i: nat)
    requires i <= |s|
    ensures Utf8Length(s[..i]) + Utf8Length(s[i..]) == Utf8Length(s)
  {
    assert s == s[..i] + s[i..];
    Utf8LengthConcat(s[..i], s[i..]);
  }

  /** A slice is never longer in bytes than the string it is cut from. */
  lemma Utf8LengthSlice(s: string, i: nat, j: nat)
    requires i <= j <= |s|
    ensures Utf8Length(s[i..j]) <= Utf8Length(s)
  {
    var p := s[..j];
    Utf8LengthSplit(s, j);
    Utf8LengthSplit(p, i);
    assert p[i..] == s[i..j];
  }

  lemma TrimUtf8Length(s: string)
    ensures Utf8Length(Trim(s)) <= Utf8Length(s)
  {
    var k := LeadingWhitespace(s);
    Utf8LengthSlice(s, k, |s| - TrailingWhitespace(s[k..]));
  }

  lemma TrimMatchesUtf8Length(s: string, c: char)
    ensures Utf8Length(TrimMatches(s, c)) <= Utf8Length(s)
  {
    var k := LeadingRun(s, c);
    Utf8LengthSlice(s, k, |s| - TrailingRun(s[k..], c));
  }

  /** Longer prefixes take strictly more bytes: each byte offset starts at most one prefix. */
  lemma Utf8PrefixIncreasing(s: string, i: nat, j: nat)
    requires i < j <= |s|
    ensures Utf8Length(s[..i]) < Utf8Length(s[..j])
  {
    assert s[..j] == s[..i] + s[i..j];
    Utf8LengthConcat(s[..i], s[i..j]);
  }

  /** A string of characters that all need `w` bytes takes `w` bytes per character. */
  lemma {:induction false} Utf8LengthUniform(s: string, w: nat)
    requires forall i :: 0 <= i < |s| ==> Utf8Width(s[i]) == w
    ensures Utf8Length(s) == w * |s|
  {
    if s != [] {
      Utf8LengthUniform(s[..|s| - 1], w);
    }
  }

  /**
   * `s.floor_char_boundary(n)`, counted in characters: the longest prefix
   * of `s` whose UTF-8 encoding fits in `n` bytes.
   */
  function FitChars(s: string, n: nat): (k: nat)
    ensures k <= |s|
    ensures Utf8Length(s[..k]) <= n
    ensures k < |s| ==> Utf8Length(s[..k + 1]) > n
  {
    if Utf8Length(s) <= n then
      assert s[..|s|] == s;
      |s|
    else
      var t := s[..|s| - 1];
      var k := FitChars(t, n);
      assert t[..k] == s[..k];
      assert k < |t| ==> t[..k + 1] == s[..k + 1];
      assert k == |t| ==> s[..k + 1] == s;
      k
  }

  /**
   * `s` cut to at most `n` UTF-8 bytes at a character boundary: the whole of
   * `s` when it fits, otherwise its longest prefix that does.
   */
  function CutToBytes(s: string, n: nat): (r: string)
    ensures Utf8Length(r) <= n && |r| <= |s| && r == s[..|r|]
    ensures |r| < |s| ==> Utf8Length(s[..|r| + 1]) > n
    ensures Utf8Length(s) <= n ==> r == s
  {
    if Utf8Length(s) <= n then
      assert s[..|s|] == s;
      s
    else
      var k := FitChars(s, n);
      assert s[..k][..k] == s[..k];
      s[..k]
  }

  /** `s.is_char_boundary(n)`: when some prefix of `s` takes exactly `n` bytes, the cut keeps exactly that prefix. */
  lemma CharBoundaryFits(s: string, n: nat, j: nat)
    requires j <= |s| && Utf8Length(s[..j]) == n
    ensures CutToBytes(s, n) == s[..j]
  {
    var k := |CutToBytes(s, n)|;
    if k + 1 < j {
      Utf8PrefixIncreasing(s, k + 1, j);
    } else if j < k {
      Utf8PrefixIncreasing(s, j, k);
    }
  }

  // ---------------------------------------------------------------------------
  // Decimal rendering (`format!("{n}")`) and its inverse
  // ---------------------------------------------------------------------------

  function DigitChar(d: nat): char
    requires d < 10
  {
    ('0' as int + d) as char
  }

  predicate IsDigit(c: char) { '0' <= c <= '9' }

  function DigitValue(c: char): nat
    requires IsDigit(c)
  {
    c as int - '0' as int
  }

  /** The decimal digits of `n`, without leading zeros. */
  function NatToString(n: nat): (r: string)
    ensures |r| >= 1
    ensures forall i :: 0 <= i < |r| ==> IsDigit(r[i])
    decreases n
  {
    if n < 10 then [DigitChar(n)] else NatToString(n / 10) + [DigitChar(n % 10)]
  }

  function ParseDigits(s: string): nat
    requires forall i :: 0 <= i < |s| ==> IsDigit(s[i])
  {
    if s == [] then 0 else ParseDigits(s[..|s| - 1]) * 10 + DigitValue(s[|s| - 1])
  }

  /** Reading the rendered digits back gives the number again. */
  lemma {:induction false} ParseNatToString(n: nat)
    ensures ParseDigits(NatToString(n)) == n
    decreases n
  {
    var r := NatToString(n);
    if n >= 10 {
      ParseNatToString(n / 10);
      assert r[..|r| - 1] == NatToString(n / 10);
    }
  }

  /** Rendering is injective: distinct numbers never print the same. */
  lemma NatToStringInjective(a: nat, b: nat)
    requires NatToString(a) == NatToString(b)
    ensures a == b
  {
    ParseNatToString(a);
    ParseNatToString(b);
  }

  // ---------------------------------------------------------------------------
  // Lexicographic order (Rust's `Ord` for `str`)
  // ---------------------------------------------------------------------------

  predicate StrLess(a: string, b: string) {
    if a == [] then b != []
    else if b == [] then false
    else a[0] < b[0] || (a[0] == b[0] && StrLess(a[1..], b[1..]))
  }

  predicate StrLe(a: string, b: string) {
    a == b || StrLess(a, b)
  }

  lemma {:induction false} StrLessIrreflexive(a: string)
    ensures !StrLess(a, a)
  {
    if a != [] { StrLessIrreflexive(a[1..]); }
  }

  lemma {:induction false} StrLessTotal(a: string, b: string)
    ensures a == b || StrLess(a, b) || StrLess(b, a)
  {
    if a != [] && b != [] && a[0] == b[0] {
      StrLessTotal(a[1..], b[1..]);
      if a[1..] == b[1..] {
        assert a == [a[0]] + a[1..] && b == [b[0]] + b[1..];
      }
    }
  }

  lemma {:induction false} StrLessTransitive(a: string, b: string, c: string)
    requires StrLess(a, b) && StrLess(b, c)
    ensures StrLess(a, c)
  {
    if a != [] && a[0] == b[0] && b[0] == c[0] {
      StrLessTransitive(a[1..], b[1..], c[1..]);
    }
  }

  lemma StrLeTotalPreorder(a: string, b: string, c: string)
    ensures StrLe(a, b) || StrLe(b, a)
    ensures StrLe(a, b) && StrLe(b, c) ==> StrLe(a, c)
  {
    StrLessTotal(a, b);
    if StrLess(a, b) && StrLess(b, c) { StrLessTransitive(a, b, c); }
  }

  lemma StrLeAntisymmetric(a: string, b: string)
    requires StrLe(a, b) && StrLe(b, a)
    ensures a == b
  {
    if a != b {
      StrLessTransitive(a, b, a);
      StrLessIrreflexive(a);
    }
  }
}
