/** String helpers of the .NET and JavaScript runtimes that the core relies on:
    trimming (each runtime with its own white-space set), ASCII case folding,
    prefix/suffix/infix tests that ignore case, and decimal digits.
    The functions carry few postconditions; their properties are lemmas
    that callers invoke where they need them. */
module Text {
  import opened Wrappers

  /** The white-space sets the core trims with. */
  datatype Space =
    | DotNetSpace    // `char.IsWhiteSpace`: the Unicode White_Space characters
    | JsSpace        // JavaScript WhiteSpace and LineTerminator code points
    | NumberSpace    // what `NumberStyles.Integer` skips around a number

  predicate IsSpace(w: Space, c: char) {
    var n := c as int;
    match w
    case DotNetSpace =>
      (0x09 <= n <= 0x0D) || n == 0x20 || n == 0x85 || n == 0xA0 || n == 0x1680
      || (0x2000 <= n <= 0x200A) || n == 0x2028 || n == 0x2029 || n == 0x202F
      || n == 0x205F || n == 0x3000
    case JsSpace =>
      (0x09 <= n <= 0x0D) || n == 0x20 || n == 0xA0 || n == 0x1680
      || (0x2000 <= n <= 0x200A) || n == 0x2028 || n == 0x2029 || n == 0x202F
      || n == 0x205F || n == 0x3000 || n == 0xFEFF
    case NumberSpace =>
      (0x09 <= n <= 0x0D) || n == 0x20
  }

  /** Drops the leading white space. */
  function TrimStart(s: string, w: Space): string {
    if s != [] && IsSpace(w, s[0]) then TrimStart(s[1..], w) else s
  }

  /** Drops the trailing white space. */
  function TrimEnd(s: string, w: Space): string {
    if s != [] && IsSpace(w, s[|s| - 1]) then TrimEnd(s[..|s| - 1], w) else s
  }

  /** Both ends trimmed. */
  function TrimWith(s: string, w: Space): string {
    TrimEnd(TrimStart(s, w), w)
  }

  /** .NET `string.Trim()`. */
  function Trim(s: string): string {
    TrimWith(s, DotNetSpace)
  }

  /** JavaScript `String.prototype.trim()`. */
  function JsTrim(s: string): string {
    TrimWith(s, JsSpace)
  }

  /** Every character of `s` is white space of the set `w`. */
  predicate AllSpace(s: string, w: Space) {
    forall i :: 0 <= i < |s| ==> IsSpace(w, s[i])
  }

  /** `s` begins and ends with a character outside `w` (or is empty). */
  predicate Trimmed(s: string, w: Space) {
    s == [] || (!IsSpace(w, s[0]) && !IsSpace(w, s[|s| - 1]))
  }

  lemma {:induction false} TrimStartSpec(s: string, w: Space)
    ensures |TrimStart(s, w)| <= |s| && TrimStart(s, w) == s[|s| - |TrimStart(s, w)|..]
    ensures TrimStart(s, w) == [] || !IsSpace(w, TrimStart(s, w)[0])
    ensures AllSpace(s[..|s| - |TrimStart(s, w)|], w)
  {
    if s != [] && IsSpace(w, s[0]) {
      TrimStartSpec(s[1..], w);
      var r := TrimStart(s[1..], w);
      assert s[1..][..|s| - 1 - |r|] == s[1..|s| - |r|];
      assert forall i :: 1 <= i < |s| - |r| ==> s[i] == s[1..][..|s| - 1 - |r|][i - 1];
    }
  }

  lemma {:induction false} TrimEndSpec(s: string, w: Space)
    ensures |TrimEnd(s, w)| <= |s| && TrimEnd(s, w) == s[..|TrimEnd(s, w)|]
    ensures TrimEnd(s, w) == [] || !IsSpace(w, TrimEnd(s, w)[|TrimEnd(s, w)| - 1])
    ensures AllSpace(s[|TrimEnd(s, w)|..], w)
  {
    if s != [] && IsSpace(w, s[|s| - 1]) {
      TrimEndSpec(s[..|s| - 1], w);
      var r := TrimEnd(s[..|s| - 1], w);
      assert forall i :: |r| <= i < |s| - 1 ==> s[i] == s[..|s| - 1][|r|..][i - |r|];
    }
  }

  /** The trim is no longer than the input and is itself trimmed, and it is
      empty exactly when the input is all white space. */
  lemma TrimWithSpec(s: string, w: Space)
    ensures |TrimWith(s, w)| <= |s|
    ensures Trimmed(TrimWith(s, w), w)
    ensures TrimWith(s, w) == [] <==> AllSpace(s, w)
  {
    var a := TrimStart(s, w);
    TrimStartSpec(s, w);
    TrimEndSpec(a, w);
    var r := TrimEnd(a, w);
    if r != [] {
      assert r[0] == a[0];
    }
    if r == [] {
      assert a == [];
      assert forall i :: 0 <= i < |s| ==> s[i] == s[..|s|][i];
    } else {
      assert !IsSpace(w, s[|s| - |a|]);
    }
  }

  /** The trim is a slice of the input with only white space cut off
      either side. */
  lemma TrimWithSlice(s: string, w: Space)
    ensures exists i, j :: 0 <= i <= j <= |s| && TrimWith(s, w) == s[i..j] && AllSpace(s[..i], w) && AllSpace(s[j..], w)
  {
    var a := TrimStart(s, w);
    TrimStartSpec(s, w);
    TrimEndSpec(a, w);
    var r := TrimEnd(a, w);
    var i, j := |s| - |a|, |s| - |a| + |r|;
    assert r == s[i..j] by {
      assert a[..|r|] == s[i..j];
    }
    assert AllSpace(s[j..], w) by {
      assert s[j..] == a[|r|..];
    }
  }

  /** A string that is already trimmed is its own trim. */
  lemma TrimWithUnchanged(s: string, w: Space)
    requires Trimmed(s, w)
    ensures TrimWith(s, w) == s
  {
  }

  lemma TrimWithIdempotent(s: string, w: Space)
    ensures TrimWith(TrimWith(s, w), w) == TrimWith(s, w)
  {
    TrimWithSpec(s, w);
    TrimWithUnchanged(TrimWith(s, w), w);
  }

  /** The trim keeps only characters of the input. */
  lemma TrimChars(s: string, w: Space)
    ensures forall i :: 0 <= i < |TrimWith(s, w)| ==> TrimWith(s, w)[i] in s
  {
    var a := TrimStart(s, w);
    TrimStartSpec(s, w);
    TrimEndSpec(a, w);
    var r := TrimEnd(a, w);
    forall i | 0 <= i < |r|
      ensures r[i] in s
    {
      assert r[i] == a[i] == s[|s| - |a| + i];
    }
  }

  /** A character both runtimes class alike: every character except U+0085
      (white space to .NET only) and U+FEFF (white space to JavaScript only). */
  predicate SameSpace(c: char) {
    c as int != 0x85 && c as int != 0xFEFF
  }

  lemma {:induction false} TrimStartAgree(s: string)
    requires forall i :: 0 <= i < |s| ==> SameSpace(s[i])
    ensures TrimStart(s, JsSpace) == TrimStart(s, DotNetSpace)
  {
    if s != [] && IsSpace(JsSpace, s[0]) {
      TrimStartAgree(s[1..]);
    }
  }

  lemma {:induction false} TrimEndAgree(s: string)
    requires forall i :: 0 <= i < |s| ==> SameSpace(s[i])
    ensures TrimEnd(s, JsSpace) == TrimEnd(s, DotNetSpace)
  {
    if s != [] && IsSpace(JsSpace, s[|s| - 1]) {
      TrimEndAgree(s[..|s| - 1]);
    }
  }

  /** Without those two characters, the runtimes trim alike. */
  lemma TrimsAgree(s: string)
    requires forall i :: 0 <= i < |s| ==> SameSpace(s[i])
    ensures JsTrim(s) == Trim(s)
  {
    TrimStartAgree(s);
    TrimStartSpec(s, DotNetSpace);
    TrimEndAgree(TrimStart(s, DotNetSpace));
  }

  /** `string.IsNullOrWhiteSpace` on a present string. */
  predicate IsBlank(s: string) {
    AllSpace(s, DotNetSpace)
  }

  /** .NET `string.IsNullOrWhiteSpace`. */
  predicate IsNullOrWhiteSpace(s: Option<string>) {
    s.None? || IsBlank(s.value)
  }

  /** The trim of a non-blank string is non-empty and non-blank. */
  lemma TrimNonBlank(s: string)
    requires !IsBlank(s)
    ensures Trim(s) != [] && !IsBlank(Trim(s))
  {
    TrimWithSpec(s, DotNetSpace);
  }

  /** ASCII case folding: the model's `ToLowerInvariant` and `toLowerCase`. */
  function ToLower(c: char): char {
    if 'A' <= c <= 'Z' then (c as int + 32) as char else c
  }

  function Lower(s: string): (r: string)
    ensures |r| == |s|
  {
    if s == [] then [] else [ToLower(s[0])] + Lower(s[1..])
  }

  lemma {:induction false} LowerAt(s: string, i: int)
    requires 0 <= i < |s|
    ensures Lower(s)[i] == ToLower(s[i])
  {
    if i > 0 {
      LowerAt(s[1..], i - 1);
    }
  }

  lemma {:induction false} LowerConcat(a: string, b: string)
    ensures Lower(a + b) == Lower(a) + Lower(b)
  {
    if a != [] {
      assert (a + b)[1..] == a[1..] + b;
      LowerConcat(a[1..], b);
    } else {
      assert a + b == b;
    }
  }

  lemma {:induction false} LowerIdempotent(s: string)
    ensures Lower(Lower(s)) == Lower(s)
  {
    if s != [] {
      LowerIdempotent(s[1..]);
    }
  }

  lemma {:induction false} LowerSlice(s: string, i: nat, j: nat)
    requires i <= j <= |s|
    ensures Lower(s[i..j]) == Lower(s)[i..j]
  {
    forall k | 0 <= k < j - i
      ensures Lower(s[i..j])[k] == Lower(s)[i..j][k]
    {
      LowerAt(s[i..j], k);
      LowerAt(s, i + k);
    }
  }

  lemma LowerPair(a: char, b: char)
    ensures Lower([a, b]) == [ToLower(a), ToLower(b)]
  {
    assert [a, b][1..] == [b];
    assert [b][1..] == [];
  }

  /** Case folding leaves a string without capitals alone. */
  lemma {:induction false} LowerUnchanged(s: string)
    requires forall i :: 0 <= i < |s| ==> !('A' <= s[i] <= 'Z')
    ensures Lower(s) == s
  {
    if s != [] {
      LowerUnchanged(s[1..]);
    }
  }

  /** A string whose character at `i` folds to something else than
      `lower[i]` does not start with `lower`. */
  lemma NotStartsWithAt(s: string, lower: string, i: int)
    requires 0 <= i < |lower| && i < |s| && ToLower(s[i]) != lower[i]
    ensures !StartsWithIgnoreCase(s, lower)
  {
    if |lower| <= |s| {
      LowerAt(s[..|lower|], i);
    }
  }

  /** Case folding neither creates nor removes white space. */
  lemma ToLowerKeepsSpace(w: Space, c: char)
    ensures IsSpace(w, ToLower(c)) == IsSpace(w, c)
  {
  }

  lemma {:induction false} TrimStartLower(s: string, w: Space)
    ensures TrimStart(Lower(s), w) == Lower(TrimStart(s, w))
  {
    if s != [] {
      ToLowerKeepsSpace(w, s[0]);
      if IsSpace(w, s[0]) {
        TrimStartLower(s[1..], w);
      }
    }
  }

  lemma {:induction false} TrimEndLower(s: string, w: Space)
    ensures TrimEnd(Lower(s), w) == Lower(TrimEnd(s, w))
  {
    if s != [] {
      LowerAt(s, |s| - 1);
      ToLowerKeepsSpace(w, s[|s| - 1]);
      if IsSpace(w, s[|s| - 1]) {
        LowerSlice(s, 0, |s| - 1);
        assert s[0..|s| - 1] == s[..|s| - 1];
        TrimEndLower(s[..|s| - 1], w);
      }
    }
  }

  /** Trimming and case folding commute. */
  lemma TrimLower(s: string, w: Space)
    ensures TrimWith(Lower(s), w) == Lower(TrimWith(s, w))
  {
    TrimStartLower(s, w);
    TrimEndLower(TrimStart(s, w), w);
  }

  /** A string is blank exactly when its lower-case form is. */
  lemma BlankLower(s: string)
    ensures IsBlank(Lower(s)) == IsBlank(s)
  {
    forall i | 0 <= i < |s|
      ensures IsSpace(DotNetSpace, Lower(s)[i]) == IsSpace(DotNetSpace, s[i])
    {
      LowerAt(s, i);
      ToLowerKeepsSpace(DotNetSpace, s[i]);
    }
  }

  /** A non-blank prefix in front of a trimmed string gives a trimmed string. */
  lemma TrimmedAfterPrefix(p: string, s: string, w: Space)
    requires p != [] && !IsSpace(w, p[0]) && !IsSpace(w, p[|p| - 1]) && Trimmed(s, w)
    ensures Trimmed(p + s, w)
  {
    if s != [] {
      assert (p + s)[|p + s| - 1] == s[|s| - 1];
    }
  }

  // The comparisons that ignore case take the pattern already folded to
  // lower case (`lower`), the way the source's literal patterns fold.

  /** Equality ignoring case (StringComparison.OrdinalIgnoreCase). */
  predicate EqualsIgnoreCase(s: string, lower: string) {
    Lower(s) == lower
  }

  predicate StartsWithIgnoreCase(s: string, lower: string) {
    |lower| <= |s| && Lower(s[..|lower|]) == lower
  }

  predicate EndsWithIgnoreCase(s: string, lower: string) {
    |lower| <= |s| && Lower(s[|s| - |lower|..]) == lower
  }

  /** Testing a prefix ignoring case gives the same answer on the
      lower-case form of the string. */
  lemma StartsWithLower(s: string, lower: string)
    ensures StartsWithIgnoreCase(Lower(s), lower) == StartsWithIgnoreCase(s, lower)
  {
    if |lower| <= |s| {
      LowerSlice(s, 0, |lower|);
      assert s[0..|lower|] == s[..|lower|];
      LowerIdempotent(s[..|lower|]);
    }
  }

  /** `lower` occurs in `s` at offset `i`, ignoring case. */
  predicate OccursAt(s: string, lower: string, i: int) {
    0 <= i <= |s| - |lower| && Lower(s[i..i + |lower|]) == lower
  }

  predicate ContainsIgnoreCase(s: string, lower: string) {
    exists i | 0 <= i <= |s| - |lower| :: OccursAt(s, lower, i)
  }

  /** Every occurrence of `from` replaced by `to` (.NET `string.Replace(char, char)`). */
  function ReplaceChar(s: string, from: char, to: char): (r: string)
    ensures |r| == |s|
  {
    if s == [] then [] else [if s[0] == from then to else s[0]] + ReplaceChar(s[1..], from, to)
  }

  lemma {:induction false} ReplaceCharAt(s: string, from: char, to: char, i: int)
    requires 0 <= i < |s|
    ensures ReplaceChar(s, from, to)[i] == if s[i] == from then to else s[i]
  {
    if i > 0 {
      ReplaceCharAt(s[1..], from, to, i - 1);
    }
  }

  predicate IsDigit(c: char) {
    '0' <= c <= '9'
  }

  predicate AllDigits(s: string) {
    forall i :: 0 <= i < |s| ==> IsDigit(s[i])
  }

  /** A non-empty run of ASCII digits. */
  predicate IsDigits(s: string) {
    |s| > 0 && AllDigits(s)
  }

  function DigitChar(d: nat): (c: char)
    requires d < 10
    ensures IsDigit(c) && c as int - '0' as int == d
  {
    ('0' as int + d) as char
  }

  /** The number a run of decimal digits denotes. */
  function DigitsValue(s: string): nat
    requires AllDigits(s)
  {
    if s == [] then 0 else DigitsValue(s[..|s| - 1]) * 10 + (s[|s| - 1] as int - '0' as int)
  }

  /** Decimal text of a natural number, without sign or leading zeros. */
  function NatToString(n: nat): (r: string)
    ensures IsDigits(r)
    ensures r[0] == '0' ==> n == 0
  {
    if n < 10 then [DigitChar(n)] else NatToString(n / 10) + [DigitChar(n % 10)]
  }

  /** Reading back the text of `n` gives `n`. */
  lemma {:induction false} NatToStringRoundTrip(n: nat)
    ensures DigitsValue(NatToString(n)) == n
  {
    if n >= 10 {
      var s := NatToString(n);
      assert s[..|s| - 1] == NatToString(n / 10);
      NatToStringRoundTrip(n / 10);
    }
  }
}
