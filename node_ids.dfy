/** Tag identifiers. The server keys its variables by the OPC UA string
    NodeId text `ns=<index>;s=<identifier>` (section 5.3.1.10 of OPC 10000-6);
    some clients write the same tag as `NS<index>|<type>|<identifier>`.
    Both the server and the browser UI rewrite the second form into the first
    with the pattern `^NS(\d+)\|[^|]*\|(.*)$` (case-insensitive), and the two
    regular-expression engines differ in what `.` and `$` accept. */
module NodeIds {
  import opened Wrappers
  import opened Text

  /** The regular-expression engine the pattern runs on. */
  datatype Dialect = DotNetRegex | JsRegex

  /** A character `.` does not match: .NET excludes only line feed;
      JavaScript excludes every line terminator. */
  predicate IsLineBreak(d: Dialect, c: char) {
    c == '\n' || (d == JsRegex && (c == '\r' || c as int == 0x2028 || c as int == 0x2029))
  }

  predicate NoLineBreak(d: Dialect, s: string) {
    forall i :: 0 <= i < |s| ==> !IsLineBreak(d, s[i])
  }

  /** The two groups of a match: the namespace index digits and the identifier. */
  datatype NsForm = NsForm(index: string, identifier: string)

  /** Length of the leading run of ASCII digits. */
  function LeadingDigits(s: string): (n: nat)
    ensures n <= |s|
  {
    if s != [] && IsDigit(s[0]) then 1 + LeadingDigits(s[1..]) else 0
  }

  lemma {:induction false} LeadingDigitsSpec(s: string)
    ensures AllDigits(s[..LeadingDigits(s)])
    ensures LeadingDigits(s) < |s| ==> !IsDigit(s[LeadingDigits(s)])
  {
    if s != [] && IsDigit(s[0]) {
      LeadingDigitsSpec(s[1..]);
      var n := LeadingDigits(s[1..]);
      assert s[..n + 1] == [s[0]] + s[1..][..n];
    }
  }

  /** A run of digits followed by a non-digit is read whole. */
  lemma {:induction false} LeadingDigitsOf(d: string, rest: string)
    requires AllDigits(d)
    requires rest == [] || !IsDigit(rest[0])
    ensures LeadingDigits(d + rest) == |d|
  {
    if d == [] {
      assert d + rest == rest;
    } else {
      assert (d + rest)[1..] == d[1..] + rest;
      LeadingDigitsOf(d[1..], rest);
    }
  }

  /** Position of the first `c` in `s`. */
  function IndexOf(s: string, c: char): (r: Option<nat>)
    ensures r.Some? ==> r.value < |s|
  {
    if s == [] then None
    else if s[0] == c then Some(0)
    else match IndexOf(s[1..], c)
      case None => None
      case Some(j) => Some(j + 1)
  }

  lemma {:induction false} IndexOfSpec(s: string, c: char)
    ensures IndexOf(s, c).None? <==> c !in s
    ensures IndexOf(s, c).Some? ==> s[IndexOf(s, c).value] == c && c !in s[..IndexOf(s, c).value]
  {
    if s != [] && s[0] != c {
      IndexOfSpec(s[1..], c);
      assert s == [s[0]] + s[1..];
      if IndexOf(s, c).Some? {
        var j := IndexOf(s[1..], c).value;
        assert s[..j + 1] == [s[0]] + s[1..][..j];
      }
    }
  }

  /** The group `(.*)` followed by `$`: all of `tail` when `.` accepts each
      of its characters; in .NET also all but a final line feed, since `$`
      matches just before one. */
  function MatchTail(d: Dialect, tail: string): Option<string> {
    if NoLineBreak(d, tail) then Some(tail)
    else if d == DotNetRegex && tail != [] && tail[|tail| - 1] == '\n'
            && NoLineBreak(d, tail[..|tail| - 1]) then
      Some(tail[..|tail| - 1])
    else None
  }

  /** `[^|]*\|(.*)$`: skip to the first `|`, then the tail. */
  function MatchAfterIndex(d: Dialect, after: string): Option<string> {
    match IndexOf(after, '|')
    case None => None
    case Some(j) => MatchTail(d, after[j + 1..])
  }

  /** `^NS(\d+)\|[^|]*\|(.*)$` with case-insensitive letters: `NS`, a run of
      digits, `|`, anything up to the next `|`, `|`, and a tail `.` accepts. */
  function MatchNsForm(d: Dialect, key: string): Option<NsForm> {
    if |key| < 2 || ToLower(key[0]) != 'n' || ToLower(key[1]) != 's' then None
    else
      var rest := key[2..];
      var n := LeadingDigits(rest);
      if n == 0 || n == |rest| || rest[n] != '|' then None
      else
        match MatchAfterIndex(d, rest[n + 1..])
        case None => None
        case Some(t) => Some(NsForm(rest[..n], t))
  }

  /** The text `<ns><index>|<middle>|<tail>`. */
  function Shape(ns: string, index: string, middle: string, tail: string): string {
    ns + (index + ("|" + (middle + ("|" + tail))))
  }

  /** The first `c` after a prefix free of `c`. */
  lemma {:induction false} IndexOfAfter(a: string, c: char, b: string)
    requires c !in a
    ensures IndexOf(a + ([c] + b), c) == Some(|a|)
  {
    if a != [] {
      assert (a + ([c] + b))[1..] == a[1..] + ([c] + b);
      IndexOfAfter(a[1..], c, b);
    } else {
      assert a + ([c] + b) == [c] + b;
    }
  }

  /** The last character of a shape with a non-empty tail is the tail's last. */
  lemma ShapeLast(ns: string, index: string, middle: string, tail: string)
    requires tail != []
    ensures |Shape(ns, index, middle, tail)| > 0
    ensures Shape(ns, index, middle, tail)[|Shape(ns, index, middle, tail)| - 1] == tail[|tail| - 1]
  {
  }

  lemma MatchAfterIndexComplete(d: Dialect, middle: string, tail: string)
    requires '|' !in middle && NoLineBreak(d, tail)
    ensures MatchAfterIndex(d, middle + ("|" + tail)) == Some(tail)
  {
    var after := middle + ("|" + tail);
    IndexOfAfter(middle, '|', tail);
    assert after[|middle|..] == "|" + tail;
    assert after[|middle| + 1..] == tail;
  }

  /** Every string of the pattern's shape matches, with the digits and the
      tail as its groups. */
  lemma {:induction false} MatchNsFormComplete(d: Dialect, ns: string, index: string, middle: string, tail: string)
    requires |ns| == 2 && Lower(ns) == "ns"
    requires IsDigits(index) && '|' !in middle && NoLineBreak(d, tail)
    ensures MatchNsForm(d, Shape(ns, index, middle, tail)) == Some(NsForm(index, tail))
  {
    var after := middle + ("|" + tail);
    var more := "|" + after;
    var rest := index + more;
    var key := ns + rest;
    assert key == Shape(ns, index, middle, tail);
    assert ToLower(key[0]) == 'n' && ToLower(key[1]) == 's' by {
      LowerAt(ns, 0);
      LowerAt(ns, 1);
    }
    assert key[2..] == rest;
    assert LeadingDigits(rest) == |index| by {
      LeadingDigitsOf(index, more);
    }
    assert rest[|index| + 1..] == after && rest[..|index|] == index;
    assert MatchAfterIndex(d, after) == Some(tail) by {
      MatchAfterIndexComplete(d, middle, tail);
    }
    MatchNsFormWhen(d, key, |index|, NsForm(index, tail));
  }

  /** A key matches with the groups `f` when its steps are all there. */
  lemma MatchNsFormWhen(d: Dialect, key: string, n: nat, f: NsForm)
    requires |key| >= 2 && ToLower(key[0]) == 'n' && ToLower(key[1]) == 's'
    requires LeadingDigits(key[2..]) == n && 0 < n < |key| - 2 && key[2..][n] == '|'
    requires key[2..][..n] == f.index && MatchAfterIndex(d, key[2..][n + 1..]) == Some(f.identifier)
    ensures MatchNsForm(d, key) == Some(f)
  {
  }

  /** A tail that matches is the kept text, or with .NET the kept text and
      a final line feed. */
  lemma MatchTailSplit(d: Dialect, tail: string)
    requires MatchTail(d, tail).Some?
    ensures NoLineBreak(d, MatchTail(d, tail).value)
    ensures tail == MatchTail(d, tail).value + (if NoLineBreak(d, tail) then "" else "\n")
    ensures !NoLineBreak(d, tail) ==> d == DotNetRegex
  {
    if !NoLineBreak(d, tail) {
      assert tail == tail[..|tail| - 1] + "\n";
    }
  }

  /** `after` is a middle part free of `|`, a `|`, the `tail`, and the
      `end` left after it: nothing, or with .NET a final line feed. */
  predicate AfterSplit(d: Dialect, after: string, middle: string, tail: string, end: string) {
    '|' !in middle && (end == "" || (d == DotNetRegex && end == "\n"))
    && after == middle + ("|" + (tail + end))
  }

  /** A string split at its first `|`. */
  lemma SplitAtBar(after: string, j: nat)
    requires j < |after| && after[j] == '|' && '|' !in after[..j]
    ensures after == after[..j] + ("|" + after[j + 1..])
  {
    assert after == after[..j] + after[j..];
    assert after[j..] == [after[j]] + after[j + 1..];
  }

  lemma {:induction false} MatchAfterIndexSound(d: Dialect, after: string)
    requires MatchAfterIndex(d, after).Some?
    ensures NoLineBreak(d, MatchAfterIndex(d, after).value)
    ensures exists middle: string, end: string :: AfterSplit(d, after, middle, MatchAfterIndex(d, after).value, end)
  {
    IndexOfSpec(after, '|');
    var j := IndexOf(after, '|').value;
    SplitAtBar(after, j);
    var tail := after[j + 1..];
    MatchTailSplit(d, tail);
    var t := MatchTail(d, tail).value;
    var end := if NoLineBreak(d, tail) then "" else "\n";
    var middle := after[..j];
    assert AfterSplit(d, after, middle, t, end);
  }

  /** The steps of a match: `NS`, a non-empty run of digits, a `|`, and a
      rest that matches `[^|]*\|(.*)$`. */
  lemma MatchNsFormParts(d: Dialect, key: string)
    requires MatchNsForm(d, key).Some?
    ensures |key| >= 2 && ToLower(key[0]) == 'n' && ToLower(key[1]) == 's'
    ensures var n := LeadingDigits(key[2..]);
            0 < n < |key[2..]| && key[2..][n] == '|'
            && MatchAfterIndex(d, key[2..][n + 1..]).Some?
            && MatchNsForm(d, key).value == NsForm(key[2..][..n], MatchAfterIndex(d, key[2..][n + 1..]).value)
    ensures var after := key[2..][LeadingDigits(key[2..]) + 1..];
            IndexOf(after, '|').Some?
            && MatchAfterIndex(d, after) == MatchTail(d, after[IndexOf(after, '|').value + 1..])
  {
  }

  /** Nesting the middle split inside the key. */
  lemma ShapeOf(key: string, index: string, after: string, middle: string, tail: string)
    requires |key| >= 2 && key == key[..2] + (index + ("|" + after))
    requires after == middle + ("|" + tail)
    ensures key == Shape(key[..2], index, middle, tail)
  {
  }

  /** `key` is its first two letters, the groups of `f`, and a middle part
      free of `|`, with the `end` after the identifier as above. */
  predicate NsShaped(d: Dialect, key: string, f: NsForm, middle: string, end: string) {
    '|' !in middle && (end == "" || (d == DotNetRegex && end == "\n"))
    && |key| >= 2 && key == Shape(key[..2], f.index, middle, f.identifier + end)
  }

  /** A match is the pattern's shape: the case-folded `NS`, the digits, a
      middle part free of `|`, and the tail (with .NET's final line feed). */
  lemma {:induction false} MatchNsFormSound(d: Dialect, key: string)
    requires MatchNsForm(d, key).Some?
    ensures |key| >= 2 && Lower(key[..2]) == "ns" && IsDigits(MatchNsForm(d, key).value.index)
    ensures NoLineBreak(d, MatchNsForm(d, key).value.identifier)
    ensures exists middle: string, end: string :: NsShaped(d, key, MatchNsForm(d, key).value, middle, end)
  {
    MatchNsFormParts(d, key);
    var f := MatchNsForm(d, key).value;
    var rest := key[2..];
    var n := LeadingDigits(rest);
    assert IsDigits(f.index) by {
      LeadingDigitsSpec(rest);
    }
    assert Lower(key[..2]) == "ns" by {
      assert key[..2] == [key[0], key[1]];
      LowerPair(key[0], key[1]);
    }
    var after := rest[n + 1..];
    assert key == key[..2] + (f.index + ("|" + after)) by {
      assert rest == rest[..n] + rest[n..];
      assert rest[n..] == [rest[n]] + after;
      assert key == key[..2] + rest;
    }
    MatchAfterIndexSound(d, after);
    var middle: string, end: string :| AfterSplit(d, after, middle, f.identifier, end);
    ShapeOf(key, f.index, after, middle, f.identifier + end);
    assert NsShaped(d, key, f, middle, end);
  }

  /** `Regex.Replace`/`exec` with the replacement `ns=$1;s=$2`: the normal form
      when the pattern matches, the input unchanged otherwise. */
  function RewriteNsForm(d: Dialect, s: string): string {
    match MatchNsForm(d, s)
    case Some(f) => "ns=" + f.index + ";s=" + f.identifier
    case None => s
  }

  /** The identifier of a match ends where the input ends, unless the
      input ends with the line feed .NET's `$` steps over. */
  lemma {:induction false} MatchNsFormEnd(d: Dialect, key: string)
    requires MatchNsForm(d, key).Some?
    ensures var id := MatchNsForm(d, key).value.identifier;
            id == [] || id[|id| - 1] == key[|key| - 1] || key[|key| - 1] == '\n'
  {
    MatchNsFormSound(d, key);
    var f := MatchNsForm(d, key).value;
    var middle: string, end: string :| NsShaped(d, key, f, middle, end);
    if f.identifier + end != [] {
      ShapeLast(key[..2], f.index, middle, f.identifier + end);
      if end == "" {
        assert f.identifier + end == f.identifier;
      }
    }
  }

  /** Rewriting a trimmed string that matches gives a trimmed string. */
  lemma RewriteTrimmed(d: Dialect, w: Space, key: string)
    requires Trimmed(key, w) && MatchNsForm(d, key).Some?
    ensures Trimmed(RewriteNsForm(d, key), w)
  {
    var f := MatchNsForm(d, key).value;
    MatchNsFormEnd(d, key);
    var lead := "ns=" + f.index + ";s=";
    var r := lead + f.identifier;
    assert RewriteNsForm(d, key) == r;
    if f.identifier != [] {
      assert r[|r| - 1] == f.identifier[|f.identifier| - 1];
    }
  }

  /** `StartsWith("ns=", OrdinalIgnoreCase)` and the UI's `/^ns=/i`. */
  predicate IsNormalForm(s: string) {
    StartsWithIgnoreCase(s, "ns=")
  }

  /** The rewrite of a match is in normal form. */
  lemma RewriteIsNormal(d: Dialect, s: string)
    requires MatchNsForm(d, s).Some?
    ensures IsNormalForm(RewriteNsForm(d, s))
  {
    var r := RewriteNsForm(d, s);
    assert r[..3] == "ns=";
  }

  /** A string in normal form does not match the pattern (its third character
      is `=`, not a digit), so rewriting leaves it alone. */
  lemma NormalFormDoesNotMatch(d: Dialect, s: string)
    requires IsNormalForm(s)
    ensures MatchNsForm(d, s).None? && RewriteNsForm(d, s) == s
  {
    LowerAt(s[..3], 2);
    assert s[2..][0] == s[2];
  }

  /** The normal form starts with `ns`. */
  lemma NormalFormStartsWithNs(s: string)
    requires IsNormalForm(s)
    ensures StartsWithIgnoreCase(s, "ns")
  {
    LowerSlice(s[..3], 0, 2);
    assert s[..3][0..2] == s[..2];
  }

  /** Guarding the match by a test for the `NS` prefix changes nothing: the
      pattern itself begins with `NS`. */
  lemma MatchNeedsNsPrefix(d: Dialect, s: string)
    requires !StartsWithIgnoreCase(s, "ns")
    ensures MatchNsForm(d, s).None?
  {
    if |s| >= 2 {
      assert Lower(s[..2]) == [ToLower(s[0])] + Lower(s[1..2]);
    }
  }

  /** On a string free of the line terminators only JavaScript's `.`
      rejects, and not ending in a line feed, both engines match alike. */
  lemma MatchDialectsAgree(s: string)
    requires forall i :: 0 <= i < |s| ==> !IsLineBreak(JsRegex, s[i]) || s[i] == '\n'
    requires s == [] || s[|s| - 1] != '\n'
    ensures MatchNsForm(JsRegex, s) == MatchNsForm(DotNetRegex, s)
  {
    if |s| >= 2 && ToLower(s[0]) == 'n' && ToLower(s[1]) == 's' {
      var rest := s[2..];
      var n := LeadingDigits(rest);
      if n != 0 && n != |rest| && rest[n] == '|' {
        var after := rest[n + 1..];
        match IndexOf(after, '|')
        case Some(j) =>
          var tail := after[j + 1..];
          assert forall k :: 0 <= k < |tail| ==> tail[k] == s[n + j + 4 + k];
          assert NoLineBreak(JsRegex, tail) == NoLineBreak(DotNetRegex, tail);
          if tail != [] {
            assert tail[|tail| - 1] == s[|s| - 1];
          }
        case None =>
      }
    }
  }
}
