/** The few JavaScript string operations the core relies on: the whitespace class shared by
    `String.prototype.trim` and the regular-expression class `\s`, trimming, removal of every
    whitespace character, `includes`, `replace` with a string pattern (first occurrence only),
    `startsWith`, the default `Array.prototype.sort` order on two strings, and `join`. */
module JsStrings {
  import opened Wrappers

  /** ECMAScript WhiteSpace plus LineTerminator code points. */
  predicate IsWhiteSpace(c: char)
  {
    || c == '\t' || c == '\n' || c == '\U{B}' || c == '\U{C}' || c == '\r' || c == ' '
    || c == '\U{A0}' || c == '\U{1680}' || ('\U{2000}' <= c <= '\U{200A}')
    || c == '\U{2028}' || c == '\U{2029}' || c == '\U{202F}' || c == '\U{205F}'
    || c == '\U{3000}' || c == '\U{FEFF}'
  }

  predicate IsBlank(s: string)
  {
    forall i :: 0 <= i < |s| ==> IsWhiteSpace(s[i])
  }

  /** Drops the leading whitespace: the result is a suffix of `s` that starts with a
      non-whitespace character, and everything dropped is whitespace. */
  function TrimStart(s: string): (r: string)
    ensures |r| <= |s| && r == s[|s| - |r|..]
    ensures r == [] || !IsWhiteSpace(r[0])
    ensures forall i :: 0 <= i < |s| - |r| ==> IsWhiteSpace(s[i])
  {
    if s != [] && IsWhiteSpace(s[0]) then TrimStart(s[1..]) else s
  }

  /** Drops the trailing whitespace: the result is a prefix of `s` that ends with a
      non-whitespace character, and everything dropped is whitespace. */
  function TrimEnd(s: string): (r: string)
    ensures |r| <= |s| && r == s[..|r|]
    ensures r == [] || !IsWhiteSpace(r[|r| - 1])
    ensures forall i :: |r| <= i < |s| ==> IsWhiteSpace(s[i])
  {
    if s != [] && IsWhiteSpace(s[|s| - 1]) then TrimEnd(s[..|s| - 1]) else s
  }

  /** `s.trim()`. */
  function Trim(s: string): string
  {
    TrimEnd(TrimStart(s))
  }

  /** `s.trim() === ""` holds exactly when every character of `s` is whitespace. */
  lemma TrimEmptyIffBlank(s: string)
    ensures Trim(s) == [] <==> IsBlank(s)
  {
    // TrimStart leaves a string that is empty or starts with a non-whitespace character, and
    // TrimEnd of it drops only whitespace: so an empty trim means TrimStart dropped everything.
    var t := TrimStart(s);
    assert Trim(s) == [] ==> t == [] by {
      assert t != [] ==> !IsWhiteSpace(t[0]);
    }
  }

  /** A trimmed string neither starts nor ends with whitespace and is a slice of the input. */
  lemma TrimShape(s: string)
    ensures var r := Trim(s);
      && (r == [] || (!IsWhiteSpace(r[0]) && !IsWhiteSpace(r[|r| - 1])))
      && exists i: nat :: OccursAt(s, r, i)
  {
    var t := TrimStart(s);
    var r := TrimEnd(t);
    if r != [] {
      assert r[0] == t[0];
    }
    var i := |s| - |t|;
    assert t == s[i..];
    assert r == t[..|r|];
    assert r == s[i..i + |r|];
    assert OccursAt(s, r, i);
  }

  /** `s.replace(/\s+/g, "")`: every whitespace character is removed, the rest keep their order. */
  function RemoveWhiteSpace(s: string): (r: string)
    ensures forall i :: 0 <= i < |r| ==> !IsWhiteSpace(r[i])
    ensures |r| <= |s|
    ensures IsBlank(s) ==> r == []
  {
    if s == [] then []
    else if IsWhiteSpace(s[0]) then RemoveWhiteSpace(s[1..])
    else [s[0]] + RemoveWhiteSpace(s[1..])
  }

  /** Removing whitespace works piece by piece, so it keeps every other character in order. */
  lemma {:induction false} RemoveWhiteSpaceAppend(a: string, b: string)
    ensures RemoveWhiteSpace(a + b) == RemoveWhiteSpace(a) + RemoveWhiteSpace(b)
  {
    if a != [] {
      assert (a + b)[0] == a[0];
      assert (a + b)[1..] == a[1..] + b;
      RemoveWhiteSpaceAppend(a[1..], b);
    } else {
      assert a + b == b;
    }
  }

  /** A string without whitespace is left as it is; in particular the removal is idempotent. */
  lemma {:induction false} RemoveWhiteSpaceKeepsClean(s: string)
    requires forall i :: 0 <= i < |s| ==> !IsWhiteSpace(s[i])
    ensures RemoveWhiteSpace(s) == s
  {
    if s != [] {
      RemoveWhiteSpaceKeepsClean(s[1..]);
    }
  }

  predicate OccursAt(s: string, pat: string, i: nat)
  {
    i + |pat| <= |s| && s[i..i + |pat|] == pat
  }

  /** `s.includes(pat)`. */
  predicate Includes(s: string, pat: string)
  {
    exists i: nat :: i <= |s| && OccursAt(s, pat, i)
  }

  /** `s.startsWith(prefix)`. */
  predicate StartsWith(s: string, prefix: string)
  {
    OccursAt(s, prefix, 0)
  }

  /** The first position at or after `from` where `pat` occurs. */
  function IndexFrom(s: string, pat: string, from: nat): (r: Option<nat>)
    ensures r.Some? ==>
      from <= r.value && OccursAt(s, pat, r.value) && forall j: nat :: from <= j < r.value ==> !OccursAt(s, pat, j)
    ensures r.None? ==> forall j: nat :: from <= j ==> !OccursAt(s, pat, j)
    decreases |s| - from
  {
    if from + |pat| > |s| then None
    else if OccursAt(s, pat, from) then Some(from)
    else IndexFrom(s, pat, from + 1)
  }

  /** `s.indexOf(pat)`, with None for -1. */
  function IndexOf(s: string, pat: string): (r: Option<nat>)
    ensures r.Some? <==> Includes(s, pat)
    ensures r.Some? ==> OccursAt(s, pat, r.value) && forall j: nat :: j < r.value ==> !OccursAt(s, pat, j)
  {
    IndexFrom(s, pat, 0)
  }

  /** `s.replace(pat, rep)` with a string pattern (and a replacement without `$` patterns):
      only the first occurrence is replaced. */
  function ReplaceFirst(s: string, pat: string, rep: string): string
  {
    match IndexOf(s, pat)
    case None => s
    case Some(i) => s[..i] + rep + s[i + |pat|..]
  }

  /** `replace` leaves a string without the pattern unchanged, and otherwise puts `rep` in
      place of the first occurrence and keeps everything before and after it. */
  lemma ReplaceFirstShape(s: string, pat: string, rep: string)
    ensures !Includes(s, pat) ==> ReplaceFirst(s, pat, rep) == s
    ensures Includes(s, pat) ==>
      var i := IndexOf(s, pat).value;
      var r := ReplaceFirst(s, pat, rep);
      && r == s[..i] + rep + s[i + |pat|..]
      && OccursAt(r, rep, i)
      && (forall j: nat :: j < i ==> !OccursAt(s, pat, j))
  {
    if Includes(s, pat) {
      var i := IndexOf(s, pat).value;
      var r := s[..i] + rep + s[i + |pat|..];
      assert r[i..i + |rep|] == rep;
    }
  }

  /** The string has no whitespace character. */
  predicate NoWhiteSpace(s: string)
  {
    forall i :: 0 <= i < |s| ==> !IsWhiteSpace(s[i])
  }

  /** Cutting out a slice and putting a whitespace-free string in its place keeps a
      whitespace-free string free of whitespace. */
  lemma SpliceNoWhiteSpace(s: string, i: nat, j: nat, rep: string)
    requires i <= j <= |s| && NoWhiteSpace(s) && NoWhiteSpace(rep)
    ensures NoWhiteSpace(s[..i] + rep + s[j..])
  {
    var u := s[..i] + rep + s[j..];
    forall k | 0 <= k < |u| ensures !IsWhiteSpace(u[k]) {
      if k < i {
        assert u[k] == s[k];
      } else if k < i + |rep| {
        assert u[k] == rep[k - i];
      } else {
        assert u[k] == s[k - i - |rep| + j];
      }
    }
  }

  /** The code-unit order used by the default `Array.prototype.sort` on strings. */
  predicate CodeUnitLessEq(a: string, b: string)
  {
    if a == [] then true
    else if b == [] then false
    else if a[0] != b[0] then a[0] < b[0]
    else CodeUnitLessEq(a[1..], b[1..])
  }

  lemma {:induction false} CodeUnitOrderTotal(a: string, b: string)
    ensures CodeUnitLessEq(a, b) || CodeUnitLessEq(b, a)
  {
    if a != [] && b != [] && a[0] == b[0] {
      CodeUnitOrderTotal(a[1..], b[1..]);
    }
  }

  lemma {:induction false} CodeUnitOrderAntisymmetric(a: string, b: string)
    requires CodeUnitLessEq(a, b) && CodeUnitLessEq(b, a)
    ensures a == b
  {
    if a != [] && b != [] {
      CodeUnitOrderAntisymmetric(a[1..], b[1..]);
      assert a == [a[0]] + a[1..];
      assert b == [b[0]] + b[1..];
    }
  }

  /** `[a, b].sort()`: the two strings in ascending code-unit order. */
  function SortPair(a: string, b: string): seq<string>
  {
    if CodeUnitLessEq(a, b) then [a, b] else [b, a]
  }

  /** Sorting two strings does not depend on the order they were given in. */
  lemma SortPairSymmetric(a: string, b: string)
    ensures SortPair(a, b) == SortPair(b, a)
  {
    CodeUnitOrderTotal(a, b);
    if CodeUnitLessEq(a, b) && CodeUnitLessEq(b, a) {
      CodeUnitOrderAntisymmetric(a, b);
    }
  }

  /** `parts.join(sep)`. */
  function Join(parts: seq<string>, sep: string): string
  {
    if parts == [] then []
    else if |parts| == 1 then parts[0]
    else parts[0] + sep + Join(parts[1..], sep)
  }
}
