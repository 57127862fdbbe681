/**
 * The JavaScript string primitives the validators and token checks rely on:
 * `trim`, ASCII case mapping, character removal, `substring(0, n)` and the
 * character classes of the source's regular expressions.
 */
module Text {

  /** The characters `String.prototype.trim` removes: ECMAScript WhiteSpace and LineTerminator. */
  predicate IsSpace(c: char) {
    c == ' ' || c == '\t' || c == '\n' || c == '\r' || c == '\U{000B}' || c == '\U{000C}'
    || c == '\U{00A0}' || c == '\U{FEFF}' || c == '\U{1680}' || ('\U{2000}' <= c <= '\U{200A}')
    || c == '\U{2028}' || c == '\U{2029}' || c == '\U{202F}' || c == '\U{205F}' || c == '\U{3000}'
  }

  predicate IsUpperAscii(c: char) { 'A' <= c <= 'Z' }
  predicate IsLowerAscii(c: char) { 'a' <= c <= 'z' }
  predicate IsDigitChar(c: char) { '0' <= c <= '9' }

  /** `[A-Z0-9]` */
  predicate IsUpperAlnum(c: char) { IsUpperAscii(c) || IsDigitChar(c) }
  /** `[a-z0-9]` */
  predicate IsLowerAlnum(c: char) { IsLowerAscii(c) || IsDigitChar(c) }

  /** A string with nothing but whitespace in it (possibly empty). */
  predicate AllSpace(s: string) { forall i :: 0 <= i < |s| ==> IsSpace(s[i]) }

  /** The first index at or after `i` that does not hold whitespace, or `|s|`. */
  function SkipSpaces(s: string, i: nat): (k: nat)
    requires i <= |s|
    ensures i <= k <= |s|
    ensures forall j :: i <= j < k ==> IsSpace(s[j])
    ensures k < |s| ==> !IsSpace(s[k])
    decreases |s| - i
  {
    if i < |s| && IsSpace(s[i]) then SkipSpaces(s, i + 1) else i
  }

  /** The index just past the last character below `j` that is not whitespace, but not below `lo`. */
  function BackSpaces(s: string, lo: nat, j: nat): (k: nat)
    requires lo <= j <= |s|
    ensures lo <= k <= j
    ensures forall m :: k <= m < j ==> IsSpace(s[m])
    ensures k > lo ==> !IsSpace(s[k - 1])
    decreases j
  {
    if j > lo && IsSpace(s[j - 1]) then BackSpaces(s, lo, j - 1) else j
  }

  /** Where `Trim(s)` starts inside `s`: the length of the leading whitespace. */
  function TrimOffset(s: string): nat
    ensures TrimOffset(s) <= |s|
  {
    SkipSpaces(s, 0)
  }

  /** Where `Trim(s)` ends inside `s`. */
  function TrimLimit(s: string): (k: nat)
    ensures TrimOffset(s) <= k <= |s|
  {
    BackSpaces(s, TrimOffset(s), |s|)
  }

  /** Leading whitespace removed (what `parseFloat` and `parseInt` skip). */
  function TrimStart(s: string): string
  {
    s[TrimOffset(s)..]
  }

  /** `s.trim()`: the longest infix of `s` that neither starts nor ends with whitespace. */
  function Trim(s: string): (r: string)
    ensures |r| <= |s|
    ensures r == [] || (!IsSpace(r[0]) && !IsSpace(r[|r| - 1]))
  {
    s[TrimOffset(s)..TrimLimit(s)]
  }

  /** Only whitespace is cut: everything before and after the trimmed infix is whitespace. */
  lemma TrimCutsSpaces(s: string)
    ensures AllSpace(s[..TrimOffset(s)]) && AllSpace(s[TrimLimit(s)..])
  {
    var a, b := TrimOffset(s), TrimLimit(s);
    forall j | 0 <= j < a ensures IsSpace(s[..a][j]) { assert s[..a][j] == s[j]; }
    forall j | 0 <= j < |s| - b ensures IsSpace(s[b..][j]) { assert s[b..][j] == s[b + j]; }
  }

  /** A string is blank (`!s.trim()` in the source) exactly when it is all whitespace. */
  lemma BlankIffAllSpace(s: string)
    ensures Trim(s) == [] <==> AllSpace(s)
  {
    if AllSpace(s) {
      assert TrimOffset(s) == |s|;
    }
  }

  /** Trimming is idempotent. */
  lemma TrimIdempotent(s: string)
    ensures Trim(Trim(s)) == Trim(s)
  {
    TrimOfTrimmed(Trim(s));
  }

  /** A string that neither starts nor ends with whitespace is its own trim. */
  lemma TrimOfTrimmed(s: string)
    requires s == [] || (!IsSpace(s[0]) && !IsSpace(s[|s| - 1]))
    ensures Trim(s) == s
  {
    if s != [] {
      assert TrimOffset(s) == 0;
      assert TrimLimit(s) == |s|;
    }
  }

  /** One space on either side of a trimmed string is trimmed away again. */
  lemma TrimPadded(s: string)
    requires s != [] && !IsSpace(s[0]) && !IsSpace(s[|s| - 1])
    ensures Trim([' '] + s + [' ']) == s
  {
    var p := [' '] + s + [' '];
    assert p[1] == s[0] && p[|p| - 2] == s[|s| - 1];
    assert SkipSpaces(p, 1) == 1;
    assert TrimOffset(p) == 1;
    assert BackSpaces(p, 1, |p| - 1) == |p| - 1;
    assert TrimLimit(p) == |p| - 1;
    assert p[1..|p| - 1] == s;
  }

  /** `s.replace(/[...]/g, '')`: every character of `bad` removed, the others kept in order. */
  function Remove(s: string, bad: set<char>): (r: string)
    ensures |r| <= |s|
    ensures forall i :: 0 <= i < |r| ==> r[i] !in bad && r[i] in s
    ensures forall i :: 0 <= i < |s| && s[i] !in bad ==> s[i] in r
  {
    if s == [] then []
    else if s[0] in bad then Remove(s[1..], bad)
    else [s[0]] + Remove(s[1..], bad)
  }

  /** Removal works character by character: it distributes over concatenation. */
  lemma {:induction false} RemoveConcat(a: string, b: string, bad: set<char>)
    ensures Remove(a + b, bad) == Remove(a, bad) + Remove(b, bad)
  {
    if a == [] {
      assert a + b == b;
    } else {
      var h := if a[0] in bad then [] else [a[0]];
      calc {
        Remove(a + b, bad);
      == { assert (a + b)[0] == a[0] && (a + b)[1..] == a[1..] + b; }
        h + Remove(a[1..] + b, bad);
      == { RemoveConcat(a[1..], b, bad); }
        h + (Remove(a[1..], bad) + Remove(b, bad));
      ==
        (h + Remove(a[1..], bad)) + Remove(b, bad);
      }
    }
  }

  /** A single character is dropped when it is in `bad` and kept otherwise. */
  lemma RemoveSingle(c: char, bad: set<char>)
    ensures Remove([c], bad) == if c in bad then [] else [c]
  {
  }

  /** Removing characters a string does not contain changes nothing. */
  lemma {:induction false} RemoveAbsent(s: string, bad: set<char>)
    requires forall i :: 0 <= i < |s| ==> s[i] !in bad
    ensures Remove(s, bad) == s
  {
    if s != [] { RemoveAbsent(s[1..], bad); }
  }

  /** `s.substring(0, n)` for a non-negative `n`. */
  function Prefix(s: string, n: nat): (r: string)
    ensures |r| == (if |s| <= n then |s| else n)
    ensures r == s[..|r|]
  {
    if |s| <= n then s else s[..n]
  }

  function ToUpperChar(c: char): (d: char)
    ensures IsLowerAscii(c) ==> IsUpperAscii(d)
    ensures !IsLowerAscii(c) ==> d == c
  {
    if IsLowerAscii(c) then (c as int - 32) as char else c
  }

  function ToLowerChar(c: char): (d: char)
    ensures IsUpperAscii(c) ==> IsLowerAscii(d)
    ensures !IsUpperAscii(c) ==> d == c
  {
    if IsUpperAscii(c) then (c as int + 32) as char else c
  }

  /** `s.toUpperCase()`, for ASCII letters. */
  function ToUpper(s: string): (r: string)
    ensures |r| == |s|
    ensures forall i :: 0 <= i < |s| ==> r[i] == ToUpperChar(s[i])
  {
    seq(|s|, i requires 0 <= i < |s| => ToUpperChar(s[i]))
  }

  /** `s.toLowerCase()`, for ASCII letters. */
  function ToLower(s: string): (r: string)
    ensures |r| == |s|
    ensures forall i :: 0 <= i < |s| ==> r[i] == ToLowerChar(s[i])
  {
    seq(|s|, i requires 0 <= i < |s| => ToLowerChar(s[i]))
  }
}
