/**
 * The few pieces of JavaScript value semantics the core relies on:
 * values that may be `null`, `String.prototype.trim`, truthiness of
 * strings, and the relational operators on strings.
 */
module Js {

  /** A value that may be `null` (or `undefined`). */
  datatype Option<T> = None | Some(value: T)

  /** A string is truthy exactly when it is not the empty string. */
  predicate TruthyString(s: string) {
    s != ""
  }

  /** An optional string is truthy when it is present and not empty. */
  predicate Truthy(d: Option<string>) {
    d.Some? && TruthyString(d.value)
  }

  /**
   * The characters `String.prototype.trim` strips: the WhiteSpace and
   * LineTerminator code points of ECMA-262 (section 12.2 and 12.3 of the
   * 2020 edition), Unicode category Zs included.
   */
  predicate IsWhitespace(c: char) {
    c in Whitespace
  }

  const Whitespace: set<char> := {
    '\t', '\n', '\U{000B}', '\U{000C}', '\r', ' ', '\U{00A0}', '\U{1680}',
    '\U{2000}', '\U{2001}', '\U{2002}', '\U{2003}', '\U{2004}', '\U{2005}',
    '\U{2006}', '\U{2007}', '\U{2008}', '\U{2009}', '\U{200A}',
    '\U{2028}', '\U{2029}', '\U{202F}', '\U{205F}', '\U{3000}', '\U{FEFF}'
  }

  /** Every character of `s` is whitespace. */
  predicate Blank(s: string) {
    forall i :: 0 <= i < |s| ==> IsWhitespace(s[i])
  }

  /** The length of the run of whitespace that opens `s`. */
  function LeadingWhitespace(s: string): (k: nat)
    ensures k <= |s|
    ensures forall i :: 0 <= i < k ==> IsWhitespace(s[i])
    ensures k < |s| ==> !IsWhitespace(s[k])
  {
    if s == [] || !IsWhitespace(s[0]) then 0
    else
      var k := LeadingWhitespace(s[1..]);
      assert forall i :: 1 <= i <= k && i < |s| ==> s[i] == s[1..][i - 1];
      k + 1
  }

  /** Where the run of whitespace that closes `s` begins. */
  function TrailingWhitespace(s: string): (k: nat)
    ensures k <= |s|
    ensures forall i :: k <= i < |s| ==> IsWhitespace(s[i])
    ensures 0 < k ==> !IsWhitespace(s[k - 1])
  {
    if s == [] || !IsWhitespace(s[|s| - 1]) then |s|
    else
      var k := TrailingWhitespace(s[..|s| - 1]);
      assert forall i :: 0 <= i < |s| - 1 ==> s[i] == s[..|s| - 1][i];
      k
  }

  /**
   * `s.trim()`: `s` without its leading and trailing whitespace, empty
   * exactly for a blank `s`, and otherwise starting and ending in a
   * character that is not whitespace.
   */
  function Trim(s: string): (r: string)
    ensures |r| == 0 <==> Blank(s)
    ensures r != [] ==> !IsWhitespace(r[0]) && !IsWhitespace(r[|r| - 1])
  {
    var first, last := LeadingWhitespace(s), TrailingWhitespace(s);
    if first < last then
      assert s[first..last][0] == s[first] && s[first..last][last - first - 1] == s[last - 1];
      s[first..last]
    else
      assert first == |s|;
      []
  }

  /**
   * `a < b` on strings: lexicographic order on characters, a proper
   * prefix coming first.
   */
  predicate StringLess(a: string, b: string) {
    if a == [] then b != []
    else if b == [] then false
    else if a[0] != b[0] then a[0] < b[0]
    else StringLess(a[1..], b[1..])
  }

  lemma {:induction false} StringLessIrreflexive(a: string)
    ensures !StringLess(a, a)
  {
    if a != [] {
      StringLessIrreflexive(a[1..]);
    }
  }

  lemma {:induction false} StringLessTransitive(a: string, b: string, c: string)
    requires StringLess(a, b) && StringLess(b, c)
    ensures StringLess(a, c)
  {
    if a != [] && b != [] && c != [] && a[0] == b[0] && b[0] == c[0] {
      StringLessTransitive(a[1..], b[1..], c[1..]);
    }
  }

  lemma {:induction false} StringLessTrichotomy(a: string, b: string)
    ensures a == b || StringLess(a, b) || StringLess(b, a)
  {
    if a != [] && b != [] && a[0] == b[0] {
      StringLessTrichotomy(a[1..], b[1..]);
      if a[1..] == b[1..] {
        assert a == [a[0]] + a[1..] && b == [b[0]] + b[1..];
      }
    }
  }
}
