/**
  The two pieces of JavaScript string behaviour the handlers depend on:
  `String.prototype.trim` (used to decide whether an edit supplies a new
  image) and a case-insensitive title match (used by the search page).
  Characters are Unicode scalar values; JavaScript's UTF-16 code units are
  not modelled.
 */
module JsText {

  /** The code points `trim` removes: ECMAScript's WhiteSpace (tab, vertical
      tab, form feed, space, no-break space, byte order mark and the other
      "Space_Separator" characters) and LineTerminator (LF, CR, LS, PS). */
  predicate IsWhiteSpace(c: char) {
    var n := c as int;
    n == 0x09 || n == 0x0B || n == 0x0C || n == 0x20 || n == 0xA0 || n == 0xFEFF
    || n == 0x1680 || (0x2000 <= n <= 0x200A) || n == 0x202F || n == 0x205F || n == 0x3000
    || n == 0x0A || n == 0x0D || n == 0x2028 || n == 0x2029
  }

  /** True when some character of `s` survives trimming. */
  predicate HasVisibleChar(s: string) {
    exists i :: 0 <= i < |s| && !IsWhiteSpace(s[i])
  }

  /** Drops leading white space: the result is a suffix of `s`, everything
      dropped is white space, and the result does not start with white space. */
  function TrimStart(s: string): (r: string)
    ensures |r| <= |s| && r == s[|s| - |r|..]
    ensures forall i :: 0 <= i < |s| - |r| ==> IsWhiteSpace(s[i])
    ensures r != [] ==> !IsWhiteSpace(r[0])
    decreases |s|
  {
    if s != [] && IsWhiteSpace(s[0]) then TrimStart(s[1..]) else s
  }

  /** Drops trailing white space: the result is a prefix of `s`, everything
      dropped is white space, and the result does not end with white space. */
  function TrimEnd(s: string): (r: string)
    ensures |r| <= |s| && r == s[..|r|]
    ensures forall i :: |r| <= i < |s| ==> IsWhiteSpace(s[i])
    ensures r != [] ==> !IsWhiteSpace(r[|r| - 1])
    decreases |s|
  {
    if s != [] && IsWhiteSpace(s[|s| - 1]) then TrimEnd(s[..|s| - 1]) else s
  }

  /** `s.trim()`. */
  function Trim(s: string): string {
    TrimEnd(TrimStart(s))
  }

  /** `s.trim()` is the empty string (falsy in JavaScript) exactly when every
      character of `s` is white space. */
  lemma TrimEmptyIffBlank(s: string)
    ensures Trim(s) == [] <==> !HasVisibleChar(s)
  {
  }

  /** ASCII upper-case letters folded to lower case; everything else kept. */
  function LowerChar(c: char): char {
    if 'A' <= c <= 'Z' then (c as int + 32) as char else c
  }

  function Lower(s: string): string {
    seq(|s|, i requires 0 <= i < |s| => LowerChar(s[i]))
  }

  predicate StartsWith(s: string, prefix: string) {
    |prefix| <= |s| && s[..|prefix|] == prefix
  }

  /** `pattern` occurs in `s` at offset `k`. */
  predicate OccursAt(s: string, pattern: string, k: int) {
    0 <= k && k + |pattern| <= |s| && s[k..k + |pattern|] == pattern
  }

  /** `pattern` occurs in `s`, scanning from the left. */
  predicate Contains(s: string, pattern: string)
    decreases |s|
  {
    StartsWith(s, pattern) || (s != [] && Contains(s[1..], pattern))
  }

  /** The scan finds `pattern` exactly when it occurs at some offset of `s`. */
  lemma {:induction false} ContainsIffOccurs(s: string, pattern: string)
    ensures Contains(s, pattern) <==> exists k :: OccursAt(s, pattern, k)
    decreases |s|
  {
    if StartsWith(s, pattern) {
      assert OccursAt(s, pattern, 0);
    } else if s != [] {
      ContainsIffOccurs(s[1..], pattern);
      if Contains(s[1..], pattern) {
        var k :| OccursAt(s[1..], pattern, k);
        assert s[1..][k..k + |pattern|] == s[k + 1..k + 1 + |pattern|];
        assert OccursAt(s, pattern, k + 1);
      }
      if k :| OccursAt(s, pattern, k) {
        assert k != 0;
        assert s[1..][k - 1..k - 1 + |pattern|] == s[k..k + |pattern|];
        assert OccursAt(s[1..], pattern, k - 1);
      }
    }
  }

  /** The title filter of the search page: `pattern` occurs in `title` when
      ASCII letters are compared without regard to case. */
  predicate MatchesIgnoringCase(title: string, pattern: string) {
    Contains(Lower(title), Lower(pattern))
  }

  /** The empty pattern matches every title. */
  lemma EmptyPatternMatchesAll(title: string)
    ensures MatchesIgnoringCase(title, "")
  {
  }
}
