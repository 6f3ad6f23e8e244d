/** The JavaScript string operations the scripts rely on: `includes`,
    `indexOf`, `replace` with a string pattern, `endsWith`, `trim` and the
    regular-expression class `\s`. Strings are sequences of code points. */
module Text {

  /** A character that `String.prototype.trim` removes and that `\s` matches
      (the WhiteSpace and LineTerminator sets of ECMAScript). */
  predicate IsSpace(c: char) {
    c == '\t' || c == '\n' || c == '\U{000B}' || c == '\U{000C}' || c == '\r' || c == ' '
    || c == '\U{00A0}' || c == '\U{1680}' || ('\U{2000}' <= c <= '\U{200A}')
    || c == '\U{2028}' || c == '\U{2029}' || c == '\U{202F}' || c == '\U{205F}'
    || c == '\U{3000}' || c == '\U{FEFF}'
  }

  /** `!s.trim()`: the string is empty once surrounding white space is removed. */
  predicate IsBlank(s: string) {
    forall i :: 0 <= i < |s| ==> IsSpace(s[i])
  }

  /** `sub` occurs in `s` starting at index `i`. */
  predicate Occurs(s: string, sub: string, i: int) {
    0 <= i && i + |sub| <= |s| && s[i..i + |sub|] == sub
  }

  /** `s.includes(sub)`. */
  predicate Contains(s: string, sub: string) {
    exists i | 0 <= i <= |s| :: Occurs(s, sub, i)
  }

  predicate StartsWith(s: string, prefix: string) {
    |prefix| <= |s| && s[..|prefix|] == prefix
  }

  /** `s.endsWith(suffix)`. */
  predicate EndsWith(s: string, suffix: string) {
    |suffix| <= |s| && s[|s| - |suffix|..] == suffix
  }

  /** The first occurrence of `sub` at or after `from`, or -1. */
  function IndexFrom(s: string, sub: string, from: nat): (r: int)
    requires from <= |s|
    ensures r == -1 || (from <= r && Occurs(s, sub, r))
    ensures forall j :: from <= j && (r == -1 || j < r) ==> !Occurs(s, sub, j)
    decreases |s| - from
  {
    if Occurs(s, sub, from) then from
    else if from == |s| then -1
    else IndexFrom(s, sub, from + 1)
  }

  /** `s.indexOf(sub)`: the first occurrence of `sub`, or -1 when there is none. */
  function IndexOf(s: string, sub: string): (r: int)
    ensures r >= 0 <==> Contains(s, sub)
    ensures r >= 0 ==> Occurs(s, sub, r) && forall j :: 0 <= j < r ==> !Occurs(s, sub, j)
  {
    IndexFrom(s, sub, 0)
  }

  /** `s.replace(pattern, replacement)` with a string pattern: only the first
      occurrence is replaced, and nothing happens when there is none. */
  function ReplaceFirst(s: string, pattern: string, replacement: string): string {
    var i := IndexOf(s, pattern);
    if i < 0 then s else s[..i] + replacement + s[i + |pattern|..]
  }

  lemma OccursWitness(s: string, sub: string, i: int)
    requires Occurs(s, sub, i)
    ensures Contains(s, sub)
  {
  }

  /** A piece of a concatenation occurs in it. */
  lemma ContainsMiddle(a: string, m: string, b: string)
    ensures Contains(a + m + b, m)
  {
    assert (a + m + b)[|a|..|a| + |m|] == m;
    OccursWitness(a + m + b, m, |a|);
  }

  /** An occurrence survives having text added on either side. */
  lemma ContainsExtend(a: string, s: string, b: string, sub: string)
    requires Contains(s, sub)
    ensures Contains(a + s + b, sub)
  {
    var i :| 0 <= i <= |s| && Occurs(s, sub, i);
    assert (a + s + b)[|a| + i..|a| + i + |sub|] == s[i..i + |sub|];
    OccursWitness(a + s + b, sub, |a| + i);
  }

  /** Replacing the first `anchor` by `anchor + extra` inserts `extra` right
      after the first occurrence of the anchor. */
  lemma ReplaceKeepsAnchor(s: string, anchor: string, extra: string)
    requires Contains(s, anchor)
    ensures IndexOf(s, anchor) + |anchor| <= |s|
    ensures ReplaceFirst(s, anchor, anchor + extra) ==
              s[..IndexOf(s, anchor) + |anchor|] + extra + s[IndexOf(s, anchor) + |anchor|..]
  {
    var i := IndexOf(s, anchor);
    var k := i + |anchor|;
    assert s[..k] == s[..i] + anchor;
  }

  /** Each character covered by an occurrence of `sub` is a character of `sub`. */
  lemma OccurrenceHolds(s: string, sub: string, p: int, j: int)
    ensures Occurs(s, sub, p) && p <= j < p + |sub| ==> s[j] in sub
  {
    if Occurs(s, sub, p) && p <= j < p + |sub| {
      assert s[j] == s[p..p + |sub|][j - p];
    }
  }

  lemma FirstChar(s: string, sub: string, p: int)
    requires Occurs(s, sub, p) && sub != []
    ensures s[p] == sub[0]
  {
    assert s[p..p + |sub|][0] == s[p];
  }

  /** An occurrence that ends before an insertion point survives the insertion. */
  lemma InsertKeepsBefore(s: string, extra: string, sub: string, k: int, p: int)
    requires 0 <= k <= |s| && Occurs(s, sub, p) && p + |sub| <= k
    ensures Contains(s[..k] + extra + s[k..], sub)
  {
    var r := s[..k] + extra + s[k..];
    assert r[p..p + |sub|] == s[p..p + |sub|];
    OccursWitness(r, sub, p);
  }

  /** An occurrence that starts after an insertion point survives it, shifted. */
  lemma InsertKeepsAfter(s: string, extra: string, sub: string, k: int, p: int)
    requires 0 <= k <= |s| && Occurs(s, sub, p) && k <= p
    ensures Contains(s[..k] + extra + s[k..], sub)
  {
    var r := s[..k] + extra + s[k..];
    assert r[p + |extra|..p + |extra| + |sub|] == s[p..p + |sub|];
    OccursWitness(r, sub, p + |extra|);
  }

  /** Inserting text after the first occurrence of an anchor keeps every
      string that cannot overlap the anchor's last character: its first
      character is not in the anchor and the anchor's first is not in it. */
  lemma {:induction false} InsertAfterAnchorKeeps(s: string, anchor: string, extra: string, sub: string)
    requires Contains(s, sub) && anchor != [] && sub != []
    requires anchor[0] !in sub && sub[0] !in anchor
    ensures Contains(ReplaceFirst(s, anchor, anchor + extra), sub)
  {
    if Contains(s, anchor) {
      var i := IndexOf(s, anchor);
      var k := i + |anchor|;
      ReplaceKeepsAnchor(s, anchor, extra);
      var r := s[..k] + extra + s[k..];
      var p :| 0 <= p <= |s| && Occurs(s, sub, p);
      // an occurrence of `sub` cannot straddle the end of the anchor
      OccurrenceHolds(s, sub, p, i);
      OccurrenceHolds(s, anchor, i, p);
      FirstChar(s, sub, p);
      FirstChar(s, anchor, i);
      if p + |sub| <= k {
        InsertKeepsBefore(s, extra, sub, k, p);
      } else {
        InsertKeepsAfter(s, extra, sub, k, p);
      }
    }
  }

  /** The characters left after dropping leading white space. */
  function SkipSpaces(s: string): (r: string)
    ensures |r| <= |s| && r == s[|s| - |r|..]
    ensures r == [] || !IsSpace(r[0])
    ensures IsBlank(s[..|s| - |r|])
  {
    if s != [] && IsSpace(s[0]) then
      var r := SkipSpaces(s[1..]);
      assert s[1..][..|s| - 1 - |r|] == s[1..|s| - |r|];
      r
    else s
  }

  /** Leading white space followed by a non-space character is skipped exactly. */
  lemma {:induction false} SkipSpacesPrefix(w: string, u: string)
    requires IsBlank(w)
    requires u == [] || !IsSpace(u[0])
    ensures SkipSpaces(w + u) == u
  {
    if w != [] {
      assert (w + u)[1..] == w[1..] + u;
      SkipSpacesPrefix(w[1..], u);
    }
  }
}
