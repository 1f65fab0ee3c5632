/**
 * The JavaScript string operations the news pipeline relies on:
 * `toLowerCase` (restricted to ASCII), `startsWith`, `includes` and `trim`.
 */
module Text {

  predicate IsUpper(c: char) { 'A' <= c <= 'Z' }

  /** Lower-cases one character; only the 26 ASCII capitals change. */
  function LowerChar(c: char): (r: char)
    ensures !IsUpper(r)
    ensures !IsUpper(c) ==> r == c
    ensures IsUpper(c) ==> r as int == c as int + 32
  {
    if IsUpper(c) then (c as int + 32) as char else c
  }

  /** `s.toLowerCase()` on the ASCII letters. */
  function Lower(s: string): (r: string)
    ensures |r| == |s|
    ensures forall i :: 0 <= i < |r| ==> !IsUpper(r[i])
  {
    seq(|s|, i requires 0 <= i < |s| => LowerChar(s[i]))
  }

  /** Each capital becomes its lower-case letter, and every other character is kept. */
  lemma LowerEachChar(s: string)
    ensures forall i :: 0 <= i < |s| ==>
              && (!IsUpper(s[i]) ==> Lower(s)[i] == s[i])
              && (IsUpper(s[i]) ==> Lower(s)[i] as int == s[i] as int + 32)
  {
  }

  /** Lower-casing works character by character, so it distributes over concatenation. */
  lemma LowerAppend(a: string, b: string)
    ensures Lower(a + b) == Lower(a) + Lower(b)
  {
  }

  /** `s.startsWith(p)`. */
  predicate StartsWith(s: string, p: string) {
    |p| <= |s| && s[..|p|] == p
  }

  /** `s.includes(w)`: `w` occurs somewhere in `s` as a contiguous substring. */
  predicate Includes(s: string, w: string)
    decreases |s|
  {
    StartsWith(s, w) || (s != [] && Includes(s[1..], w))
  }

  /** `w` sits in `s` starting at offset `i`. */
  predicate OccursAt(s: string, w: string, i: int) {
    0 <= i <= |s| - |w| && s[i..i + |w|] == w
  }

  /** `Includes` holds exactly when `w` sits at some offset of `s`. */
  lemma {:induction false} IncludesAt(s: string, w: string)
    ensures Includes(s, w) <==> exists i :: OccursAt(s, w, i)
    decreases |s|
  {
    if StartsWith(s, w) {
      assert OccursAt(s, w, 0);
    } else if s == [] {
      assert forall i :: !OccursAt(s, w, i);
    } else {
      IncludesAt(s[1..], w);
      if Includes(s[1..], w) {
        var i :| OccursAt(s[1..], w, i);
        assert s[1..][i..i + |w|] == s[i + 1..i + 1 + |w|];
        assert OccursAt(s, w, i + 1);
      }
      if exists i :: OccursAt(s, w, i) {
        var i :| OccursAt(s, w, i);
        assert i != 0;
        assert s[1..][i - 1..i - 1 + |w|] == s[i..i + |w|];
        assert OccursAt(s[1..], w, i - 1);
      }
    }
  }

  /** `w` cannot occur where its first letter never starts a long enough stretch of `s`. */
  lemma NotIncludedWithoutFirstLetter(s: string, w: string)
    requires w != []
    requires forall i :: 0 <= i <= |s| - |w| ==> s[i] != w[0]
    ensures !Includes(s, w)
  {
    forall i ensures !OccursAt(s, w, i) {
      if 0 <= i <= |s| - |w| {
        assert s[i..i + |w|][0] == s[i];
      }
    }
    IncludesAt(s, w);
  }

  /** A character `String.prototype.trim` removes: JavaScript's WhiteSpace and LineTerminator. */
  predicate IsSpace(c: char) {
    c == '\t' || c == '\n' || c == '\U{000B}' || c == '\U{000C}' || c == '\r' || c == ' '
    || c == '\U{00A0}' || c == '\U{1680}' || ('\U{2000}' <= c <= '\U{200A}')
    || c == '\U{2028}' || c == '\U{2029}' || c == '\U{202F}' || c == '\U{205F}'
    || c == '\U{3000}' || c == '\U{FEFF}'
  }

  /** The first index from `i` on that does not hold white space, or `|s|` when there is none. */
  function SkipSpaces(s: string, i: nat): (k: nat)
    requires i <= |s|
    ensures i <= k <= |s|
    ensures k == |s| || !IsSpace(s[k])
    ensures forall m :: i <= m < k ==> IsSpace(s[m])
    decreases |s| - i
  {
    if i < |s| && IsSpace(s[i]) then SkipSpaces(s, i + 1) else i
  }

  /** The end of `s[lo..hi]` once its trailing white space is dropped. */
  function SkipSpacesBack(s: string, lo: nat, hi: nat): (k: nat)
    requires lo <= hi <= |s|
    ensures lo <= k <= hi
    ensures k == lo || !IsSpace(s[k - 1])
    ensures forall m :: k <= m < hi ==> IsSpace(s[m])
    decreases hi
  {
    if lo < hi && IsSpace(s[hi - 1]) then SkipSpacesBack(s, lo, hi - 1) else hi
  }

  /** `s.trim()`: empty exactly when `s` is all white space; otherwise it has no white space at either end. */
  function Trim(s: string): (r: string)
    ensures r == [] <==> forall k :: 0 <= k < |s| ==> IsSpace(s[k])
    ensures r != [] ==> !IsSpace(r[0]) && !IsSpace(r[|r| - 1])
  {
    var start := SkipSpaces(s, 0);
    var end := SkipSpacesBack(s, start, |s|);
    var r := s[start..end];
    assert r != [] ==> r[0] == s[start] && !IsSpace(s[start]) && r[|r| - 1] == s[end - 1];
    assert r == [] ==> forall k :: 0 <= k < |s| ==> (k < start || end <= k) && IsSpace(s[k]);
    r
  }

  /**
   * Trimming removes exactly the white space at both ends: what is cut off before
   * and after the result is all white space, and the result's own ends are not.
   */
  lemma TrimCutsOnlyEdges(s: string)
    ensures exists i, j ::
              && 0 <= i <= j <= |s| && Trim(s) == s[i..j]
              && (forall k :: 0 <= k < i ==> IsSpace(s[k]))
              && (forall k :: j <= k < |s| ==> IsSpace(s[k]))
  {
    var start := SkipSpaces(s, 0);
    var end := SkipSpacesBack(s, start, |s|);
    assert Trim(s) == s[start..end];
  }

  /** The trimmed text is found inside the text. */
  lemma TrimIsIncluded(s: string)
    ensures Includes(s, Trim(s))
  {
    var start := SkipSpaces(s, 0);
    var end := SkipSpacesBack(s, start, |s|);
    assert Trim(s) == s[start..end];
    assert OccursAt(s, Trim(s), start);
    IncludesAt(s, Trim(s));
  }
}
