/** ASCII character classes, code-unit string order and the first-occurrence
    search and replace that JavaScript's `String.prototype.replace` performs when
    given a string or a non-global pattern. */
module Strings {
  import opened Wrappers

  predicate IsUpper(c: char) {
    'A' <= c <= 'Z'
  }

  predicate IsLower(c: char) {
    'a' <= c <= 'z'
  }

  /** ASCII lower-casing of one character; anything outside 'A'..'Z' is kept. */
  function LowerChar(c: char): (r: char)
    ensures !IsUpper(r)
    ensures r == '_' <==> c == '_'
  {
    if IsUpper(c) then (c as int + 32) as char else c
  }

  /** ASCII `toLowerCase`. */
  function ToLower(s: string): (r: string)
    ensures |r| == |s|
    ensures forall i :: 0 <= i < |s| ==> r[i] == LowerChar(s[i])
  {
    if |s| == 0 then [] else [LowerChar(s[0])] + ToLower(s[1..])
  }

  predicate HasNoUpper(s: string) {
    forall i :: 0 <= i < |s| ==> !IsUpper(s[i])
  }

  /** `s` with every occurrence of `c` deleted. */
  function Remove(s: string, c: char): (r: string)
    ensures c !in r
    ensures forall x :: x in r ==> x in s
  {
    if |s| == 0 then [] else (if s[0] == c then [] else [s[0]]) + Remove(s[1..], c)
  }

  lemma {:induction false} RemoveConcat(a: string, b: string, c: char)
    ensures Remove(a + b, c) == Remove(a, c) + Remove(b, c)
    decreases |a|
  {
    if |a| == 0 {
      assert a + b == b;
    } else {
      assert (a + b)[0] == a[0];
      assert (a + b)[1..] == a[1..] + b;
      RemoveConcat(a[1..], b, c);
    }
  }

  /** Deleting underscores commutes with ASCII lower-casing. */
  lemma {:induction false} RemoveUnderscoreToLower(s: string)
    ensures Remove(ToLower(s), '_') == ToLower(Remove(s, '_'))
    decreases |s|
  {
    if |s| > 0 {
      var t := ToLower(s);
      assert t[0] == LowerChar(s[0]);
      assert t[1..] == ToLower(s[1..]);
      RemoveUnderscoreToLower(s[1..]);
      if s[0] == '_' {
        assert Remove(s, '_') == Remove(s[1..], '_');
      } else {
        assert Remove(s, '_') == [s[0]] + Remove(s[1..], '_');
        var u := Remove(s, '_');
        assert u[0] == s[0] && u[1..] == Remove(s[1..], '_');
      }
    }
  }

  /** Code-unit lexicographic order, the order of JavaScript's default
      `Array.prototype.sort` on ASCII strings. */
  predicate StringLe(a: string, b: string) {
    |a| == 0 || (|b| > 0 && (a[0] < b[0] || (a[0] == b[0] && StringLe(a[1..], b[1..]))))
  }

  lemma {:induction false} StringLeTotal(a: string, b: string)
    ensures StringLe(a, b) || StringLe(b, a)
    decreases |a|
  {
    if |a| > 0 && |b| > 0 && a[0] == b[0] {
      StringLeTotal(a[1..], b[1..]);
    }
  }

  lemma StringLeIsTotal()
    ensures forall a, b :: StringLe(a, b) || StringLe(b, a)
  {
    forall a, b ensures StringLe(a, b) || StringLe(b, a) {
      StringLeTotal(a, b);
    }
  }

  lemma {:induction false} StringLeTransitive(a: string, b: string, c: string)
    requires StringLe(a, b) && StringLe(b, c)
    ensures StringLe(a, c)
    decreases |a|
  {
    if |a| > 0 && a[0] == b[0] && b[0] == c[0] {
      StringLeTransitive(a[1..], b[1..], c[1..]);
    }
  }

  lemma StringLeIsTransitive()
    ensures forall a, b, c :: StringLe(a, b) && StringLe(b, c) ==> StringLe(a, c)
  {
    forall a, b, c | StringLe(a, b) && StringLe(b, c) ensures StringLe(a, c) {
      StringLeTransitive(a, b, c);
    }
  }

  /** `pat` occurs in `s` starting at index `i`. */
  predicate OccursAt(s: string, pat: string, i: int) {
    0 <= i && i + |pat| <= |s| && s[i..i + |pat|] == pat
  }

  /** The least index at or after `from` where `pat` occurs in `s`, if any. */
  function IndexOf(s: string, pat: string, from: nat): (r: Option<nat>)
    ensures r.Some? ==> from <= r.value && OccursAt(s, pat, r.value)
    ensures r.Some? ==> forall j :: from <= j < r.value ==> !OccursAt(s, pat, j)
    ensures r.None? ==> forall j :: from <= j ==> !OccursAt(s, pat, j)
    decreases |s| + 1 - from
  {
    if from + |pat| > |s| then None
    else if s[from..from + |pat|] == pat then Some(from)
    else IndexOf(s, pat, from + 1)
  }

  /** `pat` does not occur anywhere in `s`. */
  predicate Absent(s: string, pat: string) {
    forall j :: 0 <= j <= |s| ==> !OccursAt(s, pat, j)
  }

  /** `i` is the first index where `pat` occurs in `s`. */
  predicate FirstOccurrence(s: string, pat: string, i: int) {
    OccursAt(s, pat, i) && forall j :: 0 <= j < i ==> !OccursAt(s, pat, j)
  }

  /** `s.replace(pat, rep)` for a string or non-global pattern: only the first
      occurrence of `pat` is replaced; without one, `s` is returned unchanged. */
  function ReplaceFirst(s: string, pat: string, rep: string): (r: string)
    ensures Absent(s, pat) ==> r == s
    ensures forall i :: FirstOccurrence(s, pat, i) ==> r == s[..i] + rep + s[i + |pat|..]
  {
    match IndexOf(s, pat, 0)
    case None => s
    case Some(i) => s[..i] + rep + s[i + |pat|..]
  }

  /** `s.split(sep)[0]`: the text before the first occurrence of `sep`, or all of
      `s` when `sep` does not occur. */
  function FirstSegment(s: string, sep: string): (r: string)
    requires |sep| > 0
    ensures Absent(s, sep) ==> r == s
    ensures forall i :: FirstOccurrence(s, sep, i) ==> r == s[..i]
  {
    match IndexOf(s, sep, 0)
    case None => s
    case Some(i) => s[..i]
  }

  /** A one-character pattern occurs exactly where that character is. */
  lemma OccursAtChar(s: string, c: char, j: int)
    ensures OccursAt(s, [c], j) <==> 0 <= j < |s| && s[j] == c
  {
    if 0 <= j < |s| {
      assert s[j..j + 1] == [s[j]];
    }
  }

  lemma NoCharBeforeOffset(p: string, s: string, c: char, k: int)
    requires c !in p
    requires 0 <= k <= |s| && forall j :: 0 <= j < k ==> s[j] != c
    ensures forall j :: 0 <= j < |p| + k ==> !OccursAt(p + s, [c], j)
  {
    var t := p + s;
    forall j | 0 <= j < |p| + k ensures !OccursAt(t, [c], j) {
      OccursAtChar(t, c, j);
      if j < |p| {
        assert t[j] == p[j];
      } else {
        assert t[j] == s[j - |p|];
      }
    }
  }

  /** A single-character pattern whose character does not occur in `p` is first
      found, if at all, after `p`. */
  lemma ReplaceFirstAfterPrefix(p: string, s: string, c: char, rep: string)
    requires c !in p
    ensures ReplaceFirst(p + s, [c], rep) == p + ReplaceFirst(s, [c], rep)
  {
    var t := p + s;
    match IndexOf(s, [c], 0)
    case None =>
      forall j | 0 <= j < |s| ensures s[j] != c {
        OccursAtChar(s, c, j);
      }
      NoCharBeforeOffset(p, s, c, |s|);
      assert Absent(s, [c]);
      assert Absent(t, [c]);
    case Some(i) =>
      assert FirstOccurrence(s, [c], i);
      OccursAtChar(s, c, i);
      forall j | 0 <= j < i ensures s[j] != c {
        OccursAtChar(s, c, j);
      }
      NoCharBeforeOffset(p, s, c, i);
      assert t[|p| + i] == s[i];
      OccursAtChar(t, c, |p| + i);
      assert FirstOccurrence(t, [c], |p| + i);
      assert t[..|p| + i] == p + s[..i];
      assert t[|p| + i + 1..] == s[i + 1..];
  }

  /** Replacing the first `c` when it is the very first character. */
  lemma ReplaceFirstAtStart(c: char, s: string, rep: string)
    ensures ReplaceFirst([c] + s, [c], rep) == rep + s
  {
    var t := [c] + s;
    OccursAtChar(t, c, 0);
    assert FirstOccurrence(t, [c], 0);
    assert t[1..] == s;
  }
}
