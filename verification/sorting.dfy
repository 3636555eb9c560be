/** Stable insertion sort of a sequence by a string key under a caller-given
    comparison, the shape of `Array.prototype.sort` with a comparator. */
module Sorting {

  /** `before` relates every pair of keys one way or the other. */
  ghost predicate Total(before: (string, string) -> bool) {
    forall a, b :: before(a, b) || before(b, a)
  }

  ghost predicate Transitive(before: (string, string) -> bool) {
    forall a, b, c :: before(a, b) && before(b, c) ==> before(a, c)
  }

  /** Every element's key comes `before` the keys of all later elements. */
  ghost predicate SortedBy<T>(s: seq<T>, key: T -> string, before: (string, string) -> bool) {
    forall i, j :: 0 <= i < j < |s| ==> before(key(s[i]), key(s[j]))
  }

  /** Places `x` in front of the first element it may precede. */
  function Insert<T(==)>(x: T, s: seq<T>, key: T -> string, before: (string, string) -> bool): (r: seq<T>)
    requires Total(before) && Transitive(before)
    requires SortedBy(s, key, before)
    ensures multiset(r) == multiset(s) + multiset{x}
    ensures SortedBy(r, key, before)
  {
    if |s| == 0 then [x]
    else if before(key(x), key(s[0])) then
      assert forall j :: 0 <= j < |s| ==> before(key(x), key(s[j]));
      assert forall j :: 0 < j < |[x] + s| ==> ([x] + s)[j] == s[j - 1];
      [x] + s
    else
      var rest := Insert(x, s[1..], key, before);
      assert s == [s[0]] + s[1..];
      assert forall y :: y in rest ==> y == x || y in s[1..] by {
        forall y | y in rest ensures y == x || y in s[1..] {
          assert y in multiset(rest);
        }
      }
      assert forall y :: y in rest ==> before(key(s[0]), key(y));
      [s[0]] + rest
  }

  /** The elements of `s`, rearranged so their keys are in `before` order. */
  function SortBy<T(==)>(s: seq<T>, key: T -> string, before: (string, string) -> bool): (r: seq<T>)
    requires Total(before) && Transitive(before)
    ensures multiset(r) == multiset(s)
    ensures SortedBy(r, key, before)
  {
    if |s| == 0 then []
    else
      assert s == [s[0]] + s[1..];
      Insert(s[0], SortBy(s[1..], key, before), key, before)
  }
}
