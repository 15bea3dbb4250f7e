/** Sequence and string operations the controller relies on: String.contains,
 *  the order-preserving filter of a java.util.stream pipeline, and the
 *  subsequence relation that says what such a filter keeps.
 */
module Sequences {

  // -----------------------------------------------------------------------
  // String.contains

  /** `query` occurs somewhere in `text`, scanning from the front. As in Java,
   *  the comparison is character by character (so case-sensitive), and the
   *  empty query occurs in every text. A char here is a Unicode scalar value,
   *  so a Java string with an unpaired UTF-16 surrogate has no counterpart. */
  predicate Contains(text: string, query: string)
    ensures query == [] ==> Contains(text, query)
    ensures Contains(text, query) ==> |query| <= |text|
    decreases |text|
  {
    query <= text || (0 < |text| && Contains(text[1..], query))
  }

  /** `query` occurs in `text` starting at position `i`. */
  ghost predicate OccursAt(text: string, query: string, i: int)
  {
    0 <= i && i + |query| <= |text| && text[i..i + |query|] == query
  }

  /** The scan finds the query exactly when it occurs at some position. */
  lemma {:induction false} ContainsIffOccurs(text: string, query: string)
    ensures Contains(text, query) <==> exists i :: OccursAt(text, query, i)
    decreases |text|
  {
    assert OccursAt(text, query, 0) <==> query <= text;
    if 0 < |text| {
      var tail := text[1..];
      ContainsIffOccurs(tail, query);
      forall i | 0 <= i
        ensures OccursAt(tail, query, i) <==> OccursAt(text, query, i + 1)
      {
        if i + |query| <= |tail| {
          assert tail[i..i + |query|] == text[i + 1..i + 1 + |query|];
        }
      }
      if exists i :: OccursAt(text, query, i) {
        var i :| OccursAt(text, query, i);
        if 0 < i {
          assert OccursAt(tail, query, i - 1);
        }
      }
    } else {
      forall i | OccursAt(text, query, i) ensures i == 0 {
      }
    }
  }

  // -----------------------------------------------------------------------
  // Subsequences

  /** `sub` is obtained from `s` by dropping elements and keeping the order
   *  of the rest. */
  predicate IsSubsequence<T(==)>(sub: seq<T>, s: seq<T>)
    decreases |s|
  {
    sub == []
    || (s != []
        && ((sub[0] == s[0] && IsSubsequence(sub[1..], s[1..]))
            || IsSubsequence(sub, s[1..])))
  }

  /** A subsequence of a subsequence of `c` is a subsequence of `c`. */
  lemma {:induction false} SubsequenceTransitive<T>(a: seq<T>, b: seq<T>, c: seq<T>)
    requires IsSubsequence(a, b) && IsSubsequence(b, c)
    ensures IsSubsequence(a, c)
    decreases |c|
  {
    if a != [] {
      if b[0] == c[0] && IsSubsequence(b[1..], c[1..]) {
        if a[0] == b[0] && IsSubsequence(a[1..], b[1..]) {
          SubsequenceTransitive(a[1..], b[1..], c[1..]);
        } else {
          SubsequenceTransitive(a, b[1..], c[1..]);
        }
      } else {
        SubsequenceTransitive(a, b, c[1..]);
      }
    }
  }

  // -----------------------------------------------------------------------
  // Stream filter

  /** The elements of `s` that `keep` accepts, in the order of `s`. `keep` is
   *  only asked about elements of `s`, and must be defined on each. */
  function Select<T(==)>(s: seq<T>, keep: T --> bool): (r: seq<T>)
    requires forall x :: x in s ==> keep.requires(x)
    ensures IsSubsequence(r, s)
    ensures forall x :: x in r ==> x in s && keep(x)
    ensures forall x :: x in s && keep(x) ==> x in r
    decreases |s|
  {
    if s == [] then []
    else if keep(s[0]) then [s[0]] + Select(s[1..], keep)
    else Select(s[1..], keep)
  }

  /** A filter that accepts every element returns its input unchanged. */
  lemma {:induction false} SelectKeepingAll<T>(s: seq<T>, keep: T --> bool)
    requires forall x :: x in s ==> keep.requires(x) && keep(x)
    ensures Select(s, keep) == s
    decreases |s|
  {
    if s != [] {
      SelectKeepingAll(s[1..], keep);
    }
  }
}
