/** Generic scanning primitives over sequences: maximal runs and substring search. */
module Scan {

  /** Length of the longest prefix of `s` whose elements all satisfy `p`. */
  function Span<T>(s: seq<T>, p: T -> bool): (n: nat)
    ensures n <= |s|
    ensures forall i :: 0 <= i < n ==> p(s[i])
    ensures n == |s| || !p(s[n])
  {
    if |s| == 0 || !p(s[0]) then 0 else 1 + Span(s[1..], p)
  }

  /** Length of the longest suffix of `s` whose elements all satisfy `p`. */
  function SpanBack<T>(s: seq<T>, p: T -> bool): (n: nat)
    ensures n <= |s|
    ensures forall i :: |s| - n <= i < |s| ==> p(s[i])
    ensures n == |s| || !p(s[|s| - n - 1])
  {
    if |s| == 0 || !p(s[|s| - 1]) then 0 else 1 + SpanBack(s[..|s| - 1], p)
  }

  /** `SpanBack` of a tail of `s`, read as positions of `s` itself. */
  lemma SpanBackOfTail<T>(s: seq<T>, a: nat, p: T -> bool)
    requires a <= |s|
    ensures var e := SpanBack(s[a..], p);
            && (forall i :: |s| - e <= i < |s| ==> p(s[i]))
            && (a < |s| - e ==> !p(s[|s| - e - 1]))
  {
    assert forall i :: a <= i < |s| ==> s[a..][i - a] == s[i];
  }

  /** A run of `p`-elements followed by an element that is not one is measured exactly. */
  lemma SpanOfPrefix<T>(a: seq<T>, b: seq<T>, p: T -> bool)
    requires forall i :: 0 <= i < |a| ==> p(a[i])
    requires |b| == 0 || !p(b[0])
    ensures Span(a + b, p) == |a|
  {
    assert forall i :: 0 <= i < |a| ==> (a + b)[i] == a[i];
    if |b| > 0 {
      assert (a + b)[|a|] == b[0];
    }
  }

  lemma ConcatAssoc<T>(a: seq<T>, b: seq<T>, c: seq<T>, d: seq<T>)
    ensures a + (b + (c + d)) == a + b + c + d
  {
  }

  lemma DropOfConcat<T>(a: seq<T>, b: seq<T>, k: nat)
    requires k <= |a|
    ensures (a + b)[k..] == a[k..] + b
  {
  }

  lemma ConcatAssoc3<T>(a: seq<T>, b: seq<T>, c: seq<T>)
    ensures (a + b) + c == a + (b + c)
  {
  }

  /** `pat` occurs in `s` starting at position `i`. */
  predicate OccursAt<T(==)>(s: seq<T>, pat: seq<T>, i: int) {
    0 <= i && i + |pat| <= |s| && s[i..(i + |pat|)] == pat
  }

  /** `pat` is a contiguous piece of `s`. */
  predicate IsInfix<T(==)>(pat: seq<T>, s: seq<T>) {
    exists i :: 0 <= i <= |s| && OccursAt(s, pat, i)
  }

  /** Left-to-right substring search. */
  function Contains<T(==)>(s: seq<T>, pat: seq<T>): bool
    decreases |s|
  {
    if |s| < |pat| then false
    else if s[..|pat|] == pat then true
    else Contains(s[1..], pat)
  }

  /** The search answers exactly the question whether `pat` occurs in `s`. */
  lemma {:induction false} ContainsIsInfix<T>(s: seq<T>, pat: seq<T>)
    ensures Contains(s, pat) <==> IsInfix(pat, s)
    decreases |s|
  {
    if |s| < |pat| {
      forall i | OccursAt(s, pat, i) ensures false { }
    } else if s[..|pat|] == pat {
      assert OccursAt(s, pat, 0);
    } else {
      ContainsIsInfix(s[1..], pat);
      if IsInfix(pat, s[1..]) {
        var i :| 0 <= i <= |s[1..]| && OccursAt(s[1..], pat, i);
        OccursInTail(s, pat, i);
      }
      if IsInfix(pat, s) {
        var i :| 0 <= i <= |s| && OccursAt(s, pat, i);
        assert i != 0;
        OccursInTail(s, pat, i - 1);
      }
    }
  }

  /** An occurrence in the tail of `s` is an occurrence in `s`, one position later. */
  lemma OccursInTail<T>(s: seq<T>, pat: seq<T>, i: nat)
    requires |s| > 0
    ensures OccursAt(s[1..], pat, i) <==> OccursAt(s, pat, i + 1)
  {
    if i + 1 + |pat| <= |s| {
      assert s[1..][i..i + |pat|] == s[i + 1..i + 1 + |pat|];
    }
  }

  lemma InfixOfSelf<T>(s: seq<T>)
    ensures IsInfix(s, s)
  {
    assert OccursAt(s, s, 0);
  }

  lemma InfixTransitive<T>(a: seq<T>, b: seq<T>, c: seq<T>)
    requires IsInfix(a, b) && IsInfix(b, c)
    ensures IsInfix(a, c)
  {
    var i :| 0 <= i <= |b| && OccursAt(b, a, i);
    var j :| 0 <= j <= |c| && OccursAt(c, b, j);
    assert forall k :: 0 <= k < |a| ==> c[j + i..j + i + |a|][k] == b[i + k] == a[k];
    assert OccursAt(c, a, j + i);
  }

  /** Both halves of a concatenation are pieces of it. */
  lemma InfixOfConcat<T>(a: seq<T>, b: seq<T>)
    ensures IsInfix(a, a + b) && IsInfix(b, a + b)
  {
    assert (a + b)[..|a|] == a;
    assert OccursAt(a + b, a, 0);
    assert (a + b)[|a|..|a| + |b|] == b;
    assert OccursAt(a + b, b, |a|);
  }

  /** A sequence that lacks the first element of `pat` cannot contain `pat`. */
  lemma NotInfixWithoutHead<T>(s: seq<T>, pat: seq<T>)
    requires |pat| > 0 && pat[0] !in s
    ensures !IsInfix(pat, s)
  {
  }
}
