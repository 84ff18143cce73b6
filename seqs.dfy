/** Sequence and string facts used by both the fusion engine and the
    Gemini answer matcher. */
module Seqs {

  /** The order-preserving filter that both `for ... append` loops of the
      source compute: the elements of `xs` satisfying `keep`, in order,
      duplicates included. */
  function Filter(xs: seq<string>, keep: string -> bool): (r: seq<string>)
    ensures |r| <= |xs|
    ensures forall t :: t in r <==> t in xs && keep(t)
  {
    if xs == [] then []
    else if keep(xs[0]) then [xs[0]] + Filter(xs[1..], keep)
    else Filter(xs[1..], keep)
  }

  /** `a` can be obtained from `b` by deleting elements (greedy embedding). */
  predicate IsSubsequence(a: seq<string>, b: seq<string>)
    decreases |b|
  {
    if a == [] then true
    else if b == [] then false
    else if a[0] == b[0] then IsSubsequence(a[1..], b[1..])
    else IsSubsequence(a, b[1..])
  }

  /** Filtering one more element onto the end of a prefix: the step a loop
      over `xs` takes. */
  lemma {:induction false} FilterSnoc(xs: seq<string>, x: string, keep: string -> bool)
    ensures Filter(xs + [x], keep) == Filter(xs, keep) + (if keep(x) then [x] else [])
  {
    if xs == [] {
      assert [] + [x] == [x];
    } else {
      assert (xs + [x])[0] == xs[0];
      assert (xs + [x])[1..] == xs[1..] + [x];
      FilterSnoc(xs[1..], x, keep);
    }
  }

  /** The filter keeps the order of the input: its result is a subsequence. */
  lemma {:induction false} FilterIsSubsequence(xs: seq<string>, keep: string -> bool)
    ensures IsSubsequence(Filter(xs, keep), xs)
  {
    if xs != [] {
      FilterIsSubsequence(xs[1..], keep);
      if keep(xs[0]) {
        var r := Filter(xs, keep);
        assert r[0] == xs[0] && r[1..] == Filter(xs[1..], keep);
      } else {
        SubsequenceOfTail(Filter(xs[1..], keep), xs);
      }
    }
  }

  /** A subsequence of the tail of `b` is a subsequence of `b`. */
  lemma {:induction false} SubsequenceOfTail(a: seq<string>, b: seq<string>)
    requires b != []
    requires IsSubsequence(a, b[1..])
    ensures IsSubsequence(a, b)
    decreases |b|, 0
  {
    if a != [] && a[0] == b[0] {
      SubsequenceDropHead(a, b[1..]);
    }
  }

  /** If `a` is a subsequence of `b`, so is `a` without its first element. */
  lemma {:induction false} SubsequenceDropHead(a: seq<string>, b: seq<string>)
    requires a != []
    requires IsSubsequence(a, b)
    ensures IsSubsequence(a[1..], b)
    decreases |b|, 1
  {
    if a[0] != b[0] {
      SubsequenceDropHead(a, b[1..]);
    }
    SubsequenceOfTail(a[1..], b);
  }

  /** Every kept value occurs in the result exactly as often as in the
      input; every dropped value does not occur at all. */
  lemma {:induction false} FilterMultiplicity(xs: seq<string>, keep: string -> bool, t: string)
    ensures multiset(Filter(xs, keep))[t] == if keep(t) then multiset(xs)[t] else 0
  {
    if xs != [] {
      FilterMultiplicity(xs[1..], keep, t);
      assert xs == [xs[0]] + xs[1..];
      assert multiset(xs) == multiset([xs[0]]) + multiset(xs[1..]);
    }
  }

  /** The filter is empty exactly when no element satisfies `keep`. */
  lemma FilterEmptyIff(xs: seq<string>, keep: string -> bool)
    ensures Filter(xs, keep) == [] <==> forall t :: t in xs ==> !keep(t)
  {
    if Filter(xs, keep) != [] {
      assert Filter(xs, keep)[0] in Filter(xs, keep);
    }
  }

  /** Filters with pointwise-equal tests on the elements of `xs` agree. */
  lemma {:induction false} FilterExtensional(xs: seq<string>, p: string -> bool, q: string -> bool)
    requires forall t :: t in xs ==> p(t) == q(t)
    ensures Filter(xs, p) == Filter(xs, q)
  {
    if xs != [] {
      assert xs[0] in xs;
      assert forall t :: t in xs[1..] ==> t in xs;
      FilterExtensional(xs[1..], p, q);
    }
  }

  /** `sub` occurs in `s` starting at offset `k`. */
  predicate OccursAt(s: string, sub: string, k: nat)
  {
    k + |sub| <= |s| && s[k..k + |sub|] == sub
  }

  /** Go's `strings.Contains(s, sub)`: `sub` occurs contiguously in `s`
      (the empty string occurs in every string). */
  predicate Contains(s: string, sub: string)
    decreases |s|
  {
    if |sub| > |s| then false
    else s[..|sub|] == sub || Contains(s[1..], sub)
  }

  /** `Contains` is substring search: some offset of `s` starts a copy of `sub`. */
  lemma {:induction false} ContainsIff(s: string, sub: string)
    ensures Contains(s, sub) <==> exists k: nat :: OccursAt(s, sub, k)
    decreases |s|
  {
    if |sub| <= |s| {
      if s[..|sub|] == sub {
        assert OccursAt(s, sub, 0);
      } else {
        ContainsIff(s[1..], sub);
        if Contains(s[1..], sub) {
          var k: nat :| OccursAt(s[1..], sub, k);
          assert s[k + 1..k + 1 + |sub|] == s[1..][k..k + |sub|];
          assert OccursAt(s, sub, k + 1);
        }
        if k: nat :| OccursAt(s, sub, k) {
          assert k != 0;
          assert s[1..][k - 1..k - 1 + |sub|] == s[k..k + |sub|];
          assert OccursAt(s[1..], sub, k - 1);
        }
      }
    }
  }
}
