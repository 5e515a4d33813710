/** Order-preservation facts for lists built by successive `push`. */
module Sequences {

  /** `xs` can be obtained from `ys` by deleting elements: the elements of `xs` occur in
      `ys` in the same order. */
  ghost predicate IsSubsequence<T>(xs: seq<T>, ys: seq<T>) {
    if xs == [] then true
    else if ys == [] then false
    else if xs[0] == ys[0] then IsSubsequence(xs[1..], ys[1..])
    else IsSubsequence(xs, ys[1..])
  }

  /** Skipping a candidate keeps a subsequence a subsequence. */
  lemma {:induction false} SubsequenceSkip<T>(xs: seq<T>, ys: seq<T>, y: T)
    requires IsSubsequence(xs, ys)
    ensures IsSubsequence(xs, ys + [y])
  {
    if xs != [] {
      assert ys != [];
      assert (ys + [y])[0] == ys[0] && (ys + [y])[1..] == ys[1..] + [y];
      if xs[0] == ys[0] {
        SubsequenceSkip(xs[1..], ys[1..], y);
      } else {
        SubsequenceSkip(xs, ys[1..], y);
      }
    }
  }

  /** Pushing a candidate onto both lists keeps a subsequence a subsequence. */
  lemma {:induction false} SubsequenceTake<T>(xs: seq<T>, ys: seq<T>, y: T)
    requires IsSubsequence(xs, ys)
    ensures IsSubsequence(xs + [y], ys + [y])
  {
    if ys == [] {
      assert xs == [];
      assert xs + [y] == [y] == ys + [y];
      assert IsSubsequence([y][1..], [y][1..]);
    } else if xs == [] {
      assert (ys + [y])[1..] == ys[1..] + [y];
      assert IsSubsequence<T>([], ys[1..]);
      SubsequenceTake([], ys[1..], y);
      assert xs + [y] == [y];
      if y != ys[0] {
        assert IsSubsequence([y], (ys + [y])[1..]);
      } else {
        assert [y][1..] == [] && IsSubsequence([y][1..], (ys + [y])[1..]);
      }
    } else {
      assert (xs + [y])[0] == xs[0] && (xs + [y])[1..] == xs[1..] + [y];
      assert (ys + [y])[0] == ys[0] && (ys + [y])[1..] == ys[1..] + [y];
      if xs[0] == ys[0] {
        SubsequenceTake(xs[1..], ys[1..], y);
      } else {
        SubsequenceTake(xs, ys[1..], y);
      }
    }
  }

  /** Everything in a subsequence comes from the list it was taken from. */
  lemma {:induction false} SubsequenceMembers<T>(xs: seq<T>, ys: seq<T>)
    requires IsSubsequence(xs, ys)
    ensures forall x :: x in xs ==> x in ys
  {
    if xs != [] && ys != [] {
      if xs[0] == ys[0] {
        SubsequenceMembers(xs[1..], ys[1..]);
        assert forall x :: x in xs ==> x == xs[0] || x in xs[1..];
      } else {
        SubsequenceMembers(xs, ys[1..]);
      }
    }
  }
}
