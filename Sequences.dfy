/** Facts about sequence slices, stated once for every element type. */
module Sequences {
  /** The prefix one longer is the prefix with the next element appended. */
  lemma TakeSnoc<T>(xs: seq<T>, k: int)
    requires 0 <= k < |xs|
    ensures xs[..k + 1] == xs[..k] + [xs[k]]
  {
  }

  /** A non-empty sequence, alone and with more appended, is its head followed by the rest. */
  lemma HeadTail<T>(a: seq<T>, c: T, b: seq<T>)
    requires |a| > 0
    ensures a == [a[0]] + a[1..]
    ensures a + [c] + b == [a[0]] + (a[1..] + [c] + b)
  {
  }

  /**
   * A list of runs that is left + right, with something put in front of
   * the first run or a new run put in front, is that change to left
   * followed by right.
   */
  lemma ExtendFirst<T>(l: seq<seq<T>>, left: seq<seq<T>>, right: seq<seq<T>>, p: seq<T>)
    requires |left| > 0 && l == left + right
    ensures [p + l[0]] + l[1..] == ([p + left[0]] + left[1..]) + right
    ensures [p] + l == ([p] + left) + right
  {
    assert l[0] == left[0];
    assert l[1..] == left[1..] + right;
  }
}
