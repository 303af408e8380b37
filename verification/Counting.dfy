/** Sums over the elements of a sequence, for counters that processes raise and lower one at a time. */
module Counting {

  function Total<T>(s: seq<T>, w: T -> nat): nat {
    if s == [] then 0 else Total(s[..|s| - 1], w) + w(s[|s| - 1])
  }

  /** Changing one element changes the sum by the change of its weight. */
  lemma {:induction false} TotalUpdate<T>(s: seq<T>, i: nat, v: T, w: T -> nat)
    requires i < |s|
    ensures Total(s[i := v], w) + w(s[i]) == Total(s, w) + w(v)
  {
    var n := |s| - 1;
    if i < n {
      TotalUpdate(s[..n], i, v, w);
      assert s[i := v][..n] == s[..n][i := v];
    } else {
      assert s[i := v][..n] == s[..n];
    }
  }

  lemma {:induction false} TotalAtLeast<T>(s: seq<T>, i: nat, w: T -> nat)
    requires i < |s|
    ensures w(s[i]) <= Total(s, w)
  {
    if i < |s| - 1 {
      TotalAtLeast(s[..|s| - 1], i, w);
    }
  }

  /** A positive sum has a positive element. */
  lemma {:induction false} TotalPositive<T>(s: seq<T>, w: T -> nat) returns (i: nat)
    requires Total(s, w) > 0
    ensures i < |s| && w(s[i]) > 0
  {
    if w(s[|s| - 1]) > 0 {
      i := |s| - 1;
    } else {
      i := TotalPositive(s[..|s| - 1], w);
    }
  }

  /** Weights of 0 and 1 sum to at most the length, and to the length only when all of them are 1. */
  lemma {:induction false} TotalAllOnes<T>(s: seq<T>, w: T -> nat)
    requires forall x :: w(x) <= 1
    ensures Total(s, w) <= |s|
    ensures Total(s, w) == |s| ==> forall i | 0 <= i < |s| :: w(s[i]) == 1
  {
    if s != [] {
      TotalAllOnes(s[..|s| - 1], w);
      if Total(s, w) == |s| {
        forall i | 0 <= i < |s|
          ensures w(s[i]) == 1
        {
          assert i < |s| - 1 ==> s[..|s| - 1][i] == s[i];
        }
      }
    }
  }

  lemma {:induction false} TotalSame<T>(s: seq<T>, w: T -> nat, w': T -> nat)
    requires forall i | 0 <= i < |s| :: w(s[i]) == w'(s[i])
    ensures Total(s, w) == Total(s, w')
  {
    if s != [] {
      TotalSame(s[..|s| - 1], w, w');
    }
  }

  /** When all elements but one weigh nothing, the sum is that one's weight. */
  lemma {:induction false} TotalConstant<T>(s: seq<T>, w: T -> nat, k: nat)
    requires forall i | 0 <= i < |s| :: w(s[i]) == k
    ensures Total(s, w) == |s| * k
  {
    if s != [] {
      TotalConstant(s[..|s| - 1], w, k);
    }
  }
}
