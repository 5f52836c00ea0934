/** Sums of a weight over the entries of a sequence.  The state machines of this project keep one entry per
    thread; "how many threads are asleep" and "how much work is left" are sums of this kind. */
module Tally {

  function Sum<T>(s: seq<T>, w: T -> nat): nat
  {
    if s == [] then 0 else Sum(s[..|s| - 1], w) + w(s[|s| - 1])
  }

  /** Replacing one entry moves the sum by the difference of the two weights. */
  lemma {:induction false} SumUpdate<T>(s: seq<T>, w: T -> nat, i: nat, x: T)
    requires i < |s|
    ensures Sum(s[i := x], w) + w(s[i]) == Sum(s, w) + w(x)
  {
    var n := |s| - 1;
    if i == n {
      assert s[i := x][..n] == s[..n];
    } else {
      assert s[i := x][..n] == s[..n][i := x];
      SumUpdate(s[..n], w, i, x);
    }
  }

  /** No two entries weigh more than the whole. */
  lemma {:induction false} SumAtLeastTwo<T>(s: seq<T>, w: T -> nat, i: nat, j: nat)
    requires i < |s| && j < |s| && i != j
    ensures w(s[i]) + w(s[j]) <= Sum(s, w)
  {
    var n := |s| - 1;
    if i < n && j < n {
      SumAtLeastTwo(s[..n], w, i, j);
    } else if i < n {
      SumAtLeast(s[..n], w, i);
    } else {
      SumAtLeast(s[..n], w, j);
    }
  }

  lemma {:induction false} SumAtLeast<T>(s: seq<T>, w: T -> nat, i: nat)
    requires i < |s|
    ensures w(s[i]) <= Sum(s, w)
  {
    var n := |s| - 1;
    if i < n {
      SumAtLeast(s[..n], w, i);
    }
  }

  /** A positive sum has an entry with a positive weight. */
  lemma {:induction false} SumWitness<T>(s: seq<T>, w: T -> nat) returns (i: nat)
    requires Sum(s, w) > 0
    ensures i < |s| && w(s[i]) > 0
  {
    var n := |s| - 1;
    if w(s[n]) > 0 {
      i := n;
    } else {
      i := SumWitness(s[..n], w);
    }
  }

  /** Entries of equal weight sum to a product. */
  lemma {:induction false} SumConstant<T>(s: seq<T>, w: T -> nat, c: nat)
    requires forall i :: 0 <= i < |s| ==> w(s[i]) == c
    ensures Sum(s, w) == |s| * c
  {
    if s != [] {
      SumConstant(s[..|s| - 1], w, c);
    }
  }

  /** Entrywise smaller weights give a smaller sum. */
  lemma {:induction false} SumMonotone<T>(s: seq<T>, w: T -> nat, v: T -> nat)
    requires forall i :: 0 <= i < |s| ==> w(s[i]) <= v(s[i])
    ensures Sum(s, w) <= Sum(s, v)
  {
    if s != [] {
      SumMonotone(s[..|s| - 1], w, v);
    }
  }

  /** ... and one strictly smaller weight a strictly smaller sum. */
  lemma {:induction false} SumStrict<T>(s: seq<T>, w: T -> nat, v: T -> nat, i: nat)
    requires forall j :: 0 <= j < |s| ==> w(s[j]) <= v(s[j])
    requires i < |s| && w(s[i]) < v(s[i])
    ensures Sum(s, w) < Sum(s, v)
  {
    var n := |s| - 1;
    if i < n {
      SumStrict(s[..n], w, v, i);
    } else {
      SumMonotone(s[..n], w, v);
    }
  }
}
