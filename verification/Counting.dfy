/**
  Sums over the threads of a concurrent system, and how one thread's step changes them.
*/
module Counting {

  function Sum<T>(f: T -> nat, s: seq<T>): nat {
    if s == [] then 0 else Sum(f, s[..|s| - 1]) + f(s[|s| - 1])
  }

  lemma {:induction false} SumUpdate<T>(f: T -> nat, s: seq<T>, i: nat, x: T)
    requires i < |s|
    ensures Sum(f, s[i := x]) + f(s[i]) == Sum(f, s) + f(x)
  {
    var k := |s| - 1;
    if i < k {
      SumUpdate(f, s[..k], i, x);
      assert s[i := x][..k] == s[..k][i := x];
    } else {
      assert s[i := x][..k] == s[..k];
    }
  }

  lemma SumAppend<T>(f: T -> nat, s: seq<T>, x: T)
    ensures Sum(f, s + [x]) == Sum(f, s) + f(x)
  {
    assert (s + [x])[..|s|] == s;
  }

  lemma {:induction false} SumPrefix<T>(f: T -> nat, s: seq<T>, k: nat)
    requires 0 < k <= |s|
    ensures Sum(f, s[..k]) == Sum(f, s[..k - 1]) + f(s[k - 1])
  {
    assert s[..k][..k - 1] == s[..k - 1];
  }

  lemma {:induction false} SumOfZeros<T>(f: T -> nat, s: seq<T>)
    requires forall i :: 0 <= i < |s| ==> f(s[i]) == 0
    ensures Sum(f, s) == 0
  {
    if s != [] {
      SumOfZeros(f, s[..|s| - 1]);
    }
  }

  /** A sum of zeros and ones is at most the length, and reaches it only if all are ones. */
  lemma {:induction false} SumOfIndicators<T>(f: T -> nat, s: seq<T>)
    requires forall x :: x in s ==> f(x) <= 1
    ensures Sum(f, s) <= |s|
    ensures Sum(f, s) == |s| <==> forall i :: 0 <= i < |s| ==> f(s[i]) == 1
  {
    if s != [] {
      var k := |s| - 1;
      SumOfIndicators(f, s[..k]);
      assert s[..k] + [s[k]] == s;
      if Sum(f, s) == |s| {
        forall i | 0 <= i < |s| ensures f(s[i]) == 1 {
          if i < k { assert s[..k][i] == s[i]; }
        }
      }
      if forall i :: 0 <= i < |s| ==> f(s[i]) == 1 {
        forall i | 0 <= i < k ensures f(s[..k][i]) == 1 {
          assert s[..k][i] == s[i];
        }
      }
    }
  }

  /** Replacing every element changes a sum by at most `d` for each of them. */
  lemma {:induction false} SumPointwise<T>(f: T -> nat, s: seq<T>, t: seq<T>, d: nat)
    requires |s| == |t| && forall i :: 0 <= i < |s| ==> f(s[i]) <= f(t[i]) <= f(s[i]) + d
    ensures Sum(f, s) <= Sum(f, t) <= Sum(f, s) + d * |s|
  {
    if s != [] {
      var k := |s| - 1;
      SumPointwise(f, s[..k], t[..k], d);
      assert d * |s| == d * k + d;
    }
  }
}
