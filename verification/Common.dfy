/** Small shared vocabulary: options, sequences without repeats, and sums over sequences. */
module Common {

  datatype Option<+T> = None | Some(value: T)

  ghost predicate NoRepeats<T>(s: seq<T>) {
    forall a, b :: 0 <= a < b < |s| ==> s[a] != s[b]
  }

  /** The sum of `f` over the elements of `s`; with an indicator function, a count. */
  ghost function Sum<T>(s: seq<T>, f: T -> nat): nat {
    if s == [] then 0 else Sum(s[..|s| - 1], f) + f(s[|s| - 1])
  }

  lemma SumAppend<T>(s: seq<T>, x: T, f: T -> nat)
    ensures Sum(s + [x], f) == Sum(s, f) + f(x)
  {
    assert (s + [x])[..|s|] == s;
  }

  lemma {:induction false} SumUpdate<T>(s: seq<T>, i: nat, x: T, f: T -> nat)
    requires i < |s|
    ensures Sum(s[i := x], f) + f(s[i]) == Sum(s, f) + f(x)
  {
    var n := |s| - 1;
    if i == n {
      assert s[i := x][..n] == s[..n];
    } else {
      assert s[i := x][..n] == s[..n][i := x];
      SumUpdate(s[..n], i, x, f);
    }
  }

  lemma {:induction false} SumPointwise<T>(s: seq<T>, s': seq<T>, f: T -> nat)
    requires |s| == |s'| && forall i :: 0 <= i < |s| ==> f(s'[i]) <= f(s[i])
    ensures Sum(s', f) <= Sum(s, f)
  {
    if s != [] {
      SumPointwise(s[..|s| - 1], s'[..|s| - 1], f);
    }
  }

  lemma {:induction false} SumScaled<T>(s: seq<T>, f: T -> nat, g: T -> nat, c: nat)
    requires forall x :: x in s ==> f(x) <= c * g(x)
    ensures Sum(s, f) <= c * Sum(s, g)
  {
    if s != [] {
      var n := |s| - 1;
      SumScaled(s[..n], f, g, c);
      assert s[n] in s;
      assert c * (Sum(s[..n], g) + g(s[n])) == c * Sum(s[..n], g) + c * g(s[n]);
    }
  }

  lemma Product(x: real, y: real)
    requires x >= 0.0 && y >= 0.0
    ensures x * y >= 0.0
  {
  }
}
