/** The maximum and the sums of a sequence of reals. */
module RealSeqs {

  function Max(s: seq<real>): (m: real)
    requires |s| > 0
    ensures m in s && forall i :: 0 <= i < |s| ==> s[i] <= m
  {
    if |s| == 1 then s[0]
    else
      var n := |s| - 1;
      var m := Max(s[..n]);
      assert forall i :: 0 <= i < n ==> s[i] == s[..n][i];
      if s[n] > m then s[n] else m
  }

  /** The sum of the first n members. */
  ghost function Sum(s: seq<real>, n: nat): real
    requires n <= |s|
  {
    if n == 0 then 0.0 else Sum(s, n - 1) + s[n - 1]
  }

  /** The sum of one member is the member; the sum of two parts is the sum of their sums. */
  lemma {:induction false} SumOfParts(x: real, a: seq<real>, b: seq<real>)
    ensures Sum([x], 1) == x
    ensures Sum(a + b, |a| + |b|) == Sum(a, |a|) + Sum(b, |b|)
  {
    if b == [] {
      assert a + b == a;
    } else {
      var n := |b| - 1;
      SumOfParts(x, a, b[..n]);
      SumOfPrefix(a + b, |a| + n, |a| + n);
      SumOfPrefix(b, n, n);
      assert (a + b)[..|a| + n] == a + b[..n];
    }
    assert Sum([x], 0) == 0.0;
  }

  lemma {:induction false} SumPositive(s: seq<real>, n: nat)
    requires n <= |s| && forall i :: 0 <= i < |s| ==> s[i] > 0.0
    ensures Sum(s, n) >= 0.0 && (n > 0 ==> Sum(s, n) > 0.0)
  {
    if n > 0 {
      SumPositive(s, n - 1);
    }
  }

  lemma {:induction false} SumOfPrefix(s: seq<real>, n: nat, m: nat)
    requires n <= m <= |s|
    ensures Sum(s[..m], n) == Sum(s, n)
  {
    if n > 0 {
      SumOfPrefix(s, n - 1, m);
    }
  }
}
