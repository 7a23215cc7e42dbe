/**
 * Small arithmetic vocabulary shared by every module: optional values,
 * sums and maxima of natural-number sequences, and powers.
 */
module Util {

  datatype Option<T> = None | Some(value: T)

  /** Sum of a sequence, folded from the back (the order the source's loops add in). */
  function Sum(s: seq<nat>): nat
  {
    if |s| == 0 then 0 else Sum(s[..|s| - 1]) + s[|s| - 1]
  }

  /**
   * Largest element of a sequence, or 0 for the empty sequence: every
   * maximum loop of the score tool starts from 0.
   */
  function MaxOf(s: seq<nat>): (m: nat)
    ensures forall i :: 0 <= i < |s| ==> s[i] <= m
    ensures m == 0 || exists i :: 0 <= i < |s| && s[i] == m
  {
    if |s| == 0 then 0
    else
      var m := MaxOf(s[..|s| - 1]);
      assert forall i :: 0 <= i < |s| - 1 ==> s[..|s| - 1][i] == s[i];
      if s[|s| - 1] > m then s[|s| - 1] else m
  }

  function Pow(b: nat, e: nat): (r: nat)
    ensures b > 0 ==> r > 0
  {
    if e == 0 then 1 else b * Pow(b, e - 1)
  }

  lemma SumAppend(s: seq<nat>, x: nat)
    ensures Sum(s + [x]) == Sum(s) + x
  {
    assert (s + [x])[..|s|] == s;
  }

  /** Adding x to one slot adds x to the total. */
  lemma {:induction false} SumUpdate(s: seq<nat>, i: nat, x: nat)
    requires i < |s|
    ensures Sum(s[i := s[i] + x]) == Sum(s) + x
  {
    var t := s[i := s[i] + x];
    if i == |s| - 1 {
      assert t[..|s| - 1] == s[..|s| - 1];
    } else {
      assert t[..|s| - 1] == s[..|s| - 1][i := s[i] + x];
      SumUpdate(s[..|s| - 1], i, x);
    }
  }

  /** n zeros: a fresh buffer table. */
  function Zeros(n: nat): seq<nat>
  {
    seq(n, _ => 0)
  }

  lemma {:induction false} SumZeros(n: nat)
    ensures Sum(Zeros(n)) == 0
  {
    if n > 0 {
      assert Zeros(n)[..n - 1] == Zeros(n - 1);
      SumZeros(n - 1);
    }
  }

  /** No slot exceeds the total. */
  lemma {:induction false} MaxOfAtMostSum(s: seq<nat>)
    ensures MaxOf(s) <= Sum(s)
  {
    if |s| > 0 {
      MaxOfAtMostSum(s[..|s| - 1]);
    }
  }

  lemma {:induction false} MaxOfZeros(n: nat)
    ensures MaxOf(Zeros(n)) == 0
  {
    if n > 0 {
      assert Zeros(n)[..n - 1] == Zeros(n - 1);
      MaxOfZeros(n - 1);
    }
  }

  lemma PowPositive(b: nat, e: nat)
    requires b > 0
    ensures Pow(b, e) > 0
  {
  }

  lemma {:induction false} PowMonotone(b: nat, e1: nat, e2: nat)
    requires b > 1 && e1 <= e2
    ensures Pow(b, e1) <= Pow(b, e2)
  {
    if e1 < e2 {
      PowMonotone(b, e1, e2 - 1);
      PowPositive(b, e2 - 1);
    }
  }

  /** Dividing twice is dividing by the product. */
  lemma DivDiv(n: nat, a: nat, b: nat)
    requires a > 0 && b > 0
    ensures n / a / b == n / (a * b)
  {
    var q := n / a / b;
    var r1 := n % a;
    var r2 := (n / a) % b;
    assert n == a * (n / a) + r1;
    assert n / a == b * q + r2;
    assert a * (n / a) == a * (b * q) + a * r2 by {
      MulAddDistrib(a, b * q, r2);
    }
    assert a * (b * q) == (a * b) * q by {
      MulAssoc(a, b, q);
    }
    assert a * r2 <= a * (b - 1) by {
      MulMonotone(a, r2, b - 1);
    }
    assert a * (b - 1) + a == a * b by {
      MulAddDistrib(a, b - 1, 1);
    }
    DivUnique(n, a * b, q, a * r2 + r1);
  }

  lemma MulAddDistrib(a: nat, x: nat, y: nat)
    ensures a * (x + y) == a * x + a * y
  {
  }

  lemma MulAssoc(a: nat, b: nat, c: nat)
    ensures a * (b * c) == (a * b) * c
  {
  }

  lemma MulMonotone(a: nat, x: nat, y: nat)
    requires x <= y
    ensures a * x <= a * y
  {
    MulAddDistrib(a, x, y - x);
  }

  /** Quotient and remainder are unique. */
  lemma DivUnique(n: nat, d: nat, q: nat, r: nat)
    requires d > 0 && r < d && n == d * q + r
    ensures n / d == q && n % d == r
  {
    var q', r' := n / d, n % d;
    assert n == d * q' + r';
    if q' > q {
      MulAddDistrib(d, q, q' - q);
      MulMonotone(d, 1, q' - q);
    } else if q' < q {
      MulAddDistrib(d, q', q - q');
      MulMonotone(d, 1, q - q');
    }
  }

  /** n / b^(e+1) is one more division by b. */
  lemma PowDivStep(n: nat, b: nat, e: nat)
    requires b > 0
    ensures Pow(b, e) > 0
    ensures n / Pow(b, e) / b == n / Pow(b, e + 1)
  {
    PowPositive(b, e);
    DivDiv(n, Pow(b, e), b);
    assert Pow(b, e + 1) == Pow(b, e) * b;
  }
}
