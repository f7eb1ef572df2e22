/** Canonical decimal numerals, as digit sequences, most significant first. */
module Decimal {

  function Digits(n: nat): (r: seq<nat>)
    ensures |r| >= 1 && forall i :: 0 <= i < |r| ==> r[i] < 10
  {
    if n < 10 then [n] else Digits(n / 10) + [n % 10]
  }

  function Value(ds: seq<nat>): nat {
    if ds == [] then 0 else 10 * Value(ds[..|ds| - 1]) + ds[|ds| - 1]
  }

  /** No leading zero, except in the numeral of zero itself. */
  predicate Canonical(ds: seq<nat>) {
    && |ds| >= 1 && (forall i :: 0 <= i < |ds| ==> ds[i] < 10)
    && (|ds| > 1 ==> ds[0] != 0)
  }

  lemma {:induction false} DigitsHaveValue(n: nat)
    ensures Value(Digits(n)) == n && Canonical(Digits(n))
  {
    if n >= 10 {
      DigitsHaveValue(n / 10);
      var front := Digits(n / 10);
      assert (front + [n % 10])[..|front|] == front;
      if |front| == 1 {
        assert front[0] == Value(front[..0]) * 10 + front[0] == n / 10;
      }
    } else {
      assert [n][..0] == [];
    }
  }

  lemma {:induction false} CanonicalIsUnique(ds: seq<nat>)
    requires Canonical(ds)
    ensures Digits(Value(ds)) == ds
    ensures |ds| > 1 ==> Value(ds) >= 10
    decreases |ds|
  {
    var n := |ds| - 1;
    var front, last := ds[..n], ds[n];
    if n == 0 {
      assert front == [] && ds == [last];
    } else {
      CanonicalIsUnique(front);
      assert Value(front) > 0 by {
        if n == 1 {
          assert front == [front[0]] && front[..0] == [];
        }
      }
      AppendDigit(Value(front), last);
      assert ds == front + [last];
    }
  }

  lemma AppendDigit(n: nat, d: nat)
    requires n > 0 && d < 10
    ensures 10 * n + d >= 10 && Digits(10 * n + d) == Digits(n) + [d]
  {
    assert (10 * n + d) / 10 == n && (10 * n + d) % 10 == d;
  }

  function Pow10(k: nat): nat {
    if k == 0 then 1 else 10 * Pow10(k - 1)
  }

  lemma {:induction false} DigitsFit(n: nat, k: nat)
    requires k > 0 && n < Pow10(k)
    ensures |Digits(n)| <= k
    decreases k
  {
    if n >= 10 {
      DigitsFit(n / 10, k - 1);
    }
  }
}
