/** Bytes and little-endian words. */
module Bytes {

  type Byte = b: int | 0 <= b < 0x100

  const TWO64: nat := 0x1_0000_0000_0000_0000

  type Word = w: nat | w < 0x1_0000_0000_0000_0000

  /** The value of a little-endian byte string. */
  function FromLe(s: seq<Byte>): nat {
    if s == [] then 0 else s[0] + 0x100 * FromLe(s[1..])
  }

  /** The low `n` bytes of `w`, least significant first. */
  function ToLe(w: nat, n: nat): (r: seq<Byte>)
    ensures |r| == n
  {
    if n == 0 then [] else [w % 0x100] + ToLe(w / 0x100, n - 1)
  }

  /** `s` with `part` written at `at`. */
  function Put(s: seq<Byte>, at: nat, part: seq<Byte>): (r: seq<Byte>)
    requires at + |part| <= |s|
    ensures |r| == |s|
    ensures r[at..at + |part|] == part
  {
    s[..at] + part + s[at + |part|..]
  }

  function Pow256(n: nat): (r: nat)
    ensures r >= 1
  {
    if n == 0 then 1 else 0x100 * Pow256(n - 1)
  }

  /** Byte `i` of a written word has weight 256^i. */
  lemma {:induction false} ToLeDigit(w: nat, n: nat, i: nat)
    requires i < n
    ensures ToLe(w, n)[i] == w / Pow256(i) % 0x100
  {
    if i > 0 {
      ToLeDigit(w / 0x100, n - 1, i - 1);
      DivideTwice(w, 0x100, Pow256(i - 1));
    }
  }

  lemma DivideTwice(w: nat, a: nat, p: nat)
    requires a > 0 && p > 0
    ensures a * p > 0 && w / a / p == w / (a * p)
  {
    var x, low := w / a, w % a;
    assert w == a * x + low;
    var q, r := x / p, x % p;
    assert x == p * q + r;
    QuotientTwice(w, a, p, x, q, r, low);
  }

  lemma QuotientTwice(w: nat, a: nat, p: nat, x: nat, q: nat, r: nat, low: nat)
    requires w == a * x + low && low < a && x == p * q + r && r < p
    ensures a * p > 0 && w / (a * p) == q
  {
    Regroup(a, p, q, r);
    Room(a, p, r, low);
    Quotient(w, a * p, q, a * r + low);
  }

  lemma Regroup(a: nat, p: nat, q: nat, r: nat)
    ensures a * (p * q + r) == (a * p) * q + a * r
  {
  }

  lemma Room(a: nat, p: nat, r: nat, low: nat)
    requires r < p && low < a
    ensures a * p > 0 && a * r + low < a * p
  {
    assert a * (r + 1) <= a * p;
  }

  lemma Quotient(w: nat, d: nat, q: nat, r: nat)
    requires d > 0 && w == d * q + r && r < d
    ensures w / d == q
  {
    var k := w / d;
    assert k < q ==> d * (k + 1) <= d * q;
    assert k > q ==> d * (q + 1) <= d * k;
  }

  /** Reading is the inverse of writing. */
  lemma {:induction false} WordsSurvive(w: nat, n: nat)
    requires w < Pow256(n)
    ensures FromLe(ToLe(w, n)) == w
  {
    if n > 0 {
      WordsSurvive(w / 0x100, n - 1);
      assert ToLe(w, n)[1..] == ToLe(w / 0x100, n - 1);
    }
  }

  lemma {:induction false} BytesSurvive(s: seq<Byte>)
    ensures FromLe(s) < Pow256(|s|) && ToLe(FromLe(s), |s|) == s
  {
    if s != [] {
      BytesSurvive(s[1..]);
      assert FromLe(s) / 0x100 == FromLe(s[1..]) && FromLe(s) % 0x100 == s[0];
      assert s == [s[0]] + s[1..];
    }
  }

  /** Two and four bytes, least significant first. */
  lemma ShortWords(s: seq<Byte>)
    ensures |s| == 2 ==> FromLe(s) == s[0] as int + 0x100 * s[1] as int
    ensures |s| == 4 ==> FromLe(s) == s[0] as int + 0x100 * s[1] as int + 0x1_0000 * s[2] as int + 0x100_0000 * s[3] as int
  {
    if |s| == 2 {
      assert s[1..] == [s[1]] && s[1..][1..] == [];
    } else if |s| == 4 {
      assert s[1..] == [s[1], s[2], s[3]] && s[1..][1..] == [s[2], s[3]];
      assert s[1..][1..][1..] == [s[3]] && s[1..][1..][1..][1..] == [];
    }
  }
}
