/** The frozen calibration split of scripts/astra-query-compare.py: a seeded
    Fisher-Yates order over the judged queries, cut into two parts. */
module FrozenSplit {
  import Bytes
  import opened Prelude

  // ----- the choices drawn from a seed

  /** One step of the 64-bit mixer. */
  function Mix(state: bv64): bv64 {
    var a := state + 0x9e37_79b9_7f4a_7c15;
    var b := (a ^ (a >> 30)) * 0xbf58_476d_1ce4_e5b9;
    var c := (b ^ (b >> 27)) * 0x94d0_49bb_1331_11eb;
    c ^ (c >> 31)
  }

  /** The mixer is SplitMix64: the first words it gives for states 0 and 1. */
  lemma KnownAnswers()
    ensures Mix(0) == 0xe220_a839_7b1d_cdaf && Mix(1) == 0x910a_2dec_8902_5cc1
  {
  }

  function Remainder(n: nat, upper: nat): (r: nat)
    ensures r <= upper
  {
    n % (upper + 1)
  }

  /** What is left of `n` after any number of whole turns of `upper + 1`. */
  lemma RemainderIsLeft(n: nat, upper: nat, q: nat, r: nat)
    requires n == (upper + 1) * q + r && r <= upper
    ensures Remainder(n, upper) == r
  {
    Bytes.Quotient(n, upper + 1, q, r);
  }

  function Draw(state: bv64, upper: nat): (r: nat)
    ensures r <= upper
  {
    Remainder(state as nat, upper)
  }

  /** A generator: how its state advances, and what it picks in 0 .. upper. */
  datatype Generator<!S> = Generator(step: S -> S, pick: (S, nat) -> nat)

  ghost predicate InRange<S(!new)>(g: Generator<S>) {
    forall s, upper :: g.pick(s, upper) <= upper
  }

  const MIXER: Generator<bv64> := Generator(Mix, Draw)

  /** The swap partners for positions `upper`, `upper - 1`, ..., 1. */
  function Choices<S>(g: Generator<S>, state: S, upper: nat): (r: seq<nat>)
    ensures |r| == upper
    decreases upper
  {
    if upper == 0 then []
    else [g.pick(g.step(state), upper)] + Choices(g, g.step(state), upper - 1)
  }

  function Iterate<S>(step: S -> S, n: nat, state: S): S {
    if n == 0 then state else step(Iterate(step, n - 1, state))
  }

  lemma {:induction false} IterateFirst<S>(step: S -> S, n: nat, state: S)
    ensures Iterate(step, n, step(state)) == Iterate(step, n + 1, state)
  {
    if n > 0 {
      IterateFirst(step, n - 1, state);
    }
  }

  /** The partner of position `upper - k` is picked from the state after `k + 1`
      steps, within 0 .. upper - k. */
  lemma {:induction false} ChoiceAt<S>(g: Generator<S>, state: S, upper: nat, k: nat)
    requires k < upper
    ensures Choices(g, state, upper)[k] == g.pick(Iterate(g.step, k + 1, state), upper - k)
    decreases upper
  {
    if k > 0 {
      ChoiceAt(g, g.step(state), upper - 1, k - 1);
      IterateFirst(g.step, k, state);
    } else {
      assert Iterate(g.step, 1, state) == g.step(Iterate(g.step, 0, state));
    }
  }

  // ----- Fisher-Yates on values

  function Swap<T>(s: seq<T>, i: nat, j: nat): (r: seq<T>)
    requires i < |s| && j < |s|
    ensures |r| == |s|
  {
    s[i := s[j]][j := s[i]]
  }

  /** A choice for each position from `upper` down to 1, none above it. */
  predicate Fits(choices: seq<nat>, upper: nat) {
    |choices| == upper && forall k :: 0 <= k < upper ==> choices[k] <= upper - k
  }

  function Shuffle<T>(s: seq<T>, choices: seq<nat>, upper: nat): (r: seq<T>)
    requires upper < |s| && Fits(choices, upper)
    ensures |r| == |s|
    decreases upper
  {
    if upper == 0 then s
    else
      Rest(choices, upper);
      Shuffle(Swap(s, upper, choices[0]), choices[1..], upper - 1)
  }

  lemma Rest(choices: seq<nat>, upper: nat)
    requires Fits(choices, upper) && upper > 0
    ensures choices[0] <= upper && Fits(choices[1..], upper - 1)
  {
    forall k | 0 <= k < upper - 1
      ensures choices[1..][k] <= upper - 1 - k
    {
      assert choices[1..][k] == choices[k + 1];
    }
  }

  lemma {:induction false} ChoicesFit<S(!new)>(g: Generator<S>, state: S, upper: nat)
    requires InRange(g)
    ensures Fits(Choices(g, state, upper), upper)
    decreases upper
  {
    if upper > 0 {
      var rest := Choices(g, g.step(state), upper - 1);
      ChoicesFit(g, g.step(state), upper - 1);
      forall k | 0 <= k < upper
        ensures Choices(g, state, upper)[k] <= upper - k
      {
        if k > 0 {
          assert Choices(g, state, upper)[k] == rest[k - 1];
        }
      }
    }
  }

  lemma SwapKeepsElements<T>(s: seq<T>, i: nat, j: nat)
    requires i < |s| && j < |s|
    ensures multiset(Swap(s, i, j)) == multiset(s)
  {
  }

  /** Positions above `upper` are final. */
  lemma {:induction false} ShuffleKeepsAbove<T>(s: seq<T>, choices: seq<nat>, upper: nat, k: nat)
    requires upper < k < |s| && Fits(choices, upper)
    ensures Shuffle(s, choices, upper)[k] == s[k]
    decreases upper
  {
    if upper > 0 {
      Rest(choices, upper);
      ShuffleKeepsAbove(Swap(s, upper, choices[0]), choices[1..], upper - 1, k);
    }
  }

  lemma {:induction false} ShuffleKeepsElements<T>(s: seq<T>, choices: seq<nat>, upper: nat)
    requires upper < |s| && Fits(choices, upper)
    ensures multiset(Shuffle(s, choices, upper)) == multiset(s)
    decreases upper
  {
    if upper > 0 {
      Rest(choices, upper);
      SwapKeepsElements(s, upper, choices[0]);
      ShuffleKeepsElements(Swap(s, upper, choices[0]), choices[1..], upper - 1);
    }
  }

  lemma SwapKeepsDistinct<T>(s: seq<T>, i: nat, j: nat)
    requires i < |s| && j < |s| && Distinct(s)
    ensures Distinct(Swap(s, i, j))
  {
  }

  lemma TopOfShuffle<T>(s: seq<T>, choices: seq<nat>, upper: nat)
    requires 0 < upper < |s| && Fits(choices, upper)
    ensures choices[0] <= upper && Shuffle(s, choices, upper)[upper] == s[choices[0]]
  {
    Rest(choices, upper);
    ShuffleKeepsAbove(Swap(s, upper, choices[0]), choices[1..], upper - 1, upper);
  }

  /** Different choices give different orders. */
  lemma {:induction false} ShuffleIsInjective<T>(s: seq<T>, c: seq<nat>, d: seq<nat>, upper: nat)
    requires upper < |s| && Distinct(s) && Fits(c, upper) && Fits(d, upper)
    requires Shuffle(s, c, upper) == Shuffle(s, d, upper)
    ensures c == d
    decreases upper
  {
    if upper > 0 {
      TopOfShuffle(s, c, upper);
      TopOfShuffle(s, d, upper);
      assert c[0] == d[0];
      Rest(c, upper);
      Rest(d, upper);
      SwapKeepsDistinct(s, upper, c[0]);
      ShuffleIsInjective(Swap(s, upper, c[0]), c[1..], d[1..], upper - 1);
      assert c == [c[0]] + c[1..] && d == [d[0]] + d[1..];
    }
  }

  lemma SameElementsBelow<T>(s: seq<T>, t: seq<T>, n: nat)
    requires n <= |s| == |t| && multiset(s) == multiset(t) && s[n..] == t[n..]
    ensures multiset(s[..n]) == multiset(t[..n])
  {
    assert s == s[..n] + s[n..] && t == t[..n] + t[n..];
    assert multiset(s) == multiset(s[..n]) + multiset(s[n..]);
    assert multiset(t) == multiset(t[..n]) + multiset(t[n..]);
    assert multiset(s[..n]) == multiset(s) - multiset(s[n..]);
    assert multiset(t[..n]) == multiset(t) - multiset(t[n..]);
  }

  /** Some position up to `upper` holds the element wanted at `upper`; bringing
      it there fixes one more position. */
  lemma FindTop<T>(s: seq<T>, t: seq<T>, upper: nat) returns (j: nat)
    requires upper < |s| == |t| && multiset(s) == multiset(t) && s[upper + 1..] == t[upper + 1..]
    ensures j <= upper && s[j] == t[upper]
  {
    SameElementsBelow(s, t, upper + 1);
    assert t[..upper + 1][upper] == t[upper];
    assert t[upper] in multiset(t[..upper + 1]);
    assert t[upper] in s[..upper + 1];
    j :| 0 <= j <= upper && s[j] == t[upper];
  }

  lemma TopFixed<T>(s: seq<T>, t: seq<T>, upper: nat, j: nat)
    requires upper < |s| == |t| && s[upper + 1..] == t[upper + 1..] && j <= upper && s[j] == t[upper]
    ensures Swap(s, upper, j)[upper..] == t[upper..]
  {
    var s' := Swap(s, upper, j);
    forall k | upper <= k < |s|
      ensures s'[k] == t[k]
    {
      if k > upper {
        assert s[k] == s[upper + 1..][k - upper - 1] && t[k] == t[upper + 1..][k - upper - 1];
      }
    }
  }

  /** Every order that leaves the positions above `upper` alone is reached. */
  lemma {:induction false} ShuffleIsSurjective<T>(s: seq<T>, t: seq<T>, upper: nat) returns (c: seq<nat>)
    requires upper < |s| == |t| && multiset(s) == multiset(t) && s[upper + 1..] == t[upper + 1..]
    ensures Fits(c, upper) && Shuffle(s, c, upper) == t
    decreases upper
  {
    var j := FindTop(s, t, upper);
    TopFixed(s, t, upper, j);
    if upper == 0 {
      c := [];
      assert Swap(s, 0, 0) == s && s[0..] == s && t[0..] == t;
    } else {
      SwapKeepsElements(s, upper, j);
      var rest := ShuffleIsSurjective(Swap(s, upper, j), t, upper - 1);
      c := [j] + rest;
      assert c[1..] == rest;
    }
  }

  // ----- `order`

  function Iota(n: nat): (r: seq<nat>)
    ensures |r| == n
  {
    seq(n, i => i)
  }

  lemma Turns(n: int, k: int)
    ensures (n + k * Bytes.TWO64) % Bytes.TWO64 == n % Bytes.TWO64
  {
    var m := n + k * Bytes.TWO64;
    assert m - m % Bytes.TWO64 == m / Bytes.TWO64 * Bytes.TWO64;
    assert n - n % Bytes.TWO64 == n / Bytes.TWO64 * Bytes.TWO64;
  }

  lemma MixerInRange()
    ensures InRange(MIXER)
  {
    forall s, upper
      ensures MIXER.pick(s, upper) <= upper
    {
      assert MIXER.pick(s, upper) == Draw(s, upper);
    }
  }

  /** The order any generator gives. */
  ghost function OrderedBy<S(!new)>(g: Generator<S>, state: S, count: nat): (r: seq<nat>)
    requires InRange(g)
    ensures |r| == count
  {
    if count == 0 then []
    else
      ChoicesFit(g, state, count - 1);
      Shuffle(Iota(count), Choices(g, state, count - 1), count - 1)
  }

  /** A permutation of 0 .. count - 1, whatever the generator. */
  lemma OrderIsPermutation<S(!new)>(g: Generator<S>, state: S, count: nat)
    requires InRange(g)
    ensures var r := OrderedBy(g, state, count);
            multiset(r) == multiset(Iota(count)) && Distinct(r) && forall i :: 0 <= i < count ==> r[i] < count
  {
    var r := OrderedBy(g, state, count);
    if count > 0 {
      ChoicesFit(g, state, count - 1);
      ShuffleKeepsElements(Iota(count), Choices(g, state, count - 1), count - 1);
    }
    PermutationIsDistinct(Iota(count), r);
    forall i | 0 <= i < count
      ensures r[i] < count
    {
      assert r[i] in multiset(Iota(count));
      assert r[i] in Iota(count);
    }
  }

  lemma {:induction false} DistinctCounts<T>(s: seq<T>)
    requires Distinct(s)
    ensures forall x :: multiset(s)[x] <= 1
  {
    if s != [] {
      DistinctCounts(s[1..]);
      assert s == [s[0]] + s[1..];
      assert s[0] !in s[1..];
    }
  }

  lemma PermutationIsDistinct<T>(s: seq<T>, t: seq<T>)
    requires Distinct(s) && multiset(s) == multiset(t)
    ensures Distinct(t)
  {
    DistinctCounts(s);
    forall i, j | 0 <= i < j < |t|
      ensures t[i] != t[j]
    {
      assert t == t[..j] + [t[j]] + t[j + 1..];
      assert multiset(t)[t[j]] <= 1;
      assert t[j] !in t[..j] && t[i] in t[..j];
    }
  }

  /** The loop, swapping in place. */
  method FisherYates<S(!new)>(g: Generator<S>, seed: S, count: nat) returns (result: array<nat>)
    requires InRange(g)
    ensures fresh(result) && result[..] == OrderedBy(g, seed, count)
  {
    result := new nat[count](i => i);
    assert result[..] == Iota(count);
    if count == 0 {
      return;
    }
    var state, upper := seed, count - 1;
    ChoicesFit(g, state, upper);
    while upper > 0
      invariant 0 <= upper < count == result.Length && fresh(result)
      invariant Fits(Choices(g, state, upper), upper)
      invariant OrderedBy(g, seed, count) == Shuffle(result[..], Choices(g, state, upper), upper)
    {
      ghost var choices, before := Choices(g, state, upper), result[..];
      state := g.step(state);
      var other := g.pick(state, upper);
      Rest(choices, upper);
      assert choices[0] == other && choices[1..] == Choices(g, state, upper - 1);
      result[upper], result[other] := result[other], result[upper];
      assert result[..] == Swap(before, upper, other);
      upper := upper - 1;
    }
  }

  method Order(count: nat, seed: int) returns (result: array<nat>)
    ensures fresh(result) && InRange(MIXER) && result[..] == OrderedBy(MIXER, (seed % Bytes.TWO64) as bv64, count)
    ensures multiset(result[..]) == multiset(Iota(count))
  {
    MixerInRange();
    result := FisherYates(MIXER, (seed % Bytes.TWO64) as bv64, count);
    OrderIsPermutation(MIXER, (seed % Bytes.TWO64) as bv64, count);
  }

  /** The mixer sees the seed modulo 2^64. */
  lemma SeedIsReduced(count: nat, seed: int, k: int)
    ensures InRange(MIXER)
    ensures OrderedBy(MIXER, ((seed + k * Bytes.TWO64) % Bytes.TWO64) as bv64, count)
            == OrderedBy(MIXER, (seed % Bytes.TWO64) as bv64, count)
  {
    MixerInRange();
    Turns(seed, k);
  }

  // ----- `freeze`

  type Id = string

  datatype Split = Split(calibration: seq<Id>, heldOut: seq<Id>)

  function Keep(s: seq<Id>, chosen: set<Id>): seq<Id> {
    if s == [] then [] else Keep(s[..|s| - 1], chosen) + (if s[|s| - 1] in chosen then [s[|s| - 1]] else [])
  }

  /** The length of Python's `s[:count]`. */
  function Taken(count: int, n: nat): nat {
    if count >= 0 then (if count <= n then count else n) else if n + count > 0 then n + count else 0
  }

  /** The ids at the first positions of an order. */
  function Picked(eligible: seq<Id>, order: seq<nat>): set<Id>
    requires forall i :: 0 <= i < |order| ==> order[i] < |eligible|
  {
    set i | 0 <= i < |order| :: eligible[order[i]]
  }

  /** `Keep` of one more element, as a multiset. */
  lemma KeepGrows(init: seq<Id>, last: Id, chosen: set<Id>)
    ensures multiset(Keep(init + [last], chosen)) == multiset(Keep(init, chosen)) + (if last in chosen then multiset{last} else multiset{})
    ensures |Keep(init + [last], chosen)| == |Keep(init, chosen)| + if last in chosen then 1 else 0
  {
    assert (init + [last])[..|init|] == init;
  }

  lemma {:induction false} KeepPartitions(s: seq<Id>, chosen: set<Id>, others: set<Id>)
    requires forall x :: x in s ==> (x in others <==> x !in chosen)
    ensures multiset(Keep(s, chosen)) + multiset(Keep(s, others)) == multiset(s)
    ensures |Keep(s, chosen)| + |Keep(s, others)| == |s|
  {
    if s != [] {
      var init, last := s[..|s| - 1], s[|s| - 1];
      Unsnoc(s);
      KeepPartitions(init, chosen, others);
      KeepGrows(init, last, chosen);
      KeepGrows(init, last, others);
      assert multiset(init + [last]) == multiset(init) + multiset{last};
    }
  }

  lemma KeepIsComplement(s: seq<Id>, chosen: set<Id>)
    ensures multiset(Keep(s, chosen)) + multiset(Keep(s, Elements(s) - chosen)) == multiset(s)
    ensures |Keep(s, chosen)| + |Keep(s, Elements(s) - chosen)| == |s|
  {
    KeepPartitions(s, chosen, Elements(s) - chosen);
  }

  lemma {:induction false} KeepDependsOnMembers(s: seq<Id>, a: set<Id>, b: set<Id>)
    requires forall x :: x in s ==> (x in a <==> x in b)
    ensures Keep(s, a) == Keep(s, b)
  {
    if s != [] {
      KeepDependsOnMembers(s[..|s| - 1], a, b);
    }
  }

  lemma {:induction false} KeepMembers(s: seq<Id>, chosen: set<Id>)
    ensures forall x :: x in Keep(s, chosen) <==> x in s && x in chosen
  {
    if s != [] {
      KeepMembers(s[..|s| - 1], chosen);
      assert s == s[..|s| - 1] + [s[|s| - 1]];
    }
  }

  /** Keeping chosen members of a list without repetition keeps each once. */
  lemma {:induction false} KeepCounts(s: seq<Id>, chosen: set<Id>)
    requires Distinct(s) && forall x :: x in chosen ==> x in s
    ensures |Keep(s, chosen)| == |chosen|
    decreases |s|
  {
    if s == [] {
      assert chosen == {};
    } else {
      var init, last := s[..|s| - 1], s[|s| - 1];
      assert s == init + [last];
      KeepCounts(init, chosen - {last});
      KeepDependsOnMembers(init, chosen - {last}, chosen);
    }
  }

  lemma PickedGrows(eligible: seq<Id>, init: seq<nat>, last: nat)
    requires (forall i :: 0 <= i < |init| ==> init[i] < |eligible|) && last < |eligible|
    ensures Picked(eligible, init + [last]) == Picked(eligible, init) + {eligible[last]}
  {
    var order := init + [last];
    assert order[|init|] == last;
    forall x | x in Picked(eligible, init)
      ensures x in Picked(eligible, order)
    {
      var i :| 0 <= i < |init| && x == eligible[init[i]];
      assert order[i] == init[i];
    }
  }

  lemma {:induction false} PickedCounts(eligible: seq<Id>, order: seq<nat>)
    requires Distinct(eligible) && Distinct(order) && forall i :: 0 <= i < |order| ==> order[i] < |eligible|
    ensures |Picked(eligible, order)| == |order|
    decreases |order|
  {
    if order != [] {
      var init, last := order[..|order| - 1], order[|order| - 1];
      PickedCounts(eligible, init);
      assert order == init + [last];
      PickedGrows(eligible, init, last);
      assert eligible[last] !in Picked(eligible, init);
    }
  }

  /** The judged queries in query order. */
  function Eligible(queries: seq<Id>, judged: set<Id>): seq<Id> {
    Keep(queries, judged)
  }

  function Cut(eligible: seq<Id>, chosen: set<Id>): Split {
    Split(Keep(eligible, chosen), Keep(eligible, Elements(eligible) - chosen))
  }

  /** The ids the seeded order puts first. */
  ghost function Selected(eligible: seq<Id>, count: int, seed: int): set<Id> {
    MixerInRange();
    OrderIsPermutation(MIXER, (seed % Bytes.TWO64) as bv64, |eligible|);
    Picked(eligible, OrderedBy(MIXER, (seed % Bytes.TWO64) as bv64, |eligible|)[..Taken(count, |eligible|)])
  }

  /** Splits the judged queries in two. With distinct query ids both parts keep
      the query order, share no id, make up all judged ids, and the first has
      the requested size as far as there are enough. */
  method Freeze(queries: seq<Id>, judged: set<Id>, count: int, seed: int) returns (r: Option<Split>)
    ensures r.Some? <==> |Eligible(queries, judged)| == |judged| && Eligible(queries, judged) != []
    ensures r.Some? ==> r.value == Cut(Eligible(queries, judged), Selected(Eligible(queries, judged), count, seed))
    ensures r.Some? ==> multiset(r.value.calibration) + multiset(r.value.heldOut) == multiset(Eligible(queries, judged))
    ensures r.Some? && Distinct(queries) ==>
              && |r.value.calibration| == Taken(count, |judged|)
              && |r.value.heldOut| == |judged| - Taken(count, |judged|)
              && (0 <= count <= |judged| ==> |r.value.calibration| == count)
              && (count > |judged| ==> r.value.heldOut == [])
              && (-|judged| <= count < 0 ==> |r.value.heldOut| == -count)
              && (count < -|judged| ==> r.value.calibration == [])
              && (forall x :: x in r.value.calibration ==> x !in r.value.heldOut)
              && (forall x :: x in judged <==> x in r.value.calibration || x in r.value.heldOut)
  {
    var eligible := Eligible(queries, judged);
    if |eligible| != |judged| || eligible == [] {
      return None;
    }
    var order := Order(|eligible|, seed);
    OrderIsPermutation(MIXER, (seed % Bytes.TWO64) as bv64, |eligible|);
    var first := order[..Taken(count, |eligible|)];
    var chosen := Picked(eligible, first);
    var calibration := Keep(eligible, chosen);
    var heldOut := Keep(eligible, Elements(eligible) - chosen);
    KeepIsComplement(eligible, chosen);
    if Distinct(queries) {
      SplitIsExact(queries, judged, first, Taken(count, |eligible|));
    }
    r := Some(Split(calibration, heldOut));
  }

  lemma {:induction false} KeepIsDistinct(s: seq<Id>, chosen: set<Id>)
    requires Distinct(s)
    ensures Distinct(Keep(s, chosen))
  {
    if s != [] {
      KeepIsDistinct(s[..|s| - 1], chosen);
      KeepMembers(s[..|s| - 1], chosen);
    }
  }

  lemma {:induction false} DistinctSize(s: seq<Id>)
    requires Distinct(s)
    ensures |Elements(s)| == |s|
  {
    if s != [] {
      DistinctSize(s[..|s| - 1]);
      assert Elements(s) == Elements(s[..|s| - 1]) + {s[|s| - 1]};
    }
  }

  lemma SubsetOfSameSize(a: set<Id>, b: set<Id>)
    requires a <= b && |a| == |b|
    ensures a == b
  {
    assert b == a + (b - a);
    assert |b - a| == 0;
  }

  lemma SplitIsExact(queries: seq<Id>, judged: set<Id>, first: seq<nat>, k: nat)
    requires Distinct(queries) && |Eligible(queries, judged)| == |judged|
    requires Distinct(first) && |first| == k && forall i :: 0 <= i < |first| ==> first[i] < |judged|
    ensures var e := Eligible(queries, judged); var chosen := Picked(e, first);
            && |Keep(e, chosen)| == k && |Keep(e, Elements(e) - chosen)| == |judged| - k
            && (forall x :: x in Keep(e, chosen) ==> x !in Keep(e, Elements(e) - chosen))
            && (forall x :: x in judged <==> x in Keep(e, chosen) || x in Keep(e, Elements(e) - chosen))
  {
    var e := Eligible(queries, judged);
    var chosen := Picked(e, first);
    KeepIsDistinct(queries, judged);
    KeepMembers(queries, judged);
    DistinctSize(e);
    SubsetOfSameSize(Elements(e), judged);
    PickedCounts(e, first);
    KeepCounts(e, chosen);
    KeepIsComplement(e, chosen);
    KeepMembers(e, chosen);
    KeepMembers(e, Elements(e) - chosen);
  }
}
