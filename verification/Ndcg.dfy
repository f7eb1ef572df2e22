/** The two nDCG figures of scripts/astra-query-compare.py. The reciprocal
    logarithm is any positive, non-increasing discount. */
module Ndcg {
  import opened Prelude

  type Id = string

  datatype Entry = Entry(id: Id, grade: real)

  /** A dict from document id to grade, in insertion order. */
  type Grades = seq<Entry>

  datatype Ranking = Ranking(queryId: string, docIds: seq<Id>)

  datatype Report =
    | Means(parent: real, chunk: real, uniqueParents: real, minUnique: nat)
    | UnknownQuery(queryId: string)
    | NoScores

  ghost predicate IsDict(g: Grades) {
    forall i, j :: 0 <= i < j < |g| ==> g[i].id != g[j].id
  }

  ghost predicate NonNegative(g: Grades) {
    forall i :: 0 <= i < |g| ==> g[i].grade >= 0.0
  }

  ghost predicate IsDiscount(d: nat -> real) {
    forall i: nat :: d(i) > 0.0 && d(i + 1) <= d(i)
  }

  // ----- the quantities the script computes

  /** `grades.get(id, 0)`. */
  function Get(g: Grades, id: Id): real {
    if g == [] then 0.0 else if g[0].id == id then g[0].grade else Get(g[1..], id)
  }

  function Values(g: Grades): (r: seq<real>)
    ensures |r| == |g| && forall i :: 0 <= i < |r| ==> r[i] == g[i].grade
  {
    seq(|g|, i requires 0 <= i < |g| => g[i].grade)
  }

  function Insert(x: real, s: seq<real>): seq<real> {
    if s == [] || x >= s[0] then [x] + s else [s[0]] + Insert(x, s[1..])
  }

  /** `sorted(values, reverse=True)`. */
  function Sorted(s: seq<real>): seq<real> {
    if s == [] then [] else Insert(s[0], Sorted(s[1..]))
  }

  function At(s: seq<real>, i: nat): real {
    if i < |s| then s[i] else 0.0
  }

  /** Discounted gain of the first `k` entries of `s`. */
  function Dcg(s: seq<real>, k: nat, d: nat -> real): real {
    if k == 0 then 0.0 else Dcg(s, k - 1, d) + At(s, k - 1) * d(k - 1)
  }

  /** `list(dict.fromkeys(ids))`: first occurrences, in order. */
  function Unique(ids: seq<Id>): seq<Id> {
    if ids == [] then []
    else
      var u := Unique(ids[..|ids| - 1]);
      if ids[|ids| - 1] in u then u else u + [ids[|ids| - 1]]
  }

  function Gains(g: Grades, ids: seq<Id>): seq<real> {
    seq(|ids|, i requires 0 <= i < |ids| => Get(g, ids[i]))
  }

  /** A document gains at its first rank only. */
  function FirstGains(g: Grades, ids: seq<Id>): seq<real> {
    seq(|ids|, i requires 0 <= i < |ids| => if ids[i] in ids[..i] then 0.0 else Get(g, ids[i]))
  }

  function Ideal(g: Grades, k: nat, d: nat -> real): real {
    Dcg(Sorted(Values(g)), k, d)
  }

  function ParentGain(g: Grades, ids: seq<Id>, k: nat, d: nat -> real): real {
    Dcg(Gains(g, Unique(ids)), k, d)
  }

  function ChunkGain(g: Grades, ids: seq<Id>, k: nat, d: nat -> real): real {
    Dcg(FirstGains(g, ids), k, d)
  }

  // ----- sums of prefixes

  function SumTo(s: seq<real>, n: nat): real {
    if n == 0 || s == [] then 0.0 else s[0] + SumTo(s[1..], n - 1)
  }

  lemma {:induction false} SumToGrows(s: seq<real>, n: nat)
    ensures SumTo(s, n + 1) == SumTo(s, n) + At(s, n)
  {
    if s != [] && n > 0 {
      SumToGrows(s[1..], n - 1);
      assert At(s[1..], n - 1) == At(s, n);
    }
  }

  lemma {:induction false} SumToNonNegative(s: seq<real>, n: nat)
    requires forall i :: 0 <= i < |s| ==> s[i] >= 0.0
    ensures SumTo(s, n) >= 0.0
  {
    if s != [] && n > 0 {
      SumToNonNegative(s[1..], n - 1);
    }
  }

  lemma {:induction false} SumWithout(x: seq<real>, j: nat)
    requires j < |x|
    ensures SumTo(x, |x|) == x[j] + SumTo(x[..j] + x[j + 1..], |x| - 1)
  {
    if j == 0 {
      assert x[..0] + x[1..] == x[1..];
    } else {
      SumWithout(x[1..], j - 1);
      var rest := x[..j] + x[j + 1..];
      assert rest[1..] == x[1..][..j - 1] + x[1..][j..];
    }
  }

  // ----- sorting

  ghost predicate Descending(s: seq<real>) {
    forall i, j :: 0 <= i < j < |s| ==> s[i] >= s[j]
  }

  lemma {:induction false} InsertAdds(x: real, s: seq<real>)
    ensures multiset(Insert(x, s)) == multiset(s) + multiset{x}
  {
    if s != [] && x < s[0] {
      InsertAdds(x, s[1..]);
      assert s == [s[0]] + s[1..];
    }
  }

  lemma {:induction false} InsertKeepsOrder(x: real, s: seq<real>)
    requires Descending(s)
    ensures Descending(Insert(x, s))
  {
    if s != [] && x < s[0] {
      InsertKeepsOrder(x, s[1..]);
      InsertAdds(x, s[1..]);
      var r := Insert(x, s[1..]);
      forall i | 0 <= i < |r|
        ensures s[0] >= r[i]
      {
        assert r[i] in multiset(r);
        assert r[i] == x || r[i] in s[1..];
      }
    }
  }

  lemma {:induction false} SortedIsDescendingPermutation(s: seq<real>)
    ensures Descending(Sorted(s)) && multiset(Sorted(s)) == multiset(s)
  {
    if s != [] {
      SortedIsDescendingPermutation(s[1..]);
      InsertKeepsOrder(s[0], Sorted(s[1..]));
      InsertAdds(s[0], Sorted(s[1..]));
      assert s == [s[0]] + s[1..];
    }
  }

  // ----- the rearrangement argument

  lemma RemoveOne(x: seq<real>, j: nat)
    requires j < |x|
    ensures multiset(x) == multiset(x[..j] + x[j + 1..]) + multiset{x[j]}
  {
    assert x == x[..j] + [x[j]] + x[j + 1..];
  }

  lemma LessOne(x: multiset<real>, y: multiset<real>, a: real, b: real)
    requires x + multiset{a} <= y + multiset{b} && (b in x + multiset{a} ==> a == b)
    ensures x <= y
  {
    forall v
      ensures x[v] <= y[v]
    {
      assert (x + multiset{a})[v] <= (y + multiset{b})[v];
    }
  }

  lemma WithoutIsSubset(x: seq<real>, j: nat, s: seq<real>)
    requires j < |x| && s != [] && multiset(x) <= multiset(s)
    requires s[0] in x ==> x[j] == s[0]
    ensures multiset(x[..j] + x[j + 1..]) <= multiset(s[1..])
  {
    RemoveOne(x, j);
    RemoveOne(s, 0);
    assert s[..0] + s[1..] == s[1..];
    LessOne(multiset(x[..j] + x[j + 1..]), multiset(s[1..]), x[j], s[0]);
  }

  /** No `m` members of a descending list sum to more than its first `m`. */
  lemma {:induction false} TopIsLargest(x: seq<real>, s: seq<real>, m: nat)
    requires Descending(s) && (forall i :: 0 <= i < |s| ==> s[i] >= 0.0)
    requires multiset(x) <= multiset(s) && |x| <= m
    ensures SumTo(x, |x|) <= SumTo(s, m)
    decreases |s|
  {
    if x == [] {
      SumToNonNegative(s, m);
    } else {
      assert x[0] in multiset(x) && x[0] in multiset(s);
      assert x[0] in s;
      var j: nat := 0;
      if s[0] in x {
        j :| 0 <= j < |x| && x[j] == s[0];
      }
      WithoutIsSubset(x, j, s);
      SumWithout(x, j);
      TopIsLargest(x[..j] + x[j + 1..], s[1..], m - 1);
    }
  }

  predicate Judged(g: Grades, id: Id) {
    exists i :: 0 <= i < |g| && g[i].id == id
  }

  /** The grades of the judged ids of `u`. */
  function JudgedGains(g: Grades, u: seq<Id>): seq<real> {
    if u == [] then []
    else
      var rest := JudgedGains(g, u[..|u| - 1]);
      if Judged(g, u[|u| - 1]) then rest + [Get(g, u[|u| - 1])] else rest
  }

  lemma {:induction false} GetFinds(g: Grades, i: nat)
    requires IsDict(g) && i < |g|
    ensures Get(g, g[i].id) == g[i].grade
  {
    if i > 0 {
      assert g[1..][i - 1] == g[i];
      GetFinds(g[1..], i - 1);
    }
  }

  lemma {:induction false} GetMisses(g: Grades, id: Id)
    requires !Judged(g, id)
    ensures Get(g, id) == 0.0
  {
    if g != [] {
      forall i | 0 <= i < |g[1..]|
        ensures g[1..][i].id != id
      {
        assert g[1..][i] == g[i + 1];
      }
      GetMisses(g[1..], id);
    }
  }

  function Drop(g: Grades, e: nat): Grades
    requires e < |g|
  {
    g[..e] + g[e + 1..]
  }

  lemma GetAfterDrop(g: Grades, e: nat, id: Id)
    requires IsDict(g) && e < |g| && g[e].id != id
    ensures IsDict(Drop(g, e)) && (Judged(g, id) <==> Judged(Drop(g, e), id))
    ensures Get(g, id) == Get(Drop(g, e), id)
  {
    var h := Drop(g, e);
    assert IsDict(h);
    if Judged(g, id) {
      var i :| 0 <= i < |g| && g[i].id == id;
      var k := if i < e then i else i - 1;
      assert h[k] == g[i];
      GetFinds(g, i);
      GetFinds(h, k);
    } else {
      GetMisses(g, id);
      GetMisses(h, id);
    }
  }

  lemma {:induction false} GainsAfterDrop(g: Grades, e: nat, u: seq<Id>)
    requires IsDict(g) && e < |g| && g[e].id !in u
    ensures JudgedGains(g, u) == JudgedGains(Drop(g, e), u)
  {
    if u != [] {
      GainsAfterDrop(g, e, u[..|u| - 1]);
      GetAfterDrop(g, e, u[|u| - 1]);
    }
  }

  lemma DropTakesOneValue(g: Grades, e: nat)
    requires e < |g|
    ensures multiset(Values(g)) == multiset(Values(Drop(g, e))) + multiset{g[e].grade}
  {
    var v := Values(g);
    assert v == v[..e] + [v[e]] + v[e + 1..];
    assert Values(Drop(g, e)) == v[..e] + v[e + 1..];
  }

  /** Distinct documents draw distinct grades from the dict. */
  lemma {:induction false} DistinctIdsDrawDistinctGrades(g: Grades, u: seq<Id>)
    requires IsDict(g) && Distinct(u)
    ensures multiset(JudgedGains(g, u)) <= multiset(Values(g))
    ensures |JudgedGains(g, u)| <= |u|
    decreases |u|
  {
    if u != [] {
      var init, last := u[..|u| - 1], u[|u| - 1];
      DistinctIdsDrawDistinctGrades(g, init);
      if Judged(g, last) {
        var e :| 0 <= e < |g| && g[e].id == last;
        GetFinds(g, e);
        GainsAfterDrop(g, e, init);
        DropTakesOneValue(g, e);
        assert IsDict(Drop(g, e));
        DistinctIdsDrawDistinctGrades(Drop(g, e), init);
      }
    }
  }

  lemma {:induction false} SumToAppend(x: seq<real>, y: real)
    ensures SumTo(x + [y], |x| + 1) == SumTo(x, |x|) + y
  {
    if x != [] {
      assert (x + [y])[1..] == x[1..] + [y];
      SumToAppend(x[1..], y);
    }
  }

  lemma {:induction false} GainsSumToJudged(g: Grades, u: seq<Id>, n: nat)
    requires n <= |u|
    ensures SumTo(Gains(g, u), n) == SumTo(JudgedGains(g, u[..n]), |JudgedGains(g, u[..n])|)
  {
    if n > 0 {
      GainsSumToJudged(g, u, n - 1);
      SumToGrows(Gains(g, u), n - 1);
      assert u[..n][..n - 1] == u[..n - 1];
      if Judged(g, u[n - 1]) {
        SumToAppend(JudgedGains(g, u[..n - 1]), Get(g, u[n - 1]));
      } else {
        GetMisses(g, u[n - 1]);
      }
    }
  }

  lemma {:induction false} SumToPastEnd(s: seq<real>, n: nat)
    requires n >= |s|
    ensures SumTo(s, n) == SumTo(s, |s|)
  {
    if s != [] {
      SumToPastEnd(s[1..], n - 1);
    }
  }

  /** Every prefix of the ranked gains is dominated by the ideal prefix. */
  lemma PrefixDominated(g: Grades, u: seq<Id>, n: nat)
    requires IsDict(g) && NonNegative(g) && Distinct(u)
    ensures SumTo(Gains(g, u), n) <= SumTo(Sorted(Values(g)), n)
  {
    var m := if n <= |u| then n else |u|;
    SumToPastEnd(Gains(g, u), if n <= |u| then |u| else n);
    GainsSumToJudged(g, u, m);
    DistinctIdsDrawDistinctGrades(g, u[..m]);
    SortedIsNonNegative(g);
    TopIsLargest(JudgedGains(g, u[..m]), Sorted(Values(g)), n);
  }

  lemma SortedIsNonNegative(g: Grades)
    requires NonNegative(g)
    ensures Descending(Sorted(Values(g))) && multiset(Sorted(Values(g))) == multiset(Values(g))
    ensures forall i :: 0 <= i < |Sorted(Values(g))| ==> Sorted(Values(g))[i] >= 0.0
  {
    var s := Sorted(Values(g));
    SortedIsDescendingPermutation(Values(g));
    forall i | 0 <= i < |s|
      ensures s[i] >= 0.0
    {
      assert s[i] in multiset(Values(g));
      assert s[i] in Values(g);
    }
  }

  lemma ScaleDown(x: real, hi: real, lo: real)
    requires x >= 0.0 && hi >= lo
    ensures hi * x >= lo * x && x * hi >= x * lo
    ensures lo == 0.0 ==> hi * x >= 0.0 && x * hi >= 0.0
  {
  }

  /** One step of summation by parts, as arithmetic: `gap` is the lead of the
      prefix sums before, `lead` that of the discounted sums. */
  lemma PartsStep(lead: real, gap: real, more: real, hi: real, lo: real)
    requires lead >= hi * gap && gap >= 0.0 && hi >= lo
    ensures lead + more * lo >= lo * (gap + more)
  {
    ScaleDown(gap, hi, lo);
    assert lo * (gap + more) == lo * gap + lo * more;
  }

  lemma DcgStep(s: seq<real>, k: nat, d: nat -> real)
    ensures Dcg(s, k + 1, d) == Dcg(s, k, d) + At(s, k) * d(k)
    ensures At(s, k) == 0.0 ==> Dcg(s, k + 1, d) == Dcg(s, k, d)
  {
  }

  lemma LeadGrows(a: seq<real>, b: seq<real>, k: nat, d: nat -> real)
    ensures Dcg(b, k + 1, d) - Dcg(a, k + 1, d) == Dcg(b, k, d) - Dcg(a, k, d) + (At(b, k) - At(a, k)) * d(k)
  {
    DcgStep(a, k, d);
    DcgStep(b, k, d);
  }

  function Gap(a: seq<real>, b: seq<real>, n: nat): real {
    SumTo(b, n) - SumTo(a, n)
  }

  lemma GapGrows(a: seq<real>, b: seq<real>, n: nat)
    ensures Gap(a, b, n + 1) == Gap(a, b, n) + (At(b, n) - At(a, n))
  {
    SumToGrows(a, n);
    SumToGrows(b, n);
  }

  /** The discounted sums lead by at least the last weight times the gap. */
  ghost predicate Leads(a: seq<real>, b: seq<real>, n: nat, d: nat -> real)
    requires n > 0
  {
    Dcg(b, n, d) - Dcg(a, n, d) >= d(n - 1) * Gap(a, b, n)
  }

  lemma FirstLeads(a: seq<real>, b: seq<real>, d: nat -> real)
    ensures Leads(a, b, 1, d)
  {
    LeadGrows(a, b, 0, d);
    GapGrows(a, b, 0);
    assert Dcg(b, 0, d) == 0.0 == Dcg(a, 0, d) && Gap(a, b, 0) == 0.0;
  }

  lemma NextLeads(a: seq<real>, b: seq<real>, n: nat, d: nat -> real)
    requires n > 0 && Leads(a, b, n, d) && Gap(a, b, n) >= 0.0 && d(n) <= d(n - 1)
    ensures Leads(a, b, n + 1, d)
  {
    LeadGrows(a, b, n, d);
    GapGrows(a, b, n);
    PartsStep(Dcg(b, n, d) - Dcg(a, n, d), Gap(a, b, n), At(b, n) - At(a, n), d(n - 1), d(n));
  }

  /** Summation by parts: dominated prefixes give a dominated discounted sum. */
  lemma {:induction false} LeadOverPrefixes(a: seq<real>, b: seq<real>, n: nat, d: nat -> real)
    requires IsDiscount(d) && n > 0
    requires forall i: nat :: i <= n ==> SumTo(a, i) <= SumTo(b, i)
    ensures Leads(a, b, n, d)
  {
    if n == 1 {
      FirstLeads(a, b, d);
    } else {
      LeadOverPrefixes(a, b, n - 1, d);
      assert d(n - 2 + 1) <= d(n - 2);
      NextLeads(a, b, n - 1, d);
    }
  }

  lemma DominatedPrefixesDominateDcg(a: seq<real>, b: seq<real>, n: nat, d: nat -> real)
    requires IsDiscount(d) && n > 0
    requires forall i: nat :: i <= n ==> SumTo(a, i) <= SumTo(b, i)
    ensures Dcg(a, n, d) <= Dcg(b, n, d)
  {
    LeadOverPrefixes(a, b, n, d);
    ScaleDown(Gap(a, b, n), d(n - 1), 0.0);
  }

  // ----- deduplication

  lemma {:induction false} UniqueIsDistinct(ids: seq<Id>)
    ensures Distinct(Unique(ids))
    ensures forall x :: x in Unique(ids) <==> x in ids
    ensures |Unique(ids)| <= |ids|
  {
    if ids != [] {
      UniqueIsDistinct(ids[..|ids| - 1]);
      assert ids == ids[..|ids| - 1] + [ids[|ids| - 1]];
    }
  }

  lemma {:induction false} UniqueGrows(ids: seq<Id>, n: nat)
    requires n <= |ids|
    ensures Unique(ids[..n]) <= Unique(ids)
    decreases |ids| - n
  {
    if n < |ids| {
      UniqueGrows(ids, n + 1);
      assert ids[..n + 1][..n] == ids[..n];
    } else {
      assert ids[..n] == ids;
    }
  }

  lemma GetNonNegative(g: Grades, id: Id)
    requires IsDict(g) && NonNegative(g)
    ensures Get(g, id) >= 0.0
  {
    if Judged(g, id) {
      var i :| 0 <= i < |g| && g[i].id == id;
      GetFinds(g, i);
    } else {
      GetMisses(g, id);
    }
  }

  lemma {:induction false} DiscountOrdered(d: nat -> real, i: nat, j: nat)
    requires IsDiscount(d) && i <= j
    ensures 0.0 < d(j) <= d(i)
    decreases j
  {
    if i < j {
      DiscountOrdered(d, i, j - 1);
      assert d(j - 1 + 1) <= d(j - 1);
    }
  }

  lemma {:induction false} DcgAgrees(s: seq<real>, t: seq<real>, k: nat, d: nat -> real)
    requires forall i: nat :: i < k ==> At(s, i) == At(t, i)
    ensures Dcg(s, k, d) == Dcg(t, k, d)
  {
    if k > 0 {
      DcgAgrees(s, t, k - 1, d);
    }
  }

  lemma {:induction false} DcgMonotone(s: seq<real>, j: nat, k: nat, d: nat -> real)
    requires IsDiscount(d) && j <= k && forall i :: 0 <= i < |s| ==> s[i] >= 0.0
    ensures 0.0 <= Dcg(s, j, d) <= Dcg(s, k, d)
    decreases k
  {
    if k > 0 {
      ScaleDown(At(s, k - 1), d(k - 1), 0.0);
      DcgMonotone(s, if j < k then j else k - 1, k - 1, d);
    }
  }

  lemma {:induction false} DcgAppend(g: Grades, u: seq<Id>, id: Id, d: nat -> real)
    ensures Dcg(Gains(g, u + [id]), |u| + 1, d) == Dcg(Gains(g, u), |u|, d) + Get(g, id) * d(|u|)
  {
    var s, t := Gains(g, u), Gains(g, u + [id]);
    DcgAgrees(s, t, |u|, d);
    DcgStep(t, |u|, d);
    assert At(t, |u|) == Get(g, id);
  }

  /** A first occurrence sits no earlier in the ranking than among the unique
      ids, so its gain is discounted at least as much. */
  lemma {:induction false} LaterRankGainsLess(g: Grades, u: seq<Id>, id: Id, rank: nat, before: real, d: nat -> real)
    requires IsDict(g) && NonNegative(g) && IsDiscount(d) && |u| <= rank
    requires before <= Dcg(Gains(g, u), |u|, d)
    ensures before + Get(g, id) * d(rank) <= Dcg(Gains(g, u + [id]), |u| + 1, d)
  {
    GetNonNegative(g, id);
    DiscountOrdered(d, |u|, rank);
    DcgAppend(g, u, id, d);
    ScaleDown(Get(g, id), d(|u|), d(rank));
  }

  lemma UniqueStep(ids: seq<Id>, n: nat)
    requires 0 < n <= |ids|
    ensures var u := Unique(ids[..n - 1]);
            Unique(ids[..n]) == if ids[n - 1] in ids[..n - 1] then u else u + [ids[n - 1]]
    ensures |Unique(ids[..n - 1])| <= n - 1
  {
    assert ids[..n][..n - 1] == ids[..n - 1];
    UniqueIsDistinct(ids[..n - 1]);
  }

  /** The discounted gain of all of `u`. */
  function GainOf(g: Grades, u: seq<Id>, d: nat -> real): real {
    Dcg(Gains(g, u), |u|, d)
  }

  /** The unique ids among the first `n`. */
  function UniqueTo(ids: seq<Id>, n: nat): (u: seq<Id>)
    requires n <= |ids|
    ensures |u| <= n
  {
    if n == 0 then []
    else if ids[n - 1] in ids[..n - 1] then UniqueTo(ids, n - 1)
    else UniqueTo(ids, n - 1) + [ids[n - 1]]
  }

  function FirstGain(g: Grades, ids: seq<Id>, i: nat): real
    requires i < |ids|
  {
    if ids[i] in ids[..i] then 0.0 else Get(g, ids[i])
  }

  /** The gain of the first occurrences among the first `n`, at their ranks. */
  function FirstSum(g: Grades, ids: seq<Id>, n: nat, d: nat -> real): real
    requires n <= |ids|
  {
    if n == 0 then 0.0 else FirstSum(g, ids, n - 1, d) + FirstGain(g, ids, n - 1) * d(n - 1)
  }

  lemma {:induction false} UniqueToIsUnique(ids: seq<Id>, n: nat)
    requires n <= |ids|
    ensures UniqueTo(ids, n) == Unique(ids[..n])
  {
    if n > 0 {
      UniqueToIsUnique(ids, n - 1);
      UniqueStep(ids, n);
    }
  }

  lemma {:induction false} FirstSumIsDcg(g: Grades, ids: seq<Id>, gains: seq<real>, n: nat, d: nat -> real)
    requires n <= |ids| == |gains|
    requires forall i :: 0 <= i < |ids| ==> gains[i] == FirstGain(g, ids, i)
    ensures FirstSum(g, ids, n, d) == Dcg(gains, n, d)
  {
    if n > 0 {
      FirstSumIsDcg(g, ids, gains, n - 1, d);
      assert At(gains, n - 1) == FirstGain(g, ids, n - 1);
    }
  }

  lemma RankKeepsBound(g: Grades, u: seq<Id>, id: Id, repeated: bool, gain: real, rank: nat, sum: real, d: nat -> real)
    requires IsDict(g) && NonNegative(g) && IsDiscount(d) && |u| <= rank && sum <= GainOf(g, u, d)
    requires gain == if repeated then 0.0 else Get(g, id)
    ensures sum + gain * d(rank) <= GainOf(g, if repeated then u else u + [id], d)
  {
    if repeated {
      Nothing(gain, d(rank));
    } else {
      LaterRankGainsLess(g, u, id, rank, sum, d);
    }
  }

  lemma Nothing(x: real, y: real)
    requires x == 0.0
    ensures x * y == 0.0
  {
  }

  lemma {:induction false} FirstSumAtMostUnique(g: Grades, ids: seq<Id>, n: nat, d: nat -> real)
    requires IsDict(g) && NonNegative(g) && IsDiscount(d) && n <= |ids|
    ensures FirstSum(g, ids, n, d) <= GainOf(g, UniqueTo(ids, n), d)
  {
    if n > 0 {
      FirstSumAtMostUnique(g, ids, n - 1, d);
      var u, id, gain, sum := UniqueTo(ids, n - 1), ids[n - 1], FirstGain(g, ids, n - 1), FirstSum(g, ids, n - 1, d);
      var repeated := id in ids[..n - 1];
      assert UniqueTo(ids, n) == if repeated then u else u + [id];
      assert FirstSum(g, ids, n, d) == sum + gain * d(n - 1);
      RankKeepsBound(g, u, id, repeated, gain, n - 1, sum, d);
    }
  }

  lemma FirstGainsAtMostUnique(g: Grades, ids: seq<Id>, n: nat, d: nat -> real)
    requires IsDict(g) && NonNegative(g) && IsDiscount(d) && n <= |ids|
    ensures Dcg(FirstGains(g, ids), n, d) <= GainOf(g, Unique(ids[..n]), d)
  {
    UniqueToIsUnique(ids, n);
    FirstSumIsDcg(g, ids, FirstGains(g, ids), n, d);
    FirstSumAtMostUnique(g, ids, n, d);
  }

  lemma ChunkAtMostParent(g: Grades, ids: seq<Id>, k: nat, d: nat -> real)
    requires IsDict(g) && NonNegative(g) && IsDiscount(d)
    ensures 0.0 <= ChunkGain(g, ids, k, d) <= ParentGain(g, ids, k, d)
  {
    var n := if k <= |ids| then k else |ids|;
    var short, full := Unique(ids[..n]), Unique(ids);
    forall id
      ensures Get(g, id) >= 0.0
    {
      GetNonNegative(g, id);
    }
    DcgMonotone(FirstGains(g, ids), 0, k, d);
    DcgPastEnd(FirstGains(g, ids), n, k, d);
    FirstGainsAtMostUnique(g, ids, n, d);
    UniqueGrows(ids, n);
    UniqueIsDistinct(ids[..n]);
    DcgAgrees(Gains(g, short), Gains(g, full), |short|, d);
    DcgMonotone(Gains(g, full), |short|, k, d);
  }

  lemma {:induction false} DcgPastEnd(s: seq<real>, n: nat, k: nat, d: nat -> real)
    requires n <= k && (n == k || n >= |s|)
    ensures Dcg(s, k, d) == Dcg(s, n, d)
    decreases k
  {
    if n < k {
      DcgPastEnd(s, n, k - 1, d);
    }
  }

  lemma ParentAtMostIdeal(g: Grades, ids: seq<Id>, k: nat, d: nat -> real)
    requires IsDict(g) && NonNegative(g) && IsDiscount(d)
    ensures ParentGain(g, ids, k, d) <= Ideal(g, k, d)
  {
    UniqueIsDistinct(ids);
    if k > 0 {
      forall n: nat | n <= k
        ensures SumTo(Gains(g, Unique(ids)), n) <= SumTo(Sorted(Values(g)), n)
      {
        PrefixDominated(g, Unique(ids), n);
      }
      DominatedPrefixesDominateDcg(Gains(g, Unique(ids)), Sorted(Values(g)), k, d);
    }
  }

  /** Where no document repeats, the two figures are the same. */
  lemma WithoutRepeatsChunkIsParent(g: Grades, ids: seq<Id>, k: nat, d: nat -> real)
    requires Distinct(ids)
    ensures ChunkGain(g, ids, k, d) == ParentGain(g, ids, k, d)
  {
    UniqueOfDistinct(ids);
    forall i | 0 <= i < |ids|
      ensures ids[i] !in ids[..i]
    {
    }
    assert FirstGains(g, ids) == Gains(g, ids);
  }

  // ----- the ideal is attained, so it is the best any ranking can do

  function InsertEntry(x: Entry, g: Grades): Grades {
    if g == [] || x.grade >= g[0].grade then [x] + g else [g[0]] + InsertEntry(x, g[1..])
  }

  function SortEntries(g: Grades): Grades {
    if g == [] then [] else InsertEntry(g[0], SortEntries(g[1..]))
  }

  lemma ValuesCons(x: Entry, g: Grades)
    ensures Values([x] + g) == [x.grade] + Values(g)
  {
  }

  lemma {:induction false} InsertEntryProjects(x: Entry, g: Grades)
    ensures Values(InsertEntry(x, g)) == Insert(x.grade, Values(g))
  {
    ValuesCons(x, g);
    if g != [] && x.grade < g[0].grade {
      InsertEntryProjects(x, g[1..]);
      ValuesCons(g[0], InsertEntry(x, g[1..]));
      assert Values(g)[1..] == Values(g[1..]);
    }
  }

  lemma {:induction false} InsertEntryAdds(x: Entry, g: Grades)
    ensures multiset(InsertEntry(x, g)) == multiset(g) + multiset{x}
  {
    if g != [] && x.grade < g[0].grade {
      InsertEntryAdds(x, g[1..]);
      assert g == [g[0]] + g[1..];
    }
  }

  lemma {:induction false} SortEntriesProjects(g: Grades)
    ensures Values(SortEntries(g)) == Sorted(Values(g))
    ensures multiset(SortEntries(g)) == multiset(g)
  {
    if g != [] {
      SortEntriesProjects(g[1..]);
      InsertEntryProjects(g[0], SortEntries(g[1..]));
      InsertEntryAdds(g[0], SortEntries(g[1..]));
      assert g == [g[0]] + g[1..];
      assert Values(g)[1..] == Values(g[1..]);
    }
  }

  lemma {:induction false} DictCountsOnce(g: Grades)
    requires IsDict(g)
    ensures forall e :: multiset(g)[e] <= 1
  {
    if g != [] {
      DictCountsOnce(g[1..]);
      assert g == [g[0]] + g[1..];
      assert g[0] !in g[1..];
    }
  }

  /** Two places of a permutation of a dict hold entries of different ids. */
  lemma PermutedDictIsDict(g: Grades, h: Grades)
    requires IsDict(g) && multiset(h) == multiset(g)
    ensures IsDict(h)
    ensures forall i :: 0 <= i < |h| ==> Get(g, h[i].id) == h[i].grade
  {
    DictCountsOnce(g);
    forall i | 0 <= i < |h|
      ensures exists e :: 0 <= e < |g| && g[e] == h[i]
    {
      assert h[i] in multiset(g);
      assert h[i] in g;
    }
    forall i | 0 <= i < |h|
      ensures Get(g, h[i].id) == h[i].grade
    {
      var e :| 0 <= e < |g| && g[e] == h[i];
      GetFinds(g, e);
    }
    forall i, j | 0 <= i < j < |h|
      ensures h[i].id != h[j].id
    {
      assert h == h[..j] + [h[j]] + h[j + 1..];
      assert multiset(h)[h[j]] <= 1;
      assert h[j] !in h[..j] && h[i] in h[..j];
    }
  }

  lemma {:induction false} UniqueOfDistinct(ids: seq<Id>)
    requires Distinct(ids)
    ensures Unique(ids) == ids
  {
    if ids != [] {
      UniqueOfDistinct(ids[..|ids| - 1]);
    }
  }

  /** Listing the judged documents by descending grade scores exactly the ideal. */
  lemma IdealIsAttained(g: Grades, k: nat, d: nat -> real) returns (ids: seq<Id>)
    requires IsDict(g)
    ensures ParentGain(g, ids, k, d) == Ideal(g, k, d)
  {
    var h := SortEntries(g);
    SortEntriesProjects(g);
    PermutedDictIsDict(g, h);
    ids := seq(|h|, i requires 0 <= i < |h| => h[i].id);
    UniqueOfDistinct(ids);
    assert Gains(g, ids) == Values(h);
  }

  /** 0 <= chunk-rank nDCG <= unique-parent nDCG <= 1 for every ranking. */
  lemma NdcgBounds(g: Grades, ids: seq<Id>, k: nat, d: nat -> real)
    requires IsDict(g) && NonNegative(g) && IsDiscount(d) && Ideal(g, k, d) != 0.0
    ensures 0.0 <= ChunkGain(g, ids, k, d) / Ideal(g, k, d)
                <= ParentGain(g, ids, k, d) / Ideal(g, k, d) <= 1.0
  {
    ChunkAtMostParent(g, ids, k, d);
    ParentAtMostIdeal(g, ids, k, d);
    DivideOrdered(ChunkGain(g, ids, k, d), ParentGain(g, ids, k, d), Ideal(g, k, d));
    DivideOrdered(ParentGain(g, ids, k, d), Ideal(g, k, d), Ideal(g, k, d));
  }

  lemma DivideOrdered(x: real, y: real, z: real)
    requires 0.0 <= x <= y && z > 0.0
    ensures 0.0 <= x / z <= y / z && z / z == 1.0
  {
  }

  // ----- the script's loops

  /** `for i, qid in enumerate(ids[:k])`, adding a gain at first sight only. */
  method ChunkLoop(g: Grades, ids: seq<Id>, k: nat, d: nat -> real) returns (dcg: real)
    ensures dcg == ChunkGain(g, ids, k, d)
  {
    var n := if k <= |ids| then k else |ids|;
    var seen: set<Id> := {};
    dcg := 0.0;
    for i := 0 to n
      invariant dcg == Dcg(FirstGains(g, ids), i, d)
      invariant forall x :: x in seen <==> x in ids[..i]
    {
      DcgStep(FirstGains(g, ids), i, d);
      if ids[i] !in seen {
        dcg := dcg + Get(g, ids[i]) * d(i);
      }
      seen := seen + {ids[i]};
    }
    DcgPastEnd(FirstGains(g, ids), n, k, d);
  }

  function Sum(s: seq<real>): real {
    if s == [] then 0.0 else Sum(s[..|s| - 1]) + s[|s| - 1]
  }

  /** `m` times the number of entries is their total. */
  predicate IsMean(m: real, s: seq<real>) {
    s != [] && m * |s| as real == Sum(s)
  }

  /** `statistics.mean`. */
  function Mean(s: seq<real>): (m: real)
    requires s != []
    ensures IsMean(m, s)
  {
    Sum(s) / |s| as real
  }

  /** `Sum` is the total: of one entry that entry, and additive. */
  lemma {:induction false} SumIsTotal(x: real, a: seq<real>, b: seq<real>)
    ensures Sum([]) == 0.0 && Sum([x]) == x && Sum(a + b) == Sum(a) + Sum(b)
    decreases |b|
  {
    assert [x][..0] == [];
    if b == [] {
      assert a + b == a;
    } else {
      SumIsTotal(x, a, b[..|b| - 1]);
      assert (a + b)[..|a + b| - 1] == a + b[..|b| - 1];
    }
  }

  /** Weights count from 0, and entries past the end count nothing. */
  lemma {:induction false} DcgIsWeightedSum(s: seq<real>, k: nat, d: nat -> real, xs: seq<real>)
    requires |xs| == (if k <= |s| then k else |s|) && forall i :: 0 <= i < |xs| ==> xs[i] == s[i] * d(i)
    ensures Dcg(s, k, d) == Sum(xs)
    decreases k
  {
    if k > |s| {
      DcgIsWeightedSum(s, k - 1, d, xs);
    } else if k > 0 {
      DcgIsWeightedSum(s, k - 1, d, xs[..k - 1]);
    }
  }

  /** The three gains as the sums the script writes down. */
  lemma ParentGainInFull(g: Grades, ids: seq<Id>, k: nat, d: nat -> real, xs: seq<real>)
    requires var u := Unique(ids);
             |xs| == (if k <= |u| then k else |u|) && forall i :: 0 <= i < |xs| ==> xs[i] == Get(g, u[i]) * d(i)
    ensures ParentGain(g, ids, k, d) == Sum(xs)
  {
    var gains := Gains(g, Unique(ids));
    forall i | 0 <= i < |xs|
      ensures xs[i] == gains[i] * d(i)
    {
      assert gains[i] == Get(g, Unique(ids)[i]);
    }
    DcgIsWeightedSum(gains, k, d, xs);
  }

  lemma ChunkGainInFull(g: Grades, ids: seq<Id>, k: nat, d: nat -> real, xs: seq<real>)
    requires |xs| == (if k <= |ids| then k else |ids|)
    requires forall i :: 0 <= i < |xs| ==> xs[i] == (if ids[i] in ids[..i] then 0.0 else Get(g, ids[i])) * d(i)
    ensures ChunkGain(g, ids, k, d) == Sum(xs)
  {
    var gains := FirstGains(g, ids);
    forall i | 0 <= i < |xs|
      ensures xs[i] == gains[i] * d(i)
    {
      assert gains[i] == if ids[i] in ids[..i] then 0.0 else Get(g, ids[i]);
    }
    DcgIsWeightedSum(gains, k, d, xs);
  }

  lemma IdealInFull(g: Grades, k: nat, d: nat -> real, sorted: seq<real>, xs: seq<real>)
    requires sorted == Sorted(Values(g)) && |xs| == (if k <= |sorted| then k else |sorted|)
    requires forall i :: 0 <= i < |xs| ==> xs[i] == sorted[i] * d(i)
    ensures Ideal(g, k, d) == Sum(xs)
  {
    DcgIsWeightedSum(sorted, k, d, xs);
  }

  type Qrels = map<string, Grades>

  ghost predicate Known(rankings: seq<Ranking>, qrels: Qrels) {
    forall i :: 0 <= i < |rankings| ==> rankings[i].queryId in qrels
  }

  /** Rankings whose ideal gain is not zero; only these are scored. */
  function Scored(rankings: seq<Ranking>, k: nat, qrels: Qrels, d: nat -> real): seq<Ranking>
    requires Known(rankings, qrels)
  {
    if rankings == [] then []
    else
      var init, last := rankings[..|rankings| - 1], rankings[|rankings| - 1];
      Scored(init, k, qrels, d) + (if Ideal(qrels[last.queryId], k, d) != 0.0 then [last] else [])
  }

  /** Each ranking is scored by itself, and exactly if its ideal gain is not 0. */
  lemma {:induction false} ScoredOneByOne(a: seq<Ranking>, b: seq<Ranking>, r: Ranking, k: nat, qrels: Qrels, d: nat -> real)
    requires Known(a, qrels) && Known(b, qrels) && r.queryId in qrels
    ensures Known(a + b, qrels) && Scored(a + b, k, qrels, d) == Scored(a, k, qrels, d) + Scored(b, k, qrels, d)
    ensures Scored([r], k, qrels, d) == if Ideal(qrels[r.queryId], k, d) != 0.0 then [r] else []
    decreases |b|
  {
    assert [r][..0] == [];
    if b == [] {
      assert a + b == a;
    } else {
      ScoredOneByOne(a, b[..|b| - 1], r, k, qrels, d);
      assert (a + b)[..|a + b| - 1] == a + b[..|b| - 1];
    }
  }

  function ParentScore(r: Ranking, k: nat, qrels: Qrels, d: nat -> real): real
    requires r.queryId in qrels && Ideal(qrels[r.queryId], k, d) != 0.0
  {
    ParentGain(qrels[r.queryId], r.docIds, k, d) / Ideal(qrels[r.queryId], k, d)
  }

  function ChunkScore(r: Ranking, k: nat, qrels: Qrels, d: nat -> real): real
    requires r.queryId in qrels && Ideal(qrels[r.queryId], k, d) != 0.0
  {
    ChunkGain(qrels[r.queryId], r.docIds, k, d) / Ideal(qrels[r.queryId], k, d)
  }

  /** `parent` and `chunk` are the scores of the rankings in `scored`. */
  ghost predicate AreScores(scored: seq<Ranking>, k: nat, qrels: Qrels, d: nat -> real,
                            parent: seq<real>, chunk: seq<real>) {
    && |parent| == |chunk| == |scored|
    && forall i :: 0 <= i < |scored| ==>
        && scored[i].queryId in qrels && Ideal(qrels[scored[i].queryId], k, d) != 0.0
        && parent[i] == ParentScore(scored[i], k, qrels, d)
        && chunk[i] == ChunkScore(scored[i], k, qrels, d)
  }

  ghost predicate IsMinimum(m: nat, s: seq<nat>) {
    m in s && forall i :: 0 <= i < |s| ==> m <= s[i]
  }

  function UniqueCounts(rankings: seq<Ranking>): (r: seq<nat>)
    ensures |r| == |rankings| && forall i :: 0 <= i < |r| ==> r[i] == |Unique(rankings[i].docIds)|
  {
    seq(|rankings|, i requires 0 <= i < |rankings| => |Unique(rankings[i].docIds)|)
  }

  function AsReals(s: seq<nat>): (r: seq<real>)
    ensures |r| == |s| && forall i :: 0 <= i < |r| ==> r[i] == s[i] as real
  {
    seq(|s|, i requires 0 <= i < |s| => s[i] as real)
  }

  method Score(rankings: seq<Ranking>, k: nat, qrels: Qrels, d: nat -> real)
    returns (parent: seq<real>, chunk: seq<real>)
    requires Known(rankings, qrels)
    ensures AreScores(Scored(rankings, k, qrels, d), k, qrels, d, parent, chunk)
  {
    parent, chunk := [], [];
    for n := 0 to |rankings|
      invariant AreScores(Scored(rankings[..n], k, qrels, d), k, qrels, d, parent, chunk)
    {
      var r := rankings[n];
      assert rankings[..n + 1][..n] == rankings[..n];
      var ideal := Ideal(qrels[r.queryId], k, d);
      if ideal != 0.0 {
        var dcg := ChunkLoop(qrels[r.queryId], r.docIds, k, d);
        parent := parent + [ParentGain(qrels[r.queryId], r.docIds, k, d) / ideal];
        chunk := chunk + [dcg / ideal];
      }
    }
    assert rankings[..|rankings|] == rankings;
  }

  method Minimum(s: seq<nat>) returns (m: nat)
    requires s != []
    ensures IsMinimum(m, s)
  {
    m := s[0];
    for i := 1 to |s|
      invariant m in s && forall j :: 0 <= j < i ==> m <= s[j]
    {
      if s[i] < m {
        m := s[i];
      }
    }
  }

  method FindUnknown(rankings: seq<Ranking>, qrels: Qrels) returns (n: nat)
    ensures n <= |rankings| && Known(rankings[..n], qrels)
    ensures n < |rankings| ==> rankings[n].queryId !in qrels
  {
    n := 0;
    while n < |rankings| && rankings[n].queryId in qrels
      invariant n <= |rankings| && Known(rankings[..n], qrels)
    {
      n := n + 1;
    }
  }

  /** The means are those of the two scores over the rankings with an ideal gain
      and of the unique counts of all; with non-negative grades the first two
      are ordered and lie in [0, 1]. */
  method Metrics(rankings: seq<Ranking>, k: nat, qrels: Qrels, d: nat -> real) returns (r: Report)
    ensures r.UnknownQuery? <==> !Known(rankings, qrels)
    ensures r.UnknownQuery? ==> r.queryId !in qrels
    ensures r.NoScores? <==> Known(rankings, qrels) && Scored(rankings, k, qrels, d) == []
    ensures r.Means? ==> exists parent, chunk ::
                           AreScores(Scored(rankings, k, qrels, d), k, qrels, d, parent, chunk)
                           && IsMean(r.parent, parent) && IsMean(r.chunk, chunk)
    ensures r.Means? ==> rankings != [] && IsMinimum(r.minUnique, UniqueCounts(rankings))
                         && IsMean(r.uniqueParents, AsReals(UniqueCounts(rankings)))
    ensures r.Means? && IsDiscount(d) && (forall q :: q in qrels ==> IsDict(qrels[q]) && NonNegative(qrels[q]))
            ==> 0.0 <= r.chunk <= r.parent <= 1.0
  {
    var n := FindUnknown(rankings, qrels);
    if n < |rankings| {
      return UnknownQuery(rankings[n].queryId);
    }
    assert rankings[..n] == rankings;
    var parent, chunk := Score(rankings, k, qrels, d);
    if parent == [] {
      return NoScores;
    }
    var least := Minimum(UniqueCounts(rankings));
    r := Means(Mean(parent), Mean(chunk), Mean(AsReals(UniqueCounts(rankings))), least);
    if IsDiscount(d) && (forall q :: q in qrels ==> IsDict(qrels[q]) && NonNegative(qrels[q])) {
      MeansOrdered(Scored(rankings, k, qrels, d), k, qrels, d, parent, chunk);
    }
  }

  lemma {:induction false} SumsOrdered(a: seq<real>, b: seq<real>)
    requires |a| == |b| && forall i :: 0 <= i < |a| ==> 0.0 <= a[i] <= b[i] <= 1.0
    ensures 0.0 <= Sum(a) <= Sum(b) <= |a| as real
  {
    if a != [] {
      SumsOrdered(a[..|a| - 1], b[..|b| - 1]);
    }
  }

  lemma MeansOrdered(scored: seq<Ranking>, k: nat, qrels: Qrels, d: nat -> real, parent: seq<real>, chunk: seq<real>)
    requires IsDiscount(d) && forall q :: q in qrels ==> IsDict(qrels[q]) && NonNegative(qrels[q])
    requires AreScores(scored, k, qrels, d, parent, chunk) && parent != []
    ensures 0.0 <= Mean(chunk) <= Mean(parent) <= 1.0
  {
    forall i | 0 <= i < |scored|
      ensures 0.0 <= chunk[i] <= parent[i] <= 1.0
    {
      NdcgBounds(qrels[scored[i].queryId], scored[i].docIds, k, d);
    }
    SumsOrdered(chunk, parent);
    DivideOrdered(Sum(chunk), Sum(parent), |parent| as real);
    DivideOrdered(Sum(parent), |parent| as real, |parent| as real);
  }
}
