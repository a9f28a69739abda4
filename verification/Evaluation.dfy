/** Ranking metrics. Scores are exact reals and the logarithmic discount is any positive,
    non-increasing weight per rank. */
module Evaluation {
  import opened Options
  import opened Lists
  import Names
  import Sorting

  type Id = string
  type Grades = map<Id, real>
  type Discount = nat -> real

  ghost predicate Discounting(d: Discount) {
    forall i: nat :: d(i) > 0.0 && d(i) >= d(i + 1)
  }

  predicate NonNegative(relevance: Grades) {
    forall id :: id in relevance ==> relevance[id] >= 0.0
  }

  function Grade(relevance: Grades, id: Id): real {
    if id in relevance then relevance[id] else 0.0
  }

  function Top(ids: seq<Id>, k: nat): seq<Id> {
    if |ids| < k then ids else ids[..k]
  }

  /** Discounted gain of a ranking, summed from the first rank. */
  function Dcg(relevance: Grades, d: Discount, ids: seq<Id>): real {
    if ids == [] then 0.0
    else
      var last := |ids| - 1;
      Dcg(relevance, d, ids[..last]) + Grade(relevance, ids[last]) * d(last)
  }

  function Total(relevance: Grades, ids: seq<Id>): real {
    if ids == [] then 0.0
    else Total(relevance, ids[..|ids| - 1]) + Grade(relevance, ids[|ids| - 1])
  }

  // ---------------------------------------------------------------- the ideal ranking

  predicate Better(relevance: Grades, a: Id, b: Id) {
    Grade(relevance, a) > Grade(relevance, b) || (Grade(relevance, a) == Grade(relevance, b) && Names.Before(a, b))
  }

  function ByGrade(relevance: Grades): (Id, Id) -> bool {
    (a: Id, b: Id) => Better(relevance, a, b)
  }

  lemma ByGradeOrders(relevance: Grades)
    ensures Sorting.StrictTotal(ByGrade(relevance))
  {
    var less := ByGrade(relevance);
    forall a ensures !less(a, a) { Names.Irreflexive(a); }
    forall a, b, c | less(a, b) && less(b, c) ensures less(a, c) {
      if Names.Before(a, b) && Names.Before(b, c) {
        Names.Transitive(a, b, c);
      }
    }
    forall a, b ensures a == b || less(a, b) || less(b, a) { Names.Total(a, b); }
  }

  /** All graded ids, best first. */
  function Ideal(relevance: Grades): seq<Id> {
    ByGradeOrders(relevance);
    Sorting.Sorted(relevance.Keys, ByGrade(relevance))
  }

  function Ndcg(retrieved: seq<Id>, relevance: Grades, d: Discount, k: int): Option<real> {
    if relevance == map[] || k <= 0 then None
    else
      var dcg := Dcg(relevance, d, Top(retrieved, k));
      var idcg := Dcg(relevance, d, Top(Ideal(relevance), k));
      if idcg == 0.0 then None else Some(dcg / idcg)
  }

  /** The metric as it is computed, rank by rank. */
  method NdcgAtK(retrieved: seq<Id>, relevance: Grades, d: Discount, k: int) returns (r: Option<real>)
    ensures r == Ndcg(retrieved, relevance, d, k)
  {
    if relevance == map[] || k <= 0 {
      return None;
    }
    var dcg := SumGains(Top(retrieved, k), relevance, d);
    var idcg := SumGains(Top(Ideal(relevance), k), relevance, d);
    return if idcg == 0.0 then None else Some(dcg / idcg);
  }

  method SumGains(ids: seq<Id>, relevance: Grades, d: Discount) returns (sum: real)
    ensures sum == Dcg(relevance, d, ids)
  {
    sum := 0.0;
    for i := 0 to |ids|
      invariant sum == Dcg(relevance, d, ids[..i])
    {
      assert ids[..i + 1][..i] == ids[..i];
      sum := sum + Grade(relevance, ids[i]) * d(i);
    }
    assert ids[..|ids|] == ids;
  }

  // ---------------------------------------------------------------- best-first lists dominate

  /** Each entry is at least as good as everything not listed before it. */
  ghost predicate BestFirst(relevance: Grades, ids: seq<Id>) {
    && Distinct(ids)
    && (forall i, x :: 0 <= i < |ids| && x !in ids[..i] ==> Grade(relevance, x) <= Grade(relevance, ids[i]))
  }

  /** ... and nothing of value is missing behind its end, unless it already has `k` entries. */
  ghost predicate BestFirstTo(relevance: Grades, ids: seq<Id>, k: nat) {
    BestFirst(relevance, ids) && (|ids| < k ==> forall x :: x !in ids ==> Grade(relevance, x) <= 0.0)
  }

  lemma IdealAscends(relevance: Grades)
    ensures Sorting.Ascending(ByGrade(relevance), Ideal(relevance))
    ensures forall id :: id in Ideal(relevance) <==> id in relevance
  {
    ByGradeOrders(relevance);
  }

  lemma IdealIsBestFirst(relevance: Grades, k: nat)
    requires NonNegative(relevance)
    ensures BestFirstTo(relevance, Ideal(relevance), |Ideal(relevance)| + k)
  {
    IdealAscends(relevance);
    var ids, less := Ideal(relevance), ByGrade(relevance);
    hide Ideal;
    forall i, j | 0 <= i < j < |ids| ensures ids[i] != ids[j] && Better(relevance, ids[i], ids[j]) {
      assert less(ids[i], ids[j]);
      Names.Irreflexive(ids[i]);
    }
    hide Sorting.Ascending;
    forall i, x | 0 <= i < |ids| && x !in ids[..i] ensures Grade(relevance, x) <= Grade(relevance, ids[i]) {
      assert ids[i] in ids;
      if x in ids {
        assert ids == ids[..i] + ids[i..];
        var j :| 0 <= j < |ids[i..]| && ids[i..][j] == x;
        assert j > 0 ==> Better(relevance, ids[i], ids[i + j]);
      }
    }
  }

  lemma TopOfBestFirst(relevance: Grades, ids: seq<Id>, k: nat)
    requires BestFirstTo(relevance, ids, k)
    ensures BestFirstTo(relevance, Top(ids, k), k)
  {
    var top := Top(ids, k);
    forall i, x | 0 <= i < |top| && x !in top[..i] ensures Grade(relevance, x) <= Grade(relevance, top[i]) {
      assert top[..i] == ids[..i];
    }
  }

  lemma SubsetIsSmaller(a: set<Id>, b: set<Id>)
    requires a <= b
    ensures |a| <= |b|
  {
    assert b == a + (b - a);
  }

  lemma NotCovered(a: set<Id>, b: set<Id>)
    requires |b| < |a|
    ensures exists x :: x in a && x !in b
  {
    if a <= b {
      SubsetIsSmaller(a, b);
    }
  }

  lemma Pigeonhole(ids: seq<Id>, few: seq<Id>) returns (i: nat)
    requires Distinct(ids) && |few| < |ids|
    ensures i < |ids| && ids[i] !in few
  {
    ElementCount(ids);
    ElementCount(few);
    NotCovered(Elements(ids), Elements(few));
    var x :| x in Elements(ids) && x !in Elements(few);
    i :| 0 <= i < |ids| && ids[i] == x;
  }

  lemma {:induction false} TotalWithout(relevance: Grades, ids: seq<Id>, i: nat)
    requires i < |ids|
    ensures Total(relevance, ids) == Total(relevance, ids[..i] + ids[i + 1..]) + Grade(relevance, ids[i])
  {
    var last := |ids| - 1;
    if i == last {
      assert ids[..i] + ids[i + 1..] == ids[..last];
    } else {
      TotalWithout(relevance, ids[..last], i);
      var rest := ids[..i] + ids[i + 1..];
      assert rest[..|rest| - 1] == ids[..last][..i] + ids[..last][i + 1..];
    }
  }

  /** Among lists of distinct ids of one length, the prefix of a best-first list has the most value. */
  lemma {:induction false} PrefixDominates(relevance: Grades, best: seq<Id>, k: nat, ids: seq<Id>)
    requires BestFirstTo(relevance, best, k) && Distinct(ids) && |ids| <= k
    ensures Total(relevance, ids) <= Total(relevance, Top(best, |ids|))
    decreases |ids|
  {
    hide *;
    if ids == [] {
      TopNothing(best);
    } else {
      var last := |ids| - 1;
      var i := Pigeonhole(ids, Top(best, last)) by { TopLength(best, last); }
      var rest := ids[..i] + ids[i + 1..];
      BestBeatsMissing(relevance, best, k, last, ids[i]);
      DropKeepsDistinct(ids, i);
      TotalWithout(relevance, ids, i);
      PrefixDominates(relevance, best, k, rest);
      TopStep(relevance, (n: nat) => 1.0, best, last);
    }
  }

  lemma TopNothing(ids: seq<Id>)
    ensures Top(ids, 0) == []
  {
  }

  lemma TopLength(ids: seq<Id>, k: nat)
    ensures |Top(ids, k)| <= k
  {
  }

  lemma BestBeatsMissing(relevance: Grades, best: seq<Id>, k: nat, n: nat, x: Id)
    requires BestFirstTo(relevance, best, k) && n < k && x !in Top(best, n)
    ensures Grade(relevance, x) <= At(relevance, best, n)
  {
    if n < |best| {
      assert Top(best, n) == best[..n];
    }
  }

  lemma DropKeepsDistinct(ids: seq<Id>, i: nat)
    requires i < |ids| && Distinct(ids)
    ensures Distinct(ids[..i] + ids[i + 1..])
  {
  }

  function At(relevance: Grades, ids: seq<Id>, i: nat): real {
    if i < |ids| then Grade(relevance, ids[i]) else 0.0
  }

  lemma TopStep(relevance: Grades, d: Discount, ids: seq<Id>, n: nat)
    ensures Total(relevance, Top(ids, n + 1)) == Total(relevance, Top(ids, n)) + At(relevance, ids, n)
    ensures Dcg(relevance, d, Top(ids, n + 1)) == Dcg(relevance, d, Top(ids, n)) + At(relevance, ids, n) * d(n)
  {
    if n < |ids| {
      assert ids[..n + 1][..n] == ids[..n];
      assert Top(ids, n) == ids[..n] && Top(ids, n + 1) == ids[..n + 1];
    } else {
      assert Top(ids, n) == ids && Top(ids, n + 1) == ids;
    }
  }

  // ---------------------------------------------------------------- from totals to discounted gains

  lemma AbelStep(gain: real, lead: real, more: real, d0: real, d1: real)
    requires gain >= lead * d0 && lead >= 0.0 && d0 >= d1
    ensures gain + more * d1 >= (lead + more) * d1
  {
    assert lead * d0 >= lead * d1;
  }

  ghost predicate PrefixLeads(relevance: Grades, best: seq<Id>, ids: seq<Id>, n: nat) {
    forall j: nat :: j <= n ==> Lead(relevance, best, ids, j) >= 0.0
  }

  function Lead(relevance: Grades, best: seq<Id>, ids: seq<Id>, j: nat): real {
    Total(relevance, Top(best, j)) - Total(relevance, Top(ids, j))
  }

  function Gain(relevance: Grades, d: Discount, best: seq<Id>, ids: seq<Id>, j: nat): real {
    Dcg(relevance, d, Top(best, j)) - Dcg(relevance, d, Top(ids, j))
  }

  lemma LeadStep(relevance: Grades, d: Discount, best: seq<Id>, ids: seq<Id>, n: nat)
    ensures var more := At(relevance, best, n) - At(relevance, ids, n);
            && Lead(relevance, best, ids, n + 1) == Lead(relevance, best, ids, n) + more
            && Gain(relevance, d, best, ids, n + 1) == Gain(relevance, d, best, ids, n) + more * d(n)
            && Lead(relevance, best, ids, 0) == Gain(relevance, d, best, ids, 0) == 0.0
  {
    TopStep(relevance, d, best, n);
    TopStep(relevance, d, ids, n);
    assert Top(best, 0) == [] && Top(ids, 0) == [];
    var a, b, w := At(relevance, best, n), At(relevance, ids, n), d(n);
    hide Dcg;
    hide Total;
    hide Top;
    assert (a - b) * w == a * w - b * w;
  }

  /** Abel summation: if every prefix of `best` is worth at least as much, its discounted gain leads by
      at least the lead in value at the last discount. */
  lemma {:induction false} AbelLead(relevance: Grades, d: Discount, best: seq<Id>, ids: seq<Id>, n: nat)
    requires Discounting(d) && n > 0 && PrefixLeads(relevance, best, ids, n)
    ensures Gain(relevance, d, best, ids, n) >= Lead(relevance, best, ids, n) * d(n - 1)
  {
    hide Lead;
    hide Gain;
    hide At;
    var m := n - 1;
    LeadStep(relevance, d, best, ids, m);
    if m > 0 {
      AbelLead(relevance, d, best, ids, m);
      assert d(m - 1) >= d(m - 1 + 1);
      AbelStep(Gain(relevance, d, best, ids, m), Lead(relevance, best, ids, m),
               At(relevance, best, m) - At(relevance, ids, m), d(m - 1), d(m));
    }
  }

  lemma BestLeads(relevance: Grades, best: seq<Id>, k: nat, ids: seq<Id>)
    requires NonNegative(relevance) && BestFirstTo(relevance, best, k) && Distinct(ids) && |ids| <= k
    ensures PrefixLeads(relevance, best, ids, k)
  {
    hide BestFirstTo;
    hide Total;
    forall j: nat | j <= k ensures Lead(relevance, best, ids, j) >= 0.0 {
      PrefixDominates(relevance, best, k, Top(ids, j));
      BestGrows(relevance, best, |Top(ids, j)|, j);
    }
  }

  lemma DominatedDcg(relevance: Grades, d: Discount, best: seq<Id>, k: nat, ids: seq<Id>)
    requires Discounting(d) && NonNegative(relevance)
    requires BestFirstTo(relevance, best, k) && Distinct(ids) && |ids| <= k && |best| <= k
    ensures Dcg(relevance, d, ids) <= Dcg(relevance, d, best)
  {
    hide *;
    BestLeads(relevance, best, k, ids);
    LeadIsGain(relevance, d, best, ids, k);
    TopAll(ids, k);
    TopAll(best, k);
    GainMeaning(relevance, d, best, ids, k);
  }

  lemma LeadIsGain(relevance: Grades, d: Discount, best: seq<Id>, ids: seq<Id>, k: nat)
    requires Discounting(d) && PrefixLeads(relevance, best, ids, k)
    ensures Gain(relevance, d, best, ids, k) >= 0.0
  {
    hide Gain;
    hide Lead;
    if k == 0 {
      LeadStep(relevance, d, best, ids, 0);
    } else {
      AbelLead(relevance, d, best, ids, k);
      NonNegativeProduct(Lead(relevance, best, ids, k), d(k - 1));
    }
  }

  lemma TopAll(ids: seq<Id>, k: nat)
    requires |ids| <= k
    ensures Top(ids, k) == ids
  {
  }

  lemma GainMeaning(relevance: Grades, d: Discount, best: seq<Id>, ids: seq<Id>, j: nat)
    ensures Gain(relevance, d, best, ids, j) == Dcg(relevance, d, Top(best, j)) - Dcg(relevance, d, Top(ids, j))
  {
  }

  lemma NonNegativeProduct(x: real, y: real)
    requires x >= 0.0 && y >= 0.0
    ensures x * y >= 0.0
  {
  }

  lemma {:induction false} BestGrows(relevance: Grades, best: seq<Id>, i: nat, j: nat)
    requires i <= j && NonNegative(relevance)
    ensures Total(relevance, Top(best, i)) <= Total(relevance, Top(best, j))
    decreases j
  {
    if i < j {
      BestGrows(relevance, best, i, j - 1);
      TopStep(relevance, (n: nat) => 1.0, best, j - 1);
    }
  }

  // ---------------------------------------------------------------- main results

  lemma {:induction false} DcgNonNegative(relevance: Grades, d: Discount, ids: seq<Id>)
    requires Discounting(d) && NonNegative(relevance)
    ensures Dcg(relevance, d, ids) >= 0.0
  {
    if ids != [] {
      var last := |ids| - 1;
      DcgNonNegative(relevance, d, ids[..last]);
      assert d(last) > 0.0;
      NonNegativeProduct(Grade(relevance, ids[last]), d(last));
    }
  }

  lemma IdealBounds(relevance: Grades, d: Discount, k: nat, ids: seq<Id>)
    requires Discounting(d) && NonNegative(relevance) && Distinct(ids) && |ids| <= k
    ensures 0.0 <= Dcg(relevance, d, ids) <= Dcg(relevance, d, Top(Ideal(relevance), k))
    ensures BestFirstTo(relevance, ids, k) ==> Dcg(relevance, d, ids) == Dcg(relevance, d, Top(Ideal(relevance), k))
  {
    hide BestFirst;
    hide Ideal;
    hide Dcg;
    hide Discounting;
    var ideal := Ideal(relevance);
    IdealIsBestFirst(relevance, k);
    TopOfIdeal(relevance, k);
    DominatedDcg(relevance, d, Top(ideal, k), k, ids);
    DcgNonNegative(relevance, d, ids);
    if BestFirstTo(relevance, ids, k) {
      DominatedDcg(relevance, d, ids, k, Top(ideal, k));
    }
  }

  lemma TopOfIdeal(relevance: Grades, k: nat)
    requires NonNegative(relevance)
    ensures BestFirstTo(relevance, Top(Ideal(relevance), k), k) && Distinct(Top(Ideal(relevance), k))
    ensures |Top(Ideal(relevance), k)| <= k
  {
    var ideal := Ideal(relevance);
    hide Ideal;
    IdealIsBestFirst(relevance, k);
    assert BestFirstTo(relevance, ideal, k);
    TopOfBestFirst(relevance, ideal, k);
  }

  lemma Quotient(a: real, b: real)
    requires 0.0 <= a <= b && b > 0.0
    ensures 0.0 <= a / b <= 1.0
    ensures a == b ==> a / b == 1.0
  {
  }

  /** Whenever it is defined, the metric lies between zero and one for any ranking of distinct ids. */
  lemma NdcgIsNormalized(retrieved: seq<Id>, relevance: Grades, d: Discount, k: int)
    requires Discounting(d) && NonNegative(relevance)
    requires k > 0 ==> Distinct(Top(retrieved, k))
    ensures var r := Ndcg(retrieved, relevance, d, k); r.Some? ==> 0.0 <= r.value <= 1.0
  {
    if k > 0 {
      hide Dcg;
      hide Ideal;
      IdealBounds(relevance, d, k, Top(retrieved, k));
      var idcg := Dcg(relevance, d, Top(Ideal(relevance), k));
      if idcg > 0.0 {
        Quotient(Dcg(relevance, d, Top(retrieved, k)), idcg);
      }
    }
  }

  /** A ranking that puts the best grades first, and stops early only when nothing of value is left,
      scores one. */
  lemma BestRankingScoresOne(retrieved: seq<Id>, relevance: Grades, d: Discount, k: int)
    requires Discounting(d) && NonNegative(relevance)
    requires k > 0 ==> BestFirstTo(relevance, Top(retrieved, k), k)
    ensures var r := Ndcg(retrieved, relevance, d, k); r.Some? ==> r.value == 1.0
  {
    if k > 0 {
      IdealBounds(relevance, d, k, Top(retrieved, k));
      hide Dcg;
      hide Ideal;
      var idcg := Dcg(relevance, d, Top(Ideal(relevance), k));
      if idcg > 0.0 {
        Quotient(Dcg(relevance, d, Top(retrieved, k)), idcg);
      }
    }
  }

  // ---------------------------------------------------------------- distinctness is exactly what is needed

  function Weight(d: Discount, n: nat): real {
    if n == 0 then 0.0 else Weight(d, n - 1) + d(n - 1)
  }

  lemma {:induction false} UniformDcg(relevance: Grades, d: Discount, ids: seq<Id>)
    requires forall id :: id in ids ==> Grade(relevance, id) == 1.0
    ensures Dcg(relevance, d, ids) == Weight(d, |ids|)
  {
    if ids != [] {
      var last := |ids| - 1;
      UniformDcg(relevance, d, ids[..last]);
      assert ids[last] in ids;
      var w := d(last);
      assert 1.0 * w == w;
    }
  }

  lemma {:induction false} WeightGrows(d: Discount, m: nat, n: nat)
    requires Discounting(d) && m <= n
    ensures 0.0 <= Weight(d, m) <= Weight(d, n)
    ensures m < n ==> Weight(d, m) < Weight(d, n)
    decreases n
  {
    if n > 0 {
      assert d(n - 1) > 0.0;
      if m < n {
        WeightGrows(d, m, n - 1);
      } else {
        WeightGrows(d, m - 1, n - 1);
      }
    }
  }

  lemma {:induction false} RepeatsCountLess(ids: seq<Id>)
    requires !Distinct(ids)
    ensures |Elements(ids)| < |ids|
  {
    var i, j :| 0 <= i < j < |ids| && ids[i] == ids[j];
    var last := |ids| - 1;
    assert Elements(ids) == Elements(ids[..last]) + {ids[last]};
    if Distinct(ids[..last]) {
      ElementCount(ids[..last]);
      assert ids[..last][i] == ids[last];
      assert Elements(ids) == Elements(ids[..last]);
    } else {
      RepeatsCountLess(ids[..last]);
    }
  }

  /** Repeating an id inside the cutoff can push the score above one: grade everything returned alike. */
  lemma RepeatsScoreAboveOne(retrieved: seq<Id>, d: Discount, k: nat)
    requires Discounting(d) && k > 0 && !Distinct(Top(retrieved, k))
    ensures var relevance := AllAlike(Top(retrieved, k));
            && NonNegative(relevance)
            && Ndcg(retrieved, relevance, d, k).Some?
            && Ndcg(retrieved, relevance, d, k).value > 1.0
  {
    hide Weight;
    var top := Top(retrieved, k);
    var relevance := AllAlike(top);
    var ideal := Ideal(relevance);
    RepeatsCountLess(top);
    AlikeIdeal(top, k);
    hide AllAlike;
    hide Distinct;
    hide Ideal;
    UniformDcg(relevance, d, top);
    UniformDcg(relevance, d, ideal);
    WeightGrows(d, |ideal|, |top|);
    WeightGrows(d, 0, |ideal|);
    AboveOne(Weight(d, |top|), Weight(d, |ideal|));
  }

  lemma AlikeIdeal(top: seq<Id>, k: nat)
    requires top != [] && |Elements(top)| <= k
    ensures var relevance, ideal := AllAlike(top), Ideal(AllAlike(top));
            && NonNegative(relevance) && 0 < |ideal| == |Elements(top)| && Top(ideal, k) == ideal
            && (forall id :: id in ideal ==> id in relevance && relevance[id] == 1.0)
            && (forall id :: id in top ==> id in relevance && relevance[id] == 1.0)
  {
    var relevance := AllAlike(top);
    AllAlikeKeys(top);
    IdealHasKeys(relevance);
    hide Ideal;
    hide AllAlike;
    hide Elements;
    NonEmpty(relevance.Keys, top[0]);
  }

  lemma AllAlikeKeys(top: seq<Id>)
    ensures var relevance := AllAlike(top);
            && relevance.Keys == Elements(top) && NonNegative(relevance)
            && (forall id :: id in top ==> id in relevance)
            && (forall id :: id in relevance ==> relevance[id] == 1.0)
  {
  }

  lemma IdealHasKeys(relevance: Grades)
    ensures |Ideal(relevance)| == |relevance.Keys| && forall id :: id in Ideal(relevance) ==> id in relevance
  {
    hide Sorting.StrictTotal;
    hide Sorting.Ascending;
    hide Sorting.Sorted;
    hide ByGrade;
    ByGradeOrders(relevance);
  }

  lemma NonEmpty(s: set<Id>, x: Id)
    requires x in s
    ensures |s| > 0
  {
  }

  lemma AboveOne(a: real, b: real)
    requires a > b > 0.0
    ensures a / b > 1.0
  {
  }

  function AllAlike(ids: seq<Id>): Grades {
    map id | id in ids :: 1.0
  }

  /** The normalization holds for all grades if and only if no id repeats inside the cutoff. */
  lemma NormalizedIffDistinct(retrieved: seq<Id>, d: Discount, k: nat)
    requires Discounting(d) && k > 0
    ensures Distinct(Top(retrieved, k)) <==>
            forall relevance :: NonNegative(relevance) && Ndcg(retrieved, relevance, d, k).Some?
              ==> Ndcg(retrieved, relevance, d, k).value <= 1.0
  {
    hide Ndcg;
    if Distinct(Top(retrieved, k)) {
      forall relevance | NonNegative(relevance) && Ndcg(retrieved, relevance, d, k).Some?
        ensures Ndcg(retrieved, relevance, d, k).value <= 1.0
      {
        NdcgIsNormalized(retrieved, relevance, d, k);
      }
    } else {
      RepeatsScoreAboveOne(retrieved, d, k);
    }
  }

  // ---------------------------------------------------------------- recall and reciprocal rank

  function Hits(ids: seq<Id>, relevant: set<Id>): nat {
    if ids == [] then 0
    else Hits(ids[..|ids| - 1], relevant) + (if ids[|ids| - 1] in relevant then 1 else 0)
  }

  /** Empty ids are never relevant. */
  function Recall(retrieved: seq<Id>, relevant: set<Id>, k: int): Option<real> {
    var rel := relevant - {""};
    if rel == {} then None
    else if k <= 0 then Some(0.0)
    else Some(Hits(Top(retrieved, k), rel) as real / |rel| as real)
  }

  lemma {:induction false} HitsCountOnce(ids: seq<Id>, relevant: set<Id>)
    requires Distinct(ids)
    ensures Hits(ids, relevant) == |Elements(ids) * relevant|
  {
    if ids == [] {
      assert Elements(ids) * relevant == {};
    } else {
      var last := |ids| - 1;
      HitsCountOnce(ids[..last], relevant);
      assert ids[last] !in Elements(ids[..last]);
      assert Elements(ids) * relevant
          == Elements(ids[..last]) * relevant + (if ids[last] in relevant then {ids[last]} else {});
    }
  }

  lemma Share(h: nat, n: nat)
    requires h <= n && n > 0
    ensures var r := h as real / n as real; 0.0 <= r <= 1.0 && r * n as real == h as real && (r == 1.0 <==> h == n)
  {
    Quotient(h as real, n as real);
  }

  /** With distinct ids recall is the share of relevant ids found, so at most one, and one exactly when
      nothing relevant is missing. */
  lemma RecallIsCoverage(retrieved: seq<Id>, relevant: set<Id>, k: nat)
    requires k > 0 && Distinct(Top(retrieved, k)) && relevant - {""} != {}
    ensures var rel := relevant - {""};
            var r := Recall(retrieved, relevant, k);
            && r.Some? && 0.0 <= r.value <= 1.0
            && r.value * |rel| as real == |Elements(Top(retrieved, k)) * rel| as real
            && (r.value == 1.0 <==> rel <= Elements(Top(retrieved, k)))
  {
    hide Top;
    hide Hits;
    hide Elements;
    hide Distinct;
    var rel, found := relevant - {""}, Elements(Top(retrieved, k));
    HitsCountOnce(Top(retrieved, k), rel);
    SubsetIsSmaller(found * rel, rel);
    assert rel <= found ==> found * rel == rel;
    if |found * rel| == |rel| {
      SameSize(found * rel, rel);
    }
    Share(|found * rel|, |rel|);
  }

  lemma SameSize(a: set<Id>, b: set<Id>)
    requires a <= b && |a| == |b|
    ensures a == b
  {
    assert b == a + (b - a);
  }

  predicate FirstHit(retrieved: seq<Id>, rel: set<Id>, i: nat) {
    i < |retrieved| && retrieved[i] in rel && forall j :: 0 <= j < i ==> retrieved[j] !in rel
  }

  /** Reciprocal of the first relevant rank. */
  method Mrr(retrieved: seq<Id>, relevant: set<Id>) returns (r: Option<real>)
    ensures r.None? <==> relevant - {""} == {}
    ensures r == Some(0.0) <==> relevant - {""} != {} && Elements(retrieved) !! relevant - {""}
    ensures r.Some? && r.value != 0.0 ==>
              exists i :: FirstHit(retrieved, relevant - {""}, i) && r.value == 1.0 / (i + 1) as real
  {
    var rel := relevant - {""};
    if rel == {} {
      return None;
    }
    for i := 0 to |retrieved|
      invariant forall j :: 0 <= j < i ==> retrieved[j] !in rel
    {
      if retrieved[i] in rel {
        assert retrieved[i] in Elements(retrieved);
        assert FirstHit(retrieved, rel, i);
        return Some(1.0 / (i + 1) as real);
      }
    }
    return Some(0.0);
  }
}
