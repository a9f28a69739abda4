/** Scoring a judged pool: the checks that come first are what keeps every score a share. */
module GradedMetrics {
  import opened Options
  import opened Lists
  import opened Evaluation

  /** Absent when the pool is not fully judged or nothing in it is relevant; a present `None` is NaN. */
  type Measure = Option<Option<real>>

  datatype Metrics = Metrics(
    judged: nat,
    relevant: nat,
    unjudged: nat,
    ndcgAt5: Option<real>,
    mrr: Measure,
    candidateRecall: Measure,
    hitAt: map<nat, real>,
    recallAt: map<nat, Option<real>>)

  datatype MetricsError = RepeatsOrCutoff | GradeOutOfRange

  predicate Gradable(judgments: map<Id, int>) {
    forall id :: id in judgments ==> 0 <= judgments[id] <= 3
  }

  function Relevant(judgments: map<Id, int>): set<Id> {
    set id | id in judgments && judgments[id] >= 2
  }

  function Unknown(order: seq<Id>, judgments: map<Id, int>): seq<Id> {
    if order == [] then []
    else
      var last := order[|order| - 1];
      Unknown(order[..|order| - 1], judgments) + if last in judgments then [] else [last]
  }

  /** `2 ** grade - 1`. */
  function GainOf(grade: int): real {
    if grade <= 0 then 0.0 else if grade == 1 then 1.0 else if grade == 2 then 3.0 else 7.0
  }

  function Gains(judgments: map<Id, int>): Grades {
    map id | id in judgments :: GainOf(judgments[id])
  }

  const CUTOFFS: seq<nat> := [1, 5, 10]

  predicate Fraction(x: real) {
    0.0 <= x <= 1.0
  }

  /** The empty id can be judged and returned, but never counts as found. */
  function Named(relevant: set<Id>): set<Id> {
    relevant - {""}
  }

  /** What the scores of a fully judged pool with something relevant in it guarantee: shares if any relevant id has
      a name, and NaN for all but the hits if only the empty id is relevant. */
  ghost predicate Scored(m: Metrics, order: seq<Id>, relevant: set<Id>, cutoff: nat) {
    && m.mrr.Some? && m.candidateRecall == Some(Recall(order, relevant, cutoff))
    && (forall k :: k in CUTOFFS ==> k in m.hitAt && k in m.recallAt)
    && (forall k :: k in CUTOFFS ==> m.recallAt[k] == Recall(order, relevant, k))
    && (forall k :: k in CUTOFFS ==>
          m.hitAt[k] == (if Found(order, relevant, k) || BlankFound(order, relevant, k) then 1.0 else 0.0))
    && (m.mrr.value.None? <==> Named(relevant) == {})
    && (m.candidateRecall.value.None? <==> Named(relevant) == {})
    && (forall k :: k in CUTOFFS ==> (m.recallAt[k].None? <==> Named(relevant) == {}))
    && (Named(relevant) != {} ==> Shares(m, order, relevant))
  }

  predicate Found(order: seq<Id>, relevant: set<Id>, k: nat) {
    Named(relevant) * Elements(Top(order, k)) != {}
  }

  predicate BlankFound(order: seq<Id>, relevant: set<Id>, k: nat) {
    "" in relevant && "" in Top(order, k)
  }

  ghost predicate Shares(m: Metrics, order: seq<Id>, relevant: set<Id>)
    requires m.mrr.Some? && m.mrr.value.Some? && m.candidateRecall.Some? && m.candidateRecall.value.Some?
    requires forall k :: k in CUTOFFS ==> k in m.recallAt && m.recallAt[k].Some?
  {
    var recall := m.candidateRecall.value.value;
    && Fraction(m.mrr.value.value) && Fraction(recall)
    && (m.mrr.value.value > 0.0 <==> recall > 0.0)
    && (forall k :: k in CUTOFFS ==>
          && Fraction(m.recallAt[k].value) && m.recallAt[k].value <= recall
          && (m.recallAt[k].value > 0.0 <==> Found(order, relevant, k)))
    && (forall j, k :: j in CUTOFFS && k in CUTOFFS && j <= k ==> m.recallAt[j].value <= m.recallAt[k].value)
  }

  lemma {:induction false} HitsGrow(ids: seq<Id>, relevant: set<Id>, i: nat)
    requires i <= |ids|
    ensures Hits(ids[..i], relevant) <= Hits(ids, relevant)
  {
    if i == |ids| {
      assert ids[..i] == ids;
    } else {
      HitsGrow(ids[..|ids| - 1], relevant, i);
      assert ids[..|ids| - 1][..i] == ids[..i];
    }
  }

  lemma {:induction false} HitsMeet(ids: seq<Id>, relevant: set<Id>)
    ensures Hits(ids, relevant) > 0 <==> Elements(ids) * relevant != {}
  {
    if ids == [] {
      assert Elements(ids) * relevant == {};
    } else {
      var last, rest := ids[|ids| - 1], ids[..|ids| - 1];
      HitsMeet(rest, relevant);
      assert ids == rest + [last];
      assert Elements(ids) == Elements(rest) + {last};
      hide Elements;
      assert Elements(ids) * relevant == Elements(rest) * relevant + (if last in relevant then {last} else {});
      assert last in relevant ==> last in Elements(ids) * relevant;
    }
  }

  lemma FractionsCompare(a: nat, b: nat, n: nat)
    requires a <= b && n > 0
    ensures a as real / n as real <= b as real / n as real
    ensures b as real / n as real > 0.0 <==> b > 0
  {
    DivisionKeepsOrder(a as real, b as real, n as real);
    if b > 0 {
      PositiveQuotient(b as real, n as real);
    } else {
      ZeroQuotient(n as real);
    }
  }

  lemma ZeroQuotient(n: real)
    requires n > 0.0
    ensures 0.0 / n == 0.0
  {
  }

  lemma PositiveQuotient(x: real, n: real)
    requires x > 0.0 && n > 0.0
    ensures x / n > 0.0
  {
  }

  lemma DivisionKeepsOrder(x: real, y: real, n: real)
    requires x <= y && n > 0.0
    ensures x / n <= y / n
  {
    assert y / n - x / n == (y - x) / n;
  }

  /** One more cutoff: recall is positive exactly on finding a named id, and only grows with the cutoff. */
  lemma RecallAt(order: seq<Id>, relevant: set<Id>, k: nat, j: nat)
    requires 0 < k && Named(relevant) != {} && Distinct(order)
    ensures var r := Recall(order, relevant, k);
            && r.Some? && Fraction(r.value)
            && (r.value > 0.0 <==> Found(order, relevant, k))
            && (k <= j || |order| <= j ==>
                  Recall(order, relevant, j).Some? && (j > 0 ==> r.value <= Recall(order, relevant, j).value))
  {
    var named := Named(relevant);
    var top, more := Top(order, k), Top(order, j);
    assert Distinct(top);
    RecallIsCoverage(order, relevant, k);
    HitsMeet(top, named);
    FractionsCompare(0, Hits(top, named), |named|);
    if (k <= j || |order| <= j) && j > 0 {
      assert |top| <= |more| && top == more[..|top|];
      HitsGrow(more, named, |top|);
      FractionsCompare(Hits(top, named), Hits(more, named), |named|);
    }
  }

  method AtCutoffs(order: seq<Id>, relevant: set<Id>) returns (hitAt: map<nat, real>, recallAt: map<nat, Option<real>>)
    ensures CutoffsFilled(order, relevant, CUTOFFS, hitAt, recallAt)
  {
    hide Recall;
    hide Top;
    hide Elements;
    hitAt, recallAt := map[], map[];
    for i := 0 to |CUTOFFS|
      invariant CutoffsFilled(order, relevant, CUTOFFS[..i], hitAt, recallAt)
    {
      var k := CUTOFFS[i];
      assert CUTOFFS[..i + 1] == CUTOFFS[..i] + [k];
      hitAt := hitAt[k := if relevant * Elements(Top(order, k)) != {} then 1.0 else 0.0];
      recallAt := recallAt[k := Recall(order, relevant, k)];
    }
    assert CUTOFFS[..|CUTOFFS|] == CUTOFFS;
  }

  predicate CutoffsFilled(order: seq<Id>, relevant: set<Id>, ks: seq<nat>, hitAt: map<nat, real>,
                          recallAt: map<nat, Option<real>>) {
    forall k :: k in ks ==>
      && k in hitAt && k in recallAt && recallAt[k] == Recall(order, relevant, k)
      && hitAt[k] == (if relevant * Elements(Top(order, k)) != {} then 1.0 else 0.0)
  }

  lemma HitIs(order: seq<Id>, relevant: set<Id>, k: nat)
    ensures relevant * Elements(Top(order, k)) != {} <==> Found(order, relevant, k) || BlankFound(order, relevant, k)
  {
    var top := Top(order, k);
    hide Top;
    if BlankFound(order, relevant, k) {
      assert "" in relevant * Elements(top);
    }
    forall id | id in relevant * Elements(top) && id != "" ensures id in Named(relevant) * Elements(top) {}
  }

  lemma NoRecall(order: seq<Id>, relevant: set<Id>, k: nat)
    ensures Recall(order, relevant, k).None? <==> Named(relevant) == {}
  {
  }

  lemma CutoffsScore(m: Metrics, order: seq<Id>, relevant: set<Id>, cutoff: nat)
    requires 0 < cutoff && |order| <= cutoff && Distinct(order)
    requires m.candidateRecall == Some(Recall(order, relevant, cutoff))
    requires CutoffsFilled(order, relevant, CUTOFFS, m.hitAt, m.recallAt)
    requires m.mrr.Some? && (m.mrr.value.None? <==> Named(relevant) == {})
    requires m.mrr.value.Some? ==>
             Fraction(m.mrr.value.value) && (m.mrr.value.value > 0.0 <==> Found(order, relevant, cutoff))
    ensures Scored(m, order, relevant, cutoff)
  {
    hide Found;
    hide BlankFound;
    hide Recall;
    hide Top;
    hide Elements;
    hide Distinct;
    hide Named;
    NoRecall(order, relevant, cutoff);
    forall k | k in CUTOFFS
      ensures m.hitAt[k] == if Found(order, relevant, k) || BlankFound(order, relevant, k) then 1.0 else 0.0
      ensures m.recallAt[k].None? <==> Named(relevant) == {}
    {
      HitIs(order, relevant, k);
      NoRecall(order, relevant, k);
    }
    if Named(relevant) != {} {
      RecallAt(order, relevant, cutoff, cutoff);
      forall k | k in CUTOFFS
        ensures Fraction(m.recallAt[k].value) && m.recallAt[k].value <= m.candidateRecall.value.value
        ensures m.recallAt[k].value > 0.0 <==> Found(order, relevant, k)
      {
        RecallAt(order, relevant, k, cutoff);
      }
      forall j, k | j in CUTOFFS && k in CUTOFFS && j <= k
        ensures m.recallAt[j].value <= m.recallAt[k].value
      {
        RecallAt(order, relevant, j, k);
      }
    }
  }

  /** A reciprocal rank is a fraction, and positive exactly when something named and relevant was returned. */
  lemma RankIsFraction(order: seq<Id>, relevant: set<Id>, rank: Option<real>)
    requires rank.None? <==> Named(relevant) == {}
    requires rank == Some(0.0) <==> Named(relevant) != {} && Elements(order) !! Named(relevant)
    requires rank.Some? && rank.value != 0.0 ==>
               exists i: nat :: FirstHit(order, Named(relevant), i) && rank.value == 1.0 / (i + 1) as real
    ensures rank.Some? ==>
              Fraction(rank.value) && (rank.value > 0.0 <==> Named(relevant) * Elements(order) != {})
  {
    if rank.Some? && rank.value != 0.0 {
      var i: nat :| FirstHit(order, Named(relevant), i) && rank.value == 1.0 / (i + 1) as real;
      FractionsCompare(1, i + 1, i + 1);
      FractionsCompare(0, 1, i + 1);
      assert (i + 1) as real / (i + 1) as real == 1.0;
    }
  }

  lemma NamedIs(relevant: set<Id>)
    ensures Named(relevant) == relevant - {""}
  {
  }

  lemma TopOfAll(order: seq<Id>, relevant: set<Id>, k: nat)
    requires |order| <= k
    ensures Top(order, k) == order
    ensures Found(order, relevant, k) <==> Named(relevant) * Elements(order) != {}
  {
  }

  method GradedRetrievalMetrics(retrieved: seq<Id>, judgments: map<Id, int>, d: Discount, cutoff: int)
    returns (result: Outcome<Metrics, MetricsError>)
    requires Discounting(d)
    ensures result.Raised? <==> cutoff <= 0 || !Distinct(retrieved) || !Gradable(judgments)
    ensures result.Committed? ==>
              var m, order := result.value, Top(retrieved, cutoff);
              && m.judged == |judgments| && m.relevant == |Relevant(judgments)|
              && m.unjudged == |Unknown(order, judgments)|
              && (m.unjudged > 0 ==>
                    m.ndcgAt5.None? && m.mrr.None? && m.candidateRecall.None?
                    && m.hitAt == map[] && m.recallAt == map[])
              && (m.unjudged == 0 ==> m.ndcgAt5 == Ndcg(order, Gains(judgments), d, 5))
              && (m.ndcgAt5.Some? ==> Fraction(m.ndcgAt5.value))
              && (m.unjudged == 0 && Relevant(judgments) == {} ==> m.mrr.None? && m.candidateRecall.None?)
              && (m.unjudged == 0 && Relevant(judgments) != {} ==> Scored(m, order, Relevant(judgments), cutoff))
  {
    if cutoff <= 0 || !Distinct(retrieved) {
      return Raised(RepeatsOrCutoff);
    }
    if exists id :: id in judgments && !(0 <= judgments[id] <= 3) {
      return Raised(GradeOutOfRange);
    }
    var order := Top(retrieved, cutoff);
    assert Distinct(order) && Distinct(Top(order, 5)) && |order| <= cutoff;
    var relevant := Relevant(judgments);
    assert NonNegative(Gains(judgments));
    hide Ndcg;
    hide Recall;
    hide Elements;
    hide Distinct;
    hide Top;
    hide Relevant;
    hide Gains;
    hide FirstHit;
    hide Found;
    hide Named;
    hide Discounting;
    hide NonNegative;
    hide Unknown;
    hide Scored;
    hide CutoffsFilled;
    var m := Metrics(|judgments|, |relevant|, |Unknown(order, judgments)|, None, None, None, map[], map[]);
    if m.unjudged > 0 {
      return Committed(m);
    }
    var ndcg := NdcgAtK(order, Gains(judgments), d, 5);
    NdcgIsNormalized(order, Gains(judgments), d, 5);
    m := m.(ndcgAt5 := ndcg);
    if relevant != {} {
      var rank := Mrr(order, relevant);
      var hitAt, recallAt := AtCutoffs(order, relevant);
      m := m.(mrr := Some(rank), candidateRecall := Some(Recall(order, relevant, cutoff)),
              hitAt := hitAt, recallAt := recallAt);
      assert Named(relevant) == relevant - {""} by { NamedIs(relevant); }
      RankIsFraction(order, relevant, rank);
      TopOfAll(order, relevant, cutoff);
      CutoffsScore(m, order, relevant, cutoff);
    }
    result := Committed(m);
  }

  // ---------------------------------------------------------------- what is counted

  function PowerOfTwo(n: nat): nat {
    if n == 0 then 1 else 2 * PowerOfTwo(n - 1)
  }

  /** Every grade counts one less than its power of two, and is relevant exactly if that is three at least. */
  lemma GradesCount(judgments: map<Id, int>, id: Id)
    requires Gradable(judgments)
    ensures id in judgments <==> id in Gains(judgments)
    ensures id in judgments ==>
              && Gains(judgments)[id] == PowerOfTwo(judgments[id]) as real - 1.0
              && (id in Relevant(judgments) <==> Gains(judgments)[id] >= 3.0)
  {
    assert PowerOfTwo(1) == 2 && PowerOfTwo(2) == 4 && PowerOfTwo(3) == 8;
  }

  lemma ElementsConcat(a: seq<Id>, b: seq<Id>)
    ensures Elements(a + b) == Elements(a) + Elements(b)
  {
  }

  lemma {:induction false} UnknownElements(order: seq<Id>, judgments: map<Id, int>)
    ensures Elements(Unknown(order, judgments)) == Elements(order) - judgments.Keys
  {
    if order != [] {
      var last, rest := order[|order| - 1], order[..|order| - 1];
      UnknownElements(rest, judgments);
      assert order == rest + [last];
      ElementsConcat(rest, [last]);
      assert Elements([last]) == {last};
      ElementsConcat(Unknown(rest, judgments), [last]);
      hide Elements;
    }
  }

  lemma {:induction false} UnknownDistinct(order: seq<Id>, judgments: map<Id, int>)
    requires Distinct(order)
    ensures Distinct(Unknown(order, judgments))
  {
    if order != [] {
      var last, rest := order[|order| - 1], order[..|order| - 1];
      UnknownDistinct(rest, judgments);
      UnknownElements(rest, judgments);
      assert last !in Elements(rest);
      forall x | x in Unknown(rest, judgments) ensures x != last {
        assert x in Elements(Unknown(rest, judgments));
      }
      DistinctConcat(Unknown(rest, judgments), [last]);
      assert Unknown(rest, judgments) + [] == Unknown(rest, judgments);
    }
  }

  /** The unjudged results are those without a grade, and each is counted once. */
  lemma UnjudgedAre(order: seq<Id>, judgments: map<Id, int>)
    requires Distinct(order)
    ensures Elements(Unknown(order, judgments)) == Elements(order) - judgments.Keys
    ensures |Unknown(order, judgments)| == |Elements(order) - judgments.Keys|
  {
    UnknownElements(order, judgments);
    UnknownDistinct(order, judgments);
    ElementCount(Unknown(order, judgments));
    hide Elements;
    hide Distinct;
  }
}
