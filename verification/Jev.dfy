/** Accepting Jev's rounded answers: the tolerances admit every honestly rounded distribution.

    Probabilities are listed in the order of the question's criteria. */
module Jev {

  const SLACK: real := 0.000000001

  /** What a question asks for: a level out of an ordered list, one of several options, or a yes/no estimate. */
  datatype Question = Score(levels: nat) | Choice(options: nat) | Noul

  /** `probabilities` is absent when its keys are not the question's options. */
  datatype Probabilities = Mismatched | Over(values: seq<real>)

  datatype Answer =
    | ScoreAnswer(confidence: real, probabilities: Probabilities, score: real)
    | ChoiceAnswer(confidence: real, probabilities: Probabilities, choice: nat)
    | NoulAnswer(noul: real)

  datatype Verdict =
    | Accepted
    | TypeMismatch
    | OutOfRange
    | OptionsMismatch
    | SumIsOff
    | InvalidChoice
    | ChoiceNotHighest
    | ScoreIsOff

  // ---------------------------------------------------------------- arithmetic

  function Abs(x: real): real {
    if x < 0.0 then -x else x
  }

  function Max(x: real, y: real): real {
    if x < y then y else x
  }

  /** `math.isclose` with its default relative tolerance. */
  predicate IsClose(a: real, b: real, tolerance: real) {
    Abs(a - b) <= Max(SLACK * Max(Abs(a), Abs(b)), tolerance)
  }

  predicate Within(x: real, low: real, high: real) {
    low <= x <= high
  }

  function Sum(v: seq<real>): real {
    if v == [] then 0.0 else Sum(v[..|v| - 1]) + v[|v| - 1]
  }

  function Times(k: nat, x: real): real {
    k as real * x
  }

  /** Each value times its position. */
  function Weighted(v: seq<real>): real {
    if v == [] then 0.0 else Weighted(v[..|v| - 1]) + Times(|v| - 1, v[|v| - 1])
  }

  /** Half a hundredth of each. */
  function Halves(x: real): real {
    0.005 * x
  }

  /** `sum(range(n))`. */
  function Triangle(n: nat): real {
    if n == 0 then 0.0 else Triangle(n - 1) + (n - 1) as real
  }

  // ---------------------------------------------------------------- the checks

  function CheckDistribution(values: seq<real>): Verdict {
    if exists i :: 0 <= i < |values| && !Within(values[i], 0.0, 1.0) then OutOfRange
    else if !IsClose(Sum(values), 1.0, Halves(|values| as real) + SLACK) then SumIsOff
    else Accepted
  }

  predicate NearHighest(values: seq<real>, c: nat)
    requires c < |values|
  {
    forall i :: 0 <= i < |values| ==> values[c] >= values[i] - 0.001
  }

  function Validate(q: Question, a: Answer): Verdict {
    match (q, a)
    case (Noul, NoulAnswer(noul)) => if Within(noul, 0.0, 1.0) then Accepted else OutOfRange
    case (Choice(n), ChoiceAnswer(confidence, probabilities, choice)) =>
      if !Within(confidence, 0.0, 1.0) then OutOfRange
      else if probabilities == Mismatched || |probabilities.values| != n then OptionsMismatch
      else
        var spread := CheckDistribution(probabilities.values);
        if spread != Accepted then spread
        else if choice >= n then InvalidChoice
        else if !NearHighest(probabilities.values, choice) then ChoiceNotHighest
        else Accepted
    case (Score(n), ScoreAnswer(confidence, probabilities, score)) =>
      if !Within(confidence, 0.0, 1.0) then OutOfRange
      else if probabilities == Mismatched || |probabilities.values| != n then OptionsMismatch
      else
        var spread := CheckDistribution(probabilities.values);
        if spread != Accepted then spread
        else if !Within(score, 0.0, n as real - 1.0) then OutOfRange
        else if !IsClose(score, Weighted(probabilities.values), Halves(1.0 + Triangle(n)) + SLACK) then ScoreIsOff
        else Accepted
    case _ => TypeMismatch
  }

  // ---------------------------------------------------------------- honest rounding

  /** Rounding to the nearest hundredth, whatever it does with ties, as long as it keeps order. */
  ghost predicate RoundsToHundredths(round: real -> real) {
    && (forall x :: Abs(round(x) - x) <= 0.005)
    && (forall x, y :: x <= y ==> round(x) <= round(y))
    && (forall k: int :: round(Whole(k)) == Whole(k))
  }

  function Whole(k: int): real {
    k as real
  }

  lemma RoundOnce(round: real -> real, x: real)
    requires RoundsToHundredths(round)
    ensures Abs(round(x) - x) <= 0.005
  {
  }

  /** Values between whole numbers stay between them. */
  lemma RoundBetween(round: real -> real, x: real, low: int, high: int)
    requires RoundsToHundredths(round) && low as real <= x <= high as real
    ensures low as real <= round(x) <= high as real
  {
    assert round(Whole(low)) == Whole(low) && round(Whole(high)) == Whole(high);
  }

  /** A probability distribution. */
  predicate Distribution(p: seq<real>) {
    (forall i :: 0 <= i < |p| ==> p[i] >= 0.0) && Sum(p) == 1.0
  }

  function Rounded(round: real -> real, p: seq<real>): (r: seq<real>)
    ensures |r| == |p| && forall i :: 0 <= i < |p| ==> r[i] == round(p[i])
  {
    seq(|p|, i requires 0 <= i < |p| => round(p[i]))
  }

  /** Errors add up to at most half a hundredth per option, and in the score to half a hundredth per level. */
  lemma {:induction false} RoundingErrors(round: real -> real, p: seq<real>)
    requires RoundsToHundredths(round)
    ensures Abs(Sum(Rounded(round, p)) - Sum(p)) <= Halves(|p| as real)
    ensures Abs(Weighted(Rounded(round, p)) - Weighted(p)) <= Halves(Triangle(|p|))
  {
    hide RoundsToHundredths;
    hide Rounded;
    hide Times;
    if p == [] {
      assert Rounded(round, p) == [];
    } else {
      var n, rest := |p| - 1, p[..|p| - 1];
      var r := Rounded(round, p);
      RoundingErrors(round, rest);
      assert r[..n] == Rounded(round, rest);
      RoundOnce(round, p[n]);
      ScaledError(n, r[n], p[n]);
      HalvesAdd(n as real, 1.0);
      HalvesAdd(Triangle(n), n as real);
      hide Halves;
      ErrorsAdd(Sum(r[..n]), Sum(rest), Halves(n as real), r[n], p[n], 0.005);
      ErrorsAdd(Weighted(r[..n]), Weighted(rest), Halves(Triangle(n)), Times(n, r[n]), Times(n, p[n]),
                Halves(n as real));
    }
  }

  lemma HalvesAdd(x: real, y: real)
    ensures Halves(x + y) == Halves(x) + Halves(y) && Halves(1.0) == 0.005
  {
  }

  lemma ErrorsAdd(a: real, b: real, e: real, x: real, y: real, f: real)
    requires Abs(a - b) <= e && Abs(x - y) <= f
    ensures Abs((a + x) - (b + y)) <= e + f
  {
  }

  lemma Scale(k: nat, x: real, y: real)
    requires x <= y
    ensures Times(k, x) <= Times(k, y)
  {
  }

  lemma ScaledError(k: nat, a: real, b: real)
    requires Abs(a - b) <= 0.005
    ensures Abs(Times(k, a) - Times(k, b)) <= Halves(k as real)
  {
    assert Times(k, a) - Times(k, b) == Times(k, a - b);
    assert Times(k, 0.005) == Halves(k as real) && Times(k, -0.005) == -Halves(k as real);
    Scale(k, a - b, 0.005);
    Scale(k, -0.005, a - b);
    hide Times;
    hide Halves;
  }

  lemma {:induction false} PartsAreAtMostTheSum(p: seq<real>, i: nat)
    requires i < |p| && forall j :: 0 <= j < |p| ==> p[j] >= 0.0
    ensures 0.0 <= p[i] <= Sum(p)
  {
    NeverNegative(p[..|p| - 1]);
    if i < |p| - 1 {
      PartsAreAtMostTheSum(p[..|p| - 1], i);
    }
  }

  lemma {:induction false} NeverNegative(p: seq<real>)
    requires forall j :: 0 <= j < |p| ==> p[j] >= 0.0
    ensures Sum(p) >= 0.0 && 0.0 <= Weighted(p) && (p != [] ==> Weighted(p) <= Times(|p| - 1, Sum(p)))
  {
    hide Times;
    if p != [] {
      var n, rest := |p| - 1, p[..|p| - 1];
      NeverNegative(rest);
      MeanIsBelow(n, Sum(rest), Weighted(rest), p[n]);
      assert n == 0 ==> rest == [];
    }
  }

  lemma MeanIsBelow(n: nat, sum: real, weighted: real, last: real)
    requires sum >= 0.0 && last >= 0.0 && weighted >= 0.0
    requires if n == 0 then weighted == 0.0 else weighted <= Times(n - 1, sum)
    ensures 0.0 <= weighted + Times(n, last) <= Times(n, sum + last)
  {
    assert Times(n, sum + last) == Times(n, sum) + Times(n, last);
    Scale(n, 0.0, last);
    assert Times(n, 0.0) == 0.0;
    if n > 0 {
      assert Times(n, sum) == Times(n - 1, sum) + sum;
    }
  }

  lemma RoundedDistributionPasses(round: real -> real, p: seq<real>)
    requires RoundsToHundredths(round) && Distribution(p)
    ensures CheckDistribution(Rounded(round, p)) == Accepted
  {
    var r := Rounded(round, p);
    RoundingErrors(round, p);
    forall i | 0 <= i < |r| ensures Within(r[i], 0.0, 1.0) {
      PartsAreAtMostTheSum(p, i);
      RoundBetween(round, p[i], 0, 1);
    }
    hide RoundsToHundredths;
    hide Rounded;
    hide Sum;
  }

  /** Whatever the true distribution, rounding every probability to the hundredth passes the sum check, and an
      option that was a most probable one still counts as highest. */
  lemma RoundedChoiceIsAccepted(round: real -> real, p: seq<real>, choice: nat, confidence: real)
    requires RoundsToHundredths(round) && Distribution(p) && Within(confidence, 0.0, 1.0)
    requires choice < |p| && forall i :: 0 <= i < |p| ==> p[i] <= p[choice]
    ensures Validate(Choice(|p|), ChoiceAnswer(round(confidence), Over(Rounded(round, p)), choice)) == Accepted
  {
    RoundedDistributionPasses(round, p);
    RoundBetween(round, confidence, 0, 1);
    hide CheckDistribution;
  }

  /** And so does the expected score, rounded on its own. */
  lemma RoundedScoreIsAccepted(round: real -> real, p: seq<real>, confidence: real)
    requires RoundsToHundredths(round) && Distribution(p) && Within(confidence, 0.0, 1.0)
    ensures Validate(Score(|p|), ScoreAnswer(round(confidence), Over(Rounded(round, p)), round(Weighted(p))))
            == Accepted
  {
    assert 0.0 <= confidence <= 1.0;
    hide *;
    var r := Rounded(round, p);
    MeanIsInRange(p);
    RoundedDistributionPasses(round, p);
    RoundingErrors(round, p);
    RoundBetween(round, confidence, 0, 1);
    RoundBetween(round, Weighted(p), 0, |p| - 1);
    RoundOnce(round, Weighted(p));
    ScorePasses(r, round(confidence), round(Weighted(p)), Weighted(p));
  }

  lemma ScorePasses(values: seq<real>, confidence: real, score: real, exact: real)
    requires 0.0 <= confidence <= 1.0 && CheckDistribution(values) == Accepted
    requires 0.0 <= score <= (|values| - 1) as real && Abs(score - exact) <= 0.005
    requires Abs(Weighted(values) - exact) <= Halves(Triangle(|values|))
    ensures Validate(Score(|values|), ScoreAnswer(confidence, Over(values), score)) == Accepted
  {
    hide CheckDistribution;
    hide Weighted;
    hide Triangle;
    HalvesAdd(1.0, Triangle(|values|));
    ScoreIsClose(score, exact, Weighted(values), Halves(Triangle(|values|)));
    hide Halves;
    hide IsClose;
    hide Abs;
  }

  lemma MeanIsInRange(p: seq<real>)
    requires Distribution(p)
    ensures p != [] && 0.0 <= Weighted(p) <= (|p| - 1) as real
  {
    NeverNegative(p);
    assert p != [];
    assert Times(|p| - 1, 1.0) == (|p| - 1) as real;
  }

  lemma ScoreIsClose(score: real, exact: real, weighted: real, error: real)
    requires Abs(score - exact) <= 0.005 && Abs(weighted - exact) <= error
    ensures IsClose(score, weighted, 0.005 + error + SLACK)
  {
  }

  // ---------------------------------------------------------------- how much the tolerances let through

  lemma {:induction false} SumIsAtMost(v: seq<real>)
    requires forall i :: 0 <= i < |v| ==> 0.0 <= v[i] <= 1.0
    ensures 0.0 <= Sum(v) <= |v| as real && 0.0 <= Weighted(v) <= Triangle(|v|)
  {
    if v != [] {
      var n := |v| - 1;
      SumIsAtMost(v[..n]);
      Scale(n, 0.0, v[n]);
      Scale(n, v[n], 1.0);
      assert Times(n, 0.0) == 0.0 && Times(n, 1.0) == n as real;
      hide Times;
    }
  }

  /** The relative tolerance never matters next to a larger absolute one. */
  lemma CloseIff(a: real, b: real, bound: real, tolerance: real)
    requires Abs(a) <= bound && Abs(b) <= bound && 0.000000001 * bound <= tolerance
    ensures IsClose(a, b, tolerance) <==> Abs(a - b) <= tolerance
  {
    assert SLACK * Max(Abs(a), Abs(b)) <= 0.000000001 * bound by {
      assert Max(Abs(a), Abs(b)) <= bound;
      hide Abs;
      hide Max;
    }
  }

  /** A distribution is accepted exactly if every value is a share and their sum is off one by at most half a hundredth
      per value and a billionth; the first of the two that fails is the one that is reported. */
  lemma DistributionCheckIsExact(v: seq<real>)
    ensures CheckDistribution(v) == Accepted <==>
              && (forall i :: 0 <= i < |v| ==> 0.0 <= v[i] <= 1.0)
              && Abs(Sum(v) - 1.0) <= 0.005 * (|v| as real) + 0.000000001
    ensures CheckDistribution(v) == OutOfRange <==> exists i :: 0 <= i < |v| && !(0.0 <= v[i] <= 1.0)
    ensures CheckDistribution(v) in {Accepted, OutOfRange, SumIsOff}
  {
    if forall i :: 0 <= i < |v| ==> 0.0 <= v[i] <= 1.0 {
      SumIsAtMost(v);
      if v == [] {
        assert Sum(v) == 0.0;
        CloseIff(Sum(v), 1.0, 1.0, Halves(|v| as real) + SLACK);
      } else {
        CloseIff(Sum(v), 1.0, |v| as real, Halves(|v| as real) + SLACK);
      }
    }
    hide Sum;
    hide IsClose;
  }

  /** A score answer is accepted exactly if its confidence is a share, its values are one per level and accepted as a
      distribution, and the score lies on the scale, off the expected one by at most half a hundredth, another for each
      level number, and a billionth. */
  lemma ScoreCheckIsExact(levels: nat, confidence: real, v: seq<real>, score: real)
    ensures Validate(Score(levels), ScoreAnswer(confidence, Over(v), score)) == Accepted <==>
              && 0.0 <= confidence <= 1.0 && |v| == levels && CheckDistribution(v) == Accepted
              && 0.0 <= score <= levels as real - 1.0
              && Abs(score - Weighted(v)) <= 0.005 * (1.0 + Triangle(levels)) + 0.000000001
    ensures Validate(Score(levels), ScoreAnswer(confidence, Mismatched, score)) != Accepted
  {
    if |v| == levels && CheckDistribution(v) == Accepted && 0.0 <= score <= levels as real - 1.0 {
      DistributionCheckIsExact(v);
      SumIsAtMost(v);
      TriangleGrows(levels);
      CloseIff(score, Weighted(v), 1.0 + Triangle(levels), Halves(1.0 + Triangle(levels)) + SLACK);
    }
    hide CheckDistribution;
    hide Weighted;
    hide Triangle;
    hide IsClose;
  }

  lemma {:induction false} TriangleGrows(n: nat)
    ensures Triangle(n) >= 0.0 && Triangle(n) >= n as real - 1.0
  {
    if n > 0 {
      TriangleGrows(n - 1);
    }
  }

  /** Certainty of level `k` among `n`. */
  function Certain(n: nat, k: nat): (v: seq<real>)
    ensures |v| == n && forall i :: 0 <= i < n ==> v[i] == if i == k then 1.0 else 0.0
  {
    seq(n, i => if i == k then 1.0 else 0.0)
  }

  /** The expected level of a certain one is that level, whatever else could have been chosen; and mixing two
      distributions mixes their expected levels. */
  lemma {:induction false} ExpectedLevel(n: nat, k: nat, u: seq<real>, v: seq<real>)
    requires k < n && |u| == |v|
    ensures Weighted(Certain(n, k)) == k as real && Sum(Certain(n, k)) == 1.0
    ensures Weighted(seq(|u|, i requires 0 <= i < |u| => u[i] + v[i])) == Weighted(u) + Weighted(v)
  {
    CertainLevel(n, k);
    WeightedAdds(u, v);
  }

  lemma {:induction false} CertainLevel(n: nat, k: nat)
    ensures Weighted(Certain(n, k)) == (if k < n then k as real else 0.0)
    ensures Sum(Certain(n, k)) == if k < n then 1.0 else 0.0
  {
    if n > 0 {
      CertainLevel(n - 1, k);
      assert Certain(n, k)[..n - 1] == Certain(n - 1, k);
      assert Times(n - 1, 0.0) == 0.0 && Times(n - 1, 1.0) == (n - 1) as real;
      hide Certain;
      hide Times;
    }
  }

  lemma {:induction false} WeightedAdds(u: seq<real>, v: seq<real>)
    requires |u| == |v|
    ensures Weighted(seq(|u|, i requires 0 <= i < |u| => u[i] + v[i])) == Weighted(u) + Weighted(v)
  {
    var sum := seq(|u|, i requires 0 <= i < |u| => u[i] + v[i]);
    if u != [] {
      var n := |u| - 1;
      WeightedAdds(u[..n], v[..n]);
      assert sum[..n] == seq(n, i requires 0 <= i < n => u[..n][i] + v[..n][i]);
      assert Times(n, u[n] + v[n]) == Times(n, u[n]) + Times(n, v[n]);
      hide Times;
    }
  }

  lemma {:induction false} TriangleIs(n: nat)
    ensures 2.0 * Triangle(n) == (n as real) * (n as real - 1.0)
  {
    if n > 0 {
      TriangleIs(n - 1);
    }
  }

  /** A yes/no answer is accepted exactly if its estimate is a share, and an answer of another type never is. */
  lemma NoulAnswerIsExact(q: Question, noul: real)
    ensures Validate(q, NoulAnswer(noul)) == Accepted <==> q == Noul && 0.0 <= noul <= 1.0
  {
  }

  /** A choice answer is accepted exactly if its confidence is a share, its values are one per option and accepted as a
      distribution, and the choice is an option no other exceeds by more than a thousandth. */
  lemma ChoiceAnswerIsExact(options: nat, confidence: real, v: seq<real>, choice: nat)
    ensures Validate(Choice(options), ChoiceAnswer(confidence, Over(v), choice)) == Accepted <==>
              && 0.0 <= confidence <= 1.0 && |v| == options && CheckDistribution(v) == Accepted && choice < options
              && forall i :: 0 <= i < |v| ==> v[i] <= v[choice] + 0.001
    ensures Validate(Choice(options), ChoiceAnswer(confidence, Mismatched, choice)) != Accepted
  {
    hide CheckDistribution;
  }

  predicate Hundredths(v: seq<real>) {
    forall i :: 0 <= i < |v| ==> exists k: int {:trigger k as real} :: -1 <= k <= 101 && v[i] == k as real / 100.0
  }

  /** On values that really are hundredths, the choice check is exact: it accepts only a highest option. */
  lemma ChoiceCheckIsExact(v: seq<real>, c: nat)
    requires Hundredths(v) && c < |v|
    ensures NearHighest(v, c) <==> forall i :: 0 <= i < |v| ==> v[i] <= v[c]
  {
    if NearHighest(v, c) {
      forall i | 0 <= i < |v| ensures v[i] <= v[c] {
        var k: int :| -1 <= k <= 101 && v[i] == k as real / 100.0;
        var j: int :| -1 <= j <= 101 && v[c] == j as real / 100.0;
        assert k as real / 100.0 - 0.001 <= j as real / 100.0;
        assert k as real - 0.1 <= j as real;
      }
    }
  }

  /** Half up, for a value of at most one. */
  function HalfUp(x: real): real {
    (100.0 * x + 0.5).Floor as real / 100.0
  }

  const EIGHTHS: seq<real> := [0.125, 0.125, 0.125, 0.125, 0.125, 0.125, 0.125, 0.125]

  lemma HalfUpNear(x: real)
    ensures Abs(HalfUp(x) - x) <= 0.005
  {
    var y := 100.0 * x + 0.5;
    assert y.Floor as real <= y < y.Floor as real + 1.0;
  }

  lemma HalfUpKeepsOrder(x: real, y: real)
    requires x <= y
    ensures HalfUp(x) <= HalfUp(y)
  {
    var a, b := 100.0 * x + 0.5, 100.0 * y + 0.5;
    assert a.Floor <= b.Floor;
  }

  lemma HalfUpFixesWhole(k: int)
    ensures HalfUp(Whole(k)) == Whole(k)
  {
    var h := 100 * k;
    assert 100.0 * Whole(k) == h as real;
    assert (h as real + 0.5).Floor == h;
  }

  lemma HalfUpRounds()
    ensures RoundsToHundredths(HalfUp)
  {
    hide HalfUp;
    forall x ensures Abs(HalfUp(x) - x) <= 0.005 { HalfUpNear(x); }
    forall x, y | x <= y ensures HalfUp(x) <= HalfUp(y) { HalfUpKeepsOrder(x, y); }
    forall k: int ensures HalfUp(Whole(k)) == Whole(k) { HalfUpFixesWhole(k); }
  }

  /** The sum tolerance cannot be made smaller: eight equal options, rounded half up, use all of it. */
  lemma SumToleranceIsTight()
    ensures RoundsToHundredths(HalfUp) && Distribution(EIGHTHS)
    ensures Sum(Rounded(HalfUp, EIGHTHS)) - 1.0 == 0.005 * |EIGHTHS| as real
  {
    HalfUpRounds();
    hide RoundsToHundredths;
    var r := Rounded(HalfUp, EIGHTHS);
    assert HalfUp(0.125) == 0.13 by { assert (100.0 * 0.125 + 0.5).Floor == 13; }
    SumOfEqual(EIGHTHS, 0.125);
    SumOfEqual(r, 0.13);
  }

  lemma {:induction false} SumOfEqual(v: seq<real>, x: real)
    requires forall i :: 0 <= i < |v| ==> v[i] == x
    ensures Sum(v) == |v| as real * x
  {
    if v != [] {
      SumOfEqual(v[..|v| - 1], x);
    }
  }
}
