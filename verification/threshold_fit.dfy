/**
 Threshold calibration: `_fit_threshold` tries finitely many thresholds, and no real threshold
 does better.
 */
module ThresholdFit {
  import opened Common

  datatype Case = Case(expected: set<int>, scores: seq<real>)

  // ----- what a threshold is worth

  function Selected(scores: seq<real>, t: real): set<int>
  {
    set i | 0 <= i < |scores| && scores[i] >= t
  }

  datatype Confusion = Confusion(tp: nat, fp: nat, fn: nat, tn: nat)

  function Plus(a: Confusion, b: Confusion): Confusion
  {
    Confusion(a.tp + b.tp, a.fp + b.fp, a.fn + b.fn, a.tn + b.tn)
  }

  function Classify(wanted: bool, chosen: bool): Confusion
  {
    if wanted && chosen then Confusion(1, 0, 0, 0)
    else if wanted then Confusion(0, 0, 1, 0)
    else if chosen then Confusion(0, 1, 0, 0)
    else Confusion(0, 0, 0, 1)
  }

  /** The confusion counts of the first `n` indexes of one case. */
  function CaseCounts(c: Case, t: real, n: nat): Confusion
    requires n <= |c.scores|
  {
    if n == 0 then Confusion(0, 0, 0, 0)
    else Plus(CaseCounts(c, t, n - 1), Classify(n - 1 in c.expected, c.scores[n - 1] >= t))
  }

  function Counts(cases: seq<Case>, t: real, n: nat): Confusion
    requires n <= |cases|
  {
    if n == 0 then Confusion(0, 0, 0, 0)
    else Plus(Counts(cases, t, n - 1), CaseCounts(cases[n - 1], t, |cases[n - 1].scores|))
  }

  function Exact(cases: seq<Case>, t: real, n: nat): nat
    requires n <= |cases|
  {
    if n == 0 then 0
    else Exact(cases, t, n - 1) + if Selected(cases[n - 1].scores, t) == cases[n - 1].expected then 1 else 0
  }

  datatype Metrics = Metrics(exact: nat, cases: nat, precision: real, recall: real, f1: real, balanced: real)

  function Ratio(a: nat, b: nat): real
  {
    if a + b == 0 then 0.0 else a as real / (a + b) as real
  }

  function MetricsOf(exact: nat, cases: nat, c: Confusion): Metrics
  {
    var precision := Ratio(c.tp, c.fp);
    var recall := Ratio(c.tp, c.fn);
    var f1 := if precision + recall == 0.0 then 0.0 else 2.0 * precision * recall / (precision + recall);
    Metrics(exact, cases, precision, recall, f1, 0.5 * (Ratio(c.tp, c.fn) + Ratio(c.tn, c.fp)))
  }

  function MetricsAt(cases: seq<Case>, t: real): Metrics
  {
    MetricsOf(Exact(cases, t, |cases|), |cases|, Counts(cases, t, |cases|))
  }

  /** The inner loop of `_threshold_metrics`: the four counters over one case. */
  method CountCase(c: Case, t: real, selected: set<int>, tp0: nat, fp0: nat, fn0: nat, tn0: nat)
    returns (tp: nat, fp: nat, fn: nat, tn: nat)
    requires selected == Selected(c.scores, t)
    ensures Confusion(tp, fp, fn, tn) == Plus(Confusion(tp0, fp0, fn0, tn0), CaseCounts(c, t, |c.scores|))
  {
    tp, fp, fn, tn := tp0, fp0, fn0, tn0;
    for i := 0 to |c.scores|
      invariant Confusion(tp, fp, fn, tn) == Plus(Confusion(tp0, fp0, fn0, tn0), CaseCounts(c, t, i))
    {
      var wanted, chosen := i in c.expected, i in selected;
      if wanted && chosen {
        tp := tp + 1;
      } else if wanted && !chosen {
        fn := fn + 1;
      } else if !wanted && chosen {
        fp := fp + 1;
      } else {
        tn := tn + 1;
      }
    }
  }

  /** `_threshold_metrics`: one pass over all cases and indexes. */
  method ThresholdMetrics(cases: seq<Case>, t: real) returns (m: Metrics)
    ensures m == MetricsAt(cases, t)
  {
    var exact, count: nat := 0, 0;
    var tp, fp, fn, tn: nat := 0, 0, 0, 0;
    for k := 0 to |cases|
      invariant exact == Exact(cases, t, k) && count == k
      invariant Confusion(tp, fp, fn, tn) == Counts(cases, t, k)
    {
      var selected := Selected(cases[k].scores, t);
      if selected == cases[k].expected {
        exact := exact + 1;
      }
      count := count + 1;
      tp, fp, fn, tn := CountCase(cases[k], t, selected, tp, fp, fn, tn);
    }
    m := MetricsOf(exact, count, Confusion(tp, fp, fn, tn));
  }

  // ----- thresholds that agree on every score are indistinguishable

  ghost predicate SameSide(cases: seq<Case>, t: real, u: real)
  {
    forall k, i :: 0 <= k < |cases| && 0 <= i < |cases[k].scores| ==> (cases[k].scores[i] >= t <==> cases[k].scores[i] >= u)
  }

  lemma {:induction false} SameSideSameCase(c: Case, t: real, u: real, n: nat)
    requires n <= |c.scores|
    requires forall i :: 0 <= i < |c.scores| ==> (c.scores[i] >= t <==> c.scores[i] >= u)
    ensures CaseCounts(c, t, n) == CaseCounts(c, u, n) && Selected(c.scores, t) == Selected(c.scores, u)
  {
    if n != 0 {
      SameSideSameCase(c, t, u, n - 1);
    }
  }

  lemma {:induction false} SameSideSameCounts(cases: seq<Case>, t: real, u: real, n: nat)
    requires n <= |cases| && SameSide(cases, t, u)
    ensures Counts(cases, t, n) == Counts(cases, u, n) && Exact(cases, t, n) == Exact(cases, u, n)
  {
    if n != 0 {
      SameSideSameCounts(cases, t, u, n - 1);
      SameSideSameCase(cases[n - 1], t, u, |cases[n - 1].scores|);
    }
  }

  // ----- the candidates

  ghost predicate Increasing(s: seq<real>)
  {
    forall i, j :: 0 <= i < j < |s| ==> s[i] < s[j]
  }

  /** Inserts a score into an increasing sequence, once. */
  function Insert(s: seq<real>, x: real): (r: seq<real>)
    requires Increasing(s)
    ensures Increasing(r) && forall y :: y in r <==> y in s || y == x
  {
    if s == [] then [x]
    else if x < s[0] then [x] + s
    else if x == s[0] then s
    else
      var rest := Insert(s[1..], x);
      assert forall y :: y in s <==> y == s[0] || y in s[1..];
      assert forall y :: y in rest ==> s[0] < y;
      assert forall j :: 0 <= j < |rest| ==> rest[j] in rest;
      [s[0]] + rest
  }

  function InsertAll(s: seq<real>, xs: seq<real>): (r: seq<real>)
    requires Increasing(s)
    ensures Increasing(r) && forall y :: y in r <==> y in s || y in xs
    decreases |xs|
  {
    if xs == [] then s
    else
      assert forall y :: y in xs <==> y == xs[0] || y in xs[1..];
      InsertAll(Insert(s, xs[0]), xs[1..])
  }

  ghost predicate IsScore(cases: seq<Case>, y: real)
  {
    exists k :: 0 <= k < |cases| && y in cases[k].scores
  }

  /** `sorted({score for case in cases for score in case["scores"]})`. */
  function DistinctScores(cases: seq<Case>): (r: seq<real>)
    ensures Increasing(r) && forall y :: y in r <==> IsScore(cases, y)
  {
    if cases == [] then []
    else
      var last := cases[|cases| - 1];
      var rest := cases[..|cases| - 1];
      assert forall y :: IsScore(cases, y) <==> IsScore(rest, y) || y in last.scores by {
        assert forall k :: 0 <= k < |cases| ==> k == |cases| - 1 || cases[k] == rest[k];
        forall y | y in last.scores
          ensures IsScore(cases, y)
        {
          assert y in cases[|cases| - 1].scores;
        }
        forall y | IsScore(rest, y)
          ensures IsScore(cases, y)
        {
          var k :| 0 <= k < |rest| && y in rest[k].scores;
          assert y in cases[k].scores;
        }
      }
      InsertAll(DistinctScores(rest), last.scores)
  }

  function Epsilon(values: seq<real>): (e: real)
    requires |values| >= 2 && Increasing(values)
    ensures e > 0.0
  {
    var spread := (values[|values| - 1] - values[0]) * 0.000001;
    if spread > 0.000001 then spread else 0.000001
  }

  /** One threshold below all scores, one between each two neighbours, one above. */
  function Candidate(values: seq<real>, k: nat): real
    requires |values| >= 2 && Increasing(values) && k <= |values|
  {
    if k == 0 then values[0] - Epsilon(values)
    else if k == |values| then values[|values| - 1] + Epsilon(values)
    else (values[k - 1] + values[k]) / 2.0
  }

  lemma CandidatesIncrease(values: seq<real>, j: nat, k: nat)
    requires |values| >= 2 && Increasing(values) && j < k <= |values|
    ensures Candidate(values, j) < Candidate(values, k)
  {
  }

  /** Candidate `k` accepts exactly the scores from position `k` on. */
  lemma CandidateSplits(values: seq<real>, k: nat, i: nat)
    requires |values| >= 2 && Increasing(values) && k <= |values| && i < |values|
    ensures values[i] >= Candidate(values, k) <==> i >= k
  {
  }

  /** The number of scores below a threshold, when the scores are sorted. */
  function Below(values: seq<real>, t: real): (k: nat)
    requires Increasing(values)
    ensures k <= |values| && forall i :: 0 <= i < |values| ==> (values[i] >= t <==> i >= k)
  {
    if values == [] then 0
    else if values[|values| - 1] >= t then
      var k := Below(values[..|values| - 1], t);
      assert forall i :: 0 <= i < |values| - 1 ==> values[i] == values[..|values| - 1][i];
      k
    else |values|
  }

  /** Every real threshold behaves like the candidate after the scores it rejects. */
  lemma {:induction false} CandidateOfThreshold(cases: seq<Case>, t: real) returns (k: nat)
    requires |DistinctScores(cases)| >= 2
    ensures var values := DistinctScores(cases);
            && k <= |values| && (forall i :: 0 <= i < |values| ==> (values[i] >= t <==> i >= k))
            && MetricsAt(cases, t) == MetricsAt(cases, Candidate(values, k))
  {
    var values := DistinctScores(cases);
    k := Below(values, t);
    var u := Candidate(values, k);
    forall c, i | 0 <= c < |cases| && 0 <= i < |cases[c].scores|
      ensures cases[c].scores[i] >= t <==> cases[c].scores[i] >= u
    {
      var y := cases[c].scores[i];
      assert IsScore(cases, y);
      var p :| 0 <= p < |values| && values[p] == y;
      CandidateSplits(values, k, p);
    }
    SameSideSameCounts(cases, t, u, |cases|);
  }

  /** Every real threshold behaves like one of the candidates. */
  lemma {:induction false} EveryThresholdHasACandidate(cases: seq<Case>, t: real) returns (k: nat)
    requires |DistinctScores(cases)| >= 2
    ensures k <= |DistinctScores(cases)| && MetricsAt(cases, t) == MetricsAt(cases, Candidate(DistinctScores(cases), k))
  {
    hide MetricsAt, Candidate;
    k := CandidateOfThreshold(cases, t);
  }

  // ----- the fit

  /** Python's comparison of the key tuples. */
  predicate KeyLess(a: Metrics, b: Metrics)
  {
    a.exact < b.exact || (a.exact == b.exact && (a.f1 < b.f1 || (a.f1 == b.f1 && a.balanced < b.balanced)))
  }

  datatype Fit = Fit(threshold: real, metrics: Metrics)

  /** `fit` is candidate `best`: no candidate below `n` beats it, and it beats all earlier ones. */
  ghost predicate IsBestUpTo(cases: seq<Case>, values: seq<real>, fit: Fit, best: nat, n: nat)
    requires |values| >= 2 && Increasing(values) && best < n <= |values| + 1
  {
    && fit.threshold == Candidate(values, best) && fit.metrics == MetricsAt(cases, fit.threshold)
    && (forall k: nat :: k < n ==> !KeyLess(fit.metrics, MetricsAt(cases, Candidate(values, k))))
    && (forall k: nat :: k < best ==> KeyLess(MetricsAt(cases, Candidate(values, k)), fit.metrics))
  }

  lemma {:induction false} BestStep(cases: seq<Case>, values: seq<real>, fit: Fit, best: nat, k: nat, m: Metrics)
    requires |values| >= 2 && Increasing(values) && best < k <= |values|
    requires IsBestUpTo(cases, values, fit, best, k) && m == MetricsAt(cases, Candidate(values, k))
    ensures if KeyLess(fit.metrics, m) then IsBestUpTo(cases, values, Fit(Candidate(values, k), m), k, k + 1)
            else IsBestUpTo(cases, values, fit, best, k + 1)
  {
    if KeyLess(fit.metrics, m) {
      forall j: nat | j < k
        ensures KeyLess(MetricsAt(cases, Candidate(values, j)), m)
      {
        KeyOrder(MetricsAt(cases, Candidate(values, j)), fit.metrics, m);
      }
    }
  }

  lemma KeyOrder(a: Metrics, b: Metrics, c: Metrics)
    requires !KeyLess(b, a) && KeyLess(b, c)
    ensures KeyLess(a, c) && !KeyLess(c, a)
  {
  }

  /** The returned threshold is the smallest candidate with the best key. */
  ghost predicate IsSmallestBest(cases: seq<Case>, fit: Fit)
    requires |DistinctScores(cases)| >= 2
  {
    exists best: nat :: IsBestCandidate(cases, fit, best)
  }

  ghost predicate IsBestCandidate(cases: seq<Case>, fit: Fit, best: nat)
    requires |DistinctScores(cases)| >= 2
  {
    var values := DistinctScores(cases);
    best <= |values| && IsBestUpTo(cases, values, fit, best, |values| + 1)
  }

  method FitThreshold(cases: seq<Case>) returns (r: Result<Fit>)
    ensures r.Ok? <==> |DistinctScores(cases)| >= 2
    ensures r.Ok? ==> IsSmallestBest(cases, r.value)
  {
    var values := DistinctScores(cases);
    if |values| < 2 {
      return Err("Not enough distinct logits to calibrate a threshold");
    }
    var threshold := Candidate(values, 0);
    var metrics := ThresholdMetrics(cases, threshold);
    ghost var best := 0;
    for k := 1 to |values| + 1
      invariant best < k && IsBestUpTo(cases, values, Fit(threshold, metrics), best, k)
    {
      var candidate := Candidate(values, k);
      var m := ThresholdMetrics(cases, candidate);
      BestStep(cases, values, Fit(threshold, metrics), best, k, m);
      if KeyLess(metrics, m) {
        threshold, metrics, best := candidate, m, k;
      }
    }
    r := Ok(Fit(threshold, metrics));
    assert IsBestCandidate(cases, r.value, best);
  }

  /** Global optimality: no real threshold has a better key than the fitted one, and at no threshold
      are more cases exact, or as many with a better F1, or as many as well with a better balanced
      accuracy. */
  lemma {:induction false} FitIsGloballyOptimal(cases: seq<Case>, fit: Fit, t: real)
    requires |DistinctScores(cases)| >= 2 && IsSmallestBest(cases, fit)
    ensures !KeyLess(fit.metrics, MetricsAt(cases, t))
    ensures var m := MetricsAt(cases, t);
            && m.exact <= fit.metrics.exact
            && (m.exact == fit.metrics.exact ==> m.f1 <= fit.metrics.f1)
            && (m.exact == fit.metrics.exact && m.f1 == fit.metrics.f1 ==> m.balanced <= fit.metrics.balanced)
    ensures fit.metrics == MetricsAt(cases, fit.threshold)
  {
    hide MetricsAt, Candidate;
    var k := EveryThresholdHasACandidate(cases, t);
  }

  /** ... and every candidate that is as good lies at or above it. */
  lemma FitIsTheSmallestBest(cases: seq<Case>, fit: Fit, k: nat)
    requires |DistinctScores(cases)| >= 2 && IsSmallestBest(cases, fit) && k <= |DistinctScores(cases)|
    requires !KeyLess(MetricsAt(cases, Candidate(DistinctScores(cases), k)), fit.metrics)
    ensures fit.threshold <= Candidate(DistinctScores(cases), k)
  {
    hide MetricsAt, Candidate;
    var values := DistinctScores(cases);
    var best: nat :| IsBestCandidate(cases, fit, best);
    if best < k {
      CandidatesIncrease(values, best, k);
    }
  }

  // ----- where the fitted threshold lies

  ghost predicate Accepts(cases: seq<Case>, t: real)
  {
    exists y :: IsScore(cases, y) && y >= t
  }

  ghost predicate Rejects(cases: seq<Case>, t: real)
  {
    exists y :: IsScore(cases, y) && y < t
  }

  /** `t` keeps a distance of at least `d` from every score. */
  ghost predicate Clear(cases: seq<Case>, t: real, d: real)
  {
    forall y :: IsScore(cases, y) ==> Abs(y - t) >= d
  }

  lemma SortedPosition(cases: seq<Case>, y: real) returns (p: nat)
    requires IsScore(cases, y)
    ensures p < |DistinctScores(cases)| && DistinctScores(cases)[p] == y
  {
    p :| p < |DistinctScores(cases)| && DistinctScores(cases)[p] == y;
  }

  /** A point between two neighbours of an increasing sequence is at most half their distance away from
      the nearer one, and their midpoint is no nearer to any other value. */
  lemma Midpoint(values: seq<real>, k: nat, p: nat, u: real, d: real)
    requires Increasing(values) && 0 < k < |values| && p < |values| && values[k - 1] < u <= values[k]
    requires Abs(values[k - 1] - u) >= d && Abs(values[k] - u) >= d
    ensures Abs(values[p] - (values[k - 1] + values[k]) / 2.0) >= d
  {
    assert p < k - 1 ==> values[p] < values[k - 1];
    assert p > k ==> values[k] < values[p];
  }

  /** Largest margin: with scores on both sides, no threshold that accepts the same scores keeps further
      away from its nearest score than the fitted one. */
  lemma FitIsCentred(cases: seq<Case>, fit: Fit, u: real, d: real)
    requires |DistinctScores(cases)| >= 2 && IsSmallestBest(cases, fit)
    requires Accepts(cases, fit.threshold) && Rejects(cases, fit.threshold)
    requires forall y :: IsScore(cases, y) ==> (y >= u <==> y >= fit.threshold)
    requires Clear(cases, u, d)
    ensures Clear(cases, fit.threshold, d)
  {
    hide MetricsAt, DistinctScores;
    var values := DistinctScores(cases);
    var best: nat :| IsBestCandidate(cases, fit, best);
    var low :| IsScore(cases, low) && low < fit.threshold;
    var high :| IsScore(cases, high) && high >= fit.threshold;
    var p := SortedPosition(cases, low);
    var q := SortedPosition(cases, high);
    CandidateSplits(values, best, p);
    CandidateSplits(values, best, q);
    assert 0 < best < |values|;
    CandidateSplits(values, best, best - 1);
    CandidateSplits(values, best, best);
    assert values[best - 1] in values && values[best] in values;
    assert IsScore(cases, values[best - 1]) && IsScore(cases, values[best]);
    forall y | IsScore(cases, y)
      ensures Abs(y - fit.threshold) >= d
    {
      var r := SortedPosition(cases, y);
      Midpoint(values, best, r, u, d);
    }
  }

  /** Without scores on both sides the fitted threshold lies outside all scores, by a millionth of their
      spread, and at least a millionth. */
  lemma FitOutsideScores(cases: seq<Case>, fit: Fit, least: real, most: real)
    requires |DistinctScores(cases)| >= 2 && IsSmallestBest(cases, fit)
    requires IsScore(cases, least) && IsScore(cases, most) && forall y :: IsScore(cases, y) ==> least <= y <= most
    ensures !Rejects(cases, fit.threshold) ==> fit.threshold == least - Max(0.000001, (most - least) * 0.000001)
    ensures !Accepts(cases, fit.threshold) ==> fit.threshold == most + Max(0.000001, (most - least) * 0.000001)
  {
    hide MetricsAt, DistinctScores;
    var values := DistinctScores(cases);
    var best: nat :| IsBestCandidate(cases, fit, best);
    var p := SortedPosition(cases, least);
    var q := SortedPosition(cases, most);
    var last := |values| - 1;
    assert values[0] in values && values[last] in values;
    assert values[0] == least && values[last] == most;
    CandidateSplits(values, best, 0);
    CandidateSplits(values, best, last);
  }

  /** The fit accepts as much as a best threshold can: one that accepts a score the fit rejects is
      worse. */
  lemma LowerThresholdsAreWorse(cases: seq<Case>, fit: Fit, t: real, y: real)
    requires |DistinctScores(cases)| >= 2 && IsSmallestBest(cases, fit)
    requires IsScore(cases, y) && t <= y < fit.threshold
    ensures KeyLess(MetricsAt(cases, t), fit.metrics)
  {
    hide MetricsAt, DistinctScores, KeyLess;
    var values := DistinctScores(cases);
    var best: nat :| IsBestCandidate(cases, fit, best);
    var k := CandidateOfThreshold(cases, t);
    var p := SortedPosition(cases, y);
    CandidateSplits(values, best, p);
  }

  lemma {:induction false} ExactCountsAll(cases: seq<Case>, t: real, n: nat)
    requires n <= |cases|
    ensures Exact(cases, t, n) <= n
    ensures Exact(cases, t, n) == n <==> forall k :: 0 <= k < n ==> Selected(cases[k].scores, t) == cases[k].expected
  {
    if n != 0 {
      ExactCountsAll(cases, t, n - 1);
    }
  }

  /** The fit is exact on every case if and only if some real threshold is. */
  lemma SeparableMeansExactFit(cases: seq<Case>, fit: Fit)
    requires |DistinctScores(cases)| >= 2 && IsSmallestBest(cases, fit)
    ensures (exists t: real :: Separates(cases, t)) <==> Separates(cases, fit.threshold)
    ensures Separates(cases, fit.threshold) <==> fit.metrics.exact == |cases|
  {
    ExactCountsAll(cases, fit.threshold, |cases|);
    if t :| Separates(cases, t) {
      FitIsGloballyOptimal(cases, fit, t);
      ExactCountsAll(cases, t, |cases|);
    }
  }

  ghost predicate Separates(cases: seq<Case>, t: real)
  {
    forall k :: 0 <= k < |cases| ==> Selected(cases[k].scores, t) == cases[k].expected
  }

  // ----- what the counters and the scores derived from them mean

  function Class(c: Case, t: real, n: nat, wanted: bool, chosen: bool): set<int>
    requires n <= |c.scores|
  {
    set i | 0 <= i < n && (i in c.expected) == wanted && (c.scores[i] >= t) == chosen
  }

  lemma ClassGrows(c: Case, t: real, n: nat, wanted: bool, chosen: bool)
    requires n < |c.scores|
    ensures |Class(c, t, n + 1, wanted, chosen)| == |Class(c, t, n, wanted, chosen)|
                                                   + if (n in c.expected) == wanted && (c.scores[n] >= t) == chosen then 1 else 0
  {
    var small, large := Class(c, t, n, wanted, chosen), Class(c, t, n + 1, wanted, chosen);
    assert large == if n in large then small + {n} else small;
  }

  function Counter(k: Confusion, wanted: bool, chosen: bool): nat
  {
    if wanted then (if chosen then k.tp else k.fn) else if chosen then k.fp else k.tn
  }

  /** Each of the four counters is the size of its class of indexes. */
  lemma {:induction false} CountersAreClassSizes(c: Case, t: real, n: nat, wanted: bool, chosen: bool)
    requires n <= |c.scores|
    ensures Counter(CaseCounts(c, t, n), wanted, chosen) == |Class(c, t, n, wanted, chosen)|
  {
    if n != 0 {
      CountersAreClassSizes(c, t, n - 1, wanted, chosen);
      ClassGrows(c, t, n - 1, wanted, chosen);
    }
  }

  /** How many indexes of the first `n` cases are wanted (or not) and accepted (or not) at `t`. */
  function Total(cases: seq<Case>, t: real, n: nat, wanted: bool, chosen: bool): nat
    requires n <= |cases|
  {
    if n == 0 then 0
    else
      var c := cases[n - 1];
      Total(cases, t, n - 1, wanted, chosen) + |set i | 0 <= i < |c.scores| && (i in c.expected) == wanted && (c.scores[i] >= t) == chosen|
  }

  lemma {:induction false} CountersAreTotals(cases: seq<Case>, t: real, n: nat, wanted: bool, chosen: bool)
    requires n <= |cases|
    ensures Counter(Counts(cases, t, n), wanted, chosen) == Total(cases, t, n, wanted, chosen)
  {
    if n != 0 {
      var c := cases[n - 1];
      CountersAreTotals(cases, t, n - 1, wanted, chosen);
      CountersAreClassSizes(c, t, |c.scores|, wanted, chosen);
      assert Class(c, t, |c.scores|, wanted, chosen)
          == set i | 0 <= i < |c.scores| && (i in c.expected) == wanted && (c.scores[i] >= t) == chosen;
    }
  }

  /** Every expected index exists and is accepted, and nothing else is. */
  predicate ExactlySelected(c: Case, t: real)
  {
    && (forall i :: i in c.expected ==> 0 <= i < |c.scores| && c.scores[i] >= t)
    && (forall i :: 0 <= i < |c.scores| && c.scores[i] >= t ==> i in c.expected)
  }

  function ExactCases(cases: seq<Case>, t: real, n: nat): set<int>
    requires n <= |cases|
  {
    set k | 0 <= k < n && ExactlySelected(cases[k], t)
  }

  lemma {:induction false} ExactIsCounted(cases: seq<Case>, t: real, n: nat)
    requires n <= |cases|
    ensures Exact(cases, t, n) == |ExactCases(cases, t, n)|
  {
    if n == 0 {
      assert ExactCases(cases, t, 0) == {};
    } else {
      ExactIsCounted(cases, t, n - 1);
      ExactIffSelected(cases[n - 1], t);
      ExactCasesGrow(cases, t, n - 1);
    }
  }

  lemma ExactCasesGrow(cases: seq<Case>, t: real, n: nat)
    requires n < |cases|
    ensures |ExactCases(cases, t, n + 1)| == |ExactCases(cases, t, n)| + if ExactlySelected(cases[n], t) then 1 else 0
  {
    hide ExactlySelected;
    var small, large := ExactCases(cases, t, n), ExactCases(cases, t, n + 1);
    assert large == if n in large then small + {n} else small;
  }

  lemma ExactIffSelected(c: Case, t: real)
    ensures ExactlySelected(c, t) <==> Selected(c.scores, t) == c.expected
  {
    if Selected(c.scores, t) == c.expected {
      assert forall i :: i in c.expected <==> i in Selected(c.scores, t);
    }
  }

  /** The rates that `tp`, `fp`, `fn` and `tn` give rise to; a rate of nothing is 0. */
  predicate Rates(m: Metrics, tp: nat, fp: nat, fn: nat, tn: nat)
  {
    && (if tp + fp == 0 then m.precision == 0.0 else m.precision * (tp + fp) as real == tp as real)
    && (if tp + fn == 0 then m.recall == 0.0 else m.recall * (tp + fn) as real == tp as real)
    && (if tp == 0 then m.f1 == 0.0 else m.f1 * (2 * tp + fp + fn) as real == (2 * tp) as real)
    && (if tn + fp == 0 then 2.0 * m.balanced == m.recall else (2.0 * m.balanced - m.recall) * (tn + fp) as real == tn as real)
  }

  lemma RatesOf(exact: nat, n: nat, k: Confusion)
    ensures Rates(MetricsOf(exact, n, k), k.tp, k.fp, k.fn, k.tn)
  {
    hide Ratio;
    F1IsDice(exact, n, k);
    RatioTimes(k.tp, k.fp);
    RatioTimes(k.tp, k.fn);
    RatioTimes(k.tn, k.fp);
    assert 2.0 * MetricsOf(exact, n, k).balanced - Ratio(k.tp, k.fn) == Ratio(k.tn, k.fp);
  }

  /** What the reported metrics mean, in terms of the indexes of all cases: how many cases are selected
      exactly, and the rates of the four kinds of indexes. */
  lemma MetricsMeaning(cases: seq<Case>, t: real)
    ensures var m, n := MetricsAt(cases, t), |cases|;
            && m.exact == |ExactCases(cases, t, n)| && m.cases == n
            && Rates(m, Total(cases, t, n, true, true), Total(cases, t, n, false, true),
                     Total(cases, t, n, true, false), Total(cases, t, n, false, false))
  {
    hide Counts, Exact, Total, ExactCases, Rates;
    var n := |cases|;
    CountersAreTotals(cases, t, n, true, true);
    CountersAreTotals(cases, t, n, true, false);
    CountersAreTotals(cases, t, n, false, true);
    CountersAreTotals(cases, t, n, false, false);
    ExactIsCounted(cases, t, n);
    RatesOf(Exact(cases, t, n), n, Counts(cases, t, n));
  }

  lemma RatioTimes(a: nat, b: nat)
    ensures if a + b == 0 then Ratio(a, b) == 0.0 else Ratio(a, b) * (a + b) as real == a as real
  {
  }

  /** F1 is 2tp / (2tp + fp + fn), and 0 when nothing was found. */
  lemma F1IsDice(exact: nat, cases: nat, k: Confusion)
    ensures k.tp == 0 ==> MetricsOf(exact, cases, k).f1 == 0.0
    ensures k.tp > 0 ==> MetricsOf(exact, cases, k).f1 * (2 * k.tp + k.fp + k.fn) as real == (2 * k.tp) as real
  {
    if k.tp > 0 {
      var t, a, b := k.tp as real, (k.tp + k.fp) as real, (k.tp + k.fn) as real;
      HarmonicMean(t, a, b);
    }
  }

  lemma HarmonicMean(t: real, a: real, b: real)
    requires t > 0.0 && a > 0.0 && b > 0.0
    ensures t / a + t / b > 0.0
    ensures 2.0 * (t / a) * (t / b) / (t / a + t / b) * (a + b) == 2.0 * t
  {
    var p, r := t / a, t / b;
    assert p * a == t && r * b == t;
    assert p > 0.0 && r > 0.0;
    assert p * r * (a + b) == t * (p + r) by {
      assert p * r * (a + b) == (p * a) * r + (r * b) * p;
    }
    assert 2.0 * p * r * (a + b) == 2.0 * t * (p + r);
    var q := 2.0 * p * r / (p + r);
    assert q * (p + r) == 2.0 * p * r;
    assert q * (a + b) * (p + r) == 2.0 * t * (p + r);
  }

  // ----- ranking margins

  ghost predicate Splits(c: Case, t: real)
  {
    forall i :: 0 <= i < |c.scores| ==> (c.scores[i] >= t <==> i in c.expected)
  }

  ghost predicate Separable(c: Case)
  {
    exists t: real :: Splits(c, t)
  }

  /** `min(target_scores)`. */
  function LowestTarget(c: Case, n: nat): (m: Option<real>)
    requires n <= |c.scores|
    ensures m.None? <==> forall i :: 0 <= i < n ==> i !in c.expected
    ensures m.Some? ==> exists i :: 0 <= i < n && i in c.expected && c.scores[i] == m.value
    ensures m.Some? ==> forall i :: 0 <= i < n && i in c.expected ==> m.value <= c.scores[i]
  {
    if n == 0 then None
    else
      var rest := LowestTarget(c, n - 1);
      if n - 1 !in c.expected then rest
      else if rest.Some? && rest.value <= c.scores[n - 1] then rest
      else Some(c.scores[n - 1])
  }

  /** `max(distractors)`. */
  function HighestDistractor(c: Case, n: nat): (m: Option<real>)
    requires n <= |c.scores|
    ensures m.None? <==> forall i :: 0 <= i < n ==> i in c.expected
    ensures m.Some? ==> exists i :: 0 <= i < n && i !in c.expected && c.scores[i] == m.value
    ensures m.Some? ==> forall i :: 0 <= i < n && i !in c.expected ==> c.scores[i] <= m.value
  {
    if n == 0 then None
    else
      var rest := HighestDistractor(c, n - 1);
      if n - 1 in c.expected then rest
      else if rest.Some? && rest.value >= c.scores[n - 1] then rest
      else Some(c.scores[n - 1])
  }

  predicate HasMargin(c: Case)
  {
    LowestTarget(c, |c.scores|).Some? && HighestDistractor(c, |c.scores|).Some?
  }

  function Margin(c: Case): real
    requires HasMargin(c)
  {
    LowestTarget(c, |c.scores|).value - HighestDistractor(c, |c.scores|).value
  }

  /** A positive margin means exactly that some threshold separates the case. */
  lemma PositiveMarginMeansSeparable(c: Case)
    requires HasMargin(c)
    ensures Margin(c) > 0.0 <==> Separable(c)
    ensures (exists t: real :: Selected(c.scores, t) == c.expected)
       <==> Margin(c) > 0.0 && forall i :: i in c.expected ==> 0 <= i < |c.scores|
  {
    var low, high := LowestTarget(c, |c.scores|).value, HighestDistractor(c, |c.scores|).value;
    if Margin(c) > 0.0 {
      assert Splits(c, low);
      if forall i :: i in c.expected ==> 0 <= i < |c.scores| {
        assert Selected(c.scores, low) == c.expected;
      }
    }
    if t :| Selected(c.scores, t) == c.expected {
      assert forall i :: 0 <= i < |c.scores| ==> (i in Selected(c.scores, t) <==> c.scores[i] >= t);
      assert Splits(c, t);
    }
  }

  ghost function SeparableCases(cases: seq<Case>, n: nat): nat
    requires n <= |cases|
  {
    if n == 0 then 0 else SeparableCases(cases, n - 1) + if Separable(cases[n - 1]) then 1 else 0
  }

  function Margins(cases: seq<Case>): (r: seq<real>)
    requires forall k :: 0 <= k < |cases| ==> HasMargin(cases[k])
    ensures |r| == |cases| && forall k :: 0 <= k < |cases| ==> r[k] == Margin(cases[k])
  {
    if cases == [] then []
    else
      assert forall k :: 0 <= k < |cases| - 1 ==> cases[..|cases| - 1][k] == cases[k];
      Margins(cases[..|cases| - 1]) + [Margin(cases[|cases| - 1])]
  }

  function Least(s: seq<real>): (m: real)
    requires s != []
    ensures m in s && forall x :: x in s ==> m <= x
  {
    if |s| == 1 then s[0]
    else
      var m := Least(s[1..]);
      assert forall x :: x in s <==> x == s[0] || x in s[1..];
      if s[0] <= m then s[0] else m
  }

  datatype Ranking = Ranking(separable: nat, cases: nat, meanMargin: real, minMargin: real)

  /** `_ranking_summary`; it raises when a case has no target or no distractor. */
  method RankingSummary(cases: seq<Case>) returns (r: Result<Ranking>)
    ensures r.Ok? <==> forall k :: 0 <= k < |cases| ==> HasMargin(cases[k])
    ensures r.Ok? ==> r.value.separable == SeparableCases(cases, |cases|) && r.value.cases == |cases|
    ensures r.Ok? && cases == [] ==> r.value.meanMargin == r.value.minMargin == 0.0
    ensures r.Ok? && cases != [] ==>
              && r.value.meanMargin == Sum(Margins(cases)) / |cases| as real
              && r.value.minMargin == Least(Margins(cases))
  {
    var separable, margins := 0, [];
    for k := 0 to |cases|
      invariant |margins| == k && forall j :: 0 <= j < k ==> HasMargin(cases[j]) && margins[j] == Margin(cases[j])
      invariant separable == SeparableCases(cases, k)
    {
      var c := cases[k];
      if !HasMargin(c) {
        return Err("min() or max() of an empty list");
      }
      PositiveMarginMeansSeparable(c);
      margins := margins + [Margin(c)];
      if Margin(c) > 0.0 {
        separable := separable + 1;
      }
    }
    assert margins == Margins(cases);
    if cases == [] {
      return Ok(Ranking(separable, 0, 0.0, 0.0));
    }
    r := Ok(Ranking(separable, |cases|, Sum(margins) / |cases| as real, Least(margins)));
  }

  /** Every target score of any case exceeds every distractor score of any case. */
  ghost predicate Apart(cases: seq<Case>)
  {
    forall k, l, i, j :: IsTarget(cases, k, i) && IsDistractor(cases, l, j) ==> cases[k].scores[i] > cases[l].scores[j]
  }

  ghost predicate IsTarget(cases: seq<Case>, k: int, i: int)
  {
    0 <= k < |cases| && 0 <= i < |cases[k].scores| && i in cases[k].expected
  }

  ghost predicate IsDistractor(cases: seq<Case>, k: int, i: int)
  {
    0 <= k < |cases| && 0 <= i < |cases[k].scores| && i !in cases[k].expected
  }

  ghost predicate InRange(cases: seq<Case>)
  {
    forall k, i :: 0 <= k < |cases| && i in cases[k].expected ==> 0 <= i < |cases[k].scores|
  }

  /** `low` is the lowest target score of the first `n` cases, if they have a target. */
  ghost predicate IsLowest(cases: seq<Case>, n: nat, low: Option<real>)
  {
    && (low.None? ==> forall k, i :: k < n ==> !IsTarget(cases, k, i))
    && (low.Some? ==> exists k, i :: k < n && IsTarget(cases, k, i) && cases[k].scores[i] == low.value)
    && (low.Some? ==> forall k, i :: k < n && IsTarget(cases, k, i) ==> low.value <= cases[k].scores[i])
  }

  lemma {:induction false} FindLowest(cases: seq<Case>, n: nat) returns (low: Option<real>)
    requires n <= |cases|
    ensures IsLowest(cases, n, low)
  {
    low := None;
    if n > 0 {
      var c := cases[n - 1];
      var mine := LowestTarget(c, |c.scores|);
      low := FindLowest(cases, n - 1);
      if mine.Some? {
        var i :| 0 <= i < |c.scores| && i in c.expected && c.scores[i] == mine.value;
        assert IsTarget(cases, n - 1, i);
        if low.None? || mine.value < low.value {
          low := mine;
        }
      }
    }
  }

  lemma {:induction false} AboveDistractors(cases: seq<Case>, n: nat) returns (t: real)
    requires n <= |cases|
    ensures forall k, i :: k < n && IsDistractor(cases, k, i) ==> cases[k].scores[i] < t
  {
    t := 0.0;
    if n > 0 {
      var c := cases[n - 1];
      t := AboveDistractors(cases, n - 1);
      var mine := HighestDistractor(c, |c.scores|);
      if mine.Some? && mine.value >= t {
        t := mine.value + 1.0;
      }
    }
  }

  /** A threshold between all targets and all distractors. */
  lemma FindCommon(cases: seq<Case>) returns (t: real)
    requires Apart(cases)
    ensures forall k, i :: IsTarget(cases, k, i) ==> cases[k].scores[i] >= t
    ensures forall k, i :: IsDistractor(cases, k, i) ==> cases[k].scores[i] < t
  {
    var low := FindLowest(cases, |cases|);
    if low.Some? {
      t := low.value;
      var k, i :| IsTarget(cases, k, i) && cases[k].scores[i] == t;
    } else {
      t := AboveDistractors(cases, |cases|);
      assert forall k, i :: IsTarget(cases, k, i) ==> k < |cases|;
    }
  }

  /** When do all cases share a threshold?  If and only if every target score, of whatever case, exceeds
      every distractor score, and only existing tiles are expected. */
  lemma CommonThresholdIffApart(cases: seq<Case>)
    ensures (exists t: real :: Separates(cases, t)) <==> Apart(cases) && InRange(cases)
  {
    if t: real :| Separates(cases, t) {
      forall k | 0 <= k < |cases|
        ensures forall i :: i in cases[k].expected <==> 0 <= i < |cases[k].scores| && cases[k].scores[i] >= t
      {
        assert Selected(cases[k].scores, t) == cases[k].expected;
      }
    }
    if Apart(cases) && InRange(cases) {
      var t := FindCommon(cases);
      forall k | 0 <= k < |cases|
        ensures Selected(cases[k].scores, t) == cases[k].expected
      {
        forall i | 0 <= i < |cases[k].scores|
          ensures cases[k].scores[i] >= t <==> i in cases[k].expected
        {
          assert IsTarget(cases, k, i) || IsDistractor(cases, k, i);
        }
      }
      assert Separates(cases, t);
    }
  }

  /** Cases that are separable one by one need not share a threshold. */
  lemma SeparableAloneIsNotTogether()
    ensures var cases := [Case({0}, [1.0, 0.0]), Case({0}, [3.0, 2.0])];
            && (forall k :: 0 <= k < 2 ==> Separable(cases[k]))
            && !exists t: real :: Separates(cases, t)
  {
    var cases := [Case({0}, [1.0, 0.0]), Case({0}, [3.0, 2.0])];
    assert Splits(cases[0], 1.0) && Splits(cases[1], 3.0);
    forall t: real
      ensures !Separates(cases, t)
    {
      if t <= 2.0 {
        assert 1 in Selected(cases[1].scores, t);
      } else {
        assert 0 !in Selected(cases[0].scores, t);
      }
    }
  }
}
