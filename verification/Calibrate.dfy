/**
 SimHash distance and the threshold search (internal/diff): the distance is a metric on 64-bit
 words, and the search returns the lowest best threshold.
 */
module Calibrate {

  // ---------- Hamming distance ----------

  /** A 64-bit word by its bits. */
  type Word = w: seq<bool> | |w| == 64 witness seq(64, i => false)

  function Xor(a: Word, b: Word): Word {
    seq(64, i requires 0 <= i < 64 => a[i] != b[i])
  }

  /** The set bits among the first n. */
  function OnesCount(w: Word, n: nat): (k: nat)
    requires n <= 64
    ensures k <= n
  {
    if n == 0 then 0 else OnesCount(w, n - 1) + if w[n - 1] then 1 else 0
  }

  function HammingDistance(a: Word, b: Word): nat {
    OnesCount(Xor(a, b), 64)
  }

  lemma {:induction false} OnesTriangle(a: Word, b: Word, c: Word, n: nat)
    requires n <= 64
    ensures OnesCount(Xor(a, c), n) <= OnesCount(Xor(a, b), n) + OnesCount(Xor(b, c), n)
  {
    if n > 0 {
      OnesTriangle(a, b, c, n - 1);
    }
  }

  lemma {:induction false} NoOnes(w: Word, n: nat)
    requires n <= 64
    ensures OnesCount(w, n) == 0 <==> forall i :: 0 <= i < n ==> !w[i]
  {
    if n > 0 {
      NoOnes(w, n - 1);
    }
  }

  lemma {:induction false} OnesAreCounted(w: Word, n: nat)
    requires n <= 64
    ensures OnesCount(w, n) == |set i | 0 <= i < n && w[i]|
  {
    var ones := set i | 0 <= i < n && w[i];
    if n == 0 {
      assert ones == {};
    } else {
      OnesAreCounted(w, n - 1);
      var fewer := set i | 0 <= i < n - 1 && w[i];
      assert ones == if w[n - 1] then fewer + {n - 1} else fewer;
    }
  }

  /** The distance is the number of positions where the words differ. */
  lemma HammingCounts(a: Word, b: Word)
    ensures HammingDistance(a, b) == |set i | 0 <= i < 64 && a[i] != b[i]|
  {
    OnesAreCounted(Xor(a, b), 64);
    assert (set i | 0 <= i < 64 && Xor(a, b)[i]) == set i | 0 <= i < 64 && a[i] != b[i];
  }

  /** The distance is a metric, and at most 64. */
  lemma HammingIsMetric(a: Word, b: Word, c: Word)
    ensures HammingDistance(a, b) <= 64
    ensures HammingDistance(a, b) == 0 <==> a == b
    ensures HammingDistance(a, b) == HammingDistance(b, a)
    ensures HammingDistance(a, c) <= HammingDistance(a, b) + HammingDistance(b, c)
  {
    assert Xor(a, b) == Xor(b, a);
    OnesTriangle(a, b, c, 64);
    NoOnes(Xor(a, b), 64);
    assert forall i :: 0 <= i < 64 ==> Xor(a, b)[i] == (a[i] != b[i]);
    if forall i :: 0 <= i < 64 ==> !Xor(a, b)[i] {
      assert a == b;
    }
  }

  // ---------- Classification ----------

  datatype ChangeClass = Cosmetic | Substantive | NoChange

  function Classify(old_: Word, new_: Word, threshold: int): ChangeClass {
    if HammingDistance(old_, new_) <= threshold then Cosmetic else Substantive
  }

  datatype Sample = Sample(before: Word, after: Word, expected: ChangeClass)

  predicate Right(s: Sample, threshold: int) {
    Classify(s.before, s.after, threshold) == s.expected
  }

  function Correct(samples: seq<Sample>, threshold: int): (k: nat)
    ensures k <= |samples|
  {
    if samples == [] then 0
    else Correct(samples[..|samples| - 1], threshold) + if Right(samples[|samples| - 1], threshold) then 1 else 0
  }

  /** Cosmetic means at most threshold differing bits, and anything else is substantive. */
  lemma ClassifyCounts(before: Word, after: Word, threshold: int)
    ensures Classify(before, after, threshold) == Cosmetic <==>
      |set i | 0 <= i < 64 && before[i] != after[i]| <= threshold
    ensures Classify(before, after, threshold) != NoChange
  {
    HammingCounts(before, after);
  }

  /** Which samples are classified as expected. */
  function Expected(samples: seq<Sample>, threshold: int): set<int> {
    set i | 0 <= i < |samples| && Classify(samples[i].before, samples[i].after, threshold) == samples[i].expected
  }

  lemma ExpectedNext(samples: seq<Sample>, threshold: int)
    requires samples != []
    ensures var n := |samples| - 1;
      n !in Expected(samples[..n], threshold)
      && Expected(samples, threshold) ==
        Expected(samples[..n], threshold) + if Right(samples[n], threshold) then {n} else {}
  {
    var n := |samples| - 1;
    assert forall i :: 0 <= i < n ==> samples[..n][i] == samples[i];
  }

  /** The samples classified as expected, each counted once. */
  lemma {:induction false} CorrectCounts(samples: seq<Sample>, threshold: int)
    ensures Correct(samples, threshold) == |Expected(samples, threshold)|
  {
    if samples != [] {
      CorrectCounts(samples[..|samples| - 1], threshold);
      ExpectedNext(samples, threshold);
    }
  }

  /** CalibrationAccuracy. */
  method CalibrationAccuracy(samples: seq<Sample>, threshold: int) returns (acc: real)
    ensures acc == if samples == [] then 0.0 else Correct(samples, threshold) as real / |samples| as real
  {
    if |samples| == 0 {
      return 0.0;
    }
    var correct := 0;
    for i := 0 to |samples|
      invariant correct == Correct(samples[..i], threshold)
    {
      assert samples[..i + 1][..i] == samples[..i];
      if Right(samples[i], threshold) {
        correct := correct + 1;
      }
    }
    assert samples[..|samples|] == samples;
    acc := correct as real / |samples| as real;
  }

  /** The threshold between lo and hi with the most correct samples, and the lowest of those. */
  predicate LowestBest(samples: seq<Sample>, lo: int, hi: int, best: int) {
    && lo <= best <= hi
    && (forall th :: lo <= th <= hi ==> Correct(samples, th) <= Correct(samples, best))
    && forall th :: lo <= th < best ==> Correct(samples, th) < Correct(samples, best)
  }

  lemma TimesOrder(p: real, q: real, n: real)
    requires n > 0.0
    ensures p > q <==> p * n > q * n
  {}

  lemma RatioOrder(x: real, y: real, n: real)
    requires n > 0.0
    ensures x / n > y / n <==> x > y
  {
    TimesOrder(x / n, y / n, n);
    assert x / n * n == x;
    assert y / n * n == y;
  }

  lemma AccuracyOrder(samples: seq<Sample>, a: int, b: int)
    requires samples != []
    ensures var n := |samples| as real;
      Correct(samples, a) as real / n > Correct(samples, b) as real / n <==> Correct(samples, a) > Correct(samples, b)
  {
    RatioOrder(Correct(samples, a) as real, Correct(samples, b) as real, |samples| as real);
  }

  lemma AccuracyIsNotNegative(samples: seq<Sample>, a: int)
    requires samples != []
    ensures Correct(samples, a) as real / |samples| as real >= 0.0
  {}

  /** CalibrateThreshold. */
  method CalibrateThreshold(samples: seq<Sample>, lo: int, hi: int) returns (best: int)
    ensures lo <= hi ==> LowestBest(samples, lo, hi, best)
    ensures lo > hi ==> best == lo
  {
    best := lo;
    var bestAcc := -1.0;
    var th := lo;
    while th <= hi
      invariant lo <= th && (if lo <= hi then th <= hi + 1 else th == lo)
      invariant th == lo ==> best == lo && bestAcc == -1.0
      invariant th > lo ==> LowestBest(samples, lo, th - 1, best)
      invariant th > lo ==> bestAcc == if samples == [] then 0.0 else Correct(samples, best) as real / |samples| as real
      decreases hi - th
    {
      var acc := CalibrationAccuracy(samples, th);
      if samples != [] {
        AccuracyOrder(samples, th, best);
        AccuracyIsNotNegative(samples, th);
      }
      if acc > bestAcc {
        bestAcc, best := acc, th;
      }
      th := th + 1;
    }
  }

  lemma LowestBestIsUnique(samples: seq<Sample>, lo: int, hi: int, a: int, b: int)
    requires LowestBest(samples, lo, hi, a) && LowestBest(samples, lo, hi, b)
    ensures a == b
  {
    assert Correct(samples, a) == Correct(samples, b);
  }

  /** A wider threshold keeps every cosmetic verdict. */
  lemma WiderKeepsCosmetic(a: Word, b: Word, narrow: int, wide: int)
    requires narrow <= wide && Classify(a, b, narrow) == Cosmetic
    ensures Classify(a, b, wide) == Cosmetic
  {}

  lemma {:induction false} SameBeyond64(samples: seq<Sample>, th: int)
    requires th >= 64
    ensures Correct(samples, th) == Correct(samples, 64)
  {
    if samples != [] {
      SameBeyond64(samples[..|samples| - 1], th);
    }
  }

  lemma BestIsAtMost64(samples: seq<Sample>, lo: int, hi: int, best: int)
    requires lo <= 64 && LowestBest(samples, lo, hi, best)
    ensures best <= 64
  {
    if best >= 64 {
      SameBeyond64(samples, best);
      assert lo <= 64 < best ==> Correct(samples, 64) < Correct(samples, best);
    }
  }

  /** The range of the search beyond 64 does not matter: nothing is further apart. */
  lemma BeyondSixtyFour(samples: seq<Sample>, lo: int, hi: int, far: int, best: int)
    requires lo <= 64 <= hi <= far
    ensures LowestBest(samples, lo, hi, best) <==> LowestBest(samples, lo, far, best)
    ensures LowestBest(samples, lo, far, best) ==> best <= 64
  {
    if LowestBest(samples, lo, hi, best) {
      forall th | lo <= th <= far ensures Correct(samples, th) <= Correct(samples, best) {
        if th > hi {
          SameBeyond64(samples, th);
          assert Correct(samples, 64) <= Correct(samples, best);
        }
      }
    }
    if LowestBest(samples, lo, far, best) {
      BestIsAtMost64(samples, lo, far, best);
      assert best <= hi;
    }
  }
}
