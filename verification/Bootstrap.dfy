// The paired bootstrap: a 32-bit xorshift generator draws resamples, and a percentile interval is read
// off the sorted sample means. Reals stand for floating-point numbers.
module Bootstrap {
  import opened Sequences
  import opened Sorting
  import opened Quotients

  // ---------------------------------------------------------------- the generator

  // A 32-bit word, bit 0 first.
  type Word = w: seq<bool> | |w| == 32 witness seq(32, _ => false)

  const ZERO: Word := seq(32, _ => false)

  // w ^ (w << k) and w ^ (w >>> k)
  function XorLeft(w: Word, k: nat): Word {
    seq(32, i requires 0 <= i < 32 => w[i] != (i >= k && w[i - k]))
  }

  function XorRight(w: Word, k: nat): Word {
    seq(32, i requires 0 <= i < 32 => w[i] != (i + k < 32 && w[i + k]))
  }

  function Xorshift(w: Word): Word {
    XorLeft(XorRight(XorLeft(w, 13), 17), 5)
  }

  function UndoLeftBit(w: Word, k: nat, i: nat): bool
    requires k > 0 && i < 32
    decreases i
  {
    w[i] != (i >= k && UndoLeftBit(w, k, i - k))
  }

  function UndoRightBit(w: Word, k: nat, i: nat): bool
    requires k > 0 && i < 32
    decreases 32 - i
  {
    w[i] != (i + k < 32 && UndoRightBit(w, k, i + k))
  }

  function UndoLeft(w: Word, k: nat): Word
    requires k > 0
  {
    seq(32, i requires 0 <= i < 32 => UndoLeftBit(w, k, i))
  }

  function UndoRight(w: Word, k: nat): Word
    requires k > 0
  {
    seq(32, i requires 0 <= i < 32 => UndoRightBit(w, k, i))
  }

  function XorshiftInverse(w: Word): Word {
    UndoLeft(UndoRight(UndoLeft(w, 5), 17), 13)
  }

  lemma {:induction false} UndoLeftBitOf(w: Word, k: nat, i: nat)
    requires k > 0 && i < 32
    ensures UndoLeftBit(XorLeft(w, k), k, i) == w[i]
    decreases i
  {
    if i >= k {
      UndoLeftBitOf(w, k, i - k);
    }
  }

  lemma {:induction false} UndoRightBitOf(w: Word, k: nat, i: nat)
    requires k > 0 && i < 32
    ensures UndoRightBit(XorRight(w, k), k, i) == w[i]
    decreases 32 - i
  {
    if i + k < 32 {
      UndoRightBitOf(w, k, i + k);
    }
  }

  // Each of the three steps is a bijection, for any shift distance.
  lemma LeftBijective(w: Word, k: nat)
    requires k > 0
    ensures UndoLeft(XorLeft(w, k), k) == w && XorLeft(UndoLeft(w, k), k) == w
  {
    forall i | 0 <= i < 32
      ensures UndoLeft(XorLeft(w, k), k)[i] == w[i]
    {
      UndoLeftBitOf(w, k, i);
    }
  }

  lemma RightBijective(w: Word, k: nat)
    requires k > 0
    ensures UndoRight(XorRight(w, k), k) == w && XorRight(UndoRight(w, k), k) == w
  {
    forall i | 0 <= i < 32
      ensures UndoRight(XorRight(w, k), k)[i] == w[i]
    {
      UndoRightBitOf(w, k, i);
    }
  }

  // So is their composition.
  lemma XorshiftBijective(w: Word)
    ensures XorshiftInverse(Xorshift(w)) == w
    ensures Xorshift(XorshiftInverse(w)) == w
  {
    var a := XorLeft(w, 13);
    LeftBijective(w, 13);
    RightBijective(a, 17);
    LeftBijective(XorRight(a, 17), 5);
    var b := UndoLeft(w, 5);
    LeftBijective(w, 5);
    RightBijective(b, 17);
    LeftBijective(UndoRight(b, 17), 13);
  }

  // The state after k steps of a generator.
  function State(step: Word -> Word, seed: Word, k: nat): Word {
    if k == 0 then seed else step(State(step, seed, k - 1))
  }

  ghost predicate Injective(step: Word -> Word) {
    forall a, b :: step(a) == step(b) ==> a == b
  }

  lemma XorshiftInjective()
    ensures Injective(Xorshift)
  {
    forall a, b | Xorshift(a) == Xorshift(b)
      ensures a == b
    {
      XorshiftBijective(a);
      XorshiftBijective(b);
    }
  }

  lemma XorshiftOfZero()
    ensures Xorshift(ZERO) == ZERO
  {
    assert XorLeft(ZERO, 13) == ZERO && XorRight(ZERO, 17) == ZERO && XorLeft(ZERO, 5) == ZERO;
  }

  // Two seeds never meet.
  lemma {:induction false} StatesStayApart(step: Word -> Word, a: Word, b: Word, k: nat)
    requires Injective(step)
    ensures State(step, a, k) == State(step, b, k) <==> a == b
  {
    if k > 0 {
      StatesStayApart(step, a, b, k - 1);
    }
  }

  lemma {:induction false} ZeroStays(step: Word -> Word, k: nat)
    requires step(ZERO) == ZERO
    ensures State(step, ZERO, k) == ZERO
  {
    if k > 0 {
      ZeroStays(step, k - 1);
    }
  }

  // A non-zero seed never reaches zero.
  lemma NeverZero(seed: Word, k: nat)
    ensures State(Xorshift, seed, k) == ZERO <==> seed == ZERO
  {
    XorshiftInjective();
    XorshiftOfZero();
    StatesStayApart(Xorshift, seed, ZERO, k);
    ZeroStays(Xorshift, k);
  }

  lemma {:induction false} StateAdds(step: Word -> Word, seed: Word, j: nat, k: nat)
    ensures State(step, seed, j + k) == State(step, State(step, seed, j), k)
  {
    if k > 0 {
      StateAdds(step, seed, j, k - 1);
    }
  }

  function Pow2(n: nat): nat { if n == 0 then 1 else 2 * Pow2(n - 1) }

  // The number the bits stand for: state >>> 0.
  function Value(bits: seq<bool>): (v: nat)
    ensures v < Pow2(|bits|)
  {
    if bits == [] then 0 else (if bits[0] then 1 else 0) + 2 * Value(bits[1..])
  }

  const WORDS := 0x1_0000_0000

  lemma {:induction false} Pow2Adds(a: nat, b: nat)
    ensures Pow2(a + b) == Pow2(a) * Pow2(b)
  {
    if a > 0 {
      Pow2Adds(a - 1, b);
      Doubled(Pow2(a - 1), Pow2(b));
    }
  }

  lemma Doubled(x: nat, y: nat)
    ensures 2 * (x * y) == (2 * x) * y
  {
  }

  lemma WordCount()
    ensures Pow2(32) == WORDS
  {
    assert Pow2(4) == 16;
    Pow2Adds(4, 4);
    Pow2Adds(8, 8);
    Pow2Adds(16, 16);
  }

  // Math.floor(random() * n), where random() is (state >>> 0) / 2^32
  function DrawnIndex(state: Word, n: nat): (i: nat)
    requires n > 0
    ensures i < n
    ensures i * WORDS <= Value(state) * n < (i + 1) * WORDS
  {
    WordCount();
    DivisionBound(Value(state), n);
    Value(state) * n / WORDS
  }

  lemma DivisionBound(s: nat, n: nat)
    requires s < WORDS && n > 0
    ensures 0 <= s * n / WORDS < n
    ensures (s * n / WORDS) * WORDS <= s * n < (s * n / WORDS + 1) * WORDS
  {
    var q, r := s * n / WORDS, s * n % WORDS;
    assert s * n == q * WORDS + r && 0 <= r < WORDS;
    assert s * n < WORDS * n by {
      assert (WORDS - s) * n > 0;
    }
    assert q * WORDS < n * WORDS;
  }

  // ---------------------------------------------------------------- the resamples

  datatype Pair = Pair(baseline: real, feature: real)

  function Difference(p: Pair): real { p.feature - p.baseline }

  // The sum of k differences drawn with the states that follow `state`.
  function DrawSum(values: seq<Pair>, step: Word -> Word, state: Word, k: nat): real
    requires values != []
  {
    if k == 0 then 0.0
    else DrawSum(values, step, state, k - 1) + Difference(values[DrawnIndex(State(step, state, k), |values|)])
  }

  function SampleMean(values: seq<Pair>, step: Word -> Word, state: Word): real
    requires values != []
  {
    Mean(DrawSum(values, step, state, |values|), |values|)
  }

  function Mean(sum: real, n: nat): real
    requires n > 0
  {
    sum / (n as real)
  }

  // How many states the first `runs` resamples of n draws have used.
  function Drawn(runs: nat, n: nat): nat {
    if runs == 0 then 0 else Drawn(runs - 1, n) + n
  }

  function Samples(values: seq<Pair>, step: Word -> Word, state: Word, runs: nat): (s: seq<real>)
    requires values != []
    ensures |s| == runs
  {
    if runs == 0 then []
    else Samples(values, step, state, runs - 1) + [SampleMean(values, step, State(step, state, Drawn(runs - 1, |values|)))]
  }

  function TotalDifference(values: seq<Pair>): real {
    if values == [] then 0.0 else TotalDifference(values[..|values| - 1]) + Difference(values[|values| - 1])
  }

  function RealLe(): (real, real) -> bool {
    (a, b) => a <= b
  }

  // `low` and `high` are undefined when there was no iteration.
  datatype Interval = Interval(estimate: real, low: Option<real>, high: Option<real>, containsZero: bool)

  function Percentile(sorted: seq<real>, index: nat): Option<real> {
    if index < |sorted| then Some(sorted[index]) else None
  }

  function IntervalOf(samples: seq<real>, estimate: real): Interval {
    var sorted := Sort(samples, RealLe());
    var low, high := Percentile(sorted, |samples| * 25 / 1000), Percentile(sorted, |samples| * 975 / 1000);
    Interval(estimate, low, high, low.Some? && high.Some? && low.value <= 0.0 && high.value >= 0.0)
  }

  function BootstrapInterval(values: seq<Pair>, step: Word -> Word, iterations: nat, seed: Word): Interval {
    if values == [] then Interval(0.0, Some(0.0), Some(0.0), true)
    else IntervalOf(Samples(values, step, seed, iterations), Mean(TotalDifference(values), |values|))
  }

  // One resample: draws as many differences as there are pairs.
  method Resample(values: seq<Pair>, step: Word -> Word, start: Word) returns (mean: real, state: Word)
    requires values != []
    ensures mean == SampleMean(values, step, start) && state == State(step, start, |values|)
  {
    state := start;
    var sum := 0.0;
    for index := 0 to |values|
      invariant state == State(step, start, index)
      invariant sum == DrawSum(values, step, start, index)
    {
      state := step(state);
      var row := values[DrawnIndex(state, |values|)];
      sum := sum + (row.feature - row.baseline);
    }
    mean := Mean(sum, |values|);
  }

  method Estimate(values: seq<Pair>) returns (estimate: real)
    requires values != []
    ensures estimate == Mean(TotalDifference(values), |values|)
  {
    var total := 0.0;
    for index := 0 to |values|
      invariant total == TotalDifference(values[..index])
    {
      PrefixStep(values, index);
      total := total + (values[index].feature - values[index].baseline);
    }
    assert values[..|values|] == values;
    estimate := Mean(total, |values|);
  }

  // `step` is the generator; the script passes Xorshift.
  method BootstrapPaired(values: seq<Pair>, step: Word -> Word, iterations: nat, seed: Word) returns (r: Interval)
    ensures r == BootstrapInterval(values, step, iterations, seed)
  {
    if values == [] {
      return Interval(0.0, Some(0.0), Some(0.0), true);
    }
    var samples := DrawSamples(values, step, iterations, seed);
    var estimate := Estimate(values);
    r := IntervalOf(samples, estimate);
  }

  method DrawSamples(values: seq<Pair>, step: Word -> Word, iterations: nat, seed: Word) returns (samples: seq<real>)
    requires values != []
    ensures samples == Samples(values, step, seed, iterations)
  {
    var state := seed;
    samples := [];
    for run := 0 to iterations
      invariant samples == Samples(values, step, seed, run)
      invariant state == State(step, seed, Drawn(run, |values|))
    {
      SamplesStep(values, step, seed, run);
      var mean;
      mean, state := Resample(values, step, state);
      samples := samples + [mean];
    }
  }

  lemma SamplesStep(values: seq<Pair>, step: Word -> Word, seed: Word, run: nat)
    requires values != []
    ensures var start := State(step, seed, Drawn(run, |values|));
            && Samples(values, step, seed, run + 1) == Samples(values, step, seed, run) + [SampleMean(values, step, start)]
            && State(step, seed, Drawn(run + 1, |values|)) == State(step, start, |values|)
  {
    StateAdds(step, seed, Drawn(run, |values|), |values|);
  }

  // ---------------------------------------------------------------- where the interval lies

  ghost predicate Within(values: seq<Pair>, lo: real, hi: real) {
    forall i :: 0 <= i < |values| ==> lo <= Difference(values[i]) <= hi
  }

  // k times x
  function Times(x: real, k: nat): real {
    if k == 0 then 0.0 else Times(x, k - 1) + x
  }

  lemma {:induction false} TimesIsProduct(x: real, k: nat)
    ensures Times(x, k) == x * (k as real)
  {
    if k > 0 {
      TimesIsProduct(x, k - 1);
      var before := (k - 1) as real;
      assert k as real == before + 1.0;
      assert x * (before + 1.0) == x * before + x;
    }
  }

  lemma {:induction false} DrawSumWithin(values: seq<Pair>, step: Word -> Word, state: Word, k: nat, lo: real, hi: real)
    requires values != [] && Within(values, lo, hi)
    ensures Times(lo, k) <= DrawSum(values, step, state, k) <= Times(hi, k)
  {
    if k > 0 {
      DrawSumWithin(values, step, state, k - 1, lo, hi);
    }
  }

  lemma {:induction false} TotalWithin(values: seq<Pair>, lo: real, hi: real)
    requires Within(values, lo, hi)
    ensures Times(lo, |values|) <= TotalDifference(values) <= Times(hi, |values|)
  {
    if values != [] {
      TotalWithin(values[..|values| - 1], lo, hi);
    }
  }

  lemma MeanWithin(sum: real, n: nat, lo: real, hi: real)
    requires n > 0 && Times(lo, n) <= sum <= Times(hi, n)
    ensures lo <= Mean(sum, n) <= hi
  {
    TimesIsProduct(lo, n);
    TimesIsProduct(hi, n);
    QuotientAtLeast(lo, sum, n as real);
    QuotientAtMost(hi, sum, n as real);
  }

  lemma {:induction false} SamplesWithin(values: seq<Pair>, step: Word -> Word, state: Word, runs: nat, lo: real, hi: real)
    requires values != [] && Within(values, lo, hi)
    ensures forall x :: x in Samples(values, step, state, runs) ==> lo <= x <= hi
  {
    if runs > 0 {
      SamplesWithin(values, step, state, runs - 1, lo, hi);
      SampleMeanWithin(values, step, State(step, state, Drawn(runs - 1, |values|)), lo, hi);
    }
  }

  lemma SampleMeanWithin(values: seq<Pair>, step: Word -> Word, start: Word, lo: real, hi: real)
    requires values != [] && Within(values, lo, hi)
    ensures lo <= SampleMean(values, step, start) <= hi
  {
    DrawSumWithin(values, step, start, |values|, lo, hi);
    MeanWithin(DrawSum(values, step, start, |values|), |values|, lo, hi);
  }

  lemma PercentilesWithin(samples: seq<real>, estimate: real, lo: real, hi: real)
    requires forall x :: x in samples ==> lo <= x <= hi
    ensures var r := IntervalOf(samples, estimate);
            if samples == [] then r.low.None? && r.high.None?
            else r.low.Some? && r.high.Some? && lo <= r.low.value <= r.high.value <= hi && r.containsZero == (r.low.value <= 0.0 <= r.high.value)
  {
    var sorted := Sort(samples, RealLe());
    SortMembers(samples, RealLe());
    SortSorted(samples, RealLe());
    var n := |samples|;
    var i, j := n * 25 / 1000, n * 975 / 1000;
    if n > 0 {
      assert i <= j < |sorted|;
      assert sorted[i] in samples && sorted[j] in samples;
      assert i < j ==> RealLe()(sorted[i], sorted[j]);
    }
  }

  // Bounds on the differences bound the estimate and both ends, whatever the generator; the ends are
  // defined and in order as soon as there is one iteration.
  lemma IntervalWithin(values: seq<Pair>, step: Word -> Word, iterations: nat, seed: Word, lo: real, hi: real)
    requires values != [] && Within(values, lo, hi)
    ensures var r := BootstrapInterval(values, step, iterations, seed);
            && lo <= r.estimate <= hi
            && (iterations == 0 ==> r.low.None? && r.high.None?)
            && (iterations > 0 ==> r.low.Some? && r.high.Some? && lo <= r.low.value <= r.high.value <= hi)
            && (iterations > 0 ==> r.containsZero == (r.low.value <= 0.0 <= r.high.value))
            && (lo > 0.0 || hi < 0.0 ==> !r.containsZero)
  {
    SamplesWithin(values, step, seed, iterations, lo, hi);
    TotalWithin(values, lo, hi);
    MeanWithin(TotalDifference(values), |values|, lo, hi);
    PercentilesWithin(Samples(values, step, seed, iterations), Mean(TotalDifference(values), |values|), lo, hi);
  }

  // The tightest such bounds are the smallest and the largest difference.
  lemma IntervalBetweenExtremes(values: seq<Pair>, step: Word -> Word, iterations: nat, seed: Word, smallest: nat, largest: nat)
    requires smallest < |values| && largest < |values| && iterations > 0
    requires Within(values, Difference(values[smallest]), Difference(values[largest]))
    ensures var r := BootstrapInterval(values, step, iterations, seed);
            r.low.Some? && r.high.Some? &&
            Difference(values[smallest]) <= r.low.value <= r.high.value <= Difference(values[largest])
  {
    IntervalWithin(values, step, iterations, seed, Difference(values[smallest]), Difference(values[largest]));
  }

  // Equal differences collapse the interval to the estimate.
  lemma EqualDifferencesCollapse(values: seq<Pair>, step: Word -> Word, iterations: nat, seed: Word, d: real)
    requires values != [] && Within(values, d, d) && iterations > 0
    ensures BootstrapInterval(values, step, iterations, seed) == Interval(d, Some(d), Some(d), d == 0.0)
  {
    IntervalWithin(values, step, iterations, seed, d, d);
    Collapsed(BootstrapInterval(values, step, iterations, seed), d);
  }

  lemma Collapsed(r: Interval, d: real)
    requires r.estimate == d && r.low.Some? && r.high.Some? && d <= r.low.value <= r.high.value <= d
    requires r.containsZero == (r.low.value <= 0.0 <= r.high.value)
    ensures r == Interval(d, Some(d), Some(d), d == 0.0)
  {
  }

  lemma {:induction false} ZeroValue(n: nat)
    ensures Value(seq(n, _ => false)) == 0
  {
    if n > 0 {
      ZeroValue(n - 1);
      assert seq(n, _ => false)[1..] == seq(n - 1, _ => false);
    }
  }

  lemma ZeroDraws(n: nat)
    requires n > 0
    ensures DrawnIndex(ZERO, n) == 0
  {
    ZeroValue(32);
  }

  lemma {:induction false} ZeroDrawSum(values: seq<Pair>, step: Word -> Word, k: nat)
    requires values != [] && step(ZERO) == ZERO
    ensures DrawSum(values, step, ZERO, k) == Times(Difference(values[0]), k)
  {
    if k > 0 {
      ZeroDrawSum(values, step, k - 1);
      ZeroStays(step, k);
      ZeroDraws(|values|);
    }
  }

  lemma ZeroSampleMean(values: seq<Pair>, step: Word -> Word)
    requires values != [] && step(ZERO) == ZERO
    ensures SampleMean(values, step, ZERO) == Difference(values[0])
  {
    ZeroDrawSum(values, step, |values|);
    MeanWithin(DrawSum(values, step, ZERO, |values|), |values|, Difference(values[0]), Difference(values[0]));
  }

  // Why the seed must not be zero: the generator stays at zero and draws the first pair every time, so every
  // resample has the first difference as its mean.
  lemma ZeroSeedDegenerates(values: seq<Pair>, k: nat)
    requires values != []
    ensures DrawnIndex(State(Xorshift, ZERO, k), |values|) == 0
    ensures SampleMean(values, Xorshift, State(Xorshift, ZERO, k)) == Difference(values[0])
  {
    XorshiftOfZero();
    ZeroStays(Xorshift, k);
    ZeroDraws(|values|);
    ZeroSampleMean(values, Xorshift);
  }
}
