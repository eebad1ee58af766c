// What the bootstrap draws, in terms of numbers.
module BootstrapDraws {
  import opened Sequences
  import opened Sorting
  import opened Bootstrap

  // ---------------------------------------------------------------- words as numbers

  function ShiftLeft(w: Word, k: nat): Word {
    seq(32, i requires 0 <= i < 32 => i >= k && w[i - k])
  }

  function ShiftRight(w: Word, k: nat): Word {
    seq(32, i requires 0 <= i < 32 => i + k < 32 && w[i + k])
  }

  lemma {:induction false} ValueSplit(low: seq<bool>, high: seq<bool>)
    ensures Value(low + high) == Value(low) + Pow2(|low|) * Value(high)
  {
    if low == [] {
      assert low + high == high;
    } else {
      assert (low + high)[1..] == low[1..] + high;
      ValueSplit(low[1..], high);
      OneMoreBit(if low[0] then 1 else 0, Value(low[1..]), Pow2(|low| - 1), Value(high));
    }
  }

  lemma OneMoreBit(bit: nat, low: nat, p: nat, high: nat)
    ensures bit + 2 * (low + p * high) == (bit + 2 * low) + (2 * p) * high
  {
    Doubled(p, high);
  }

  lemma {:induction false} ZerosValue(zeros: seq<bool>)
    requires forall i :: 0 <= i < |zeros| ==> !zeros[i]
    ensures Value(zeros) == 0
  {
    if zeros != [] {
      ZerosValue(zeros[1..]);
    }
  }

  // Shifting is multiplication and division by a power of two, within 32 bits.
  lemma ShiftsAreArithmetic(w: Word, k: nat)
    requires k <= 32
    ensures Pow2(32) == 0x1_0000_0000 && Pow2(k) > 0
    ensures Value(ShiftLeft(w, k)) == Pow2(k) * Value(w) % Pow2(32)
    ensures Value(ShiftRight(w, k)) == Value(w) / Pow2(k)
  {
    WordCount();
    LeftIsProduct(w, k);
    RightIsQuotient(w, k);
  }

  lemma LeftIsProduct(w: Word, k: nat)
    requires k <= 32
    ensures Pow2(32) > 0 && Value(ShiftLeft(w, k)) == Pow2(k) * Value(w) % Pow2(32)
  {
    var zeros, low, high := seq(k, _ => false), w[..32 - k], w[32 - k..];
    assert w == low + high && ShiftLeft(w, k) == zeros + low;
    ValueSplit(low, high);
    ValueSplit(zeros, low);
    ZerosValue(zeros);
    Pow2Adds(k, 32 - k);
    WordCount();
    Wraps(Pow2(k), Value(low), Pow2(32 - k), Value(high), Pow2(32));
  }

  lemma Wraps(p: nat, low: nat, q: nat, high: nat, m: nat)
    requires p * q == m && m > 0 && low < q
    ensures p * low == p * (low + q * high) % m
  {
    assert p * (low + q * high) == p * low + (p * q) * high;
    assert p * low < p * q;
    Remainder(p * low, high, m);
  }

  lemma Remainder(r: nat, q: nat, m: nat)
    requires r < m
    ensures (r + m * q) % m == r && (r + m * q) / m == q
  {
    var x := r + m * q;
    var d := x / m;
    assert x == m * d + x % m;
    Apart(m, d, q);
    NoMultiple(m, d - q);
  }

  lemma Apart(m: nat, d: int, q: int)
    ensures m * d - m * q == m * (d - q)
  {
  }

  lemma NoMultiple(m: nat, t: int)
    ensures 0 - m < m * t < m ==> t == 0
  {
    TimesKeepsOrder(1, t, m);
    TimesKeepsOrder(t, -1, m);
  }

  lemma TimesKeepsOrder(x: int, y: int, m: nat)
    ensures x <= y ==> m * x <= m * y
  {
    if x <= y {
      var d := y - x;
      assert m * d >= 0;
      Apart(m, y, x);
    }
  }

  lemma RightIsQuotient(w: Word, k: nat)
    requires k <= 32
    ensures Pow2(k) > 0 && Value(ShiftRight(w, k)) == Value(w) / Pow2(k)
  {
    var low, high, zeros := w[..k], w[k..], seq(k, _ => false);
    assert w == low + high && ShiftRight(w, k) == high + zeros;
    ZerosAbove(high, zeros);
    ValueSplit(low, high);
    QuotientOf(Value(w), Value(low), Pow2(k), Value(high));
  }

  lemma ZerosAbove(high: seq<bool>, zeros: seq<bool>)
    requires forall i :: 0 <= i < |zeros| ==> !zeros[i]
    ensures Value(high + zeros) == Value(high)
  {
    ValueSplit(high, zeros);
    ZerosValue(zeros);
  }

  lemma QuotientOf(v: nat, low: nat, p: nat, high: nat)
    requires low < p && v == low + p * high
    ensures v / p == high
  {
    Remainder(low, high, p);
  }

  // Exclusive or, bit by bit.
  function Xor(a: Word, b: Word): Word {
    seq(32, i requires 0 <= i < 32 => a[i] != b[i])
  }

  // A generator step is w ^= w << 13, then w ^= w >>> 17, then w ^= w << 5.
  lemma XorshiftIsShifts(w: Word)
    ensures var a := Xor(w, ShiftLeft(w, 13));
            var b := Xor(a, ShiftRight(a, 17));
            Xorshift(w) == Xor(b, ShiftLeft(b, 5))
  {
    var a := Xor(w, ShiftLeft(w, 13));
    assert a == XorLeft(w, 13);
    var b := Xor(a, ShiftRight(a, 17));
    assert b == XorRight(a, 17);
    assert Xor(b, ShiftLeft(b, 5)) == XorLeft(b, 5);
  }

  // The first state is the seed, and each further one is the step of the one before.
  lemma StatesAdvance(step: Word -> Word, seed: Word, k: nat)
    ensures State(step, seed, 0) == seed && State(step, seed, k + 1) == State(step, step(seed), k)
  {
    StateAdds(step, seed, 1, k);
    assert State(step, seed, 1) == step(State(step, seed, 0));
  }

  // ---------------------------------------------------------------- the index drawn

  // A larger state draws no smaller index.
  lemma DrawIsMonotone(a: Word, b: Word, n: nat)
    requires n > 0 && Value(a) <= Value(b)
    ensures DrawnIndex(a, n) <= DrawnIndex(b, n)
  {
    var i, j := DrawnIndex(a, n), DrawnIndex(b, n);
    TimesKeepsOrder(Value(a), Value(b), n);
    assert i * WORDS < (j + 1) * WORDS;
  }

  function Bits(v: nat, n: nat): (bits: seq<bool>)
    ensures |bits| == n
  {
    if n == 0 then [] else [v % 2 == 1] + Bits(v / 2, n - 1)
  }

  lemma {:induction false} BitsValue(v: nat, n: nat)
    requires v < Pow2(n)
    ensures Value(Bits(v, n)) == v
  {
    if n > 0 {
      BitsValue(v / 2, n - 1);
    }
  }

  // Every index is drawn by some state, as long as there are no more indices than states.
  lemma EveryIndexDrawn(i: nat, n: nat) returns (state: Word)
    requires i < n <= WORDS
    ensures DrawnIndex(state, n) == i
  {
    // The smallest number whose product with n reaches i * 2^32.
    var v := (i * WORDS + n - 1) / n;
    RoundedUp(i * WORDS, n, v);
    assert v * n < i * WORDS + n <= (i + 1) * WORDS <= n * WORDS;
    Smaller(v, WORDS, n);
    WordCount();
    state := Bits(v, 32);
    BitsValue(v, 32);
    OnlyQuotient(v * n, i, DrawnIndex(state, n));
  }

  lemma RoundedUp(x: nat, n: nat, v: nat)
    requires n > 0 && v == (x + n - 1) / n
    ensures x <= v * n < x + n
  {
    var r := (x + n - 1) % n;
    assert x + n - 1 == v * n + r;
  }

  lemma Smaller(a: nat, b: nat, n: nat)
    requires a * n < n * b
    ensures a < b
  {
    TimesKeepsOrder(b, a, n);
  }

  lemma OnlyQuotient(x: nat, i: nat, j: nat)
    requires i * WORDS <= x < (i + 1) * WORDS && j * WORDS <= x < (j + 1) * WORDS
    ensures i == j
  {
  }

  // ---------------------------------------------------------------- sums and means

  function Total(s: seq<real>): real {
    if s == [] then 0.0 else Total(s[..|s| - 1]) + s[|s| - 1]
  }

  function Baselines(values: seq<Pair>): seq<real> {
    seq(|values|, i requires 0 <= i < |values| => values[i].baseline)
  }

  function Features(values: seq<Pair>): seq<real> {
    seq(|values|, i requires 0 <= i < |values| => values[i].feature)
  }

  lemma {:induction false} TotalsApart(values: seq<Pair>)
    ensures TotalDifference(values) == Total(Features(values)) - Total(Baselines(values))
  {
    if values != [] {
      var front := values[..|values| - 1];
      TotalsApart(front);
      assert Features(values)[..|front|] == Features(front) && Baselines(values)[..|front|] == Baselines(front);
    }
  }

  // The differences drawn with k states, the first `start` states being used before.
  function Draws(values: seq<Pair>, step: Word -> Word, seed: Word, start: nat, k: nat): seq<real>
    requires values != []
  {
    seq(k, i requires 0 <= i < k => DrawAt(values, step, seed, start + i + 1))
  }

  function DrawAt(values: seq<Pair>, step: Word -> Word, seed: Word, number: nat): real
    requires values != []
  {
    var row := values[DrawnIndex(State(step, seed, number), |values|)];
    row.feature - row.baseline
  }

  lemma TotalStep(s: seq<real>, x: real)
    ensures Total(s + [x]) == Total(s) + x
  {
    assert (s + [x])[..|s|] == s;
  }

  lemma {:induction false} DrawSumIsTotal(values: seq<Pair>, step: Word -> Word, seed: Word, start: nat, k: nat)
    requires values != []
    ensures DrawSum(values, step, State(step, seed, start), k) == Total(Draws(values, step, seed, start, k))
  {
    if k > 0 {
      DrawSumIsTotal(values, step, seed, start, k - 1);
      StateAdds(step, seed, start, k);
      var before := Draws(values, step, seed, start, k - 1);
      TotalStep(before, DrawAt(values, step, seed, start + k));
      assert Draws(values, step, seed, start, k) == before + [DrawAt(values, step, seed, start + k)];
    }
  }

  lemma {:induction false} DrawnIsProduct(runs: nat, n: nat)
    ensures Drawn(runs, n) == runs * n
  {
    if runs > 0 {
      DrawnIsProduct(runs - 1, n);
      assert runs * n == (runs - 1) * n + n;
    }
  }

  // Each resample has as many draws as there are pairs, with the states that follow those of the resamples before it.
  lemma {:induction false} SampleExactly(values: seq<Pair>, step: Word -> Word, seed: Word, runs: nat, run: nat)
    requires values != [] && run < runs
    ensures Samples(values, step, seed, runs)[run] == Total(Draws(values, step, seed, run * |values|, |values|)) / (|values| as real)
  {
    if run < runs - 1 {
      SampleExactly(values, step, seed, runs - 1, run);
    } else {
      DrawnIsProduct(run, |values|);
      DrawSumIsTotal(values, step, seed, run * |values|, |values|);
    }
  }

  // ---------------------------------------------------------------- the interval

  // The estimate is the mean difference, and the bounds are the samples of rank 2.5% and 97.5%.
  lemma IntervalExactly(values: seq<Pair>, step: Word -> Word, iterations: nat, seed: Word)
    ensures var r := BootstrapInterval(values, step, iterations, seed);
            if values == [] then r == Interval(0.0, Some(0.0), Some(0.0), true)
            else
              var samples := Samples(values, step, seed, iterations);
              && r.estimate == (Total(Features(values)) - Total(Baselines(values))) / (|values| as real)
              && (iterations == 0 ==> r.low == None && r.high == None && !r.containsZero)
              && (iterations > 0 ==>
                    && r.low.Some? && OfRank(samples, r.low.value, RealLe(), iterations * 25 / 1000)
                    && r.high.Some? && OfRank(samples, r.high.value, RealLe(), iterations * 975 / 1000)
                    && r.containsZero == (r.low.value <= 0.0 && 0.0 <= r.high.value))
  {
    if values != [] {
      TotalsApart(values);
      assert Mean(TotalDifference(values), |values|) == (Total(Features(values)) - Total(Baselines(values))) / (|values| as real);
      BoundsExactly(Samples(values, step, seed, iterations), Mean(TotalDifference(values), |values|));
    }
  }

  lemma BoundsExactly(samples: seq<real>, estimate: real)
    ensures var r, n := IntervalOf(samples, estimate), |samples|;
            && r.estimate == estimate
            && (n == 0 ==> r.low == None && r.high == None && !r.containsZero)
            && (n > 0 ==>
                  && r.low.Some? && OfRank(samples, r.low.value, RealLe(), n * 25 / 1000)
                  && r.high.Some? && OfRank(samples, r.high.value, RealLe(), n * 975 / 1000)
                  && r.containsZero == (r.low.value <= 0.0 && 0.0 <= r.high.value))
  {
    var n := |samples|;
    if n > 0 {
      var i, j := n * 25 / 1000, n * 975 / 1000;
      PlaceIsRank(samples, RealLe(), i);
      PlaceIsRank(samples, RealLe(), j);
    } else {
      assert Sort(samples, RealLe()) == [];
    }
  }
}
