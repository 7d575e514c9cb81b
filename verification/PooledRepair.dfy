/** The value that three parties agree on for missing cells, and what it does to their columns. */
module PooledRepair {
  import opened MachineInts
  import opened Wrappers
  import opened Arithmetic
  import opened Decimal
  import opened Tournament
  import opened MissingValues

  // ----- the pooled average

  /** Integer division that truncates toward zero. */
  function TruncDiv(a: int, b: int): int
    requires b > 0
  {
    if a >= 0 then a / b else -((-a) / b)
  }

  /** The valid cells of all parties. */
  function Pooled(c0: Chunks, c1: Chunks, c2: Chunks): seq<int> {
    Values(Flat(c0)) + Values(Flat(c1)) + Values(Flat(c2))
  }

  /** A party counts its valid cells in 32 bits. */
  function Counted(c: Chunks): nat {
    |Values(Flat(c))| % TWO32
  }

  function CountedByAll(c0: Chunks, c1: Chunks, c2: Chunks): nat {
    Counted(c0) + Counted(c1) + Counted(c2)
  }

  /** What the parties write for an average: the pooled sum in 64 bits over the pooled count. There is
      none when that count is zero, because the division traps. */
  function Average(c0: Chunks, c1: Chunks, c2: Chunks): Option<int> {
    var n := CountedByAll(c0, c1, c2);
    if n == 0 then None else Some(TruncDiv(Wrap64(Sum(Pooled(c0, c1, c2))), n))
  }

  /** Each party shares its sum and its count; the shares are added and revealed. */
  method PooledAverage(s0: int, n0: nat, s1: int, n1: nat, s2: int, n2: nat) returns (avg: Option<int>)
    requires n0 < TWO32 && n1 < TWO32 && n2 < TWO32
    ensures avg == if n0 + n1 + n2 == 0 then None
                   else Some(TruncDiv(Wrap64(Wrap64(s0 + s1) + s2), n0 + n1 + n2))
  {
    WrapExact(n0 + n1);
    WrapExact(n0 + n1 + n2);
    hide Wrap64;
    hide TruncDiv;
    var total, count := s0, n0;
    total, count := Wrap64(total + s1), Wrap64(count + n1);
    total, count := Wrap64(total + s2), Wrap64(count + n2);
    avg := if count == 0 then None else Some(TruncDiv(total, count));
  }

  /** Whatever the columns hold: local sums may wrap, and so may the pooled one. */
  method AverageOfColumns(c0: Chunks, c1: Chunks, c2: Chunks) returns (avg: Option<int>)
    ensures avg == Average(c0, c1, c2)
  {
    hide Values;
    hide Flat;
    hide Sum;
    hide Wrap64;
    hide MaxFrom;
    hide MinFrom;
    hide TruncDiv;
    hide AbnormalIn;
    var s0, _, _, n0, _ := ScanColumn(c0);
    var s1, _, _, n1, _ := ScanColumn(c1);
    var s2, _, _, n2, _ := ScanColumn(c2);
    PooledTally(c0, c1, c2);
    avg := PooledAverage(s0, n0, s1, n1, s2, n2);
  }

  lemma PooledTally(c0: Chunks, c1: Chunks, c2: Chunks)
    ensures var v0, v1, v2 := Values(Flat(c0)), Values(Flat(c1)), Values(Flat(c2));
            Wrap64(Wrap64(Wrap64(Sum(v0)) + Wrap64(Sum(v1))) + Wrap64(Sum(v2))) == Wrap64(Sum(Pooled(c0, c1, c2)))
  {
    hide Values;
    hide Flat;
    hide Sum;
    hide Wrap64;
    var v0, v1, v2 := Values(Flat(c0)), Values(Flat(c1)), Values(Flat(c2));
    SumConcat(v0 + v1, v2);
    SumConcat(v0, v1);
    PooledSum(Sum(v0), Sum(v1), Sum(v2));
  }

  lemma PooledSum(a: int, b: int, c: int)
    ensures Wrap64(Wrap64(Wrap64(a) + Wrap64(b)) + Wrap64(c)) == Wrap64(a + b + c)
  {
    var ab := Wrap64(a) + Wrap64(b);
    WrapUnique(Wrap64(ab) + Wrap64(c), a + b + c, Turns(ab) + Turns(a) + Turns(b) + Turns(c));
  }

  lemma {:induction false} SumBounds(s: seq<int>, lo: int, hi: int)
    requires forall k | 0 <= k < |s| :: lo <= s[k] <= hi
    ensures lo * |s| <= Sum(s) <= hi * |s|
  {
    if s != [] {
      var t := s[..|s| - 1];
      SumBounds(t, lo, hi);
      assert lo * |s| == lo * |t| + lo && hi * |s| == hi * |t| + hi;
    }
  }

  lemma TruncBounds(a: int, n: int, lo: int, hi: int)
    requires n > 0 && lo * n <= a <= hi * n
    ensures lo <= TruncDiv(a, n) <= hi
  {
    if a >= 0 {
      DivBounds(a, n, lo, hi);
    } else {
      assert (-hi) * n == -(hi * n) && (-lo) * n == -(lo * n);
      DivBounds(-a, n, -hi, -lo);
    }
  }

  lemma DivBounds(a: int, n: int, lo: int, hi: int)
    requires n > 0 && 0 <= a && lo * n <= a <= hi * n
    ensures lo <= a / n <= hi
  {
    var q := a / n;
    assert q * n <= a < q * n + n;
    if q > hi {
      Apart(hi, q, n);
    } else if q < lo {
      Apart(q, lo, n);
    }
  }

  /** The truncated mean lies between any bounds on the pooled cells. */
  lemma MeanInRange(pool: seq<int>, lo: int, hi: int)
    requires pool != [] && forall k | 0 <= k < |pool| :: lo <= pool[k] <= hi
    ensures lo <= TruncDiv(Sum(pool), |pool|) <= hi
  {
    SumBounds(pool, lo, hi);
    TruncBounds(Sum(pool), |pool|, lo, hi);
  }

  // ----- when the average is the mean

  predicate CountsFit(c0: Chunks, c1: Chunks, c2: Chunks) {
    && |Values(Flat(c0))| < 0x1_0000_0000
    && |Values(Flat(c1))| < 0x1_0000_0000
    && |Values(Flat(c2))| < 0x1_0000_0000
  }

  /** No 64-bit overflow of the pooled sum, no 32-bit overflow of a count. */
  predicate SumFits(c0: Chunks, c1: Chunks, c2: Chunks) {
    IsI64(Sum(Pooled(c0, c1, c2))) && CountsFit(c0, c1, c2)
  }

  /** What is revealed is the true sum and the true number of valid cells exactly when both fit. */
  lemma RevealedExactIff(c0: Chunks, c1: Chunks, c2: Chunks)
    ensures Wrap64(Sum(Pooled(c0, c1, c2))) == Sum(Pooled(c0, c1, c2))
            && CountedByAll(c0, c1, c2) == |Pooled(c0, c1, c2)|
       <==> SumFits(c0, c1, c2)
  {
    hide Sum;
    hide Values;
    hide Flat;
  }

  lemma TruncRemainder(a: int, n: int)
    requires n > 0
    ensures -n < a - TruncDiv(a, n) * n < n
  {
    var q := TruncDiv(a, n);
    if a < 0 {
      var p := (-a) / n;
      assert q * n == -(p * n);
      assert -a == p * n + (-a) % n;
    } else {
      assert a == q * n + a % n;
    }
  }

  /** A sum that wraps never has the right quotient. */
  lemma WrappedQuotient(s: int, n: int)
    requires 0 < n <= TWO63
    ensures TruncDiv(Wrap64(s), n) == TruncDiv(s, n) <==> IsI64(s)
  {
    var w, k := Wrap64(s), Turns(s);
    TruncRemainder(s, n);
    TruncRemainder(w, n);
    if !IsI64(s) {
      assert k != 0;
      assert w - s <= -TWO64 || w - s >= TWO64;
      assert TruncDiv(w, n) == TruncDiv(s, n) ==> -2 * n < w - s < 2 * n;
    }
  }

  /** The average is the truncated mean of all valid cells exactly when the pooled sum fits in 64 bits,
      although local sums may have wrapped on the way. */
  lemma AverageExactIff(c0: Chunks, c1: Chunks, c2: Chunks)
    requires Pooled(c0, c1, c2) != [] && CountsFit(c0, c1, c2)
    ensures var pool := Pooled(c0, c1, c2);
            Average(c0, c1, c2) == Some(TruncDiv(Sum(pool), |pool|)) <==> IsI64(Sum(pool))
  {
    hide Sum;
    hide Values;
    hide Flat;
    hide TruncDiv;
    hide Wrap64;
    WrappedQuotient(Sum(Pooled(c0, c1, c2)), |Pooled(c0, c1, c2)|);
  }

  // ----- the replacement value

  datatype Rule = MAX | MIN | AVG

  /** The value that a rule puts in for missing cells, once all three columns have been scanned. */
  function Replacement(rule: Rule, c0: Chunks, c1: Chunks, c2: Chunks): Option<int> {
    var v0, v1, v2 := Values(Flat(c0)), Values(Flat(c1)), Values(Flat(c2));
    match rule
    case MAX => Some(Champion(FillMax, Top(v0), Top(v1), Top(v2)))
    case MIN => Some(Champion(FillMin, Bottom(v0), Bottom(v1), Bottom(v2)))
    case AVG => Average(c0, c1, c2)
  }

  predicate Within(s: seq<int>, lo: int, hi: int) {
    forall k | 0 <= k < |s| :: lo <= s[k] <= hi
  }

  function Top(s: seq<int>): int { MaxFrom(-TWO63, s) }

  function Bottom(s: seq<int>): int { MinFrom(TWO63 - 1, s) }

  lemma TopOfPool(a: seq<int>, b: seq<int>)
    ensures Top(a + b) == Better(FillMax, Top(a), Top(b)) && Bottom(a + b) == Better(FillMin, Bottom(a), Bottom(b))
  {
    var ab := a + b;
    assert forall k | 0 <= k < |a| :: a[k] == ab[k];
    assert forall k | 0 <= k < |b| :: b[k] == ab[|a| + k];
  }

  /** When the maximum rule finds the largest valid cell of all parties, and the minimum rule the
      smallest: exactly when the comparisons are in range. An empty column enters with the start value
      of its fold. */
  lemma ReplacementExactIff(c0: Chunks, c1: Chunks, c2: Chunks)
    ensures var v0, v1, v2 := Values(Flat(c0)), Values(Flat(c1)), Values(Flat(c2));
            && (Replacement(MAX, c0, c1, c2) == Some(Top(Pooled(c0, c1, c2)))
                <==> ComparedInRange(FillMax, Top(v0), Top(v1), Top(v2)))
            && (Replacement(MIN, c0, c1, c2) == Some(Bottom(Pooled(c0, c1, c2)))
                <==> ComparedInRange(FillMin, Bottom(v0), Bottom(v1), Bottom(v2)))
  {
    hide Champion;
    hide ComparedInRange;
    var v0, v1, v2 := Values(Flat(c0)), Values(Flat(c1)), Values(Flat(c2));
    ValuesFit(Flat(c0));
    ValuesFit(Flat(c1));
    ValuesFit(Flat(c2));
    hide Values;
    hide Flat;
    TopOfPool(v0 + v1, v2);
    TopOfPool(v0, v1);
    ChampionIff(FillMax, Top(v0), Top(v1), Top(v2));
    ChampionIff(FillMin, Bottom(v0), Bottom(v1), Bottom(v2));
  }

  // ----- what repairing does to the range

  /** An empty column wins the maximum against values of the other sign: it needs a positive value
      after it, or one that is not negative before it, in every comparison it takes part in. */
  predicate EmptyWinsMax(v0: seq<int>, v1: seq<int>, v2: seq<int>) {
    if v2 == [] then
      if v0 == [] then Top(v1) >= 0
      else if v1 == [] then Top(v0) >= 0
      else IsI64(Top(v0) - Top(v1)) && (Top(v0) >= 0 || Top(v1) >= 0)
    else
      && (v0 == [] || v1 == [])
      && (v0 != [] ==> Top(v0) >= 0) && (v1 != [] ==> Top(v1) > 0) && Top(v2) > 0
  }

  predicate EmptyWinsMin(v0: seq<int>, v1: seq<int>, v2: seq<int>) {
    if v2 == [] then
      if v0 == [] then Bottom(v1) < 0
      else if v1 == [] then Bottom(v0) < -1
      else IsI64(Bottom(v0) - Bottom(v1)) && (Bottom(v0) < -1 || Bottom(v1) < -1)
    else
      && (v0 == [] || v1 == [])
      && (v0 != [] ==> Bottom(v0) < -1) && (v1 != [] ==> Bottom(v1) < 0) && Bottom(v2) < 0
  }

  /** The revealed sum is close enough to the range times the revealed count; truncation toward zero
      allows up to one count more on the far side of zero. */
  predicate SumWithin(sum: int, n: int, lo: int, hi: int) {
    && (if lo <= 0 then (lo - 1) * n < sum else lo * n <= sum)
    && (if hi >= 0 then sum < (hi + 1) * n else sum <= hi * n)
  }

  /** When the replacement stays in the pooled range. For the extremum rules: unless an empty column
      wins with a start value that no valid cell has. */
  predicate RangeSafe(rule: Rule, c0: Chunks, c1: Chunks, c2: Chunks) {
    var v0, v1, v2 := Values(Flat(c0)), Values(Flat(c1)), Values(Flat(c2));
    match rule
    case MAX => EmptyWinsMax(v0, v1, v2) ==> -TWO63 in v0 + v1 + v2
    case MIN => EmptyWinsMin(v0, v1, v2) ==> TWO63 - 1 in v0 + v1 + v2
    case AVG =>
      var n, pool := CountedByAll(c0, c1, c2), v0 + v1 + v2;
      n > 0 && SumWithin(Wrap64(Sum(pool)), n, Bottom(pool), Top(pool))
  }

  lemma MaxSafeIff(v0: seq<int>, v1: seq<int>, v2: seq<int>)
    requires v0 + v1 + v2 != [] && Within(v0 + v1 + v2, -TWO63, TWO63 - 1)
    ensures Bottom(v0 + v1 + v2) <= Champion(FillMax, Top(v0), Top(v1), Top(v2)) <= Top(v0 + v1 + v2)
       <==> (EmptyWinsMax(v0, v1, v2) ==> -TWO63 in v0 + v1 + v2)
  {
    Extremes(v0, v1, v2);
    hide MaxFrom;
    hide MinFrom;
    hide Keep;
    var m0, m1, m2 := Top(v0), Top(v1), Top(v2);
    KeepIs(FillMax, m0, m1);
    KeepIs(FillMax, Keep(FillMax, m0, m1), m2);
    hide Top;
    hide Bottom;
  }

  lemma MinSafeIff(v0: seq<int>, v1: seq<int>, v2: seq<int>)
    requires v0 + v1 + v2 != [] && Within(v0 + v1 + v2, -TWO63, TWO63 - 1)
    ensures Bottom(v0 + v1 + v2) <= Champion(FillMin, Bottom(v0), Bottom(v1), Bottom(v2)) <= Top(v0 + v1 + v2)
       <==> (EmptyWinsMin(v0, v1, v2) ==> TWO63 - 1 in v0 + v1 + v2)
  {
    Extremes(v0, v1, v2);
    hide MaxFrom;
    hide MinFrom;
    hide Keep;
    var m0, m1, m2 := Bottom(v0), Bottom(v1), Bottom(v2);
    KeepIs(FillMin, m0, m1);
    KeepIs(FillMin, Keep(FillMin, m0, m1), m2);
    hide Top;
    hide Bottom;
  }

  /** What the proofs above need to know about the extremes of a pool and of its parts. */
  lemma Extremes(v0: seq<int>, v1: seq<int>, v2: seq<int>)
    requires v0 + v1 + v2 != [] && Within(v0 + v1 + v2, -TWO63, TWO63 - 1)
    ensures var pool := v0 + v1 + v2;
            && (v0 == [] ==> Top(v0) == -TWO63 && Bottom(v0) == TWO63 - 1)
            && (v1 == [] ==> Top(v1) == -TWO63 && Bottom(v1) == TWO63 - 1)
            && (v2 == [] ==> Top(v2) == -TWO63 && Bottom(v2) == TWO63 - 1)
            && (v0 != [] ==> Bottom(pool) <= Bottom(v0) <= Top(v0) <= Top(pool))
            && (v1 != [] ==> Bottom(pool) <= Bottom(v1) <= Top(v1) <= Top(pool))
            && (v2 != [] ==> Bottom(pool) <= Bottom(v2) <= Top(v2) <= Top(pool))
            && -TWO63 <= Bottom(pool) <= Top(pool) < TWO63
            && (-TWO63 in pool <==> Bottom(pool) == -TWO63)
            && (TWO63 - 1 in pool <==> Top(pool) == TWO63 - 1)
  {
    TopOfPool(v0 + v1, v2);
    TopOfPool(v0, v1);
    var pool := v0 + v1 + v2;
    if v0 != [] { assert Bottom(v0) <= v0[0] <= Top(v0); }
    if v1 != [] { assert Bottom(v1) <= v1[0] <= Top(v1); }
    if v2 != [] { assert Bottom(v2) <= v2[0] <= Top(v2); }
    assert Bottom(pool) <= pool[0] <= Top(pool);
  }

  lemma QuotientWithinIff(sum: int, n: int, lo: int, hi: int)
    requires n > 0
    ensures lo <= TruncDiv(sum, n) <= hi <==> SumWithin(sum, n, lo, hi)
  {
    QuotientAtLeastIff(sum, n, lo);
    QuotientAtLeastIff(-sum, n, -hi);
    NegatedQuotient(sum, n);
    NegatedProduct(hi, n);
    NegatedProduct(hi + 1, n);
    hide TruncDiv;
    assert -hi - 1 == -(hi + 1);
  }

  lemma QuotientAtLeastIff(sum: int, n: int, lo: int)
    requires n > 0
    ensures lo <= TruncDiv(sum, n) <==> if lo <= 0 then (lo - 1) * n < sum else lo * n <= sum
  {
    var q := TruncDiv(sum, n);
    QuotientBounds(sum, n);
    hide TruncDiv;
    var qn, ln, l1 := q * n, lo * n, (lo - 1) * n;
    assert l1 == ln - n && (q + 1) * n == qn + n;
    if lo <= q {
      ProductOrder(lo, q, n);
    } else {
      ProductOrder(q + 1, lo, n);
    }
    if lo <= 0 { ProductOrder(lo, 0, n); } else { ProductOrder(1, lo, n); }
  }

  lemma QuotientBounds(sum: int, n: int)
    requires n > 0
    ensures var q := TruncDiv(sum, n);
            if sum >= 0 then q >= 0 && q * n <= sum < q * n + n else q <= 0 && q * n - n < sum <= q * n
  {
    var a := if sum >= 0 then sum else -sum;
    FloorBounds(a, n);
    NegatedProduct(a / n, n);
  }

  lemma FloorBounds(a: nat, n: int)
    requires n > 0
    ensures 0 <= a / n && a / n * n <= a < a / n * n + n
  {
    assert a == a / n * n + a % n;
  }

  lemma NegatedQuotient(a: int, n: int)
    requires n > 0
    ensures TruncDiv(-a, n) == -TruncDiv(a, n)
  {
    if a == 0 { assert 0 / n == 0; }
  }

  lemma NegatedProduct(a: int, n: int)
    ensures (-a) * n == -(a * n)
  {
  }

  lemma ProductOrder(a: int, b: int, n: int)
    requires n > 0 && a <= b
    ensures a * n <= b * n
  {
    if a < b { Apart(a, b, n); }
  }

  /** The replacement lies between the smallest and the largest valid cell of all parties exactly when
      the rule is range-safe. */
  lemma ReplacementInRangeIff(rule: Rule, c0: Chunks, c1: Chunks, c2: Chunks)
    requires Pooled(c0, c1, c2) != []
    ensures var pool, r := Pooled(c0, c1, c2), Replacement(rule, c0, c1, c2);
            r.Some? && Bottom(pool) <= r.value <= Top(pool) <==> RangeSafe(rule, c0, c1, c2)
  {
    hide Champion;
    hide EmptyWinsMax;
    hide EmptyWinsMin;
    hide TruncDiv;
    hide Sum;
    hide SumWithin;
    hide Wrap64;
    var v0, v1, v2 := Values(Flat(c0)), Values(Flat(c1)), Values(Flat(c2));
    ValuesFit(Flat(c0));
    ValuesFit(Flat(c1));
    ValuesFit(Flat(c2));
    hide Values;
    hide Flat;
    var pool, n := v0 + v1 + v2, CountedByAll(c0, c1, c2);
    match rule
    case MAX => MaxSafeIff(v0, v1, v2);
    case MIN => MinSafeIff(v0, v1, v2);
    case AVG => if n > 0 { QuotientWithinIff(Wrap64(Sum(pool)), n, Bottom(pool), Top(pool)); }
  }

  /** A sum that fits, of cells in the range. */
  lemma FittingSumWithin(pool: seq<int>)
    requires pool != [] && IsI64(Sum(pool))
    ensures SumWithin(Wrap64(Sum(pool)), |pool|, Bottom(pool), Top(pool))
  {
    MeanInRange(pool, Bottom(pool), Top(pool));
    WrapExact(Sum(pool));
    hide Sum;
    hide Wrap64;
    hide Top;
    hide Bottom;
    QuotientWithinIff(Sum(pool), |pool|, Bottom(pool), Top(pool));
  }

  lemma OverflowedSumOutside(pool: seq<int>)
    requires pool != [] && !IsI64(Sum(pool)) && (Top(pool) - Bottom(pool) + 1) * |pool| <= TWO64
    ensures !SumWithin(Wrap64(Sum(pool)), |pool|, Bottom(pool), Top(pool))
  {
    SumBounds(pool, Bottom(pool), Top(pool));
    hide Sum;
    hide Top;
    hide Bottom;
    FarFromRange(Sum(pool), |pool|, Bottom(pool), Top(pool));
  }

  lemma SafeAverageIs(c0: Chunks, c1: Chunks, c2: Chunks)
    requires Pooled(c0, c1, c2) != [] && CountsFit(c0, c1, c2)
    ensures var pool := Pooled(c0, c1, c2);
            RangeSafe(AVG, c0, c1, c2) <==> SumWithin(Wrap64(Sum(pool)), |pool|, Bottom(pool), Top(pool))
  {
    hide Sum;
    hide Values;
    hide Flat;
    hide Top;
    hide Bottom;
    hide Wrap64;
    hide SumWithin;
  }

  /** Without overflow the average is in the range. */
  lemma SumFitsIsSafe(c0: Chunks, c1: Chunks, c2: Chunks)
    requires Pooled(c0, c1, c2) != [] && SumFits(c0, c1, c2)
    ensures RangeSafe(AVG, c0, c1, c2)
  {
    hide RangeSafe;
    hide Pooled;
    hide SumWithin;
    SafeAverageIs(c0, c1, c2);
    FittingSumWithin(Pooled(c0, c1, c2));
  }

  /** For cells that are not spread over more than 2^64 in all, an average that overflowed is always out
      of the range. */
  lemma NarrowSafeIff(c0: Chunks, c1: Chunks, c2: Chunks)
    requires Pooled(c0, c1, c2) != [] && CountsFit(c0, c1, c2)
    requires (Top(Pooled(c0, c1, c2)) - Bottom(Pooled(c0, c1, c2)) + 1) * |Pooled(c0, c1, c2)| <= TWO64
    ensures RangeSafe(AVG, c0, c1, c2) <==> IsI64(Sum(Pooled(c0, c1, c2)))
  {
    hide RangeSafe;
    hide Pooled;
    hide SumWithin;
    hide Top;
    hide Bottom;
    hide Sum;
    SafeAverageIs(c0, c1, c2);
    var pool := Pooled(c0, c1, c2);
    if IsI64(Sum(pool)) {
      FittingSumWithin(pool);
    } else {
      OverflowedSumOutside(pool);
    }
  }

  lemma FarFromRange(s: int, n: int, lo: int, hi: int)
    requires n > 0 && lo * n <= s <= hi * n && (hi - lo + 1) * n <= TWO64 && !IsI64(s)
    ensures !SumWithin(Wrap64(s), n, lo, hi)
  {
    var w, k := Wrap64(s), Turns(s);
    assert k != 0;
    assert w - s <= -TWO64 || w - s >= TWO64;
    assert (hi - lo + 1) * n == hi * n - lo * n + n;
    assert (lo - 1) * n == lo * n - n && (hi + 1) * n == hi * n + n;
  }

  lemma OneCell(x: int)
    requires IsI64(x)
    ensures Values(Flat([[Some(IntText(x))]])) == [x]
  {
    var cell := Some(IntText(x));
    var c := [[cell]];
    IntRoundTrip(x);
    assert Valid(cell) && ValueOf(cell) == x;
    assert c[..0] == [] && Flat(c) == [] + [cell];
    assert [cell][..0] == [] && Values([]) == [];
  }

  lemma TwoCells(x: int)
    requires IsI64(x)
    ensures Sum([x, x]) == x + x && Top([x, x]) == x && Bottom([x, x]) == x
  {
    assert [x, x][..1] == [x] && [x][..0] == [];
    assert Sum([x]) == Sum([]) + x;
  }

  /** The pooled sum of two parties with one cell each, the largest there is, wraps to -2: the average is
      -1, far from both cells. */
  lemma OverflowedAverage()
    ensures var c := [[Some(IntText(TWO63 - 1))]];
            && Pooled(c, c, []) == [TWO63 - 1, TWO63 - 1]
            && Average(c, c, []) == Some(-1) && CountsFit(c, c, []) && !RangeSafe(AVG, c, c, [])
  {
    var x := TWO63 - 1;
    var c := [[Some(IntText(x))]];
    OneCell(x);
    assert Values(Flat([])) == [];
    hide Values;
    hide Flat;
    hide IntText;
    assert [x] + [x] + [] == [x, x];
    TwoCells(x);
    hide Sum;
    hide Top;
    hide Bottom;
    assert Pooled(c, c, []) == [x, x] && CountedByAll(c, c, []) == 2;
    TwiceTheLargest();
    hide Wrap64;
    hide TruncDiv;
    hide RangeSafe;
    NarrowSafeIff(c, c, []);
  }

  lemma TwiceTheLargest()
    ensures TruncDiv(Wrap64(TWO63 - 1 + (TWO63 - 1)), 2) == -1
  {
    assert Wrap64(TWO63 - 1 + (TWO63 - 1)) == -2;
  }

  /** Repairing never widens the pooled range, when the rule is range-safe. */
  lemma RepairKeepsRange(rule: Rule, c0: Chunks, c1: Chunks, c2: Chunks)
    requires Pooled(c0, c1, c2) != [] && RangeSafe(rule, c0, c1, c2)
    ensures Replacement(rule, c0, c1, c2).Some?
    ensures var r := Replacement(rule, c0, c1, c2).value;
            var lo, hi := Bottom(Pooled(c0, c1, c2)), Top(Pooled(c0, c1, c2));
            Within(Repaired(Flat(c0), r), lo, hi) && Within(Repaired(Flat(c1), r), lo, hi)
            && Within(Repaired(Flat(c2), r), lo, hi)
  {
    hide Values;
    hide Flat;
    hide Top;
    hide Bottom;
    hide Within;
    hide Repaired;
    hide RangeSafe;
    hide Replacement;
    ReplacementInRangeIff(rule, c0, c1, c2);
    var r := Replacement(rule, c0, c1, c2).value;
    var v0, v1, v2 := Values(Flat(c0)), Values(Flat(c1)), Values(Flat(c2));
    var pool := v0 + v1 + v2;
    assert [] + v0 + (v1 + v2) == pool && v0 + v1 + v2 + [] == pool;
    PartWithin(v0, [], v1 + v2);
    PartWithin(v1, v0, v2);
    PartWithin(v2, v0 + v1, []);
    RepairedWithin(Flat(c0), r, Bottom(pool), Top(pool));
    RepairedWithin(Flat(c1), r, Bottom(pool), Top(pool));
    RepairedWithin(Flat(c2), r, Bottom(pool), Top(pool));
  }

  lemma PartWithin(s: seq<int>, before: seq<int>, after: seq<int>)
    ensures Within(s, Bottom(before + s + after), Top(before + s + after))
  {
    var all := before + s + after;
    assert forall k | 0 <= k < |s| :: s[k] == all[|before| + k];
  }

  lemma {:induction false} RepairedWithin(cells: seq<Cell>, r: int, lo: int, hi: int)
    requires Within(Values(cells), lo, hi) && lo <= r <= hi
    ensures Within(Repaired(cells, r), lo, hi)
  {
    if cells != [] {
      var n := |cells| - 1;
      var v, w := Values(cells[..n]), Values(cells);
      assert forall k | 0 <= k < |v| :: v[k] == w[k];
      assert Valid(cells[n]) ==> w[|v|] == ValueOf(cells[n]);
      RepairedWithin(cells[..n], r, lo, hi);
    }
  }

  /** A party with no valid cell enters the maximum with -2^63, wins against positive values, and that
      number is written into every missing cell. */
  lemma EmptyColumnSpoilsMax(c0: Chunks, c1: Chunks, c2: Chunks)
    requires Values(Flat(c0)) == [] && Values(Flat(c1)) != [] && Values(Flat(c2)) != []
    requires Within(Values(Flat(c1)), 1, TWO63 - 1) && Within(Values(Flat(c2)), 1, TWO63 - 1)
    ensures Replacement(MAX, c0, c1, c2) == Some(-TWO63)
  {
    var v1, v2 := Values(Flat(c1)), Values(Flat(c2));
    assert 1 <= v1[0] <= Top(v1) && 1 <= v2[0] <= Top(v2);
    EmptyColumnWins(Top(v1), Top(v2));
  }

  // ----- the whole repair

  /** What the three parties agree on: the rule's tournament, or the pooled average. */
  method AgreeOn(rule: Rule, c0: Chunks, c1: Chunks, c2: Chunks) returns (r: Option<int>)
    ensures r == Replacement(rule, c0, c1, c2)
  {
    hide Values;
    hide Flat;
    hide Sum;
    hide MaxFrom;
    hide MinFrom;
    hide Average;
    hide AbnormalIn;
    hide Champion;
    hide WinnerOf;
    if rule == AVG {
      r := AverageOfColumns(c0, c1, c2);
    } else {
      var _, max0, min0, _, _ := ScanColumn(c0);
      var _, max1, min1, _, _ := ScanColumn(c1);
      var _, max2, min2, _, _ := ScanColumn(c2);
      var kind := if rule == MAX then FillMax else FillMin;
      var p0 := new Party(kind, 0, if rule == MAX then max0 else min0);
      var p1 := new Party(kind, 1, if rule == MAX then max1 else min1);
      var p2 := new Party(kind, 2, if rule == MAX then max2 else min2);
      var value := Play(p0, p1, p2);
      r := Some(value);
    }
  }

  lemma ReplacementFits(rule: Rule, c0: Chunks, c1: Chunks, c2: Chunks)
    requires Replacement(rule, c0, c1, c2).Some?
    ensures IsI64(Replacement(rule, c0, c1, c2).value)
  {
    var v0, v1, v2 := Values(Flat(c0)), Values(Flat(c1)), Values(Flat(c2));
    ValuesFit(Flat(c0));
    ValuesFit(Flat(c1));
    ValuesFit(Flat(c2));
    hide Values;
    hide Flat;
    hide Stays;
    if rule == AVG {
      var w, n := Wrap64(Sum(Pooled(c0, c1, c2))), CountedByAll(c0, c1, c2);
      hide Wrap64;
      ProductOrder(-TWO63, -TWO63, n);
      TruncBounds(w, n, -TWO63, TWO63 - 1);
    }
  }

  /** The three parties repair their columns, whatever these hold. Either the average traps, or every
      valid cell keeps its value, every other cell gets the one value they agreed on, and no conversion
      fails. */
  method RepairColumns(rule: Rule, c0: Chunks, c1: Chunks, c2: Chunks)
    returns (out0: seq<int>, out1: seq<int>, out2: seq<int>, trapped: bool, failed: bool)
    ensures trapped <==> Replacement(rule, c0, c1, c2).None?
    ensures !failed
    ensures !trapped ==>
              var r := Replacement(rule, c0, c1, c2).value;
              out0 == Repaired(Flat(c0), r) && out1 == Repaired(Flat(c1), r) && out2 == Repaired(Flat(c2), r)
  {
    hide Replacement;
    hide Repaired;
    hide Flat;
    out0, out1, out2, trapped, failed := [], [], [], true, false;
    var r := AgreeOn(rule, c0, c1, c2);
    if r.Some? {
      ReplacementFits(rule, c0, c1, c2);
      var failed0, failed1, failed2;
      out0, failed0 := RepairOne(c0, r.value);
      out1, failed1 := RepairOne(c1, r.value);
      out2, failed2 := RepairOne(c2, r.value);
      trapped, failed := false, failed0 || failed1 || failed2;
    }
  }

  method RepairOne(chunks: Chunks, r: int) returns (out: seq<int>, failed: bool)
    requires IsI64(r)
    ensures !failed && out == Repaired(Flat(chunks), r)
  {
    var _, _, _, _, abnormal := ScanColumn(chunks);
    out, failed := BuildNewColumn(chunks, r, abnormal);
  }
}
