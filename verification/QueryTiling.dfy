/** How a multi-threaded query cuts the list of intersection ids into ranges.

Ids are queried in rounds of as many batches as there are threads, then a round for the batches left
over, then the remainder. `Cover` counts how many ranges an id falls into: a tiling covers every id
exactly once.
*/
module QueryTiling {

  datatype Range = Range(lo: nat, hi: nat)

  function Cover(ranges: seq<Range>, x: nat): nat {
    if ranges == [] then 0
    else Cover(ranges[..|ranges| - 1], x) + (if ranges[|ranges| - 1].lo <= x < ranges[|ranges| - 1].hi then 1 else 0)
  }

  function Total(ranges: seq<Range>): int {
    if ranges == [] then 0
    else Total(ranges[..|ranges| - 1]) + (ranges[|ranges| - 1].hi - ranges[|ranges| - 1].lo)
  }

  predicate Inside(ranges: seq<Range>, n: nat) {
    forall k | 0 <= k < |ranges| :: ranges[k].lo <= ranges[k].hi <= n
  }

  ghost predicate Tiles(ranges: seq<Range>, n: nat) {
    forall x: nat | x < n :: Cover(ranges, x) == 1
  }

  lemma {:induction false} CoverConcat(a: seq<Range>, b: seq<Range>, x: nat)
    ensures Cover(a + b, x) == Cover(a, x) + Cover(b, x)
    ensures Total(a + b) == Total(a) + Total(b)
  {
    if b == [] {
      assert a + b == a;
    } else {
      assert (a + b)[..|a + b| - 1] == a + b[..|b| - 1];
      CoverConcat(a, b[..|b| - 1], x);
    }
  }

  /** A product, named so that proofs can treat it as one number. */
  function Times(a: nat, b: nat): nat {
    a * b
  }

  lemma TimesSucc(a: nat, b: nat)
    ensures Times(a, b + 1) == Times(a, b) + a && Times(a, 0) == 0
  {
  }

  lemma TimesSum(a: nat, b: nat, c: nat)
    ensures Times(a, b + c) == Times(a, b) + Times(a, c)
  {
  }

  lemma TimesSwap(a: nat, b: nat, c: nat)
    ensures Times(Times(a, b), c) == Times(b, Times(a, c))
  {
  }

  lemma TimesMono(a: nat, b: nat, c: nat)
    requires b <= c
    ensures Times(a, b) <= Times(a, c)
    ensures a > 0 && b < c ==> Times(a, b) < Times(a, c)
  {
    assert a * c == a * b + a * (c - b);
  }

  /** `count` consecutive ranges of `size` ids each, from `base` on. */
  function Row(base: nat, size: nat, count: nat): (r: seq<Range>)
    ensures |r| == count
  {
    if count == 0 then []
    else
      var lo := base + Times(size, count - 1);
      Row(base, size, count - 1) + [Range(lo, lo + size)]
  }

  lemma {:induction false} RowCovers(base: nat, size: nat, count: nat, x: nat)
    ensures Cover(Row(base, size, count), x) == (if base <= x < base + Times(size, count) then 1 else 0)
    ensures Total(Row(base, size, count)) == Times(size, count)
  {
    hide Times;
    TimesSucc(size, 0);
    if count > 0 {
      RowCovers(base, size, count - 1, x);
      var r := Row(base, size, count);
      assert r[..|r| - 1] == Row(base, size, count - 1);
      TimesSucc(size, count - 1);
    }
  }

  lemma {:induction false} RowInside(base: nat, size: nat, count: nat, n: nat)
    requires base + Times(size, count) <= n
    ensures Inside(Row(base, size, count), n)
  {
    hide Times;
    if count > 0 {
      TimesSucc(size, count - 1);
      RowInside(base, size, count - 1, n);
    }
  }

  lemma {:induction false} RowJoin(base: nat, size: nat, a: nat, b: nat)
    ensures Row(base, size, a) + Row(base + Times(size, a), size, b) == Row(base, size, a + b)
  {
    hide Times;
    if b > 0 {
      RowJoin(base, size, a, b - 1);
      TimesSum(size, a, b - 1);
      var lo := base + Times(size, a + b - 1);
      assert Row(base, size, a) + Row(base + Times(size, a), size, b)
          == (Row(base, size, a) + Row(base + Times(size, a), size, b - 1)) + [Range(lo, lo + size)];
    } else {
      assert Row(base, size, a) + [] == Row(base, size, a);
    }
  }

  const INNER: nat := 1000

  /** One thread's range, in queries of a thousand ids and a shorter last one. */
  method ThreadQueries(start: nat, end: nat) returns (ranges: seq<Range>)
    requires start <= end
    ensures forall x: nat :: Cover(ranges, x) == if start <= x < end then 1 else 0
    ensures Total(ranges) == end - start
    ensures forall k | 0 <= k < |ranges| ::
              ranges[k].hi - ranges[k].lo <= 1000 && (k < |ranges| - 1 ==> ranges[k].hi - ranges[k].lo == 1000)
  {
    var full, left := (end - start) / INNER, (end - start) % INNER;
    ranges := [];
    for i := 0 to full
      invariant ranges == Row(start, INNER, i)
      invariant forall k | 0 <= k < i :: ranges[k].hi - ranges[k].lo == INNER
    {
      ranges := ranges + [Range(start + INNER * i, start + INNER * i + INNER)];
    }
    ghost var whole := ranges;
    forall x: nat ensures Cover(whole, x) == if start <= x < start + INNER * full then 1 else 0 {
      RowCovers(start, INNER, full, x);
    }
    RowCovers(start, INNER, full, 0);
    if left != 0 {
      var last := [Range(start + full * INNER, start + full * INNER + left)];
      ranges := ranges + last;
      assert last[..0] == [];
      forall x: nat ensures Cover(ranges, x) == if start <= x < end then 1 else 0 {
        CoverConcat(whole, last, x);
      }
      CoverConcat(whole, last, 0);
    }
  }

  function BatchSize(n: nat): (b: nat)
    ensures n < 10000 ==> b == 1000
    ensures 10000 <= n < 100000 ==> b == 10000
    ensures 100000 <= n ==> b == 100000
  {
    if n < 10000 then 1000 else if n < 100000 then 10000 else 100000
  }

  /** One round: its first range starts at the round number times its own thread count. */
  method QueryRound(round: nat, size: nat, threads: nat) returns (ranges: seq<Range>)
    ensures ranges == Row(Times(Times(round, size), threads), size, threads)
  {
    var base := round * size * threads;
    ranges := [];
    for j := 0 to threads
      invariant ranges == Row(base, size, j)
    {
      ranges := ranges + [Range(base + size * j, base + size * j + size)];
    }
  }

  /** All ranges: whole rounds, the round of the batches left over, the remainder. */
  method PlanQueries(n: nat, threads: nat) returns (ranges: seq<Range>)
    requires threads > 0
    ensures ranges == Plan(n, threads)
  {
    var size := BatchSize(n);
    var batches, rest := n / size, n % size;
    var rounds, spare := batches / threads, batches % threads;
    ranges := WholeRounds(rounds, size, threads);
    var tail: seq<Range> := [];
    if spare != 0 {
      tail := QueryRound(rounds, size, spare);
    }
    ranges := ranges + tail;
    var last: seq<Range> := [];
    if rest != 0 {
      last := [Range(batches * size, batches * size + rest)];
    }
    ranges := ranges + last;
  }

  method WholeRounds(rounds: nat, size: nat, threads: nat) returns (ranges: seq<Range>)
    ensures ranges == Row(0, size, Times(threads, rounds))
  {
    hide Times;
    ranges := [];
    TimesSucc(threads, 0);
    for i := 0 to rounds
      invariant ranges == Row(0, size, Times(threads, i))
    {
      var part := QueryRound(i, size, threads);
      TimesSwap(i, size, threads);
      TimesFlip(i, threads);
      RowJoin(0, size, Times(threads, i), threads);
      TimesSucc(threads, i);
      ranges := ranges + part;
    }
  }

  lemma TimesFlip(a: nat, b: nat)
    ensures Times(a, b) == Times(b, a)
  {
  }

  function Leftover(n: nat): seq<Range> {
    var size := BatchSize(n);
    if n % size == 0 then [] else [Range(n / size * size, n / size * size + n % size)]
  }

  /** Full batches, and full rounds of them. */
  function Batches(n: nat): nat {
    n / BatchSize(n)
  }

  function Rounds(batches: nat, threads: nat): nat
    requires threads > 0
  {
    batches / threads
  }

  /** Batches in whole rounds, batches left over, and where the left-over round starts. */
  function Whole(n: nat, threads: nat): nat
    requires threads > 0
  {
    Times(threads, Rounds(Batches(n), threads))
  }

  function Spare(n: nat, threads: nat): nat
    requires threads > 0
  {
    Batches(n) % threads
  }

  function SpareBase(n: nat, threads: nat): nat
    requires threads > 0
  {
    Times(Times(Rounds(Batches(n), threads), BatchSize(n)), Spare(n, threads))
  }

  function Plan(n: nat, threads: nat): seq<Range>
    requires threads > 0
  {
    Row(0, BatchSize(n), Whole(n, threads)) + Row(SpareBase(n, threads), BatchSize(n), Spare(n, threads)) + Leftover(n)
  }

  lemma LeftoverCovers(n: nat, x: nat)
    ensures Cover(Leftover(n), x) == if n / BatchSize(n) * BatchSize(n) <= x < n then 1 else 0
    ensures Total(Leftover(n)) == n % BatchSize(n)
    ensures Inside(Leftover(n), n)
    ensures n / BatchSize(n) * BatchSize(n) + n % BatchSize(n) == n
  {
    var c := Leftover(n);
    assert c != [] ==> c[..0] == [];
  }

  lemma PlanParts(n: nat, threads: nat, x: nat)
    requires threads > 0
    ensures var size, base := BatchSize(n), SpareBase(n, threads);
            && Cover(Plan(n, threads), x)
               == (if x < Times(size, Whole(n, threads)) then 1 else 0)
                  + (if base <= x < base + Times(size, Spare(n, threads)) then 1 else 0)
                  + Cover(Leftover(n), x)
            && Total(Plan(n, threads))
               == Times(size, Whole(n, threads)) + Times(size, Spare(n, threads)) + Total(Leftover(n))
  {
    hide Times;
    hide Whole;
    hide Spare;
    hide SpareBase;
    hide BatchSize;
    hide Leftover;
    var size := BatchSize(n);
    var a, b, c := Row(0, size, Whole(n, threads)), Row(SpareBase(n, threads), size, Spare(n, threads)), Leftover(n);
    CoverConcat(a + b, c, x);
    CoverConcat(a, b, x);
    RowCovers(0, size, Whole(n, threads), x);
    RowCovers(SpareBase(n, threads), size, Spare(n, threads), x);
  }

  lemma WholeAndSpare(batches: nat, threads: nat)
    requires threads > 0
    ensures Times(threads, batches / threads) + batches % threads == batches
  {
  }

  /** Whole rounds and left-over batches are all the batches, and all of these end at the remainder. */
  lemma PlanSizes(n: nat, threads: nat)
    requires threads > 0
    ensures var size := BatchSize(n);
            && Whole(n, threads) + Spare(n, threads) == n / size
            && Times(size, Whole(n, threads)) + Times(size, Spare(n, threads)) == n / size * size
  {
    hide BatchSize;
    var size := BatchSize(n);
    WholeAndSpare(n / size, threads);
    hide Whole;
    hide Spare;
    assert Whole(n, threads) + Spare(n, threads) == n / size;
    TimesSum(size, Whole(n, threads), Spare(n, threads));
    assert Times(size, n / size) == n / size * size;
  }

  /** The lengths always add up to n, so counting rows afterwards cannot tell whether the right ids
      were queried. */
  lemma LengthsAddUp(n: nat, threads: nat)
    requires threads > 0
    ensures Total(Plan(n, threads)) == n
  {
    PlanParts(n, threads, 0);
    PlanSizes(n, threads);
    LeftoverCovers(n, 0);
  }

  /** The left-over round starts within the whole rounds: at their end if there are none or none left
      over, strictly before it otherwise. */
  lemma SpareBaseIs(n: nat, threads: nat)
    requires threads > 0
    ensures SpareBase(n, threads) <= Times(BatchSize(n), Whole(n, threads))
    ensures n / BatchSize(n) < threads ==>
              SpareBase(n, threads) == 0 && Whole(n, threads) == 0
    ensures n / BatchSize(n) >= threads && Spare(n, threads) > 0 ==>
              SpareBase(n, threads) < Times(BatchSize(n), Whole(n, threads))
  {
    var size, spare, rounds := BatchSize(n), Spare(n, threads), Rounds(Batches(n), threads);
    RoundsFacts(Batches(n), threads);
    hide Times;
    hide Rounds;
    TimesSwap(rounds, size, spare);
    TimesFlip(threads, rounds);
    TimesMono(rounds, spare, threads);
    TimesMono(size, Times(rounds, spare), Times(rounds, threads));
    TimesSucc(threads, 0);
    TimesFlip(0, spare);
    TimesSucc(spare, 0);
    TimesSucc(size, 0);
  }

  lemma RoundsFacts(batches: nat, threads: nat)
    requires threads > 0
    ensures batches % threads < threads
    ensures batches < threads ==> Rounds(batches, threads) == 0
    ensures batches >= threads ==> Rounds(batches, threads) > 0
  {
  }

  /** No range leaves the list. */
  lemma StaysInside(n: nat, threads: nat)
    requires threads > 0
    ensures Inside(Plan(n, threads), n)
  {
    hide Times;
    hide Whole;
    hide Spare;
    hide SpareBase;
    hide BatchSize;
    hide Leftover;
    hide Row;
    PlanSizes(n, threads);
    SpareBaseIs(n, threads);
    LeftoverCovers(n, 0);
    RowInside(0, BatchSize(n), Whole(n, threads), n);
    RowInside(SpareBase(n, threads), BatchSize(n), Spare(n, threads), n);
  }

  /** The ranges tile the ids exactly when the whole batches fit in one round or fill every round:
      otherwise the left-over round starts too early, because its start is computed from its own
      thread count, and it queries ids that have been queried already. */
  lemma TilesIff(n: nat, threads: nat)
    requires threads > 0
    ensures Tiles(Plan(n, threads), n) <==>
              n / BatchSize(n) < threads || n / BatchSize(n) % threads == 0
  {
    PlanSizes(n, threads);
    SpareBaseIs(n, threads);
    TimesSucc(BatchSize(n), 0);
    LeftoverCovers(n, 0);
    var batches, spare := n / BatchSize(n), Spare(n, threads);
    assert spare == batches % threads;
    TimesMono(BatchSize(n), 0, spare);
    hide Times;
    hide Whole;
    hide Spare;
    hide SpareBase;
    hide BatchSize;
    if batches < threads || spare == 0 {
      forall x: nat | x < n ensures Cover(Plan(n, threads), x) == 1 {
        PlanParts(n, threads, x);
        LeftoverCovers(n, x);
      }
    } else {
      var x := SpareBase(n, threads);
      PlanParts(n, threads, x);
      assert Cover(Plan(n, threads), x) >= 2 && x < n;
    }
  }
}
