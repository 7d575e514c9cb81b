/** Mini-batch sampling without replacement.

The pool is a permutation of the row indices. A batch is copied from the pool position onwards; when
the pool is used up it is shuffled and read from its start again. The position starts at the end, so
the first batch shuffles before it draws.
*/
module Sampler {
  import opened Arithmetic

  function Indices(n: nat): (r: seq<int>)
    ensures |r| == n && forall i | 0 <= i < n :: r[i] == i
  {
    seq(n, i => i)
  }

  predicate Permutation(s: seq<int>, n: nat) {
    multiset(s) == multiset(Indices(n))
  }

  /** The random generator's shuffles, numbered in the order in which they happen. */
  type Shuffle = (nat, seq<int>) -> seq<int>

  ghost predicate Shuffles(f: Shuffle) {
    forall i: nat, s: seq<int> :: multiset(f(i, s)) == multiset(s)
  }

  /** A list of whole blocks, each of them a permutation. */
  ghost predicate Blocks(s: seq<int>, n: nat)
    requires n > 0
  {
    s != [] ==> |s| >= n && Permutation(s[..n], n) && Blocks(s[n..], n)
  }

  /** The stream drawn so far: whole blocks, then the part of the current pool that was read. */
  ghost predicate Stream(drawn: seq<int>, n: nat)
    requires n > 0
  {
    var m := |drawn| - |drawn| % n;
    Blocks(drawn[..m], n) && exists pool: seq<int> :: Permutation(pool, n) && drawn[m..] <= pool
  }

  lemma PermutationLength(s: seq<int>, n: nat)
    requires Permutation(s, n)
    ensures |s| == n
  {
    assert |multiset(s)| == |s| && |multiset(Indices(n))| == n;
  }

  lemma {:induction false} BlocksSnoc(s: seq<int>, b: seq<int>, n: nat)
    requires n > 0 && Blocks(s, n) && Permutation(b, n)
    ensures Blocks(s + b, n)
    decreases |s|
  {
    PermutationLength(b, n);
    if s == [] {
      assert s + b == b && b[..n] == b && b[n..] == [];
    } else {
      assert (s + b)[..n] == s[..n] && (s + b)[n..] == s[n..] + b;
      BlocksSnoc(s[n..], b, n);
    }
  }

  lemma {:induction false} IndicesCount(n: nat, i: int)
    ensures multiset(Indices(n))[i] == if 0 <= i < n then 1 else 0
  {
    if n > 0 {
      assert Indices(n) == Indices(n - 1) + [n - 1];
      IndicesCount(n - 1, i);
    }
  }

  lemma BlockCount(b: seq<int>, n: nat, i: int)
    requires Permutation(b, n)
    ensures multiset(b)[i] == if 0 <= i < n then 1 else 0
  {
    IndicesCount(n, i);
  }

  lemma OneMore(q: nat, n: nat)
    ensures (q + 1) * n == q * n + n
  {
  }

  /** In q whole blocks every index occurs q times. */
  lemma {:induction false} BlocksCount(s: seq<int>, n: nat, i: int) returns (q: nat)
    requires n > 0 && Blocks(s, n)
    ensures |s| == q * n && multiset(s)[i] == if 0 <= i < n then q else 0
    decreases |s|
  {
    q := 0;
    if s != [] {
      var b, t := s[..n], s[n..];
      var rest := BlocksCount(t, n, i);
      q := rest + 1;
      assert Permutation(b, n) && |t| == |s| - n && s == b + t;
      hide Permutation;
      hide Blocks;
      BlockCount(b, n, i);
      assert multiset(s) == multiset(b) + multiset(t);
      OneMore(rest, n);
    }
  }

  /** Fairness of the whole stream: after k draws every index has been used floor(k / n) or
      ceil(k / n) times, and nothing else has been drawn. */
  lemma EvenUse(drawn: seq<int>, n: nat, i: int)
    requires n > 0 && Stream(drawn, n)
    ensures 0 <= i < n ==> |drawn| / n <= multiset(drawn)[i] <= (|drawn| + n - 1) / n
    ensures !(0 <= i < n) ==> i !in drawn
  {
    hide Blocks;
    hide Permutation;
    var m := |drawn| - |drawn| % n;
    var pool: seq<int> :| Permutation(pool, n) && drawn[m..] <= pool;
    var head, tail := drawn[..m], drawn[m..];
    assert drawn == head + tail;
    var q := UseOf(head, tail, pool, n, i);
    assert |tail| == |drawn| % n;
    DivFloor(|drawn|, n, q);
  }

  lemma UseOf(head: seq<int>, tail: seq<int>, pool: seq<int>, n: nat, i: int) returns (q: nat)
    requires n > 0 && Blocks(head, n) && Permutation(pool, n) && tail <= pool
    ensures |head| == q * n
    ensures 0 <= i < n ==> q <= multiset(head + tail)[i] <= if tail == [] then q else q + 1
    ensures !(0 <= i < n) ==> i !in head + tail
  {
    hide Blocks;
    hide Permutation;
    q := BlocksCount(head, n, i);
    PrefixCount(tail, pool, n, i);
    assert multiset(head + tail) == multiset(head) + multiset(tail);
    assert i in head + tail <==> multiset(head + tail)[i] > 0;
  }

  lemma PrefixCount(tail: seq<int>, pool: seq<int>, n: nat, i: int)
    requires Permutation(pool, n) && tail <= pool
    ensures multiset(tail)[i] <= (if 0 <= i < n then 1 else 0)
    ensures tail == [] ==> multiset(tail)[i] == 0
  {
    BlockCount(pool, n, i);
    assert pool == tail + pool[|tail|..];
  }

  lemma DivFloor(k: nat, n: nat, q: nat)
    requires n > 0 && q * n <= k < q * n + n
    ensures k / n == q
    ensures (k + n - 1) / n == if k == q * n then q else q + 1
  {
    QuotientIs(k, n, q);
    if k == q * n {
      QuotientIs(k + n - 1, n, q);
    } else {
      assert (q + 1) * n == q * n + n;
      QuotientIs(k + n - 1, n, q + 1);
    }
  }

  // ----- which stream it is

  /** The pool after i shuffles. */
  function PoolAfter(f: Shuffle, n: nat, i: nat): seq<int> {
    if i == 0 then Indices(n) else f(i - 1, PoolAfter(f, n, i - 1))
  }

  /** The pools after one, two, up to m shuffles, end to end: the initial order is never drawn. */
  function Epochs(f: Shuffle, n: nat, m: nat): seq<int> {
    if m == 0 then [] else Epochs(f, n, m - 1) + PoolAfter(f, n, m)
  }

  lemma {:induction false} PoolIsPermutation(f: Shuffle, n: nat, i: nat)
    requires Shuffles(f)
    ensures Permutation(PoolAfter(f, n, i), n) && |PoolAfter(f, n, i)| == n
  {
    if i > 0 { PoolIsPermutation(f, n, i - 1); }
    PermutationLength(PoolAfter(f, n, i), n);
  }

  /** The index drawn at place j of the stream. */
  ghost function DrawnAt(f: Shuffle, n: nat, j: nat): int
    requires n > 0 && Shuffles(f)
  {
    PoolIsPermutation(f, n, j / n + 1);
    PoolAfter(f, n, j / n + 1)[j % n]
  }

  lemma DrawnInEpoch(f: Shuffle, n: nat, m: nat, r: nat)
    requires n > 0 && Shuffles(f) && r < n
    ensures |PoolAfter(f, n, m + 1)| == n && DrawnAt(f, n, m * n + r) == PoolAfter(f, n, m + 1)[r]
  {
    hide Shuffles;
    hide PoolAfter;
    PoolIsPermutation(f, n, m + 1);
    RemainderIs(m * n + r, n, m, r);
  }

  ghost predicate Draws(f: Shuffle, n: nat, s: seq<int>)
    requires n > 0 && Shuffles(f)
  {
    forall j: nat | j < |s| :: s[j] == DrawnAt(f, n, j)
  }

  lemma {:induction false} EpochsAt(f: Shuffle, n: nat, m: nat)
    requires n > 0 && Shuffles(f)
    ensures |Epochs(f, n, m)| == m * n && Draws(f, n, Epochs(f, n, m))
    ensures Blocks(Epochs(f, n, m), n)
  {
    hide Shuffles;
    hide PoolAfter;
    hide Permutation;
    if m > 0 {
      hide Draws;
      hide Blocks;
      EpochsAt(f, n, m - 1);
      PoolIsPermutation(f, n, m);
      OneMore(m - 1, n);
      BlocksSnoc(Epochs(f, n, m - 1), PoolAfter(f, n, m), n);
      StreamAt(f, n, m - 1, n);
      assert PoolAfter(f, n, m)[..n] == PoolAfter(f, n, m);
    }
  }

  /** The stream after m epochs and the first r indices of the next. */
  lemma StreamAt(f: Shuffle, n: nat, m: nat, r: nat)
    requires n > 0 && Shuffles(f) && r <= n && |Epochs(f, n, m)| == m * n && Draws(f, n, Epochs(f, n, m))
    ensures |PoolAfter(f, n, m + 1)| == n
    ensures Draws(f, n, Epochs(f, n, m) + PoolAfter(f, n, m + 1)[..r])
  {
    hide Shuffles;
    PoolIsPermutation(f, n, m + 1);
    hide PoolAfter;
    hide DrawnAt;
    var s := Epochs(f, n, m) + PoolAfter(f, n, m + 1)[..r];
    forall j: nat | j < |s| ensures s[j] == DrawnAt(f, n, j) {
      if j >= m * n {
        DrawnInEpoch(f, n, m, j - m * n);
      }
    }
  }

  class BatchSampler {
    var pool: seq<int>
    var pos: nat
    var shuffles: nat
    const n: nat
    ghost var drawn: seq<int>

    /** The pool and everything drawn so far come from the shuffles of f, in order. */
    ghost predicate Valid(f: Shuffle)
      reads this
    {
      && n > 0 && |pool| == n && pos <= n && (pos == n <==> shuffles == 0)
      && pool == PoolAfter(f, n, shuffles)
      && drawn == if shuffles == 0 then [] else Epochs(f, n, shuffles - 1) + pool[..pos]
    }

    constructor (rows: nat, ghost f: Shuffle)
      requires rows > 0
      ensures Valid(f) && n == rows && drawn == []
    {
      n := rows;
      pool := Indices(rows);
      pos := rows;
      shuffles := 0;
      drawn := [];
    }

    /** Fills `dest` with the next indices of the stream. */
    method GetSubset(dest: array<int>, shuffle: Shuffle)
      requires Valid(shuffle) && Shuffles(shuffle)
      modifies this, dest
      ensures Valid(shuffle)
      ensures drawn == old(drawn) + dest[..]
    {
      hide Shuffles;
      hide PoolAfter;
      hide Epochs;
      var d := 0;
      while d < dest.Length
        invariant Valid(shuffle) && 0 <= d <= dest.Length
        invariant drawn == old(drawn) + dest[..d]
        decreases dest.Length - d, if pos == n then 1 else 0
      {
        label before:
        var step := if n - pos < dest.Length - d then n - pos else dest.Length - d;
        CopyInto(dest, d, step);
        Take(step, shuffle);
        assert dest[..d + step] == dest[..d] + dest[d..d + step];
        assert dest[..d] == old@before(dest[..d]);
        d := d + step;
      }
      assert dest[..d] == dest[..];
    }

    /** Moves past `step` indices; a used-up pool is shuffled and read from its start again. */
    method Take(step: nat, shuffle: Shuffle)
      requires Valid(shuffle) && Shuffles(shuffle) && pos + step <= n
      modifies this
      ensures Valid(shuffle)
      ensures drawn == old(drawn) + old(pool[pos..pos + step])
      ensures if old(pos) + step == n
              then pos == 0 && pool == shuffle(old(shuffles), old(pool)) && shuffles == old(shuffles) + 1
              else pos == old(pos) + step && pool == old(pool) && shuffles == old(shuffles)
    {
      hide Shuffles;
      hide PoolAfter;
      hide Epochs;
      ghost var part := pool[pos..pos + step];
      NextInStream(shuffle, n, shuffles, pos, step);
      pos := pos + step;
      if pos == |pool| {
        pool := shuffle(shuffles, pool);
        shuffles := shuffles + 1;
        pos := 0;
      }
      drawn := drawn + part;
    }

    method CopyInto(dest: array<int>, d: nat, step: nat)
      requires d + step <= dest.Length && pos + step <= |pool|
      modifies dest
      ensures dest[..d] == old(dest[..d])
      ensures dest[d..d + step] == pool[pos..pos + step]
    {
      var k := 0;
      while k < step
        invariant 0 <= k <= step
        invariant dest[..d] == old(dest[..d])
        invariant dest[d..d + k] == pool[pos..pos + k]
      {
        dest[d + k] := pool[pos + k];
        assert dest[d..d + k + 1] == dest[d..d + k] + [pool[pos + k]];
        k := k + 1;
      }
    }

    /** What has been drawn: whole permutations, then a prefix of one, and which ones. */
    lemma ValidIsStream(f: Shuffle)
      requires Valid(f) && Shuffles(f)
      ensures Stream(drawn, n) && Draws(f, n, drawn)
    {
      hide Shuffles;
      hide Blocks;
      hide Permutation;
      hide PoolAfter;
      if shuffles > 0 {
        var m := shuffles - 1;
        EpochsAt(f, n, m);
        StreamAt(f, n, m, pos);
        PoolIsPermutation(f, n, shuffles);
        var done := Epochs(f, n, m);
        RemainderIs(|drawn|, n, m, pos);
        assert drawn[..|done|] == done && drawn[|done|..] == pool[..pos] <= pool;
      } else {
        PoolIsPermutation(f, n, 0);
        EpochsAt(f, n, 0);
        assert Epochs(f, n, 0) == [] && drawn[..0] == [] && drawn[0..] == [] <= pool;
      }
    }
  }

  /** Reading on in the pool, up to its end or not. */
  lemma NextInStream(f: Shuffle, n: nat, shuffles: nat, pos: nat, step: nat)
    requires n > 0 && Shuffles(f) && pos + step <= n && (pos == n <==> shuffles == 0)
    ensures var pool := PoolAfter(f, n, shuffles);
            && |pool| == n && f(shuffles, pool) == PoolAfter(f, n, shuffles + 1) && |f(shuffles, pool)| == n
            && pool[..pos] + pool[pos..pos + step] == pool[..pos + step]
            && f(shuffles, pool)[..0] == []
            && (shuffles == 0 ==> step == 0 && Epochs(f, n, 0) == [])
            && (shuffles > 0 ==>
                  Epochs(f, n, shuffles - 1) + pool[..pos] + pool[pos..pos + step]
                  == Epochs(f, n, shuffles - 1) + pool[..pos + step])
            && (shuffles > 0 && pos + step == n ==>
                  Epochs(f, n, shuffles - 1) + pool[..pos + step] == Epochs(f, n, shuffles))
  {
    hide Shuffles;
    hide Permutation;
    PoolIsPermutation(f, n, shuffles);
    PoolIsPermutation(f, n, shuffles + 1);
    var pool := PoolAfter(f, n, shuffles);
    assert pool[..pos] + pool[pos..pos + step] == pool[..pos + step];
    assert pool[..n] == pool;
  }

  /** The sampling part of a training run: any number of batches of any sizes, one after another. The
      batches, put end to end, are the stream, so every row is used evenly; and place j of the stream is
      taken from the pool after one shuffle more than there were full pools before it. */
  method DrawBatches(rows: nat, sizes: seq<nat>, shuffle: Shuffle) returns (all: seq<int>)
    requires rows > 0 && Shuffles(shuffle)
    ensures Stream(all, rows) && Draws(shuffle, rows, all)
    ensures |all| == Total(sizes)
  {
    hide Shuffles;
    hide PoolAfter;
    hide Epochs;
    hide Stream;
    hide Draws;
    var s := new BatchSampler(rows, shuffle);
    all := [];
    for k := 0 to |sizes|
      invariant s.Valid(shuffle) && s.n == rows && fresh(s)
      invariant all == s.drawn && |all| == Total(sizes[..k])
    {
      var batch := new int[sizes[k]];
      s.GetSubset(batch, shuffle);
      all := all + batch[..];
      assert sizes[..k + 1][..k] == sizes[..k];
    }
    assert sizes[..|sizes|] == sizes;
    s.ValidIsStream(shuffle);
  }

  function Total(s: seq<nat>): nat {
    if s == [] then 0 else Total(s[..|s| - 1]) + s[|s| - 1]
  }
}
