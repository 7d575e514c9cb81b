/** A party's own column maximum and minimum, before the tournament.

The running result starts at the largest double for the minimum, but at the smallest positive double
for the maximum.
*/
module ColumnExtrema {

  type Chunks = seq<seq<real>>

  function Flat(chunks: Chunks): seq<real> {
    if chunks == [] then [] else Flat(chunks[..|chunks| - 1]) + chunks[|chunks| - 1]
  }

  function Pick(isMax: bool, x: real, y: real): real {
    if isMax then (if x < y then y else x) else (if y < x then y else x)
  }

  /** The better of a start value and all values. */
  function Fold(isMax: bool, start: real, s: seq<real>): real {
    if s == [] then start else Pick(isMax, Fold(isMax, start, s[..|s| - 1]), s[|s| - 1])
  }

  lemma {:induction false} FoldFrom(isMax: bool, x: real, y: real, s: seq<real>)
    ensures Pick(isMax, Fold(isMax, x, s), y) == Fold(isMax, Pick(isMax, x, y), s)
  {
    if s != [] { FoldFrom(isMax, x, y, s[..|s| - 1]); }
  }

  lemma {:induction false} FoldConcat(isMax: bool, x: real, y: real, a: seq<real>, b: seq<real>)
    ensures Pick(isMax, Fold(isMax, x, a), Fold(isMax, y, b)) == Fold(isMax, Pick(isMax, x, y), a + b)
  {
    if b == [] {
      assert a + b == a;
      FoldFrom(isMax, x, y, a);
    } else {
      assert (a + b)[..|a + b| - 1] == a + b[..|b| - 1];
      FoldConcat(isMax, x, y, a, b[..|b| - 1]);
    }
  }

  /** The value a column of at least one chunk is folded from. */
  function From(isMax: bool, start: real, inner: real, chunks: Chunks): real {
    if chunks == [] then start else Pick(isMax, start, inner)
  }

  /** Chunk by chunk: each chunk starts from `inner`, the extreme number of its element type, and the
      column from `start`, the extreme double. */
  method ColumnExtremum(isMax: bool, start: real, inner: real, chunks: Chunks) returns (result: real)
    ensures result == Fold(isMax, From(isMax, start, inner, chunks), Flat(chunks))
    ensures forall k | 0 <= k < |Flat(chunks)| ::
              if isMax then Flat(chunks)[k] <= result else result <= Flat(chunks)[k]
    ensures result in Flat(chunks) || result == start || result == inner
  {
    result := start;
    for i := 0 to |chunks|
      invariant result == Fold(isMax, From(isMax, start, inner, chunks[..i]), Flat(chunks[..i]))
    {
      var val := ChunkExtremum(isMax, inner, chunks[i]);
      assert chunks[..i + 1][..i] == chunks[..i];
      FoldConcat(isMax, From(isMax, start, inner, chunks[..i]), inner, Flat(chunks[..i]), chunks[i]);
      if isMax {
        if result < val { result := val; }
      } else {
        if result > val { result := val; }
      }
    }
    assert chunks[..|chunks|] == chunks;
    ExtremumIff(isMax, From(isMax, start, inner, chunks), Flat(chunks));
  }

  method ChunkExtremum(isMax: bool, inner: real, chunk: seq<real>) returns (val: real)
    ensures val == Fold(isMax, inner, chunk)
  {
    val := inner;
    for j := 0 to |chunk|
      invariant val == Fold(isMax, inner, chunk[..j])
    {
      assert chunk[..j + 1][..j] == chunk[..j];
      if isMax {
        if val <= chunk[j] { val := chunk[j]; }
      } else {
        if val >= chunk[j] { val := chunk[j]; }
      }
    }
    assert chunk[..|chunk|] == chunk;
  }

  /** The largest value of the column, or the smallest. */
  predicate IsExtremum(isMax: bool, m: real, s: seq<real>) {
    m in s && forall k | 0 <= k < |s| :: if isMax then s[k] <= m else m <= s[k]
  }

  predicate NoWorse(isMax: bool, start: real, x: real) {
    if isMax then start <= x else x <= start
  }

  /** The fold bounds the start and the whole column, and it is one of them. It is the extremum of the
      column exactly when some value is no worse than the start: so a column without a positive value
      does not get its maximum. */
  lemma {:induction false} ExtremumIff(isMax: bool, start: real, s: seq<real>)
    ensures IsExtremum(isMax, Fold(isMax, start, s), s) <==> exists k :: 0 <= k < |s| && NoWorse(isMax, start, s[k])
    ensures forall k | 0 <= k < |s| ::
              if isMax then s[k] <= Fold(isMax, start, s) else Fold(isMax, start, s) <= s[k]
    ensures NoWorse(isMax, start, Fold(isMax, start, s))
    ensures Fold(isMax, start, s) == start || Fold(isMax, start, s) in s
  {
    if s != [] {
      var n := |s| - 1;
      ExtremumIff(isMax, start, s[..n]);
      assert forall k | 0 <= k < n :: s[..n][k] == s[k];
      assert s[n] in s;
      var m := Fold(isMax, start, s);
      if k :| 0 <= k < |s| && NoWorse(isMax, start, s[k]) {
        assert m in s;
      }
    }
  }
}
