/** One party's side of the repair of an integer column: scan and replace.

A column is a list of chunks of cells; a cell is null or a text. A cell is valid when it is not null
and its whole text is a 64-bit integer.
*/
module MissingValues {
  import opened MachineInts
  import opened Wrappers
  import opened Decimal

  type Cell = Option<string>
  type Chunks = seq<seq<Cell>>

  predicate Valid(c: Cell) {
    c.Some? && StrToInt64(c.value).Value?
  }

  function ValueOf(c: Cell): int
    requires Valid(c)
  {
    StrToInt64(c.value).i
  }

  predicate Abnormal(c: Cell) {
    c.Some? && !StrToInt64(c.value).Value?
  }

  // ----- specification of the scan; all folds run to the last element, as the loops do

  function Values(cells: seq<Cell>): seq<int> {
    if cells == [] then []
    else
      var last := cells[|cells| - 1];
      Values(cells[..|cells| - 1]) + (if Valid(last) then [ValueOf(last)] else [])
  }

  function AbnormalIn(cells: seq<Cell>): (r: seq<nat>)
    ensures forall j | 0 <= j < |r| :: r[j] < |cells|
  {
    if cells == [] then []
    else
      var n := |cells| - 1;
      AbnormalIn(cells[..n]) + (if Abnormal(cells[n]) then [n] else [])
  }

  function NullsIn(cells: seq<Cell>): nat {
    if cells == [] then 0
    else NullsIn(cells[..|cells| - 1]) + (if cells[|cells| - 1].None? then 1 else 0)
  }

  function Flat(chunks: Chunks): seq<Cell> {
    if chunks == [] then [] else Flat(chunks[..|chunks| - 1]) + chunks[|chunks| - 1]
  }

  function Sum(s: seq<int>): int {
    if s == [] then 0 else Sum(s[..|s| - 1]) + s[|s| - 1]
  }

  function MaxFrom(start: int, s: seq<int>): (m: int)
    ensures start <= m && forall k | 0 <= k < |s| :: s[k] <= m
    ensures m == start || m in s
  {
    if s == [] then start
    else
      var m, x := MaxFrom(start, s[..|s| - 1]), s[|s| - 1];
      if x > m then x else m
  }

  function MinFrom(start: int, s: seq<int>): (m: int)
    ensures m <= start && forall k | 0 <= k < |s| :: m <= s[k]
    ensures m == start || m in s
  {
    if s == [] then start
    else
      var m, x := MinFrom(start, s[..|s| - 1]), s[|s| - 1];
      if x < m then x else m
  }

  lemma FlatNext(chunks: Chunks, k: nat)
    requires k < |chunks|
    ensures Flat(chunks[..k + 1]) == Flat(chunks[..k]) + chunks[k]
  {
    assert chunks[..k + 1][..k] == chunks[..k];
  }

  lemma {:induction false} CellsCounted(cells: seq<Cell>)
    ensures |Values(cells)| + |AbnormalIn(cells)| + NullsIn(cells) == |cells|
  {
    if cells != [] { CellsCounted(cells[..|cells| - 1]); }
  }

  lemma {:induction false} ValuesConcat(a: seq<Cell>, b: seq<Cell>)
    ensures Values(a + b) == Values(a) + Values(b)
  {
    if b == [] {
      assert a + b == a;
    } else {
      assert (a + b)[..|a + b| - 1] == a + b[..|b| - 1];
      ValuesConcat(a, b[..|b| - 1]);
    }
  }

  lemma {:induction false} SumConcat(a: seq<int>, b: seq<int>)
    ensures Sum(a + b) == Sum(a) + Sum(b)
  {
    if b == [] {
      assert a + b == a;
    } else {
      assert (a + b)[..|a + b| - 1] == a + b[..|b| - 1];
      SumConcat(a, b[..|b| - 1]);
    }
  }

  lemma {:induction false} ValuesFit(cells: seq<Cell>)
    ensures forall k | 0 <= k < |Values(cells)| :: IsI64(Values(cells)[k])
  {
    if cells != [] { ValuesFit(cells[..|cells| - 1]); }
  }

  /** A cell counts with v exactly when its text is v from end to end. */
  lemma CellValueIff(c: Cell, v: int)
    ensures Values([c]) == [v] <==> c.Some? && exists a: nat, b: nat :: WholeInteger(c.value, a, b, v)
    ensures |Values([c])| <= 1
  {
    hide StrToInt64;
    hide WholeInteger;
    assert [c][..0] == [] && Values([]) == [];
    assert Values([c]) == if Valid(c) then [ValueOf(c)] else [];
    if c.Some? {
      StrictIff(c.value, v);
      assert Values([c]) == [v] <==> StrToInt64(c.value) == Value(v);
    }
  }

  // ----- the scan

  /** The running sum, in 64 bits, and the running extrema of the values seen so far. */
  ghost predicate TallyOk(sum: int, max: int, min: int, seen: seq<int>) {
    sum == Wrap64(Sum(seen)) && max == MaxFrom(-TWO63, seen) && min == MinFrom(TWO63 - 1, seen)
  }

  lemma TallyNext(sum: int, max: int, min: int, seen: seq<int>, x: int)
    requires TallyOk(sum, max, min, seen)
    ensures TallyOk(Wrap64(sum + x), if x > max then x else max, if x < min then x else min, seen + [x])
  {
    assert (seen + [x])[..|seen|] == seen;
    WrapUnique(Wrap64(Sum(seen)) + x, Sum(seen) + x, Turns(Sum(seen)));
  }

  lemma ScanNext(cells: seq<Cell>, j: nat)
    requires j < |cells|
    ensures Values(cells[..j + 1]) == Values(cells[..j]) + (if Valid(cells[j]) then [ValueOf(cells[j])] else [])
    ensures AbnormalIn(cells[..j + 1]) == AbnormalIn(cells[..j]) + (if Abnormal(cells[j]) then [j] else [])
    ensures NullsIn(cells[..j + 1]) == NullsIn(cells[..j]) + (if cells[j].None? then 1 else 0)
  {
    assert cells[..j + 1][..j] == cells[..j] && cells[..j + 1][j] == cells[j];
  }

  /** Where the scan stands after the first j cells of a chunk. */
  ghost predicate ScanOk(cells: seq<Cell>, j: nat, sum: int, max: int, min: int, bad: seq<nat>, nulls: nat, seen0: seq<int>)
    requires j <= |cells|
  {
    && TallyOk(sum, max, min, seen0 + Values(cells[..j]))
    && bad == AbnormalIn(cells[..j]) && nulls == NullsIn(cells[..j])
  }

  lemma ScanStart(cells: seq<Cell>, sum: int, max: int, min: int, seen0: seq<int>)
    requires TallyOk(sum, max, min, seen0)
    ensures ScanOk(cells, 0, sum, max, min, [], 0, seen0)
  {
    assert cells[..0] == [] && seen0 + Values([]) == seen0;
  }

  lemma ScanEnd(cells: seq<Cell>, sum: int, max: int, min: int, bad: seq<nat>, nulls: nat, seen0: seq<int>)
    requires ScanOk(cells, |cells|, sum, max, min, bad, nulls, seen0)
    ensures TallyOk(sum, max, min, seen0 + Values(cells)) && bad == AbnormalIn(cells) && nulls == NullsIn(cells)
  {
    assert cells[..|cells|] == cells;
  }

  lemma ScanInvalid(cells: seq<Cell>, j: nat, sum: int, max: int, min: int, bad: seq<nat>, nulls: nat, seen0: seq<int>)
    requires j < |cells| && ScanOk(cells, j, sum, max, min, bad, nulls, seen0) && !Valid(cells[j])
    ensures cells[j].None? ==> ScanOk(cells, j + 1, sum, max, min, bad, nulls + 1, seen0)
    ensures cells[j].Some? ==> ScanOk(cells, j + 1, sum, max, min, bad + [j], nulls, seen0)
  {
    ScanNext(cells, j);
    assert Values(cells[..j]) + [] == Values(cells[..j]);
    assert bad + [] == bad;
  }

  lemma ScanValid(cells: seq<Cell>, j: nat, sum: int, max: int, min: int, bad: seq<nat>, nulls: nat, seen0: seq<int>)
    requires j < |cells| && ScanOk(cells, j, sum, max, min, bad, nulls, seen0) && Valid(cells[j])
    ensures var x := ValueOf(cells[j]);
            ScanOk(cells, j + 1, Wrap64(sum + x), if x > max then x else max, if x < min then x else min, bad, nulls, seen0)
  {
    hide TallyOk;
    hide StrToInt64;
    var x, seen := ValueOf(cells[j]), seen0 + Values(cells[..j]);
    ScanNext(cells, j);
    TallyNext(sum, max, min, seen, x);
    assert seen + [x] == seen0 + Values(cells[..j + 1]);
    assert bad + [] == bad;
  }

  /** One chunk: null cells are skipped, cells that do not convert are recorded. */
  method ScanChunk(cells: seq<Cell>, sum0: int, max0: int, min0: int, ghost seen0: seq<int>)
    returns (sum: int, max: int, min: int, bad: seq<nat>, nulls: nat)
    requires TallyOk(sum0, max0, min0, seen0)
    ensures TallyOk(sum, max, min, seen0 + Values(cells))
    ensures bad == AbnormalIn(cells) && nulls == NullsIn(cells)
  {
    hide ScanOk;
    hide TallyOk;
    hide StrToInt64;
    hide Wrap64;
    hide Values;
    hide AbnormalIn;
    hide NullsIn;
    sum, max, min, bad, nulls := sum0, max0, min0, [], 0;
    var j := 0;
    ScanStart(cells, sum, max, min, seen0);
    while j < |cells|
      invariant 0 <= j <= |cells|
      invariant ScanOk(cells, j, sum, max, min, bad, nulls, seen0)
    {
      if cells[j].None? {
        ScanInvalid(cells, j, sum, max, min, bad, nulls, seen0);
        nulls := nulls + 1;
      } else {
        var r := StrToInt64(cells[j].value);
        if !r.Value? {
          ScanInvalid(cells, j, sum, max, min, bad, nulls, seen0);
          bad := bad + [j];
        } else {
          ScanValid(cells, j, sum, max, min, bad, nulls, seen0);
          max := if r.i > max then r.i else max;
          min := if r.i < min then r.i else min;
          sum := Wrap64(sum + r.i);
        }
      }
      j := j + 1;
    }
    ScanEnd(cells, sum, max, min, bad, nulls, seen0);
  }

  /** The whole column: extrema and sum of the valid cells, their number in 32 bits, and where the bad
      ones are. */
  method ScanColumn(chunks: Chunks) returns (sum: int, max: int, min: int, count: nat, abnormal: seq<seq<nat>>)
    ensures TallyOk(sum, max, min, Values(Flat(chunks)))
    ensures count == |Values(Flat(chunks))| % TWO32
    ensures |abnormal| == |chunks| && forall k | 0 <= k < |chunks| :: abnormal[k] == AbnormalIn(chunks[k])
  {
    sum, max, min, abnormal := 0, -TWO63, TWO63 - 1, [];
    assert TallyOk(sum, max, min, Values(Flat(chunks[..0])));
    hide TallyOk;
    hide Values;
    hide AbnormalIn;
    hide NullsIn;
    assert |Values([])| == 0 by { CellsCounted([]); }
    assert Flat(chunks[..0]) == [];
    hide Flat;
    var nulls, bads, rows, k := 0, 0, 0, 0;
    while k < |chunks|
      invariant 0 <= k <= |chunks|
      invariant TallyOk(sum, max, min, Values(Flat(chunks[..k])))
      invariant |abnormal| == k && forall i | 0 <= i < k :: abnormal[i] == AbnormalIn(chunks[i])
      invariant rows == |Flat(chunks[..k])|
      invariant rows - nulls - bads == |Values(Flat(chunks[..k]))|
    {
      var bad, newNulls;
      FlatNext(chunks, k);
      ValuesConcat(Flat(chunks[..k]), chunks[k]);
      CellsCounted(chunks[k]);
      sum, max, min, bad, newNulls := ScanChunk(chunks[k], sum, max, min, Values(Flat(chunks[..k])));
      abnormal := abnormal + [bad];
      nulls, bads, rows := nulls + newNulls, bads + |bad|, rows + |chunks[k]|;
      k := k + 1;
    }
    assert chunks[..k] == chunks;
    count := (rows - nulls - bads) % TWO32;
  }

  // ----- the repair

  function Repaired(cells: seq<Cell>, r: int): (out: seq<int>)
    ensures |out| == |cells|
    ensures forall k | 0 <= k < |cells| :: out[k] == if Valid(cells[k]) then ValueOf(cells[k]) else r
  {
    if cells == [] then []
    else
      var last := cells[|cells| - 1];
      Repaired(cells[..|cells| - 1], r) + [if Valid(last) then ValueOf(last) else r]
  }

  lemma {:induction false} RepairedConcat(a: seq<Cell>, b: seq<Cell>, r: int)
    ensures Repaired(a + b, r) == Repaired(a, r) + Repaired(b, r)
  {
    if b == [] {
      assert a + b == a;
    } else {
      assert (a + b)[..|a + b| - 1] == a + b[..|b| - 1];
      RepairedConcat(a, b[..|b| - 1], r);
    }
  }

  lemma {:induction false} AbnormalIff(cells: seq<Cell>, j: nat)
    requires j < |cells|
    ensures j in AbnormalIn(cells) <==> Abnormal(cells[j])
  {
    var n := |cells| - 1;
    if j < n {
      AbnormalIff(cells[..n], j);
    } else {
      assert forall i | 0 <= i < |AbnormalIn(cells[..n])| :: AbnormalIn(cells[..n])[i] < n;
    }
  }

  function Filled(c: Cell, text: string): string {
    if Valid(c) then c.value else text
  }

  lemma AllFilled(cells: seq<Cell>, text: string, out: seq<string>)
    requires |out| == |cells|
    requires forall j | 0 <= j < |cells| ::
               out[j] == if cells[j].None? || j in AbnormalIn(cells) then text else cells[j].value
    ensures forall j | 0 <= j < |cells| :: out[j] == Filled(cells[j], text)
  {
    forall j | 0 <= j < |cells| ensures out[j] == Filled(cells[j], text) {
      AbnormalIff(cells, j);
    }
  }

  /** One chunk as texts: nulls replaced while copying, recorded cells overwritten afterwards. */
  method FillChunk(cells: seq<Cell>, text: string, bad: seq<nat>) returns (out: seq<string>)
    requires bad == AbnormalIn(cells)
    ensures |out| == |cells| && forall j | 0 <= j < |cells| :: out[j] == Filled(cells[j], text)
  {
    hide Valid;
    hide AbnormalIn;
    out := [];
    for j := 0 to |cells|
      invariant |out| == j
      invariant forall i | 0 <= i < j :: out[i] == if cells[i].None? then text else cells[i].value
    {
      out := out + [if cells[j].None? then text else cells[j].value];
    }
    for i := 0 to |bad|
      invariant |out| == |cells|
      invariant forall j | 0 <= j < |cells| ::
                  out[j] == if cells[j].None? || j in bad[..i] then text else cells[j].value
    {
      out := out[bad[i] := text];
    }
    assert bad[..|bad|] == bad;
    AllFilled(cells, text, out);
  }

  /** The new column. `failed` is a conversion that throws; it never happens, because the recorded
      indices are exactly the cells that would not convert. */
  method BuildNewColumn(chunks: Chunks, r: int, abnormal: seq<seq<nat>>) returns (out: seq<int>, failed: bool)
    requires IsI64(r)
    requires |abnormal| == |chunks| && forall k | 0 <= k < |chunks| :: abnormal[k] == AbnormalIn(chunks[k])
    ensures !failed && out == Repaired(Flat(chunks), r)
  {
    var text := IntText(r);
    IntRoundTrip(r);
    out, failed := [], false;
    for k := 0 to |chunks|
      invariant !failed && out == Repaired(Flat(chunks[..k]), r)
    {
      assert chunks[..k + 1][..k] == chunks[..k];
      RepairedConcat(Flat(chunks[..k]), chunks[k], r);
      var texts := FillChunk(chunks[k], text, abnormal[k]);
      var part;
      part, failed := ConvertAll(texts, chunks[k], r);
      out := out + part;
    }
    assert chunks[..|chunks|] == chunks;
  }

  method ConvertAll(texts: seq<string>, ghost cells: seq<Cell>, ghost r: int) returns (out: seq<int>, failed: bool)
    requires IsI64(r) && |texts| == |cells| && Stoll(IntText(r)) == Value(r)
    requires forall j | 0 <= j < |cells| :: texts[j] == Filled(cells[j], IntText(r))
    ensures !failed && out == Repaired(cells, r)
  {
    out, failed := [], false;
    for j := 0 to |texts|
      invariant !failed && out == Repaired(cells[..j], r)
    {
      assert cells[..j + 1][..j] == cells[..j];
      if Valid(cells[j]) { StrictIsStoll(cells[j].value); }
      var v := Stoll(texts[j]);
      if !v.Value? { failed := true; return; }
      out := out + [v.i];
    }
    assert cells[..|texts|] == cells;
  }
}
