/** Splitting a table into training and test matrices.

Columns come in chunks. The first four fifths of every chunk of the label column, rounded down, go to
the training part. Every other column is cut at the label's quotas, chunk by chunk, whether or not its
own chunks are as long as the label's. Column 0 of both matrices is the constant bias.
*/
module TrainTestSplit {

  type Column = seq<seq<real>>

  /** The largest whole number not above four fifths of the length. */
  function Quota(len: nat): (q: nat)
    ensures 5 * q <= 4 * len < 5 * (q + 1)
  {
    4 * len / 5
  }

  function Layout(col: Column): (lens: seq<nat>)
    ensures |lens| == |col| && forall k | 0 <= k < |col| :: lens[k] == |col[k]|
  {
    seq(|col|, k requires 0 <= k < |col| => |col[k]|)
  }

  function Quotas(lens: seq<nat>): (qs: seq<nat>)
    ensures |qs| == |lens| && forall k | 0 <= k < |lens| :: qs[k] == Quota(lens[k])
  {
    seq(|lens|, k requires 0 <= k < |lens| => Quota(lens[k]))
  }

  function Total(lens: seq<nat>): nat {
    if lens == [] then 0 else Total(lens[..|lens| - 1]) + lens[|lens| - 1]
  }

  function Flat(col: Column): seq<real> {
    if col == [] then [] else Flat(col[..|col| - 1]) + col[|col| - 1]
  }

  lemma {:induction false} TotalGrows(s: seq<nat>, k: nat)
    requires k <= |s|
    ensures Total(s[..k]) <= Total(s)
    ensures Total(s[..k]) == Total(s) <==> forall i | k <= i < |s| :: s[i] == 0
  {
    if k < |s| {
      var n := |s| - 1;
      assert s[..k] == s[..n][..k];
      TotalGrows(s[..n], k);
      assert forall i | k <= i < n :: s[..n][i] == s[i];
    } else {
      assert s[..k] == s;
    }
  }

  lemma TotalNext(s: seq<nat>, k: nat)
    requires k < |s|
    ensures Total(s[..k + 1]) == Total(s[..k]) + s[k]
  {
    assert s[..k + 1][..k] == s[..k];
  }

  // ----- a column cut at given quotas

  /** Every chunk has a quota and is long enough for it. */
  predicate Cuttable(lens: seq<nat>, qs: seq<nat>) {
    |lens| <= |qs| && forall k | 0 <= k < |lens| :: qs[k] <= lens[k]
  }

  /** And the quotas that no chunk uses are zero. */
  predicate Fits(lens: seq<nat>, qs: seq<nat>) {
    Cuttable(lens, qs) && forall k | |lens| <= k < |qs| :: qs[k] == 0
  }

  function TrainPart(col: Column, qs: seq<nat>): (r: seq<real>)
    requires Cuttable(Layout(col), qs)
    ensures |r| == Total(qs[..|col|])
  {
    if col == [] then []
    else
      var n := |col| - 1;
      CutInit(col, qs);
      TotalNext(qs, n);
      TrainPart(col[..n], qs) + col[n][..qs[n]]
  }

  function TestPart(col: Column, qs: seq<nat>): (r: seq<real>)
    requires Cuttable(Layout(col), qs)
    ensures |r| + Total(qs[..|col|]) == Total(Layout(col))
  {
    if col == [] then []
    else
      var n := |col| - 1;
      CutInit(col, qs);
      TotalNext(qs, n);
      TestPart(col[..n], qs) + col[n][qs[n]..]
  }

  lemma CutInit(col: Column, qs: seq<nat>)
    requires col != [] && Cuttable(Layout(col), qs)
    ensures var n := |col| - 1;
            && Layout(col[..n]) == Layout(col)[..n] && Cuttable(Layout(col[..n]), qs)
            && qs[n] <= |col[n]| && Total(Layout(col)) == Total(Layout(col[..n])) + |col[n]|
  {
    var n := |col| - 1;
    assert Layout(col[..n]) == Layout(col)[..n];
    assert Layout(col)[n] == |col[n]|;
  }

  lemma {:induction false} FlatLength(col: Column)
    ensures |Flat(col)| == Total(Layout(col))
  {
    if col != [] {
      assert Layout(col)[..|col| - 1] == Layout(col[..|col| - 1]);
      FlatLength(col[..|col| - 1]);
    }
  }

  // ----- the loops

  /** The first rows of column c hold these values. */
  ghost predicate Holds(m: array2<real>, c: nat, values: seq<real>)
    reads m
    requires c < m.Length1
  {
    |values| <= m.Length0 && forall r | 0 <= r < |values| :: m[r, c] == values[r]
  }

  twostate predicate OthersKept(m: array2<real>, c: nat)
    reads m
  {
    forall r, j | 0 <= r < m.Length0 && 0 <= j < m.Length1 && j != c :: m[r, j] == old(m[r, j])
  }

  /** Values written one below the other, under those that are there already. */
  method AppendTo(m: array2<real>, c: nat, ghost above: seq<real>, start: nat, values: seq<real>)
    requires c < m.Length1 && start == |above| && start + |values| <= m.Length0
    requires Holds(m, c, above)
    modifies m
    ensures Holds(m, c, above + values) && OthersKept(m, c)
  {
    var i := 0;
    assert above + values[..0] == above;
    while i < |values|
      invariant 0 <= i <= |values|
      invariant Holds(m, c, above + values[..i]) && OthersKept(m, c)
    {
      m[start + i, c] := values[i];
      assert above + values[..i + 1] == above + values[..i] + [values[i]];
      i := i + 1;
    }
    assert values[..i] == values;
  }

  /** One chunk into one column of both matrices. */
  method FillTrainAndTestData(train: array2<real>, test: array2<real>, chunk: seq<real>, quota: nat, c: nat,
                              trainStart: nat, testStart: nat, ghost a: seq<real>, ghost b: seq<real>)
    requires train != test && c < train.Length1 && c < test.Length1 && quota <= |chunk|
    requires trainStart == |a| && trainStart + quota <= train.Length0
    requires testStart == |b| && testStart + (|chunk| - quota) <= test.Length0
    requires Holds(train, c, a) && Holds(test, c, b)
    modifies train, test
    ensures Holds(train, c, a + chunk[..quota]) && Holds(test, c, b + chunk[quota..])
    ensures OthersKept(train, c) && OthersKept(test, c)
  {
    AppendTo(train, c, a, trainStart, chunk[..quota]);
    AppendTo(test, c, b, testStart, chunk[quota..]);
  }

  /** Where the filling of a column stands after its first k chunks. */
  ghost predicate FilledTo(train: array2<real>, test: array2<real>, c: nat, col: Column, qs: seq<nat>, k: nat,
                           trainStart: nat, testStart: nat)
    reads train, test
    requires c < train.Length1 && c < test.Length1 && k <= |col|
  {
    && Cuttable(Layout(col[..k]), qs)
    && Holds(train, c, TrainPart(col[..k], qs)) && Holds(test, c, TestPart(col[..k], qs))
    && trainStart == |TrainPart(col[..k], qs)| && testStart == |TestPart(col[..k], qs)|
  }

  lemma PartsLast(col: Column, qs: seq<nat>)
    requires col != [] && Cuttable(Layout(col), qs)
    ensures var n := |col| - 1;
            && Cuttable(Layout(col[..n]), qs) && qs[n] <= |col[n]|
            && TrainPart(col, qs) == TrainPart(col[..n], qs) + col[n][..qs[n]]
            && TestPart(col, qs) == TestPart(col[..n], qs) + col[n][qs[n]..]
  {
    CutInit(col, qs);
    hide Total;
  }

  lemma CutNext(col: Column, qs: seq<nat>, k: nat)
    requires k < |col| && k < |qs| && qs[k] <= |col[k]| && Cuttable(Layout(col[..k]), qs)
    ensures Cuttable(Layout(col[..k + 1]), qs)
  {
    var next := col[..k + 1];
    assert Layout(next)[..k] == Layout(col[..k]) && Layout(next)[k] == |col[k]|;
  }

  lemma PartsNext(col: Column, qs: seq<nat>, k: nat)
    requires k < |col| && k < |qs| && qs[k] <= |col[k]| && Cuttable(Layout(col[..k]), qs)
    ensures Cuttable(Layout(col[..k + 1]), qs)
    ensures TrainPart(col[..k + 1], qs) == TrainPart(col[..k], qs) + col[k][..qs[k]]
    ensures TestPart(col[..k + 1], qs) == TestPart(col[..k], qs) + col[k][qs[k]..]
  {
    CutNext(col, qs, k);
    hide TrainPart;
    hide TestPart;
    hide Cuttable;
    hide Layout;
    hide Total;
    PartsLast(col[..k + 1], qs);
    assert col[..k + 1][..k] == col[..k];
  }

  /** What goes to the test part only grows. */
  lemma {:induction false} RestGrows(lens: seq<nat>, qs: seq<nat>, k: nat)
    requires k <= |lens| && Cuttable(lens, qs)
    ensures Total(lens[..k]) + Total(qs[..|lens|]) <= Total(lens) + Total(qs[..k])
  {
    if k < |lens| {
      var n := |lens| - 1;
      TotalNext(qs, n);
      assert lens[..n][..k] == lens[..k];
      RestGrows(lens[..n], qs, k);
    } else {
      assert lens[..k] == lens;
    }
  }

  /** In a column that fits, each chunk can be read and written inside all bounds. */
  lemma ChunkFits(col: Column, qs: seq<nat>, k: nat, rows: nat)
    requires k < |col| && Cuttable(Layout(col[..k]), qs) && rows + Total(qs) == Total(Layout(col))
    ensures k < |qs| ==> |TrainPart(col[..k], qs)| + qs[k] <= Total(qs)
    ensures Fits(Layout(col), qs) ==>
              k < |qs| && qs[k] <= |col[k]| && |TestPart(col[..k], qs)| + (|col[k]| - qs[k]) <= rows
  {
    hide TrainPart;
    hide TestPart;
    var lens := Layout(col);
    assert Layout(col[..k]) == lens[..k] && lens[k] == |col[k]|;
    if k < |qs| {
      TotalNext(qs, k);
      TotalGrows(qs, k + 1);
      if Fits(lens, qs) {
        TotalNext(lens, k);
        RestGrows(lens, qs, k + 1);
        TotalGrows(qs, |col|);
      }
    }
  }

  /** One column, chunk by chunk. Fails where the original reads or writes out of bounds. */
  method FillColumn(train: array2<real>, test: array2<real>, col: Column, qs: seq<nat>, c: nat) returns (ok: bool)
    requires train != test && c < train.Length1 && c < test.Length1
    requires train.Length0 == Total(qs) && test.Length0 + Total(qs) == Total(Layout(col))
    modifies train, test
    ensures ok <==> Fits(Layout(col), qs)
    ensures ok ==> Holds(train, c, TrainPart(col, qs)) && Holds(test, c, TestPart(col, qs))
    ensures OthersKept(train, c) && OthersKept(test, c)
  {
    hide Total;
    hide TrainPart;
    hide TestPart;
    var trainStart, testStart, k := 0, 0, 0;
    NothingYet(col, qs);
    while k < |col|
      invariant 0 <= k <= |col| && 0 <= trainStart && 0 <= testStart
      invariant FilledTo(train, test, c, col, qs, k, trainStart, testStart)
      invariant OthersKept(train, c) && OthersKept(test, c)
    {
      ChunkFits(col, qs, k, test.Length0);
      if k >= |qs| || qs[k] > |col[k]| || testStart + (|col[k]| - qs[k]) > test.Length0 { return false; }
      PartsNext(col, qs, k);
      FillTrainAndTestData(train, test, col[k], qs[k], c, trainStart, testStart,
                           TrainPart(col[..k], qs), TestPart(col[..k], qs));
      trainStart, testStart := trainStart + qs[k], testStart + (|col[k]| - qs[k]);
      k := k + 1;
    }
    assert col[..k] == col;
    TotalGrows(qs, |col|);
    return true;
  }

  lemma NothingYet(col: Column, qs: seq<nat>)
    ensures Cuttable(Layout(col[..0]), qs) && TrainPart(col[..0], qs) == [] && TestPart(col[..0], qs) == []
  {
    assert Layout(col[..0]) == [];
  }

  datatype Status = Loaded | Raised | OutOfBounds

  predicate SameTotals(cols: seq<Column>)
    requires cols != []
  {
    forall i | 0 <= i < |cols| :: Total(Layout(cols[i])) == Total(Layout(cols[|cols| - 1]))
  }

  function LabelQuotas(cols: seq<Column>): seq<nat>
    requires cols != []
  {
    Quotas(Layout(cols[|cols| - 1]))
  }

  predicate AllFit(cols: seq<Column>, upTo: nat)
    requires cols != [] && upTo <= |cols|
  {
    forall i | 0 <= i < upTo :: Fits(Layout(cols[i]), LabelQuotas(cols))
  }

  /** The bias in column 0, and the parts of the first columns in the next ones. */
  ghost predicate Filled(train: array2<real>, test: array2<real>, cols: seq<Column>, upTo: nat)
    reads train, test
    requires cols != [] && upTo <= |cols| && train.Length1 == test.Length1 == |cols| + 1
  {
    && AllFit(cols, upTo)
    && (forall r | 0 <= r < train.Length0 :: train[r, 0] == 1.0)
    && (forall r | 0 <= r < test.Length0 :: test[r, 0] == 1.0)
    && (forall i | 0 <= i < upTo ::
          Holds(train, i + 1, TrainPart(cols[i], LabelQuotas(cols))) && Holds(test, i + 1, TestPart(cols[i], LabelQuotas(cols))))
  }

  method FillNext(train: array2<real>, test: array2<real>, cols: seq<Column>, i: nat) returns (ok: bool)
    requires i < |cols| && train != test && train.Length1 == test.Length1 == |cols| + 1
    requires train.Length0 == Total(LabelQuotas(cols))
    requires test.Length0 + Total(LabelQuotas(cols)) == Total(Layout(cols[i]))
    requires Filled(train, test, cols, i)
    modifies train, test
    ensures ok <==> Fits(Layout(cols[i]), LabelQuotas(cols))
    ensures ok ==> Filled(train, test, cols, i + 1)
  {
    hide Total;
    hide Cuttable;
    hide TrainPart;
    hide TestPart;
    hide LabelQuotas;
    var qs := LabelQuotas(cols);
    ok := FillColumn(train, test, cols[i], qs, i + 1);
    if ok {
      forall k | 0 <= k < i + 1
        ensures Fits(Layout(cols[k]), qs)
        ensures Holds(train, k + 1, TrainPart(cols[k], qs)) && Holds(test, k + 1, TestPart(cols[k], qs))
      {
        if k < i {
          assert old(Holds(train, k + 1, TrainPart(cols[k], qs)));
          assert old(Holds(test, k + 1, TestPart(cols[k], qs)));
        }
      }
    }
  }

  method NewMatrix(rows: nat, columns: nat) returns (m: array2<real>)
    requires columns > 0
    ensures fresh(m) && m.Length0 == rows && m.Length1 == columns
    ensures forall r | 0 <= r < rows :: m[r, 0] == 1.0
  {
    m := new real[rows, columns];
    for r := 0 to rows
      invariant forall k | 0 <= k < r :: m[k, 0] == 1.0
    {
      m[r, 0] := 1.0;
    }
  }

  lemma {:induction false} QuotasInside(lens: seq<nat>)
    ensures Total(Quotas(lens)) <= Total(lens)
  {
    if lens != [] {
      var n := |lens| - 1;
      assert Quotas(lens)[..n] == Quotas(lens[..n]);
      QuotasInside(lens[..n]);
    }
  }

  /** One number for each chunk: the largest whole number not above four fifths of its length. */
  predicate FourFifths(col: Column, qs: seq<nat>) {
    |qs| == |col| && forall k | 0 <= k < |qs| :: 5 * qs[k] <= 4 * |col[k]| < 5 * (qs[k] + 1)
  }

  lemma QuotasAreFourFifths(col: Column, qs: seq<nat>)
    requires FourFifths(col, qs)
    ensures qs == Quotas(Layout(col))
  {
    forall k | 0 <= k < |qs| ensures qs[k] == Quotas(Layout(col))[k] {
      assert 5 * Quota(|col[k]|) <= 4 * |col[k]| < 5 * (Quota(|col[k]|) + 1);
    }
  }

  /** The whole table; the label column is the last one. Raises exactly when some column has another
      length; otherwise goes out of bounds exactly when some column does not fit the label's quotas. */
  method LoadDataset(cols: seq<Column>) returns (status: Status, train: array2<real>, test: array2<real>)
    requires cols != []
    ensures status == Raised <==> !SameTotals(cols)
    ensures status == Loaded <==> SameTotals(cols) && AllFit(cols, |cols|)
    ensures train.Length1 == test.Length1 == |cols| + 1
    ensures train.Length0 == Total(LabelQuotas(cols))
    ensures forall qs: seq<nat> | FourFifths(cols[|cols| - 1], qs) :: train.Length0 == Total(qs)
    ensures train.Length0 + test.Length0 == Total(Layout(cols[|cols| - 1]))
    ensures status == Loaded ==> Filled(train, test, cols, |cols|)
  {
    hide Total;
    hide Fits;
    hide TrainPart;
    hide TestPart;
    var lens := Layout(cols[|cols| - 1]);
    QuotasInside(lens);
    forall qs: seq<nat> | FourFifths(cols[|cols| - 1], qs) ensures Total(qs) == Total(Quotas(lens)) {
      QuotasAreFourFifths(cols[|cols| - 1], qs);
    }
    hide FourFifths;
    var length := Total(lens);
    train := NewMatrix(Total(Quotas(lens)), |cols| + 1);
    test := NewMatrix(length - Total(Quotas(lens)), |cols| + 1);
    var same := SameLengths(cols);
    if !same { return Raised, train, test; }
    for i := 0 to |cols|
      invariant fresh(train) && fresh(test) && train != test
      invariant Filled(train, test, cols, i)
    {
      var ok := FillNext(train, test, cols, i);
      if !ok { return OutOfBounds, train, test; }
    }
    return Loaded, train, test;
  }

  method SameLengths(cols: seq<Column>) returns (same: bool)
    requires cols != []
    ensures same <==> SameTotals(cols)
  {
    var want := Total(Layout(cols[|cols| - 1]));
    for i := 0 to |cols| - 1
      invariant forall k | 0 <= k < i :: Total(Layout(cols[k])) == want
    {
      if Total(Layout(cols[i])) != want { return false; }
    }
    return true;
  }

  // ----- where each row goes

  datatype Place = Place(inTrain: bool, row: nat)

  /** The destination of source row r of a column with these chunk lengths. */
  function Destination(lens: seq<nat>, qs: seq<nat>, r: nat): Place
    requires Cuttable(lens, qs) && r < Total(lens)
  {
    var n := |lens| - 1;
    var init := lens[..n];
    if r < Total(init) then Destination(init, qs, r)
    else
      var i := r - Total(init);
      if i < qs[n] then Place(true, Total(qs[..n]) + i)
      else
        QuotasBelow(init, qs);
        Place(false, Total(init) - Total(qs[..n]) + (i - qs[n]))
  }

  lemma {:induction false} QuotasBelow(lens: seq<nat>, qs: seq<nat>)
    requires Cuttable(lens, qs)
    ensures Total(qs[..|lens|]) <= Total(lens)
  {
    if lens != [] {
      var n := |lens| - 1;
      TotalNext(qs, n);
      QuotasBelow(lens[..n], qs);
    }
  }

  /** The value of source row r is found at its destination. */
  lemma {:induction false} FoundAtDestination(col: Column, qs: seq<nat>, r: nat)
    requires Cuttable(Layout(col), qs) && r < Total(Layout(col))
    ensures |Flat(col)| == Total(Layout(col))
    ensures var d := Destination(Layout(col), qs, r);
            if d.inTrain then d.row < |TrainPart(col, qs)| && TrainPart(col, qs)[d.row] == Flat(col)[r]
            else d.row < |TestPart(col, qs)| && TestPart(col, qs)[d.row] == Flat(col)[r]
    decreases |col|
  {
    FlatLength(col);
    var n := |col| - 1;
    CutInit(col, qs);
    FlatLength(col[..n]);
    if r < Total(Layout(col[..n])) {
      FoundAtDestination(col[..n], qs, r);
    }
  }

  predicate InBounds(lens: seq<nat>, qs: seq<nat>, p: Place)
    requires |lens| <= |qs|
  {
    if p.inTrain then p.row < Total(qs[..|lens|]) else p.row + Total(qs[..|lens|]) < Total(lens)
  }

  lemma {:induction false} DestinationInBounds(lens: seq<nat>, qs: seq<nat>, r: nat)
    requires Cuttable(lens, qs) && r < Total(lens)
    ensures InBounds(lens, qs, Destination(lens, qs, r))
    decreases |lens|
  {
    var n := |lens| - 1;
    TotalNext(qs, n);
    QuotasBelow(lens[..n], qs);
    if r < Total(lens[..n]) { DestinationInBounds(lens[..n], qs, r); }
  }

  /** Order is preserved within each part, so no two rows share a destination. */
  lemma {:induction false} OrderKept(lens: seq<nat>, qs: seq<nat>, r: nat, r': nat)
    requires Cuttable(lens, qs) && r < r' < Total(lens)
    ensures var d, d' := Destination(lens, qs, r), Destination(lens, qs, r');
            d.inTrain == d'.inTrain ==> d.row < d'.row
    ensures InBounds(lens, qs, Destination(lens, qs, r))
    decreases |lens|
  {
    var n := |lens| - 1;
    var init := lens[..n];
    DestinationInBounds(lens, qs, r);
    QuotasBelow(init, qs);
    if r' < Total(init) {
      OrderKept(init, qs, r, r');
    } else if r < Total(init) {
      DestinationInBounds(init, qs, r);
    }
  }

  /** And every row of either part comes from some source row. */
  lemma {:induction false} EveryRowFilled(lens: seq<nat>, qs: seq<nat>, p: Place) returns (r: nat)
    requires Cuttable(lens, qs) && InBounds(lens, qs, p)
    ensures r < Total(lens) && Destination(lens, qs, r) == p
    decreases |lens|
  {
    var n := |lens| - 1;
    var init := lens[..n];
    TotalNext(qs, n);
    QuotasBelow(init, qs);
    if InBounds(init, qs, p) {
      r := EveryRowFilled(init, qs, p);
    } else if p.inTrain {
      r := Total(init) + (p.row - Total(qs[..n]));
    } else {
      r := Total(init) + qs[n] + (p.row - (Total(init) - Total(qs[..n])));
    }
  }

  // ----- when columns that are chunked differently stay together

  /** How many of the source rows before r go to the training part. */
  function Before(lens: seq<nat>, qs: seq<nat>, r: nat): nat
    requires Cuttable(lens, qs) && r <= Total(lens)
  {
    if lens == [] then 0
    else
      var n := |lens| - 1;
      var start := Total(lens[..n]);
      if r <= start then Before(lens[..n], qs, r)
      else Total(qs[..n]) + (if r - start < qs[n] then r - start else qs[n])
  }

  lemma {:induction false} BeforeEnd(lens: seq<nat>, qs: seq<nat>)
    requires Cuttable(lens, qs)
    ensures Before(lens, qs, Total(lens)) == Total(qs[..|lens|])
  {
    if lens != [] {
      var n := |lens| - 1;
      TotalNext(qs, n);
      BeforeEnd(lens[..n], qs);
    }
  }

  /** A destination is the number of rows before it that go the same way. */
  lemma {:induction false} DestinationIs(lens: seq<nat>, qs: seq<nat>, r: nat)
    requires Cuttable(lens, qs) && r < Total(lens)
    ensures var d, b := Destination(lens, qs, r), Before(lens, qs, r);
            && d.row == (if d.inTrain then b else r - b)
            && Before(lens, qs, r + 1) == (if d.inTrain then b + 1 else b)
    decreases |lens|
  {
    var n := |lens| - 1;
    var init := lens[..n];
    if r < Total(init) {
      DestinationIs(init, qs, r);
    } else {
      BeforeEnd(init, qs);
      QuotasBelow(init, qs);
    }
  }

  /** Row r is one of the first of some chunk. */
  ghost predicate AtStart(lens: seq<nat>, qs: seq<nat>, r: nat)
    requires |lens| <= |qs|
  {
    exists k :: 0 <= k < |lens| && Total(lens[..k]) <= r < Total(lens[..k]) + qs[k]
  }

  lemma {:induction false} TrainIff(lens: seq<nat>, qs: seq<nat>, r: nat)
    requires Cuttable(lens, qs) && r < Total(lens)
    ensures Destination(lens, qs, r).inTrain <==> AtStart(lens, qs, r)
    decreases |lens|
  {
    var n := |lens| - 1;
    var init := lens[..n];
    assert forall k | 0 <= k <= n :: init[..k] == lens[..k];
    forall k | 0 <= k < n ensures Total(lens[..k]) + qs[k] <= Total(init) {
      TotalNext(lens, k);
      TotalGrows(init, k + 1);
    }
    if r < Total(init) {
      TrainIff(init, qs, r);
    } else if r < Total(init) + qs[n] {
      assert Total(lens[..n]) <= r < Total(lens[..n]) + qs[n];
    }
  }

  /** Chunks that give rows to the training part start at the same row in both layouts. */
  predicate SameCut(a: seq<nat>, b: seq<nat>, qs: seq<nat>)
    requires Fits(a, qs) && Fits(b, qs)
  {
    forall k | 0 <= k < |qs| && qs[k] > 0 :: Total(a[..k]) == Total(b[..k])
  }

  lemma SameCutSameWay(a: seq<nat>, b: seq<nat>, qs: seq<nat>, r: nat)
    requires Fits(a, qs) && Fits(b, qs) && SameCut(a, b, qs) && r < Total(a) && r < Total(b)
    ensures Destination(a, qs, r).inTrain == Destination(b, qs, r).inTrain
  {
    TrainIff(a, qs, r);
    TrainIff(b, qs, r);
    hide Destination;
    if AtStart(a, qs, r) {
      var k :| 0 <= k < |a| && Total(a[..k]) <= r < Total(a[..k]) + qs[k];
      assert Total(b[..k]) <= r < Total(b[..k]) + qs[k];
    }
    if AtStart(b, qs, r) {
      var k :| 0 <= k < |b| && Total(b[..k]) <= r < Total(b[..k]) + qs[k];
      assert Total(a[..k]) <= r < Total(a[..k]) + qs[k];
    }
  }

  lemma {:induction false} SameBefore(a: seq<nat>, b: seq<nat>, qs: seq<nat>, r: nat)
    requires Fits(a, qs) && Fits(b, qs) && SameCut(a, b, qs) && r <= Total(a) && r <= Total(b)
    ensures Before(a, qs, r) == Before(b, qs, r)
    decreases r
  {
    hide Before;
    hide Destination;
    hide SameCut;
    hide Total;
    if r == 0 {
      NoneBefore(a, qs);
      NoneBefore(b, qs);
    } else {
      SameBefore(a, b, qs, r - 1);
      SameCutSameWay(a, b, qs, r - 1);
      DestinationIs(a, qs, r - 1);
      DestinationIs(b, qs, r - 1);
    }
  }

  lemma {:induction false} NoneBefore(lens: seq<nat>, qs: seq<nat>)
    requires Cuttable(lens, qs)
    ensures Before(lens, qs, 0) == 0
  {
    if lens != [] { NoneBefore(lens[..|lens| - 1], qs); }
  }

  /** The first row of a chunk with a quota. */
  lemma {:induction false} StartOf(lens: seq<nat>, qs: seq<nat>, k: nat)
    requires Cuttable(lens, qs) && k < |lens| && qs[k] > 0
    ensures Total(lens[..k]) < Total(lens)
    ensures Destination(lens, qs, Total(lens[..k])) == Place(true, Total(qs[..k]))
    decreases |lens|
  {
    var n := |lens| - 1;
    if k < n {
      assert lens[..n][..k] == lens[..k];
      StartOf(lens[..n], qs, k);
    }
  }

  ghost predicate SameDestinations(a: seq<nat>, b: seq<nat>, qs: seq<nat>)
    requires Fits(a, qs) && Fits(b, qs) && Total(a) == Total(b)
  {
    forall r: nat | r < Total(a) :: Destination(a, qs, r) == Destination(b, qs, r)
  }

  /** Two columns of one length send every row to the same place exactly when all chunks that give rows
      to the training part start at the same row in both. */
  lemma SameDestinationsIff(a: seq<nat>, b: seq<nat>, qs: seq<nat>)
    requires Fits(a, qs) && Fits(b, qs) && Total(a) == Total(b)
    ensures SameDestinations(a, b, qs) <==> SameCut(a, b, qs)
  {
    hide Destination;
    if SameCut(a, b, qs) {
      forall r: nat | r < Total(a) ensures Destination(a, qs, r) == Destination(b, qs, r) {
        SameCutSameWay(a, b, qs, r);
        SameBefore(a, b, qs, r);
        DestinationIs(a, qs, r);
        DestinationIs(b, qs, r);
      }
    }
    if SameDestinations(a, b, qs) {
      forall k | 0 <= k < |qs| && qs[k] > 0 ensures Total(a[..k]) == Total(b[..k]) {
        StartOf(a, qs, k);
        StartOf(b, qs, k);
        OnePlace(b, qs, Total(a[..k]), Total(b[..k]));
      }
    }
  }

  /** Ten rows in chunks of four and six pass every check beside a label in chunks of five and five, and
      their fifth row goes to the training part while the label's goes to the test part. */
  lemma CutApart()
    ensures var qs := Quotas([5, 5]);
            Fits([4, 6], qs) && Fits([5, 5], qs) && Total([4, 6]) == Total([5, 5]) && !SameCut([4, 6], [5, 5], qs)
  {
    var qs := Quotas([5, 5]);
    assert qs[0] == 4 && qs[1] == 4;
    assert [4, 6][..1] == [4] && [5, 5][..1] == [5] && [4][..0] == [] && [5][..0] == [];
    assert Total([4]) == 4 && Total([5]) == 5;
  }

  lemma OnePlace(lens: seq<nat>, qs: seq<nat>, r: nat, r': nat)
    requires Cuttable(lens, qs) && r < Total(lens) && r' < Total(lens)
    requires Destination(lens, qs, r) == Destination(lens, qs, r')
    ensures r == r'
  {
    if r < r' {
      OrderKept(lens, qs, r, r');
    } else if r' < r {
      OrderKept(lens, qs, r', r);
    }
  }

  // ----- whole rows

  /** One row of a matrix: the bias, then the values of source row r in all columns. */
  ghost predicate HoldsRow(m: array2<real>, row: nat, cols: seq<Column>, r: nat)
    reads m
  {
    && row < m.Length0 && m.Length1 == |cols| + 1 && m[row, 0] == 1.0
    && forall i | 0 <= i < |cols| :: r < |Flat(cols[i])| && m[row, i + 1] == Flat(cols[i])[r]
  }

  predicate CutAlike(cols: seq<Column>)
    requires cols != [] && AllFit(cols, |cols|)
  {
    LabelFits(cols);
    forall i | 0 <= i < |cols| :: SameCut(Layout(cols[i]), Layout(cols[|cols| - 1]), LabelQuotas(cols))
  }

  lemma LabelFits(cols: seq<Column>)
    requires cols != []
    ensures Fits(Layout(cols[|cols| - 1]), LabelQuotas(cols))
  {
  }

  lemma ValueAtDestination(train: array2<real>, test: array2<real>, cols: seq<Column>, r: nat, i: nat)
    requires cols != [] && SameTotals(cols) && AllFit(cols, |cols|) && CutAlike(cols) && i < |cols|
    requires train.Length1 == test.Length1 == |cols| + 1 && Filled(train, test, cols, |cols|)
    requires r < Total(Layout(cols[|cols| - 1]))
    ensures var d := Destination(Layout(cols[|cols| - 1]), LabelQuotas(cols), r);
            && r < |Flat(cols[i])|
            && (if d.inTrain then d.row < train.Length0 && train[d.row, i + 1] == Flat(cols[i])[r]
                else d.row < test.Length0 && test[d.row, i + 1] == Flat(cols[i])[r])
  {
    var qs, target := LabelQuotas(cols), Layout(cols[|cols| - 1]);
    assert SameCut(Layout(cols[i]), target, qs);
    SameDestinationsIff(Layout(cols[i]), target, qs);
    FoundAtDestination(cols[i], qs, r);
    hide Destination;
    hide Total;
    hide Flat;
    hide TrainPart;
    hide TestPart;
  }

  /** The bias and all values of source row r are in one row of one of the two matrices. */
  ghost predicate Together(train: array2<real>, test: array2<real>, cols: seq<Column>, r: nat)
    reads train, test
    requires cols != [] && r < Total(Layout(cols[|cols| - 1]))
  {
    LabelFits(cols);
    var d := Destination(Layout(cols[|cols| - 1]), LabelQuotas(cols), r);
    HoldsRow(if d.inTrain then train else test, d.row, cols, r)
  }

  /** Rows stay together. */
  lemma RowsStayTogether(train: array2<real>, test: array2<real>, cols: seq<Column>, r: nat)
    requires cols != [] && SameTotals(cols) && AllFit(cols, |cols|) && CutAlike(cols)
    requires train.Length1 == test.Length1 == |cols| + 1 && Filled(train, test, cols, |cols|)
    requires r < Total(Layout(cols[|cols| - 1]))
    ensures Together(train, test, cols, r)
  {
    LabelFits(cols);
    hide Destination;
    hide Total;
    hide Flat;
    hide CutAlike;
    hide AllFit;
    forall i | 0 <= i < |cols|
      ensures var d := Destination(Layout(cols[|cols| - 1]), LabelQuotas(cols), r);
              && r < |Flat(cols[i])|
              && (if d.inTrain then d.row < train.Length0 && train[d.row, i + 1] == Flat(cols[i])[r]
                  else d.row < test.Length0 && test[d.row, i + 1] == Flat(cols[i])[r])
    {
      ValueAtDestination(train, test, cols, r, i);
    }
    ValueAtDestination(train, test, cols, r, 0);
  }

  /** Columns with the label's own chunk lengths always fit and are cut alike. */
  lemma SameLayout(cols: seq<Column>)
    requires cols != [] && forall i | 0 <= i < |cols| :: Layout(cols[i]) == Layout(cols[|cols| - 1])
    ensures SameTotals(cols) && AllFit(cols, |cols|) && CutAlike(cols)
  {
    LabelFits(cols);
  }

  /** A table split and put into matrices, row by row. */
  method LoadRows(cols: seq<Column>) returns (status: Status, train: array2<real>, test: array2<real>)
    requires cols != []
    ensures status == Loaded <==> SameTotals(cols) && AllFit(cols, |cols|)
    ensures status == Loaded && CutAlike(cols) ==>
              forall r: nat | r < Total(Layout(cols[|cols| - 1])) :: Together(train, test, cols, r)
  {
    hide Total;
    status, train, test := LoadDataset(cols);
    hide Filled;
    hide Together;
    if status == Loaded && CutAlike(cols) {
      forall r: nat | r < Total(Layout(cols[|cols| - 1])) ensures Together(train, test, cols, r) {
        RowsStayTogether(train, test, cols, r);
      }
    }
  }
}
