/** A whole job at three parties, in the order in which the executor's methods have to be called:
columns, expression, run mode, values, evaluation, reveal. */
module MpcSession {
  import opened MachineInts
  import opened Wrappers
  import opened ExpressGrammar
  import opened ExpressParser
  import opened ExpressNames
  import opened IdealMpc
  import TM = TokenMachine
  import opened MpcEvaluator
  import opened MpcProtocol
  import opened MpcTheorems
  import opened ExpressExecutor
  import opened MpcResults

  datatype Data = Ints(ints: seq<int>) | Doubles(doubles: seq<real>)

  function Size(d: Data): nat {
    if d.Ints? then |d.ints| else |d.doubles|
  }

  function DoubleRows(data: seq<real>): (r: Rows)
    ensures |r| == |data| && forall k | 0 <= k < |r| :: r[k] == FP64(data[k])
  {
    seq(|data|, k requires 0 <= k < |data| => FP64(data[k]))
  }

  function RowsFor(fp64: bool, d: Data): Rows {
    if d.Ints? then ColumnOf(fp64, d.ints) else DoubleRows(d.doubles)
  }

  /** The columns of all parties: who owns them, of which type they are, what they hold. */
  datatype Job = Job(
    owners: map<string, nat>,
    dtypes: map<string, Dtype>,
    data: map<string, Data>,
    n: nat,
    stod: string -> real,
    atol: string -> int)

  predicate AllI64(s: seq<int>) {
    forall k | 0 <= k < |s| :: IsI64(s[k])
  }

  ghost predicate ValidJob(j: Job) {
    && j.owners.Keys == j.dtypes.Keys == j.data.Keys
    && (forall c | c in j.owners :: j.owners[c] < 3)
    && (forall c | c in j.data :: Size(j.data[c]) == j.n)
    && (forall c | c in j.data :: j.data[c].Ints? <==> j.dtypes[c] == INT64)
    && (forall c | c in j.data && j.data[c].Ints? :: AllI64(j.data[c].ints))
  }

  predicate Owns(j: Job, p: nat) {
    exists c :: c in j.owners && j.owners[c] == p
  }

  /** The columns that party p brings. */
  function Mine(j: Job, p: nat): map<string, Data>
    requires j.owners.Keys == j.data.Keys
  {
    map c | c in j.owners && j.owners[c] == p :: j.data[c]
  }

  /** The row count is read as an unsigned 32-bit number; without a column it is -1. */
  function CountAt(j: Job, p: nat): nat {
    if Owns(j, p) then j.n % TWO32 else TWO32 - 1
  }

  function WorldFor(j: Job, suffix: seq<string>): World {
    var fp64 := NeedsFp64(suffix, j.dtypes);
    World(fp64, TypesOf(suffix, j.dtypes), j.owners, map c | c in j.data :: RowsFor(fp64, j.data[c]),
          j.n, [CountAt(j, 0), CountAt(j, 1), CountAt(j, 2)], j.stod, j.atol)
  }

  // ----- what follows from the way the run mode and the token types are determined

  lemma ColumnFits(j: Job, suffix: seq<string>, c: string)
    requires ValidJob(j) && c in j.data
    ensures var fp64 := NeedsFp64(suffix, j.dtypes);
            var rows := RowsFor(fp64, j.data[c]);
            |rows| == j.n && forall k | 0 <= k < j.n :: CellFits(fp64, rows[k])
  {
    if j.data[c].Doubles? {
      assert j.dtypes[c] == DOUBLE;
    }
  }

  lemma WorldIsValid(j: Job, suffix: seq<string>)
    requires ValidJob(j)
    ensures ValidWorld(WorldFor(j, suffix))
    ensures j.n < TWO32 ==> OwnersCounted(WorldFor(j, suffix))
    ensures j.n >= TWO32 ==> Starved(WorldFor(j, suffix))
  {
    hide NeedsFp64;
    hide RowsFor;
    hide CellFits;
    var w := WorldFor(j, suffix);
    forall c | c in w.cols ensures |w.cols[c]| == w.n && forall k | 0 <= k < w.n :: CellFits(w.fp64, w.cols[c][k]) {
      ColumnFits(j, suffix, c);
    }
    assert w.counts[0] == CountAt(j, 0) && w.counts[1] == CountAt(j, 1) && w.counts[2] == CountAt(j, 2);
    forall c | c in w.owner ensures w.counts[w.owner[c]] == w.n % TWO32 {
      assert Owns(j, w.owner[c]);
    }
    if j.n >= TWO32 {
      forall c | c in w.owner ensures exists p :: 0 <= p < 3 && p != w.owner[c] && w.counts[p] != w.n {
        var p := (w.owner[c] + 1) % 3;
        assert w.counts[p] < TWO32;
      }
    }
  }

  lemma {:induction false} AllKnown(j: Job, suffix: seq<string>, e: Expr)
    requires ValidJob(j) && ProperExpr(e) && forall t | t in Postorder(e) :: t in suffix
    ensures Known(WorldFor(j, suffix), e)
    decreases e
  {
    match e
    case Leaf(token) =>
      assert token in Postorder(e);
      assert !IsOpToken(token) by { LeafIsOperand(token); }
    case Node(op, l, r) =>
      AllKnown(j, suffix, l);
      AllKnown(j, suffix, r);
  }

  lemma LeafIsOperand(token: string)
    requires LeafToken(token)
    ensures !IsOpToken(token)
  {
    assert |token| == 1 ==> token[1..] == "";
  }

  /** Every leaf of the expression is a literal or an owned column, and there is no quotient in integer
      mode: whatever the columns are, the tree can be evaluated. */
  lemma AlwaysEvaluable(j: Job, e: Expr)
    requires ValidJob(j) && ProperExpr(e)
    ensures Evaluable(WorldFor(j, Postorder(e)), e)
  {
    WorldIsValid(j, Postorder(e));
    AllKnown(j, Postorder(e), e);
    DivisionInSuffix(e);
  }

  /** The jobs in which all parties work with the row count of the data: every party owns a column, and
      the count fits in 32 bits. A job of exactly 2^32 - 1 rows meets the count of a party without one. */
  predicate CountsAgree(j: Job) {
    j.n < 0x1_0000_0000 && (j.n == 0xffff_ffff || (Owns(j, 0) && Owns(j, 1) && Owns(j, 2)))
  }

  lemma SyncedIff(j: Job, suffix: seq<string>)
    ensures Synced(WorldFor(j, suffix)) <==> CountsAgree(j)
  {
    var w := WorldFor(j, suffix);
    assert w.counts == [CountAt(j, 0), CountAt(j, 1), CountAt(j, 2)];
    assert w.counts[0] == CountAt(j, 0) && w.counts[1] == CountAt(j, 1) && w.counts[2] == CountAt(j, 2);
    hide Owns;
  }

  /** Whether a job goes through depends on nothing but that. A party that only takes part in the
      computation blocks it. */
  lemma RunsIffCountsAgree(j: Job, e: Expr)
    requires ValidJob(j) && ProperExpr(e) && e.Node? && Sharable(WorldFor(j, Postorder(e)), e)
    ensures var w := WorldFor(j, Postorder(e));
            && |w.counts| == 3 && AllOk(w, e, 0)
            && (JointOf(w, e, []).Some? <==> CountsAgree(j))
  {
    var w := WorldFor(j, Postorder(e));
    AlwaysEvaluable(j, e);
    WorldIsValid(j, Postorder(e));
    SyncedIff(j, Postorder(e));
    hide JointRun;
    hide TM.Walk;
    if j.n < TWO32 {
      RunsIffSynced(w, e, []);
    } else {
      StarvedBlocks(w, e, []);
    }
  }

  // ----- the calls

  method ImportOwners(x: Executor, owners: map<string, nat>)
    requires x.colOwner == map[]
    modifies x`colOwner
    ensures x.colOwner == owners
  {
    var left := owners.Keys;
    while left != {}
      invariant left <= owners.Keys
      invariant x.colOwner == map c | c in owners && c !in left :: owners[c]
      decreases |left|
    {
      var c :| c in left;
      var r := x.ImportColumnOwner(c, owners[c]);
      left := left - {c};
    }
  }

  method ImportDtypes(x: Executor, dtypes: map<string, Dtype>)
    requires x.colDtype == map[]
    modifies x`colDtype
    ensures x.colDtype == dtypes
  {
    var left := dtypes.Keys;
    while left != {}
      invariant left <= dtypes.Keys
      invariant x.colDtype == map c | c in dtypes && c !in left :: dtypes[c]
      decreases |left|
    {
      var c :| c in left;
      var ret := x.ImportColumnDtype(c, dtypes[c] == DOUBLE);
      left := left - {c};
    }
  }

  /** The executor knows these columns as its own, with these types and in a mode that fits them. */
  ghost predicate Expects(x: Executor, mine: map<string, Data>, n: nat)
    reads x
  {
    forall c | c in mine ::
      && c in x.localCol && x.localCol[c] && Size(mine[c]) == n && c in x.colDtype
      && (mine[c].Ints? <==> x.colDtype[c] == INT64) && (mine[c].Doubles? ==> x.fp64Run)
  }

  /** The values that are in once all columns but those left have been imported. */
  function Feed(fp64: bool, mine: map<string, Data>, left: set<string>): map<string, Rows> {
    map c | c in mine && c !in left :: RowsFor(fp64, mine[c])
  }

  lemma FeedGrows(fp64: bool, mine: map<string, Data>, left: set<string>, c: string)
    requires c in left && c in mine
    ensures c !in Feed(fp64, mine, left)
    ensures Feed(fp64, mine, left - {c}) == Feed(fp64, mine, left)[c := RowsFor(fp64, mine[c])]
  {
  }

  method ImportValues(x: Executor, mine: map<string, Data>, ghost n: nat)
    requires Expects(x, mine, n) && x.columns == map[] && x.valCount == -1
    modifies x`columns, x`valCount
    ensures x.columns == Feed(x.fp64Run, mine, {})
    ensures x.valCount == if mine.Keys == {} then -1 else n
  {
    var left := mine.Keys;
    assert Feed(x.fp64Run, mine, left) == map[];
    hide Feed;
    hide RowsFor;
    hide Size;
    while left != {}
      invariant left <= mine.Keys && Expects(x, mine, n)
      invariant x.columns == Feed(x.fp64Run, mine, left)
      invariant x.valCount == if left == mine.Keys then -1 else n
      decreases |left|
    {
      var c :| c in left;
      FeedGrows(x.fp64Run, mine, left, c);
      var r := ImportOne(x, c, mine[c], n);
      left := left - {c};
      assert c in mine.Keys && c !in left;
    }
  }

  method ImportOne(x: Executor, c: string, d: Data, ghost n: nat) returns (r: Reply)
    requires c in x.localCol && x.localCol[c] && c in x.colDtype && c !in x.columns
    requires (d.Ints? <==> x.colDtype[c] == INT64) && (d.Doubles? ==> x.fp64Run)
    requires Size(d) == n && (x.valCount == -1 || x.valCount == n)
    modifies x`columns, x`valCount
    ensures r == Returned(0) && x.valCount == n && x.columns == old(x.columns)[c := RowsFor(x.fp64Run, d)]
  {
    if d.Ints? {
      r := x.ImportI64Values(c, d.ints);
    } else {
      r := x.ImportFp64Values(c, DoubleRows(d.doubles));
    }
  }

  ghost predicate Literals(j: Job, suffix: seq<string>) {
    exists k :: 0 <= k < |suffix| && IsLiteral(suffix[k], j.dtypes)
  }

  /** An executor before any value has been imported. */
  ghost predicate Configured(x: Executor, j: Job, p: nat, suffix: seq<string>)
    reads x
  {
    && x.partyId == p && x.stod == j.stod && x.atol == j.atol && x.suffixStk == suffix
    && x.fp64Run == NeedsFp64(suffix, j.dtypes) && x.tokenTypes == TypesOf(suffix, j.dtypes)
    && x.localCol == Locals(j, p) && x.colDtype == j.dtypes
    && x.columns == map[] && x.valCount == -1 && x.tokenVals == map[] && x.log == []
  }

  /** Columns, expression and run mode. With the type lookup as written, the expression must not have
      a literal in it; otherwise the run mode is never resolved. */
  method Configure(p: nat, text: string, owners: map<string, nat>, dtypes: map<string, Dtype>,
                   stod: string -> real, atol: string -> int, lookupRaises: bool, ghost j: Job, ghost t: Infix)
    returns (x: Executor)
    requires ValidJob(j) && Sentence(t) && Supported(t) && Operators(Tree(t)) < TWO16
    requires text == Text(t) && owners == j.owners && dtypes == j.dtypes
    requires stod == j.stod && atol == j.atol && !(lookupRaises && Literals(j, Postorder(Tree(t))))
    ensures fresh(x) && Configured(x, j, p, Postorder(Tree(t)))
  {
    x := new Executor(p, stod, atol);
    ImportOwners(x, owners);
    ImportDtypes(x, dtypes);
    TakeExpression(x, text, t);
    hide NeedsFp64;
    hide TypesOf;
    hide Literals;
    hide Locals;
    Resolve(x, lookupRaises, j);
  }

  method TakeExpression(x: Executor, text: string, ghost t: Infix)
    requires x.suffixStk == [] && text == Text(t)
    requires Sentence(t) && Supported(t) && Operators(Tree(t)) < TWO16
    modifies x`suffixStk, x`expr
    ensures x.suffixStk == Postorder(Tree(t))
  {
    ImportsSuffix(t);
    hide RunScan;
    hide Accepts;
    var ok, ret := x.ImportExpress(text);
  }

  method Resolve(x: Executor, lookupRaises: bool, ghost j: Job)
    requires ValidJob(j) && x.colOwner == j.owners && x.colDtype == j.dtypes
    requires x.tokenTypes == map[] && x.localCol == map[] && !(lookupRaises && Literals(j, x.suffixStk))
    modifies x`localCol, x`tokenTypes, x`fp64Run
    ensures x.localCol == Locals(j, x.partyId) && x.tokenTypes == TypesOf(x.suffixStk, j.dtypes)
    ensures x.fp64Run == NeedsFp64(x.suffixStk, j.dtypes)
  {
    SameColumns(j);
    NothingBefore(Locals(j, x.partyId));
    NothingBefore(TypesOf(x.suffixStk, j.dtypes));
    hide ValidJob;
    hide NeedsFp64;
    hide TypesOf;
    hide IsLiteral;
    var r := x.ResolveRunMode(lookupRaises);
  }

  lemma SameColumns(j: Job)
    requires ValidJob(j)
    ensures |j.owners| == |j.dtypes| && j.owners.Keys <= j.dtypes.Keys
  {
    assert |j.owners| == |j.owners.Keys| && |j.dtypes| == |j.dtypes.Keys|;
  }

  lemma NothingBefore<T>(m: map<string, T>)
    ensures m + map[] == m
  {
  }
  /** One party gets ready to evaluate. */
  method Setup(p: nat, text: string, owners: map<string, nat>, dtypes: map<string, Dtype>, mine: map<string, Data>,
               stod: string -> real, atol: string -> int, lookupRaises: bool, ghost j: Job, ghost t: Infix)
    returns (x: Executor)
    requires ValidJob(j) && p < 3 && Sentence(t) && Supported(t) && Operators(Tree(t)) < TWO16
    requires text == Text(t) && owners == j.owners && dtypes == j.dtypes && mine == Mine(j, p)
    requires stod == j.stod && atol == j.atol && !(lookupRaises && Literals(j, Postorder(Tree(t))))
    ensures fresh(x) && Loaded(x, WorldFor(j, Postorder(Tree(t))), p, Tree(t))
  {
    x := Configure(p, text, owners, dtypes, stod, atol, lookupRaises, j, t);
    MineExpected(x, j, Postorder(Tree(t)), p);
    hide Expects;
    hide ValidJob;
    hide Loaded;
    ImportValues(x, mine, j.n);
    FedIsLoaded(x, j, p, Tree(t));
  }

  lemma FedIsLoaded(x: Executor, j: Job, p: nat, e: Expr)
    requires ValidJob(j) && p < 3 && x.partyId == p && x.stod == j.stod && x.atol == j.atol
    requires x.fp64Run == NeedsFp64(Postorder(e), j.dtypes) && x.tokenTypes == TypesOf(Postorder(e), j.dtypes)
    requires x.localCol == Locals(j, p) && x.columns == Feed(x.fp64Run, Mine(j, p), {})
    requires x.valCount == if Mine(j, p).Keys == {} then -1 else j.n
    requires x.suffixStk == Postorder(e) && x.tokenVals == map[] && x.log == []
    ensures Loaded(x, WorldFor(j, Postorder(e)), p, e)
  {
    EnvIs(j, Postorder(e), p);
    hide NeedsFp64;
    hide TypesOf;
    hide EnvOf;
    hide WorldFor;
    hide Feed;
    hide Locals;
    hide ValidJob;
    hide Postorder;
  }

  lemma ImportsSuffix(t: Infix)
    requires Sentence(t) && Supported(t) && Operators(Tree(t)) < TWO16
    ensures Parse(Text(t)) == Parsed(Postorder(Tree(t))) && Accepts(Postorder(Tree(t)))
  {
    ParsesToPostorder(t);
    LevelsAgree(t, true);
    TreeIsProper(t, 1, true);
    AcceptsIffFewOperators(Tree(t));
  }

  function Locals(j: Job, p: nat): map<string, bool> {
    map c | c in j.owners :: j.owners[c] == p
  }

  /** The columns of party p are local to it, and doubles among them force the floating-point mode. */
  lemma MineExpected(x: Executor, j: Job, suffix: seq<string>, p: nat)
    requires ValidJob(j) && Configured(x, j, p, suffix)
    ensures Expects(x, Mine(j, p), j.n)
  {
    hide Size;
    hide TypesOf;
  }

  lemma FeedIs(j: Job, suffix: seq<string>, p: nat)
    requires ValidJob(j) && p < 3
    ensures var w := WorldFor(j, suffix);
            |w.counts| == 3 && EnvOf(w, p).feed == Feed(w.fp64, Mine(j, p), {})
  {
    hide NeedsFp64;
    hide TypesOf;
    hide RowsFor;
    hide CountAt;
  }

  /** What the evaluator of party p starts from, once all calls have been made. */
  lemma EnvIs(j: Job, suffix: seq<string>, p: nat)
    requires ValidJob(j) && p < 3
    ensures var w := WorldFor(j, suffix);
            && |w.counts| == 3
            && EnvOf(w, p) == Env(p, NeedsFp64(suffix, j.dtypes), TypesOf(suffix, j.dtypes), Locals(j, p),
                                  Feed(NeedsFp64(suffix, j.dtypes), Mine(j, p), {}),
                                  (if Mine(j, p).Keys == {} then -1 else j.n) % TWO32, j.stod, j.atol)
  {
    FeedIs(j, suffix, p);
    OwnsIff(j, p);
    hide NeedsFp64;
    hide TypesOf;
    hide RowsFor;
    hide Owns;
    hide Feed;
    hide Size;
    var w := WorldFor(j, suffix);
    assert w.counts[p] == CountAt(j, p);
    assert EnvOf(w, p).local == Locals(j, p);
  }

  lemma OwnsIff(j: Job, p: nat)
    requires j.owners.Keys == j.data.Keys
    ensures Owns(j, p) <==> Mine(j, p).Keys != {}
  {
    if Owns(j, p) {
      var c :| c in j.owners && j.owners[c] == p;
      assert c in Mine(j, p);
    }
    if Mine(j, p).Keys != {} {
      var c :| c in Mine(j, p).Keys;
      assert c in j.owners && j.owners[c] == p;
    }
  }

  /** From the text of an expression and three parties' columns to the numbers that the listed parties
      get: for every supported sentence without an operator on two literals, every assignment of the
      columns in which the row counts agree, and every list of receivers. */
  method RunJob(text: string, j: Job, parties: seq<nat>, lookupRaises: bool, ghost t: Infix)
    returns (out0: Rows, out1: Rows, out2: Rows)
    requires ValidJob(j) && CountsAgree(j)
    requires text == Text(t) && Sentence(t) && Supported(t) && Tree(t).Node? && Operators(Tree(t)) < TWO16
    requires Sharable(WorldFor(j, Postorder(Tree(t))), Tree(t))
    requires !(lookupRaises && Literals(j, Postorder(Tree(t))))
    requires forall k | 0 <= k < |parties| :: parties[k] < 3
    ensures var w := WorldFor(j, Postorder(Tree(t)));
            && Evaluable(w, Tree(t)) && Mathematical(w, Tree(t))
            && out0 == Delivered(0, parties, RowsOf(w, Tree(t)))
            && out1 == Delivered(1, parties, RowsOf(w, Tree(t)))
            && out2 == Delivered(2, parties, RowsOf(w, Tree(t)))
  {
    ghost var e := Tree(t);
    ghost var w := WorldFor(j, Postorder(e));
    LevelsAgree(t, true);
    TreeIsProper(t, 1, true);
    AlwaysEvaluable(j, e);
    SyncedIff(j, Postorder(e));
    hide WorldFor;
    hide Loaded;
    MeansInMathematics(w, e);
    hide Mathematical;
    hide RowsOf;
    var x0 := Setup(0, text, j.owners, j.dtypes, Mine(j, 0), j.stod, j.atol, lookupRaises, j, t);
    var x1 := Setup(1, text, j.owners, j.dtypes, Mine(j, 1), j.stod, j.atol, lookupRaises, j, t);
    var x2 := Setup(2, text, j.owners, j.dtypes, Mine(j, 2), j.stod, j.atol, lookupRaises, j, t);
    out0, out1, out2 := Session(x0, x1, x2, w, e, parties);
  }
}
