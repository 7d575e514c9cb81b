/** Three parties evaluate one tree: lockstep, one dealer per sharing step, and the right value. */
module MpcProtocol {
  import opened MachineInts
  import opened Wrappers
  import opened ExpressGrammar
  import opened ExpressNames
  import opened IdealMpc
  import opened TokenMachine
  import opened MpcEvaluator

  /** All columns of all parties, who owns which, and the row count each party works with. */
  datatype World = World(
    fp64: bool,
    types: map<string, TokenType>,
    owner: map<string, nat>,
    cols: map<string, Rows>,
    n: nat,
    counts: seq<nat>,
    stod: string -> real,
    atol: string -> int)

  predicate InMode(fp64: bool, x: Num) {
    if fp64 then x.FP64? || x.Undefined? else x.I64?
  }

  /** What a column can hold: doubles, or 64-bit integers. */
  predicate CellFits(fp64: bool, x: Num) {
    if fp64 then x.FP64? else x.I64? && IsI64(x.i)
  }

  ghost predicate ValidWorld(w: World) {
    && |w.counts| == 3
    && w.owner.Keys == w.cols.Keys
    && (forall t | t in w.owner :: w.owner[t] < 3)
    && (forall t | t in w.cols :: |w.cols[t]| == w.n)
    && (forall t, k | t in w.cols && 0 <= k < w.n :: CellFits(w.fp64, w.cols[t][k]))
  }

  function EnvOf(w: World, p: nat): Env
    requires |w.counts| == 3 && p < 3
  {
    Env(p, w.fp64, w.types,
        map t | t in w.owner :: w.owner[t] == p,
        map t | t in w.owner && w.owner[t] == p && t in w.cols :: w.cols[t],
        w.counts[p], w.stod, w.atol)
  }

  predicate IsConst(w: World, e: Expr) {
    e.Leaf? && e.token in w.types && w.types[e.token] == VALUE
  }

  predicate Known(w: World, e: Expr) {
    match e
    case Leaf(token) => IsConst(w, e) || token in w.owner
    case Node(_, l, r) => Known(w, l) && Known(w, r)
  }

  /** No operator has two constant operands. */
  predicate Sharable(w: World, e: Expr) {
    match e
    case Leaf(_) => true
    case Node(_, l, r) => Sharable(w, l) && Sharable(w, r) && !(IsConst(w, l) && IsConst(w, r))
  }

  predicate HasDivision(e: Expr) {
    match e
    case Leaf(_) => false
    case Node(op, l, r) => op == '/' || HasDivision(l) || HasDivision(r)
  }

  predicate ModeFits(w: World, e: Expr) {
    HasDivision(e) ==> w.fp64
  }

  function LiteralOf(w: World, token: string): Num {
    Literal(w.fp64, w.stod, w.atol, token)
  }

  /** What the expression means: row by row, on the columns in the clear. */
  function RowsOf(w: World, e: Expr): (r: Rows)
    requires Known(w, e) && w.owner.Keys == w.cols.Keys && forall t | t in w.cols :: |w.cols[t]| == w.n
    ensures |r| == w.n
  {
    match e
    case Leaf(token) => if IsConst(w, e) then Constant(LiteralOf(w, token), w.n) else w.cols[token]
    case Node(op, l, r) => Zip(op, RowsOf(w, l), RowsOf(w, r))
  }

  lemma {:induction false} RowsInMode(w: World, e: Expr, k: nat)
    requires ValidWorld(w) && Known(w, e) && ModeFits(w, e) && ProperExpr(e) && k < w.n
    ensures InMode(w.fp64, RowsOf(w, e)[k])
  {
    match e
    case Leaf(_) =>
    case Node(op, l, r) =>
      RowsInMode(w, l, k);
      RowsInMode(w, r, k);
  }

  // ----- what the expression means in mathematics

  ghost predicate HasRow(w: World, e: Expr, k: nat) {
    ValidWorld(w) && Known(w, e) && ModeFits(w, e) && ProperExpr(e) && k < w.n
  }

  /** The value of the tree in row k over the unbounded integers. */
  ghost function IntegerAt(w: World, e: Expr, k: nat): int
    requires HasRow(w, e, k) && !w.fp64
  {
    match e
    case Leaf(token) => if IsConst(w, e) then w.atol(token) else w.cols[token][k].i
    case Node(op, l, r) =>
      var x, y := IntegerAt(w, l, k), IntegerAt(w, r, k);
      if op == '+' then x + y else if op == '-' then x - y else x * y
  }

  /** Some divisor in the tree is zero in row k. */
  ghost predicate ZeroDivisor(w: World, e: Expr, k: nat)
    requires HasRow(w, e, k) && w.fp64
    decreases e, 0
  {
    match e
    case Leaf(_) => false
    case Node(op, l, r) =>
      ZeroDivisor(w, l, k) || ZeroDivisor(w, r, k) || (op == '/' && RealAt(w, r, k) == 0.0)
  }

  function RealOp(op: char, x: real, y: real): real
    requires op == '/' ==> y != 0.0
  {
    if op == '+' then x + y else if op == '-' then x - y else if op == '/' then x / y else x * y
  }

  /** The value of the tree in row k over the reals. */
  ghost function RealAt(w: World, e: Expr, k: nat): real
    requires HasRow(w, e, k) && w.fp64 && !ZeroDivisor(w, e, k)
    decreases e, 1
  {
    match e
    case Leaf(token) => if IsConst(w, e) then w.stod(token) else w.cols[token][k].r
    case Node(op, l, r) =>
      RealOp(op, RealAt(w, l, k), RealAt(w, r, k))
  }

  /** In integer mode the exact value wrapped once to 64 bits, in floating-point mode the exact value,
      unless some divisor is zero. */
  ghost predicate IsMeaning(w: World, e: Expr, k: nat, x: Num)
    requires HasRow(w, e, k)
  {
    x == if !w.fp64 then I64(Wrap64(IntegerAt(w, e, k)))
         else if ZeroDivisor(w, e, k) then Undefined
         else FP64(RealAt(w, e, k))
  }

  /** In integer mode the order in which intermediate results wrap does not matter. */
  lemma {:induction false} IntegerRows(w: World, e: Expr, k: nat)
    requires HasRow(w, e, k) && !w.fp64
    ensures RowsOf(w, e)[k] == I64(Wrap64(IntegerAt(w, e, k)))
    decreases e
  {
    hide Wrap64;
    match e
    case Leaf(token) =>
      if !IsConst(w, e) {
        assert CellFits(w.fp64, w.cols[token][k]);
        WrapExact(w.cols[token][k].i);
      }
    case Node(op, l, r) =>
      IntegerRows(w, l, k);
      IntegerRows(w, r, k);
      WrapApply(op, IntegerAt(w, l, k), IntegerAt(w, r, k));
  }

  /** In floating-point mode a row is undefined exactly when some divisor in it is zero, and otherwise
      it is the real value of the tree. */
  lemma {:induction false} RealRows(w: World, e: Expr, k: nat)
    requires HasRow(w, e, k) && w.fp64
    ensures RowsOf(w, e)[k] == if ZeroDivisor(w, e, k) then Undefined else FP64(RealAt(w, e, k))
    decreases e
  {
    match e
    case Leaf(token) =>
      if !IsConst(w, e) { assert CellFits(w.fp64, w.cols[token][k]); }
    case Node(op, l, r) =>
      NodeRow(w, op, l, r, k);
      hide ZeroDivisor;
      hide RealAt;
      hide RowsOf;
      hide HasRow;
      RealRows(w, l, k);
      RealRows(w, r, k);
      RealNode(w, op, l, r, k);
  }

  lemma RealNode(w: World, op: char, l: Expr, r: Expr, k: nat)
    requires HasRow(w, Node(op, l, r), k) && w.fp64 && HasRow(w, l, k) && HasRow(w, r, k)
    requires RowsOf(w, l)[k] == if ZeroDivisor(w, l, k) then Undefined else FP64(RealAt(w, l, k))
    requires RowsOf(w, r)[k] == if ZeroDivisor(w, r, k) then Undefined else FP64(RealAt(w, r, k))
    ensures var e := Node(op, l, r);
            RowsOf(w, e)[k] == if ZeroDivisor(w, e, k) then Undefined else FP64(RealAt(w, e, k))
  {
    NodeRow(w, op, l, r, k);
    RealNodeIs(w, op, l, r, k);
    hide Apply;
    hide RowsOf;
    hide ZeroDivisor;
    hide RealAt;
    hide RealOp;
    hide HasRow;
    if ZeroDivisor(w, l, k) || ZeroDivisor(w, r, k) {
      ApplyUndefined(op, RowsOf(w, l)[k], RowsOf(w, r)[k]);
    } else {
      ApplyReal(op, RealAt(w, l, k), RealAt(w, r, k));
    }
  }

  lemma RealNodeIs(w: World, op: char, l: Expr, r: Expr, k: nat)
    requires HasRow(w, Node(op, l, r), k) && w.fp64 && HasRow(w, l, k) && HasRow(w, r, k)
    ensures ZeroDivisor(w, Node(op, l, r), k)
       <==> ZeroDivisor(w, l, k) || ZeroDivisor(w, r, k) || (op == '/' && RealAt(w, r, k) == 0.0)
    ensures !ZeroDivisor(w, Node(op, l, r), k) ==>
              RealAt(w, Node(op, l, r), k) == RealOp(op, RealAt(w, l, k), RealAt(w, r, k))
  {
  }

  lemma NodeRow(w: World, op: char, l: Expr, r: Expr, k: nat)
    requires HasRow(w, Node(op, l, r), k)
    ensures HasRow(w, l, k) && HasRow(w, r, k) && IsOp(op)
    ensures RowsOf(w, Node(op, l, r))[k] == Apply(op, RowsOf(w, l)[k], RowsOf(w, r)[k])
  {
  }

  lemma ApplyReal(op: char, x: real, y: real)
    requires IsOp(op)
    ensures Apply(op, FP64(x), FP64(y)) == if op == '/' && y == 0.0 then Undefined else FP64(RealOp(op, x, y))
  {
  }

  lemma ApplyUndefined(op: char, a: Num, b: Num)
    requires a.Undefined? || b.Undefined?
    ensures Apply(op, a, b) == Undefined
  {
  }

  lemma RowsMean(w: World, e: Expr, k: nat)
    requires HasRow(w, e, k)
    ensures IsMeaning(w, e, k, RowsOf(w, e)[k])
  {
    if w.fp64 { RealRows(w, e, k); } else { IntegerRows(w, e, k); }
  }

  lemma WrapApply(op: char, x: int, y: int)
    requires op == '+' || op == '-' || op == '*'
    ensures Apply(op, I64(Wrap64(x)), I64(Wrap64(y)))
         == I64(Wrap64(if op == '+' then x + y else if op == '-' then x - y else x * y))
  {
    var a, b := Turns(x), Turns(y);
    var u, v := Wrap64(x), Wrap64(y);
    hide Wrap64;
    if op == '+' {
      WrapUnique(u + v, x + y, a + b);
    } else if op == '-' {
      WrapUnique(u - v, x - y, a - b);
    } else {
      WrappedProduct(x, y, a, b);
      WrapUnique(u * v, x * y, x * b + a * y + a * b * TWO64);
    }
  }

  lemma WrappedProduct(x: int, y: int, a: int, b: int)
    ensures (x + a * TWO64) * (y + b * TWO64) == x * y + (x * b + a * y + a * b * TWO64) * TWO64
  {
  }

  // ----- one operator, three parties

  predicate Synced(w: World) {
    w.counts == [w.n, w.n, w.n]
  }

  /** What party p holds for a tree whose share, if it is compound, is handle h. */
  function ValueAt(w: World, p: nat, e: Expr, h: nat): Result<TokenValue>
    requires |w.counts| == 3 && p < 3
  {
    if e.Leaf? then LeafValue(EnvOf(w, p), e.token) else Ok(ShareOf(w.fp64, h))
  }

  ghost predicate Holds(w: World, e: Expr, h: nat, acc: seq<Rows>)
    requires ValidWorld(w) && Known(w, e)
  {
    e.Node? ==> h < |acc| && acc[h] == RowsOf(w, e)
  }

  /** The sharing step of a column: its owner deals, the others reserve their row count. */
  function Sharing(w: World, p: nat, e: Expr): seq<MpcOp>
    requires |w.counts| == 3 && p < 3 && (e.Leaf? ==> e.token in w.owner && e.token in w.cols)
  {
    if e.Node? then []
    else if w.owner[e.token] == p then [Deal(w.cols[e.token])]
    else [Receive(w.counts[p])]
  }

  lemma PrepareColumn(w: World, p: nat, e: Expr, h: nat, base: nat)
    requires ValidWorld(w) && Known(w, e) && !IsConst(w, e) && p < 3
    ensures ValueAt(w, p, e, h).Ok?
    ensures var v := ValueAt(w, p, e, h).value;
            v.tag != ConstTag(w.fp64) &&
            Prepare(EnvOf(w, p), w.fp64, v, base)
            == Ok(Ready(Some(if e.Leaf? then base else h), Undefined, Sharing(w, p, e)))
  {
  }

  lemma PrepareConstant(w: World, p: nat, e: Expr, h: nat, base: nat)
    requires ValidWorld(w) && IsConst(w, e) && p < 3
    ensures ValueAt(w, p, e, h) == Ok(ConstOf(w.fp64, LiteralOf(w, e.token)))
    ensures Prepare(EnvOf(w, p), w.fp64, ValueAt(w, p, e, h).value, base)
         == Ok(Ready(None, LiteralOf(w, e.token), []))
  {
  }

  /** A sharing step succeeds exactly when both receivers reserved as many rows as are dealt. */
  lemma SharingIff(w: World, e: Expr, acc: seq<Rows>)
    requires ValidWorld(w) && Known(w, e) && e.Leaf? && !IsConst(w, e)
    ensures JointRun(Sharing(w, 0, e), Sharing(w, 1, e), Sharing(w, 2, e), acc)
         == (if forall p | 0 <= p < 3 :: p == w.owner[e.token] || w.counts[p] == w.n
             then Some(acc + [w.cols[e.token]]) else None)
  {
    hide JointRun;
    var x, y, z := Sharing(w, 0, e)[0], Sharing(w, 1, e)[0], Sharing(w, 2, e)[0];
    JointOne(x, y, z, acc);
    assert Sharing(w, 0, e) == [x] && Sharing(w, 1, e) == [y] && Sharing(w, 2, e) == [z];
  }

  function Shared(w: World, e: Expr): seq<Rows>
    requires e.Leaf? ==> e.token in w.cols
  {
    if e.Leaf? then [w.cols[e.token]] else []
  }

  lemma SharingRuns(w: World, e: Expr, acc: seq<Rows>)
    requires ValidWorld(w) && Synced(w) && Known(w, e) && !IsConst(w, e)
    ensures JointRun(Sharing(w, 0, e), Sharing(w, 1, e), Sharing(w, 2, e), acc) == Some(acc + Shared(w, e))
  {
    if e.Leaf? {
      SharingIff(w, e, acc);
    } else {
      assert acc + [] == acc;
    }
  }

  /** The operations party p issues for one operator, when they are known to exist. */
  ghost predicate Issues(w: World, p: nat, op: char, l: Expr, hl: nat, r: Expr, hr: nat, base: nat,
                         ops: seq<MpcOp>)
    requires |w.counts| == 3 && p < 3
  {
    && ValueAt(w, p, l, hl).Ok? && ValueAt(w, p, r, hr).Ok?
    && ops != []
    && RunOp(EnvOf(w, p), op, ValueAt(w, p, l, hl).value, ValueAt(w, p, r, hr).value, base)
       == Ok(Effect(ShareOf(w.fp64, base + |ops| - 1), ops))
  }

  /** The final operation comes last, after both operands are shared. */
  lemma JointTail(x: seq<MpcOp>, y: seq<MpcOp>, z: seq<MpcOp>, last: MpcOp, acc: seq<Rows>, mid: seq<Rows>, v: Rows)
    requires |x| == |y| == |z|
    requires JointRun(x, y, z, acc) == Some(mid)
    requires !last.Deal? && !last.Receive? && SameStep(last, mid) == Some(v)
    ensures JointRun(x + [last], y + [last], z + [last], acc) == Some(mid + [v])
  {
    hide JointRun;
    hide SameStep;
    JointAppend(x, y, z, [last], [last], [last], acc);
    JointOne(last, last, last, mid);
  }

  lemma BothShared(w: World, l: Expr, r: Expr, acc: seq<Rows>)
    requires ValidWorld(w) && Synced(w) && Known(w, l) && Known(w, r) && !IsConst(w, l) && !IsConst(w, r)
    ensures JointRun(Sharing(w, 0, l) + Sharing(w, 0, r), Sharing(w, 1, l) + Sharing(w, 1, r),
                     Sharing(w, 2, l) + Sharing(w, 2, r), acc)
         == Some(acc + Shared(w, l) + Shared(w, r))
  {
    hide JointRun;
    SharingRuns(w, l, acc);
    SharingRuns(w, r, acc + Shared(w, l));
    JointAppend(Sharing(w, 0, l), Sharing(w, 1, l), Sharing(w, 2, l),
                Sharing(w, 0, r), Sharing(w, 1, r), Sharing(w, 2, r), acc);
  }

  function SharedHandle(e: Expr, h: nat, base: nat): nat {
    if e.Leaf? then base else h
  }

  function ShareCount(e: Expr): nat {
    if e.Leaf? then 1 else 0
  }

  // ----- what each party issues for one operator

  /** A column or a share as an operand: its value, and the sharing step it takes. */
  ghost predicate ReadyAt(w: World, p: nat, e: Expr, h: nat, base: nat, ops: seq<MpcOp>)
    requires |w.counts| == 3 && p < 3
  {
    && ValueAt(w, p, e, h).Ok? && ValueAt(w, p, e, h).value.tag != ConstTag(w.fp64)
    && Prepare(EnvOf(w, p), w.fp64, ValueAt(w, p, e, h).value, base)
       == Ok(Ready(Some(SharedHandle(e, h, base)), Undefined, ops))
    && |ops| == ShareCount(e) && EnvOf(w, p).fp64 == w.fp64
  }

  lemma ColumnReady(w: World, p: nat, e: Expr, h: nat, base: nat)
    requires ValidWorld(w) && Known(w, e) && !IsConst(w, e) && p < 3
    ensures ReadyAt(w, p, e, h, base, Sharing(w, p, e))
  {
    PrepareColumn(w, p, e, h, base);
    hide Prepare;
  }

  function PairLast(op: char, l: Expr, hl: nat, r: Expr, hr: nat, base: nat): MpcOp {
    var h, k := SharedHandle(l, hl, base), SharedHandle(r, hr, base + ShareCount(l));
    if op == '/' then Div(h, k) else PairOp(op, h, k)
  }

  lemma ReadyPair(w: World, p: nat, op: char, l: Expr, hl: nat, r: Expr, hr: nat, base: nat,
                  o1: seq<MpcOp>, o2: seq<MpcOp>)
    requires |w.counts| == 3 && p < 3 && (op == '/' ==> w.fp64)
    requires ReadyAt(w, p, l, hl, base, o1) && ReadyAt(w, p, r, hr, base + ShareCount(l), o2)
    ensures Issues(w, p, op, l, hl, r, hr, base, o1 + o2 + [PairLast(op, l, hl, r, hr, base)])
  {
    hide Prepare;
    hide EnvOf;
    hide RunOp;
    hide PairOp;
    hide ValueAt;
    hide SharedHandle;
    hide ShareCount;
    hide ShareOf;
    hide ConstTag;
    RunPair(EnvOf(w, p), op, ValueAt(w, p, l, hl).value, ValueAt(w, p, r, hr).value, base,
            SharedHandle(l, hl, base), SharedHandle(r, hr, base + ShareCount(l)), o1, o2);
  }

  lemma PairIssues(w: World, p: nat, op: char, l: Expr, hl: nat, r: Expr, hr: nat, base: nat)
    requires ValidWorld(w) && Known(w, l) && Known(w, r) && IsOp(op) && (op == '/' ==> w.fp64) && p < 3
    requires !IsConst(w, l) && !IsConst(w, r)
    ensures Issues(w, p, op, l, hl, r, hr, base, Sharing(w, p, l) + Sharing(w, p, r) + [PairLast(op, l, hl, r, hr, base)])
  {
    hide ReadyAt;
    hide Issues;
    ColumnReady(w, p, l, hl, base);
    ColumnReady(w, p, r, hr, base + ShareCount(l));
    ReadyPair(w, p, op, l, hl, r, hr, base, Sharing(w, p, l), Sharing(w, p, r));
  }

  lemma ConstSecondIssues(w: World, p: nat, op: char, e: Expr, h: nat, c: Expr, hc: nat, base: nat)
    requires ValidWorld(w) && Known(w, e) && IsOp(op) && (op == '/' ==> w.fp64) && p < 3
    requires !IsConst(w, e) && IsConst(w, c)
    ensures Issues(w, p, op, e, h, c, hc, base, Sharing(w, p, e) + [ConstSecondLast(w, op, e, h, c, base)])
  {
    hide Prepare;
    hide LeafValue;
    PrepareColumn(w, p, e, h, base);
    PrepareConstant(w, p, c, hc, base + |Sharing(w, p, e)|);
    assert Sharing(w, p, e) + [] == Sharing(w, p, e);
  }

  function ConstSecondLast(w: World, op: char, e: Expr, h: nat, c: Expr, base: nat): MpcOp
    requires c.Leaf?
  {
    var lit, k := LiteralOf(w, c.token), SharedHandle(e, h, base);
    if op == '/' then MulConst(Reciprocal(lit), k) else ConstOp(op, lit, k, true)
  }

  lemma ConstFirstIssues(w: World, p: nat, op: char, c: Expr, hc: nat, e: Expr, h: nat, base: nat)
    requires ValidWorld(w) && Known(w, e) && IsOp(op) && op != '/' && p < 3
    requires !IsConst(w, e) && IsConst(w, c)
    ensures Issues(w, p, op, c, hc, e, h, base,
                   Sharing(w, p, e) + [ConstOp(op, LiteralOf(w, c.token), SharedHandle(e, h, base), false)])
  {
    hide Prepare;
    hide LeafValue;
    PrepareConstant(w, p, c, hc, base);
    PrepareColumn(w, p, e, h, base);
    assert [] + Sharing(w, p, e) == Sharing(w, p, e);
  }

  /** The step in which party 0 deals a constant dividend. */
  function DealConstant(w: World, p: nat, c: Num): seq<MpcOp>
    requires |w.counts| == 3 && p < 3
  {
    [if p == 0 then Deal(Constant(c, w.counts[p])) else Receive(w.counts[p])]
  }

  lemma DividendIssues(w: World, p: nat, c: Expr, hc: nat, e: Expr, h: nat, base: nat)
    requires ValidWorld(w) && w.fp64 && Known(w, e) && !IsConst(w, e) && IsConst(w, c) && p < 3
    ensures Issues(w, p, '/', c, hc, e, h, base,
                   DealConstant(w, p, LiteralOf(w, c.token)) + Sharing(w, p, e)
                   + [Div(base, SharedHandle(e, h, base + 1))])
  {
    hide Prepare;
    hide LeafValue;
    PrepareConstant(w, p, c, hc, base);
    PrepareColumn(w, p, e, h, base + 1);
  }

  /** Party p's operations for one operator. */
  ghost function OpsFor(w: World, p: nat, op: char, l: Expr, hl: nat, r: Expr, hr: nat, base: nat): seq<MpcOp>
    requires ValidWorld(w) && Known(w, l) && Known(w, r) && p < 3 && !(IsConst(w, l) && IsConst(w, r))
  {
    if IsConst(w, r) then Sharing(w, p, l) + [ConstSecondLast(w, op, l, hl, r, base)]
    else if !IsConst(w, l) then Sharing(w, p, l) + Sharing(w, p, r) + [PairLast(op, l, hl, r, hr, base)]
    else if op != '/' then
      Sharing(w, p, r) + [ConstOp(op, LiteralOf(w, l.token), SharedHandle(r, hr, base), false)]
    else
      DealConstant(w, p, LiteralOf(w, l.token)) + Sharing(w, p, r) + [Div(base, SharedHandle(r, hr, base + 1))]
  }

  lemma OperatorIssues(w: World, p: nat, op: char, l: Expr, hl: nat, r: Expr, hr: nat, base: nat)
    requires ValidWorld(w) && Known(w, l) && Known(w, r) && p < 3 && !(IsConst(w, l) && IsConst(w, r))
    requires IsOp(op) && (op == '/' ==> w.fp64)
    ensures Issues(w, p, op, l, hl, r, hr, base, OpsFor(w, p, op, l, hl, r, hr, base))
  {
    hide Issues;
    if IsConst(w, r) {
      ConstSecondIssues(w, p, op, l, hl, r, hr, base);
    } else if !IsConst(w, l) {
      PairIssues(w, p, op, l, hl, r, hr, base);
    } else if op != '/' {
      ConstFirstIssues(w, p, op, l, hl, r, hr, base);
    } else {
      DividendIssues(w, p, l, hl, r, hr, base);
    }
  }

  // ----- what the three of them compute together

  lemma PairJoint(w: World, op: char, l: Expr, hl: nat, r: Expr, hr: nat, acc: seq<Rows>)
    requires ValidWorld(w) && Synced(w) && Known(w, l) && Known(w, r) && IsOp(op)
    requires Holds(w, l, hl, acc) && Holds(w, r, hr, acc) && !IsConst(w, l) && !IsConst(w, r)
    ensures var last := PairLast(op, l, hl, r, hr, |acc|);
            JointRun(Sharing(w, 0, l) + Sharing(w, 0, r) + [last], Sharing(w, 1, l) + Sharing(w, 1, r) + [last],
                     Sharing(w, 2, l) + Sharing(w, 2, r) + [last], acc)
            == Some(acc + Shared(w, l) + Shared(w, r) + [Zip(op, RowsOf(w, l), RowsOf(w, r))])
  {
    hide JointRun;
    hide Zip;
    var last := PairLast(op, l, hl, r, hr, |acc|);
    var mid := acc + Shared(w, l) + Shared(w, r);
    BothShared(w, l, r, acc);
    var h, k := SharedHandle(l, hl, |acc|), SharedHandle(r, hr, |acc| + ShareCount(l));
    assert h < |mid| && mid[h] == RowsOf(w, l);
    assert k < |mid| && mid[k] == RowsOf(w, r);
    JointTail(Sharing(w, 0, l) + Sharing(w, 0, r), Sharing(w, 1, l) + Sharing(w, 1, r),
              Sharing(w, 2, l) + Sharing(w, 2, r), last, acc, mid, Zip(op, RowsOf(w, l), RowsOf(w, r)));
  }

  /** Addition and multiplication commute, so their constant forms need no order. */
  lemma ZipCommutes(op: char, a: Rows, b: Rows)
    requires |a| == |b| && (op == '+' || op == '*')
    ensures Zip(op, a, b) == Zip(op, b, a)
  {
    forall k | 0 <= k < |a| ensures Apply(op, a[k], b[k]) == Apply(op, b[k], a[k]) {
      if a[k].I64? && b[k].I64? { assert a[k].i * b[k].i == b[k].i * a[k].i; }
      if a[k].FP64? && b[k].FP64? { assert a[k].r * b[k].r == b[k].r * a[k].r; }
    }
  }

  lemma DivisionByLiteral(w: World, e: Expr, lit: Num)
    requires ValidWorld(w) && w.fp64 && Known(w, e) && ProperExpr(e) && lit.FP64?
    ensures Zip('*', RowsOf(w, e), Constant(Reciprocal(lit), w.n)) == Zip('/', RowsOf(w, e), Constant(lit, w.n))
  {
    forall k | 0 <= k < w.n
      ensures Apply('*', RowsOf(w, e)[k], Reciprocal(lit)) == Apply('/', RowsOf(w, e)[k], lit)
    {
      RowsInMode(w, e, k);
      DivideByConstant(RowsOf(w, e)[k], lit);
    }
  }

  /** One shared operand and one last operation on it. */
  lemma OneSharedJoint(w: World, e: Expr, last: MpcOp, v: Rows, acc: seq<Rows>)
    requires ValidWorld(w) && Synced(w) && Known(w, e) && !IsConst(w, e)
    requires !last.Deal? && !last.Receive? && SameStep(last, acc + Shared(w, e)) == Some(v)
    ensures JointRun(Sharing(w, 0, e) + [last], Sharing(w, 1, e) + [last], Sharing(w, 2, e) + [last], acc)
         == Some(acc + Shared(w, e) + [v])
  {
    hide JointRun;
    hide SameStep;
    SharingRuns(w, e, acc);
    JointTail(Sharing(w, 0, e), Sharing(w, 1, e), Sharing(w, 2, e), last, acc, acc + Shared(w, e), v);
  }

  lemma SharedValue(w: World, e: Expr, h: nat, acc: seq<Rows>)
    requires ValidWorld(w) && Known(w, e) && !IsConst(w, e) && Holds(w, e, h, acc)
    ensures var mid, k := acc + Shared(w, e), SharedHandle(e, h, |acc|);
            k < |mid| && mid[k] == RowsOf(w, e)
  {
  }

  lemma ConstSecondStep(op: char, lit: Num, k: nat, mid: seq<Rows>)
    requires IsOp(op) && k < |mid|
    requires op == '/' ==> Zip('*', mid[k], Constant(Reciprocal(lit), |mid[k]|)) == Zip('/', mid[k], Constant(lit, |mid[k]|))
    ensures SameStep(if op == '/' then MulConst(Reciprocal(lit), k) else ConstOp(op, lit, k, true), mid)
         == Some(Zip(op, mid[k], Constant(lit, |mid[k]|)))
  {
    hide Zip;
    hide Constant;
    hide Reciprocal;
  }

  lemma ConstFirstStep(op: char, lit: Num, k: nat, mid: seq<Rows>)
    requires IsOp(op) && op != '/' && k < |mid|
    ensures SameStep(ConstOp(op, lit, k, false), mid) == Some(Zip(op, Constant(lit, |mid[k]|), mid[k]))
  {
    var c := Constant(lit, |mid[k]|);
    if op != '-' { ZipCommutes(op, c, mid[k]); }
    hide Zip;
    hide Constant;
  }

  lemma ConstantRows(w: World, c: Expr)
    requires ValidWorld(w) && IsConst(w, c)
    ensures RowsOf(w, c) == Constant(LiteralOf(w, c.token), w.n)
  {
  }

  lemma ConstSecondValue(w: World, op: char, e: Expr, h: nat, c: Expr, acc: seq<Rows>)
    requires ValidWorld(w) && Known(w, e) && ProperExpr(e) && IsOp(op) && (op == '/' ==> w.fp64)
    requires Holds(w, e, h, acc) && !IsConst(w, e) && IsConst(w, c)
    ensures SameStep(ConstSecondLast(w, op, e, h, c, |acc|), acc + Shared(w, e))
         == Some(Zip(op, RowsOf(w, e), RowsOf(w, c)))
  {
    hide Zip;
    hide Constant;
    hide SameStep;
    var lit, k, mid := LiteralOf(w, c.token), SharedHandle(e, h, |acc|), acc + Shared(w, e);
    if op == '/' { DivisionByLiteral(w, e, lit); }
    SharedValue(w, e, h, acc);
    ConstantRows(w, c);
    hide RowsOf;
    hide Shared;
    hide Holds;
    assert mid[k] == RowsOf(w, e) && |mid[k]| == w.n;
    ConstSecondStep(op, lit, k, mid);
  }

  lemma ConstSecondJoint(w: World, op: char, e: Expr, h: nat, c: Expr, acc: seq<Rows>)
    requires ValidWorld(w) && Synced(w) && Known(w, e) && ProperExpr(e) && IsOp(op) && (op == '/' ==> w.fp64)
    requires Holds(w, e, h, acc) && !IsConst(w, e) && IsConst(w, c)
    ensures var last := ConstSecondLast(w, op, e, h, c, |acc|);
            JointRun(Sharing(w, 0, e) + [last], Sharing(w, 1, e) + [last], Sharing(w, 2, e) + [last], acc)
            == Some(acc + Shared(w, e) + [Zip(op, RowsOf(w, e), RowsOf(w, c))])
  {
    ConstSecondValue(w, op, e, h, c, acc);
    var last := ConstSecondLast(w, op, e, h, c, |acc|);
    assert !last.Deal? && !last.Receive?;
    hide JointRun;
    hide Zip;
    hide SameStep;
    hide RowsOf;
    hide ConstSecondLast;
    hide Shared;
    hide Sharing;
    OneSharedJoint(w, e, last, Zip(op, RowsOf(w, e), RowsOf(w, c)), acc);
  }

  lemma ConstFirstValue(w: World, op: char, c: Expr, e: Expr, h: nat, acc: seq<Rows>)
    requires ValidWorld(w) && Known(w, e) && IsOp(op) && op != '/'
    requires Holds(w, e, h, acc) && !IsConst(w, e) && IsConst(w, c)
    ensures SameStep(ConstOp(op, LiteralOf(w, c.token), SharedHandle(e, h, |acc|), false), acc + Shared(w, e))
         == Some(Zip(op, RowsOf(w, c), RowsOf(w, e)))
  {
    hide Zip;
    hide Constant;
    hide SameStep;
    hide ConstOp;
    var lit, k, mid := LiteralOf(w, c.token), SharedHandle(e, h, |acc|), acc + Shared(w, e);
    SharedValue(w, e, h, acc);
    ConstantRows(w, c);
    hide RowsOf;
    hide Shared;
    hide Holds;
    assert mid[k] == RowsOf(w, e) && |mid[k]| == w.n;
    ConstFirstStep(op, lit, k, mid);
  }

  lemma ConstFirstJoint(w: World, op: char, c: Expr, e: Expr, h: nat, acc: seq<Rows>)
    requires ValidWorld(w) && Synced(w) && Known(w, e) && IsOp(op) && op != '/'
    requires Holds(w, e, h, acc) && !IsConst(w, e) && IsConst(w, c)
    ensures var last := ConstOp(op, LiteralOf(w, c.token), SharedHandle(e, h, |acc|), false);
            JointRun(Sharing(w, 0, e) + [last], Sharing(w, 1, e) + [last], Sharing(w, 2, e) + [last], acc)
            == Some(acc + Shared(w, e) + [Zip(op, RowsOf(w, c), RowsOf(w, e))])
  {
    ConstFirstValue(w, op, c, e, h, acc);
    var last := ConstOp(op, LiteralOf(w, c.token), SharedHandle(e, h, |acc|), false);
    assert !last.Deal? && !last.Receive?;
    hide JointRun;
    hide Zip;
    hide SameStep;
    hide RowsOf;
    hide ConstOp;
    hide Shared;
    hide Sharing;
    OneSharedJoint(w, e, last, Zip(op, RowsOf(w, c), RowsOf(w, e)), acc);
  }

  /** Party 0 is the only dealer of a constant dividend. */
  lemma DealtConstant(w: World, c: Num, e: Expr, acc: seq<Rows>)
    requires ValidWorld(w) && Synced(w) && Known(w, e) && !IsConst(w, e)
    ensures JointRun(DealConstant(w, 0, c) + Sharing(w, 0, e), DealConstant(w, 1, c) + Sharing(w, 1, e),
                     DealConstant(w, 2, c) + Sharing(w, 2, e), acc)
         == Some(acc + [Constant(c, w.n)] + Shared(w, e))
  {
    hide JointRun;
    hide Constant;
    JointOne(Deal(Constant(c, w.n)), Receive(w.n), Receive(w.n), acc);
    SharingRuns(w, e, acc + [Constant(c, w.n)]);
    JointAppend(DealConstant(w, 0, c), DealConstant(w, 1, c), DealConstant(w, 2, c),
                Sharing(w, 0, e), Sharing(w, 1, e), Sharing(w, 2, e), acc);
  }

  lemma DividendStep(w: World, c: Expr, e: Expr, h: nat, acc: seq<Rows>)
    requires ValidWorld(w) && Known(w, e) && Holds(w, e, h, acc) && !IsConst(w, e) && IsConst(w, c)
    ensures var mid := acc + [Constant(LiteralOf(w, c.token), w.n)] + Shared(w, e);
            SameStep(Div(|acc|, SharedHandle(e, h, |acc| + 1)), mid) == Some(Zip('/', RowsOf(w, c), RowsOf(w, e)))
  {
    hide Zip;
    hide Constant;
    var mid := acc + [Constant(LiteralOf(w, c.token), w.n)] + Shared(w, e);
    var k := SharedHandle(e, h, |acc| + 1);
    assert mid[|acc|] == RowsOf(w, c);
    assert k < |mid| && mid[k] == RowsOf(w, e);
  }

  lemma DividendJoint(w: World, c: Expr, e: Expr, h: nat, acc: seq<Rows>)
    requires ValidWorld(w) && Synced(w) && w.fp64 && Known(w, e)
    requires Holds(w, e, h, acc) && !IsConst(w, e) && IsConst(w, c)
    ensures var lit := LiteralOf(w, c.token);
            var last := Div(|acc|, SharedHandle(e, h, |acc| + 1));
            JointRun(DealConstant(w, 0, lit) + Sharing(w, 0, e) + [last],
                     DealConstant(w, 1, lit) + Sharing(w, 1, e) + [last],
                     DealConstant(w, 2, lit) + Sharing(w, 2, e) + [last], acc)
            == Some(acc + [Constant(lit, w.n)] + Shared(w, e) + [Zip('/', RowsOf(w, c), RowsOf(w, e))])
  {
    hide JointRun;
    hide Zip;
    hide Constant;
    hide SameStep;
    var lit := LiteralOf(w, c.token);
    var k := SharedHandle(e, h, |acc| + 1);
    DealtConstant(w, lit, e, acc);
    DividendStep(w, c, e, h, acc);
    hide LiteralOf;
    hide Holds;
    hide RowsOf;
    hide Shared;
    JointTail(DealConstant(w, 0, lit) + Sharing(w, 0, e), DealConstant(w, 1, lit) + Sharing(w, 1, e),
              DealConstant(w, 2, lit) + Sharing(w, 2, e), Div(|acc|, k), acc,
              acc + [Constant(lit, w.n)] + Shared(w, e), Zip('/', RowsOf(w, c), RowsOf(w, e)));
  }

  /** One operator: the three parties stay together, and the last share is its value. */
  lemma OperatorJoint(w: World, op: char, l: Expr, hl: nat, r: Expr, hr: nat, acc: seq<Rows>)
    requires ValidWorld(w) && Synced(w) && Known(w, l) && Known(w, r) && ProperExpr(l) && ProperExpr(r)
    requires IsOp(op) && (op == '/' ==> w.fp64) && !(IsConst(w, l) && IsConst(w, r))
    requires Holds(w, l, hl, acc) && Holds(w, r, hr, acc)
    ensures var j := JointRun(OpsFor(w, 0, op, l, hl, r, hr, |acc|), OpsFor(w, 1, op, l, hl, r, hr, |acc|),
                              OpsFor(w, 2, op, l, hl, r, hr, |acc|), acc);
            j.Some? && j.value != [] && j.value[|j.value| - 1] == Zip(op, RowsOf(w, l), RowsOf(w, r))
  {
    hide JointRun;
    hide Zip;
    if IsConst(w, r) {
      ConstSecondJoint(w, op, l, hl, r, acc);
    } else if !IsConst(w, l) {
      PairJoint(w, op, l, hl, r, hr, acc);
    } else if op != '/' {
      ConstFirstJoint(w, op, l, r, hr, acc);
    } else {
      DividendJoint(w, l, r, hr, acc);
    }
  }
}
