/** The plaintext evaluator: the reference the MPC evaluator is compared with. */
module LocalEvaluator {
  import opened ExpressGrammar
  import opened ExpressNames
  import opened IdealMpc
  import opened TokenMachine
  import opened MpcEvaluator
  import opened MpcProtocol

  function LocalLeaf(w: World, token: string): Result<TokenValue> {
    if token in w.types && w.types[token] == VALUE then Ok(ConstOf(w.fp64, LiteralOf(w, token)))
    else if token !in w.owner then Fail(UnknownColumn)
    else if token !in w.cols then Fail(MissingValues)
    else Ok(VecOf(w.fp64, w.cols[token]))
  }

  /** Row-wise, as long as the first operand; a shorter second operand is read past its end. */
  function ZipLocal(op: char, a: Rows, b: Rows): Result<Rows> {
    if |b| < |a| then Fail(RowMismatch) else Ok(Zip(op, a, b[..|a|]))
  }

  /** A sum with a constant is computed constant first on either side. */
  function LocalOp(fp64: bool, op: char, v1: TokenValue, v2: TokenValue): Result<TokenValue> {
    var constant := ConstTag(fp64);
    if v1.tag != constant && v2.tag != constant then
      var a :- ReadVec(fp64, v1);
      var b :- ReadVec(fp64, v2);
      var rows :- ZipLocal(op, a, b);
      Ok(VecOf(fp64, rows))
    else if v1.tag == constant then
      var c :- ReadConst(fp64, v1);
      var b :- ReadVec(fp64, v2);
      Ok(VecOf(fp64, Zip(op, Constant(c, |b|), b)))
    else
      var a :- ReadVec(fp64, v1);
      var c :- ReadConst(fp64, v2);
      Ok(VecOf(fp64, if op == '+' then Zip(op, Constant(c, |a|), a) else Zip(op, a, Constant(c, |a|))))
  }

  function Local(w: World): Backend {
    Backend(
      token => LocalLeaf(w, token),
      (op: char, v1: TokenValue, v2: TokenValue, base: nat) =>
        var r := LocalOp(if op == '/' then true else w.fp64, op, v1, v2);
        if r.Fail? then Fail(r.fault) else Ok(Effect(r.value, [])))
  }

  function LocalValue(w: World, e: Expr): TokenValue
    requires Known(w, e) && w.owner.Keys == w.cols.Keys && forall t | t in w.cols :: |w.cols[t]| == w.n
  {
    if IsConst(w, e) then ConstOf(w.fp64, LiteralOf(w, e.token)) else VecOf(w.fp64, RowsOf(w, e))
  }

  lemma LocalPair(fp64: bool, op: char, a: Rows, b: Rows)
    requires |a| == |b|
    ensures LocalOp(fp64, op, VecOf(fp64, a), VecOf(fp64, b)) == Ok(VecOf(fp64, Zip(op, a, b)))
  {
    hide Zip;
    assert b[..|a|] == b;
  }

  lemma LocalConstant(fp64: bool, op: char, c: Num, a: Rows)
    ensures LocalOp(fp64, op, ConstOf(fp64, c), VecOf(fp64, a)) == Ok(VecOf(fp64, Zip(op, Constant(c, |a|), a)))
    ensures LocalOp(fp64, op, VecOf(fp64, a), ConstOf(fp64, c)) == Ok(VecOf(fp64, Zip(op, a, Constant(c, |a|))))
  {
    if op == '+' { ZipCommutes(op, a, Constant(c, |a|)); }
    hide Zip;
    hide Constant;
  }

  lemma LocalNode(w: World, op: char, l: Expr, r: Expr)
    requires ValidWorld(w) && Known(w, l) && Known(w, r) && IsOp(op) && (op == '/' ==> w.fp64)
    ensures LocalOp(w.fp64, op, LocalValue(w, l), LocalValue(w, r))
         == if IsConst(w, l) && IsConst(w, r) then Fail(BadUnionRead)
            else Ok(VecOf(w.fp64, Zip(op, RowsOf(w, l), RowsOf(w, r))))
  {
    hide Zip;
    hide Constant;
    if IsConst(w, l) && IsConst(w, r) {
    } else {
      hide LocalOp;
      if IsConst(w, l) {
        LocalConstant(w.fp64, op, LiteralOf(w, l.token), RowsOf(w, r));
      } else if IsConst(w, r) {
        LocalConstant(w.fp64, op, LiteralOf(w, r.token), RowsOf(w, l));
      } else {
        LocalPair(w.fp64, op, RowsOf(w, l), RowsOf(w, r));
      }
    }
  }

  /** The plaintext evaluator computes the row-wise value of the tree, and it too succeeds exactly
      when no operator has two constant operands. */
  lemma {:induction false} LocalIsRowWise(w: World, e: Expr, base: nat)
    requires ValidWorld(w) && ProperExpr(e) && Known(w, e) && ModeFits(w, e)
    ensures Walk(Local(w), e, base).Ok? <==> Sharable(w, e)
    ensures Sharable(w, e) ==> Walk(Local(w), e, base).value.v == LocalValue(w, e) && Walk(Local(w), e, base).value.ops == []
    decreases e
  {
    match e
    case Leaf(_) =>
    case Node(op, l, r) =>
      hide LocalOp;
      hide Name;
      hide RowsOf;
      hide LocalValue;
      LocalIsRowWise(w, l, base);
      if Sharable(w, l) {
        LocalIsRowWise(w, r, base);
        if Sharable(w, r) {
          LocalNode(w, op, l, r);
          NodeValue(w, op, l, r);
        }
      }
  }

  lemma NodeValue(w: World, op: char, l: Expr, r: Expr)
    requires ValidWorld(w) && Known(w, l) && Known(w, r)
    ensures LocalValue(w, Node(op, l, r)) == VecOf(w.fp64, Zip(op, RowsOf(w, l), RowsOf(w, r)))
  {
  }
}
