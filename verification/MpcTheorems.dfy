/** Whole evaluations: what three parties that run the same expression compute together. */
module MpcTheorems {
  import opened Wrappers
  import opened ExpressGrammar
  import opened ExpressNames
  import opened IdealMpc
  import opened TokenMachine
  import opened MpcEvaluator
  import opened MpcProtocol

  function WalkOf(w: World, p: nat, e: Expr, base: nat): Result<Outcome>
    requires |w.counts| == 3 && p < 3
  {
    Walk(Mpc(EnvOf(w, p)), e, base)
  }

  function OpsOf(w: World, p: nat, e: Expr, base: nat): seq<MpcOp>
    requires |w.counts| == 3 && p < 3 && WalkOf(w, p, e, base).Ok?
  {
    WalkOf(w, p, e, base).value.ops
  }

  /** Trees that the evaluator can take: known leaves, and floating point wherever there is a quotient. */
  ghost predicate Evaluable(w: World, e: Expr) {
    ValidWorld(w) && ProperExpr(e) && Known(w, e) && ModeFits(w, e)
  }

  /** Every row of the tree's value is its mathematical value. */
  ghost predicate Mathematical(w: World, e: Expr)
    requires Evaluable(w, e)
  {
    forall k: nat | k < w.n :: IsMeaning(w, e, k, RowsOf(w, e)[k])
  }

  lemma MeansInMathematics(w: World, e: Expr)
    requires Evaluable(w, e)
    ensures Mathematical(w, e)
  {
    forall k: nat | k < w.n ensures IsMeaning(w, e, k, RowsOf(w, e)[k]) {
      RowsMean(w, e, k);
    }
  }

  lemma EvaluableParts(w: World, op: char, l: Expr, r: Expr)
    requires Evaluable(w, Node(op, l, r))
    ensures Evaluable(w, l) && Evaluable(w, r) && IsOp(op) && (op == '/' ==> w.fp64)
  {
  }

  // ----- one party: when it succeeds, and what it issues

  /** How many operations a tree takes; it does not depend on the party. */
  function OpCount(w: World, e: Expr): nat {
    match e
    case Leaf(_) => 0
    case Node(op, l, r) =>
      OpCount(w, l) + OpCount(w, r) + 1
      + (if l.Leaf? && (op == '/' || !IsConst(w, l)) then 1 else 0)
      + (if r.Leaf? && !IsConst(w, r) then 1 else 0)
  }

  function HandleOf(w: World, e: Expr, base: nat): nat {
    if OpCount(w, e) == 0 then 0 else base + OpCount(w, e) - 1
  }

  lemma OpsForCount(w: World, p: nat, op: char, l: Expr, hl: nat, r: Expr, hr: nat, base: nat)
    requires ValidWorld(w) && Known(w, l) && Known(w, r) && p < 3 && !(IsConst(w, l) && IsConst(w, r))
    ensures OpCount(w, l) + OpCount(w, r) + |OpsFor(w, p, op, l, hl, r, hr, base)|
         == OpCount(w, Node(op, l, r))
    ensures OpsFor(w, p, op, l, hl, r, hr, base) != []
  {
    hide ConstSecondLast;
    hide PairLast;
    hide ConstOp;
    hide Constant;
  }

  /** Party p's operations for the root of a tree, once both operands have been evaluated. */
  ghost function RootOps(w: World, p: nat, op: char, l: Expr, r: Expr, base: nat): seq<MpcOp>
    requires ValidWorld(w) && Known(w, l) && Known(w, r) && p < 3 && !(IsConst(w, l) && IsConst(w, r))
  {
    OpsFor(w, p, op, l, HandleOf(w, l, base), r, HandleOf(w, r, base + OpCount(w, l)),
           base + OpCount(w, l) + OpCount(w, r))
  }

  ghost predicate Shaped(w: World, p: nat, e: Expr, base: nat)
    requires |w.counts| == 3 && p < 3
  {
    && WalkOf(w, p, e, base).Ok?
    && |OpsOf(w, p, e, base)| == OpCount(w, e)
    && ValueAt(w, p, e, HandleOf(w, e, base)) == Ok(WalkOf(w, p, e, base).value.v)
  }

  /** The operations of a node: those of its left operand, those of its right operand, its own. */
  ghost predicate OpsInOrder(w: World, p: nat, op: char, l: Expr, r: Expr, base: nat, middle: nat, own: seq<MpcOp>)
    requires |w.counts| == 3 && p < 3
  {
    && WalkOf(w, p, Node(op, l, r), base).Ok? && WalkOf(w, p, l, base).Ok? && WalkOf(w, p, r, middle).Ok?
    && OpsOf(w, p, Node(op, l, r), base) == OpsOf(w, p, l, base) + OpsOf(w, p, r, middle) + own
  }

  lemma WalkNode(w: World, p: nat, op: char, l: Expr, r: Expr, base: nat)
    requires Evaluable(w, Node(op, l, r)) && !(IsConst(w, l) && IsConst(w, r)) && p < 3
    requires Shaped(w, p, l, base) && Shaped(w, p, r, base + OpCount(w, l))
    ensures Shaped(w, p, Node(op, l, r), base)
    ensures OpsInOrder(w, p, op, l, r, base, base + OpCount(w, l), RootOps(w, p, op, l, r, base))
  {
    hide Name;
    hide EnvOf;
    hide RunOp;
    hide LeafValue;
    hide OpsFor;
    hide OpCount;
    hide Walk;
    hide ModeFits;
    EvaluableParts(w, op, l, r);
    var be := Mpc(EnvOf(w, p));
    var hl, hr := HandleOf(w, l, base), HandleOf(w, r, base + OpCount(w, l));
    var base' := base + OpCount(w, l) + OpCount(w, r);
    OperatorIssues(w, p, op, l, hl, r, hr, base');
    OpsForCount(w, p, op, l, hl, r, hr, base');
    WalkParts(be, op, l, r, base);
  }

  /** A party evaluates a tree exactly when no operator in it has two constant operands; otherwise it
      dereferences a null share. */
  lemma {:induction false} EvaluatesIffSharable(w: World, p: nat, e: Expr, base: nat)
    requires Evaluable(w, e) && p < 3
    ensures WalkOf(w, p, e, base).Ok? <==> Sharable(w, e)
    ensures WalkOf(w, p, e, base).Fail? ==> WalkOf(w, p, e, base).fault == NullShare
    ensures Sharable(w, e) ==> Shaped(w, p, e, base)
    decreases e
  {
    hide Walk;
    hide EnvOf;
    hide ModeFits;
    hide Join;
    hide LeafValue;
    match e
    case Leaf(_) => LeafShaped(w, p, e, base);
    case Node(op, l, r) =>
      hide OpCount;
      hide ValueAt;
      EvaluableParts(w, op, l, r);
      EvaluatesIffSharable(w, p, l, base);
      WalkParts(Mpc(EnvOf(w, p)), op, l, r, base);
      if Sharable(w, l) {
        EvaluatesIffSharable(w, p, r, base + OpCount(w, l));
        if Sharable(w, r) {
          if IsConst(w, l) && IsConst(w, r) {
            TwoConstants(w, p, op, l, r, base);
          } else {
            WalkNode(w, p, op, l, r, base);
          }
        }
      }
  }

  lemma LeafShaped(w: World, p: nat, e: Expr, base: nat)
    requires ValidWorld(w) && Known(w, e) && e.Leaf? && p < 3
    ensures Shaped(w, p, e, base) && Sharable(w, e)
  {
  }

  lemma TwoConstants(w: World, p: nat, op: char, l: Expr, r: Expr, base: nat)
    requires ValidWorld(w) && p < 3 && IsConst(w, l) && IsConst(w, r) && IsOp(op) && (op == '/' ==> w.fp64)
    ensures WalkOf(w, p, Node(op, l, r), base) == Fail(NullShare)
  {
    hide Name;
    WalkParts(Mpc(EnvOf(w, p)), op, l, r, base);
    var lv, rv := ConstOf(w.fp64, LiteralOf(w, l.token)), ConstOf(w.fp64, LiteralOf(w, r.token));
    assert LeafValue(EnvOf(w, p), l.token) == Ok(lv) && LeafValue(EnvOf(w, p), r.token) == Ok(rv);
    assert RunOp(EnvOf(w, p), op, lv, rv, base) == Fail(NullShare);
  }

  // ----- three parties

  predicate AllOk(w: World, e: Expr, base: nat)
    requires |w.counts| == 3
  {
    WalkOf(w, 0, e, base).Ok? && WalkOf(w, 1, e, base).Ok? && WalkOf(w, 2, e, base).Ok?
  }

  ghost predicate AllShaped(w: World, e: Expr, base: nat)
    requires |w.counts| == 3
  {
    Shaped(w, 0, e, base) && Shaped(w, 1, e, base) && Shaped(w, 2, e, base)
  }

  function JointOf(w: World, e: Expr, acc: seq<Rows>): Option<seq<Rows>>
    requires |w.counts| == 3 && AllOk(w, e, |acc|)
  {
    JointRun(OpsOf(w, 0, e, |acc|), OpsOf(w, 1, e, |acc|), OpsOf(w, 2, e, |acc|), acc)
  }

  lemma AllEvaluate(w: World, e: Expr, base: nat)
    requires Evaluable(w, e) && Sharable(w, e)
    ensures AllShaped(w, e, base) && AllOk(w, e, base)
  {
    hide Walk;
    hide EnvOf;
    EvaluatesIffSharable(w, 0, e, base);
    EvaluatesIffSharable(w, 1, e, base);
    EvaluatesIffSharable(w, 2, e, base);
  }

  /** The joint run of a tree: its left part, its right part, then the operator at its root. */
  lemma JointNode(w: World, op: char, l: Expr, r: Expr, acc: seq<Rows>)
    requires Evaluable(w, Node(op, l, r)) && Sharable(w, Node(op, l, r))
    ensures Evaluable(w, l) && Evaluable(w, r)
    ensures AllOk(w, Node(op, l, r), |acc|) && AllOk(w, l, |acc|)
    ensures JointOf(w, l, acc).None? ==> JointOf(w, Node(op, l, r), acc).None?
    ensures JointOf(w, l, acc).Some? ==>
              var acc1 := JointOf(w, l, acc).value;
              && AllOk(w, r, |acc1|)
              && (JointOf(w, r, acc1).None? ==> JointOf(w, Node(op, l, r), acc).None?)
              && (JointOf(w, r, acc1).Some? ==>
                    JointOf(w, Node(op, l, r), acc)
                    == JointRun(RootOps(w, 0, op, l, r, |acc|), RootOps(w, 1, op, l, r, |acc|),
                                RootOps(w, 2, op, l, r, |acc|), JointOf(w, r, acc1).value))
  {
    hide JointRun;
    hide Walk;
    hide EnvOf;
    hide RootOps;
    hide ValueAt;
    EvaluableParts(w, op, l, r);
    hide ProperExpr;
    hide ModeFits;
    hide ValidWorld;
    var base' := |acc| + OpCount(w, l);
    AllEvaluate(w, l, |acc|);
    AllEvaluate(w, r, base');
    WalkNode(w, 0, op, l, r, |acc|);
    WalkNode(w, 1, op, l, r, |acc|);
    WalkNode(w, 2, op, l, r, |acc|);
    var x0, x1, x2 := OpsOf(w, 0, l, |acc|), OpsOf(w, 1, l, |acc|), OpsOf(w, 2, l, |acc|);
    var y0, y1, y2 := OpsOf(w, 0, r, base'), OpsOf(w, 1, r, base'), OpsOf(w, 2, r, base');
    JointAppend(x0 + y0, x1 + y1, x2 + y2, RootOps(w, 0, op, l, r, |acc|), RootOps(w, 1, op, l, r, |acc|),
                RootOps(w, 2, op, l, r, |acc|), acc);
    JointAppend(x0, x1, x2, y0, y1, y2, acc);
  }

  /** Lockstep and correctness, for every tree and every assignment of columns to parties: the three
      operation lists match step by step, and the last share made holds the value of the tree. */
  lemma {:induction false} Lockstep(w: World, e: Expr, acc: seq<Rows>)
    requires Evaluable(w, e) && Sharable(w, e) && Synced(w)
    ensures AllShaped(w, e, |acc|) && AllOk(w, e, |acc|) && JointOf(w, e, acc).Some?
    ensures Holds(w, e, HandleOf(w, e, |acc|), JointOf(w, e, acc).value)
    decreases e
  {
    AllEvaluate(w, e, |acc|);
    match e
    case Leaf(_) =>
    case Node(op, l, r) =>
      NodeLockstep(w, op, l, r, acc);
  }

  lemma NodeLockstep(w: World, op: char, l: Expr, r: Expr, acc: seq<Rows>)
    requires Evaluable(w, Node(op, l, r)) && Sharable(w, Node(op, l, r)) && Synced(w)
    requires AllShaped(w, Node(op, l, r), |acc|) && AllOk(w, Node(op, l, r), |acc|)
    ensures JointOf(w, Node(op, l, r), acc).Some?
    ensures Holds(w, Node(op, l, r), HandleOf(w, Node(op, l, r), |acc|), JointOf(w, Node(op, l, r), acc).value)
    decreases Node(op, l, r), 0
  {
    hide JointRun;
    hide Walk;
    hide EnvOf;
    hide OpsFor;
    hide OpCount;
    EvaluableParts(w, op, l, r);
    JointNode(w, op, l, r, acc);
    Lockstep(w, l, acc);
    var acc1 := JointOf(w, l, acc).value;
    Lockstep(w, r, acc1);
    var acc2 := JointOf(w, r, acc1).value;
    assert |acc1| == |acc| + OpCount(w, l) && |acc2| == |acc1| + OpCount(w, r);
    OperatorJoint(w, op, l, HandleOf(w, l, |acc|), r, HandleOf(w, r, |acc1|), acc2);
    OpsForCount(w, 0, op, l, HandleOf(w, l, |acc|), r, HandleOf(w, r, |acc1|), |acc2|);
  }
}
