/** The stack machine that both evaluators of the expression engine run.

The value of a token is a tagged union. A union remembers the member last written, and reading any
other member is a fault, as are an empty stack, a null share and an unknown column. Stacks have their
top at index 0. What differs between the MPC evaluator and the plaintext one, the value of a leaf and
the effect of an operator, is a `Backend`.
*/
module TokenMachine {
  import opened Wrappers
  import opened ExpressGrammar
  import opened ExpressNames
  import opened IdealMpc

  datatype Union =
    | Unset
    | Fp64Vec(fv: Rows)
    | I64Vec(iv: Rows)
    | Fp64Val(fc: Num)
    | I64Val(ic: Num)
    | ShFp64(fh: nat)
    | ShI64(ih: nat)

  datatype TokenValue = TokenValue(u: Union, tag: nat)

  datatype Fault = Underflow | BadUnionRead | NullShare | UnknownColumn | MissingValues | RowMismatch

  datatype Result<T> = Ok(value: T) | Fail(fault: Fault) {
    predicate IsFailure() { Fail? }
    function PropagateFailure<U>(): Result<U>
      requires Fail?
    {
      Fail(fault)
    }
    function Extract(): T
      requires Ok?
    {
      value
    }
  }

  // ----- the tag table

  const REMOTE: nat := 4

  function VecTag(fp64: bool): nat { if fp64 then 0 else 1 }
  function ConstTag(fp64: bool): nat { if fp64 then 2 else 3 }
  function ShareTag(fp64: bool): nat { if fp64 then 5 else 6 }

  function VecOf(fp64: bool, v: Rows): TokenValue {
    TokenValue(if fp64 then Fp64Vec(v) else I64Vec(v), VecTag(fp64))
  }

  function ConstOf(fp64: bool, c: Num): TokenValue {
    TokenValue(if fp64 then Fp64Val(c) else I64Val(c), ConstTag(fp64))
  }

  function ShareOf(fp64: bool, h: nat): TokenValue {
    TokenValue(if fp64 then ShFp64(h) else ShI64(h), ShareTag(fp64))
  }

  function ReadVec(fp64: bool, v: TokenValue): Result<Rows> {
    match v.u
    case Fp64Vec(x) => if fp64 then Ok(x) else Fail(BadUnionRead)
    case I64Vec(x) => if fp64 then Fail(BadUnionRead) else Ok(x)
    case _ => Fail(BadUnionRead)
  }

  function ReadConst(fp64: bool, v: TokenValue): Result<Num> {
    match v.u
    case Fp64Val(c) => if fp64 then Ok(c) else Fail(BadUnionRead)
    case I64Val(c) => if fp64 then Fail(BadUnionRead) else Ok(c)
    case _ => Fail(BadUnionRead)
  }

  function ReadShare(fp64: bool, v: TokenValue): Result<nat> {
    match v.u
    case ShFp64(h) => if fp64 then Ok(h) else Fail(BadUnionRead)
    case ShI64(h) => if fp64 then Fail(BadUnionRead) else Ok(h)
    case _ => Fail(BadUnionRead)
  }

  /** The value an operator makes, and the MPC operations it issues. */
  datatype Effect = Effect(v: TokenValue, ops: seq<MpcOp>)

  datatype Backend = Backend(
    leaf: string -> Result<TokenValue>,
    run: (char, TokenValue, TokenValue, nat) -> Result<Effect>)

  datatype Machine = Machine(
    names: seq<string>,
    vals: seq<TokenValue>,
    table: map<string, TokenValue>,
    log: seq<MpcOp>)

  const IDLE := Machine([], [], map[], [])

  function ResultName(a: string, op: char, b: string): string {
    "(" + a + [op] + b + ")"
  }

  function ExecToken(be: Backend, m: Machine, token: string): Result<Machine> {
    if IsOpToken(token) then
      if |m.names| < 2 || |m.vals| < 2 then Fail(Underflow)
      else
        var e :- be.run(token[0], m.vals[1], m.vals[0], |m.log|);
        var name := ResultName(m.names[1], token[0], m.names[0]);
        Ok(Machine([name] + m.names[2..], [e.v] + m.vals[2..], m.table[name := e.v], m.log + e.ops))
    else
      var v :- be.leaf(token);
      Ok(Machine([token] + m.names, [v] + m.vals, m.table[token := v], m.log))
  }

  function Exec(be: Backend, m: Machine, suffix: seq<string>): Result<Machine>
    decreases |suffix|
  {
    if suffix == [] then Ok(m)
    else
      var m' :- ExecToken(be, m, suffix[0]);
      Exec(be, m', suffix[1..])
  }

  // ----- the same computation by recursion over the tree

  datatype Outcome = Outcome(v: TokenValue, ops: seq<MpcOp>, table: map<string, TokenValue>)

  /** Evaluate a tree when `base` operations have been issued already. */
  function Walk(be: Backend, e: Expr, base: nat): Result<Outcome> {
    match e
    case Leaf(token) =>
      var v :- be.leaf(token);
      Ok(Outcome(v, [], map[token := v]))
    case Node(op, l, r) =>
      var x :- Walk(be, l, base);
      var y :- Walk(be, r, base + |x.ops|);
      Join(be, op, Name(e), x, y, base)
  }

  function Join(be: Backend, op: char, name: string, x: Outcome, y: Outcome, base: nat): Result<Outcome> {
    var z :- be.run(op, x.v, y.v, base + |x.ops| + |y.ops|);
    Ok(Outcome(z.v, x.ops + y.ops + z.ops, x.table + y.table + map[name := z.v]))
  }

  function Push(m: Machine, name: string, o: Outcome): Machine {
    Machine([name] + m.names, [o.v] + m.vals, m.table + o.table, m.log + o.ops)
  }

  function Continue(be: Backend, m: Result<Machine>, rest: seq<string>): Result<Machine> {
    if m.Fail? then m else Exec(be, m.value, rest)
  }

  function PushResult(m: Machine, name: string, o: Result<Outcome>): Result<Machine> {
    if o.Fail? then Fail(o.fault) else Ok(Push(m, name, o.value))
  }

  function PushWalk(be: Backend, m: Machine, e: Expr): Result<Machine> {
    PushResult(m, Name(e), Walk(be, e, |m.log|))
  }

  lemma ExecCons(be: Backend, m: Machine, token: string, rest: seq<string>)
    ensures Exec(be, m, [token] + rest)
         == Continue(be, ExecToken(be, m, token), rest)
  {
    assert ([token] + rest)[0] == token && ([token] + rest)[1..] == rest;
  }

  /** The machine that has just pushed both operands runs the operator as `Walk` does. */
  lemma OperatorStep(be: Backend, m: Machine, op: char, a: string, b: string, x: Outcome, y: Outcome)
    requires IsOp(op)
    ensures var name := ResultName(a, op, b);
            ExecToken(be, Push(Push(m, a, x), b, y), [op])
            == PushResult(m, name, Join(be, op, name, x, y, |m.log|))
  {
    hide ResultName;
    var m2 := Push(Push(m, a, x), b, y);
    var name := ResultName(a, op, b);
    var z := be.run(op, x.v, y.v, |m2.log|);
    assert m2.names[2..] == m.names && m2.vals[2..] == m.vals;
    if z.Ok? {
      MergeTables(m.table, x.table, y.table, name, z.value.v);
      assert m.log + x.ops + y.ops + z.value.ops == m.log + (x.ops + y.ops + z.value.ops);
    }
  }

  lemma MergeTables(t: map<string, TokenValue>, x: map<string, TokenValue>, y: map<string, TokenValue>,
                    name: string, v: TokenValue)
    ensures (t + x + y)[name := v] == t + (x + y + map[name := v])
  {
  }

  lemma ExecLeaf(be: Backend, m: Machine, token: string)
    requires LeafToken(token)
    ensures ExecToken(be, m, token) == PushWalk(be, m, Leaf(token))
  {
    assert |token| == 1 ==> token[1..] == "";
    if be.leaf(token).Ok? {
      var v := be.leaf(token).value;
      assert m.table[token := v] == m.table + map[token := v];
      assert m.log + [] == m.log;
    }
  }

  /** Running the postorder of a tree is evaluating the tree, faults included. */
  lemma {:induction false} ExecPostorder(be: Backend, m: Machine, e: Expr, rest: seq<string>)
    requires ProperExpr(e)
    ensures Exec(be, m, Postorder(e) + rest) == Continue(be, PushWalk(be, m, e), rest)
    decreases e
  {
    hide Exec;
    hide ExecToken;
    match e
    case Leaf(token) =>
      ExecLeaf(be, m, token);
      ExecCons(be, m, token, rest);
    case Node(op, l, r) =>
      var tail := [[op]] + rest;
      assert Postorder(e) + rest == Postorder(l) + (Postorder(r) + tail);
      ExecPostorder(be, m, l, Postorder(r) + tail);
      var x := Walk(be, l, |m.log|);
      if x.Ok? {
        var m1 := Push(m, Name(l), x.value);
        ExecPostorder(be, m1, r, tail);
        var y := Walk(be, r, |m1.log|);
        if y.Ok? {
          OperatorStep(be, m, op, Name(l), Name(r), x.value, y.value);
          ExecCons(be, Push(m1, Name(r), y.value), [op], rest);
        }
      }
  }

  /** From an idle machine, a tree ends as one name and one value, filed under that name. */
  lemma ExecTree(be: Backend, e: Expr)
    requires ProperExpr(e)
    ensures Exec(be, IDLE, Postorder(e))
         == (var w := Walk(be, e, 0);
             if w.Fail? then Fail(w.fault)
             else Ok(Machine([Name(e)], [w.value.v], w.value.table, w.value.ops)))
  {
    assert Postorder(e) + [] == Postorder(e);
    ExecPostorder(be, IDLE, e, []);
    if Walk(be, e, 0).Ok? {
      var o := Walk(be, e, 0).value;
      assert map[] + o.table == o.table && [] + o.ops == o.ops;
      assert [Name(e)] + [] == [Name(e)] && [o.v] + [] == [o.v];
    }
  }

  lemma TopIsFiled(be: Backend, e: Expr, base: nat)
    requires Walk(be, e, base).Ok?
    ensures Name(e) in Walk(be, e, base).value.table
    ensures Walk(be, e, base).value.table[Name(e)] == Walk(be, e, base).value.v
  {
  }

  /** The walk of a node, from the walks of its operands. */
  lemma WalkParts(be: Backend, op: char, l: Expr, r: Expr, base: nat)
    ensures var z := Walk(be, Node(op, l, r), base);
            var x := Walk(be, l, base);
            if x.Fail? then z == Fail(x.fault)
            else
              var y := Walk(be, r, base + |x.value.ops|);
              if y.Fail? then z == Fail(y.fault)
              else z == Join(be, op, Name(Node(op, l, r)), x.value, y.value, base)
  {
    hide Name;
    hide Join;
  }

  lemma WalkTable(be: Backend, op: char, l: Expr, r: Expr, base: nat)
    requires Walk(be, Node(op, l, r), base).Ok?
    ensures Walk(be, l, base).Ok?
    ensures var x, z := Walk(be, l, base).value, Walk(be, Node(op, l, r), base).value;
            Walk(be, r, base + |x.ops|).Ok? &&
            z.table == x.table + Walk(be, r, base + |x.ops|).value.table + map[Name(Node(op, l, r)) := z.v]
  {
    WalkParts(be, op, l, r, base);
    hide Walk;
    hide Name;
  }

  // ----- which suffix forms run without underflow

  /** The stack of trees that a suffix form builds, or nothing when an operator finds fewer than two. */
  function Forest(suffix: seq<string>, stack: seq<Expr>): Option<seq<Expr>>
    decreases |suffix|
  {
    if suffix == [] then Some(stack)
    else if IsOpToken(suffix[0]) then
      if |stack| < 2 then None
      else Forest(suffix[1..], [Node(suffix[0][0], stack[1], stack[0])] + stack[2..])
    else Forest(suffix[1..], [Leaf(suffix[0])] + stack)
  }

  /** Leaves of trees built by the machine: any token but an operator. */
  predicate OperandLeaves(e: Expr) {
    match e
    case Leaf(token) => !IsOpToken(token)
    case Node(op, l, r) => IsOp(op) && OperandLeaves(l) && OperandLeaves(r)
  }

  function Flat(stack: seq<Expr>): seq<string> {
    if stack == [] then [] else Flat(stack[1..]) + Postorder(stack[0])
  }

  lemma {:induction false} ForestPostorder(e: Expr, rest: seq<string>, stack: seq<Expr>)
    requires OperandLeaves(e)
    ensures Forest(Postorder(e) + rest, stack) == Forest(rest, [e] + stack)
    decreases e
  {
    match e
    case Leaf(token) =>
      assert (Postorder(e) + rest)[0] == token && (Postorder(e) + rest)[1..] == rest;
    case Node(op, l, r) =>
      var tail := [[op]] + rest;
      assert Postorder(e) + rest == Postorder(l) + (Postorder(r) + tail);
      ForestPostorder(l, Postorder(r) + tail, stack);
      ForestPostorder(r, tail, [l] + stack);
      assert tail[0] == [op] && tail[1..] == rest;
      assert ([r] + ([l] + stack))[2..] == stack;
  }

  lemma {:induction false} ForestFlat(suffix: seq<string>, stack: seq<Expr>)
    requires Forest(suffix, stack).Some? && forall k | 0 <= k < |stack| :: OperandLeaves(stack[k])
    ensures var out := Forest(suffix, stack).value;
            Flat(out) == Flat(stack) + suffix && forall k | 0 <= k < |out| :: OperandLeaves(out[k])
    decreases |suffix|
  {
    if suffix == [] {
      assert Flat(stack) + suffix == Flat(stack);
    } else if IsOpToken(suffix[0]) {
      var l, r := stack[1], stack[0];
      var top := Node(suffix[0][0], l, r);
      var stack' := [top] + stack[2..];
      ForestFlat(suffix[1..], stack');
      assert stack'[1..] == stack[2..] && stack[1..][1..] == stack[2..] && [suffix[0][0]] == suffix[0];
      assert Flat(stack') == Flat(stack) + [suffix[0]];
      assert suffix == [suffix[0]] + suffix[1..];
    } else {
      var stack' := [Leaf(suffix[0])] + stack;
      ForestFlat(suffix[1..], stack');
      assert stack'[1..] == stack;
      assert Flat(stack') == Flat(stack) + [suffix[0]];
      assert suffix == [suffix[0]] + suffix[1..];
    }
  }

  /** A suffix form never underflows and ends with one value exactly when it is some postorder. */
  lemma RunsCleanIffPostorder(suffix: seq<string>)
    ensures (Forest(suffix, []).Some? && |Forest(suffix, []).value| == 1)
       <==> (exists e :: OperandLeaves(e) && suffix == Postorder(e))
  {
    if Forest(suffix, []).Some? && |Forest(suffix, []).value| == 1 {
      ForestFlat(suffix, []);
      var out := Forest(suffix, []).value;
      assert out[1..] == [] && [] + suffix == suffix;
      assert [] + Postorder(out[0]) == Postorder(out[0]);
      assert suffix == Postorder(out[0]);
    }
    if e :| OperandLeaves(e) && suffix == Postorder(e) {
      assert Postorder(e) + [] == Postorder(e);
      ForestPostorder(e, [], []);
    }
  }

  /** A run that ends holds as many names and values as the forest holds trees. */
  lemma {:induction false} ExecFollowsForest(be: Backend, m: Machine, suffix: seq<string>, stack: seq<Expr>)
    requires |m.names| == |m.vals| == |stack| && Exec(be, m, suffix).Ok?
    ensures Forest(suffix, stack).Some?
    ensures |Exec(be, m, suffix).value.names| == |Exec(be, m, suffix).value.vals| == |Forest(suffix, stack).value|
    decreases |suffix|
  {
    if suffix != [] {
      var token := suffix[0];
      var stack' := if IsOpToken(token) then [Node(token[0], stack[1], stack[0])] + stack[2..]
                    else [Leaf(token)] + stack;
      ExecFollowsForest(be, ExecToken(be, m, token).value, suffix[1..], stack');
    }
  }

  // ----- the same condition, as a count that can be kept while reading

  /** Operands minus operators. */
  function Height(s: seq<string>): int {
    |s| - 2 * CountOps(s)
  }

  /** More operands than operators in every prefix. */
  predicate Balanced(s: seq<string>) {
    forall k | 0 < k <= |s| :: Height(s[..k]) >= 1
  }

  predicate BalancedOn(h: nat, s: seq<string>) {
    forall k | 0 < k <= |s| :: h + Height(s[..k]) >= 1
  }

  lemma BalancedStep(h: nat, s: seq<string>)
    requires s != []
    ensures var d := if IsOpToken(s[0]) then -1 else 1;
            BalancedOn(h, s) <==> h + d >= 1 && BalancedOn(h + d, s[1..])
  {
    var d := if IsOpToken(s[0]) then -1 else 1;
    forall k | 0 < k <= |s| ensures Height(s[..k]) == d + Height(s[1..][..k - 1]) {
      assert s[..k][1..] == s[1..][..k - 1];
    }
    assert s[..1] == [s[0]] && Height(s[..1]) == d;
    if h + d >= 1 && BalancedOn(h + d, s[1..]) {
      forall k | 0 < k <= |s| ensures h + Height(s[..k]) >= 1 {
        if k > 1 { assert h + d + Height(s[1..][..k - 1]) >= 1; }
      }
    }
    if BalancedOn(h, s) {
      assert h + Height(s[..1]) >= 1;
      forall k | 0 < k <= |s[1..]| ensures h + d + Height(s[1..][..k]) >= 1 {
        assert h + Height(s[..k + 1]) >= 1;
      }
    }
  }

  /** A suffix form builds its trees without underflow exactly when it is balanced, and it builds as
      many of them as it has operands more than operators. */
  lemma {:induction false} BalancedIff(suffix: seq<string>, stack: seq<Expr>)
    ensures Forest(suffix, stack).Some? <==> BalancedOn(|stack|, suffix)
    ensures Forest(suffix, stack).Some? ==> |Forest(suffix, stack).value| == |stack| + Height(suffix)
    ensures stack == [] ==> (BalancedOn(0, suffix) <==> Balanced(suffix))
    decreases |suffix|
  {
    if suffix != [] {
      BalancedStep(|stack|, suffix);
      hide BalancedOn;
      hide Balanced;
      if IsOpToken(suffix[0]) {
        if |stack| >= 2 {
          BalancedIff(suffix[1..], [Node(suffix[0][0], stack[1], stack[0])] + stack[2..]);
        }
      } else {
        BalancedIff(suffix[1..], [Leaf(suffix[0])] + stack);
      }
    }
    SameBalance(suffix);
  }

  lemma SameBalance(suffix: seq<string>)
    ensures BalancedOn(0, suffix) <==> Balanced(suffix)
  {
  }

  /** A backend whose own faults are never reported as an empty stack. */
  ghost predicate NeverUnderflows(be: Backend) {
    && (forall token :: be.leaf(token) != Fail(Underflow))
    && (forall op, v1, v2, base :: be.run(op, v1, v2, base) != Fail(Underflow))
  }

  lemma {:induction false} NoUnderflow(be: Backend, m: Machine, suffix: seq<string>, stack: seq<Expr>)
    requires NeverUnderflows(be) && |m.names| == |m.vals| == |stack| && Forest(suffix, stack).Some?
    ensures Exec(be, m, suffix) != Fail(Underflow)
    decreases |suffix|
  {
    if suffix != [] {
      var token := suffix[0];
      var m' := ExecToken(be, m, token);
      assert m' != Fail(Underflow);
      if m'.Ok? {
        var stack' := if IsOpToken(token) then [Node(token[0], stack[1], stack[0])] + stack[2..]
                      else [Leaf(token)] + stack;
        NoUnderflow(be, m'.value, suffix[1..], stack');
      }
    }
  }

  /** A backend without faults of its own. */
  ghost predicate Faultless(be: Backend) {
    (forall token :: be.leaf(token).Ok?) && (forall op, v1, v2, base :: be.run(op, v1, v2, base).Ok?)
  }

  lemma {:induction false} OnlyUnderflow(be: Backend, m: Machine, suffix: seq<string>)
    requires Faultless(be)
    ensures Exec(be, m, suffix).Ok? || Exec(be, m, suffix) == Fail(Underflow)
    decreases |suffix|
  {
    if suffix != [] {
      var m' := ExecToken(be, m, suffix[0]);
      if m'.Ok? { OnlyUnderflow(be, m'.value, suffix[1..]); }
    }
  }

  /** When nothing else goes wrong, the machine underflows exactly on the forms that are not balanced. */
  lemma UnderflowIff(be: Backend, suffix: seq<string>)
    requires Faultless(be)
    ensures Exec(be, IDLE, suffix) == Fail(Underflow) <==> !Balanced(suffix)
  {
    BalancedIff(suffix, []);
    OnlyUnderflow(be, IDLE, suffix);
    if Balanced(suffix) {
      NoUnderflow(be, IDLE, suffix, []);
    }
    if Exec(be, IDLE, suffix).Ok? {
      ExecFollowsForest(be, IDLE, suffix, []);
    }
  }

  /** And it ends with exactly one name and one value on exactly the postorders of trees. */
  lemma EndsWithOneIff(be: Backend, suffix: seq<string>)
    requires Faultless(be)
    ensures var r := Exec(be, IDLE, suffix);
            r.Ok? && |r.value.names| == |r.value.vals| == 1
            <==> (exists e :: OperandLeaves(e) && suffix == Postorder(e))
  {
    RunsCleanIffPostorder(suffix);
    UnderflowIff(be, suffix);
    OnlyUnderflow(be, IDLE, suffix);
    BalancedIff(suffix, []);
    if Exec(be, IDLE, suffix).Ok? {
      ExecFollowsForest(be, IDLE, suffix, []);
    }
  }
}
