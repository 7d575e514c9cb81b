/** The three-party MPC operator as an ideal functionality.

A party never sees a shared value: it only issues operations on handles, where a handle is the index
of the operation that made the share. `JointRun` takes the three parties' operation lists and runs
them in lockstep; it is `None` as soon as the parties disagree about the next step.
*/
module IdealMpc {
  import opened MachineInts
  import opened Wrappers

  /** `Undefined` is a division by zero and whatever is computed from one. */
  datatype Num = I64(i: int) | FP64(r: real) | Undefined

  function Apply(op: char, a: Num, b: Num): Num {
    match (a, b)
    case (I64(x), I64(y)) =>
      if op == '+' then I64(Wrap64(x + y))
      else if op == '-' then I64(Wrap64(x - y))
      else if op == '*' then I64(Wrap64(x * y))
      else Undefined
    case (FP64(x), FP64(y)) =>
      if op == '+' then FP64(x + y)
      else if op == '-' then FP64(x - y)
      else if op == '*' then FP64(x * y)
      else if op == '/' && y != 0.0 then FP64(x / y)
      else Undefined
    case _ => Undefined
  }

  function Reciprocal(c: Num): Num {
    Apply('/', FP64(1.0), c)
  }

  type Rows = seq<Num>

  function Zip(op: char, a: Rows, b: Rows): (r: Rows)
    requires |a| == |b|
    ensures |r| == |a| && forall k | 0 <= k < |a| :: r[k] == Apply(op, a[k], b[k])
  {
    seq(|a|, k requires 0 <= k < |a| => Apply(op, a[k], b[k]))
  }

  function Constant(c: Num, n: nat): (r: Rows)
    ensures |r| == n && forall k | 0 <= k < n :: r[k] == c
  {
    seq(n, _ => c)
  }

  datatype MpcOp =
    | Deal(data: Rows)
    | Receive(rows: nat)
    | Add(a: nat, b: nat)
    | Sub(a: nat, b: nat)
    | DotMul(a: nat, b: nat)
    | Div(a: nat, b: nat)
    | AddConst(c: Num, a: nat)
    | SubConst(c: Num, a: nat, shareFirst: bool)
    | MulConst(c: Num, a: nat)
    | Reveal(a: nat, to: nat)

  predicate Fits(h: nat, k: nat, vals: seq<Rows>) {
    h < |vals| && k < |vals| && |vals[h]| == |vals[k]|
  }

  /** One party deals, and the two others have room for exactly the rows that are dealt. */
  function ShareStep(x: MpcOp, y: MpcOp, z: MpcOp): Option<Rows> {
    if x.Deal? && y == Receive(|x.data|) && z == Receive(|x.data|) then Some(x.data)
    else if y.Deal? && x == Receive(|y.data|) && z == Receive(|y.data|) then Some(y.data)
    else if z.Deal? && x == Receive(|z.data|) && y == Receive(|z.data|) then Some(z.data)
    else None
  }

  /** An operation that all three parties issue alike. */
  function SameStep(o: MpcOp, vals: seq<Rows>): Option<Rows> {
    match o
    case Deal(_) => None
    case Receive(_) => None
    case Add(h, k) => if Fits(h, k, vals) then Some(Zip('+', vals[h], vals[k])) else None
    case Sub(h, k) => if Fits(h, k, vals) then Some(Zip('-', vals[h], vals[k])) else None
    case DotMul(h, k) => if Fits(h, k, vals) then Some(Zip('*', vals[h], vals[k])) else None
    case Div(h, k) => if Fits(h, k, vals) then Some(Zip('/', vals[h], vals[k])) else None
    case AddConst(c, h) =>
      if h < |vals| then Some(Zip('+', vals[h], Constant(c, |vals[h]|))) else None
    case SubConst(c, h, shareFirst) =>
      if h >= |vals| then None
      else if shareFirst then Some(Zip('-', vals[h], Constant(c, |vals[h]|)))
      else Some(Zip('-', Constant(c, |vals[h]|), vals[h]))
    case MulConst(c, h) =>
      if h < |vals| then Some(Zip('*', vals[h], Constant(c, |vals[h]|))) else None
    case Reveal(h, to) => if h < |vals| && to < 3 then Some(vals[h]) else None
  }

  function JointStep(x: MpcOp, y: MpcOp, z: MpcOp, vals: seq<Rows>): Option<Rows> {
    if x.Deal? || x.Receive? then ShareStep(x, y, z)
    else if x == y && y == z then SameStep(x, vals)
    else None
  }

  function JointRun(x: seq<MpcOp>, y: seq<MpcOp>, z: seq<MpcOp>, vals: seq<Rows>): (r: Option<seq<Rows>>)
    ensures r.Some? ==> |x| == |y| == |z| && |r.value| == |vals| + |x| && vals <= r.value
  {
    if x == [] && y == [] && z == [] then Some(vals)
    else if x == [] || y == [] || z == [] then None
    else
      match JointStep(x[0], y[0], z[0], vals)
      case None => None
      case Some(v) => JointRun(x[1..], y[1..], z[1..], vals + [v])
  }

  lemma {:induction false} JointAppend(x: seq<MpcOp>, y: seq<MpcOp>, z: seq<MpcOp>,
                                       x': seq<MpcOp>, y': seq<MpcOp>, z': seq<MpcOp>, vals: seq<Rows>)
    requires |x| == |y| == |z|
    ensures JointRun(x + x', y + y', z + z', vals)
         == (match JointRun(x, y, z, vals)
             case None => None
             case Some(v) => JointRun(x', y', z', v))
    decreases |x|
  {
    if x == [] {
      assert x + x' == x' && y + y' == y' && z + z' == z';
    } else {
      assert (x + x')[0] == x[0] && (y + y')[0] == y[0] && (z + z')[0] == z[0];
      assert (x + x')[1..] == x[1..] + x' && (y + y')[1..] == y[1..] + y' && (z + z')[1..] == z[1..] + z';
      var s := JointStep(x[0], y[0], z[0], vals);
      if s.Some? {
        JointAppend(x[1..], y[1..], z[1..], x', y', z', vals + [s.value]);
      }
    }
  }

  lemma JointOne(x: MpcOp, y: MpcOp, z: MpcOp, vals: seq<Rows>)
    ensures JointRun([x], [y], [z], vals)
         == (match JointStep(x, y, z, vals)
             case None => None
             case Some(v) => Some(vals + [v]))
  {
    assert [x][1..] == [] && [y][1..] == [] && [z][1..] == [];
  }

  /** Multiplying by the reciprocal of a constant divides by it, a zero constant included. */
  lemma DivideByConstant(x: Num, c: Num)
    requires (x.FP64? || x.Undefined?) && (c.FP64? || c.Undefined?)
    ensures Apply('*', x, Reciprocal(c)) == Apply('/', x, c)
  {
    if x.FP64? && c.FP64? && c.r != 0.0 {
      assert x.r * (1.0 / c.r) == x.r / c.r;
    }
  }
}
