/** One party's side of the MPC evaluator: leaf values, operators, and the tag discipline. */
module MpcEvaluator {
  import opened MachineInts
  import opened Wrappers
  import opened ExpressGrammar
  import opened ExpressNames
  import opened IdealMpc
  import opened TokenMachine

  datatype TokenType = COLUMN | VALUE

  /** What a party knows when evaluation starts. `stod` and `atol` are the C library conversions;
      `count` is the row count of the columns it has imported. */
  datatype Env = Env(
    party: nat,
    fp64: bool,
    types: map<string, TokenType>,
    local: map<string, bool>,
    feed: map<string, Rows>,
    count: nat,
    stod: string -> real,
    atol: string -> int)

  function Literal(fp64: bool, stod: string -> real, atol: string -> int, token: string): Num {
    if fp64 then FP64(stod(token)) else I64(Wrap64(atol(token)))
  }

  /** An untyped token is taken for a column, as a default-constructed map entry is. */
  function LeafValue(env: Env, token: string): Result<TokenValue> {
    if token in env.types && env.types[token] == VALUE then
      Ok(ConstOf(env.fp64, Literal(env.fp64, env.stod, env.atol, token)))
    else if token !in env.local then Fail(UnknownColumn)
    else if !env.local[token] then Ok(TokenValue(Unset, REMOTE))
    else if token !in env.feed then Fail(MissingValues)
    else Ok(VecOf(env.fp64, env.feed[token]))
  }

  /** An operand made ready: a share, or a constant, and the sharing step it took. */
  datatype Ready = Ready(share: Option<nat>, c: Num, ops: seq<MpcOp>)

  function Prepare(env: Env, fp64: bool, v: TokenValue, base: nat): Result<Ready> {
    if v.tag == VecTag(fp64) then
      var data :- ReadVec(fp64, v);
      Ok(Ready(Some(base), Undefined, [Deal(data)]))
    else if v.tag == REMOTE then Ok(Ready(Some(base), Undefined, [Receive(env.count)]))
    else if v.tag == ConstTag(fp64) then
      var c :- ReadConst(fp64, v);
      Ok(Ready(None, c, []))
    else
      var h :- ReadShare(fp64, v);
      Ok(Ready(Some(h), Undefined, []))
  }

  function Dereference(share: Option<nat>): Result<nat> {
    if share.None? then Fail(NullShare) else Ok(share.value)
  }

  function PairOp(op: char, h: nat, k: nat): MpcOp {
    if op == '+' then Add(h, k) else if op == '-' then Sub(h, k) else DotMul(h, k)
  }

  function ConstOp(op: char, c: Num, h: nat, shareFirst: bool): MpcOp {
    if op == '+' then AddConst(c, h)
    else if op == '-' then SubConst(c, h, shareFirst)
    else MulConst(c, h)
  }

  /** Addition, subtraction and multiplication, in either mode. */
  function RunLinear(env: Env, op: char, v1: TokenValue, v2: TokenValue, base: nat): Result<Effect> {
    var x :- Prepare(env, env.fp64, v1, base);
    var y :- Prepare(env, env.fp64, v2, base + |x.ops|);
    var ops := x.ops + y.ops;
    var constant := ConstTag(env.fp64);
    var last :-
      if v1.tag != constant && v2.tag != constant then
        var h :- Dereference(x.share);
        var k :- Dereference(y.share);
        Ok(PairOp(op, h, k))
      else if v1.tag == constant then
        var k :- Dereference(y.share);
        Ok(ConstOp(op, x.c, k, false))
      else
        var h :- Dereference(x.share);
        Ok(ConstOp(op, y.c, h, true));
    Ok(Effect(ShareOf(env.fp64, base + |ops|), ops + [last]))
  }

  /** A constant dividend is shared by party 0; a constant divisor becomes a multiplication. */
  function PrepareDividend(env: Env, v: TokenValue, base: nat): Result<Ready> {
    if v.tag == ConstTag(true) then
      var c :- ReadConst(true, v);
      var step := if env.party == 0 then Deal(Constant(c, env.count)) else Receive(env.count);
      Ok(Ready(Some(base), c, [step]))
    else Prepare(env, true, v, base)
  }

  function RunDiv(env: Env, v1: TokenValue, v2: TokenValue, base: nat): Result<Effect> {
    var x :- PrepareDividend(env, v1, base);
    var y :- Prepare(env, true, v2, base + |x.ops|);
    var ops := x.ops + y.ops;
    var h :- Dereference(x.share);
    var last :-
      if v1.tag != ConstTag(true) && v2.tag == ConstTag(true) then Ok(MulConst(Reciprocal(y.c), h))
      else
        var k :- Dereference(y.share);
        Ok(Div(h, k));
    Ok(Effect(ShareOf(true, base + |ops|), ops + [last]))
  }

  function RunOp(env: Env, op: char, v1: TokenValue, v2: TokenValue, base: nat): Result<Effect> {
    if op == '/' then RunDiv(env, v1, v2, base) else RunLinear(env, op, v1, v2, base)
  }

  function Mpc(env: Env): Backend {
    Backend(
      token => LeafValue(env, token),
      (op: char, v1: TokenValue, v2: TokenValue, base: nat) => RunOp(env, op, v1, v2, base))
  }

  lemma RunPair(env: Env, op: char, v1: TokenValue, v2: TokenValue, base: nat, h: nat, k: nat,
                o1: seq<MpcOp>, o2: seq<MpcOp>)
    requires Prepare(env, env.fp64, v1, base) == Ok(Ready(Some(h), Undefined, o1))
    requires Prepare(env, env.fp64, v2, base + |o1|) == Ok(Ready(Some(k), Undefined, o2))
    requires v1.tag != ConstTag(env.fp64) && v2.tag != ConstTag(env.fp64) && (op == '/' ==> env.fp64)
    ensures RunOp(env, op, v1, v2, base)
         == Ok(Effect(ShareOf(env.fp64, base + |o1 + o2|),
                      o1 + o2 + [if op == '/' then Div(h, k) else PairOp(op, h, k)]))
  {
    hide Prepare;
    hide PairOp;
  }

  /** The evaluator's own faults are others than an empty stack. */
  lemma MpcNeverUnderflows(env: Env)
    ensures NeverUnderflows(Mpc(env))
  {
    forall op, v1, v2, base ensures Mpc(env).run(op, v1, v2, base) != Fail(Underflow) {
      RunFaults(env, op, v1, v2, base);
    }
  }

  lemma RunFaults(env: Env, op: char, v1: TokenValue, v2: TokenValue, base: nat)
    ensures RunOp(env, op, v1, v2, base) != Fail(Underflow)
  {
    hide PairOp;
    hide ConstOp;
  }

  // ----- tag discipline

  /** The tag table: which union member is set for which tag. */
  predicate MemberSet(v: TokenValue) {
    || (v.tag == 0 && v.u.Fp64Vec?)
    || (v.tag == 1 && v.u.I64Vec?)
    || (v.tag == 2 && v.u.Fp64Val?)
    || (v.tag == 3 && v.u.I64Val?)
    || (v.tag == 4 && v.u.Unset?)
    || (v.tag == 5 && v.u.ShFp64?)
    || (v.tag == 6 && v.u.ShI64?)
  }

  /** The tag is one of the four of the mode, and it names the union member that was written. */
  predicate WellTagged(fp64: bool, v: TokenValue) {
    && MemberSet(v)
    && (if fp64 then v.tag == 0 || v.tag == 2 || v.tag == 4 || v.tag == 5
        else v.tag == 1 || v.tag == 3 || v.tag == 4 || v.tag == 6)
  }

  predicate StackTagged(fp64: bool, m: Machine) {
    && (forall k | 0 <= k < |m.vals| :: WellTagged(fp64, m.vals[k]))
    && (forall name | name in m.table :: WellTagged(fp64, m.table[name]))
  }

  lemma TaggedStep(env: Env, m: Machine, token: string)
    requires StackTagged(env.fp64, m) && (token == "/" ==> env.fp64)
    ensures ExecToken(Mpc(env), m, token) != Fail(BadUnionRead)
    ensures ExecToken(Mpc(env), m, token).Ok? ==>
              StackTagged(env.fp64, ExecToken(Mpc(env), m, token).value)
  {
    if IsOpToken(token) && 2 <= |m.names| && 2 <= |m.vals| {
      TaggedRun(env, token[0], m.vals[1], m.vals[0], |m.log|);
    }
  }

  lemma TaggedRun(env: Env, op: char, v1: TokenValue, v2: TokenValue, base: nat)
    requires WellTagged(env.fp64, v1) && WellTagged(env.fp64, v2) && (op == '/' ==> env.fp64)
    ensures RunOp(env, op, v1, v2, base) != Fail(BadUnionRead)
    ensures RunOp(env, op, v1, v2, base).Ok? ==> WellTagged(env.fp64, RunOp(env, op, v1, v2, base).value.v)
  {
    hide PairOp;
    hide ConstOp;
  }

  /** Over every run of every suffix form, malformed ones included: tags stay in the four of the
      mode, and no union member is read that was not the one last written. */
  lemma {:induction false} TagDiscipline(env: Env, m: Machine, suffix: seq<string>)
    requires StackTagged(env.fp64, m) && ("/" in suffix ==> env.fp64)
    ensures Exec(Mpc(env), m, suffix) != Fail(BadUnionRead)
    ensures Exec(Mpc(env), m, suffix).Ok? ==> StackTagged(env.fp64, Exec(Mpc(env), m, suffix).value)
    decreases |suffix|
  {
    if suffix != [] {
      TaggedStep(env, m, suffix[0]);
      var m' := ExecToken(Mpc(env), m, suffix[0]);
      if m'.Ok? {
        TagDiscipline(env, m'.value, suffix[1..]);
      }
    }
  }

  /** The discipline needs the mode: in integer mode a quotient of two local columns reads the
      floating-point member of a union that holds integers. */
  lemma DivisionInIntegerMode(env: Env, a: Rows, b: Rows, base: nat)
    requires !env.fp64
    ensures RunOp(env, '/', VecOf(false, a), VecOf(false, b), base) == Fail(BadUnionRead)
  {
  }
}
