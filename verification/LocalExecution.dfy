/** The plaintext executor, which borrows the expression and the stack of an MPC executor. */
module LocalExecution {
  import opened ExpressGrammar
  import opened ExpressParser
  import opened ExpressNames
  import opened IdealMpc
  import TM = TokenMachine
  import opened MpcProtocol
  import opened MpcTheorems
  import opened LocalEvaluator
  import opened ExpressExecutor
  import opened MpcResults

  class LocalExecutor {
    const mpc: Executor
    var tokenVals: map<string, TM.TokenValue>

    constructor (mpc: Executor)
      ensures this.mpc == mpc && tokenVals == map[]
    {
      this.mpc := mpc;
      tokenVals := map[];
    }

    /** Parses the imported expression again, on whatever the MPC executor left on its stack, runs the
        suffix form on the columns in the clear, and looks the result up by its name. `ok` is false
        where the scan reads past the end of the text. */
    method RunLocalEvaluate(w: World) returns (ok: bool, r: TM.Result<TM.TokenValue>)
      modifies this`tokenVals, mpc`suffixStk
      ensures var parsed := RunScan(Start, mpc.expr, Scan(old(mpc.suffixStk), [], ""));
              && (ok <==> parsed.Parsed?)
              && (ok ==>
                    var m := TM.Exec(Local(w), TM.Machine([], [], old(tokenVals), []), parsed.suffix);
                    && (m.Fail? ==> r == TM.Fail(m.fault))
                    && (m.Ok? && m.value.names == [] ==> r == TM.Fail(TM.Underflow))
                    && (m.Ok? && m.value.names != [] ==>
                          && mpc.suffixStk == Reversed(m.value.names)[1..] && tokenVals == m.value.table
                          && (Reversed(m.value.names)[0] in tokenVals ==>
                                r == TM.Ok(tokenVals[Reversed(m.value.names)[0]]))))
    {
      hide RunScan;
      hide TM.Exec;
      hide Local;
      r := TM.Fail(TM.Underflow);
      ok := mpc.ParseExpress(mpc.expr);
      if !ok { return; }
      var m := mpc.RunSuffix(Local(w), tokenVals, []);
      if m.Fail? { return ok, TM.Fail(m.fault); }
      tokenVals := m.value.table;
      if mpc.suffixStk == [] { return; }
      var token := mpc.suffixStk[0];
      mpc.suffixStk := mpc.suffixStk[1..];
      r := if token in tokenVals then TM.Ok(tokenVals[token]) else TM.Fail(TM.UnknownColumn);
    }
  }

  lemma LocalFiles(w: World, e: Expr)
    requires Evaluable(w, e) && Sharable(w, e) && e.Node?
    ensures var m := TM.Exec(Local(w), TM.IDLE, Postorder(e));
            && m.Ok? && m.value.names == [Name(e)] && Name(e) in m.value.table
            && m.value.table[Name(e)] == TM.VecOf(w.fp64, RowsOf(w, e))
  {
    hide TM.Exec;
    hide Local;
    LocalIsRowWise(w, e, 0);
    TM.ExecTree(Local(w), e);
    TM.TopIsFiled(Local(w), e, 0);
    hide TM.Walk;
  }

  /** The comparison that the plaintext executor exists for. After a session, the stack of the MPC
      executor is empty, so the same text parses to the same suffix form, and what the plaintext
      executor computes is exactly what the MPC session revealed. */
  method Compare(x0: Executor, x1: Executor, x2: Executor, w: World, ghost t: Infix)
    returns (mpcRows: Rows, plain: TM.TokenValue)
    requires x0 != x1 && x1 != x2 && x0 != x2
    requires Sentence(t) && Supported(t) && Tree(t).Node? && x0.expr == Text(t)
    requires Evaluable(w, Tree(t)) && Sharable(w, Tree(t)) && Synced(w)
    requires Loaded(x0, w, 0, Tree(t)) && Loaded(x1, w, 1, Tree(t)) && Loaded(x2, w, 2, Tree(t))
    modifies x0`suffixStk, x0`tokenVals, x0`log, x1`suffixStk, x1`tokenVals, x1`log,
             x2`suffixStk, x2`tokenVals, x2`log
    ensures plain == TM.VecOf(w.fp64, mpcRows) && mpcRows == RowsOf(w, Tree(t)) && x0.suffixStk == []
    ensures Mathematical(w, Tree(t))
  {
    OneReader(RowsOf(w, Tree(t)));
    MeansInMathematics(w, Tree(t));
    hide Mathematical;
    hide Loaded;
    hide RowsOf;
    hide Evaluable;
    var out0, _, _ := Session(x0, x1, x2, w, Tree(t), [0]);
    mpcRows := out0;
    var local := new LocalExecutor(x0);
    plain := EvaluateLocally(local, w, t);
  }

  lemma OneReader(rows: Rows)
    ensures Delivered(0, [0], rows) == rows
  {
    assert [0][1..] == [] && rows + [] == rows;
  }

  method EvaluateLocally(local: LocalExecutor, w: World, ghost t: Infix) returns (plain: TM.TokenValue)
    requires Sentence(t) && Supported(t) && Tree(t).Node? && Evaluable(w, Tree(t)) && Sharable(w, Tree(t))
    requires local.mpc.expr == Text(t) && local.mpc.suffixStk == [] && local.tokenVals == map[]
    modifies local`tokenVals, local.mpc`suffixStk
    ensures plain == TM.VecOf(w.fp64, RowsOf(w, Tree(t))) && local.mpc.suffixStk == []
  {
    ghost var e := Tree(t);
    LocalFiles(w, e);
    ParsesToPostorder(t);
    hide RunScan;
    hide TM.Exec;
    hide Local;
    hide Evaluable;
    hide RowsOf;
    assert Reversed([Name(e)]) == [Name(e)];
    var ok, r := local.RunLocalEvaluate(w);
    plain := r.value;
  }
}
