/** End to end: from the text of an expression to the numbers each listed party receives. */
module MpcResults {
  import opened Wrappers
  import opened ExpressGrammar
  import opened ExpressParser
  import opened ExpressNames
  import opened IdealMpc
  import TM = TokenMachine
  import opened MpcEvaluator
  import opened MpcProtocol
  import opened MpcTheorems
  import opened LocalEvaluator
  import opened ExpressExecutor

  // ----- a party without a column

  /** A party that owns a column works with that column's row count. */
  ghost predicate OwnersCounted(w: World)
    requires ValidWorld(w)
  {
    forall t | t in w.owner :: w.counts[w.owner[t]] == w.n
  }

  /** For every column there is a party, not its owner, that reserves another number of rows for it. */
  ghost predicate Starved(w: World)
    requires ValidWorld(w)
  {
    forall t | t in w.owner :: exists p :: 0 <= p < 3 && p != w.owner[t] && w.counts[p] != w.n
  }

  lemma SharingBlocks(w: World, e: Expr, acc: seq<Rows>,
                      x: seq<MpcOp>, y: seq<MpcOp>, z: seq<MpcOp>)
    requires ValidWorld(w) && Starved(w) && Known(w, e) && e.Leaf? && !IsConst(w, e)
    ensures JointRun(Sharing(w, 0, e) + x, Sharing(w, 1, e) + y, Sharing(w, 2, e) + z, acc).None?
  {
    hide JointRun;
    SharingIff(w, e, acc);
    JointAppend(Sharing(w, 0, e), Sharing(w, 1, e), Sharing(w, 2, e), x, y, z, acc);
  }

  /** A constant dividend may still be shared; the divisor is not. */
  lemma DividendBlocks(w: World, c: Num, e: Expr, acc: seq<Rows>, t: seq<MpcOp>)
    requires ValidWorld(w) && Starved(w) && Known(w, e) && e.Leaf? && !IsConst(w, e)
    ensures JointRun(DealConstant(w, 0, c) + (Sharing(w, 0, e) + t), DealConstant(w, 1, c) + (Sharing(w, 1, e) + t),
                     DealConstant(w, 2, c) + (Sharing(w, 2, e) + t), acc).None?
  {
    hide JointRun;
    hide Sharing;
    var x, y, z := DealConstant(w, 0, c), DealConstant(w, 1, c), DealConstant(w, 2, c);
    JointAppend(x, y, z, Sharing(w, 0, e) + t, Sharing(w, 1, e) + t, Sharing(w, 2, e) + t, acc);
    if JointRun(x, y, z, acc).Some? {
      SharingBlocks(w, e, JointRun(x, y, z, acc).value, t, t, t);
    }
  }

  lemma RootBlocks(w: World, op: char, l: Expr, hl: nat, r: Expr, hr: nat, base: nat, acc: seq<Rows>)
    requires ValidWorld(w) && Starved(w) && Known(w, l) && Known(w, r) && l.Leaf? && r.Leaf?
    requires !(IsConst(w, l) && IsConst(w, r))
    ensures JointRun(OpsFor(w, 0, op, l, hl, r, hr, base), OpsFor(w, 1, op, l, hl, r, hr, base),
                     OpsFor(w, 2, op, l, hl, r, hr, base), acc).None?
  {
    hide JointRun;
    hide ConstSecondLast;
    hide PairLast;
    hide ConstOp;
    hide Sharing;
    hide DealConstant;
    if IsConst(w, r) {
      var t := [ConstSecondLast(w, op, l, hl, r, base)];
      SharingBlocks(w, l, acc, t, t, t);
    } else if !IsConst(w, l) {
      var t := [PairLast(op, l, hl, r, hr, base)];
      SharingBlocks(w, l, acc, Sharing(w, 0, r) + t, Sharing(w, 1, r) + t, Sharing(w, 2, r) + t);
      Assoc(Sharing(w, 0, l), Sharing(w, 0, r), t);
      Assoc(Sharing(w, 1, l), Sharing(w, 1, r), t);
      Assoc(Sharing(w, 2, l), Sharing(w, 2, r), t);
    } else if op != '/' {
      var t := [ConstOp(op, LiteralOf(w, l.token), SharedHandle(r, hr, base), false)];
      SharingBlocks(w, r, acc, t, t, t);
    } else {
      var t := [Div(base, SharedHandle(r, hr, base + 1))];
      var c := LiteralOf(w, l.token);
      DividendBlocks(w, c, r, acc, t);
      Assoc(DealConstant(w, 0, c), Sharing(w, 0, r), t);
      Assoc(DealConstant(w, 1, c), Sharing(w, 1, r), t);
      Assoc(DealConstant(w, 2, c), Sharing(w, 2, r), t);
    }
  }

  lemma Assoc<T>(a: seq<T>, b: seq<T>, c: seq<T>)
    ensures a + b + c == a + (b + c)
  {
  }

  /** Wrong row counts stop every evaluation: the first column that is shared does not fit. */
  lemma {:induction false} StarvedBlocks(w: World, e: Expr, acc: seq<Rows>)
    requires Evaluable(w, e) && Sharable(w, e) && Starved(w) && e.Node?
    ensures AllOk(w, e, |acc|) && JointOf(w, e, acc).None?
    decreases e
  {
    hide JointRun;
    hide TM.Walk;
    hide EnvOf;
    hide OpsFor;
    hide Starved;
    var op, l, r := e.op, e.left, e.right;
    JointNode(w, op, l, r, acc);
    if l.Node? {
      StarvedBlocks(w, l, acc);
    } else {
      LeafJoint(w, l, acc);
      if r.Node? {
        StarvedBlocks(w, r, acc);
      } else {
        LeafJoint(w, r, acc);
        RootBlocks(w, op, l, HandleOf(w, l, |acc|), r, HandleOf(w, r, |acc| + OpCount(w, l)),
                   |acc| + OpCount(w, l) + OpCount(w, r), acc);
      }
    }
  }

  lemma LeafJoint(w: World, e: Expr, acc: seq<Rows>)
    requires Evaluable(w, e) && e.Leaf?
    ensures AllOk(w, e, |acc|) && JointOf(w, e, acc) == Some(acc)
  {
  }

  /** Evaluation goes through exactly when all three parties work with the one row count. */
  lemma RunsIffSynced(w: World, e: Expr, acc: seq<Rows>)
    requires Evaluable(w, e) && Sharable(w, e) && OwnersCounted(w) && e.Node?
    ensures AllOk(w, e, |acc|)
    ensures JointOf(w, e, acc).Some? <==> Synced(w)
  {
    hide JointRun;
    hide TM.Walk;
    hide EnvOf;
    if Synced(w) {
      Lockstep(w, e, acc);
    } else {
      var q: nat :| q < 3 && w.counts[q] != w.n;
      assert Starved(w);
      StarvedBlocks(w, e, acc);
    }
  }

  // ----- the table of named results

  predicate Subtree(f: Expr, e: Expr) {
    f == e || (e.Node? && (Subtree(f, e.left) || Subtree(f, e.right)))
  }

  /** The value filed for f is a value of f: a leaf's own value, or the handle of a share of it. */
  ghost predicate Means(w: World, p: nat, v: TM.TokenValue, f: Expr, acc: seq<Rows>)
    requires ValidWorld(w) && Known(w, f) && p < 3
  {
    exists h: nat :: ValueAt(w, p, f, h) == TM.Ok(v) && Holds(w, f, h, acc)
  }

  ghost predicate NamesOnly(table: map<string, TM.TokenValue>, e: Expr) {
    forall name | name in table :: exists f :: Subtree(f, e) && name == Name(f)
  }

  ghost predicate Faithful(w: World, p: nat, table: map<string, TM.TokenValue>, e: Expr, acc: seq<Rows>)
    requires ValidWorld(w) && p < 3
  {
    forall f | Subtree(f, e) && Known(w, f) :: Name(f) in table && Means(w, p, table[Name(f)], f, acc)
  }

  lemma {:induction false} SubtreeFacts(w: World, f: Expr, e: Expr)
    requires Subtree(f, e) && ProperExpr(e) && Known(w, e)
    ensures ProperExpr(f) && Known(w, f)
    decreases e
  {
    if f != e {
      if Subtree(f, e.left) { SubtreeFacts(w, f, e.left); } else { SubtreeFacts(w, f, e.right); }
    }
  }

  lemma MeansGrows(w: World, p: nat, v: TM.TokenValue, f: Expr, acc: seq<Rows>, acc': seq<Rows>)
    requires ValidWorld(w) && Known(w, f) && p < 3 && Means(w, p, v, f, acc) && acc <= acc'
    ensures Means(w, p, v, f, acc')
  {
    var h: nat :| ValueAt(w, p, f, h) == TM.Ok(v) && Holds(w, f, h, acc);
    assert Holds(w, f, h, acc');
  }

  /** Whatever the tree repeats, the table never confuses two results: every name in it is the name of
      a subtree, and the value filed under it means that subtree. */
  lemma {:induction false} TableIsFaithful(w: World, p: nat, e: Expr, acc: seq<Rows>)
    requires Evaluable(w, e) && Sharable(w, e) && Synced(w) && p < 3
    ensures AllOk(w, e, |acc|) && WalkOf(w, p, e, |acc|).Ok? && JointOf(w, e, acc).Some?
    ensures NamesOnly(WalkOf(w, p, e, |acc|).value.table, e)
    ensures Faithful(w, p, WalkOf(w, p, e, |acc|).value.table, e, JointOf(w, e, acc).value)
    decreases e
  {
    hide JointRun;
    hide TM.Walk;
    hide EnvOf;
    hide Faithful;
    hide NamesOnly;
    Lockstep(w, e, acc);
    match e
    case Leaf(_) => LeafTable(w, p, e, acc);
    case Node(op, l, r) =>
      EvaluableParts(w, op, l, r);
      TableIsFaithful(w, p, l, acc);
      TableIsFaithful(w, p, r, JointOf(w, l, acc).value);
      NodeTable(w, p, op, l, r, acc);
  }

  lemma NodeTable(w: World, p: nat, op: char, l: Expr, r: Expr, acc: seq<Rows>)
    requires Evaluable(w, Node(op, l, r)) && Sharable(w, Node(op, l, r)) && Synced(w) && p < 3
    requires AllOk(w, l, |acc|) && JointOf(w, l, acc).Some?
    requires NamesOnly(WalkOf(w, p, l, |acc|).value.table, l)
    requires Faithful(w, p, WalkOf(w, p, l, |acc|).value.table, l, JointOf(w, l, acc).value)
    requires var acc1 := JointOf(w, l, acc).value;
             && AllOk(w, r, |acc1|) && JointOf(w, r, acc1).Some?
             && NamesOnly(WalkOf(w, p, r, |acc1|).value.table, r)
             && Faithful(w, p, WalkOf(w, p, r, |acc1|).value.table, r, JointOf(w, r, acc1).value)
    ensures var e := Node(op, l, r);
            && AllOk(w, e, |acc|) && WalkOf(w, p, e, |acc|).Ok? && JointOf(w, e, acc).Some?
            && NamesOnly(WalkOf(w, p, e, |acc|).value.table, e)
            && Faithful(w, p, WalkOf(w, p, e, |acc|).value.table, e, JointOf(w, e, acc).value)
  {
    hide JointRun;
    hide TM.Walk;
    hide EnvOf;
    hide Faithful;
    hide NamesOnly;
    hide OpCount;
    hide RootOps;
    hide ModeFits;
    hide ValueAt;
    hide Holds;
    var e := Node(op, l, r);
    Lockstep(w, e, acc);
    EvaluableParts(w, op, l, r);
    Lockstep(w, l, acc);
    JointNode(w, op, l, r, acc);
    var acc1 := JointOf(w, l, acc).value;
    TM.WalkTable(Mpc(EnvOf(w, p)), op, l, r, |acc|);
    assert |acc1| == |acc| + |OpsOf(w, p, l, |acc|)|;
    MergeFaithful(w, p, e, WalkOf(w, p, l, |acc|).value.table, WalkOf(w, p, r, |acc1|).value.table,
                  WalkOf(w, p, e, |acc|).value.v, acc1, JointOf(w, r, acc1).value, JointOf(w, e, acc).value,
                  HandleOf(w, e, |acc|));
  }

  lemma LeafTable(w: World, p: nat, e: Expr, acc: seq<Rows>)
    requires Evaluable(w, e) && e.Leaf? && p < 3 && AllOk(w, e, |acc|) && WalkOf(w, p, e, |acc|).Ok? && JointOf(w, e, acc).Some?
    ensures NamesOnly(WalkOf(w, p, e, |acc|).value.table, e)
    ensures Faithful(w, p, WalkOf(w, p, e, |acc|).value.table, e, JointOf(w, e, acc).value)
  {
    hide JointRun;
    var v := WalkOf(w, p, e, |acc|).value.v;
    assert ValueAt(w, p, e, 0) == TM.Ok(v) && Holds(w, e, 0, JointOf(w, e, acc).value);
    assert Subtree(e, e);
  }

  lemma MergeFaithful(w: World, p: nat, e: Expr, tl: map<string, TM.TokenValue>, tr: map<string, TM.TokenValue>,
                      v: TM.TokenValue, acc1: seq<Rows>, acc2: seq<Rows>, acc3: seq<Rows>, h: nat)
    requires ValidWorld(w) && ProperExpr(e) && Known(w, e) && e.Node? && p < 3
    requires NamesOnly(tl, e.left) && NamesOnly(tr, e.right)
    requires Faithful(w, p, tl, e.left, acc1) && Faithful(w, p, tr, e.right, acc2)
    requires acc1 <= acc2 <= acc3
    requires ValueAt(w, p, e, h) == TM.Ok(v) && Holds(w, e, h, acc3)
    ensures NamesOnly(tl + tr + map[Name(e) := v], e)
    ensures Faithful(w, p, tl + tr + map[Name(e) := v], e, acc3)
  {
    var table := tl + tr + map[Name(e) := v];
    forall name | name in table ensures exists f :: Subtree(f, e) && name == Name(f) {
      if name == Name(e) {
        assert Subtree(e, e);
      } else if name in tr {
        var f :| Subtree(f, e.right) && name == Name(f);
        assert Subtree(f, e);
      } else {
        var f :| Subtree(f, e.left) && name == Name(f);
        assert Subtree(f, e);
      }
    }
    forall f | Subtree(f, e) && Known(w, f)
      ensures Name(f) in table && Means(w, p, table[Name(f)], f, acc3)
    {
      MergedEntry(w, p, e, f, tl, tr, v, acc1, acc2, acc3, h);
    }
  }

  lemma MergedEntry(w: World, p: nat, e: Expr, f: Expr, tl: map<string, TM.TokenValue>, tr: map<string, TM.TokenValue>,
                    v: TM.TokenValue, acc1: seq<Rows>, acc2: seq<Rows>, acc3: seq<Rows>, h: nat)
    requires ValidWorld(w) && ProperExpr(e) && Known(w, e) && e.Node? && p < 3 && Subtree(f, e) && Known(w, f)
    requires NamesOnly(tl, e.left) && NamesOnly(tr, e.right)
    requires Faithful(w, p, tl, e.left, acc1) && Faithful(w, p, tr, e.right, acc2)
    requires acc1 <= acc2 <= acc3
    requires ValueAt(w, p, e, h) == TM.Ok(v) && Holds(w, e, h, acc3)
    ensures var table := tl + tr + map[Name(e) := v];
            Name(f) in table && Means(w, p, table[Name(f)], f, acc3)
  {
    hide Holds;
    hide ValueAt;
    SubtreeFacts(w, f, e);
    if Name(f) == Name(e) {
      NameInjective(f, e);
    } else if Name(f) in tr {
      var g :| Subtree(g, e.right) && Name(f) == Name(g);
      SubtreeFacts(w, g, e.right);
      NameInjective(f, g);
      MeansGrows(w, p, tr[Name(f)], f, acc2, acc3);
    } else if Subtree(f, e.left) {
      MeansGrows(w, p, tl[Name(f)], f, acc1, acc3);
    }
  }

  // ----- revealing, and the whole way from text to numbers

  lemma {:induction false} RevealRuns(h: nat, parties: seq<nat>, acc: seq<Rows>)
    requires h < |acc| && forall k | 0 <= k < |parties| :: parties[k] < 3
    ensures var ops := RevealOps(h, parties);
            var j := JointRun(ops, ops, ops, acc);
            j.Some? && forall k | |acc| <= k < |j.value| :: j.value[k] == acc[h]
    decreases |parties|
  {
    if parties != [] {
      var ops := RevealOps(h, parties);
      assert ops[0] == Reveal(h, parties[0]) && ops[1..] == RevealOps(h, parties[1..]);
      var acc' := acc + [acc[h]];
      RevealRuns(h, parties[1..], acc');
      var vals := JointRun(ops, ops, ops, acc).value;
      assert vals == JointRun(ops[1..], ops[1..], ops[1..], acc').value;
      assert vals[|acc|] == acc'[|acc|];
    }
  }

  /** Party p ends with one name, one value, and that value filed under that name: a share of e. */
  ghost predicate EndsWith(w: World, p: nat, suffix: seq<string>, e: Expr)
    requires |w.counts| == 3 && p < 3
  {
    var m := TM.Exec(Mpc(EnvOf(w, p)), TM.IDLE, suffix);
    var v := TM.ShareOf(w.fp64, HandleOf(w, e, 0));
    && m.Ok? && m.value.names == [Name(e)] && m.value.vals == [v]
    && Name(e) in m.value.table && m.value.table[Name(e)] == v
    && WalkOf(w, p, e, 0).Ok? && m.value.log == OpsOf(w, p, e, 0)
  }

  lemma PartyEnds(w: World, p: nat, e: Expr)
    requires Evaluable(w, e) && Sharable(w, e) && e.Node? && p < 3
    ensures EndsWith(w, p, Postorder(e), e)
  {
    hide TM.Exec;
    hide EnvOf;
    EvaluatesIffSharable(w, p, e, 0);
    TM.ExecTree(Mpc(EnvOf(w, p)), e);
    TM.TopIsFiled(Mpc(EnvOf(w, p)), e, 0);
    hide TM.Walk;
  }

  /** The operations of all parties, reveals included, run to the end, and every reveal shows e. */
  ghost predicate RevealsRows(w: World, e: Expr, parties: seq<nat>)
    requires ValidWorld(w) && Known(w, e) && AllOk(w, e, 0)
  {
    var tail := RevealOps(HandleOf(w, e, 0), parties);
    var j := JointRun(OpsOf(w, 0, e, 0) + tail, OpsOf(w, 1, e, 0) + tail, OpsOf(w, 2, e, 0) + tail, []);
    && j.Some? && |j.value| == OpCount(w, e) + |parties|
    && forall k | OpCount(w, e) <= k < |j.value| :: j.value[k] == RowsOf(w, e)
  }

  lemma JointReveal(w: World, e: Expr, parties: seq<nat>)
    requires Evaluable(w, e) && Sharable(w, e) && Synced(w) && e.Node?
    requires forall k | 0 <= k < |parties| :: parties[k] < 3
    ensures AllOk(w, e, 0) && RevealsRows(w, e, parties)
  {
    hide JointRun;
    hide TM.Walk;
    hide EnvOf;
    hide ModeFits;
    Lockstep(w, e, []);
    var acc := JointOf(w, e, []).value;
    var h := HandleOf(w, e, 0);
    assert |acc| == OpCount(w, e);
    hide OpCount;
    JointAppend(OpsOf(w, 0, e, 0), OpsOf(w, 1, e, 0), OpsOf(w, 2, e, 0),
                RevealOps(h, parties), RevealOps(h, parties), RevealOps(h, parties), []);
    RevealRuns(h, parties, acc);
  }

  ghost predicate LocalEnds(w: World, e: Expr)
    requires ValidWorld(w) && Known(w, e)
  {
    var m := TM.Exec(Local(w), TM.IDLE, Postorder(e));
    m.Ok? && m.value.names == [Name(e)] && m.value.vals == [TM.VecOf(w.fp64, RowsOf(w, e))]
  }

  lemma LocalShows(w: World, e: Expr)
    requires Evaluable(w, e) && Sharable(w, e) && e.Node?
    ensures LocalEnds(w, e)
  {
    hide TM.Exec;
    LocalIsRowWise(w, e, 0);
    TM.ExecTree(Local(w), e);
    hide TM.Walk;
  }

  /** From the text of a supported expression to the revealed numbers. At every party the evaluation
      ends with a single share; the three operation lists, reveals included, run in lockstep; every
      reveal yields the row-wise value of the expression; and that is what the plaintext evaluator
      computes from the same text. */
  lemma EndToEnd(w: World, t: Infix, parties: seq<nat>)
    requires Sentence(t) && Supported(t) && Tree(t).Node?
    requires Evaluable(w, Tree(t)) && Sharable(w, Tree(t)) && Synced(w)
    requires forall k | 0 <= k < |parties| :: parties[k] < 3
    ensures Parse(Text(t)) == Parsed(Postorder(Tree(t)))
    ensures forall p | 0 <= p < 3 :: EndsWith(w, p, Parse(Text(t)).suffix, Tree(t))
    ensures AllOk(w, Tree(t), 0) && RevealsRows(w, Tree(t), parties)
    ensures LocalEnds(w, Tree(t))
  {
    hide EndsWith;
    hide RevealsRows;
    hide LocalEnds;
    hide AllOk;
    hide RunScan;
    ParsesToPostorder(t);
    forall p | 0 <= p < 3 ensures EndsWith(w, p, Postorder(Tree(t)), Tree(t)) {
      PartyEnds(w, p, Tree(t));
    }
    JointReveal(w, Tree(t), parties);
    LocalShows(w, Tree(t));
  }

  // ----- three executors, run side by side

  /** An executor of party p whose columns and mode are those of the world, with e on its stack. */
  ghost predicate Loaded(x: Executor, w: World, p: nat, e: Expr)
    requires |w.counts| == 3 && p < 3
    reads x
  {
    x.EnvNow() == EnvOf(w, p) && x.suffixStk == Postorder(e) && x.tokenVals == map[] && x.log == []
  }

  method EvaluateAt(x: Executor, ghost w: World, ghost p: nat, ghost e: Expr)
    requires Evaluable(w, e) && Sharable(w, e) && e.Node? && p < 3 && Loaded(x, w, p, e)
    modifies x`suffixStk, x`tokenVals, x`log
    ensures x.suffixStk == [Name(e)] && Name(e) in x.tokenVals
    ensures x.tokenVals[Name(e)] == TM.ShareOf(w.fp64, HandleOf(w, e, 0))
    ensures WalkOf(w, p, e, 0).Ok? && x.log == OpsOf(w, p, e, 0)
  {
    PartyEnds(w, p, e);
    hide TM.Exec;
    hide EnvOf;
    hide TM.Walk;
    var r := x.RunMPCEvaluate();
    assert Reversed([Name(e)]) == [Name(e)];
  }

  /** A whole session on three executor objects: all of them evaluate, the operator runs their
      operations together and shows the last share, and each listed party gets the row-wise value of
      the expression. Every stack is empty afterwards, so the next expression parses afresh. */
  method Session(x0: Executor, x1: Executor, x2: Executor, ghost w: World, ghost e: Expr, parties: seq<nat>)
    returns (out0: Rows, out1: Rows, out2: Rows)
    requires x0 != x1 && x1 != x2 && x0 != x2
    requires Evaluable(w, e) && Sharable(w, e) && Synced(w) && e.Node?
    requires Loaded(x0, w, 0, e) && Loaded(x1, w, 1, e) && Loaded(x2, w, 2, e)
    requires forall k | 0 <= k < |parties| :: parties[k] < 3
    modifies x0`suffixStk, x0`tokenVals, x0`log, x1`suffixStk, x1`tokenVals, x1`log,
             x2`suffixStk, x2`tokenVals, x2`log
    ensures out0 == Delivered(0, parties, RowsOf(w, e))
    ensures out1 == Delivered(1, parties, RowsOf(w, e))
    ensures out2 == Delivered(2, parties, RowsOf(w, e))
    ensures x0.suffixStk == [] && x1.suffixStk == [] && x2.suffixStk == []
    ensures JointRun(x0.log, x1.log, x2.log, []).Some?
  {
    hide JointRun;
    hide TM.Walk;
    hide EnvOf;
    assert x0.partyId == 0 && x1.partyId == 1 && x2.partyId == 2 by { Identity(x0, x1, x2, w, e); }
    assert x0.fp64Run == x1.fp64Run == x2.fp64Run == w.fp64 by { Identity(x0, x1, x2, w, e); }
    EvaluateAt(x0, w, 0, e);
    EvaluateAt(x1, w, 1, e);
    EvaluateAt(x2, w, 2, e);
    Lockstep(w, e, []);
    JointReveal(w, e, parties);
    var joint := JointRun(x0.log, x1.log, x2.log, []);
    var shown := joint.value[|joint.value| - 1];
    var r0 := x0.RevealMPCResult(parties, shown);
    var r1 := x1.RevealMPCResult(parties, shown);
    var r2 := x2.RevealMPCResult(parties, shown);
    out0, out1, out2 := r0.value, r1.value, r2.value;
  }

  lemma Identity(x0: Executor, x1: Executor, x2: Executor, w: World, e: Expr)
    requires |w.counts| == 3 && Loaded(x0, w, 0, e) && Loaded(x1, w, 1, e) && Loaded(x2, w, 2, e)
    ensures x0.partyId == 0 && x1.partyId == 1 && x2.partyId == 2
    ensures x0.fp64Run == x1.fp64Run == x2.fp64Run == w.fp64
  {
  }
}
