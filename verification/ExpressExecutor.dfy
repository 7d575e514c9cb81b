/** The expression executor of one party, as an object with the fields and methods of the original. */
module ExpressExecutor {
  import opened MachineInts
  import opened ExpressGrammar
  import opened ExpressParser
  import opened ExpressNames
  import opened IdealMpc
  import TM = TokenMachine
  import opened MpcEvaluator
  import opened MpcProtocol

  datatype Dtype = INT64 | DOUBLE

  // ----- the token-count check

  predicate NoBrackets(s: seq<string>) {
    forall j | 0 <= j < |s| :: '(' !in s[j] && ')' !in s[j]
  }

  /** What the check looks at: no bracket in any token, and one operand more than operators, where
      the operators are counted in 16 bits. */
  predicate Accepts(s: seq<string>) {
    NoBrackets(s) && |s| - CountOps(s) % TWO16 == CountOps(s) % TWO16 + 1
  }

  lemma {:induction false} PostorderCounts(e: Expr)
    requires ProperExpr(e)
    ensures CountOps(Postorder(e)) == Operators(e) && |Postorder(e)| == 2 * Operators(e) + 1
    ensures NoBrackets(Postorder(e))
  {
    match e
    case Leaf(x) =>
      assert |x| == 1 ==> x[1..] == "";
      forall k | 0 <= k < |x| ensures x[k] != '(' && x[k] != ')' {
        assert 1 <= k ==> x[1..][k - 1] == x[k];
      }
    case Node(op, l, r) =>
      PostorderCounts(l);
      PostorderCounts(r);
      CountOpsConcat(Postorder(l) + Postorder(r), [[op]]);
      CountOpsConcat(Postorder(l), Postorder(r));
  }

  /** A correct suffix form passes the check exactly when its operators can be counted in 16 bits. */
  lemma AcceptsIffFewOperators(e: Expr)
    requires ProperExpr(e)
    ensures Accepts(Postorder(e)) <==> Operators(e) < 65536
  {
    PostorderCounts(e);
  }

  /** An expression with a bracket that is never closed is refused. */
  lemma UnclosedRefused(t: Infix)
    requires Sentence(t) && Supported(t) && !LeadsWithMinus(t)
    ensures Parse("(" + Text(t)).Parsed? && !Accepts(Parse("(" + Text(t)).suffix)
  {
    hide RunScan;
    UnclosedBracket(t);
    var s := Postorder(Tree(t)) + ["("];
    assert '(' in s[|s| - 1];
  }

  /** Passing the check does not make a suffix form runnable: "+A+B)C" passes, and its second token is
      already an operator without operands. */
  lemma AcceptsMalformed(be: TM.Backend)
    ensures Parse("+A+B)C") == Parsed(["A", "+", "B", "+", "C"])
    ensures Accepts(["A", "+", "B", "+", "C"])
    ensures be.leaf("A").Ok? ==> TM.Exec(be, TM.IDLE, ["A", "+", "B", "+", "C"]) == TM.Fail(TM.Underflow)
  {
    MalformedParse();
    MalformedCount();
    if be.leaf("A").Ok? {
      assert ["A", "+", "B", "+", "C"] == ["A"] + ["+", "B", "+", "C"];
      assert ["+", "B", "+", "C"] == ["+"] + ["B", "+", "C"];
      TM.ExecCons(be, TM.IDLE, "A", ["+", "B", "+", "C"]);
      var m := TM.ExecToken(be, TM.IDLE, "A").value;
      assert |m.names| == 1;
      TM.ExecCons(be, m, "+", ["B", "+", "C"]);
    }
  }

  /** The condition that the check omits. An accepted form is the postorder of a tree exactly when every
      prefix of it has more operands than operators; then the evaluator never underflows, and only then
      can it come to an end, with a single value. */
  lemma AcceptedRunsIff(env: Env, s: seq<string>)
    requires Accepts(s)
    ensures TM.Balanced(s) <==> exists e :: TM.OperandLeaves(e) && s == Postorder(e)
    ensures TM.Balanced(s) ==> TM.Exec(Mpc(env), TM.IDLE, s) != TM.Fail(TM.Underflow)
    ensures var r := TM.Exec(Mpc(env), TM.IDLE, s);
            r.Ok? ==> TM.Balanced(s) && |r.value.names| == |r.value.vals| == 1
  {
    hide Mpc;
    TM.BalancedIff(s, []);
    TM.RunsCleanIffPostorder(s);
    assert TM.Balanced(s) ==> TM.Height(s[..|s|]) >= 1;
    assert s[..|s|] == s;
    MpcNeverUnderflows(env);
    if TM.Balanced(s) {
      TM.NoUnderflow(Mpc(env), TM.IDLE, s, []);
    }
    if TM.Exec(Mpc(env), TM.IDLE, s).Ok? {
      TM.ExecFollowsForest(Mpc(env), TM.IDLE, s, []);
    }
  }

  lemma MalformedCount()
    ensures Accepts(["A", "+", "B", "+", "C"])
  {
    var s := ["A", "+", "B", "+", "C"];
    assert s[1..] == ["+", "B", "+", "C"] && s[1..][1..] == ["B", "+", "C"];
    assert s[1..][1..][1..] == ["+", "C"] && s[1..][1..][1..][1..] == ["C"];
    assert CountOps(["C"]) == 0 && CountOps(["+", "C"]) == 1 && CountOps(["B", "+", "C"]) == 1;
    assert CountOps(["+", "B", "+", "C"]) == 2 && CountOps(s) == 2;
  }

  lemma MalformedParse()
    ensures Parse("+A+B)C") == Parsed(["A", "+", "B", "+", "C"])
  {
    hide RunScan;
    assert "+A+B)C" == ['+'] + (['A'] + (['+'] + (['B'] + ([')'] + (['C'] + "")))));
    ScanChar(Start, '+', ['A'] + (['+'] + (['B'] + ([')'] + (['C'] + "")))), EMPTY_SCAN);
    assert Step('+', EMPTY_SCAN) == Scan(["+"], [], "");
    ScanChar(After('+'), 'A', ['+'] + (['B'] + ([')'] + (['C'] + ""))), Scan(["+"], [], ""));
    assert Step('A', Scan(["+"], [], "")) == Scan(["+"], [], "A");
    ScanChar(After('A'), '+', ['B'] + ([')'] + (['C'] + "")), Scan(["+"], [], "A"));
    assert Step('+', Scan(["+"], [], "A")) == Scan(["+"], ["A", "+"], "");
    ScanChar(After('+'), 'B', [')'] + (['C'] + ""), Scan(["+"], ["A", "+"], ""));
    assert Step('B', Scan(["+"], ["A", "+"], "")) == Scan(["+"], ["A", "+"], "B");
    ScanChar(After('B'), ')', ['C'] + "", Scan(["+"], ["A", "+"], "B"));
    assert Step(')', Scan(["+"], ["A", "+"], "B")) == Scan([], ["A", "+", "B", "+"], "");
    ScanChar(After(')'), 'C', "", Scan([], ["A", "+", "B", "+"], ""));
    assert Step('C', Scan([], ["A", "+", "B", "+"], "")) == Scan([], ["A", "+", "B", "+"], "C");
    ScanEnd(After('C'), Scan([], ["A", "+", "B", "+"], "C"));
    assert ["A", "+", "B", "+"] + ["C"] + [] == ["A", "+", "B", "+", "C"];
  }

  // ----- the run mode

  /** A token counts as a literal when it is neither an operator nor a column with a known type. */
  predicate IsLiteral(s: string, dtypes: map<string, Dtype>) {
    !IsOpToken(s) && s !in dtypes
  }

  predicate HasDecimal(suffix: seq<string>, dtypes: map<string, Dtype>) {
    exists j :: 0 <= j < |suffix| && IsLiteral(suffix[j], dtypes) && '.' in suffix[j]
  }

  predicate NeedsFp64(suffix: seq<string>, dtypes: map<string, Dtype>) {
    || "/" in suffix
    || HasDecimal(suffix, dtypes)
    || (exists t :: t in dtypes && dtypes[t] == DOUBLE)
  }

  /** The run mode, token by token: floating point exactly when there is a division sign, a double column
      anywhere, or a token with a decimal point that is no operator and names no column. */
  lemma NeedsFp64Iff(suffix: seq<string>, dtypes: map<string, Dtype>)
    ensures NeedsFp64(suffix, dtypes) <==>
              || DOUBLE in dtypes.Values
              || exists t :: t in suffix && (t == "/" || (t != "+" && t != "-" && t != "*" && t !in dtypes && '.' in t))
  {
    if HasDecimal(suffix, dtypes) {
      var j :| 0 <= j < |suffix| && IsLiteral(suffix[j], dtypes) && '.' in suffix[j];
      assert suffix[j] in suffix;
    }
    if t :| t in suffix && t != "/" && t != "+" && t != "-" && t != "*" && t !in dtypes && '.' in t {
      assert |t| == 1 ==> t == [t[0]];
      var j :| 0 <= j < |suffix| && suffix[j] == t;
      assert IsLiteral(suffix[j], dtypes);
    }
  }

  function TypesOf(suffix: seq<string>, dtypes: map<string, Dtype>): map<string, TokenType> {
    map t | t in suffix && !IsOpToken(t) :: if t in dtypes then COLUMN else VALUE
  }

  lemma {:induction false} DivisionInSuffix(e: Expr)
    requires ProperExpr(e)
    ensures "/" in Postorder(e) <==> HasDivision(e)
  {
    match e
    case Leaf(x) => assert "/"[0] == '/';
    case Node(op, l, r) =>
      DivisionInSuffix(l);
      DivisionInSuffix(r);
      assert [op] == "/" <==> op == '/';
  }

  datatype Reply = Returned(code: int) | Raised

  function ColumnOf(fp64: bool, data: seq<int>): (r: Rows)
    ensures |r| == |data|
    ensures forall k | 0 <= k < |data| :: r[k] == if fp64 then FP64(data[k] as real) else I64(data[k])
  {
    seq(|data|, k requires 0 <= k < |data| => if fp64 then FP64(data[k] as real) else I64(data[k]))
  }

  function PrevAt(text: string, i: nat): Prev
    requires i <= |text|
  {
    if i == 0 then Start else After(text[i - 1])
  }

  class Executor {
    const partyId: nat
    const stod: string -> real
    const atol: string -> int

    var expr: string
    var suffixStk: seq<string>
    var colOwner: map<string, nat>
    var colDtype: map<string, Dtype>
    var localCol: map<string, bool>
    var tokenTypes: map<string, TokenType>
    var fp64Run: bool
    var valCount: int
    var columns: map<string, Rows>
    var tokenVals: map<string, TM.TokenValue>
    var log: seq<MpcOp>

    constructor (partyId: nat, stod: string -> real, atol: string -> int)
      ensures this.partyId == partyId && this.stod == stod && this.atol == atol
      ensures suffixStk == [] && colOwner == map[] && colDtype == map[] && localCol == map[]
      ensures tokenTypes == map[] && valCount == -1 && columns == map[] && tokenVals == map[] && log == []
    {
      this.partyId, this.stod, this.atol := partyId, stod, atol;
      expr, suffixStk, fp64Run := "", [], false;
      colOwner, colDtype, localCol, tokenTypes := map[], map[], map[], map[];
      valCount, columns, tokenVals, log := -1, map[], map[], [];
    }

    /** The row count as the evaluator reads it: an unsigned 32-bit value, -1 before any import. */
    function Count(): nat
      reads this`valCount
    {
      valCount % TWO32
    }

    function EnvNow(): Env
      reads this
    {
      Env(partyId, fp64Run, tokenTypes, localCol, columns, Count(), stod, atol)
    }

    // ----- method group 1: columns

    method ImportColumnDtype(name: string, isFp64: bool) returns (ret: int)
      modifies this`colDtype
      ensures ret == if name in old(colDtype) then -1 else 0
      ensures colDtype == if name in old(colDtype) then old(colDtype)
                          else old(colDtype)[name := if isFp64 then DOUBLE else INT64]
    {
      if name in colDtype { return -1; }
      colDtype := colDtype[name := if isFp64 then DOUBLE else INT64];
      return 0;
    }

    method ImportColumnOwner(name: string, party: nat) returns (r: Reply)
      modifies this`colOwner
      ensures r == if name in old(colOwner) then Raised else Returned(0)
      ensures colOwner == if name in old(colOwner) then old(colOwner) else old(colOwner)[name := party]
    {
      if name in colOwner { return Raised; }
      colOwner := colOwner[name := party];
      return Returned(0);
    }

    // ----- method group 2: the expression

    method PushOperator(c: char, stk2: seq<string>) returns (out: seq<string>)
      modifies this`suffixStk
      ensures (suffixStk, out) == PopHigher(c, old(suffixStk), stk2)
    {
      out := stk2;
      while !(suffixStk == [] || First(suffixStk[0]) == '(' || Priority(c) > Priority(First(suffixStk[0])))
        invariant PopHigher(c, suffixStk, out) == PopHigher(c, old(suffixStk), stk2)
        decreases |suffixStk|
      {
        out := out + [suffixStk[0]];
        suffixStk := suffixStk[1..];
      }
      suffixStk := [[c]] + suffixStk;
    }

    method CloseBracket(stk2: seq<string>, pending: string) returns (out: seq<string>, temp: string)
      modifies this`suffixStk
      ensures Scan(suffixStk, out, temp) == PopToBracket(Scan(old(suffixStk), stk2, pending))
    {
      out, temp := stk2, pending;
      while suffixStk != [] && First(suffixStk[0]) != '('
        invariant PopToBracket(Scan(suffixStk, out, temp)) == PopToBracket(Scan(old(suffixStk), stk2, pending))
        decreases |suffixStk|
      {
        assert out + [] == out;
        if temp != "" {
          out, temp := out + [temp], "";
        }
        out := out + [suffixStk[0]];
        suffixStk := suffixStk[1..];
      }
      if suffixStk != [] {
        suffixStk := suffixStk[1..];
      }
    }

    /** The negative-literal scans: from a minus at i up to the next operator or closing bracket. */
    method Swallow(text: string, i: nat, toBracket: bool) returns (k: nat)
      requires i < |text| && text[i] == '-'
      ensures i < k <= |text|
      ensures k == i + if toBracket then FindClose(text[i..]) else 1 + FindOp(text[i + 1..])
    {
      if toBracket {
        k := i;
        while k < |text| && text[k] != ')'
          invariant i <= k <= |text|
          invariant k + FindClose(text[k..]) == i + FindClose(text[i..])
        {
          assert text[k..][1..] == text[k + 1..];
          k := k + 1;
        }
      } else {
        k := i + 1;
        while k < |text| && !IsOp(text[k])
          invariant i < k <= |text|
          invariant k + FindOp(text[k..]) == i + 1 + FindOp(text[i + 1..])
        {
          assert text[k..][1..] == text[k + 1..];
          k := k + 1;
        }
      }
    }

    /** One ordinary character. */
    method Consume(c: char, stk2: seq<string>, pending: string) returns (out: seq<string>, temp: string)
      modifies this`suffixStk
      ensures Scan(suffixStk, out, temp) == Step(c, Scan(old(suffixStk), stk2, pending))
    {
      out, temp := stk2, pending;
      assert out + [] == out;
      if IsOp(c) {
        if temp != "" {
          out, temp := out + [temp], "";
        }
        out := PushOperator(c, out);
      } else if c == '(' {
        suffixStk := ["("] + suffixStk;
      } else if c == ')' {
        out, temp := CloseBracket(out, temp);
      } else {
        temp := temp + [c];
      }
    }

    /** Fails where the original reads past the end of the text. */
    method ParseExpress(text: string) returns (ok: bool)
      modifies this`suffixStk
      ensures ok <==> RunScan(Start, text, Scan(old(suffixStk), [], "")).Parsed?
      ensures ok ==> RunScan(Start, text, Scan(old(suffixStk), [], "")) == Parsed(suffixStk)
    {
      ghost var goal := RunScan(Start, text, Scan(suffixStk, [], ""));
      var temp, stk2, i := "", [], 0;
      assert text[0..] == text;
      while i < |text|
        invariant 0 <= i <= |text|
        invariant RunScan(PrevAt(text, i), text[i..], Scan(suffixStk, stk2, temp)) == goal
      {
        ghost var st := Scan(suffixStk, stk2, temp);
        if text[i] == '-' && (i == 0 || text[i - 1] == '(') {
          var k := Swallow(text, i, i != 0);
          SwallowStep(text, i, k, st);
          if k == |text| { return false; }
          temp := temp + text[i..k];
          i := k;
        } else {
          assert text[i..] == [text[i]] + text[i + 1..];
          ScanChar(PrevAt(text, i), text[i], text[i + 1..], st);
          stk2, temp := Consume(text[i], stk2, temp);
          i := i + 1;
        }
      }
      ScanEnd(PrevAt(text, i), Scan(suffixStk, stk2, temp));
      if temp != "" {
        stk2 := stk2 + [temp];
      }
      assert goal == Parsed(stk2 + suffixStk);
      PourBack(stk2);
      return true;
    }

    /** The output is moved back, last token first, on the operators left over. */
    method PourBack(stk2: seq<string>)
      modifies this`suffixStk
      ensures suffixStk == stk2 + old(suffixStk)
    {
      var rest := stk2;
      while rest != []
        invariant rest + suffixStk == stk2 + old(suffixStk)
        decreases |rest|
      {
        suffixStk := [rest[|rest| - 1]] + suffixStk;
        rest := rest[..|rest| - 1];
      }
    }

    method CheckExpress() returns (ok: bool)
      ensures ok <==> Accepts(suffixStk)
    {
      var numOp, j := 0, 0;
      var brackets := false;
      assert CountOps([]) == 0 && NoBrackets([]);
      hide NoBrackets;
      hide CountOps;
      while j < |suffixStk|
        invariant 0 <= j <= |suffixStk|
        invariant brackets <==> !NoBrackets(suffixStk[..j])
        invariant numOp == CountOps(suffixStk[..j]) % TWO16
      {
        var token := suffixStk[j];
        assert suffixStk[..j + 1] == suffixStk[..j] + [token];
        CountOpsSnoc(suffixStk[..j], token);
        if '(' in token || ')' in token {
          brackets := true;
        }
        if IsOpToken(token) {
          CounterNext(CountOps(suffixStk[..j]));
          numOp := (numOp + 1) % TWO16;
        }
        BracketsGrow(suffixStk[..j], token);
        j := j + 1;
      }
      assert suffixStk[..j] == suffixStk;
      return !brackets && |suffixStk| - numOp == numOp + 1;
    }

    /** After an import that returns 0 from an empty stack, the stack holds the suffix form. */
    method ImportExpress(text: string) returns (ok: bool, ret: int)
      modifies this`suffixStk, this`expr
      ensures ok <==> RunScan(Start, text, Scan(old(suffixStk), [], "")).Parsed?
      ensures ok ==> RunScan(Start, text, Scan(old(suffixStk), [], "")) == Parsed(suffixStk)
      ensures ok ==> ret == (if Accepts(suffixStk) then 0 else -1) && expr == (if ret == 0 then text else old(expr))
    {
      ret := -1;
      ok := ParseExpress(text);
      if ok {
        var accepted := CheckExpress();
        if accepted {
          expr, ret := text, 0;
        }
      }
    }

    // ----- method group 3: the run mode

    method HasFp64Column() returns (found: bool)
      ensures found <==> exists t :: t in colDtype && colDtype[t] == DOUBLE
    {
      var left := colDtype.Keys;
      found := false;
      while left != {} && !found
        invariant left <= colDtype.Keys
        invariant found ==> exists t :: t in colDtype && colDtype[t] == DOUBLE
        invariant !found ==> forall t | t in colDtype && t !in left :: colDtype[t] != DOUBLE
        decreases |left|
      {
        var t :| t in left;
        found := colDtype[t] == DOUBLE;
        left := left - {t};
      }
    }

    method ResolveLocalColumn() returns (raised: bool)
      modifies this`localCol
      ensures raised <==> |colDtype| != |colOwner| || !(colOwner.Keys <= colDtype.Keys)
      ensures raised ==> localCol == old(localCol)
      ensures !raised ==> localCol == (map t | t in colOwner :: colOwner[t] == partyId) + old(localCol)
    {
      if |colDtype| != |colOwner| || !(colOwner.Keys <= colDtype.Keys) { return true; }
      var left := colOwner.Keys;
      assert Locality(colOwner, partyId, left) == map[];
      assert Locality(colOwner, partyId, {}) == map t | t in colOwner :: colOwner[t] == partyId;
      while left != {}
        invariant left <= colOwner.Keys
        invariant localCol == Locality(colOwner, partyId, left) + old(localCol)
        decreases |left|
      {
        var t :| t in left;
        LocalityGrows(colOwner, partyId, left, t, old(localCol));
        if t !in localCol {
          localCol := localCol[t := colOwner[t] == partyId];
        }
        left := left - {t};
      }
      return false;
    }

    /** The scan over the suffix form: token types, and what speaks for floating point. A token that has
        a type from an earlier expression keeps it. */
    method TypeTokens(lookupRaises: bool) returns (raised: bool, hasDiv: bool, hasFp64Val: bool)
      modifies this`tokenTypes
      ensures raised <==> lookupRaises && exists j :: 0 <= j < |suffixStk| && IsLiteral(suffixStk[j], colDtype)
      ensures !raised ==>
                && tokenTypes == TypesOf(suffixStk, colDtype) + old(tokenTypes)
                && (hasDiv <==> "/" in suffixStk)
                && (hasFp64Val <==> HasDecimal(suffixStk, colDtype))
    {
      raised, hasDiv, hasFp64Val := false, false, false;
      TypedNone(colDtype, tokenTypes);
      hide Typed;
      var j := 0;
      while j < |suffixStk|
        invariant 0 <= j <= |suffixStk|
        invariant Typed(suffixStk[..j], colDtype, old(tokenTypes), tokenTypes, hasDiv, hasFp64Val)
        invariant lookupRaises ==> forall k | 0 <= k < j :: !IsLiteral(suffixStk[k], colDtype)
      {
        var token := suffixStk[j];
        assert suffixStk[..j + 1] == suffixStk[..j] + [token];
        TypedNext(suffixStk[..j], token, colDtype, old(tokenTypes), tokenTypes, hasDiv, hasFp64Val);
        if IsOpToken(token) {
          if token == "/" { hasDiv := true; }
        } else if token in colDtype {
          if token !in tokenTypes { tokenTypes := tokenTypes[token := COLUMN]; }
        } else {
          if lookupRaises { raised := true; return; }
          if token !in tokenTypes { tokenTypes := tokenTypes[token := VALUE]; }
          if '.' in token { hasFp64Val := true; }
        }
        j := j + 1;
      }
      assert suffixStk[..j] == suffixStk;
      TypedAll(suffixStk, colDtype, old(tokenTypes), tokenTypes, hasDiv, hasFp64Val);
    }

    /** `lookupRaises` is the type lookup as written: a token without a column type raises. With
        `false` the lookup reports the miss by its return code, which is what this caller tests. */
    method ResolveRunMode(lookupRaises: bool) returns (r: Reply)
      modifies this`localCol, this`tokenTypes, this`fp64Run
      ensures r == Raised || r == Returned(0)
      ensures r == Raised <==>
                || |colDtype| != |colOwner| || !(colOwner.Keys <= colDtype.Keys)
                || (lookupRaises && exists j :: 0 <= j < |suffixStk| && IsLiteral(suffixStk[j], colDtype))
      ensures r == Returned(0) ==>
                && localCol == (map t | t in colOwner :: colOwner[t] == partyId) + old(localCol)
                && tokenTypes == TypesOf(suffixStk, colDtype) + old(tokenTypes)
                && (fp64Run <==> NeedsFp64(suffixStk, colDtype))
    {
      hide TypesOf;
      hide HasDecimal;
      hide IsLiteral;
      var raised := ResolveLocalColumn();
      if raised { return Raised; }
      var hasDiv, hasFp64Val;
      raised, hasDiv, hasFp64Val := TypeTokens(lookupRaises);
      if raised { return Raised; }
      var hasFp64Col := HasFp64Column();
      fp64Run := hasDiv || hasFp64Col || hasFp64Val;
      return Returned(0);
    }

    // ----- method group 4: values

    /** The first column fixes the row count. */
    method SetOrCheckValueCount(n: nat) returns (ok: bool)
      modifies this`valCount
      ensures valCount == if old(valCount) == -1 then n else old(valCount)
      ensures ok <==> valCount == n
    {
      if valCount == -1 { valCount := n; }
      return valCount == n;
    }

    method ImportFp64Values(name: string, data: Rows) returns (r: Reply)
      modifies this`valCount, this`columns
      ensures r == (if name !in localCol then Raised
                    else if !localCol[name] then Returned(-1)
                    else if old(valCount) != -1 && old(valCount) != |data| then Returned(-2)
                    else if !fp64Run then Returned(-1)
                    else if name in old(columns) then Returned(-2)
                    else Returned(0))
      ensures columns == if r == Returned(0) then old(columns)[name := data] else old(columns)
      ensures r == Returned(0) ==> valCount == |data|
    {
      if name !in localCol { return Raised; }
      if !localCol[name] { return Returned(-1); }
      var ok := SetOrCheckValueCount(|data|);
      if !ok { return Returned(-2); }
      if !fp64Run { return Returned(-1); }
      if name in columns { return Returned(-2); }
      columns := columns[name := data];
      return Returned(0);
    }

    /** Integer columns; in floating-point mode they are converted and imported as such. */
    method ImportI64Values(name: string, data: seq<int>) returns (r: Reply)
      modifies this`valCount, this`columns
      ensures r == (if name !in localCol then Raised
                    else if !localCol[name] then Returned(-1)
                    else if name !in colDtype then Raised
                    else if colDtype[name] != INT64 then Returned(-2)
                    else if old(valCount) != -1 && old(valCount) != |data| then Returned(-2)
                    else if name in old(columns) then (if fp64Run then Returned(-3) else Returned(-4))
                    else Returned(0))
      ensures r != Returned(0) ==> columns == old(columns)
      ensures r == Returned(0) ==> valCount == |data| &&
                                   columns == old(columns)[name := ColumnOf(fp64Run, data)]
    {
      if name !in localCol { return Raised; }
      if !localCol[name] { return Returned(-1); }
      if name !in colDtype { return Raised; }
      if colDtype[name] != INT64 { return Returned(-2); }
      var ok := SetOrCheckValueCount(|data|);
      if !ok { return Returned(-2); }
      if fp64Run {
        var inner := ImportFp64Values(name, ColumnOf(true, data));
        return if inner != Returned(0) then Returned(-3) else Returned(0);
      }
      if name in columns { return Returned(-4); }
      columns := columns[name := ColumnOf(false, data)];
      return Returned(0);
    }

    // ----- method groups 6 and 7: evaluation

    /** The evaluation loop, for either backend: it consumes the suffix form and leaves the names of
        what is on the stack, so one name after a well-formed expression. */
    method RunSuffix(be: TM.Backend, table: map<string, TM.TokenValue>, log: seq<MpcOp>)
      returns (r: TM.Result<TM.Machine>)
      modifies this`suffixStk
      ensures r == TM.Exec(be, TM.Machine([], [], table, log), old(suffixStk))
      ensures r.Ok? ==> suffixStk == Reversed(r.value.names)
    {
      var m := TM.Machine([], [], table, log);
      while suffixStk != []
        invariant TM.Exec(be, m, suffixStk) == TM.Exec(be, TM.Machine([], [], table, log), old(suffixStk))
        decreases |suffixStk|
      {
        var next := TM.ExecToken(be, m, suffixStk[0]);
        if next.Fail? { return next; }
        suffixStk := suffixStk[1..];
        m := next.value;
      }
      r := TM.Ok(m);
      var stk1 := m.names;
      while stk1 != []
        invariant |stk1| <= |m.names| && suffixStk == Reversed(m.names[..|m.names| - |stk1|])
        invariant stk1 == m.names[|m.names| - |stk1|..]
        decreases |stk1|
      {
        ghost var k := |m.names| - |stk1|;
        assert m.names[..k + 1] == m.names[..k] + [m.names[k]];
        ReversedConcat(m.names[..k], [m.names[k]]);
        assert Reversed([m.names[k]]) == [m.names[k]];
        suffixStk := [stk1[0]] + suffixStk;
        stk1 := stk1[1..];
      }
      assert m.names[..|m.names|] == m.names;
    }

    method RunMPCEvaluate() returns (r: TM.Result<TM.Machine>)
      modifies this`suffixStk, this`tokenVals, this`log
      ensures r == TM.Exec(Mpc(old(EnvNow())), TM.Machine([], [], old(tokenVals), old(log)), old(suffixStk))
      ensures r.Ok? ==> suffixStk == Reversed(r.value.names) && tokenVals == r.value.table && log == r.value.log
    {
      r := RunSuffix(Mpc(EnvNow()), tokenVals, log);
      if r.Ok? {
        tokenVals, log := r.value.table, r.value.log;
      }
    }

    /** Pops the final name and reveals its share to every listed party in turn; `shown` is what the
        operator gives this party when it is its turn. */
    method RevealMPCResult(parties: seq<nat>, shown: Rows) returns (r: TM.Result<Rows>)
      modifies this`suffixStk, this`log
      ensures old(suffixStk) == [] ==> r == TM.Fail(TM.Underflow)
      ensures old(suffixStk) != [] ==> suffixStk == old(suffixStk)[1..]
      ensures old(suffixStk) != [] && old(suffixStk)[0] in tokenVals ==>
                var h := TM.ReadShare(fp64Run, tokenVals[old(suffixStk)[0]]);
                if h.Fail? then r == TM.Fail(h.fault) && log == old(log)
                else r == TM.Ok(Delivered(partyId, parties, shown)) && log == old(log) + RevealOps(h.value, parties)
    {
      if suffixStk == [] { return TM.Fail(TM.Underflow); }
      var token := suffixStk[0];
      suffixStk := suffixStk[1..];
      if token !in tokenVals { return TM.Fail(TM.BadUnionRead); }
      var h := TM.ReadShare(fp64Run, tokenVals[token]);
      if h.Fail? { return TM.Fail(h.fault); }
      var out: Rows, k := [], 0;
      while k < |parties|
        invariant 0 <= k <= |parties| && suffixStk == old(suffixStk)[1..]
        invariant log == old(log) + RevealOps(h.value, parties[..k])
        invariant out == Delivered(partyId, parties[..k], shown)
      {
        assert parties[..k + 1] == parties[..k] + [parties[k]];
        RevealSnoc(h.value, parties[..k], parties[k]);
        DeliveredSnoc(partyId, parties[..k], parties[k], shown);
        log := log + [Reveal(h.value, parties[k])];
        if parties[k] == partyId {
          out := out + shown;
        }
        k := k + 1;
      }
      assert parties[..k] == parties;
      return TM.Ok(out);
    }
  }

  function RevealOps(h: nat, parties: seq<nat>): (ops: seq<MpcOp>)
    ensures |ops| == |parties| && forall k | 0 <= k < |parties| :: ops[k] == Reveal(h, parties[k])
  {
    if parties == [] then [] else [Reveal(h, parties[0])] + RevealOps(h, parties[1..])
  }

  /** What party p appends to its output: the revealed rows, once for each time it is listed. */
  function Delivered(p: nat, parties: seq<nat>, rows: Rows): Rows {
    if parties == [] then []
    else (if parties[0] == p then rows else []) + Delivered(p, parties[1..], rows)
  }

  /** Nothing for a party that is not listed, the rows for one that is listed once. */
  lemma {:induction false} DeliveredOnce(p: nat, parties: seq<nat>, rows: Rows)
    ensures p !in parties ==> Delivered(p, parties, rows) == []
    ensures p in parties && (forall i, j | 0 <= i < j < |parties| :: parties[i] != parties[j]) ==>
              Delivered(p, parties, rows) == rows
  {
    if parties != [] {
      var rest := parties[1..];
      DeliveredOnce(p, rest, rows);
      assert rows + [] == rows && [] + Delivered(p, rest, rows) == Delivered(p, rest, rows);
      assert p in parties <==> p == parties[0] || p in rest;
    }
  }

  lemma {:induction false} RevealSnoc(h: nat, parties: seq<nat>, q: nat)
    ensures RevealOps(h, parties + [q]) == RevealOps(h, parties) + [Reveal(h, q)]
  {
    if parties != [] {
      assert (parties + [q])[1..] == parties[1..] + [q];
      RevealSnoc(h, parties[1..], q);
    }
  }

  lemma {:induction false} DeliveredSnoc(p: nat, parties: seq<nat>, q: nat, rows: Rows)
    ensures Delivered(p, parties + [q], rows) == Delivered(p, parties, rows) + (if q == p then rows else [])
  {
    if parties != [] {
      assert (parties + [q])[1..] == parties[1..] + [q];
      DeliveredSnoc(p, parties[1..], q, rows);
    }
  }

  /** Which columns are local, for the columns not left out. */
  function Locality(owner: map<string, nat>, p: nat, left: set<string>): map<string, bool> {
    map t | t in owner && t !in left :: owner[t] == p
  }

  lemma LocalityGrows(owner: map<string, nat>, p: nat, left: set<string>, t: string, before: map<string, bool>)
    requires t in left && t in owner
    ensures var m := Locality(owner, p, left) + before;
            Locality(owner, p, left - {t}) + before == if t in m then m else m[t := owner[t] == p]
  {
    assert Locality(owner, p, left - {t}) == Locality(owner, p, left)[t := owner[t] == p];
  }

  lemma TypesGrow(s: seq<string>, token: string, dtypes: map<string, Dtype>)
    ensures TypesOf(s + [token], dtypes)
         == if IsOpToken(token) then TypesOf(s, dtypes)
            else TypesOf(s, dtypes)[token := if token in dtypes then COLUMN else VALUE]
    ensures HasDecimal(s + [token], dtypes) <==> HasDecimal(s, dtypes) || (IsLiteral(token, dtypes) && '.' in token)
    ensures "/" in s + [token] <==> "/" in s || token == "/"
  {
    var t := s + [token];
    assert t[|s|] == token && forall j | 0 <= j < |s| :: t[j] == s[j];
    if HasDecimal(s, dtypes) {
      var j :| 0 <= j < |s| && IsLiteral(s[j], dtypes) && '.' in s[j];
      assert IsLiteral(t[j], dtypes) && '.' in t[j];
    }
  }

  /** Inserting a type only where there is none is adding the new types under the old ones. */
  lemma TypesKept(s: seq<string>, token: string, dtypes: map<string, Dtype>, before: map<string, TokenType>)
    ensures var all := TypesOf(s, dtypes) + before;
            TypesOf(s + [token], dtypes) + before
            == if IsOpToken(token) || token in all then all
               else all[token := if token in dtypes then COLUMN else VALUE]
  {
    TypesGrow(s, token, dtypes);
    if !IsOpToken(token) && token in TypesOf(s, dtypes) {
      assert TypesOf(s + [token], dtypes) == TypesOf(s, dtypes);
    }
  }

  /** Where the scan over a suffix form stands. */
  ghost predicate Typed(s: seq<string>, dtypes: map<string, Dtype>, before: map<string, TokenType>,
                        types: map<string, TokenType>, div: bool, dec: bool)
  {
    types == TypesOf(s, dtypes) + before && (div <==> "/" in s) && (dec <==> HasDecimal(s, dtypes))
  }

  lemma TypedNone(dtypes: map<string, Dtype>, before: map<string, TokenType>)
    ensures Typed([], dtypes, before, before, false, false)
  {
    assert TypesOf([], dtypes) == map[] && map[] + before == before;
  }

  lemma TypedNext(s: seq<string>, token: string, dtypes: map<string, Dtype>, before: map<string, TokenType>,
                  types: map<string, TokenType>, div: bool, dec: bool)
    requires Typed(s, dtypes, before, types, div, dec)
    ensures var types' := if IsOpToken(token) || token in types then types
                          else types[token := if token in dtypes then COLUMN else VALUE];
            Typed(s + [token], dtypes, before, types', div || token == "/",
                  dec || (!IsOpToken(token) && token !in dtypes && '.' in token))
  {
    hide TypesOf;
    hide HasDecimal;
    TypesGrow(s, token, dtypes);
    TypesKept(s, token, dtypes, before);
  }

  lemma TypedAll(s: seq<string>, dtypes: map<string, Dtype>, before: map<string, TokenType>,
                 types: map<string, TokenType>, div: bool, dec: bool)
    requires Typed(s, dtypes, before, types, div, dec)
    ensures types == TypesOf(s, dtypes) + before && (div <==> "/" in s) && (dec <==> HasDecimal(s, dtypes))
  {
  }

  lemma CounterNext(n: nat)
    ensures (n % TWO16 + 1) % TWO16 == (n + 1) % TWO16
  {
  }

  lemma CountOpsSnoc(s: seq<string>, token: string)
    ensures CountOps(s + [token]) == CountOps(s) + (if IsOpToken(token) then 1 else 0)
  {
    CountOpsConcat(s, [token]);
    assert [token][1..] == [];
  }

  lemma BracketsGrow(s: seq<string>, token: string)
    ensures NoBrackets(s + [token]) <==> NoBrackets(s) && '(' !in token && ')' !in token
  {
    assert (s + [token])[|s|] == token;
    assert forall j | 0 <= j < |s| :: (s + [token])[j] == s[j];
  }

  lemma SwallowStep(text: string, i: nat, k: nat, st: Scan)
    requires i < |text| && text[i] == '-' && (i == 0 || text[i - 1] == '(')
    requires k == i + if i != 0 then FindClose(text[i..]) else 1 + FindOp(text[i + 1..])
    requires i < k <= |text|
    ensures RunScan(PrevAt(text, i), text[i..], st)
         == if k == |text| then OutOfBounds
            else RunScan(PrevAt(text, k), text[k..], st.(temp := st.temp + text[i..k]))
  {
    hide RunScan;
    hide FindOp;
    hide FindClose;
    var rest := text[i..];
    assert rest[1..] == text[i + 1..] && rest[0] == '-';
    ScanMinus(PrevAt(text, i), rest, k - i, st);
    if k < |text| {
      assert rest[k - i..] == text[k..] && rest[..k - i] == text[i..k] && rest[k - i - 1] == text[k - 1];
    }
  }
}
