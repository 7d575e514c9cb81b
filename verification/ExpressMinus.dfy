/** When the scanner reads a unary minus as intended, exactly.

A minus right after an opening bracket swallows everything up to the next closing bracket, and a
minus that opens the text swallows everything up to the next operator. `ParsesIffSupported` says for
every sentence whether that still gives the postorder.
*/
module ExpressMinus {
  import opened ExpressGrammar
  import opened ExpressParser

  /** A token with an operator or a bracket inside: no operand and no operator looks like this. */
  ghost predicate Tainted(s: string) {
    exists k :: 1 <= k < |s| && IsSpecial(s[k])
  }

  ghost predicate HasTainted(s: seq<string>) {
    exists j :: 0 <= j < |s| && Tainted(s[j])
  }

  ghost predicate Spoiled(st: Scan) {
    Tainted(st.temp) || HasTainted(st.out)
  }

  ghost predicate SpoiledOutcome(r: Outcome) {
    r.Parsed? ==> HasTainted(r.suffix)
  }

  lemma TaintedGrows(s: string, t: string)
    requires Tainted(s)
    ensures Tainted(s + t)
  {
    var k :| 1 <= k < |s| && IsSpecial(s[k]);
    assert (s + t)[k] == s[k];
  }

  lemma HasTaintedGrows(s: seq<string>, t: seq<string>)
    requires HasTainted(s)
    ensures HasTainted(s + t)
  {
    var j :| 0 <= j < |s| && Tainted(s[j]);
    assert (s + t)[j] == s[j];
  }

  lemma SpoiledFlush(st: Scan)
    requires Spoiled(st)
    ensures HasTainted(Flush(st).out)
  {
    if HasTainted(st.out) {
      HasTaintedGrows(st.out, Pushed(st.temp));
    } else {
      var out := st.out + [st.temp];
      assert out[|st.out|] == st.temp;
    }
  }

  lemma {:induction false} SpoiledPopHigher(c: char, ops: seq<string>, out: seq<string>)
    requires HasTainted(out)
    ensures HasTainted(PopHigher(c, ops, out).1)
    decreases |ops|
  {
    if !(ops == [] || First(ops[0]) == '(' || Priority(c) > Priority(First(ops[0]))) {
      HasTaintedGrows(out, [ops[0]]);
      SpoiledPopHigher(c, ops[1..], out + [ops[0]]);
    }
  }

  lemma {:induction false} SpoiledPopToBracket(st: Scan)
    requires Spoiled(st)
    ensures Spoiled(PopToBracket(st))
    decreases |st.ops|
  {
    if st.ops != [] && First(st.ops[0]) != '(' {
      var s := Flush(st);
      SpoiledFlush(st);
      HasTaintedGrows(s.out, [s.ops[0]]);
      SpoiledPopToBracket(Scan(s.ops[1..], s.out + [s.ops[0]], ""));
    }
  }

  lemma SpoiledStep(c: char, st: Scan)
    requires Spoiled(st)
    ensures Spoiled(Step(c, st))
  {
    if IsOp(c) {
      SpoiledFlush(st);
      SpoiledPopHigher(c, Flush(st).ops, Flush(st).out);
    } else if c == ')' {
      SpoiledPopToBracket(st);
    } else if c != '(' && Tainted(st.temp) {
      TaintedGrows(st.temp, [c]);
    }
  }

  /** Once spoiled, the scanner never recovers. */
  lemma {:induction false} SpoiledRun(prev: Prev, rest: string, st: Scan)
    requires Spoiled(st)
    ensures SpoiledOutcome(RunScan(prev, rest, st))
    decreases |rest|
  {
    if rest == "" {
      SpoiledFlush(st);
      HasTaintedGrows(Flush(st).out, st.ops);
    } else if rest[0] == '-' && (prev == Start || prev == After('(')) {
      var k := if prev == Start then 1 + FindOp(rest[1..]) else FindClose(rest);
      if k < |rest| {
        if Tainted(st.temp) {
          TaintedGrows(st.temp, rest[..k]);
        }
        SpoiledRun(After(rest[k - 1]), rest[k..], st.(temp := st.temp + rest[..k]));
      }
    } else {
      SpoiledStep(rest[0], st);
      SpoiledRun(After(rest[0]), rest[1..], Step(rest[0], st));
    }
  }

  /** A phrase that opens with a minus and goes on has an operator before any closing bracket. */
  lemma {:induction false} MinusThenOperator(t: Infix, level: int, minusOk: bool) returns (k: nat)
    requires WellFormed(t, level, minusOk) && LeadsWithMinus(t) && !t.Negative?
    ensures 1 <= k < |Text(t)| && IsOp(Text(t)[k]) && ')' !in Text(t)[..k] && Text(t)[0] == '-'
  {
    var l := t.left;
    if l.Negative? {
      k := 1 + |l.lit|;
      assert Text(t)[..k] == "-" + l.lit;
    } else {
      k := MinusThenOperator(l, Priority(t.op), minusOk);
      assert Text(t)[..k] == Text(l)[..k] && Text(t)[k] == Text(l)[k];
    }
  }

  lemma SwallowSpoils(inner: Infix, post: string, st: Scan)
    requires WellFormed(inner, 1, true) && LeadsWithMinus(inner) && !inner.Negative? && st.temp == ""
    ensures SpoiledOutcome(RunScan(After('('), Text(inner) + post, st))
  {
    var j := MinusThenOperator(inner, 1, true);
    var rest := Text(inner) + post;
    assert rest[j] == Text(inner)[j] && rest[..j] == Text(inner)[..j] && rest[0] == '-';
    hide Text;
    hide WellFormed;
    hide LeadsWithMinus;
    OperatorSwallowed(rest, j, st);
  }

  /** A swallowed text with an operator inside becomes one tainted token. */
  lemma OperatorSwallowed(rest: string, j: nat, st: Scan)
    requires 1 <= j < |rest| && rest[0] == '-' && IsOp(rest[j]) && ')' !in rest[..j] && st.temp == ""
    ensures SpoiledOutcome(RunScan(After('('), rest, st))
  {
    var k := FindClose(rest);
    if k < |rest| {
      assert forall i | 0 <= i < j :: rest[..j][i] == rest[i];
      assert k > j;
      var st' := st.(temp := st.temp + rest[..k]);
      assert st'.temp == rest[..k] && st'.temp[j] == rest[j];
      assert Tainted(st'.temp);
      SpoiledRun(After(rest[k - 1]), rest[k..], st');
    }
  }

  lemma {:induction false} ScanSpoils(t: Infix, level: int, minusOk: bool, prev: Prev, post: string, st: Scan)
    requires WellFormed(t, level, minusOk) && 1 <= level && !MinusAlone(t) && Context(t, prev, post)
    requires st.temp == "" && Below(st.ops, level)
    ensures SpoiledOutcome(RunScan(prev, Text(t) + post, st))
  {
    hide RunScan;
    hide Step;
    hide SpoiledOutcome;
    match t
    case Group(inner) =>
      var closing := [')'] + post;
      assert Text(t) + post == ['('] + (Text(inner) + closing);
      ScanChar(prev, '(', Text(inner) + closing, st);
      StepOpen(st);
      var st1 := st.(ops := ["("] + st.ops);
      if LeadsWithMinus(inner) {
        SwallowSpoils(inner, closing, st1);
      } else {
        ScanSpoils(inner, 1, true, After('('), closing, st1);
      }
    case Bin(l, op, r) =>
      var tail := [op] + (Text(r) + post);
      assert Text(t) + post == Text(l) + tail;
      if !MinusAlone(l) {
        ScanSpoils(l, Priority(op), minusOk, prev, tail, st);
      } else {
        ScanPhrase(l, Priority(op), minusOk, prev, tail, st);
        TextEnds(l, Priority(op), minusOk);
        ScanChar(After(Text(l)[|Text(l)| - 1]), op, Text(r) + post, AfterPhrase(l, st));
        OpAfter(l, op, minusOk, st);
        NoLeadingMinus(r, Priority(op) + 1);
        ScanSpoils(r, Priority(op) + 1, false, After(op), post, AfterOp(l, op, st));
      }
  }

  lemma {:induction false} PostorderClean(e: Expr)
    requires ProperExpr(e)
    ensures !HasTainted(Postorder(e))
  {
    match e
    case Leaf(x) =>
      forall k | 1 <= k < |x| ensures !IsSpecial(x[k]) {
        assert x[1..][k - 1] == x[k];
      }
    case Node(op, l, r) =>
      PostorderClean(l);
      PostorderClean(r);
  }

  lemma BareMinusRunsOut(lit: string)
    requires PlainName(lit)
    ensures Parse("-" + lit) == OutOfBounds
  {
    var rest := "-" + lit;
    assert rest[1..] == lit;
    assert FindOp(lit) == |lit|;
  }

  /** The scanner gives the postorder of a sentence exactly when the sentence is supported. */
  lemma ParsesIffSupported(t: Infix)
    requires Sentence(t)
    ensures Parse(Text(t)) == Parsed(Postorder(Tree(t))) <==> Supported(t)
  {
    hide RunScan;
    LevelsAgree(t, true);
    if Supported(t) {
      ParsesToPostorder(t);
    } else if t.Negative? {
      BareMinusRunsOut(t.lit);
    } else {
      assert Text(t) + "" == Text(t);
      ScanSpoils(t, 1, true, Start, "", EMPTY_SCAN);
      TreeIsProper(t, 1, true);
      PostorderClean(Tree(t));
    }
  }

  /** A bracket that opens with a minus loses its operators: `(-A+B)*C` reads as a product of two
      operands, the first of them named `-A+B`. */
  lemma SwallowedSum()
    ensures Parse("(-A+B)*C") == Parsed(["-A+B", "C", "*"])
    ensures var t := Bin(Group(Bin(Negative("A"), '+', Operand("B"))), '*', Operand("C"));
            Sentence(t) && Text(t) == "(-A+B)*C" && !Supported(t)
  {
    SwallowedSumParse();
    hide RunScan;
    var sum := Bin(Negative("A"), '+', Operand("B"));
    assert IsSum(sum, true) && Text(sum) == "-A+B";
    assert IsFactor(Group(sum), true) && Text(Group(sum)) == "(-A+B)" && !MinusAlone(Group(sum));
  }

  lemma SwallowedSumParse()
    ensures Parse("(-A+B)*C") == Parsed(["-A+B", "C", "*"])
  {
    hide RunScan;
    assert "(-A+B)*C" == ['('] + ("-A+B" + ")*C");
    assert ")*C" == [')'] + (['*'] + (['C'] + ""));
    ScanChar(Start, '(', "-A+B" + ")*C", EMPTY_SCAN);
    StepOpen(EMPTY_SCAN);
    assert Step('(', EMPTY_SCAN) == Scan(["("], [], "");
    assert Step(')', Scan(["("], [], "-A+B")) == Scan([], [], "-A+B");
    assert Step('*', Scan([], [], "-A+B")) == Scan(["*"], ["-A+B"], "");
    assert Step('C', Scan(["*"], ["-A+B"], "")) == Scan(["*"], ["-A+B"], "C");
    ScanSwallow("-A+B", ")*C", Scan(["("], [], ""));
    ScanChar(After('B'), ')', ['*'] + (['C'] + ""), Scan(["("], [], "-A+B"));
    ScanChar(After(')'), '*', ['C'] + "", Scan([], [], "-A+B"));
    ScanChar(After('*'), 'C', "", Scan(["*"], ["-A+B"], ""));
    ScanEnd(After('C'), Scan(["*"], ["-A+B"], "C"));
    assert ["-A+B"] + ["C"] + ["*"] == ["-A+B", "C", "*"];
  }

  /** The grammar is unambiguous: two supported sentences with one text denote one tree. */
  lemma TextDeterminesTree(t: Infix, u: Infix)
    requires Sentence(t) && Supported(t) && Sentence(u) && Supported(u) && Text(t) == Text(u)
    ensures Tree(t) == Tree(u)
  {
    ParsesToPostorder(t);
    ParsesToPostorder(u);
    LevelsAgree(t, true);
    LevelsAgree(u, true);
    TreeIsProper(t, 1, true);
    TreeIsProper(u, 1, true);
    PostorderInjective(Tree(t), Tree(u));
  }
}
