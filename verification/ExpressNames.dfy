/** The names under which the engine files its intermediate results.

The result of `a op b` is filed as "(a op b)". These names key the value table, and the final one is
an infix text again, so two questions matter: do two trees ever share a name, and does reading a name
back give the tree?
*/
module ExpressNames {
  import opened ExpressGrammar
  import opened ExpressParser
  import opened ExpressMinus

  function Name(e: Expr): string {
    match e
    case Leaf(token) => token
    case Node(op, l, r) => "(" + Name(l) + [op] + Name(r) + ")"
  }

  predicate Ends(s: string) {
    s == "" || IsSpecial(s[0])
  }

  lemma LeafInside(x: string, k: nat)
    requires LeafToken(x) && 1 <= k < |x|
    ensures !IsSpecial(x[k])
  {
    assert x[1..][k - 1] == x[k];
  }

  lemma LeafNames(x: string, y: string, s: string, t: string)
    requires LeafToken(x) && LeafToken(y) && Ends(s) && Ends(t) && x + s == y + t
    ensures x == y && s == t
  {
    var a, b := x + s, y + t;
    if |x| < |y| {
      assert a[|x|] == s[0] && b[|x|] == y[|x|];
      LeafInside(y, |x|);
    } else if |y| < |x| {
      assert b[|y|] == t[0] && a[|y|] == x[|y|];
      LeafInside(x, |y|);
    }
    assert a[..|x|] == x && b[..|y|] == y && a[|x|..] == s && b[|y|..] == t;
  }

  lemma NodeName(op: char, l: Expr, r: Expr, s: string)
    ensures Name(Node(op, l, r)) + s == ['('] + (Name(l) + ([op] + (Name(r) + ([')'] + s))))
  {
  }

  lemma Uncons<T>(x: T, s: seq<T>, y: T, t: seq<T>)
    requires [x] + s == [y] + t
    ensures x == y && s == t
  {
    assert ([x] + s)[0] == x && ([x] + s)[1..] == s;
    assert ([y] + t)[0] == y && ([y] + t)[1..] == t;
  }

  lemma FirstOfName(e: Expr, s: string)
    requires ProperExpr(e)
    ensures Name(e) + s != "" && ((Name(e) + s)[0] == '(' <==> e.Node?)
  {
    assert e.Leaf? ==> (Name(e) + s)[0] == e.token[0];
  }

  /** Unique readability: a name, followed by a special character or nothing, is read one way. */
  lemma {:induction false} NamePrefixFree(e: Expr, f: Expr, s: string, t: string)
    requires ProperExpr(e) && ProperExpr(f) && Ends(s) && Ends(t) && Name(e) + s == Name(f) + t
    ensures e == f && s == t
    decreases e
  {
    FirstOfName(e, s);
    FirstOfName(f, t);
    if e.Leaf? && f.Leaf? {
      LeafNames(e.token, f.token, s, t);
    } else if e.Node? && f.Node? {
      NodeName(e.op, e.left, e.right, s);
      NodeName(f.op, f.left, f.right, t);
      var s1, t1 := Name(e.right) + ([')'] + s), Name(f.right) + ([')'] + t);
      Uncons('(', Name(e.left) + ([e.op] + s1), '(', Name(f.left) + ([f.op] + t1));
      NamePrefixFree(e.left, f.left, [e.op] + s1, [f.op] + t1);
      Uncons(e.op, s1, f.op, t1);
      NamePrefixFree(e.right, f.right, [')'] + s, [')'] + t);
      Uncons(')', s, ')', t);
    }
  }

  /** Distinct trees are filed under distinct names. */
  lemma NameInjective(e: Expr, f: Expr)
    requires ProperExpr(e) && ProperExpr(f) && Name(e) == Name(f)
    ensures e == f
  {
    assert Name(e) + "" == Name(e) && Name(f) + "" == Name(f);
    NamePrefixFree(e, f, "", "");
  }

  // ----- reading a name back

  predicate Signed(s: string) {
    2 <= |s| && s[0] == '-'
  }

  predicate NoSigned(s: seq<string>) {
    forall j | 0 <= j < |s| :: !Signed(s[j])
  }

  predicate Unsigned(e: Expr) {
    NoSigned(Postorder(e))
  }

  function Bracketed(e: Expr): Infix {
    match e
    case Leaf(token) => Operand(token)
    case Node(op, l, r) => Group(Bin(Bracketed(l), op, Bracketed(r)))
  }

  lemma {:induction false} BracketedText(e: Expr, level: int, minusOk: bool)
    requires ProperExpr(e) && Unsigned(e) && level <= 3
    ensures WellFormed(Bracketed(e), level, minusOk) && MinusAlone(Bracketed(e)) && !LeadsWithMinus(Bracketed(e))
    ensures Text(Bracketed(e)) == Name(e) && Tree(Bracketed(e)) == e
  {
    match e
    case Leaf(x) =>
      assert Postorder(e)[0] == x;
      assert x != "" ==> |x[1..]| == |x| - 1;
    case Node(op, l, r) =>
      UnsignedParts(op, l, r);
      BracketedText(l, Priority(op), true);
      BracketedText(r, Priority(op) + 1, false);
      var b := Bin(Bracketed(l), op, Bracketed(r));
      assert WellFormed(b, 1, true) && !LeadsWithMinus(b) && MinusAlone(b);
      assert Text(b) == Name(l) + [op] + Name(r);
  }

  lemma UnsignedParts(op: char, l: Expr, r: Expr)
    ensures Unsigned(Node(op, l, r)) ==> Unsigned(l) && Unsigned(r)
  {
    var p := Postorder(Node(op, l, r));
    var n := |Postorder(l)|;
    assert forall j | 0 <= j < n :: p[j] == Postorder(l)[j];
    assert forall j | 0 <= j < |Postorder(r)| :: p[n + j] == Postorder(r)[j];
  }

  predicate OpBeforeClose(s: string) {
    s != "" && s[0] != ')' && (IsOp(s[0]) || OpBeforeClose(s[1..]))
  }

  /** After every "(-" an operator comes before the next closing bracket. */
  predicate MinusNeedsOp(prev: Prev, rest: string)
    decreases |rest|
  {
    rest != "" ==>
      && (rest[0] == '-' && prev == After('(') ==> OpBeforeClose(rest[1..]))
      && MinusNeedsOp(After(rest[0]), rest[1..])
  }

  lemma {:induction false} OpBeforeCloseAfter(x: string, post: string)
    requires (forall k | 0 <= k < |x| :: !IsSpecial(x[k])) && post != "" && IsOp(post[0])
    ensures OpBeforeClose(x + post)
  {
    if x == "" {
      assert x + post == post;
    } else {
      assert (x + post)[1..] == x[1..] + post;
      OpBeforeCloseAfter(x[1..], post);
    }
  }

  lemma MinusNeedsOpCons(prev: Prev, c: char, rest: string)
    requires c == '-' && prev == After('(') ==> OpBeforeClose(rest)
    requires MinusNeedsOp(After(c), rest)
    ensures MinusNeedsOp(prev, [c] + rest)
  {
    assert ([c] + rest)[1..] == rest;
  }

  lemma {:induction false} PlainNeedsOp(prev: Prev, x: string, post: string)
    requires PlainName(x) && MinusNeedsOp(After(x[|x| - 1]), post)
    ensures MinusNeedsOp(prev, x + post)
    decreases |x|
  {
    assert x + post == [x[0]] + (x[1..] + post);
    if |x| == 1 {
      assert x[1..] + post == post;
    } else {
      PlainNeedsOp(After(x[0]), x[1..], post);
    }
    MinusNeedsOpCons(prev, x[0], x[1..] + post);
  }

  function LastOf(e: Expr): char
    requires ProperExpr(e)
  {
    match e
    case Leaf(x) => x[|x| - 1]
    case Node(_, _, _) => ')'
  }

  lemma {:induction false} NameNeedsOp(e: Expr, prev: Prev, post: string)
    requires ProperExpr(e) && MinusNeedsOp(After(LastOf(e)), post)
    requires e.Leaf? && prev == After('(') ==> post != "" && IsOp(post[0])
    ensures MinusNeedsOp(prev, Name(e) + post)
    decreases e
  {
    match e
    case Leaf(x) =>
      if PlainName(x) {
        PlainNeedsOp(prev, x, post);
      } else {
        assert x + post == ['-'] + (x[1..] + post);
        PlainNeedsOp(After('-'), x[1..], post);
        if prev == After('(') {
          OpBeforeCloseAfter(x[1..], post);
        }
        MinusNeedsOpCons(prev, '-', x[1..] + post);
      }
    case Node(op, l, r) =>
      NodeName(op, l, r, post);
      MinusNeedsOpCons(After(LastOf(r)), ')', post);
      NameNeedsOp(r, After(op), [')'] + post);
      LastIsNotOpen(l);
      MinusNeedsOpCons(After(LastOf(l)), op, Name(r) + ([')'] + post));
      NameNeedsOp(l, After('('), [op] + (Name(r) + ([')'] + post)));
      MinusNeedsOpCons(prev, '(', Name(l) + ([op] + (Name(r) + ([')'] + post))));
  }

  lemma LastIsNotOpen(e: Expr)
    requires ProperExpr(e)
    ensures LastOf(e) != '('
  {
    if e.Leaf? && 1 < |e.token| { LeafInside(e.token, |e.token| - 1); }
  }

  predicate UnsignedScan(st: Scan) {
    && (st.temp != "" ==> st.temp[0] != '-')
    && NoSigned(st.out)
    && (forall j | 0 <= j < |st.ops| :: |st.ops[j]| <= 1)
  }

  lemma {:induction false} UnsignedPopHigher(c: char, ops: seq<string>, out: seq<string>)
    requires NoSigned(out) && forall j | 0 <= j < |ops| :: |ops[j]| <= 1
    ensures NoSigned(PopHigher(c, ops, out).1)
    ensures forall j | 0 <= j < |PopHigher(c, ops, out).0| :: |PopHigher(c, ops, out).0[j]| <= 1
    decreases |ops|
  {
    if !(ops == [] || First(ops[0]) == '(' || Priority(c) > Priority(First(ops[0]))) {
      UnsignedPopHigher(c, ops[1..], out + [ops[0]]);
    }
  }

  lemma {:induction false} UnsignedPopToBracket(st: Scan)
    requires UnsignedScan(st)
    ensures UnsignedScan(PopToBracket(st))
    decreases |st.ops|
  {
    if st.ops != [] && First(st.ops[0]) != '(' {
      var s := Flush(st);
      UnsignedPopToBracket(Scan(s.ops[1..], s.out + [s.ops[0]], ""));
    }
  }

  lemma UnsignedStep(c: char, st: Scan)
    requires UnsignedScan(st)
    ensures UnsignedScan(Step(c, st))
  {
    if IsOp(c) {
      UnsignedPopHigher(c, Flush(st).ops, Flush(st).out);
    } else if c == ')' {
      UnsignedPopToBracket(st);
    }
  }

  /** Without a minus that opens the text, the scanner makes no signed operand: it either swallows
      an operator into one token or reads every minus as subtraction. */
  lemma {:induction false} UnsignedRun(prev: Prev, rest: string, st: Scan)
    requires UnsignedScan(st) && MinusNeedsOp(prev, rest)
    requires prev == Start ==> rest == "" || rest[0] != '-'
    ensures SpoiledOutcome(RunScan(prev, rest, st)) ||
            (RunScan(prev, rest, st).Parsed? ==> NoSigned(RunScan(prev, rest, st).suffix))
    decreases |rest|
  {
    if rest == "" {
    } else if rest[0] == '-' && prev == After('(') {
      var k := FindClose(rest);
      if k < |rest| {
        var temp := st.temp + rest[..k];
        var j := OpIndex(rest[1..], k - 1);
        assert temp[|st.temp| + 1 + j] == rest[1 + j];
        SpoiledRun(After(rest[k - 1]), rest[k..], st.(temp := temp));
      }
    } else {
      UnsignedStep(rest[0], st);
      UnsignedRun(After(rest[0]), rest[1..], Step(rest[0], st));
    }
  }

  lemma {:induction false} OpIndex(s: string, k: nat) returns (j: nat)
    requires OpBeforeClose(s) && k < |s| && s[k] == ')'
    ensures j < k && IsOp(s[j])
  {
    if IsOp(s[0]) { j := 0; } else { j := OpIndex(s[1..], k - 1); j := j + 1; }
  }

  /** Reading the name of a compound result gives its suffix form back, exactly when no operand in it
      carries a sign. */
  lemma ReparsesIffUnsigned(e: Expr)
    requires ProperExpr(e) && e.Node?
    ensures Parse(Name(e)) == Parsed(Postorder(e)) <==> Unsigned(e)
  {
    hide RunScan;
    if Unsigned(e) {
      BracketedText(e, 1, true);
      LevelsAgree(Bracketed(e), true);
      ParsesToPostorder(Bracketed(e));
    } else {
      assert Name(e) + "" == Name(e);
      NameNeedsOp(e, Start, "");
      UnsignedRun(Start, Name(e), EMPTY_SCAN);
      PostorderClean(e);
    }
  }
}
