/** The infix language that the MPC expression engine reads, and the trees it denotes.

`Infix` is the concrete syntax: what a user may write, with every bracket kept. `Expr` is the
abstract tree, `Tree` forgets the brackets, and `Postorder` is the suffix form the engine evaluates.
*/
module ExpressGrammar {

  predicate IsOp(c: char) {
    c == '+' || c == '-' || c == '*' || c == '/'
  }

  predicate IsSpecial(c: char) {
    IsOp(c) || c == '(' || c == ')'
  }

  /** Anything that is not an operator, a bracket included, has priority 0. */
  function Priority(c: char): int {
    if c == '+' || c == '-' then 1
    else if c == '*' || c == '/' then 2
    else 0
  }

  predicate IsOpToken(s: string) {
    |s| == 1 && IsOp(s[0])
  }

  /** A column name or an unsigned literal. */
  predicate PlainName(s: string) {
    s != "" && forall k | 0 <= k < |s| :: !IsSpecial(s[k])
  }

  datatype Expr =
    | Leaf(token: string)
    | Node(op: char, left: Expr, right: Expr)

  function Postorder(e: Expr): (s: seq<string>)
    ensures s != []
  {
    match e
    case Leaf(token) => [token]
    case Node(op, l, r) => Postorder(l) + Postorder(r) + [[op]]
  }

  function CountOps(s: seq<string>): (n: nat)
    ensures n <= |s|
  {
    if s == [] then 0 else (if IsOpToken(s[0]) then 1 else 0) + CountOps(s[1..])
  }

  lemma {:induction false} CountOpsConcat(a: seq<string>, b: seq<string>)
    ensures CountOps(a + b) == CountOps(a) + CountOps(b)
  {
    if a == [] {
      assert a + b == b;
    } else {
      assert (a + b)[1..] == a[1..] + b;
      CountOpsConcat(a[1..], b);
    }
  }

  /** Leaves that the parser can produce: a plain name, or a minus sign in front of one. */
  predicate LeafToken(s: string) {
    PlainName(s) || (s != "" && s[0] == '-' && PlainName(s[1..]))
  }

  predicate ProperExpr(e: Expr) {
    match e
    case Leaf(token) => LeafToken(token)
    case Node(op, l, r) => IsOp(op) && ProperExpr(l) && ProperExpr(r)
  }

  function Operators(e: Expr): nat {
    match e
    case Leaf(_) => 0
    case Node(_, l, r) => 1 + Operators(l) + Operators(r)
  }

  datatype Infix =
    | Operand(name: string)
    | Negative(lit: string)
    | Group(inner: Infix)
    | Bin(left: Infix, op: char, right: Infix)

  function Text(t: Infix): string {
    match t
    case Operand(name) => name
    case Negative(lit) => "-" + lit
    case Group(inner) => "(" + Text(inner) + ")"
    case Bin(l, op, r) => Text(l) + [op] + Text(r)
  }

  function Tree(t: Infix): Expr {
    match t
    case Operand(name) => Leaf(name)
    case Negative(lit) => Leaf("-" + lit)
    case Group(inner) => Tree(inner)
    case Bin(l, op, r) => Node(op, Tree(l), Tree(r))
  }

  /** The grammar: a sum of terms, a term of factors, both grouped to the left. A factor is a name, a
      bracketed sum, or, where nothing but an opening bracket precedes it, a signed literal. */
  predicate IsSum(t: Infix, minusOk: bool)
    decreases t, 2
  {
    match t
    case Bin(l, op, r) =>
      if op == '+' || op == '-' then IsSum(l, minusOk) && IsTerm(r, false) else IsTerm(t, minusOk)
    case _ => IsFactor(t, minusOk)
  }

  predicate IsTerm(t: Infix, minusOk: bool)
    decreases t, 1
  {
    match t
    case Bin(l, op, r) => (op == '*' || op == '/') && IsTerm(l, minusOk) && IsFactor(r, false)
    case _ => IsFactor(t, minusOk)
  }

  predicate IsFactor(t: Infix, minusOk: bool)
    decreases t, 0
  {
    match t
    case Operand(name) => PlainName(name)
    case Negative(lit) => minusOk && PlainName(lit)
    case Group(inner) => IsSum(inner, true)
    case Bin(_, _, _) => false
  }

  /** The same by levels, as the scanner's priorities have it: an operator of priority p takes a left operand of
      level p and a right operand of level p + 1. A unary minus may only open the whole expression
      or a bracket. */
  predicate WellFormed(t: Infix, level: int, minusOk: bool) {
    match t
    case Operand(name) => PlainName(name)
    case Negative(lit) => minusOk && PlainName(lit)
    case Group(inner) => WellFormed(inner, 1, true)
    case Bin(l, op, r) =>
      IsOp(op) && level <= Priority(op) &&
      WellFormed(l, Priority(op), minusOk) && WellFormed(r, Priority(op) + 1, false)
  }

  predicate Sentence(t: Infix) {
    IsSum(t, true)
  }

  /** The scanner's priorities are the levels of the grammar. */
  lemma {:induction false} LevelsAgree(t: Infix, minusOk: bool)
    ensures WellFormed(t, 1, minusOk) <==> IsSum(t, minusOk)
    ensures WellFormed(t, 2, minusOk) <==> IsTerm(t, minusOk)
    ensures WellFormed(t, 3, minusOk) <==> IsFactor(t, minusOk)
    decreases t
  {
    match t
    case Group(inner) => LevelsAgree(inner, true);
    case Bin(l, op, r) =>
      LevelsAgree(l, minusOk);
      LevelsAgree(r, false);
    case _ =>
  }

  predicate LeadsWithMinus(t: Infix) {
    match t
    case Operand(_) => false
    case Negative(_) => true
    case Group(_) => false
    case Bin(l, _, _) => LeadsWithMinus(l)
  }

  /** Every bracket that opens with a minus holds a signed literal and nothing else. */
  predicate MinusAlone(t: Infix) {
    match t
    case Operand(_) => true
    case Negative(_) => true
    case Group(inner) => MinusAlone(inner) && (LeadsWithMinus(inner) ==> inner.Negative?)
    case Bin(l, _, r) => MinusAlone(l) && MinusAlone(r)
  }

  /** What the scanner reads as intended: signed literals are alone in their brackets, and the whole
      expression is not one bare signed literal. */
  predicate Supported(t: Infix) {
    MinusAlone(t) && !t.Negative?
  }

  lemma {:induction false} TreeIsProper(t: Infix, level: int, minusOk: bool)
    requires WellFormed(t, level, minusOk)
    ensures ProperExpr(Tree(t))
  {
    match t
    case Operand(_) =>
    case Negative(lit) => assert ("-" + lit)[1..] == lit;
    case Group(inner) => TreeIsProper(inner, 1, true);
    case Bin(l, op, r) =>
      TreeIsProper(l, Priority(op), minusOk);
      TreeIsProper(r, Priority(op) + 1, false);
  }

  lemma {:induction false} TextEnds(t: Infix, level: int, minusOk: bool)
    requires WellFormed(t, level, minusOk)
    ensures Text(t) != "" && Text(t)[|Text(t)| - 1] != '('
    ensures (Text(t)[0] == '-') == LeadsWithMinus(t)
  {
    match t
    case Operand(_) =>
    case Negative(_) =>
    case Group(_) =>
    case Bin(l, op, r) =>
      TextEnds(l, Priority(op), minusOk);
      TextEnds(r, Priority(op) + 1, false);
  }

  /** The suffix form, read backwards, determines the tree, whatever follows it. */
  lemma {:induction false} PostorderPrefixFree(e: Expr, f: Expr, s: seq<string>, t: seq<string>)
    requires ProperExpr(e) && ProperExpr(f)
    requires Reversed(Postorder(e)) + s == Reversed(Postorder(f)) + t
    ensures e == f && s == t
    decreases e
  {
    hide Reversed;
    hide Postorder;
    LastToken(e, s);
    LastToken(f, t);
    var a, b := Reversed(Postorder(e)) + s, Reversed(Postorder(f)) + t;
    assert a[0] == b[0] && a[1..] == b[1..];
    match e
    case Leaf(x) =>
    case Node(op, l, r) =>
      if f.Node? {
        PostorderPrefixFree(r, f.right, Reversed(Postorder(l)) + s, Reversed(Postorder(f.left)) + t);
        PostorderPrefixFree(l, f.left, s, t);
      }
  }

  /** Read backwards, the first token tells a leaf from a node, and what follows it is known. */
  lemma LastToken(e: Expr, s: seq<string>)
    requires ProperExpr(e)
    ensures e.Leaf? ==> Reversed(Postorder(e)) + s == [e.token] + s && !IsOpToken(e.token)
    ensures e.Node? ==>
              Reversed(Postorder(e)) + s
              == [[e.op]] + (Reversed(Postorder(e.right)) + (Reversed(Postorder(e.left)) + s))
              && IsOpToken([e.op])
  {
    match e
    case Leaf(x) =>
      assert |x| == 1 ==> x[1..] == "";
    case Node(op, l, r) =>
      hide Postorder;
      hide Reversed;
      ReversedNode(op, l, r);
      Regroup([[op]], Reversed(Postorder(r)), Reversed(Postorder(l)), s);
  }

  lemma Regroup<T>(a: seq<T>, b: seq<T>, c: seq<T>, d: seq<T>)
    ensures a + b + c + d == a + (b + (c + d))
  {
  }

  lemma PostorderInjective(e: Expr, f: Expr)
    requires ProperExpr(e) && ProperExpr(f) && Postorder(e) == Postorder(f)
    ensures e == f
  {
    PostorderPrefixFree(e, f, [], []);
  }

  function Reversed<T>(s: seq<T>): (r: seq<T>)
    ensures |r| == |s|
  {
    if s == [] then [] else Reversed(s[1..]) + [s[0]]
  }

  lemma {:induction false} ReversedConcat<T>(a: seq<T>, b: seq<T>)
    ensures Reversed(a + b) == Reversed(b) + Reversed(a)
  {
    if a == [] {
      assert a + b == b;
    } else {
      assert (a + b)[1..] == a[1..] + b;
      ReversedConcat(a[1..], b);
    }
  }

  lemma ReversedNode(op: char, l: Expr, r: Expr)
    ensures Reversed(Postorder(Node(op, l, r)))
         == [[op]] + Reversed(Postorder(r)) + Reversed(Postorder(l))
  {
    ReversedConcat(Postorder(l) + Postorder(r), [[op]]);
    ReversedConcat(Postorder(l), Postorder(r));
    assert Reversed([[op]]) == [[op]];
  }
}
