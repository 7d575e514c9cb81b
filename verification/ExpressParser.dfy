/** The two-stack scanner of the expression engine, and what it computes.

A stack of operators is a sequence with its top at index 0. The output stack is a sequence with its
top at the end, so that emitting a token appends it.
*/
module ExpressParser {
  import opened ExpressGrammar

  datatype Scan = Scan(ops: seq<string>, out: seq<string>, temp: string)

  /** The character just before the scan position; the scanner asks for it when it meets a minus. */
  datatype Prev = Start | After(c: char)

  /** `OutOfBounds` is a scan for a closing character that runs past the end of the text. */
  datatype Outcome = Parsed(suffix: seq<string>) | OutOfBounds

  /** The first character of a token, or the terminator when the token is empty. */
  function First(s: string): char {
    if s == "" then '\0' else s[0]
  }

  function Pushed(temp: string): seq<string> {
    if temp == "" then [] else [temp]
  }

  function Flush(st: Scan): Scan {
    st.(out := st.out + Pushed(st.temp), temp := "")
  }

  function PopHigher(c: char, ops: seq<string>, out: seq<string>): (seq<string>, seq<string>) {
    if ops == [] || First(ops[0]) == '(' || Priority(c) > Priority(First(ops[0])) then
      ([[c]] + ops, out)
    else
      PopHigher(c, ops[1..], out + [ops[0]])
  }

  function PopToBracket(st: Scan): Scan
    decreases |st.ops|
  {
    if st.ops == [] then st
    else if First(st.ops[0]) == '(' then st.(ops := st.ops[1..])
    else var s := Flush(st); PopToBracket(Scan(s.ops[1..], s.out + [s.ops[0]], ""))
  }

  function Step(c: char, st: Scan): Scan {
    if IsOp(c) then
      var s := Flush(st);
      var (ops, out) := PopHigher(c, s.ops, s.out);
      Scan(ops, out, "")
    else if c == '(' then st.(ops := ["("] + st.ops)
    else if c == ')' then PopToBracket(st)
    else st.(temp := st.temp + [c])
  }

  function FindOp(s: string): (k: nat)
    ensures k <= |s|
    ensures forall j | 0 <= j < k :: !IsOp(s[j])
    ensures k < |s| ==> IsOp(s[k])
  {
    if s == "" || IsOp(s[0]) then 0 else 1 + FindOp(s[1..])
  }

  function FindClose(s: string): (k: nat)
    ensures k <= |s|
    ensures forall j | 0 <= j < k :: s[j] != ')'
    ensures k < |s| ==> s[k] == ')'
  {
    if s == "" || s[0] == ')' then 0 else 1 + FindClose(s[1..])
  }

  /** The whole scan of `rest`, ending with the output poured back on the operators left over. */
  function RunScan(prev: Prev, rest: string, st: Scan): Outcome
    decreases |rest|
  {
    if rest == "" then
      var s := Flush(st);
      Parsed(s.out + s.ops)
    else if rest[0] == '-' && prev == Start then
      var k := 1 + FindOp(rest[1..]);
      if k == |rest| then OutOfBounds
      else RunScan(After(rest[k - 1]), rest[k..], st.(temp := st.temp + rest[..k]))
    else if rest[0] == '-' && prev == After('(') then
      var k := FindClose(rest);
      if k == |rest| then OutOfBounds
      else RunScan(After(rest[k - 1]), rest[k..], st.(temp := st.temp + rest[..k]))
    else
      RunScan(After(rest[0]), rest[1..], Step(rest[0], st))
  }

  const EMPTY_SCAN := Scan([], [], "")

  function Parse(text: string): Outcome {
    RunScan(Start, text, EMPTY_SCAN)
  }

  // ----- where the scanner stands after a phrase of the grammar

  /** Operators of the phrase that wait on the operator stack, top first. */
  function Pending(t: Infix): seq<string> {
    match t
    case Operand(_) => []
    case Negative(_) => []
    case Group(_) => []
    case Bin(_, op, r) => Pending(r) + [[op]]
  }

  /** The operand that the scanner still holds in its buffer. */
  function Held(t: Infix): string {
    match t
    case Operand(name) => name
    case Negative(lit) => "-" + lit
    case Group(inner) => if Pending(inner) == [] then Held(inner) else ""
    case Bin(_, _, r) => Held(r)
  }

  function Emitted(t: Infix): seq<string> {
    match t
    case Operand(_) => []
    case Negative(_) => []
    case Group(inner) =>
      if Pending(inner) == [] then Emitted(inner)
      else Emitted(inner) + Pushed(Held(inner)) + Pending(inner)
    case Bin(l, _, r) => Emitted(l) + Pushed(Held(l)) + Pending(l) + Emitted(r)
  }

  lemma {:induction false} EmittedHeldPending(t: Infix, level: int, minusOk: bool)
    requires WellFormed(t, level, minusOk)
    ensures Emitted(t) + Pushed(Held(t)) + Pending(t) == Postorder(Tree(t))
  {
    match t
    case Operand(_) =>
    case Negative(_) =>
    case Group(inner) => EmittedHeldPending(inner, 1, true);
    case Bin(l, op, r) =>
      EmittedHeldPending(l, Priority(op), minusOk);
      EmittedHeldPending(r, Priority(op) + 1, false);
  }

  ghost predicate AtLeast(ops: seq<string>, level: int) {
    forall k | 0 <= k < |ops| :: IsOpToken(ops[k]) && level <= Priority(ops[k][0])
  }

  predicate Below(ops: seq<string>, level: int) {
    ops == [] || First(ops[0]) == '(' || Priority(First(ops[0])) < level
  }

  lemma {:induction false} PendingAtLeast(t: Infix, level: int, minusOk: bool)
    requires WellFormed(t, level, minusOk)
    ensures AtLeast(Pending(t), level)
  {
    match t
    case Operand(_) =>
    case Negative(_) =>
    case Group(_) =>
    case Bin(_, op, r) => PendingAtLeast(r, Priority(op) + 1, false);
  }

  lemma {:induction false} PopHigherAll(c: char, pending: seq<string>, ops: seq<string>, out: seq<string>)
    requires IsOp(c) && AtLeast(pending, Priority(c)) && Below(ops, Priority(c))
    ensures PopHigher(c, pending + ops, out) == ([[c]] + ops, out + pending)
  {
    if pending == [] {
      assert pending + ops == ops && out + pending == out;
    } else {
      assert (pending + ops)[1..] == pending[1..] + ops;
      PopHigherAll(c, pending[1..], ops, out + [pending[0]]);
      assert out + [pending[0]] + pending[1..] == out + pending;
    }
  }

  lemma {:induction false} PopToBracketAll(pending: seq<string>, ops: seq<string>, out: seq<string>, temp: string)
    requires AtLeast(pending, 1)
    ensures PopToBracket(Scan(pending + ["("] + ops, out, temp))
         == (if pending == [] then Scan(ops, out, temp)
             else Scan(ops, out + Pushed(temp) + pending, ""))
  {
    var st := Scan(pending + ["("] + ops, out, temp);
    if pending == [] {
      assert st.ops[0] == "(" && st.ops[1..] == ops;
    } else {
      assert st.ops[0] == pending[0];
      assert st.ops[1..] == pending[1..] + ["("] + ops;
      var out' := out + Pushed(temp) + [pending[0]];
      PopToBracketAll(pending[1..], ops, out', "");
      assert out' + Pushed("") + pending[1..] == out + Pushed(temp) + pending;
      assert PopToBracket(st) == PopToBracket(Scan(pending[1..] + ["("] + ops, out', ""));
    }
  }

  lemma ScanChar(prev: Prev, c: char, rest: string, st: Scan)
    requires c != '-' || (prev != Start && prev != After('('))
    ensures RunScan(prev, [c] + rest, st) == RunScan(After(c), rest, Step(c, st))
  {
    assert ([c] + rest)[0] == c && ([c] + rest)[1..] == rest;
  }

  /** A minus that opens the text or a bracket swallows what follows. */
  lemma ScanMinus(prev: Prev, rest: string, k: nat, st: Scan)
    requires rest != "" && rest[0] == '-' && (prev == Start || prev == After('(')) && 0 < k <= |rest|
    requires k == if prev == Start then 1 + FindOp(rest[1..]) else FindClose(rest)
    ensures RunScan(prev, rest, st)
         == if k == |rest| then OutOfBounds
            else RunScan(After(rest[k - 1]), rest[k..], st.(temp := st.temp + rest[..k]))
  {
  }

  lemma ScanEnd(prev: Prev, st: Scan)
    ensures RunScan(prev, "", st) == Parsed(st.out + Pushed(st.temp) + st.ops)
  {
  }

  lemma {:induction false} ScanName(prev: Prev, name: string, post: string, st: Scan)
    requires PlainName(name)
    ensures RunScan(prev, name + post, st)
         == RunScan(After(name[|name| - 1]), post, st.(temp := st.temp + name))
    decreases |name|
  {
    assert name + post == [name[0]] + (name[1..] + post);
    ScanChar(prev, name[0], name[1..] + post, st);
    assert st.temp + name == st.temp + [name[0]] + name[1..];
    if |name| == 1 {
      assert name[1..] + post == post && st.temp + [name[0]] == st.temp + name;
    } else {
      ScanName(After(name[0]), name[1..], post, Step(name[0], st));
    }
  }

  lemma {:induction false} FindOpAfter(name: string, post: string)
    requires forall k | 0 <= k < |name| :: !IsOp(name[k])
    requires post != "" && IsOp(post[0])
    ensures FindOp(name + post) == |name|
  {
    if name == "" {
      assert name + post == post;
    } else {
      assert (name + post)[1..] == name[1..] + post;
      FindOpAfter(name[1..], post);
    }
  }

  lemma {:induction false} FindCloseAfter(name: string, post: string)
    requires forall k | 0 <= k < |name| :: name[k] != ')'
    requires post != "" && post[0] == ')'
    ensures FindClose(name + post) == |name|
  {
    if name == "" {
      assert name + post == post;
    } else {
      assert (name + post)[1..] == name[1..] + post;
      FindCloseAfter(name[1..], post);
    }
  }

  /** A phrase is scanned as intended when no bracket of it swallows more than a literal and, if it
      opens with a minus, it opens the whole text and an operator comes next. */
  predicate Context(t: Infix, prev: Prev, post: string) {
    && (LeadsWithMinus(t) ==> prev == Start && (t.Negative? ==> post != "" && IsOp(post[0])))
    && (post != "" ==> IsOp(post[0]) || post[0] == ')')
  }

  ghost function AfterPhrase(t: Infix, st: Scan): Scan {
    Scan(Pending(t) + st.ops, st.out + Emitted(t), Held(t))
  }

  lemma {:induction false} ScanPhrase(t: Infix, level: int, minusOk: bool, prev: Prev, post: string, st: Scan)
    requires WellFormed(t, level, minusOk) && 1 <= level && MinusAlone(t) && Context(t, prev, post)
    requires st.temp == "" && Below(st.ops, level)
    ensures Text(t) != ""
    ensures RunScan(prev, Text(t) + post, st)
         == RunScan(After(Text(t)[|Text(t)| - 1]), post, AfterPhrase(t, st))
    decreases t, 1
  {
    hide RunScan;
    TextEnds(t, level, minusOk);
    match t
    case Operand(name) =>
      ScanOperand(prev, name, post, st);
    case Negative(lit) =>
      ScanSign(lit, post, st);
    case Group(inner) =>
      ScanGroup(inner, prev, post, st);
    case Bin(l, op, r) =>
      ScanBin(l, op, r, level, minusOk, prev, post, st);
  }

  lemma {:induction false} NoLeadingMinus(t: Infix, level: int)
    requires WellFormed(t, level, false)
    ensures !LeadsWithMinus(t)
  {
    match t
    case Operand(_) =>
    case Group(_) =>
    case Bin(l, op, _) => NoLeadingMinus(l, Priority(op));
  }

  lemma ScanOperand(prev: Prev, name: string, post: string, st: Scan)
    requires PlainName(name) && st.temp == ""
    ensures RunScan(prev, name + post, st)
         == RunScan(After(name[|name| - 1]), post, AfterPhrase(Operand(name), st))
  {
    hide RunScan;
    ScanName(prev, name, post, st);
    assert [] + st.ops == st.ops && st.out + [] == st.out && "" + name == name;
  }

  lemma ScanSign(lit: string, post: string, st: Scan)
    requires PlainName(lit) && st.temp == "" && post != "" && IsOp(post[0])
    ensures RunScan(Start, "-" + lit + post, st)
         == RunScan(After(lit[|lit| - 1]), post, AfterPhrase(Negative(lit), st))
  {
    var rest := "-" + lit + post;
    assert rest[1..] == lit + post;
    FindOpAfter(lit, post);
    var k := 1 + |lit|;
    assert rest[k..] == post && rest[..k] == "-" + lit && rest[k - 1] == lit[|lit| - 1];
    assert st.temp + rest[..k] == "-" + lit;
    assert [] + st.ops == st.ops && st.out + [] == st.out;
  }

  lemma ScanSwallow(body: string, closing: string, st: Scan)
    requires body != "" && body[0] == '-' && ')' !in body && st.temp == ""
    requires closing != "" && closing[0] == ')'
    ensures RunScan(After('('), body + closing, st)
         == RunScan(After(body[|body| - 1]), closing, st.(temp := body))
  {
    FindCloseAfter(body, closing);
    var rest, k := body + closing, |body|;
    assert rest[..k] == body && rest[k..] == closing && rest[k - 1] == body[k - 1];
    assert st.temp + body == body;
  }

  /** A closing bracket turns the scanner that has read `inner` into one that has read the group. */
  lemma CloseAfter(inner: Infix, st: Scan)
    requires WellFormed(inner, 1, true)
    ensures Step(')', AfterPhrase(inner, st.(ops := ["("] + st.ops))) == AfterPhrase(Group(inner), st)
  {
    PendingAtLeast(inner, 1, true);
    hide AtLeast;
    hide PopToBracket;
    var p, e, h := Pending(inner), Emitted(inner), Held(inner);
    GroupParts(inner);
    PopToBracketAll(p, st.ops, st.out + e, h);
    hide Pending;
    hide Emitted;
    hide Held;
    assert p + (["("] + st.ops) == p + ["("] + st.ops;
    assert [] + st.ops == st.ops && st.out + e + Pushed(h) + p == st.out + (e + Pushed(h) + p);
  }

  /** A group with pending operators has put out everything; one without keeps what it held. */
  lemma GroupParts(inner: Infix)
    ensures Pending(Group(inner)) == []
    ensures Pending(inner) == [] ==> Emitted(Group(inner)) == Emitted(inner) && Held(Group(inner)) == Held(inner)
    ensures Pending(inner) != [] ==>
              Emitted(Group(inner)) == Emitted(inner) + Pushed(Held(inner)) + Pending(inner) && Held(Group(inner)) == ""
  {
  }

  lemma {:induction false} ScanGroup(inner: Infix, prev: Prev, post: string, st: Scan)
    requires WellFormed(inner, 1, true) && MinusAlone(Group(inner)) && st.temp == ""
    ensures RunScan(prev, Text(Group(inner)) + post, st)
         == RunScan(After(')'), post, AfterPhrase(Group(inner), st))
    decreases Group(inner), 0
  {
    hide RunScan;
    hide Step;
    var body, closing := Text(inner), [')'] + post;
    var st1 := st.(ops := ["("] + st.ops);
    assert Text(Group(inner)) + post == ['('] + (body + closing);
    ScanChar(prev, '(', body + closing, st);
    StepOpen(st);
    TextEnds(inner, 1, true);
    if inner.Negative? {
      ScanSwallow(body, closing, st1);
      assert [] + st1.ops == st1.ops && st1.out + [] == st1.out;
      assert st1.(temp := body) == AfterPhrase(inner, st1);
    } else {
      ScanPhrase(inner, 1, true, After('('), closing, st1);
    }
    ScanChar(After(body[|body| - 1]), ')', post, AfterPhrase(inner, st1));
    CloseAfter(inner, st);
  }

  lemma StepOpen(st: Scan)
    ensures Step('(', st) == st.(ops := ["("] + st.ops)
  {
  }

  /** The state between the operator of a binary phrase and its right operand. */
  ghost function AfterOp(l: Infix, op: char, st: Scan): Scan {
    Scan([[op]] + st.ops, st.out + (Emitted(l) + Pushed(Held(l)) + Pending(l)), "")
  }

  lemma OpAfter(l: Infix, op: char, minusOk: bool, st: Scan)
    requires IsOp(op) && WellFormed(l, Priority(op), minusOk) && Below(st.ops, Priority(op))
    ensures Step(op, AfterPhrase(l, st)) == AfterOp(l, op, st)
  {
    PendingAtLeast(l, Priority(op), minusOk);
    PopHigherAll(op, Pending(l), st.ops, st.out + Emitted(l) + Pushed(Held(l)));
    hide PopHigher;
    hide AtLeast;
    hide Below;
    hide WellFormed;
    hide Pending;
    hide Emitted;
    hide Held;
    assert st.out + Emitted(l) + Pushed(Held(l)) + Pending(l)
        == st.out + (Emitted(l) + Pushed(Held(l)) + Pending(l));
  }

  lemma RightAfter(l: Infix, op: char, r: Infix, st: Scan)
    ensures AfterPhrase(r, AfterOp(l, op, st)) == AfterPhrase(Bin(l, op, r), st)
  {
    assert Pending(r) + ([[op]] + st.ops) == Pending(r) + [[op]] + st.ops;
    var left := Emitted(l) + Pushed(Held(l)) + Pending(l);
    assert st.out + left + Emitted(r) == st.out + (left + Emitted(r));
  }

  lemma {:induction false} ScanBin(l: Infix, op: char, r: Infix, level: int, minusOk: bool,
                                   prev: Prev, post: string, st: Scan)
    requires WellFormed(Bin(l, op, r), level, minusOk) && 1 <= level && MinusAlone(Bin(l, op, r))
    requires Context(Bin(l, op, r), prev, post)
    requires st.temp == "" && Below(st.ops, level)
    ensures Text(r) != ""
    ensures RunScan(prev, Text(Bin(l, op, r)) + post, st)
         == RunScan(After(Text(r)[|Text(r)| - 1]), post, AfterPhrase(Bin(l, op, r), st))
    decreases Bin(l, op, r), 0
  {
    hide RunScan;
    hide Step;
    var tail := [op] + (Text(r) + post);
    assert Text(Bin(l, op, r)) + post == Text(l) + tail;
    ScanPhrase(l, Priority(op), minusOk, prev, tail, st);
    TextEnds(l, Priority(op), minusOk);
    ScanChar(After(Text(l)[|Text(l)| - 1]), op, Text(r) + post, AfterPhrase(l, st));
    OpAfter(l, op, minusOk, st);
    NoLeadingMinus(r, Priority(op) + 1);
    TextEnds(r, Priority(op) + 1, false);
    ScanPhrase(r, Priority(op) + 1, false, After(op), post, AfterOp(l, op, st));
    RightAfter(l, op, r, st);
  }

  /** Meaning of the scanner: it leaves the postorder of the tree. */
  lemma ParsesToPostorder(t: Infix)
    requires Sentence(t) && Supported(t)
    ensures Parse(Text(t)) == Parsed(Postorder(Tree(t)))
  {
    LevelsAgree(t, true);
    assert Text(t) + "" == Text(t);
    ScanPhrase(t, 1, true, Start, "", EMPTY_SCAN);
    ScanEnd(After(Text(t)[|Text(t)| - 1]), AfterPhrase(t, EMPTY_SCAN));
    EmittedHeldPending(t, 1, true);
    assert Pending(t) + [] == Pending(t) && [] + Emitted(t) == Emitted(t);
  }

  predicate Additive(c: char) { c == '+' || c == '-' }

  predicate Multiplicative(c: char) { c == '*' || c == '/' }

  /** Precedence and associativity on texts: multiplication and division before addition and
      subtraction, on either side, and operators of one level from the left. */
  lemma Precedence(a: string, b: string, c: string, p: char, q: char)
    requires PlainName(a) && PlainName(b) && PlainName(c)
    requires (Additive(p) || Multiplicative(p)) && (Additive(q) || Multiplicative(q))
    ensures Parse(a + [p] + b + [q] + c)
         == Parsed(if Additive(p) && Multiplicative(q) then [a, b, c, [q], [p]] else [a, b, [p], c, [q]])
  {
    hide RunScan;
    if Additive(p) && Multiplicative(q) {
      ToTheRight(a, b, c, p, q);
    } else {
      ToTheLeft(a, b, c, p, q);
    }
  }

  lemma ToTheRight(a: string, b: string, c: string, p: char, q: char)
    requires PlainName(a) && PlainName(b) && PlainName(c) && Additive(p) && Multiplicative(q)
    ensures Parse(a + [p] + b + [q] + c) == Parsed([a, b, c, [q], [p]])
  {
    hide RunScan;
    var x, y, z := Operand(a), Operand(b), Operand(c);
    var inner := Bin(y, q, z);
    var t := Bin(x, p, inner);
    assert IsFactor(x, true) && IsSum(x, true) && IsFactor(y, false) && IsTerm(y, false) && IsFactor(z, false);
    assert IsTerm(inner, false);
    assert Text(x) == a && Text(y) == b && Text(z) == c && Text(inner) == b + [q] + c;
    assert Text(t) == a + [p] + (b + [q] + c);
    assert a + [p] + (b + [q] + c) == a + [p] + b + [q] + c;
    assert Postorder(Tree(inner)) == [b] + [c] + [[q]];
    assert MinusAlone(x) && MinusAlone(y) && MinusAlone(z) && MinusAlone(inner) && Supported(t);
    ParsesToPostorder(t);
  }

  lemma ToTheLeft(a: string, b: string, c: string, p: char, q: char)
    requires PlainName(a) && PlainName(b) && PlainName(c)
    requires (Additive(p) && Additive(q)) || (Multiplicative(p) && (Additive(q) || Multiplicative(q)))
    ensures Parse(a + [p] + b + [q] + c) == Parsed([a, b, [p], c, [q]])
  {
    hide RunScan;
    var x, y, z := Operand(a), Operand(b), Operand(c);
    var inner := Bin(x, p, y);
    var t := Bin(inner, q, z);
    assert IsFactor(x, true) && IsSum(x, true) && IsTerm(x, true) && IsFactor(y, false) && IsTerm(y, false);
    assert IsFactor(z, false) && IsTerm(z, false);
    assert if Additive(q) then IsSum(inner, true) else IsTerm(inner, true);
    assert Text(x) == a && Text(y) == b && Text(z) == c && Text(inner) == a + [p] + b;
    assert Text(t) == a + [p] + b + [q] + c;
    assert Postorder(Tree(inner)) == [a] + [b] + [[p]];
    assert MinusAlone(x) && MinusAlone(y) && MinusAlone(z) && MinusAlone(inner) && Supported(t);
    ParsesToPostorder(t);
  }

  /** A bracket that is never closed stays in the suffix form, below everything else. */
  lemma UnclosedBracket(t: Infix)
    requires Sentence(t) && Supported(t) && !LeadsWithMinus(t)
    ensures Parse("(" + Text(t)) == Parsed(Postorder(Tree(t)) + ["("])
  {
    hide RunScan;
    hide Step;
    LevelsAgree(t, true);
    var st := Scan(["("], [], "");
    OpenBracket(Text(t));
    ScanPhrase(t, 1, true, After('('), "", st);
    EmittedHeldPending(t, 1, true);
    TextEnds(t, 1, true);
    hide Text;
    hide Pending;
    hide Emitted;
    hide Held;
    hide Postorder;
    hide WellFormed;
    ScanEnd(After(Text(t)[|Text(t)| - 1]), AfterPhrase(t, st));
    EndsWith(Emitted(t), Held(t), Pending(t));
  }

  lemma OpenBracket(text: string)
    ensures RunScan(Start, "(" + text, EMPTY_SCAN) == RunScan(After('('), text + "", Scan(["("], [], ""))
  {
    hide RunScan;
    assert "(" + text == ['('] + (text + "");
    ScanChar(Start, '(', text + "", EMPTY_SCAN);
    StepOpen(EMPTY_SCAN);
    assert ["("] + [] == ["("];
  }

  lemma EndsWith(e: seq<string>, h: string, p: seq<string>)
    ensures [] + e + Pushed(h) + (p + ["("]) == e + Pushed(h) + p + ["("]
    ensures Flush(Scan(p + ["("], [] + e, h)) == Scan(p + ["("], [] + e + Pushed(h), "")
  {
  }
}
