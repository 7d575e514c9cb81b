/** The three-party minimum and maximum, driven by revealed comparison bits.

Each party runs the same code on its own value and its own party id. A comparison needs exactly two
providers; it reveals the sign bit of "lower-id value minus higher-id value", computed in 64 bits.
The winner then deals its value to the others.
*/
module Tournament {
  import opened MachineInts
  import opened Wrappers

  /** The two tournaments of the statistics executor and the two of the missing-value algorithm. */
  datatype Kind = StatMin | StatMax | FillMin | FillMax

  datatype Action = Provide(m: int) | Skip | DealOut(m: int) | Take

  /** The most significant bit of x - y. */
  predicate SignBit(x: int, y: int) {
    Wrap64(x - y) < 0
  }

  /** The comparison circuit answers "less than" exactly when the difference fits in 64 bits. */
  lemma SignBitIff(x: int, y: int)
    requires IsI64(x) && IsI64(y)
    ensures SignBit(x, y) == (x < y) <==> IsI64(x - y)
  {
  }

  function JointCompare(a: Action, b: Action, c: Action): Option<bool> {
    match (a, b, c)
    case (Provide(x), Provide(y), Skip) => Some(SignBit(x, y))
    case (Provide(x), Skip, Provide(z)) => Some(SignBit(x, z))
    case (Skip, Provide(y), Provide(z)) => Some(SignBit(y, z))
    case _ => None
  }

  function JointShare(a: Action, b: Action, c: Action): Option<int> {
    match (a, b, c)
    case (DealOut(x), Take, Take) => Some(x)
    case (Take, DealOut(y), Take) => Some(y)
    case (Take, Take, DealOut(z)) => Some(z)
    case _ => None
  }

  class Party {
    const kind: Kind
    const id: nat
    const value: int
    var keeper: nat
    var winner: nat

    constructor (kind: Kind, id: nat, value: int)
      ensures this.kind == kind && this.id == id && this.value == value
    {
      this.kind, this.id, this.value := kind, id, value;
      keeper, winner := 255, 255;
    }

    /** The statistics maximum compares negated values. */
    function Compared(): int {
      if kind == StatMax then Wrap64(-value) else value
    }

    method FirstCompare() returns (a: Action)
      requires id < 3
      ensures a == if id == 2 then Skip else Provide(Compared())
    {
      if kind.StatMin? || kind.StatMax? {
        if id == 0 { a := Provide(Compared()); }
        else if id == 1 { a := Provide(Compared()); }
        else { a := Skip; }
      } else {
        if id != 2 { a := Provide(Compared()); } else { a := Skip; }
      }
    }

    method OnFirstBit(bit: bool)
      modifies this`keeper
      ensures keeper == if bit == (kind != FillMax) then 0 else 1
    {
      match kind
      case StatMin => keeper := if bit then 0 else 1;
      case StatMax => keeper := if bit then 0 else 1;
      case FillMax => keeper := if bit then 1 else 0;
      case FillMin => keeper := if !bit then 1 else 0;
    }

    method SecondCompare() returns (a: Action)
      requires id < 3 && keeper < 2
      ensures a == if id == 1 - keeper then Skip else Provide(Compared())
    {
      if keeper == 0 {
        if id != 1 { a := Provide(Compared()); } else { a := Skip; }
      } else {
        if id != 0 { a := Provide(Compared()); } else { a := Skip; }
      }
    }

    method OnSecondBit(bit: bool)
      modifies this`winner
      ensures winner == if bit == (kind != FillMax) then keeper else 2
    {
      match kind
      case StatMin => winner := if bit then keeper else 2;
      case StatMax => winner := if bit then keeper else 2;
      case FillMax => winner := if bit then 2 else keeper;
      case FillMin => winner := if !bit then 2 else keeper;
    }

    method FinalShare() returns (a: Action)
      ensures a == if id == winner then DealOut(value) else Take
    {
      if id == winner { a := DealOut(value); } else { a := Take; }
    }
  }

  /** Does the lower-id value x stay in, against y? */
  predicate Stays(kind: Kind, x: int, y: int) {
    match kind
    case StatMin => SignBit(x, y)
    case FillMin => SignBit(x, y)
    case StatMax => SignBit(Wrap64(-x), Wrap64(-y))
    case FillMax => !SignBit(x, y)
  }

  function Keep(kind: Kind, x: int, y: int): int {
    if Stays(kind, x, y) then x else y
  }

  function WinnerOf(kind: Kind, v0: int, v1: int, v2: int): nat {
    var k := if Stays(kind, v0, v1) then 0 else 1;
    if Stays(kind, Keep(kind, v0, v1), v2) then k else 2
  }

  function Champion(kind: Kind, v0: int, v1: int, v2: int): int {
    Keep(kind, Keep(kind, v0, v1), v2)
  }

  /** Three parties play: every comparison has exactly two providers, all parties draw the same
      conclusions from the revealed bits, exactly one of them deals, and all see its value. */
  method Play(p0: Party, p1: Party, p2: Party) returns (value: int)
    requires p0 != p1 && p1 != p2 && p0 != p2
    requires p0.id == 0 && p1.id == 1 && p2.id == 2 && p0.kind == p1.kind == p2.kind
    modifies p0, p1, p2
    ensures p0.winner == p1.winner == p2.winner == WinnerOf(p0.kind, p0.value, p1.value, p2.value)
    ensures value == Champion(p0.kind, p0.value, p1.value, p2.value)
  {
    var a := p0.FirstCompare();
    var b := p1.FirstCompare();
    var c := p2.FirstCompare();
    assert a.Provide? && b.Provide? && c.Skip?;
    var bit := JointCompare(a, b, c).value;
    p0.OnFirstBit(bit);
    p1.OnFirstBit(bit);
    p2.OnFirstBit(bit);
    assert p0.keeper == p1.keeper == p2.keeper;
    a := p0.SecondCompare();
    b := p1.SecondCompare();
    c := p2.SecondCompare();
    assert c.Provide? && (a.Provide? <==> b.Skip?) && (b.Provide? <==> a.Skip?);
    bit := JointCompare(a, b, c).value;
    p0.OnSecondBit(bit);
    p1.OnSecondBit(bit);
    p2.OnSecondBit(bit);
    a := p0.FinalShare();
    b := p1.FinalShare();
    c := p2.FinalShare();
    value := JointShare(a, b, c).value;
  }

  // ----- what the champion is

  predicate IsMax(kind: Kind) { kind == StatMax || kind == FillMax }

  function Better(kind: Kind, x: int, y: int): int {
    if IsMax(kind) then (if x < y then y else x) else (if x < y then x else y)
  }

  function Worse(kind: Kind, x: int, y: int): int {
    x + y - Better(kind, x, y)
  }

  /** The difference the circuit takes fits in 64 bits. */
  predicate Comparable(kind: Kind, x: int, y: int) {
    if kind == StatMax then IsI64(y - x) else IsI64(x - y)
  }

  /** One comparison keeps the better value when the difference fits, and the worse one otherwise. */
  lemma KeepIs(kind: Kind, x: int, y: int)
    requires IsI64(x) && IsI64(y)
    ensures Keep(kind, x, y) == if Comparable(kind, x, y) then Better(kind, x, y) else Worse(kind, x, y)
    ensures !Comparable(kind, x, y) ==> x != y
  {
    if kind == StatMax {
      NegatedSign(x, y);
    }
  }

  lemma NegatedSign(x: int, y: int)
    ensures SignBit(Wrap64(-x), Wrap64(-y)) == (Wrap64(y - x) < 0)
  {
    WrapUnique(Wrap64(-x) - Wrap64(-y), y - x, Turns(-x) - Turns(-y));
  }

  function Best(kind: Kind, v0: int, v1: int, v2: int): int {
    Better(kind, Better(kind, v0, v1), v2)
  }

  predicate ComparedInRange(kind: Kind, v0: int, v1: int, v2: int) {
    if Comparable(kind, v0, v1) then Comparable(kind, Better(kind, v0, v1), v2)
    else Comparable(kind, Worse(kind, v0, v1), v2) && Better(kind, Better(kind, v0, v1), v2) == v2
  }

  /** The tournament returns the true extremum exactly when both comparisons are in range, or when
      the first is not but the third value beats both and is compared in range with what was kept. */
  lemma ChampionIff(kind: Kind, v0: int, v1: int, v2: int)
    requires IsI64(v0) && IsI64(v1) && IsI64(v2)
    ensures Champion(kind, v0, v1, v2) == Best(kind, v0, v1, v2) <==> ComparedInRange(kind, v0, v1, v2)
  {
    hide Keep;
    KeepIs(kind, v0, v1);
    KeepIs(kind, Keep(kind, v0, v1), v2);
  }

  /** With values at most 2^63 - 1 apart, all four tournaments are right, and the two maxima agree. */
  lemma CloseValues(kind: Kind, v0: int, v1: int, v2: int)
    requires IsI64(v0) && IsI64(v1) && IsI64(v2)
    requires -TWO63 < v0 - v1 < TWO63 && -TWO63 < v1 - v2 < TWO63 && -TWO63 < v0 - v2 < TWO63
    ensures Champion(kind, v0, v1, v2) == Best(kind, v0, v1, v2)
    ensures Champion(StatMax, v0, v1, v2) == Champion(FillMax, v0, v1, v2)
    ensures Champion(StatMin, v0, v1, v2) == Champion(FillMin, v0, v1, v2)
  {
    hide Keep;
    ChampionIff(kind, v0, v1, v2);
    ChampionIff(StatMax, v0, v1, v2);
    ChampionIff(FillMax, v0, v1, v2);
    ChampionIff(StatMin, v0, v1, v2);
    ChampionIff(FillMin, v0, v1, v2);
  }

  /** They differ in who deals on a tie: the negating maximum picks the last party that has the
      maximum, the direct one the first. Both minima pick the last. */
  lemma TieWinners(v0: int, v1: int, v2: int)
    requires IsI64(v0) && IsI64(v1) && IsI64(v2)
    requires -TWO63 < v0 - v1 < TWO63 && -TWO63 < v1 - v2 < TWO63 && -TWO63 < v0 - v2 < TWO63
    ensures var m := Best(FillMax, v0, v1, v2);
            && WinnerOf(StatMax, v0, v1, v2) == (if v2 == m then 2 else if v1 == m then 1 else 0)
            && WinnerOf(FillMax, v0, v1, v2) == (if v0 == m then 0 else if v1 == m then 1 else 2)
    ensures var m := Best(FillMin, v0, v1, v2);
            WinnerOf(StatMin, v0, v1, v2) == WinnerOf(FillMin, v0, v1, v2)
            == (if v2 == m then 2 else if v1 == m then 1 else 0)
  {
    hide Stays;
    StaysWhen(v0, v1);
    StaysWhen(v0, v2);
    StaysWhen(v1, v2);
  }

  lemma StaysWhen(x: int, y: int)
    requires -TWO63 < x - y < TWO63
    ensures Stays(StatMax, x, y) <==> x > y
    ensures Stays(FillMax, x, y) <==> x >= y
    ensures Stays(StatMin, x, y) <==> x < y
    ensures Stays(FillMin, x, y) <==> x < y
  {
    NegatedSign(x, y);
  }

  /** A party whose column has no valid cell enters with the neutral start value of its fold, which is
      too far from every value on the other side of zero: it wins, and the start value is returned. */
  lemma EmptyColumnWins(v1: int, v2: int)
    requires IsI64(v1) && IsI64(v2)
    ensures v1 > 0 && v2 > 0 ==> Champion(FillMax, -TWO63, v1, v2) == -TWO63
    ensures v1 < 0 && v2 < 0 ==> Champion(FillMin, TWO63 - 1, v1, v2) == TWO63 - 1
  {
  }
}
