/** Replicated secret sharing: why the local MPC operations are exact.

Party i holds share i as its first component and share i - 1 as its second, so every share is held
twice. Adding a public constant touches one share only, at both of its holders; negating for
"constant minus share" touches all of them.
*/
module ReplicatedShares {
  import opened MachineInts
  import opened IdealMpc

  datatype Held = Held(a: int, b: int)

  datatype Shared = Shared(p0: Held, p1: Held, p2: Held)

  /** The two holders of each share agree. */
  ghost predicate Consistent(s: Shared) {
    s.p0.a == s.p1.b && s.p1.a == s.p2.b && s.p2.a == s.p0.b
  }

  ghost function Secret(s: Shared): int {
    Wrap64(s.p0.a + s.p1.a + s.p2.a)
  }

  function AddHeld(x: Held, y: Held): Held {
    Held(Wrap64(x.a + y.a), Wrap64(x.b + y.b))
  }

  function SubHeld(x: Held, y: Held): Held {
    Held(Wrap64(x.a - y.a), Wrap64(x.b - y.b))
  }

  function MulConstHeld(c: int, x: Held): Held {
    Held(Wrap64(c * x.a), Wrap64(c * x.b))
  }

  function AddConstHeld(party: nat, c: int, x: Held): Held {
    if party == 0 then x.(a := Wrap64(x.a + c))
    else if party == 1 then x.(b := Wrap64(x.b + c))
    else x
  }

  function SubConstHeld(party: nat, c: int, x: Held, shareFirst: bool): Held {
    var t := if party == 0 then x.(a := Wrap64(x.a - c))
             else if party == 1 then x.(b := Wrap64(x.b - c))
             else x;
    if shareFirst then t else Held(Wrap64(-t.a), Wrap64(-t.b))
  }

  function Each(f: (nat, Held) -> Held, s: Shared): Shared {
    Shared(f(0, s.p0), f(1, s.p1), f(2, s.p2))
  }

  lemma Reconstruct(x: int, y: int, z: int, total: int, k: int)
    requires x + y + z == total + k * TWO64
    ensures Wrap64(x + y + z) == Wrap64(total)
  {
    WrapUnique(x + y + z, total, k);
  }

  lemma AddExact(s: Shared, t: Shared)
    requires Consistent(s) && Consistent(t)
    ensures var r := Shared(AddHeld(s.p0, t.p0), AddHeld(s.p1, t.p1), AddHeld(s.p2, t.p2));
            Consistent(r) && I64(Secret(r)) == Apply('+', I64(Secret(s)), I64(Secret(t)))
  {
    var a, b, c := Turns(s.p0.a + t.p0.a), Turns(s.p1.a + t.p1.a), Turns(s.p2.a + t.p2.a);
    var d, e := Turns(s.p0.a + s.p1.a + s.p2.a), Turns(t.p0.a + t.p1.a + t.p2.a);
    Reconstruct(Wrap64(s.p0.a + t.p0.a), Wrap64(s.p1.a + t.p1.a), Wrap64(s.p2.a + t.p2.a),
                Secret(s) + Secret(t), a + b + c - d - e);
  }

  lemma SubExact(s: Shared, t: Shared)
    requires Consistent(s) && Consistent(t)
    ensures var r := Shared(SubHeld(s.p0, t.p0), SubHeld(s.p1, t.p1), SubHeld(s.p2, t.p2));
            Consistent(r) && I64(Secret(r)) == Apply('-', I64(Secret(s)), I64(Secret(t)))
  {
    var a, b, c := Turns(s.p0.a - t.p0.a), Turns(s.p1.a - t.p1.a), Turns(s.p2.a - t.p2.a);
    var d, e := Turns(s.p0.a + s.p1.a + s.p2.a), Turns(t.p0.a + t.p1.a + t.p2.a);
    Reconstruct(Wrap64(s.p0.a - t.p0.a), Wrap64(s.p1.a - t.p1.a), Wrap64(s.p2.a - t.p2.a),
                Secret(s) - Secret(t), a + b + c - d + e);
  }

  lemma AddConstExact(s: Shared, c: int)
    requires Consistent(s)
    ensures var r := Each((p: nat, h: Held) => AddConstHeld(p, c, h), s);
            Consistent(r) && I64(Secret(r)) == Apply('+', I64(Secret(s)), I64(c))
  {
    var a, d := Turns(s.p0.a + c), Turns(s.p0.a + s.p1.a + s.p2.a);
    Reconstruct(Wrap64(s.p0.a + c), s.p1.a, s.p2.a, Secret(s) + c, a - d);
  }

  lemma SubConstExact(s: Shared, c: int, shareFirst: bool)
    requires Consistent(s)
    ensures var r := Each((p: nat, h: Held) => SubConstHeld(p, c, h, shareFirst), s);
            Consistent(r) && I64(Secret(r)) ==
              if shareFirst then Apply('-', I64(Secret(s)), I64(c)) else Apply('-', I64(c), I64(Secret(s)))
  {
    var x := Wrap64(s.p0.a - c);
    var a, d := Turns(s.p0.a - c), Turns(s.p0.a + s.p1.a + s.p2.a);
    if shareFirst {
      Reconstruct(x, s.p1.a, s.p2.a, Secret(s) - c, a - d);
    } else {
      var e, f, g := Turns(-x), Turns(-s.p1.a), Turns(-s.p2.a);
      Reconstruct(Wrap64(-x), Wrap64(-s.p1.a), Wrap64(-s.p2.a), c - Secret(s), e + f + g - a + d);
    }
  }

  lemma MulConstExact(s: Shared, c: int)
    requires Consistent(s)
    ensures var r := Each((p: nat, h: Held) => MulConstHeld(c, h), s);
            Consistent(r) && I64(Secret(r)) == Apply('*', I64(c), I64(Secret(s)))
  {
    var u, v, w := c * s.p0.a, c * s.p1.a, c * s.p2.a;
    var a, b, e := Turns(u), Turns(v), Turns(w);
    var sum := s.p0.a + s.p1.a + s.p2.a;
    var d := Turns(sum);
    assert c * Secret(s) == u + v + w + c * d * TWO64 by {
      assert c * (sum + d * TWO64) == c * s.p0.a + c * s.p1.a + c * s.p2.a + c * d * TWO64;
    }
    Reconstruct(Wrap64(u), Wrap64(v), Wrap64(w), c * Secret(s), a + b + e - c * d);
  }
}
