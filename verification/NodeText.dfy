/** The colon-separated text form of a node. */
module NodeText {
  import opened MachineInts
  import opened Decimal

  /** The pieces between colons; a text with n colons has n + 1 pieces, empty ones included. */
  function Split(s: string): (r: seq<string>)
    ensures r != []
  {
    if s == "" then [""]
    else
      var rest := Split(s[1..]);
      if s[0] == ':' then [""] + rest else [[s[0]] + rest[0]] + rest[1..]
  }

  datatype NodeInfo = NodeInfo(id: string, ip: string, port: nat, useTls: bool, role: string)

  function ToText(n: NodeInfo): string {
    n.id + ":" + n.ip + ":" + NatText(n.port) + ":" + (if n.useTls then "1" else "0") + ":" + n.role
  }

  const INT_MAX: int := 0x7fff_ffff

  /** `std::stoi`: throws without a number or outside the 32-bit range. */
  function Stoi(s: string): Read {
    match ReadInt(s)
    case NoNumber => NoNumber
    case Number(v, n) => if -INT_MAX - 1 <= v <= INT_MAX then Number(v, n) else NoNumber
  }

  class Node {
    var id: string
    var ip: string
    var port: nat
    var useTls: bool
    var role: string

    constructor ()
      ensures Info() == NodeInfo("", "", 0, false, "")
    {
      id, ip, port, useTls, role := "", "", 0, false, "";
    }

    function Info(): NodeInfo
      reads this
    {
      NodeInfo(id, ip, port, useTls, role)
    }

    /** One read from the stream: everything up to the next colon or the end. */
    method NextPiece(text: string, from: nat) returns (piece: string, i: nat)
      requires from <= |text|
      ensures from <= i <= |text| && piece == text[from..i] && Plain(piece)
      ensures i < |text| ==> text[i] == ':'
    {
      piece, i := "", from;
      while i < |text| && text[i] != ':'
        invariant from <= i <= |text| && piece == text[from..i] && Plain(piece)
      {
        piece := piece + [text[i]];
        i := i + 1;
      }
    }

    /** The splitting loop goes on while the stream is good, so a final colon yields an empty piece. */
    method Pieces(text: string) returns (v: seq<string>)
      ensures v == Split(text)
    {
      hide Split;
      v := [];
      var i, good := 0, true;
      assert text[0..] == text;
      while good
        invariant 0 <= i <= |text|
        invariant if good then v + Split(text[i..]) == Split(text) else v == Split(text)
        decreases |text| - i, good
      {
        var piece, k := NextPiece(text, i);
        if k < |text| {
          assert text[i..] == piece + ":" + text[k + 1..];
          SplitPlain(piece, text[k + 1..]);
          i := k + 1;
        } else {
          assert text[i..] == piece;
          SplitPlain(piece, "");
          i, good := k, false;
        }
        v := v + [piece];
      }
    }

    /** Fails where the original reads a missing piece or throws on the port. A text with more or fewer
        than five pieces leaves the role as it was. */
    method FromText(text: string) returns (ok: bool)
      modifies this
      ensures var v := Split(text);
              ok <==> |v| >= 4 && Stoi(v[2]).Number?
      ensures ok ==> var v := Split(text);
                     Info() == NodeInfo(v[0], v[1], Stoi(v[2]).value % TWO32, v[3] == "1",
                                        if |v| == 5 then v[4] else old(role))
    {
      var v := Pieces(text);
      if |v| < 4 { return false; }
      id, ip := v[0], v[1];
      var p := Stoi(v[2]);
      if p.NoNumber? { return false; }
      port := p.value % TWO32;
      useTls := v[3] == "1";
      if |v| == 5 { role := v[4]; }
      return true;
    }
  }

  // ----- the round trip

  predicate Plain(s: string) { ':' !in s }

  lemma {:induction false} SplitPlain(s: string, rest: string)
    requires Plain(s)
    ensures Split(s + ":" + rest) == [s] + Split(rest)
    ensures Split(s) == [s]
  {
    if s == "" {
      assert s + ":" + rest == ":" + rest && (":" + rest)[1..] == rest;
    } else {
      assert (s + ":" + rest)[1..] == s[1..] + ":" + rest;
      SplitPlain(s[1..], rest);
      assert [s[0]] + s[1..] == s;
      assert ([s[1..]] + Split(rest))[1..] == Split(rest) && [s[1..]][1..] == [];
    }
  }

  /** The first piece is the whole of s exactly when s has no colon. */
  lemma {:induction false} FirstPiece(s: string, rest: string)
    ensures Split(s + ":" + rest)[0] == s <==> Plain(s)
    ensures |Split(s)| == 1 <==> Plain(s)
  {
    if s == "" {
      assert s + ":" + rest == ":" + rest;
    } else {
      assert (s + ":" + rest)[1..] == s[1..] + ":" + rest;
      FirstPiece(s[1..], rest);
    }
  }

  lemma DigitsPlain(n: nat)
    ensures Plain(NatText(n)) && IntText(n) == NatText(n)
  {
    assert forall k | 0 <= k < |NatText(n)| :: IsDigit(NatText(n)[k]);
  }

  /** What a fresh node holds after reading a text, if reading succeeds. */
  function ReadBack(text: string): NodeInfo
    requires |Split(text)| >= 4 && Stoi(Split(text)[2]).Number?
  {
    var v := Split(text);
    NodeInfo(v[0], v[1], Stoi(v[2]).value % TWO32, v[3] == "1", if |v| == 5 then v[4] else "")
  }

  predicate Restores(n: NodeInfo) {
    var v := Split(ToText(n));
    |v| >= 4 && Stoi(v[2]).Number? && ReadBack(ToText(n)) == n
  }

  function Tls(n: NodeInfo): string {
    if n.useTls then "1" else "0"
  }

  lemma TailPieces(n: NodeInfo)
    ensures Split(NatText(n.port) + ":" + (Tls(n) + ":" + n.role)) == [NatText(n.port), Tls(n)] + Split(n.role)
  {
    hide Split;
    DigitsPlain(n.port);
    hide NatText;
    SplitPlain(NatText(n.port), Tls(n) + ":" + n.role);
    SplitPlain(Tls(n), n.role);
  }

  /** A colon in the id or in the ip cuts the first or the second piece short. */
  lemma Pieces(n: NodeInfo)
    ensures var v := Split(ToText(n));
            && v != [] && (v[0] == n.id <==> Plain(n.id))
            && (Plain(n.id) ==> |v| >= 2 && (v[1] == n.ip <==> Plain(n.ip)))
            && (Plain(n.id) && Plain(n.ip) ==> v == [n.id, n.ip, NatText(n.port), Tls(n)] + Split(n.role))
  {
    hide Split;
    var rest2 := NatText(n.port) + ":" + (Tls(n) + ":" + n.role);
    var rest1 := n.ip + ":" + rest2;
    assert ToText(n) == n.id + ":" + rest1;
    FirstPiece(n.id, rest1);
    if Plain(n.id) {
      SplitPlain(n.id, rest1);
      FirstPiece(n.ip, rest2);
      if Plain(n.ip) {
        SplitPlain(n.ip, rest2);
        TailPieces(n);
      }
    }
  }

  lemma PortRead(port: nat)
    ensures Stoi(NatText(port)) == if port <= INT_MAX then Number(port, |NatText(port)|) else NoNumber
  {
    DigitsPlain(port);
    IntRoundTrip(port);
  }

  /** Printing a node and reading it into a fresh one restores all five fields exactly when no field
      has a colon in it and the port fits in a signed 32-bit integer. */
  lemma RestoresIff(n: NodeInfo)
    requires n.port < 0x1_0000_0000
    ensures Restores(n) <==> Plain(n.id) && Plain(n.ip) && Plain(n.role) && n.port < 0x8000_0000
  {
    hide Split;
    hide ToText;
    hide Stoi;
    Pieces(n);
    PortRead(n.port);
    FirstPiece(n.role, "");
    if Plain(n.id) && Plain(n.ip) {
      var v := Split(ToText(n));
      assert v[2] == NatText(n.port) && v[3] == Tls(n) && v[4..] == Split(n.role);
      if Plain(n.role) { SplitPlain(n.role, ""); }
    }
  }
}
