/** Decimal text of integers: what `std::to_string` prints and `std::stoll` reads. */
module Decimal {
  import opened MachineInts

  predicate IsDigit(c: char) { '0' <= c <= '9' }

  /** The characters that the C library skips in front of a number. */
  predicate IsSpace(c: char) {
    c == ' ' || c == '\t' || c == '\n' || c == '\r' || c == '\U{000B}' || c == '\U{000C}'
  }

  function DigitOf(c: char): (d: nat)
    requires IsDigit(c)
    ensures d < 10 && "0123456789"[d] == c
  {
    (c - '0') as int
  }

  function CharOf(d: nat): (c: char)
    requires d < 10
    ensures IsDigit(c) && DigitOf(c) == d
  {
    '0' + d as char
  }

  function NatText(n: nat): (s: string)
    ensures s != "" && forall k | 0 <= k < |s| :: IsDigit(s[k])
  {
    if n < 10 then [CharOf(n)] else NatText(n / 10) + [CharOf(n % 10)]
  }

  function IntText(x: int): string {
    if x < 0 then "-" + NatText(-x) else NatText(x)
  }

  /** How many leading characters are white space. */
  function Spaces(s: string): (k: nat)
    ensures k <= |s| && (forall j | 0 <= j < k :: IsSpace(s[j])) && (k < |s| ==> !IsSpace(s[k]))
  {
    if s == "" || !IsSpace(s[0]) then 0 else 1 + Spaces(s[1..])
  }

  /** How many leading characters are digits. */
  function DigitRun(s: string): (k: nat)
    ensures k <= |s| && (forall j | 0 <= j < k :: IsDigit(s[j])) && (k < |s| ==> !IsDigit(s[k]))
  {
    if s == "" || !IsDigit(s[0]) then 0 else 1 + DigitRun(s[1..])
  }

  function NatValue(s: string): nat
    requires forall k | 0 <= k < |s| :: IsDigit(s[k])
  {
    if s == "" then 0 else 10 * NatValue(s[..|s| - 1]) + DigitOf(s[|s| - 1])
  }

  datatype Read = NoNumber | Number(value: int, length: nat)

  /** White space, a sign, then as many digits as there are; `length` is how much was read. */
  function ReadInt(s: string): Read {
    var a := Spaces(s);
    var signed := a < |s| && (s[a] == '-' || s[a] == '+');
    var b := if signed then a + 1 else a;
    var k := DigitRun(s[b..]);
    if k == 0 then NoNumber
    else Number(if signed && s[a] == '-' then 0 - NatValue(s[b..][..k]) else NatValue(s[b..][..k]), b + k)
  }

  lemma {:induction false} NatRoundTrip(n: nat)
    ensures NatValue(NatText(n)) == n
  {
    if n >= 10 {
      NatRoundTrip(n / 10);
      var s := NatText(n);
      assert s[..|s| - 1] == NatText(n / 10);
    }
  }

  lemma {:induction false} DigitRunAll(s: string, rest: string)
    requires forall k | 0 <= k < |s| :: IsDigit(s[k])
    requires rest == "" || !IsDigit(rest[0])
    ensures DigitRun(s + rest) == |s|
  {
    if s == "" {
      assert s + rest == rest;
    } else {
      assert (s + rest)[1..] == s[1..] + rest;
      DigitRunAll(s[1..], rest);
    }
  }

  /** Printing and reading back is the identity, and the whole text is read. */
  lemma IntRoundTrip(x: int)
    ensures ReadInt(IntText(x)) == Number(x, |IntText(x)|)
  {
    var s := IntText(x);
    var n := if x < 0 then -x else x;
    var digits := NatText(n);
    NatRoundTrip(n);
    assert digits + "" == digits;
    DigitRunAll(digits, "");
    assert Spaces(s) == 0;
    assert s[if x < 0 then 1 else 0..] == digits && digits[..|digits|] == digits;
  }

  /** `std::stoll`: throws without a number or outside the 64-bit range, ignores what follows. */
  datatype Converted = Value(i: int) | InvalidArgument | OutOfRange

  function Stoll(s: string): Converted {
    match ReadInt(s)
    case NoNumber => InvalidArgument
    case Number(v, _) => if -TWO63 <= v < TWO63 then Value(v) else OutOfRange
  }

  /** The algorithm's own conversion: the whole text has to be the number. */
  function StrToInt64(s: string): Converted {
    match ReadInt(s)
    case NoNumber => InvalidArgument
    case Number(v, n) =>
      if !(-TWO63 <= v < TWO63) then OutOfRange
      else if n != |s| then InvalidArgument
      else Value(v)
  }

  lemma StrictIsStoll(s: string)
    ensures StrToInt64(s).Value? ==> Stoll(s) == StrToInt64(s)
  {
  }

  // ----- which texts are numbers, and which ones

  function Power10(n: nat): nat {
    if n == 0 then 1 else 10 * Power10(n - 1)
  }

  /** The place values of decimal digits. */
  lemma {:induction false} LeadingDigit(c: char, s: string)
    requires IsDigit(c) && forall k | 0 <= k < |s| :: IsDigit(s[k])
    ensures NatValue([c] + s) == DigitOf(c) * Power10(|s|) + NatValue(s)
  {
    var t := [c] + s;
    if s == "" {
      assert t == [c] && t[..0] == "";
    } else {
      var n := |s| - 1;
      assert t[..n + 1] == [c] + s[..n];
      LeadingDigit(c, s[..n]);
      assert 10 * (DigitOf(c) * Power10(n)) == DigitOf(c) * Power10(n + 1);
    }
  }

  /** White space up to a, a sign or none up to b, and nothing but digits, at least one, from there on;
      the value has the sign and fits in 64 bits. */
  predicate WholeInteger(s: string, a: nat, b: nat, v: int) {
    && a <= b < |s|
    && (forall k | 0 <= k < a :: s[k] in " \t\n\r\U{000B}\U{000C}")
    && (b == a || (b == a + 1 && (s[a] == '+' || s[a] == '-')))
    && (forall k | b <= k < |s| :: '0' <= s[k] <= '9')
    && v == (if b > a && s[a] == '-' then -1 else 1) * NatValue(s[b..])
    && -0x8000_0000_0000_0000 <= v < 0x8000_0000_0000_0000
  }

  lemma SpaceIff(c: char)
    ensures IsSpace(c) <==> c in " \t\n\r\U{000B}\U{000C}"
  {
    var spaces := " \t\n\r\U{000B}\U{000C}";
    assert spaces[0] == ' ' && spaces[1] == '\t' && spaces[2] == '\n' && spaces[3] == '\r';
    assert spaces[4] == '\U{000B}' && spaces[5] == '\U{000C}' && |spaces| == 6;
  }

  /** The strict conversion gives v exactly on the texts that are v from end to end. */
  lemma StrictIff(s: string, v: int)
    ensures StrToInt64(s) == Value(v) <==> exists a: nat, b: nat :: WholeInteger(s, a, b, v)
  {
    if StrToInt64(s) == Value(v) {
      var a, b := WholeWhenRead(s, v);
    }
    if a: nat, b: nat :| WholeInteger(s, a, b, v) {
      ReadsWhole(s, a, b, v);
    }
  }

  lemma WholeWhenRead(s: string, v: int) returns (a: nat, b: nat)
    requires StrToInt64(s) == Value(v)
    ensures WholeInteger(s, a, b, v)
  {
    a, b := NumberParts(s, v);
    hide Spaces;
    hide DigitRun;
    hide NatValue;
    hide StrToInt64;
    forall k | 0 <= k < a ensures s[k] in " \t\n\r\U{000B}\U{000C}" { SpaceIff(s[k]); }
  }

  lemma NumberParts(s: string, v: int) returns (a: nat, b: nat)
    requires StrToInt64(s) == Value(v)
    ensures a <= b < |s| && (b == a || (b == a + 1 && (s[a] == '+' || s[a] == '-')))
    ensures (forall k | 0 <= k < a :: IsSpace(s[k])) && (forall k | b <= k < |s| :: IsDigit(s[k]))
    ensures v == if b > a && s[a] == '-' then 0 - NatValue(s[b..]) else NatValue(s[b..])
    ensures -TWO63 <= v < TWO63
  {
    hide NatValue;
    a := Spaces(s);
    assert ReadInt(s) == Number(v, |s|);
    hide StrToInt64;
    hide Spaces;
    b := if s[a] == '-' || s[a] == '+' then a + 1 else a;
    var digits := s[b..];
    var k := DigitRun(digits);
    hide DigitRun;
    assert k == |digits| && digits[..k] == digits;
    assert forall k | b <= k < |s| :: s[k] == digits[k - b];
  }

  lemma ReadsWhole(s: string, a: nat, b: nat, v: int)
    requires WholeInteger(s, a, b, v)
    ensures StrToInt64(s) == Value(v)
  {
    forall k | 0 <= k < a ensures IsSpace(s[k]) { SpaceIff(s[k]); }
    assert Spaces(s) == a;
    var digits := s[b..];
    assert forall k | 0 <= k < |digits| :: digits[k] == s[b + k];
    assert digits + "" == digits && digits[..|digits|] == digits;
    DigitRunAll(digits, "");
    hide Spaces;
    hide DigitRun;
    hide NatValue;
  }

  /** So a text that goes on after its digits is refused. */
  lemma TrailingRefused(digits: string, rest: string)
    requires digits != "" && (forall k | 0 <= k < |digits| :: IsDigit(digits[k]))
    requires rest != "" && !IsDigit(rest[0])
    ensures !StrToInt64(digits + rest).Value?
  {
    DigitRunAll(digits, rest);
    var s := digits + rest;
    assert s[0] == digits[0] && Spaces(s) == 0 && s[0..] == s;
  }
}
