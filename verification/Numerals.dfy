/** Decimal numerals, and dotted quads read into one number by shifting and or-ing. */
module Numerals {
  import opened Bytes
  import opened Wrappers
  import opened Filter
  import opened Lexer

  function DigitValue(c: char): (v: nat)
    ensures v <= 9
  {
    if Digit(c) then c as int - '0' as int else 0
  }

  /** The value of a run of digits. */
  function Value(t: string): nat {
    if t == [] then 0 else 10 * Value(t[..|t| - 1]) + DigitValue(t[|t| - 1])
  }

  function Pow10(n: nat): nat {
    if n == 0 then 1 else 10 * Pow10(n - 1)
  }

  /** Every digit counts by its place, leading zeros included. */
  lemma {:induction false} ValueFromFront(t: string)
    requires t != [] && All(Digit, t)
    ensures Value(t) == (t[0] as int - 48) * Pow10(|t| - 1) + Value(t[1..])
    decreases |t|
  {
    var front, last := t[..|t| - 1], t[|t| - 1];
    if |t| == 1 {
      assert front == [] && t[1..] == [];
      assert Value(t) == 10 * Value(front) + DigitValue(last);
    } else {
      ValueFromFront(front);
      assert front[1..] == t[1..][..|t| - 2];
      PlaceShifts(t[0] as int - 48, Pow10(|t| - 2), Value(front[1..]), DigitValue(last));
    }
  }

  lemma PlaceShifts(digit: int, place: nat, rest: nat, last: nat)
    ensures 10 * (digit * place + rest) + last == digit * (10 * place) + (10 * rest + last)
  {
  }

  function Decimal(n: nat): (t: string)
    ensures t != [] && All(Digit, t) && (n < 10 ==> |t| == 1) && (n < 100 ==> |t| <= 2) && (n < 1000 ==> |t| <= 3)
  {
    var last := [('0' as int + n % 10) as char];
    if n < 10 then last else Decimal(n / 10) + last
  }

  lemma {:induction false} DecimalValue(n: nat)
    ensures Value(Decimal(n)) == n
  {
    var t := Decimal(n);
    if n >= 10 {
      DecimalValue(n / 10);
      assert t[..|t| - 1] == Decimal(n / 10);
    } else {
      assert t[..|t| - 1] == [];
    }
    assert DigitValue(t[|t| - 1]) == n % 10;
  }

  /** The parts of a text between its dots. */
  function Split(t: string): (parts: seq<string>)
    ensures parts != []
  {
    if t == [] then [[]]
    else if t[0] == '.' then [[]] + Split(t[1..])
    else
      var rest := Split(t[1..]);
      [[t[0]] + rest[0]] + rest[1..]
  }

  function Values(parts: seq<string>): (values: seq<nat>)
    ensures |values| == |parts|
  {
    seq(|parts|, i requires 0 <= i < |parts| => Value(parts[i]))
  }

  /** Eight bits more for every value. */
  function Folded(acc: nat, values: seq<nat>): nat
    decreases |values|
  {
    if values == [] then acc else Folded(BitOr(acc * 256, values[0]), values[1..])
  }

  /** A dotted text as one number, unless some part is too large. */
  function Address(t: string): Option<nat> {
    var octets := Values(Split(t));
    if exists o | o in octets :: o > 255 then None else Some(Folded(0, octets))
  }

  /** One to three digits. */
  predicate Group(t: string) {
    1 <= |t| <= 3 && All(Digit, t)
  }

  /** One to three digits for a value of at most 255. */
  predicate Octet(t: string) {
    Group(t) && Value(t) <= 255
  }

  /** The text writes the four octets of the address in order. */
  ghost predicate Writes(t: string, addr: nat) {
    exists a, b, c, d | Octet(a) && Octet(b) && Octet(c) && Octet(d) ::
      t == WithDots(a, b, c, d) && addr == Quad(Value(a), Value(b), Value(c), Value(d))
  }

  function WithDots(a: string, b: string, c: string, d: string): string {
    a + ("." + (b + ("." + (c + ("." + d)))))
  }

  /** `n` places to the left. */
  function Shifted(a: nat, n: nat): nat {
    if n == 0 then a else 2 * Shifted(a, n - 1)
  }

  /** Or-ing in a value below the shifted bits is adding it. */
  lemma {:induction false} ShiftOr(a: nat, n: nat, b: nat)
    requires b < Pow2(n)
    ensures BitOr(Shifted(a, n), b) == Shifted(a, n) + b
  {
    if n > 0 {
      ShiftOr(a, n - 1, b / 2);
    }
  }

  lemma OctetShift(a: nat)
    ensures Shifted(a, 8) == a * 256 && Pow2(8) == 256
  {
    assert Shifted(a, 1) == 2 * a && Shifted(a, 3) == 8 * a && Shifted(a, 5) == 32 * a && Shifted(a, 7) == 128 * a;
    assert Pow2(1) == 2 && Pow2(3) == 8 && Pow2(5) == 32 && Pow2(7) == 128;
  }

  lemma OctetOr(a: nat, b: Byte)
    ensures BitOr(a * 256, b) == a * 256 + b
  {
    OctetShift(a);
    ShiftOr(a, 8, b);
  }

  lemma FoldedStep(acc: nat, octet: Byte, rest: seq<nat>)
    ensures Folded(acc, [octet] + rest) == Folded(acc * 256 + octet, rest)
  {
    OctetOr(acc, octet);
    assert ([octet] + rest)[1..] == rest;
  }

  lemma FoldedQuad(a: Byte, b: Byte, c: Byte, d: Byte)
    ensures Folded(0, [a, b, c, d]) == Quad(a, b, c, d)
  {
    FoldedStep(0, a, [b, c, d]);
    FoldedStep(a, b, [c, d]);
    FoldedStep(a * 256 + b, c, [d]);
    FoldedStep((a * 256 + b) * 256 + c, d, []);
    InFrontOfRest(a, b, c, d);
  }

  lemma InFrontOfRest(a: nat, b: nat, c: nat, d: nat)
    ensures [a] + [b, c, d] == [a, b, c, d] && [b] + [c, d] == [b, c, d] && [c] + [d] == [c, d] && [d] + [] == [d]
  {
  }

  lemma {:induction false} SplitRun(d: string, rest: string)
    requires All(Digit, d)
    ensures Split(d + ("." + rest)) == [d] + Split(rest)
    ensures Split(d) == [d]
  {
    var t := d + ("." + rest);
    if d == [] {
      assert t[1..] == rest;
    } else {
      SplitRun(d[1..], rest);
      assert t[1..] == d[1..] + ("." + rest);
      assert d == [d[0]] + d[1..];
    }
  }

  lemma SplitQuad(a: string, b: string, c: string, d: string)
    requires All(Digit, a) && All(Digit, b) && All(Digit, c) && All(Digit, d)
    ensures Split(WithDots(a, b, c, d)) == [a, b, c, d]
  {
    SplitRun(c, d);
    SplitRun(d, []);
    SplitRun(b, c + ("." + d));
    SplitRun(a, b + ("." + (c + ("." + d))));
  }

  /** What the address is of a text made of four groups. */
  lemma AddressOfQuad(a: string, b: string, c: string, d: string)
    requires All(Digit, a) && All(Digit, b) && All(Digit, c) && All(Digit, d)
    ensures Address(WithDots(a, b, c, d)) ==
            if Value(a) <= 255 && Value(b) <= 255 && Value(c) <= 255 && Value(d) <= 255
            then Some(Quad(Value(a), Value(b), Value(c), Value(d))) else None
  {
    SplitQuad(a, b, c, d);
    var octets := Values([a, b, c, d]);
    assert octets == [Value(a), Value(b), Value(c), Value(d)];
    if Value(a) <= 255 && Value(b) <= 255 && Value(c) <= 255 && Value(d) <= 255 {
      FoldedQuad(Value(a), Value(b), Value(c), Value(d));
    } else {
      assert octets[0] in octets && octets[1] in octets && octets[2] in octets && octets[3] in octets;
    }
  }

  lemma CutAtDot(t: string, n: nat)
    requires n < |t| && t[n] == '.'
    ensures t == t[..n] + ("." + t[n + 1..])
  {
  }

  lemma FirstGroup(groups: nat, fewer: nat, t: string) returns (d: string, rest: string)
    requires groups > 1 && fewer == groups - 1 && Dotted(groups, t)
    ensures Group(d) && t == d + ("." + rest) && Dotted(fewer, rest)
  {
    var n := FirstGroupOf(groups, t);
    d, rest := t[..n], t[n + 1..];
    CutAtDot(t, n);
  }

  lemma LastGroupOf(t: string)
    requires Dotted(1, t)
    ensures Group(t)
  {
  }

  lemma FourGroups(t: string) returns (a: string, b: string, c: string, d: string)
    requires Dotted(4, t)
    ensures t == WithDots(a, b, c, d)
    ensures Group(a) && Group(b) && Group(c) && Group(d)
  {
    var u, v;
    a, u := FirstGroup(4, 3, t);
    b, v := FirstGroup(3, 2, u);
    c, d := FirstGroup(2, 1, v);
    LastGroupOf(d);
  }

  /** Reading a dotted address gives the number exactly when the text writes its octets in order. */
  lemma AddressIff(t: string, addr: nat)
    requires Dotted(4, t)
    ensures Address(t) == Some(addr) <==> Writes(t, addr)
  {
    if Writes(t, addr) {
      var a, b, c, d :| Octet(a) && Octet(b) && Octet(c) && Octet(d) &&
        t == WithDots(a, b, c, d) && addr == Quad(Value(a), Value(b), Value(c), Value(d));
      AddressOfQuad(a, b, c, d);
    }
    if Address(t) == Some(addr) {
      var a, b, c, d := FourGroups(t);
      AddressOfQuad(a, b, c, d);
      assert Octet(a) && Octet(b) && Octet(c) && Octet(d);
    }
  }

  lemma GroupBelongs(groups: nat, d: string, rest: string)
    requires groups > 1 && 1 <= |d| <= 3 && All(Digit, d) && Dotted(groups - 1, rest)
    ensures Dotted(groups, d + ("." + rest))
  {
    var t := d + ("." + rest);
    assert t[..|d|] == d && t[|d| + 1..] == rest;
  }

  /** The canonical text of four octets. */
  function QuadText(a: Byte, b: Byte, c: Byte, d: Byte): string {
    WithDots(Decimal(a), Decimal(b), Decimal(c), Decimal(d))
  }

  lemma DecimalOctet(n: Byte)
    ensures Octet(Decimal(n)) && Value(Decimal(n)) == n
  {
    DecimalValue(n);
  }

  lemma QuadTextWrites(a: Byte, b: Byte, c: Byte, d: Byte)
    ensures Dotted(4, QuadText(a, b, c, d)) && Writes(QuadText(a, b, c, d), Quad(a, b, c, d))
  {
    var a', b', c', d' := Decimal(a), Decimal(b), Decimal(c), Decimal(d);
    DecimalOctet(a);
    DecimalOctet(b);
    DecimalOctet(c);
    DecimalOctet(d);
    GroupBelongs(2, c', d');
    GroupBelongs(3, b', c' + ("." + d'));
    GroupBelongs(4, a', b' + ("." + (c' + ("." + d'))));
    assert Octet(a') && Octet(b') && Octet(c') && Octet(d');
  }

  /** The octet of an address that `shift` stands for. */
  function OctetOf(addr: nat, shift: nat): Byte
    requires shift > 0
  {
    addr / shift % 256
  }

  lemma OctetsOf(addr: nat)
    requires addr < 0x1_0000_0000
    ensures addr == Quad(OctetOf(addr, 0x100_0000), OctetOf(addr, 0x1_0000), OctetOf(addr, 0x100), OctetOf(addr, 1))
  {
    assert addr / 0x1_0000 == addr / 0x100 / 0x100 && addr / 0x100_0000 == addr / 0x1_0000 / 0x100;
  }

  /** The canonical text of an address. */
  function DottedQuad(addr: nat): string {
    QuadText(OctetOf(addr, 0x100_0000), OctetOf(addr, 0x1_0000), OctetOf(addr, 0x100), OctetOf(addr, 1))
  }

  lemma DottedQuadWrites(addr: nat)
    requires addr < 0x1_0000_0000
    ensures Dotted(4, DottedQuad(addr)) && Writes(DottedQuad(addr), addr)
  {
    OctetsOf(addr);
    QuadTextWrites(OctetOf(addr, 0x100_0000), OctetOf(addr, 0x1_0000), OctetOf(addr, 0x100), OctetOf(addr, 1));
  }
}
