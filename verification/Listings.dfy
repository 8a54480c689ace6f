/** The programs of single primitives, instruction for instruction. */
module Listings {
  import opened Wrappers
  import opened Vm
  import opened Filter
  import opened Conditions
  import opened Lowering
  import opened Assembler
  import opened Emission
  import opened Golden

  /** A load and an equality test. */
  function Check(code: nat, offset: nat, jt: nat, jf: nat, value: nat): Program {
    [I(code, 0, 0, offset), I(0x15, jt, jf, value)]
  }

  const RETURNS: Program := [I(0x06, 0, 0, 0x40000), I(0x06, 0, 0, 0)]

  lemma CheckAsm(op: LoadOp, code: nat, offset: nat, value: nat, dT: nat, dF: nat)
    requires code == op.Code()
    ensures Asm(Equals(op, offset, value), dT, dF) == Check(code, offset, dT, dF, value)
    ensures Len(Equals(op, offset, value)) == 2
  {
    assert Asm(Is(value), dT, dF) == [I(0x15, dT, dF, value)] && Len(Is(value)) == 1;
  }

  /** A program all of whose jumps fit is what its code is assembled to. */
  lemma Listed(node: Node, code: Program, prog: Program)
    requires code == Asm(Lower(node), 0, 1) && prog == code + RETURNS && Fits(prog)
    ensures Assembled(node) == Success(prog)
  {
    BoundedFits(prog);
  }

  /** `ip`, `arp` and `ip6`. */
  function TypeListing(value: nat): Program {
    Check(0x28, 12, 0, 1, value) + RETURNS
  }

  lemma TypeListed(node: Node, value: nat)
    requires Lower(node) == Equals(HalfAt, 12, value)
    ensures Assembled(node) == Success(TypeListing(value))
  {
    CheckAsm(HalfAt, 0x28, 12, value, 0, 1);
    CheckFits(0x28, 12, 0, 1, value);
    FitsJoins(Check(0x28, 12, 0, 1, value), RETURNS);
    Listed(node, Check(0x28, 12, 0, 1, value), TypeListing(value));
  }

  lemma CheckFits(code: nat, offset: nat, jt: nat, jf: nat, value: nat)
    requires jt <= 255 && jf <= 255
    ensures Fits(Check(code, offset, jt, jf, value)) && Fits(RETURNS)
  {
  }

  lemma FitsJoins(a: Program, b: Program)
    requires Fits(a) && Fits(b)
    ensures Fits(a + b)
  {
  }

  lemma EtherTypeListings()
    ensures Assembled(Proto(Ip)) == Success(TypeListing(0x0800))
    ensures Assembled(Proto(Arp)) == Success(TypeListing(0x0806))
    ensures Assembled(Proto(Ip6)) == Success(TypeListing(0x86DD))
  {
    TypeListed(Proto(Ip), 0x0800);
    TypeListed(Proto(Arp), 0x0806);
    TypeListed(Proto(Ip6), 0x86DD);
  }

  lemma IcmpListing()
    ensures Assembled(Proto(Icmp)) == Success(Check(0x28, 12, 0, 3, 0x0800) + Check(0x30, 23, 0, 1, 1) + RETURNS)
  {
    CheckAsm(HalfAt, 0x28, 12, ETHERTYPE_IPV4, 0, 3);
    CheckAsm(ByteAt, 0x30, 23, 1, 0, 1);
    PairAsm(true, Equals(HalfAt, 12, ETHERTYPE_IPV4), Equals(ByteAt, 23, 1), 2, 0, 1);
    Listed(Proto(Icmp), Check(0x28, 12, 0, 3, 0x0800) + Check(0x30, 23, 0, 1, 1),
           Check(0x28, 12, 0, 3, 0x0800) + Check(0x30, 23, 0, 1, 1) + RETURNS);
  }

  /** `tcp` and `udp`, by their number. */
  function TransportListing(number: nat): Program {
    Check(0x28, 12, 0, 6, 0x86DD)
    + ((Check(0x30, 20, 8, 0, number) + (Check(0x30, 20, 0, 7, 44) + Check(0x30, 54, 4, 5, number)))
    + (Check(0x28, 12, 0, 3, 0x0800) + Check(0x30, 23, 0, 1, number)))
  }

  lemma TransportAsm(number: nat)
    ensures Asm(LowerTransport(number), 0, 1) == TransportListing(number)
  {
    var next, frag, hidden := Equals(ByteAt, 20, number), Equals(ByteAt, 20, 44), Equals(ByteAt, 54, number);
    var v6, v4 := Equals(HalfAt, 12, ETHERTYPE_IPV6), Equals(HalfAt, 12, ETHERTYPE_IPV4);
    var last := Equals(ByteAt, 23, number);
    CheckAsm(HalfAt, 0x28, 12, ETHERTYPE_IPV6, 0, 6);
    CheckAsm(ByteAt, 0x30, 20, number, 8, 0);
    CheckAsm(ByteAt, 0x30, 20, 44, 0, 7);
    CheckAsm(ByteAt, 0x30, 54, number, 4, 5);
    CheckAsm(HalfAt, 0x28, 12, ETHERTYPE_IPV4, 0, 3);
    CheckAsm(ByteAt, 0x30, 23, number, 0, 1);
    PairAsm(true, frag, hidden, 2, 4, 5);
    PairLen(true, frag, hidden);
    PairAsm(false, next, Conj(frag, hidden), 4, 4, 5);
    PairLen(false, next, Conj(frag, hidden));
    PairAsm(true, v4, last, 2, 0, 1);
    PairLen(true, v4, last);
    TripleAsm(false, v6, Disj(next, Conj(frag, hidden)), Conj(v4, last), 6, 4, 0, 1);
  }

  lemma PairLen(all: bool, left: Cond, right: Cond)
    ensures Len(Pair(all, left, right)) == Len(left) + Len(right)
  {
  }

  lemma TransportListings()
    ensures Assembled(Proto(Tcp)) == Success(TransportListing(6) + RETURNS)
    ensures Assembled(Proto(Udp)) == Success(TransportListing(17) + RETURNS)
  {
    TransportAsm(6);
    TransportAsm(17);
    TransportFits(6);
    TransportFits(17);
    Listed(Proto(Tcp), TransportListing(6), TransportListing(6) + RETURNS);
    Listed(Proto(Udp), TransportListing(17), TransportListing(17) + RETURNS);
  }

  lemma TransportFits(number: nat)
    ensures Fits(TransportListing(number) + RETURNS)
  {
  }

  /** A source and a destination test, or one of them, with the false exit `dF` behind. */
  function PickListing(direction: Option<Direction>, code: nat, src: nat, dst: nat, value: nat, dT: nat, dF: nat)
    : Program
  {
    match direction
    case None => Check(code, src, 2 + dT, 0, value) + Check(code, dst, dT, dF, value)
    case Some(Src) => Check(code, src, dT, dF, value)
    case Some(Dst) => Check(code, dst, dT, dF, value)
  }

  lemma PickAsm(direction: Option<Direction>, op: LoadOp, code: nat, src: nat, dst: nat, value: nat, dT: nat, dF: nat)
    requires code == op.Code()
    ensures var c := LowerPick(direction, Equals(op, src, value), Equals(op, dst, value));
            && Asm(c, dT, dF) == PickListing(direction, code, src, dst, value, dT, dF)
            && Len(c) == if direction.None? then 4 else 2
  {
    CheckAsm(op, code, src, value, if direction.None? then 2 + dT else dT, if direction.None? then 0 else dF);
    CheckAsm(op, code, dst, value, dT, dF);
    PairAsm(false, Equals(op, src, value), Equals(op, dst, value), 2, dT, dF);
    PairLen(false, Equals(op, src, value), Equals(op, dst, value));
  }

  function HostListing(addr: nat, direction: Option<Direction>): Program {
    Check(0x28, 12, 0, if direction.None? then 5 else 3, 0x0800) + PickListing(direction, 0x20, 26, 30, addr, 0, 1)
  }

  lemma HostListings(addr: nat, direction: Option<Direction>)
    ensures Assembled(Host(addr, direction)) == Success(HostListing(addr, direction) + RETURNS)
  {
    var value := LowerPick(direction, Equals(WordAt, 26, addr), Equals(WordAt, 30, addr));
    PickAsm(direction, WordAt, 0x20, 26, 30, addr, 0, 1);
    CheckAsm(HalfAt, 0x28, 12, ETHERTYPE_IPV4, 0, Len(value) + 1);
    PairAsm(true, Equals(HalfAt, 12, ETHERTYPE_IPV4), value, Len(value), 0, 1);
    CheckFits(0x28, 12, 0, Len(value) + 1, 0x0800);
    PickFits(direction, 0x20, 26, 30, addr, 0, 1);
    FitsJoins(Check(0x28, 12, 0, Len(value) + 1, 0x0800), PickListing(direction, 0x20, 26, 30, addr, 0, 1));
    FitsJoins(HostListing(addr, direction), RETURNS);
    Listed(Host(addr, direction), HostListing(addr, direction), HostListing(addr, direction) + RETURNS);
  }

  /** The IPv6 ports, the exits `dT` and `dF` behind them. */
  function Port6Listing(port: nat, direction: Option<Direction>, dT: nat, dF: nat): Program {
    Check(0x30, 20, 2, 0, 6)
    + (Check(0x30, 20, 0, (if direction.None? then 4 else 2) + dF, 17)
       + PickListing(direction, 0x28, 54, 56, port, dT, dF))
  }

  lemma Port6Asm(port: nat, direction: Option<Direction>, dT: nat, dF: nat)
    ensures Asm(LowerPort6(port, direction), dT, dF) == Port6Listing(port, direction, dT, dF)
    ensures Len(LowerPort6(port, direction)) == if direction.None? then 8 else 6
  {
    var value := LowerPorts6(port, direction);
    PickAsm(direction, HalfAt, 0x28, 54, 56, port, dT, dF);
    CheckAsm(ByteAt, 0x30, 20, 6, 2, 0);
    CheckAsm(ByteAt, 0x30, 20, 17, 0, Len(value) + dF);
    TripleAsm(true, Equals(ByteAt, 20, 6), Equals(ByteAt, 20, 17), value, 2, Len(value), dT, dF);
    TripleLen(true, Equals(ByteAt, 20, 6), Equals(ByteAt, 20, 17), value);
  }

  lemma TripleLen(gate: bool, one: Cond, two: Cond, three: Cond)
    ensures Len(Triple(gate, one, two, three)) == Len(one) + Len(two) + Len(three)
  {
  }

  /** The IPv4 ports, behind the tests of the protocol and of the fragment, at the end of the program. */
  function Port4Listing(port: nat, direction: Option<Direction>): Program {
    var n := if direction.None? then 5 else 3;
    Check(0x30, 23, 2, 0, 6)
    + (Check(0x30, 23, 0, 3 + n, 17)
    + ([I(0x28, 0, 0, 20), I(0x45, n + 1, 0, 0x1FFF)]
    + ([I(0xB1, 0, 0, 14)] + PickListing(direction, 0x48, 14, 16, port, 0, 1))))
  }

  lemma PastHeaderAsm(port: nat, direction: Option<Direction>)
    ensures var c := LowerPastHeader(port, direction);
            && Asm(c, 0, 1) == [I(0xB1, 0, 0, 14)] + PickListing(direction, 0x48, 14, 16, port, 0, 1)
            && Len(c) == if direction.None? then 5 else 3
  {
    PickAsm(direction, HalfPastHeader, 0x48, 14, 16, port, 0, 1);
  }

  lemma FragmentAsm(dF: nat)
    ensures Asm(FirstFragment(), 0, dF) == [I(0x28, 0, 0, 20), I(0x45, dF, 0, 0x1FFF)] && Len(FirstFragment()) == 2
  {
    assert Asm(Test(NoBits, 0x1FFF), 0, dF) == [I(0x45, dF, 0, 0x1FFF)] && Len(Test(NoBits, 0x1FFF)) == 1;
  }

  lemma Port4Asm(port: nat, direction: Option<Direction>)
    ensures Asm(LowerPort4(port, direction), 0, 1) == Port4Listing(port, direction)
    ensures Len(LowerPort4(port, direction)) == if direction.None? then 11 else 9
  {
    var past, ports := LowerPastHeader(port, direction), LowerPorts4(port, direction);
    PastHeaderAsm(port, direction);
    FragmentAsm(Len(past) + 1);
    PairAsm(true, FirstFragment(), past, Len(past), 0, 1);
    PairLen(true, FirstFragment(), past);
    CheckAsm(ByteAt, 0x30, 23, 6, 2, 0);
    CheckAsm(ByteAt, 0x30, 23, 17, 0, Len(ports) + 1);
    TripleAsm(true, Equals(ByteAt, 23, 6), Equals(ByteAt, 23, 17), ports, 2, Len(ports), 0, 1);
    TripleLen(true, Equals(ByteAt, 23, 6), Equals(ByteAt, 23, 17), ports);
  }

  function PortListing(port: nat, direction: Option<Direction>): Program {
    var four := if direction.None? then 11 else 9;
    Check(0x28, 12, 0, if direction.None? then 8 else 6, 0x86DD)
    + (Port6Listing(port, direction, four, four + 1) + Port4Listing(port, direction))
  }

  lemma PortListings(port: nat, direction: Option<Direction>)
    ensures Assembled(Port(port, direction)) == Success(PortListing(port, direction) + RETURNS)
  {
    PortAsm(port, direction);
    PortFits(port, direction);
    Listed(Port(port, direction), PortListing(port, direction), PortListing(port, direction) + RETURNS);
  }

  lemma PortAsm(port: nat, direction: Option<Direction>)
    ensures Asm(LowerPort(port, direction), 0, 1) == PortListing(port, direction)
  {
    var four, six := if direction.None? then 11 else 9, if direction.None? then 8 else 6;
    Port6Asm(port, direction, four, four + 1);
    Port4Asm(port, direction);
    CheckAsm(HalfAt, 0x28, 12, ETHERTYPE_IPV6, 0, six);
    TripleAsm(false, Equals(HalfAt, 12, ETHERTYPE_IPV6), LowerPort6(port, direction), LowerPort4(port, direction),
              six, four, 0, 1);
  }

  lemma PickFits(direction: Option<Direction>, code: nat, src: nat, dst: nat, value: nat, dT: nat, dF: nat)
    requires dT <= 250 && dF <= 250
    ensures Fits(PickListing(direction, code, src, dst, value, dT, dF))
  {
  }

  lemma Port6Fits(port: nat, direction: Option<Direction>, dT: nat, dF: nat)
    requires dT <= 240 && dF <= 240
    ensures Fits(Port6Listing(port, direction, dT, dF))
  {
    var jump := (if direction.None? then 4 else 2) + dF;
    var value := PickListing(direction, 0x28, 54, 56, port, dT, dF);
    PickFits(direction, 0x28, 54, 56, port, dT, dF);
    CheckFits(0x30, 20, 2, 0, 6);
    CheckFits(0x30, 20, 0, jump, 17);
    FitsJoins(Check(0x30, 20, 0, jump, 17), value);
    FitsJoins(Check(0x30, 20, 2, 0, 6), Check(0x30, 20, 0, jump, 17) + value);
  }

  lemma Port4Fits(port: nat, direction: Option<Direction>)
    ensures Fits(Port4Listing(port, direction))
  {
    var n := if direction.None? then 5 else 3;
    var value, header := PickListing(direction, 0x48, 14, 16, port, 0, 1), [I(0xB1, 0, 0, 14)];
    var fragment := [I(0x28, 0, 0, 20), I(0x45, n + 1, 0, 0x1FFF)];
    PickFits(direction, 0x48, 14, 16, port, 0, 1);
    CheckFits(0x30, 23, 2, 0, 6);
    CheckFits(0x30, 23, 0, 3 + n, 17);
    FitsJoins(header, value);
    FitsJoins(fragment, header + value);
    FitsJoins(Check(0x30, 23, 0, 3 + n, 17), fragment + (header + value));
    FitsJoins(Check(0x30, 23, 2, 0, 6), Check(0x30, 23, 0, 3 + n, 17) + (fragment + (header + value)));
  }

  lemma PortFits(port: nat, direction: Option<Direction>)
    ensures Fits(PortListing(port, direction) + RETURNS)
  {
    var four, six := if direction.None? then 11 else 9, if direction.None? then 8 else 6;
    Port6Fits(port, direction, four, four + 1);
    Port4Fits(port, direction);
    CheckFits(0x28, 12, 0, six, 0x86DD);
    FitsJoins(Port6Listing(port, direction, four, four + 1), Port4Listing(port, direction));
    FitsJoins(Check(0x28, 12, 0, six, 0x86DD),
              Port6Listing(port, direction, four, four + 1) + Port4Listing(port, direction));
    FitsJoins(PortListing(port, direction), RETURNS);
  }
}
