/**
How many instructions the tests of an expression dispatch on a packet, by recursion on the
expression, and the proof that its code takes exactly that many.
*/
module Costs {
  import opened Bytes
  import opened Wrappers
  import opened Vm
  import opened Filter
  import opened Conditions
  import opened Lowering

  /** A load and a test, or a load that ends the run. */
  function TestSteps(p: Packet, offset: nat, size: nat): nat {
    if offset + size > |p| then 1 else 2
  }

  /** The second of two alternatives is looked at only if the first is false. */
  function PickSteps(direction: Option<Direction>, src: Truth, srcSteps: nat, dstSteps: nat): nat {
    match direction
    case None => srcSteps + if src.False? then dstSteps else 0
    case Some(Src) => srcSteps
    case Some(Dst) => dstSteps
  }

  function TransportSteps(number: nat, p: Packet): nat {
    TestSteps(p, 12, 2) +
    match Field(p, 12, 2, ETHERTYPE_IPV6)
    case Abort => 0
    case True =>
      TestSteps(p, 20, 1)
      + (if Field(p, 20, 1, number).False?
         then TestSteps(p, 20, 1) + if Field(p, 20, 1, 44).True? then TestSteps(p, 54, 1) else 0
         else 0)
    case False => TestSteps(p, 12, 2) + if Field(p, 12, 2, ETHERTYPE_IPV4).True? then TestSteps(p, 23, 1) else 0
  }

  function ProtoSteps(name: Protocol, p: Packet): nat {
    match name
    case Tcp => TransportSteps(6, p)
    case Udp => TransportSteps(17, p)
    case Icmp => TestSteps(p, 12, 2) + if Field(p, 12, 2, ETHERTYPE_IPV4).True? then TestSteps(p, 23, 1) else 0
    case _ => TestSteps(p, 12, 2)
  }

  function HostSteps(addr: nat, direction: Option<Direction>, p: Packet): nat {
    TestSteps(p, 12, 2) +
    if Field(p, 12, 2, ETHERTYPE_IPV4).True?
    then PickSteps(direction, Field(p, 26, 4, addr), TestSteps(p, 26, 4), TestSteps(p, 30, 4))
    else 0
  }

  /** The tests for TCP and then UDP in the byte at `offset`. */
  function EitherSteps(p: Packet, offset: nat): nat {
    TestSteps(p, offset, 1) + if Field(p, offset, 1, 6).False? then TestSteps(p, offset, 1) else 0
  }

  function Either(p: Packet, offset: nat): Truth {
    Field(p, offset, 1, 6).Or(Field(p, offset, 1, 17))
  }

  function Port6Steps(port: nat, direction: Option<Direction>, p: Packet): nat {
    EitherSteps(p, 20) +
    if Either(p, 20).True?
    then PickSteps(direction, Field(p, 54, 2, port), TestSteps(p, 54, 2), TestSteps(p, 56, 2))
    else 0
  }

  function PastHeaderSteps(port: nat, direction: Option<Direction>, p: Packet): nat
    requires |p| > 14
  {
    var end := HeaderBytes(p);
    1 + PickSteps(direction, Field(p, end + 14, 2, port), TestSteps(p, end + 14, 2), TestSteps(p, end + 16, 2))
  }

  /** Past the fragment test, if it is a first fragment. */
  function Ports4Steps(port: nat, direction: Option<Direction>, p: Packet): nat
    requires |p| >= 22
  {
    2 + if Load(p, 20, 2).value % 0x2000 == 0 then PastHeaderSteps(port, direction, p) else 0
  }

  function Port4Steps(port: nat, direction: Option<Direction>, p: Packet): nat {
    EitherSteps(p, 23) + if Either(p, 23).True? then Ports4Steps(port, direction, p) else 0
  }

  function PortSteps(port: nat, direction: Option<Direction>, p: Packet): nat {
    TestSteps(p, 12, 2) +
    match Field(p, 12, 2, ETHERTYPE_IPV6)
    case Abort => 0
    case True => Port6Steps(port, direction, p)
    case False => Port4Steps(port, direction, p)
  }

  /** `and` and `or` spend the right side's steps only if the left side has not decided. */
  function Spent(n: Node, p: Packet): nat
    decreases n
  {
    match n
    case Proto(name) => ProtoSteps(name, p)
    case Host(addr, direction) => HostSteps(addr, direction, p)
    case Port(port, direction) => PortSteps(port, direction, p)
    case Not(operand) => Spent(operand, p)
    case And(left, right) => Spent(left, p) + if Eval(left, p).True? then Spent(right, p) else 0
    case Or(left, right) => Spent(left, p) + if Eval(left, p).False? then Spent(right, p) else 0
  }

  /** The whole run: the tests, and the return unless the packet is rejected before it. */
  function Cost(n: Node, p: Packet): nat {
    Spent(n, p) + if Eval(n, p).Abort? then 0 else 1
  }

  /** The condition takes `steps` steps on this packet whatever the registers hold when it is entered. */
  ghost predicate Spends(c: Cond, p: Packet, steps: nat) {
    forall r :: Go(c, p, r).steps == steps
  }

  lemma EqualsSpends(op: LoadOp, k: nat, value: nat, p: Packet)
    requires !op.HeaderLength? && !op.HalfPastHeader?
    ensures Spends(Equals(op, k, value), p, TestSteps(p, k, op.Size()))
    ensures Means(Equals(op, k, value), p, Field(p, k, op.Size(), value))
  {
    EqualsMeans(op, k, value, p);
  }

  lemma PairSpends(all: bool, left: Cond, right: Cond, p: Packet, l: Truth, ln: nat, rn: nat)
    requires Means(left, p, l) && Spends(left, p, ln) && Spends(right, p, rn)
    ensures Spends(Pair(all, left, right), p, ln + if l == Decide(all) then rn else 0)
  {
    forall r ensures Go(Pair(all, left, right), p, r).steps == ln + if l == Decide(all) then rn else 0 {
      assert Said(Go(left, p, r)) == l;
    }
  }

  lemma PickSpends(direction: Option<Direction>, src: Cond, dst: Cond, p: Packet, s: Truth, sn: nat, dn: nat)
    requires Means(src, p, s) && Spends(src, p, sn) && Spends(dst, p, dn)
    ensures Spends(LowerPick(direction, src, dst), p, PickSteps(direction, s, sn, dn))
  {
    PairSpends(false, src, dst, p, s, sn, dn);
  }

  lemma ChooseSpends(test: Cond, yes: Cond, no: Cond, p: Packet, t: Truth, tn: nat, yn: nat, nn: nat)
    requires Means(test, p, t) && Spends(test, p, tn)
    requires t.True? ==> Spends(yes, p, yn)
    requires t.False? ==> Spends(no, p, nn)
    ensures Spends(Choose(test, yes, no), p, tn + match t case True => yn case False => nn case Abort => 0)
  {
    forall r
      ensures Go(Choose(test, yes, no), p, r).steps == tn + match t case True => yn case False => nn case Abort => 0
    {
      assert Said(Go(test, p, r)) == t;
    }
  }

  lemma GateSpends(one: Cond, two: Cond, body: Cond, p: Packet, s: Truth, t: Truth, sn: nat, tn: nat, bn: nat)
    requires Means(one, p, s) && Means(two, p, t) && Spends(one, p, sn) && Spends(two, p, tn)
    requires s.Or(t).True? ==> Spends(body, p, bn)
    ensures Spends(Gate(one, two, body), p, sn + (if s.False? then tn else 0) + if s.Or(t).True? then bn else 0)
  {
    forall r
      ensures Go(Gate(one, two, body), p, r).steps ==
              sn + (if s.False? then tn else 0) + if s.Or(t).True? then bn else 0
    {
      assert Said(Go(one, p, r)) == s;
    }
  }

  lemma TransportSpends(number: nat, p: Packet)
    ensures Spends(LowerTransport(number), p, TransportSteps(number, p))
  {
    var frag, hidden := Equals(ByteAt, 20, 44), Equals(ByteAt, 54, number);
    var next, v4, last := Equals(ByteAt, 20, number), Equals(HalfAt, 12, ETHERTYPE_IPV4), Equals(ByteAt, 23, number);
    EqualsSpends(HalfAt, 12, ETHERTYPE_IPV6, p);
    EqualsSpends(HalfAt, 12, ETHERTYPE_IPV4, p);
    EqualsSpends(ByteAt, 20, number, p);
    EqualsSpends(ByteAt, 20, 44, p);
    EqualsSpends(ByteAt, 54, number, p);
    EqualsSpends(ByteAt, 23, number, p);
    var fn := TestSteps(p, 20, 1) + if Field(p, 20, 1, 44) == True then TestSteps(p, 54, 1) else 0;
    var sn := TestSteps(p, 20, 1) + if Field(p, 20, 1, number) == False then fn else 0;
    var ln := TestSteps(p, 12, 2) + if Field(p, 12, 2, ETHERTYPE_IPV4) == True then TestSteps(p, 23, 1) else 0;
    PairSpends(true, frag, hidden, p, Field(p, 20, 1, 44), TestSteps(p, 20, 1), TestSteps(p, 54, 1));
    PairSpends(false, next, Conj(frag, hidden), p, Field(p, 20, 1, number), TestSteps(p, 20, 1), fn);
    PairSpends(true, v4, last, p, Field(p, 12, 2, ETHERTYPE_IPV4), TestSteps(p, 12, 2), TestSteps(p, 23, 1));
    ChooseSpends(Equals(HalfAt, 12, ETHERTYPE_IPV6), Disj(next, Conj(frag, hidden)), Conj(v4, last), p,
                Field(p, 12, 2, ETHERTYPE_IPV6), TestSteps(p, 12, 2), sn, ln);
  }

  lemma ProtoSpends(name: Protocol, p: Packet)
    ensures Spends(LowerProto(name), p, ProtoSteps(name, p))
  {
    match name
    case Ip => EqualsSpends(HalfAt, 12, ETHERTYPE_IPV4, p);
    case Arp => EqualsSpends(HalfAt, 12, ETHERTYPE_ARP, p);
    case Ip6 => EqualsSpends(HalfAt, 12, ETHERTYPE_IPV6, p);
    case Icmp =>
      EqualsSpends(HalfAt, 12, ETHERTYPE_IPV4, p);
      EqualsSpends(ByteAt, 23, 1, p);
      PairSpends(true, Equals(HalfAt, 12, ETHERTYPE_IPV4), Equals(ByteAt, 23, 1), p,
                Field(p, 12, 2, ETHERTYPE_IPV4), TestSteps(p, 12, 2), TestSteps(p, 23, 1));
    case Tcp => TransportSpends(6, p);
    case Udp => TransportSpends(17, p);
  }

  lemma HostSpends(addr: nat, direction: Option<Direction>, p: Packet)
    ensures Spends(LowerHost(addr, direction), p, HostSteps(addr, direction, p))
  {
    var src, dst := Equals(WordAt, 26, addr), Equals(WordAt, 30, addr);
    EqualsSpends(HalfAt, 12, ETHERTYPE_IPV4, p);
    EqualsSpends(WordAt, 26, addr, p);
    EqualsSpends(WordAt, 30, addr, p);
    PickSpends(direction, src, dst, p, Field(p, 26, 4, addr), TestSteps(p, 26, 4), TestSteps(p, 30, 4));
    PairSpends(true, Equals(HalfAt, 12, ETHERTYPE_IPV4), LowerPick(direction, src, dst), p,
              Field(p, 12, 2, ETHERTYPE_IPV4), TestSteps(p, 12, 2),
              PickSteps(direction, Field(p, 26, 4, addr), TestSteps(p, 26, 4), TestSteps(p, 30, 4)));
  }

  lemma Port6Spends(port: nat, direction: Option<Direction>, p: Packet)
    ensures Spends(LowerPort6(port, direction), p, Port6Steps(port, direction, p))
  {
    var n := PickSteps(direction, Field(p, 54, 2, port), TestSteps(p, 54, 2), TestSteps(p, 56, 2));
    EqualsSpends(ByteAt, 20, 6, p);
    EqualsSpends(ByteAt, 20, 17, p);
    EqualsSpends(HalfAt, 54, port, p);
    EqualsSpends(HalfAt, 56, port, p);
    PickSpends(direction, Equals(HalfAt, 54, port), Equals(HalfAt, 56, port), p,
              Field(p, 54, 2, port), TestSteps(p, 54, 2), TestSteps(p, 56, 2));
    GateSpends(Equals(ByteAt, 20, 6), Equals(ByteAt, 20, 17), LowerPorts6(port, direction), p,
              Field(p, 20, 1, 6), Field(p, 20, 1, 17), TestSteps(p, 20, 1), TestSteps(p, 20, 1), n);
  }

  lemma PastHeaderTest(k: nat, value: nat, p: Packet, r: Registers)
    ensures Go(Equals(HalfPastHeader, k, value), p, r).steps == TestSteps(p, r.x + k, 2)
  {
    if r.x + k + 2 <= |p| {
      var r' := Registers(Load(p, r.x + k, 2).value, r.x);
      assert HalfPastHeader.Fetch(p, r, k) == Some(r');
      assert Go(Is(value), p, r').steps == 1;
    }
  }

  lemma PastHeaderSpends(port: nat, direction: Option<Direction>, p: Packet)
    requires |p| > 14
    ensures Spends(LowerPastHeader(port, direction), p, PastHeaderSteps(port, direction, p))
  {
    var end := HeaderBytes(p);
    Big1(p[14]);
    assert p[14..15] == [p[14]];
    SmallMasks(p[14]);
    var src, dst := Equals(HalfPastHeader, 14, port), Equals(HalfPastHeader, 16, port);
    forall r ensures Go(LowerPastHeader(port, direction), p, r).steps == PastHeaderSteps(port, direction, p) {
      var r' := Registers(r.a, end);
      assert HeaderLength.Fetch(p, r, 14) == Some(r');
      PastHeaderEquals(14, port, p, r');
      PastHeaderTest(14, port, p, r');
      PastHeaderTest(16, port, p, r');
      var e := Go(src, p, r');
      if e.Left? {
        PastHeaderTest(16, port, p, e.r);
      }
      assert Go(LowerPick(direction, src, dst), p, r').steps + 1 == PastHeaderSteps(port, direction, p);
    }
  }

  lemma Ports4Spends(port: nat, direction: Option<Direction>, p: Packet)
    requires |p| >= 22
    ensures Spends(LowerPorts4(port, direction), p, Ports4Steps(port, direction, p))
  {
    FragmentMeans(p);
    PastHeaderSpends(port, direction, p);
    forall r ensures Go(FirstFragment(), p, r).steps == 2 {
      var r' := Registers(Load(p, 20, 2).value, r.x);
      assert HalfAt.Fetch(p, r, 20) == Some(r');
      assert Go(Test(NoBits, 0x1FFF), p, r').steps == 1;
    }
    PairSpends(true, FirstFragment(), LowerPastHeader(port, direction), p,
              Decide(Load(p, 20, 2).value % 0x2000 == 0), 2, PastHeaderSteps(port, direction, p));
  }

  lemma Port4Spends(port: nat, direction: Option<Direction>, p: Packet)
    ensures Spends(LowerPort4(port, direction), p, Port4Steps(port, direction, p))
  {
    EqualsSpends(ByteAt, 23, 6, p);
    EqualsSpends(ByteAt, 23, 17, p);
    var n := 0;
    if |p| > 23 {
      n := Ports4Steps(port, direction, p);
      Ports4Spends(port, direction, p);
    }
    GateSpends(Equals(ByteAt, 23, 6), Equals(ByteAt, 23, 17), LowerPorts4(port, direction), p,
              Field(p, 23, 1, 6), Field(p, 23, 1, 17), TestSteps(p, 23, 1), TestSteps(p, 23, 1), n);
  }

  lemma PortSpends(port: nat, direction: Option<Direction>, p: Packet)
    ensures Spends(LowerPort(port, direction), p, PortSteps(port, direction, p))
  {
    EqualsSpends(HalfAt, 12, ETHERTYPE_IPV6, p);
    Port6Spends(port, direction, p);
    Port4Spends(port, direction, p);
    ChooseSpends(Equals(HalfAt, 12, ETHERTYPE_IPV6), LowerPort6(port, direction), LowerPort4(port, direction), p,
                Field(p, 12, 2, ETHERTYPE_IPV6), TestSteps(p, 12, 2),
                Port6Steps(port, direction, p), Port4Steps(port, direction, p));
  }

  /** The lowered tests of an expression take exactly the steps counted above, from any registers. */
  lemma {:induction false} LowerSpends(n: Node, p: Packet)
    ensures Spends(Lower(n), p, Spent(n, p))
  {
    match n
    case Proto(name) => ProtoSpends(name, p);
    case Host(addr, direction) => HostSpends(addr, direction, p);
    case Port(port, direction) => PortSpends(port, direction, p);
    case Not(operand) =>
      LowerSpends(operand, p);
      forall r ensures Go(Negated(Lower(operand)), p, r).steps == Spent(operand, p) {
        assert Go(Lower(operand), p, r).steps == Spent(operand, p);
      }
    case And(left, right) =>
      LowerMeans(left, p);
      LowerSpends(left, p);
      LowerSpends(right, p);
      PairSpends(true, Lower(left), Lower(right), p, Eval(left, p), Spent(left, p), Spent(right, p));
    case Or(left, right) =>
      LowerMeans(left, p);
      LowerSpends(left, p);
      LowerSpends(right, p);
      PairSpends(false, Lower(left), Lower(right), p, Eval(left, p), Spent(left, p), Spent(right, p));
  }
}
