/**
Each primitive of the expression language as a condition, in the order its code is laid out, and
the proof that conditions mean what expressions mean. Every test reloads what it tests, so the
meaning does not depend on the registers a condition is entered with.
*/
module Lowering {
  import opened Bytes
  import opened Wrappers
  import opened Vm
  import opened Filter
  import opened Conditions

  function Equals(op: LoadOp, k: nat, value: nat): Cond {
    After(op, k, Is(value))
  }

  function LowerPick(direction: Option<Direction>, src: Cond, dst: Cond): Cond {
    match direction
    case None => Disj(src, dst)
    case Some(Src) => src
    case Some(Dst) => dst
  }

  function LowerTransport(number: nat): Cond {
    Choose(Equals(HalfAt, 12, ETHERTYPE_IPV6),
           Disj(Equals(ByteAt, 20, number), Conj(Equals(ByteAt, 20, 44), Equals(ByteAt, 54, number))),
           Conj(Equals(HalfAt, 12, ETHERTYPE_IPV4), Equals(ByteAt, 23, number)))
  }

  function LowerProto(name: Protocol): Cond {
    match name
    case Ip => Equals(HalfAt, 12, ETHERTYPE_IPV4)
    case Arp => Equals(HalfAt, 12, ETHERTYPE_ARP)
    case Ip6 => Equals(HalfAt, 12, ETHERTYPE_IPV6)
    case Icmp => Conj(Equals(HalfAt, 12, ETHERTYPE_IPV4), Equals(ByteAt, 23, 1))
    case Tcp => LowerTransport(6)
    case Udp => LowerTransport(17)
  }

  function LowerHost(addr: nat, direction: Option<Direction>): Cond {
    Conj(Equals(HalfAt, 12, ETHERTYPE_IPV4),
         LowerPick(direction, Equals(WordAt, 26, addr), Equals(WordAt, 30, addr)))
  }

  function LowerPorts6(port: nat, direction: Option<Direction>): Cond {
    LowerPick(direction, Equals(HalfAt, 54, port), Equals(HalfAt, 56, port))
  }

  function LowerPort6(port: nat, direction: Option<Direction>): Cond {
    Gate(Equals(ByteAt, 20, 6), Equals(ByteAt, 20, 17), LowerPorts6(port, direction))
  }

  /** The ports of an IPv4 header whose length is put in X first. */
  function LowerPastHeader(port: nat, direction: Option<Direction>): Cond {
    After(HeaderLength, 14, LowerPick(direction, Equals(HalfPastHeader, 14, port), Equals(HalfPastHeader, 16, port)))
  }

  function FirstFragment(): Cond {
    After(HalfAt, 20, Test(NoBits, 0x1FFF))
  }

  function LowerPorts4(port: nat, direction: Option<Direction>): Cond {
    Conj(FirstFragment(), LowerPastHeader(port, direction))
  }

  function LowerPort4(port: nat, direction: Option<Direction>): Cond {
    Gate(Equals(ByteAt, 23, 6), Equals(ByteAt, 23, 17), LowerPorts4(port, direction))
  }

  function LowerPort(port: nat, direction: Option<Direction>): Cond {
    Choose(Equals(HalfAt, 12, ETHERTYPE_IPV6), LowerPort6(port, direction), LowerPort4(port, direction))
  }

  function Lower(n: Node): Cond {
    match n
    case Proto(name) => LowerProto(name)
    case Host(addr, direction) => LowerHost(addr, direction)
    case Port(port, direction) => LowerPort(port, direction)
    case Not(operand) => Negated(Lower(operand))
    case And(left, right) => Conj(Lower(left), Lower(right))
    case Or(left, right) => Disj(Lower(left), Lower(right))
  }

  /** What an exit says, registers and steps aside. */
  function Said(e: Exit): Truth {
    match e
    case Left(holds, _, _) => Decide(holds)
    case Abandoned(_) => Abort
  }

  /** The condition says `t` on this packet whatever the registers hold when it is entered. */
  ghost predicate Means(c: Cond, p: Packet, t: Truth) {
    forall r :: Said(Go(c, p, r)) == t
  }

  lemma EqualsMeans(op: LoadOp, k: nat, value: nat, p: Packet)
    requires !op.HeaderLength? && !op.HalfPastHeader?
    ensures Means(Equals(op, k, value), p, Field(p, k, op.Size(), value))
  {
  }

  lemma PairMeans(all: bool, left: Cond, right: Cond, p: Packet, l: Truth, r: Truth)
    requires Means(left, p, l) && Means(right, p, r)
    ensures Means(Pair(all, left, right), p, if all then l.And(r) else l.Or(r))
  {
    forall regs ensures Said(Go(Pair(all, left, right), p, regs)) == if all then l.And(r) else l.Or(r) {
      assert Said(Go(left, p, regs)) == l;
    }
  }

  lemma PickMeans(direction: Option<Direction>, src: Cond, dst: Cond, p: Packet, s: Truth, d: Truth)
    requires Means(src, p, s) && Means(dst, p, d)
    ensures Means(LowerPick(direction, src, dst), p, Pick(direction, s, d))
  {
    PairMeans(false, src, dst, p, s, d);
  }

  lemma ChooseMeans(test: Cond, yes: Cond, no: Cond, p: Packet, t: Truth, y: Truth, n: Truth)
    requires Means(test, p, t)
    requires t.True? ==> Means(yes, p, y)
    requires t.False? ==> Means(no, p, n)
    ensures Means(Choose(test, yes, no), p, match t case True => y case False => n case Abort => Abort)
  {
    forall regs
      ensures Said(Go(Choose(test, yes, no), p, regs)) == match t case True => y case False => n case Abort => Abort
    {
      assert Said(Go(test, p, regs)) == t;
    }
  }

  lemma GateMeans(one: Cond, two: Cond, body: Cond, p: Packet, s: Truth, t: Truth, b: Truth)
    requires Means(one, p, s) && Means(two, p, t)
    requires s.Or(t).True? ==> Means(body, p, b)
    ensures Means(Gate(one, two, body), p, s.Or(t).And(b))
  {
    forall regs ensures Said(Go(Gate(one, two, body), p, regs)) == s.Or(t).And(b) {
      assert Said(Go(one, p, regs)) == s;
    }
  }

  lemma TransportMeans(number: nat, p: Packet)
    ensures Means(LowerTransport(number), p, EvalTransport(number, p))
  {
    var v6, v4 := Equals(HalfAt, 12, ETHERTYPE_IPV6), Equals(HalfAt, 12, ETHERTYPE_IPV4);
    var next, frag, hidden := Equals(ByteAt, 20, number), Equals(ByteAt, 20, 44), Equals(ByteAt, 54, number);
    EqualsMeans(HalfAt, 12, ETHERTYPE_IPV6, p);
    EqualsMeans(HalfAt, 12, ETHERTYPE_IPV4, p);
    EqualsMeans(ByteAt, 20, number, p);
    EqualsMeans(ByteAt, 20, 44, p);
    EqualsMeans(ByteAt, 54, number, p);
    EqualsMeans(ByteAt, 23, number, p);
    PairMeans(true, frag, hidden, p, Field(p, 20, 1, 44), Field(p, 54, 1, number));
    var six := Field(p, 20, 1, 44).And(Field(p, 54, 1, number));
    PairMeans(false, next, Conj(frag, hidden), p, Field(p, 20, 1, number), six);
    PairMeans(true, v4, Equals(ByteAt, 23, number), p, Field(p, 12, 2, ETHERTYPE_IPV4), Field(p, 23, 1, number));
    ChooseMeans(v6, Disj(next, Conj(frag, hidden)), Conj(v4, Equals(ByteAt, 23, number)), p,
                Field(p, 12, 2, ETHERTYPE_IPV6), Field(p, 20, 1, number).Or(six),
                Field(p, 12, 2, ETHERTYPE_IPV4).And(Field(p, 23, 1, number)));
  }

  lemma ProtoMeans(name: Protocol, p: Packet)
    ensures Means(LowerProto(name), p, EvalProto(name, p))
  {
    match name
    case Ip => EqualsMeans(HalfAt, 12, ETHERTYPE_IPV4, p);
    case Arp => EqualsMeans(HalfAt, 12, ETHERTYPE_ARP, p);
    case Ip6 => EqualsMeans(HalfAt, 12, ETHERTYPE_IPV6, p);
    case Icmp =>
      EqualsMeans(HalfAt, 12, ETHERTYPE_IPV4, p);
      EqualsMeans(ByteAt, 23, 1, p);
      PairMeans(true, Equals(HalfAt, 12, ETHERTYPE_IPV4), Equals(ByteAt, 23, 1), p,
                Field(p, 12, 2, ETHERTYPE_IPV4), Field(p, 23, 1, 1));
    case Tcp => TransportMeans(6, p);
    case Udp => TransportMeans(17, p);
  }

  lemma HostMeans(addr: nat, direction: Option<Direction>, p: Packet)
    ensures Means(LowerHost(addr, direction), p, EvalHost(addr, direction, p))
  {
    var src, dst := Equals(WordAt, 26, addr), Equals(WordAt, 30, addr);
    EqualsMeans(HalfAt, 12, ETHERTYPE_IPV4, p);
    EqualsMeans(WordAt, 26, addr, p);
    EqualsMeans(WordAt, 30, addr, p);
    PickMeans(direction, src, dst, p, Field(p, 26, 4, addr), Field(p, 30, 4, addr));
    PairMeans(true, Equals(HalfAt, 12, ETHERTYPE_IPV4), LowerPick(direction, src, dst), p,
              Field(p, 12, 2, ETHERTYPE_IPV4), Pick(direction, Field(p, 26, 4, addr), Field(p, 30, 4, addr)));
  }

  lemma Ports6Means(port: nat, direction: Option<Direction>, p: Packet)
    ensures Means(LowerPorts6(port, direction), p, IPv6Ports(port, direction, p))
  {
    EqualsMeans(HalfAt, 54, port, p);
    EqualsMeans(HalfAt, 56, port, p);
    PickMeans(direction, Equals(HalfAt, 54, port), Equals(HalfAt, 56, port), p,
              Field(p, 54, 2, port), Field(p, 56, 2, port));
  }

  lemma Port6Means(port: nat, direction: Option<Direction>, p: Packet)
    ensures Means(LowerPort6(port, direction), p, EvalPort6(port, direction, p))
  {
    EqualsMeans(ByteAt, 20, 6, p);
    EqualsMeans(ByteAt, 20, 17, p);
    Ports6Means(port, direction, p);
    GateMeans(Equals(ByteAt, 20, 6), Equals(ByteAt, 20, 17), LowerPorts6(port, direction), p,
              Field(p, 20, 1, 6), Field(p, 20, 1, 17), IPv6Ports(port, direction, p));
  }

  lemma PastHeaderEquals(k: nat, value: nat, p: Packet, r: Registers)
    ensures var e := Go(Equals(HalfPastHeader, k, value), p, r);
            Said(e) == Field(p, r.x + k, 2, value) && (e.Left? ==> e.r.x == r.x)
  {
  }

  lemma PastHeaderMeans(port: nat, direction: Option<Direction>, p: Packet)
    requires |p| > 14
    ensures var end := HeaderBytes(p);
            Means(LowerPastHeader(port, direction), p,
                  Pick(direction, Field(p, end + 14, 2, port), Field(p, end + 16, 2, port)))
  {
    var end := HeaderBytes(p);
    Big1(p[14]);
    assert p[14..15] == [p[14]];
    SmallMasks(p[14]);
    var src, dst := Equals(HalfPastHeader, 14, port), Equals(HalfPastHeader, 16, port);
    forall r
      ensures Said(Go(LowerPastHeader(port, direction), p, r)) ==
              Pick(direction, Field(p, end + 14, 2, port), Field(p, end + 16, 2, port))
    {
      var r' := Registers(r.a, end);
      assert HeaderLength.Fetch(p, r, 14) == Some(r');
      PastHeaderEquals(14, port, p, r');
      PastHeaderEquals(16, port, p, r');
      var e := Go(src, p, r');
      if e.Left? {
        PastHeaderEquals(16, port, p, e.r);
      }
      assert Said(Go(LowerPick(direction, src, dst), p, r')) ==
             Pick(direction, Field(p, end + 14, 2, port), Field(p, end + 16, 2, port));
    }
  }

  lemma FragmentMeans(p: Packet)
    requires |p| >= 22
    ensures Means(FirstFragment(), p, Decide(Load(p, 20, 2).value % 0x2000 == 0))
  {
    FragmentMask(Load(p, 20, 2).value);
  }

  lemma Ports4Means(port: nat, direction: Option<Direction>, p: Packet)
    requires |p| >= 22
    ensures Means(LowerPorts4(port, direction), p, IPv4Ports(port, direction, p))
  {
    var end := HeaderBytes(p);
    FragmentMeans(p);
    PastHeaderMeans(port, direction, p);
    PairMeans(true, FirstFragment(), LowerPastHeader(port, direction), p,
              Decide(Load(p, 20, 2).value % 0x2000 == 0),
              Pick(direction, Field(p, end + 14, 2, port), Field(p, end + 16, 2, port)));
  }

  lemma Port4Means(port: nat, direction: Option<Direction>, p: Packet)
    ensures Means(LowerPort4(port, direction), p, EvalPort4(port, direction, p))
  {
    EqualsMeans(ByteAt, 23, 6, p);
    EqualsMeans(ByteAt, 23, 17, p);
    var body := Abort;
    if |p| > 23 {
      body := IPv4Ports(port, direction, p);
      Ports4Means(port, direction, p);
    }
    GateMeans(Equals(ByteAt, 23, 6), Equals(ByteAt, 23, 17), LowerPorts4(port, direction), p,
              Field(p, 23, 1, 6), Field(p, 23, 1, 17), body);
  }

  lemma PortMeans(port: nat, direction: Option<Direction>, p: Packet)
    ensures Means(LowerPort(port, direction), p, EvalPort(port, direction, p))
  {
    EqualsMeans(HalfAt, 12, ETHERTYPE_IPV6, p);
    Port6Means(port, direction, p);
    Port4Means(port, direction, p);
    ChooseMeans(Equals(HalfAt, 12, ETHERTYPE_IPV6), LowerPort6(port, direction), LowerPort4(port, direction), p,
                Field(p, 12, 2, ETHERTYPE_IPV6), EvalPort6(port, direction, p), EvalPort4(port, direction, p));
  }

  /**
  The conditions that are compiled mean what the expressions mean, on every packet of every
  length and whatever earlier code left in the registers.
  */
  lemma {:induction false} LowerMeans(n: Node, p: Packet)
    ensures Means(Lower(n), p, Eval(n, p))
  {
    match n
    case Proto(name) => ProtoMeans(name, p);
    case Host(addr, direction) => HostMeans(addr, direction, p);
    case Port(port, direction) => PortMeans(port, direction, p);
    case Not(operand) =>
      LowerMeans(operand, p);
      forall r ensures Said(Go(Negated(Lower(operand)), p, r)) == Eval(operand, p).Not() {
        assert Said(Go(Lower(operand), p, r)) == Eval(operand, p);
      }
    case And(left, right) =>
      LowerMeans(left, p);
      LowerMeans(right, p);
      PairMeans(true, Lower(left), Lower(right), p, Eval(left, p), Eval(right, p));
    case Or(left, right) =>
      LowerMeans(left, p);
      LowerMeans(right, p);
      PairMeans(false, Lower(left), Lower(right), p, Eval(left, p), Eval(right, p));
  }
}
