/**
Filter expressions and what they mean on a packet. The meaning has three values: a field that
lies past the end of the packet rejects the packet for good, whatever negations stand around it,
and `and`/`or` look at their right side only if the left side has not decided.
*/
module Filter {
  import opened Bytes
  import opened Wrappers
  import opened Vm

  datatype Protocol = Tcp | Udp | Icmp | Arp | Ip | Ip6

  datatype Direction = Src | Dst

  datatype Node =
    | Proto(name: Protocol)
    | Host(addr: nat, direction: Option<Direction>)
    | Port(port: nat, direction: Option<Direction>)
    | Not(operand: Node)
    | And(left: Node, right: Node)
    | Or(left: Node, right: Node)

  datatype Truth = True | False | Abort {
    function Not(): Truth {
      match this
      case True => False
      case False => True
      case Abort => Abort
    }

    function And(right: Truth): Truth {
      if True? then right else this
    }

    function Or(right: Truth): Truth {
      if False? then right else this
    }
  }

  function Decide(holds: bool): Truth {
    if holds then True else False
  }

  /** Whether the big-endian field of `size` bytes at `offset` has the given value. */
  function Field(p: Packet, offset: nat, size: nat, value: nat): Truth {
    match Load(p, offset, size)
    case None => Abort
    case Some(v) => Decide(v == value)
  }

  const ETHERTYPE_IPV4 := 0x0800
  const ETHERTYPE_ARP := 0x0806
  const ETHERTYPE_IPV6 := 0x86DD

  function EtherType(p: Packet): Option<nat> {
    Load(p, 12, 2)
  }

  /** A test of the source field, of the destination field, or of the first and then the second. */
  function Pick(direction: Option<Direction>, src: Truth, dst: Truth): Truth {
    match direction
    case None => src.Or(dst)
    case Some(Src) => src
    case Some(Dst) => dst
  }

  /** TCP and UDP: the IPv4 protocol, or the IPv6 next header, looked for past one Fragment header. */
  function EvalTransport(number: nat, p: Packet): Truth {
    match EtherType(p)
    case None => Abort
    case Some(t) =>
      if t == ETHERTYPE_IPV6 then
        match Load(p, 20, 1) {
          case None => Abort
          case Some(next) =>
            if next == number then True
            else if next == 44 then Field(p, 54, 1, number)
            else False
        }
      else if t == ETHERTYPE_IPV4 then Field(p, 23, 1, number)
      else False
  }

  function EvalProto(name: Protocol, p: Packet): Truth {
    match name
    case Ip => Field(p, 12, 2, ETHERTYPE_IPV4)
    case Arp => Field(p, 12, 2, ETHERTYPE_ARP)
    case Ip6 => Field(p, 12, 2, ETHERTYPE_IPV6)
    case Icmp => Field(p, 12, 2, ETHERTYPE_IPV4).And(Field(p, 23, 1, 1))
    case Tcp => EvalTransport(6, p)
    case Udp => EvalTransport(17, p)
  }

  function EvalHost(addr: nat, direction: Option<Direction>, p: Packet): Truth {
    Field(p, 12, 2, ETHERTYPE_IPV4).And(Pick(direction, Field(p, 26, 4, addr), Field(p, 30, 4, addr)))
  }

  predicate TcpOrUdp(number: nat) {
    number == 6 || number == 17
  }

  function IPv6Ports(port: nat, direction: Option<Direction>, p: Packet): Truth {
    Pick(direction, Field(p, 54, 2, port), Field(p, 56, 2, port))
  }

  function EvalPort6(port: nat, direction: Option<Direction>, p: Packet): Truth {
    match Load(p, 20, 1)
    case None => Abort
    case Some(next) => if TcpOrUdp(next) then IPv6Ports(port, direction, p) else False
  }

  /** The length in bytes of an IPv4 header whose first byte is in the packet. */
  function HeaderBytes(p: Packet): (n: nat)
    requires |p| > 14
    ensures n <= 60
  {
    4 * (p[14] % 16)
  }

  /** Only the first fragment of a datagram carries ports, and they follow a header of variable length. */
  function IPv4Ports(port: nat, direction: Option<Direction>, p: Packet): Truth
    requires |p| >= 22
  {
    if Load(p, 20, 2).value % 0x2000 != 0 then False
    else
      var end := HeaderBytes(p);
      Pick(direction, Field(p, end + 14, 2, port), Field(p, end + 16, 2, port))
  }

  function EvalPort4(port: nat, direction: Option<Direction>, p: Packet): Truth {
    match Load(p, 23, 1)
    case None => Abort
    case Some(number) => if TcpOrUdp(number) then IPv4Ports(port, direction, p) else False
  }

  /** Every frame that is not IPv6 is read as IPv4. */
  function EvalPort(port: nat, direction: Option<Direction>, p: Packet): Truth {
    match EtherType(p)
    case None => Abort
    case Some(t) => if t == ETHERTYPE_IPV6 then EvalPort6(port, direction, p) else EvalPort4(port, direction, p)
  }

  function Eval(n: Node, p: Packet): Truth
    decreases n
  {
    match n
    case Proto(name) => EvalProto(name, p)
    case Host(addr, direction) => EvalHost(addr, direction, p)
    case Port(port, direction) => EvalPort(port, direction, p)
    case Not(operand) => Eval(operand, p).Not()
    case And(left, right) => Eval(left, p).And(Eval(right, p))
    case Or(left, right) => Eval(left, p).Or(Eval(right, p))
  }

  /** What is there of the first packet is the same in the second. */
  ghost predicate Extends(q: Packet, p: Packet) {
    && |p| <= |q|
    && (forall offset: nat, size: nat {:trigger Load(p, offset, size)} | Load(p, offset, size).Some? ::
          Load(q, offset, size) == Load(p, offset, size))
  }

  lemma PrefixExtends(p: Packet, q: Packet)
    requires p <= q
    ensures Extends(q, p)
  {
    forall offset: nat, size: nat | Load(p, offset, size).Some?
      ensures Load(q, offset, size) == Load(p, offset, size)
    {
      LoadGrows(p, q, offset, size);
    }
  }

  lemma ProtoGrows(name: Protocol, p: Packet, q: Packet)
    requires Extends(q, p) && EvalProto(name, p) != Abort
    ensures EvalProto(name, q) == EvalProto(name, p)
  {
  }

  lemma HostGrows(addr: nat, direction: Option<Direction>, p: Packet, q: Packet)
    requires Extends(q, p) && EvalHost(addr, direction, p) != Abort
    ensures EvalHost(addr, direction, q) == EvalHost(addr, direction, p)
  {
  }

  lemma Port6Grows(port: nat, direction: Option<Direction>, p: Packet, q: Packet)
    requires Extends(q, p) && EvalPort6(port, direction, p) != Abort
    ensures EvalPort6(port, direction, q) == EvalPort6(port, direction, p)
  {
  }

  lemma Port4Grows(port: nat, direction: Option<Direction>, p: Packet, q: Packet)
    requires p <= q && Extends(q, p) && EvalPort4(port, direction, p) != Abort
    ensures EvalPort4(port, direction, q) == EvalPort4(port, direction, p)
  {
  }

  lemma PrimitiveGrows(n: Node, p: Packet, q: Packet)
    requires n.Proto? || n.Host? || n.Port?
    requires p <= q && Eval(n, p) != Abort
    ensures Eval(n, q) == Eval(n, p)
  {
    PrefixExtends(p, q);
    match n
    case Proto(name) => ProtoGrows(name, p, q);
    case Host(addr, direction) => HostGrows(addr, direction, p, q);
    case Port(port, direction) =>
      if EtherType(p).value == ETHERTYPE_IPV6 {
        Port6Grows(port, direction, p, q);
      } else {
        Port4Grows(port, direction, p, q);
      }
  }

  /** A packet that decides an expression decides it alike when more bytes follow. */
  lemma {:induction false} EvalGrows(n: Node, p: Packet, q: Packet)
    requires p <= q && Eval(n, p) != Abort
    ensures Eval(n, q) == Eval(n, p)
  {
    match n
    case Not(operand) => EvalGrows(operand, p, q);
    case And(left, right) =>
      EvalGrows(left, p, q);
      if Eval(left, p).True? {
        EvalGrows(right, p, q);
      }
    case Or(left, right) =>
      EvalGrows(left, p, q);
      if Eval(left, p).False? {
        EvalGrows(right, p, q);
      }
    case _ => PrimitiveGrows(n, p, q);
  }

  /** The last byte any expression looks at: the longest IPv4 header, then both ports. */
  const HORIZON: nat := 78

  lemma {:induction false} NeverAborts(n: Node, p: Packet)
    requires |p| >= HORIZON
    ensures Eval(n, p) != Abort
  {
    match n
    case Not(operand) => NeverAborts(operand, p);
    case And(left, right) =>
      NeverAborts(left, p);
      NeverAborts(right, p);
    case Or(left, right) =>
      NeverAborts(left, p);
      NeverAborts(right, p);
    case _ =>
  }

  /** Nothing past the horizon matters, and nothing is missing within it. */
  lemma Horizon(n: Node, p: Packet)
    requires |p| >= HORIZON
    ensures Eval(n, p) == Eval(n, p[..HORIZON]) != Abort
  {
    NeverAborts(n, p[..HORIZON]);
    EvalGrows(n, p[..HORIZON], p);
  }

  /** The horizon is exact: one byte less, and some expression aborts. */
  lemma HorizonIsTight() returns (n: Node, p: Packet)
    ensures |p| == HORIZON - 1 && Eval(n, p) == Abort
  {
    n := Port(80, Some(Dst));
    p := seq(77, i => if i == 14 then 0x4F else if i == 23 then 6 else 0);
    assert p[12..14] == [0, 0] && p[20..22] == [0, 0] && p[23..24] == [6];
    Big2(0, 0);
    Big1(6);
  }

  /** A bare `host` or `port` is its source form or its destination form, truncated packets included. */
  lemma Desugars(v: nat, p: Packet)
    ensures Eval(Host(v, None), p) == Eval(Or(Host(v, Some(Src)), Host(v, Some(Dst))), p)
    ensures Eval(Port(v, None), p) == Eval(Or(Port(v, Some(Src)), Port(v, Some(Dst))), p)
  {
  }

  /** Operands do not commute: a 14-byte IPv4 frame satisfies `ip or tcp` and aborts `tcp or ip`. */
  lemma OperandOrderMatters() returns (p: Packet)
    ensures Eval(Or(Proto(Ip), Proto(Tcp)), p) == True
    ensures Eval(Or(Proto(Tcp), Proto(Ip)), p) == Abort
  {
    p := [0, 0, 0, 0, 0, 0, 0, 0, 0, 0, 0, 0, 8, 0];
    assert p[12..14] == [8, 0];
    Big2(8, 0);
  }

  /** `port` reads any frame that is not IPv6 as IPv4, so it does not imply `ip or ip6`. */
  lemma PortIgnoresEtherType() returns (p: Packet)
    ensures Eval(Port(80, None), p) == True
    ensures Eval(Or(Proto(Ip), Proto(Ip6)), p) == False
  {
    p := seq(36, i => if i == 23 then 6 else if i == 15 then 80 else 0);
    assert p[12..14] == [0, 0] && p[20..22] == [0, 0] && p[23..24] == [6] && p[14..16] == [0, 80];
    Big2(0, 0);
    Big1(6);
    Big2(0, 80);
  }

  /** An IPv4 address as the parser packs it. */
  function Quad(a: Byte, b: Byte, c: Byte, d: Byte): (n: nat)
    ensures n < 0x1_0000_0000
  {
    ((a * 256 + b) * 256 + c) * 256 + d
  }

  lemma QuadInjective(a: Byte, b: Byte, c: Byte, d: Byte, a': Byte, b': Byte, c': Byte, d': Byte)
    requires Quad(a, b, c, d) == Quad(a', b', c', d')
    ensures a == a' && b == b' && c == c' && d == d'
  {
  }

  predicate OctetsAt(p: Packet, offset: nat, octets: seq<Byte>) {
    offset + |octets| <= |p| && p[offset..offset + |octets|] == octets
  }

  lemma AddressField(p: Packet, offset: nat, a: Byte, b: Byte, c: Byte, d: Byte)
    ensures Field(p, offset, 4, Quad(a, b, c, d)) ==
            if offset + 4 > |p| then Abort else Decide(OctetsAt(p, offset, [a, b, c, d]))
  {
    if offset + 4 <= |p| {
      var s := p[offset..offset + 4];
      Big4(s[0], s[1], s[2], s[3]);
      assert s == [s[0], s[1], s[2], s[3]];
      if FromBytes(Big, s) == Quad(a, b, c, d) {
        QuadInjective(s[0], s[1], s[2], s[3], a, b, c, d);
      }
    }
  }

  /** `host` is decided by the four octets, in order, in the source or destination field of IPv4. */
  lemma HostOctets(p: Packet, a: Byte, b: Byte, c: Byte, d: Byte, direction: Option<Direction>)
    ensures Eval(Host(Quad(a, b, c, d), direction), p) == True <==>
            && OctetsAt(p, 12, [0x08, 0x00])
            && match direction
               case Some(Src) => OctetsAt(p, 26, [a, b, c, d])
               case Some(Dst) => OctetsAt(p, 30, [a, b, c, d])
               case None => OctetsAt(p, 26, [a, b, c, d]) || OctetsAt(p, 30, [a, b, c, d])
  {
    AddressField(p, 26, a, b, c, d);
    AddressField(p, 30, a, b, c, d);
    if |p| >= 14 {
      assert p[12..14] == [p[12], p[13]];
      Big2(p[12], p[13]);
    }
  }
}
