/**
tcpdump's optimized programs against the compiled ones. All but one of tcpdump's programs are
the label-free code of some condition that tests a loaded value more than once; what such a
condition means settles on which packets both programs agree.
*/
module Tcpdump {
  import opened Bytes
  import opened Wrappers
  import opened Vm
  import opened Filter
  import opened Conditions
  import opened Simulation
  import opened Lowering
  import opened Emission
  import opened Correctness
  import opened Ranges
  import opened Golden
  import opened Layouts

  /** Both programs give the same answer on the packet, step guard and all. */
  ghost predicate SameVerdict(node: Node, golden: Program, p: Packet) {
    Assembled(node).Success? && Answer(golden, p) == Answer(Assembled(node).value, p)
  }

  /** A finished condition answers by what it says; with the returns swapped, by the opposite. */
  lemma ConditionVerdict(golden: Program, c: Cond, swapped: bool, p: Packet)
    requires golden == Finished(c, if swapped then 0 else ACCEPT_LENGTH, if swapped then ACCEPT_LENGTH else 0)
    requires |golden| <= 1000
    ensures Answer(golden, p) == Accepting(Said(Go(c, p, START)) == if swapped then False else True)
  {
    RunsFinished(c, if swapped then 0 else ACCEPT_LENGTH, if swapped then ACCEPT_LENGTH else 0, p);
  }

  lemma Compare(node: Node, golden: Program, c: Cond, p: Packet)
    requires Reach(node, 0, 1) <= 255 && Size(node) <= 1000
    requires golden == Finished(c, ACCEPT_LENGTH, 0) && |golden| <= 1000
    ensures SameVerdict(node, golden, p) <==> ((Said(Go(c, p, START)) == True) <==> (Eval(node, p) == True))
  {
    CompiledVerdict(node, p);
    ConditionVerdict(golden, c, false, p);
  }

  // What the conditions say.

  lemma SaysAfter(op: LoadOp, k: nat, body: Cond, p: Packet, r: Registers)
    ensures Said(Go(After(op, k, body), p, r)) ==
            match op.Fetch(p, r, k)
            case None => Abort
            case Some(r') => Said(Go(body, p, r'))
  {
  }

  lemma SaysChoose(v: nat, yes: Cond, no: Cond, p: Packet, r: Registers)
    ensures Said(Go(Choose(Is(v), yes, no), p, r)) ==
            if r.a == v then Said(Go(yes, p, r)) else Said(Go(no, p, r))
  {
    assert Go(Is(v), p, r) == Left(r.a == v, r, 1);
  }

  /** `g` decides on A alone and leaves the registers as they are. */
  ghost predicate Guards(g: Cond, on: nat -> bool, p: Packet) {
    forall r :: var e := Go(g, p, r); e.Left? && e.r == r && e.holds == on(r.a)
  }

  lemma SaysGuarded(g: Cond, on: nat -> bool, body: Cond, p: Packet, r: Registers)
    requires Guards(g, on, p)
    ensures Said(Go(Conj(g, body), p, r)) == if on(r.a) then Said(Go(body, p, r)) else False
  {
    var e := Go(g, p, r);
    assert e.Left? && e.r == r;
  }

  /** The ports of a frame whose transport protocol passes `six` or `four`. */
  function PortsWhere(six: nat -> bool, four: nat -> bool, port: nat, direction: Option<Direction>, p: Packet): Truth {
    match EtherType(p)
    case None => Abort
    case Some(t) =>
      if t == ETHERTYPE_IPV6 then
        match Load(p, 20, 1) {
          case None => Abort
          case Some(next) => if six(next) then IPv6Ports(port, direction, p) else False
        }
      else if t == ETHERTYPE_IPV4 then
        match Load(p, 23, 1) {
          case None => Abort
          case Some(number) => if four(number) then IPv4Ports(port, direction, p) else False
        }
      else False
  }

  lemma SaysIs(v: nat, p: Packet)
    ensures Guards(Is(v), (n: nat) => n == v, p)
  {
  }

  lemma PortsBehindSays(six: Cond, on6: nat -> bool, four: Cond, on4: nat -> bool,
                        port: nat, direction: Option<Direction>, p: Packet)
    requires Guards(six, on6, p) && Guards(four, on4, p)
    ensures Said(Go(PortsBehind(six, four, port, direction), p, START)) == PortsWhere(on6, on4, port, direction, p)
  {
    var body6, body4 := LowerPorts6(port, direction), LowerPorts4(port, direction);
    var yes := After(ByteAt, 20, Conj(six, body6));
    var four' := After(ByteAt, 23, Conj(four, body4));
    SaysAfter(HalfAt, 12, Choose(Is(0x86DD), yes, Conj(Is(0x0800), four')), p, START);
    match HalfAt.Fetch(p, START, 12) {
      case None =>
      case Some(r) =>
        SaysChoose(0x86DD, yes, Conj(Is(0x0800), four'), p, r);
        SaysAfter(ByteAt, 20, Conj(six, body6), p, r);
        match ByteAt.Fetch(p, r, 20) {
          case None =>
          case Some(r') =>
            SaysGuarded(six, on6, body6, p, r');
            Ports6Means(port, direction, p);
        }
        SaysIs(0x0800, p);
        SaysGuarded(Is(0x0800), (n: nat) => n == 0x0800, four', p, r);
        SaysAfter(ByteAt, 23, Conj(four, body4), p, r);
        match ByteAt.Fetch(p, r, 23) {
          case None =>
          case Some(r') =>
            SaysGuarded(four, on4, body4, p, r');
            Ports4Means(port, direction, p);
        }
    }
  }

  /** ARP and RARP frames that carry the address, which the compiled `host` does not look into. */
  predicate ArpCarries(addr: nat, direction: Option<Direction>, p: Packet) {
    && EtherType(p).Some? && EtherType(p).value in {0x0806, 0x8035}
    && Pick(direction, Field(p, 28, 4, addr), Field(p, 38, 4, addr)) == True
  }

  lemma HostOnceSays(addr: nat, direction: Option<Direction>, p: Packet)
    ensures Said(Go(HostOnce(addr, direction), p, START)) == True <==>
            EvalHost(addr, direction, p) == True || ArpCarries(addr, direction, p)
  {
    var ip := LowerPick(direction, Equals(WordAt, 26, addr), Equals(WordAt, 30, addr));
    var arp := LowerPick(direction, Equals(WordAt, 28, addr), Equals(WordAt, 38, addr));
    var isArp := Disj(Is(0x0806), Is(0x8035));
    SaysAfter(HalfAt, 12, Choose(Is(0x0800), ip, Conj(isArp, arp)), p, START);
    match HalfAt.Fetch(p, START, 12) {
      case None =>
      case Some(r) =>
        SaysChoose(0x0800, ip, Conj(isArp, arp), p, r);
        var on := (n: nat) => n == 0x0806 || n == 0x8035;
        assert Guards(isArp, on, p);
        SaysGuarded(isArp, on, arp, p, r);
        EqualsMeans(WordAt, 26, addr, p);
        EqualsMeans(WordAt, 30, addr, p);
        EqualsMeans(WordAt, 28, addr, p);
        EqualsMeans(WordAt, 38, addr, p);
        PickMeans(direction, Equals(WordAt, 26, addr), Equals(WordAt, 30, addr), p,
                  Field(p, 26, 4, addr), Field(p, 30, 4, addr));
        PickMeans(direction, Equals(WordAt, 28, addr), Equals(WordAt, 38, addr), p,
                  Field(p, 28, 4, addr), Field(p, 38, 4, addr));
    }
  }

  /** TCP, UDP or SCTP over IPv4, and the ports of it. */
  function SctpPorts4(port: nat, direction: Option<Direction>, p: Packet): Truth {
    match Load(p, 23, 1)
    case None => Abort
    case Some(n) => if n == 6 || n == 17 || n == 132 then IPv4Ports(port, direction, p) else False
  }

  lemma HostAndPortSays(addr: nat, host: Option<Direction>, port: nat, direction: Option<Direction>, p: Packet)
    ensures Said(Go(HostAndPort(addr, host, port, direction), p, START)) ==
            EvalHost(addr, host, p).And(SctpPorts4(port, direction, p))
  {
    var hosts := LowerPick(host, Equals(WordAt, 26, addr), Equals(WordAt, 30, addr));
    var body := Conj(SctpToo(), LowerPorts4(port, direction));
    var ports := After(ByteAt, 23, body);
    SaysAfter(HalfAt, 12, Conj(Is(0x0800), Conj(hosts, ports)), p, START);
    match HalfAt.Fetch(p, START, 12) {
      case None =>
      case Some(r) =>
        SaysIs(0x0800, p);
        SaysGuarded(Is(0x0800), (n: nat) => n == 0x0800, Conj(hosts, ports), p, r);
        EqualsMeans(WordAt, 26, addr, p);
        EqualsMeans(WordAt, 30, addr, p);
        PickMeans(host, Equals(WordAt, 26, addr), Equals(WordAt, 30, addr), p,
                  Field(p, 26, 4, addr), Field(p, 30, 4, addr));
        var on := (n: nat) => n == 6 || n == 17 || n == 132;
        assert Guards(SctpToo(), on, p);
        var t := SctpPorts4(port, direction, p);
        forall r' ensures Said(Go(ports, p, r')) == t {
          SaysAfter(ByteAt, 23, body, p, r');
          match ByteAt.Fetch(p, r', 23) {
            case None =>
            case Some(r'') =>
              SaysGuarded(SctpToo(), on, LowerPorts4(port, direction), p, r'');
              Ports4Means(port, direction, p);
          }
        }
        assert Means(ports, p, t);
        PairMeans(true, hosts, ports, p, Pick(host, Field(p, 26, 4, addr), Field(p, 30, 4, addr)), t);
    }
  }

  // The verdicts, program by program.

  lemma TcpOnceSays(p: Packet)
    ensures Said(Go(TransportOnce(6), p, START)) == EvalTransport(6, p)
  {
  }

  lemma UdpOnceSays(p: Packet)
    ensures Said(Go(TransportOnce(17), p, START)) == EvalTransport(17, p)
  {
  }

  lemma TcpVerdict(p: Packet)
    ensures SameVerdict(Proto(Tcp), TCP, p)
  {
    TransportPrograms();
    TcpOnceSays(p);
    Compare(Proto(Tcp), TCP, TransportOnce(6), p);
  }

  lemma UdpVerdict(p: Packet)
    ensures SameVerdict(Proto(Udp), UDP, p)
  {
    TransportPrograms();
    UdpOnceSays(p);
    Compare(Proto(Udp), UDP, TransportOnce(17), p);
  }

  lemma IcmpVerdict(p: Packet)
    ensures SameVerdict(Proto(Icmp), ICMP, p)
  {
    IcmpProgram();
    var c := After(HalfAt, 12, Conj(Is(0x0800), Equals(ByteAt, 23, 1)));
    assert Said(Go(c, p, START)) == EvalProto(Icmp, p);
    Compare(Proto(Icmp), ICMP, c, p);
  }

  lemma EtherTypeVerdicts(p: Packet)
    ensures SameVerdict(Proto(Arp), ARP, p)
    ensures SameVerdict(Proto(Ip), IP, p)
    ensures SameVerdict(Proto(Ip6), IP6, p)
  {
    EtherTypePrograms();
    ProtoMeans(Arp, p);
    ProtoMeans(Ip, p);
    ProtoMeans(Ip6, p);
    Compare(Proto(Arp), ARP, Equals(HalfAt, 12, 0x0806), p);
    Compare(Proto(Ip), IP, Equals(HalfAt, 12, 0x0800), p);
    Compare(Proto(Ip6), IP6, Equals(HalfAt, 12, 0x86DD), p);
  }

  /** The canned filters the command line looks up first answer as the compiled keywords do. */
  lemma CannedVerdicts(p: Packet)
    ensures SameVerdict(Proto(Tcp), CANNED_TCP, p)
    ensures SameVerdict(Proto(Udp), CANNED_UDP, p)
    ensures SameVerdict(Proto(Arp), CANNED_ARP, p)
    ensures SameVerdict(Proto(Ip6), CANNED_IP6, p)
  {
    TransportPrograms();
    EtherTypePrograms();
    TcpVerdict(p);
    UdpVerdict(p);
    EtherTypeVerdicts(p);
  }

  lemma NotArpVerdict(p: Packet)
    ensures SameVerdict(Not(Proto(Arp)), NOT_ARP, p)
  {
    EtherTypePrograms();
    ProtoMeans(Arp, p);
    CompiledVerdict(Not(Proto(Arp)), p);
    ConditionVerdict(NOT_ARP, Equals(HalfAt, 12, 0x0806), true, p);
  }

  lemma UdpOrIcmpSays(p: Packet)
    ensures Said(Go(UdpOrIcmpOnce(), p, START)) == True <==> Eval(Or(Proto(Udp), Proto(Icmp)), p) == True
  {
  }

  lemma UdpOrIcmpVerdict(p: Packet)
    ensures SameVerdict(Or(Proto(Udp), Proto(Icmp)), UDP_OR_ICMP, p)
  {
    UdpOrIcmpProgram();
    UdpOrIcmpSays(p);
    Compare(Or(Proto(Udp), Proto(Icmp)), UDP_OR_ICMP, UdpOrIcmpOnce(), p);
  }

  lemma TcpAndPortSays(port: nat, p: Packet)
    ensures Said(Go(PortsBehind(Is(6), Is(6), port, None), p, START)) == True <==>
            Eval(And(Proto(Tcp), Port(port, None)), p) == True
  {
    SaysIs(6, p);
    PortsBehindSays(Is(6), (n: nat) => n == 6, Is(6), (n: nat) => n == 6, port, None, p);
    assert Eval(Port(port, None), p) == EvalPort(port, None, p);
  }

  lemma TcpAndPortVerdict(p: Packet)
    ensures SameVerdict(And(Proto(Tcp), Port(80, None)), TCP_AND_PORT_80, p)
  {
    TcpAndPortProgram(80);
    TcpAndPortComparison(80, TCP_AND_PORT_80, p);
  }

  lemma TcpAndPortComparison(port: nat, golden: Program, p: Packet)
    requires golden == Finished(PortsBehind(Is(6), Is(6), port, None), ACCEPT_LENGTH, 0) && |golden| <= 1000
    ensures SameVerdict(And(Proto(Tcp), Port(port, None)), golden, p)
  {
    TcpAndPortSays(port, p);
    Compare(And(Proto(Tcp), Port(port, None)), golden, PortsBehind(Is(6), Is(6), port, None), p);
  }

  lemma TcpOrUdpAndPortTruth(port: nat, p: Packet)
    ensures PortsWhere((n: nat) => TcpOrUdp(n), (n: nat) => TcpOrUdp(n), port, None, p) == True <==>
            Eval(And(Or(Proto(Tcp), Proto(Udp)), Port(port, None)), p) == True
  {
    assert Eval(Or(Proto(Tcp), Proto(Udp)), p) == EvalTransport(6, p).Or(EvalTransport(17, p));
    assert Eval(Port(port, None), p) == EvalPort(port, None, p);
  }

  lemma TcpOrUdpAndPortSays(port: nat, p: Packet)
    ensures Said(Go(PortsBehind(NotFragmentHeader(), Disj(Is(6), Is(17)), port, None), p, START)) == True <==>
            Eval(And(Or(Proto(Tcp), Proto(Udp)), Port(port, None)), p) == True
  {
    var on := (n: nat) => TcpOrUdp(n);
    GuardsTcpOrUdp(p);
    PortsBehindSays(NotFragmentHeader(), on, Disj(Is(6), Is(17)), on, port, None, p);
    TcpOrUdpAndPortTruth(port, p);
  }

  lemma TcpOrUdpAndPortVerdict(p: Packet)
    ensures SameVerdict(And(Or(Proto(Tcp), Proto(Udp)), Port(53, None)), TCP_OR_UDP_AND_PORT_53, p)
  {
    TcpOrUdpAndPortProgram(53);
    TcpOrUdpAndPortComparison(53, TCP_OR_UDP_AND_PORT_53, p);
  }

  lemma TcpOrUdpAndPortComparison(port: nat, golden: Program, p: Packet)
    requires golden == Finished(PortsBehind(NotFragmentHeader(), Disj(Is(6), Is(17)), port, None), ACCEPT_LENGTH, 0)
    requires |golden| <= 1000
    ensures SameVerdict(And(Or(Proto(Tcp), Proto(Udp)), Port(port, None)), golden, p)
  {
    TcpOrUdpAndPortFits(port);
    TcpOrUdpAndPortSays(port, p);
    Compare(And(Or(Proto(Tcp), Proto(Udp)), Port(port, None)), golden,
            PortsBehind(NotFragmentHeader(), Disj(Is(6), Is(17)), port, None), p);
  }

  lemma TcpOrUdpAndPortFits(port: nat)
    ensures var node := And(Or(Proto(Tcp), Proto(Udp)), Port(port, None));
            Reach(node, 0, 1) <= 255 && Size(node) <= 1000
  {
    assert Size(Or(Proto(Tcp), Proto(Udp))) == 24 && Reach(Or(Proto(Tcp), Proto(Udp)), 0, 22) <= 255;
  }

  lemma GuardsTcpOrUdp(p: Packet)
    ensures Guards(NotFragmentHeader(), (n: nat) => TcpOrUdp(n), p)
    ensures Guards(Disj(Is(6), Is(17)), (n: nat) => TcpOrUdp(n), p)
  {
  }

  /** `tcp and not port` as tcpdump lays it out. */
  function TcpNotPortTruth(port: nat, p: Packet): Truth {
    match EtherType(p)
    case None => Abort
    case Some(t) =>
      if t == ETHERTYPE_IPV6 then
        match Load(p, 20, 1) {
          case None => Abort
          case Some(next) =>
            if next == 6 then IPv6Ports(port, None, p).Not()
            else if next == 44 then Field(p, 54, 1, 6)
            else False
        }
      else if t == ETHERTYPE_IPV4 then
        match Load(p, 23, 1) {
          case None => Abort
          case Some(number) => if number == 6 then IPv4Ports(port, None, p).Not() else False
        }
      else False
  }

  lemma SaysNegated(body: Cond, p: Packet, r: Registers)
    ensures Said(Go(Negated(body), p, r)) == Said(Go(body, p, r)).Not()
  {
  }

  lemma TcpNotPortSays(port: nat, p: Packet)
    ensures Said(Go(TcpNotPort(port), p, START)) == TcpNotPortTruth(port, p)
  {
    var hidden := Conj(Is(44), After(ByteAt, 54, Is(6)));
    var inner := Choose(Is(6), Negated(LowerPorts6(port, None)), hidden);
    var yes := After(ByteAt, 20, inner);
    var four := After(ByteAt, 23, Conj(Is(6), Negated(LowerPorts4(port, None))));
    SaysAfter(HalfAt, 12, Choose(Is(0x86DD), yes, Conj(Is(0x0800), four)), p, START);
    match HalfAt.Fetch(p, START, 12) {
      case None =>
      case Some(r) =>
        SaysChoose(0x86DD, yes, Conj(Is(0x0800), four), p, r);
        SaysIs(0x0800, p);
        SaysGuarded(Is(0x0800), (n: nat) => n == 0x0800, four, p, r);
        if r.a == 0x86DD {
          TcpNotPortSays6(port, p, r);
        } else if r.a == 0x0800 {
          TcpNotPortSays4(port, p, r);
        }
    }
  }

  lemma TcpNotPortSays6(port: nat, p: Packet, r: Registers)
    ensures var hidden := Conj(Is(44), After(ByteAt, 54, Is(6)));
            Said(Go(After(ByteAt, 20, Choose(Is(6), Negated(LowerPorts6(port, None)), hidden)), p, r)) ==
            match Load(p, 20, 1)
            case None => Abort
            case Some(next) =>
              if next == 6 then IPv6Ports(port, None, p).Not()
              else if next == 44 then Field(p, 54, 1, 6)
              else False
  {
    var body, hidden := LowerPorts6(port, None), Conj(Is(44), After(ByteAt, 54, Is(6)));
    SaysAfter(ByteAt, 20, Choose(Is(6), Negated(body), hidden), p, r);
    match ByteAt.Fetch(p, r, 20)
    case None =>
    case Some(r') =>
      SaysChoose(6, Negated(body), hidden, p, r');
      SaysNegated(body, p, r');
      Ports6Means(port, None, p);
      SaysIs(44, p);
      SaysGuarded(Is(44), (n: nat) => n == 44, After(ByteAt, 54, Is(6)), p, r');
      EqualsMeans(ByteAt, 54, 6, p);
  }

  lemma TcpNotPortSays4(port: nat, p: Packet, r: Registers)
    ensures Said(Go(After(ByteAt, 23, Conj(Is(6), Negated(LowerPorts4(port, None)))), p, r)) ==
            match Load(p, 23, 1)
            case None => Abort
            case Some(number) => if number == 6 then IPv4Ports(port, None, p).Not() else False
  {
    var body := LowerPorts4(port, None);
    SaysAfter(ByteAt, 23, Conj(Is(6), Negated(body)), p, r);
    match ByteAt.Fetch(p, r, 23)
    case None =>
    case Some(r') =>
      SaysIs(6, p);
      SaysGuarded(Is(6), (n: nat) => n == 6, Negated(body), p, r');
      SaysNegated(body, p, r');
      Ports4Means(port, None, p);
  }

  lemma TcpAndNotPortTruth(port: nat, p: Packet)
    ensures TcpNotPortTruth(port, p) == True <==> Eval(And(Proto(Tcp), Not(Port(port, None))), p) == True
  {
    assert Eval(Not(Port(port, None)), p) == EvalPort(port, None, p).Not();
  }

  lemma TcpAndNotPortVerdict(p: Packet)
    ensures SameVerdict(And(Proto(Tcp), Not(Port(22, None))), TCP_AND_NOT_PORT_22, p)
  {
    TcpAndNotPortProgram();
    TcpAndNotPortComparison(22, TCP_AND_NOT_PORT_22, p);
  }

  lemma PortFits(port: nat)
    ensures var node := And(Proto(Tcp), Not(Port(port, None)));
            Reach(node, 0, 1) <= 255 && Size(node) <= 1000
  {
    assert Size(Port(port, None)) == 21 && Reach(Port(port, None), 1, 0) <= 255;
    assert Size(Not(Port(port, None))) == 21 && Reach(Not(Port(port, None)), 0, 1) <= 255;
  }

  lemma TcpAndNotPortComparison(port: nat, golden: Program, p: Packet)
    requires golden == Finished(TcpNotPort(port), ACCEPT_LENGTH, 0) && |golden| <= 1000
    ensures SameVerdict(And(Proto(Tcp), Not(Port(port, None))), golden, p)
  {
    TcpNotPortSays(port, p);
    TcpAndNotPortTruth(port, p);
    PortFits(port);
    Compare(And(Proto(Tcp), Not(Port(port, None))), golden, TcpNotPort(port), p);
  }

  function NotTcpOrUdpEnding(p: Packet): Outcome {
    match EtherType(p)
    case None => Rejected
    case Some(t) =>
      if t == ETHERTYPE_IPV6 then
        match Load(p, 20, 1) {
          case None => Rejected
          case Some(next) =>
            if next == 6 then Decline(true)
            else if next == 44 then
              match Load(p, 54, 1) {
                case None => Rejected
                case Some(hidden) => Decline(TcpOrUdp(hidden))
              }
            else Decline(next == 17)
        }
      else if t == ETHERTYPE_IPV4 then
        match Load(p, 23, 1) {
          case None => Rejected
          case Some(number) => Decline(TcpOrUdp(number))
        }
      else Decline(false)
  }

  // This program shares its last test between two branches, so it is run directly, from its end.

  function Decline(declined: bool): Outcome {
    Halted(if declined then 0 else ACCEPT_LENGTH)
  }

  /** How the run ends from every pc and value of A, with X at 0, as one function. */
  type Endings = (nat, nat) -> Outcome

  ghost predicate EndingsOf(e: Endings, prog: Program, p: Packet) {
    forall pc, a {:trigger Exec(prog, pc, a, 0, p)} :: e(pc, a) == Exec(prog, pc, a, 0, p)
  }

  lemma JumpRuns(e: Endings, prog: Program, p: Packet, pc: nat, k: nat, yes: nat, no: nat, a: nat)
    requires EndingsOf(e, prog, p) && pc < |prog| && pc < yes && pc < no
    requires prog[pc] == I(0x15, yes - pc - 1, no - pc - 1, k)
    ensures e(pc, a) == if a == k then e(yes, a) else e(no, a)
  {
    TestStep(Equal, k, yes - pc - 1, no - pc - 1, a, 0, p);
    var here := Exec(prog, pc, a, 0, p);
    if a == k {
      var there := Exec(prog, yes, a, 0, p);
    } else {
      var there := Exec(prog, no, a, 0, p);
    }
  }

  lemma LoadRuns(e: Endings, prog: Program, p: Packet, pc: nat, op: LoadOp, k: nat, next: nat, a: nat)
    requires EndingsOf(e, prog, p) && pc < |prog| && next == pc + 1 && prog[pc] == I(op.Code(), 0, 0, k)
    requires op.ByteAt? || op.HalfAt?
    ensures e(pc, a) == match Load(p, k, op.Size()) case None => Rejected case Some(v) => e(next, v)
  {
    LoadStep(op, k, Registers(a, 0), p);
    var here := Exec(prog, pc, a, 0, p);
    if Load(p, k, op.Size()).Some? {
      var there := Exec(prog, next, Load(p, k, op.Size()).value, 0, p);
    }
  }

  lemma ReturnRuns(e: Endings, prog: Program, p: Packet, pc: nat, k: nat, a: nat)
    requires EndingsOf(e, prog, p) && pc < |prog| && prog[pc] == I(0x06, 0, 0, k)
    ensures e(pc, a) == Halted(k)
  {
    DecodesReturn(0x06);
    var here := Exec(prog, pc, a, 0, p);
  }

  lemma LastTests(e: Endings, prog: Program, p: Packet, a: nat)
    requires EndingsOf(e, prog, p) && prog == NOT_TCP_OR_UDP
    ensures e(10, a) == Decline(a == 17)
    ensures e(9, a) == Decline(TcpOrUdp(a))
    ensures e(6, a) == Decline(TcpOrUdp(a))
    ensures e(11, a) == Decline(true) && e(12, a) == Decline(false)
  {
    ReturnRuns(e, prog, p, 11, 0, a);
    ReturnRuns(e, prog, p, 12, 0x40000, a);
    JumpRuns(e, prog, p, 10, 0x11, 11, 12, a);
    JumpRuns(e, prog, p, 9, 0x6, 11, 10, a);
    JumpRuns(e, prog, p, 6, 0x6, 11, 10, a);
  }

  lemma FragmentTests(e: Endings, prog: Program, p: Packet, a: nat)
    requires EndingsOf(e, prog, p) && prog == NOT_TCP_OR_UDP
    ensures e(3, a) ==
            if a == 6 then Decline(true)
            else if a == 44 then
              match Load(p, 54, 1) { case None => Rejected case Some(hidden) => Decline(TcpOrUdp(hidden)) }
            else Decline(a == 17)
  {
    JumpRuns(e, prog, p, 3, 0x6, 11, 4, a);
    JumpRuns(e, prog, p, 4, 0x2C, 5, 10, a);
    LoadRuns(e, prog, p, 5, ByteAt, 0x36, 6, a);
    LastTests(e, prog, p, a);
    if |p| > 54 {
      LastTests(e, prog, p, Load(p, 54, 1).value);
    }
  }

  lemma VersionTests(e: Endings, prog: Program, p: Packet, a: nat)
    requires EndingsOf(e, prog, p) && prog == NOT_TCP_OR_UDP
    ensures e(1, a) ==
            if a == ETHERTYPE_IPV6 then match Load(p, 20, 1) { case None => Rejected case Some(next) => e(3, next) }
            else if a == ETHERTYPE_IPV4 then
              match Load(p, 23, 1) { case None => Rejected case Some(number) => e(9, number) }
            else Decline(false)
  {
    JumpRuns(e, prog, p, 1, 0x86DD, 2, 7, a);
    JumpRuns(e, prog, p, 7, 0x800, 8, 12, a);
    LoadRuns(e, prog, p, 2, ByteAt, 0x14, 3, a);
    LoadRuns(e, prog, p, 8, ByteAt, 0x17, 9, a);
    LastTests(e, prog, p, a);
  }

  lemma NotTcpOrUdpRuns(e: Endings, prog: Program, p: Packet)
    requires EndingsOf(e, prog, p) && prog == NOT_TCP_OR_UDP
    ensures e(0, 0) == NotTcpOrUdpEnding(p)
  {
    LoadRuns(e, prog, p, 0, HalfAt, 12, 1, 0);
    if |p| >= 14 {
      VersionTests(e, prog, p, Load(p, 12, 2).value);
    }
    if |p| > 20 {
      FragmentTests(e, prog, p, Load(p, 20, 1).value);
    }
    if |p| > 23 {
      LastTests(e, prog, p, Load(p, 23, 1).value);
    }
  }

  lemma NotTcpOrUdpEnds(p: Packet)
    ensures Exec(NOT_TCP_OR_UDP, 0, 0, 0, p) == NotTcpOrUdpEnding(p)
  {
    var e: Endings := (pc: nat, a: nat) => Exec(NOT_TCP_OR_UDP, pc, a, 0, p);
    NotTcpOrUdpRuns(e, NOT_TCP_OR_UDP, p);
  }

  lemma NotTcpOrUdpTruth(p: Packet)
    ensures NotTcpOrUdpEnding(p) == Ending(Eval(Not(Or(Proto(Tcp), Proto(Udp))), p))
  {
  }

  lemma ShortAnswer(golden: Program, t: Truth, p: Packet)
    requires |golden| <= STEP_LIMIT && Exec(golden, 0, 0, 0, p) == Ending(t)
    ensures Answer(golden, p) == Accepting(t == True)
  {
  }

  lemma NotTcpOrUdpVerdict(p: Packet)
    ensures SameVerdict(Not(Or(Proto(Tcp), Proto(Udp))), NOT_TCP_OR_UDP, p)
  {
    NotTcpOrUdpEnds(p);
    NotTcpOrUdpTruth(p);
    NotTcpOrUdpFits();
    CompareEnding(Not(Or(Proto(Tcp), Proto(Udp))), NOT_TCP_OR_UDP, p);
  }

  lemma NotTcpOrUdpFits()
    ensures var node := Not(Or(Proto(Tcp), Proto(Udp))); Reach(node, 0, 1) <= 255 && Size(node) <= 1000
  {
    assert Size(Or(Proto(Tcp), Proto(Udp))) == 24 && Reach(Or(Proto(Tcp), Proto(Udp)), 1, 0) <= 255;
  }

  lemma CompareEnding(node: Node, golden: Program, p: Packet)
    requires Reach(node, 0, 1) <= 255 && Size(node) <= 1000
    requires |golden| <= STEP_LIMIT && Exec(golden, 0, 0, 0, p) == Ending(Eval(node, p))
    ensures SameVerdict(node, golden, p)
  {
    ShortAnswer(golden, Eval(node, p), p);
    CompiledVerdict(node, p);
  }

  /** Bare `host` differs from tcpdump's exactly on the ARP and RARP frames that carry the address. */
  lemma HostVerdicts(p: Packet)
    ensures SameVerdict(Host(0xC0A80160, None), HOST_96, p) <==> !ArpCarries(0xC0A80160, None, p)
    ensures SameVerdict(Host(0xC0A80160, Some(Src)), SRC_HOST_96, p) <==> !ArpCarries(0xC0A80160, Some(Src), p)
    ensures SameVerdict(Host(0xC0A801FE, Some(Dst)), DST_HOST_254, p) <==> !ArpCarries(0xC0A801FE, Some(Dst), p)
  {
    HostProgram();
    SrcHostProgram();
    DstHostProgram();
    HostOnceSays(0xC0A80160, None, p);
    HostOnceSays(0xC0A80160, Some(Src), p);
    HostOnceSays(0xC0A801FE, Some(Dst), p);
    Compare(Host(0xC0A80160, None), HOST_96, HostOnce(0xC0A80160, None), p);
    Compare(Host(0xC0A80160, Some(Src)), SRC_HOST_96, HostOnce(0xC0A80160, Some(Src)), p);
    Compare(Host(0xC0A801FE, Some(Dst)), DST_HOST_254, HostOnce(0xC0A801FE, Some(Dst)), p);
  }

  /**
  Where tcpdump's bare `port` and the compiled one part: tcpdump also takes SCTP, and it insists
  on EtherType 0x0800 where the compiled program reads every other frame as IPv4.
  */
  predicate PortParts(port: nat, direction: Option<Direction>, p: Packet) {
    match EtherType(p)
    case None => false
    case Some(t) =>
      if t == ETHERTYPE_IPV6 then Field(p, 20, 1, 132) == True && IPv6Ports(port, direction, p) == True
      else if t == ETHERTYPE_IPV4 then Field(p, 23, 1, 132) == True && IPv4Ports(port, direction, p) == True
      else EvalPort4(port, direction, p) == True
  }

  lemma SctpGuards(p: Packet)
    ensures Guards(SctpToo(), (n: nat) => n == 6 || n == 17 || n == 132, p)
  {
  }

  lemma PortComparison(port: nat, direction: Option<Direction>, golden: Program, p: Packet)
    requires golden == Finished(PortsBehind(SctpToo(), SctpToo(), port, direction), ACCEPT_LENGTH, 0)
    requires |golden| <= 1000
    ensures SameVerdict(Port(port, direction), golden, p) <==> !PortParts(port, direction, p)
  {
    var on := (n: nat) => n == 6 || n == 17 || n == 132;
    SctpGuards(p);
    PortsBehindSays(SctpToo(), on, SctpToo(), on, port, direction, p);
    Compare(Port(port, direction), golden, PortsBehind(SctpToo(), SctpToo(), port, direction), p);
  }

  /** Bare `port` differs from tcpdump's exactly where `PortParts` says. */
  lemma PortVerdicts(p: Packet)
    ensures SameVerdict(Port(80, None), PORT_80, p) <==> !PortParts(80, None, p)
    ensures SameVerdict(Port(51888, Some(Src)), SRC_PORT_51888, p) <==> !PortParts(51888, Some(Src), p)
    ensures SameVerdict(Port(80, Some(Dst)), DST_PORT_80, p) <==> !PortParts(80, Some(Dst), p)
  {
    PortPrograms();
    PortComparison(80, None, PORT_80, p);
    PortComparison(51888, Some(Src), SRC_PORT_51888, p);
    PortComparison(80, Some(Dst), DST_PORT_80, p);
  }

  /**
  The frames only the compiled `port` takes are exactly those of other EtherTypes that read as
  IPv4 with the port.
  */
  lemma OtherEtherTypes(port: nat, direction: Option<Direction>, golden: Program, p: Packet)
    requires golden == Finished(PortsBehind(SctpToo(), SctpToo(), port, direction), ACCEPT_LENGTH, 0)
    requires |golden| <= 1000
    ensures Assembled(Port(port, direction)).Success?
    ensures
      && Answer(Assembled(Port(port, direction)).value, p) == Accepting(true)
      && Answer(golden, p) == Accepting(false)
      <==>
      && EtherType(p).Some? && EtherType(p).value != ETHERTYPE_IPV4 && EtherType(p).value != ETHERTYPE_IPV6
      && EvalPort4(port, direction, p) == True
  {
    PortAnswers(port, direction, golden, p);
  }

  /** The frames only tcpdump's `port` takes are exactly those of SCTP with the port. */
  lemma OnlySctp(port: nat, direction: Option<Direction>, golden: Program, p: Packet)
    requires golden == Finished(PortsBehind(SctpToo(), SctpToo(), port, direction), ACCEPT_LENGTH, 0)
    requires |golden| <= 1000
    ensures Assembled(Port(port, direction)).Success?
    ensures
      && Answer(Assembled(Port(port, direction)).value, p) == Accepting(false)
      && Answer(golden, p) == Accepting(true)
      <==>
      || (EtherType(p) == Some(ETHERTYPE_IPV6) && Field(p, 20, 1, 132) == True && IPv6Ports(port, direction, p) == True)
      || (EtherType(p) == Some(ETHERTYPE_IPV4) && Field(p, 23, 1, 132) == True && IPv4Ports(port, direction, p) == True)
  {
    PortAnswers(port, direction, golden, p);
  }

  /** An EtherType of neither version. */
  lemma NeitherVersion(p: Packet)
    requires Field(p, 12, 2, ETHERTYPE_IPV4) == Field(p, 12, 2, ETHERTYPE_IPV6) == False
    ensures EtherType(p).Some? && EtherType(p).value != ETHERTYPE_IPV4 && EtherType(p).value != ETHERTYPE_IPV6
  {
  }

  /** There are such frames: the compiled `port 80` accepts this one, and tcpdump's refuses it. */
  lemma NotASubset() returns (p: Packet)
    ensures Assembled(Port(80, None)).Success?
    ensures Answer(Assembled(Port(80, None)).value, p) == Accepting(true) && Answer(PORT_80, p) == Accepting(false)
  {
    p := PortIgnoresEtherType();
    NeitherVersion(p);
    PortPrograms();
    OtherEtherTypes(80, None, PORT_80, p);
  }

  lemma SctpFrame() returns (p: Packet)
    ensures EtherType(p) == Some(ETHERTYPE_IPV4) && Field(p, 23, 1, 132) == True
    ensures |p| >= 22 && IPv4Ports(80, None, p) == True
  {
    p := seq(36, i => if i == 12 then 8 else if i == 23 then 132 else if i == 15 then 80 else 0);
    assert p[12..14] == [8, 0] && p[20..22] == [0, 0] && p[23..24] == [132] && p[14..16] == [0, 80];
    Big2(8, 0);
    Big2(0, 0);
    Big1(132);
    Big2(0, 80);
  }

  /** Nor a superset: an SCTP frame over IPv4. */
  lemma NotASuperset() returns (p: Packet)
    ensures Assembled(Port(80, None)).Success?
    ensures Answer(Assembled(Port(80, None)).value, p) == Accepting(false) && Answer(PORT_80, p) == Accepting(true)
  {
    p := SctpFrame();
    PortPrograms();
    OnlySctp(80, None, PORT_80, p);
  }

  /** What each of the two programs answers. */
  lemma PortAnswers(port: nat, direction: Option<Direction>, golden: Program, p: Packet)
    requires golden == Finished(PortsBehind(SctpToo(), SctpToo(), port, direction), ACCEPT_LENGTH, 0)
    requires |golden| <= 1000
    ensures var on := (n: nat) => n == 6 || n == 17 || n == 132;
            Answer(golden, p) == Accepting(PortsWhere(on, on, port, direction, p) == True)
    ensures Assembled(Port(port, direction)).Success?
    ensures Answer(Assembled(Port(port, direction)).value, p) == Accepting(EvalPort(port, direction, p) == True)
  {
    var on := (n: nat) => n == 6 || n == 17 || n == 132;
    SctpGuards(p);
    PortsBehindSays(SctpToo(), on, SctpToo(), on, port, direction, p);
    ConditionVerdict(golden, PortsBehind(SctpToo(), SctpToo(), port, direction), false, p);
    CompiledVerdict(Port(port, direction), p);
  }

  /** SCTP over IPv4 between the named host and port, which only tcpdump's `port` takes. */
  predicate SctpBetween(addr: nat, host: Option<Direction>, port: nat, direction: Option<Direction>, p: Packet) {
    EvalHost(addr, host, p) == True && Field(p, 23, 1, 132) == True && IPv4Ports(port, direction, p) == True
  }

  lemma HostAndPortComparison(addr: nat, host: Option<Direction>, port: nat, direction: Option<Direction>,
                              golden: Program, p: Packet)
    requires golden == Finished(HostAndPort(addr, host, port, direction), ACCEPT_LENGTH, 0)
    requires |golden| <= 1000
    ensures SameVerdict(And(Host(addr, host), Port(port, direction)), golden, p) <==>
            !SctpBetween(addr, host, port, direction, p)
  {
    HostAndPortSays(addr, host, port, direction, p);
    HostAndPortTruth(addr, host, port, direction, p);
    HostAndPortFits(addr, host, port, direction);
    Compare(And(Host(addr, host), Port(port, direction)), golden, HostAndPort(addr, host, port, direction), p);
  }

  lemma HostAndPortFits(addr: nat, host: Option<Direction>, port: nat, direction: Option<Direction>)
    ensures var node := And(Host(addr, host), Port(port, direction));
            Reach(node, 0, 1) <= 255 && Size(node) <= 1000
  {
  }

  lemma HostAndPortTruth(addr: nat, host: Option<Direction>, port: nat, direction: Option<Direction>, p: Packet)
    ensures (EvalHost(addr, host, p).And(SctpPorts4(port, direction, p)) == True
             <==> Eval(And(Host(addr, host), Port(port, direction)), p) == True)
            <==> !SctpBetween(addr, host, port, direction, p)
  {
  }

  lemma HostAndPortVerdicts(p: Packet)
    ensures SameVerdict(And(Host(0xC0A80160, None), Port(443, None)), HOST_96_AND_PORT_443, p) <==>
            !SctpBetween(0xC0A80160, None, 443, None, p)
    ensures SameVerdict(And(Host(0xC0A80160, Some(Src)), Port(80, Some(Dst))), SRC_HOST_96_AND_DST_PORT_80, p) <==>
            !SctpBetween(0xC0A80160, Some(Src), 80, Some(Dst), p)
  {
    HostAndPortProgram();
    SrcHostAndDstPortProgram();
    HostAndPortComparison(0xC0A80160, None, 443, None, HOST_96_AND_PORT_443, p);
    HostAndPortComparison(0xC0A80160, Some(Src), 80, Some(Dst), SRC_HOST_96_AND_DST_PORT_80, p);
  }
}
