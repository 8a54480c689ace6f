/**
tcpdump's optimized programs as the label-free code of conditions that load a field once and test
it several times.
*/
module Layouts {
  import opened Wrappers
  import opened Vm
  import opened Filter
  import opened Conditions
  import opened Lowering
  import opened Emission
  import opened Golden

  function HostOnce(addr: nat, direction: Option<Direction>): Cond {
    After(HalfAt, 12,
      Choose(Is(0x0800),
        LowerPick(direction, Equals(WordAt, 26, addr), Equals(WordAt, 30, addr)),
        Conj(Disj(Is(0x0806), Is(0x8035)),
             LowerPick(direction, Equals(WordAt, 28, addr), Equals(WordAt, 38, addr)))))
  }

  /** A test of the IPv6 next header, and one of the protocol of IPv4. */
  function Guarded(six: Cond, four: Cond): Cond {
    After(HalfAt, 12,
      Choose(Is(0x86DD), After(ByteAt, 20, six), Conj(Is(0x0800), After(ByteAt, 23, four))))
  }

  /** A transport protocol behind a Fragment header. */
  function Hidden(number: nat): Cond {
    Conj(Is(44), After(ByteAt, 54, Is(number)))
  }

  function TransportOnce(number: nat): Cond {
    Guarded(Disj(Is(number), Hidden(number)), Is(number))
  }

  /** The ports of IPv6 and of IPv4, each behind a condition on the transport protocol. */
  function PortsBehind(six: Cond, four: Cond, port: nat, direction: Option<Direction>): Cond {
    Guarded(Conj(six, LowerPorts6(port, direction)), Conj(four, LowerPorts4(port, direction)))
  }

  /** SCTP, TCP or UDP. */
  function SctpToo(): Cond {
    Disj(Is(132), Disj(Is(6), Is(17)))
  }

  function NotFragmentHeader(): Cond {
    Disj(Is(6), Conj(Negated(Is(44)), Is(17)))
  }

  /** A test of the addresses of IPv4, and one of its protocol. */
  function HostsBefore(hosts: Cond, body: Cond): Cond {
    After(HalfAt, 12, Conj(Is(0x0800), Conj(hosts, After(ByteAt, 23, body))))
  }

  function HostAndPort(addr: nat, host: Option<Direction>, port: nat, direction: Option<Direction>): Cond {
    HostsBefore(LowerPick(host, Equals(WordAt, 26, addr), Equals(WordAt, 30, addr)),
                Conj(SctpToo(), LowerPorts4(port, direction)))
  }

  function UdpOrIcmpOnce(): Cond {
    Guarded(Disj(Is(17), Hidden(17)), Disj(Is(17), Is(1)))
  }

  function TcpNotPort(port: nat): Cond {
    Guarded(Choose(Is(6), Negated(LowerPorts6(port, None)), Hidden(6)), Conj(Is(6), Negated(LowerPorts4(port, None))))
  }

  // tcpdump's programs are the code of these conditions.

  lemma IcmpProgram()
    ensures ICMP == Finished(After(HalfAt, 12, Conj(Is(0x0800), Equals(ByteAt, 23, 1))), ACCEPT_LENGTH, 0)
  {
  }

  lemma EtherTypePrograms()
    ensures ARP == CANNED_ARP == Finished(Equals(HalfAt, 12, 0x0806), ACCEPT_LENGTH, 0)
    ensures IP == Finished(Equals(HalfAt, 12, 0x0800), ACCEPT_LENGTH, 0)
    ensures IP6 == CANNED_IP6 == Finished(Equals(HalfAt, 12, 0x86DD), ACCEPT_LENGTH, 0)
    ensures NOT_ARP == Finished(Equals(HalfAt, 12, 0x0806), 0, ACCEPT_LENGTH)
  {
  }

  lemma HostProgram()
    ensures HOST_96 == Finished(HostOnce(0xC0A80160, None), ACCEPT_LENGTH, 0)
  {
  }

  lemma SrcHostProgram()
    ensures SRC_HOST_96 == Finished(HostOnce(0xC0A80160, Some(Src)), ACCEPT_LENGTH, 0)
  {
  }

  lemma DstHostProgram()
    ensures DST_HOST_254 == Finished(HostOnce(0xC0A801FE, Some(Dst)), ACCEPT_LENGTH, 0)
  {
  }

  /** The code of every condition, as one function. */
  type Coding = (Cond, nat, nat) -> Program

  ghost predicate Codings(a: Coding) {
    forall c, dT, dF {:trigger Asm(c, dT, dF)} :: a(c, dT, dF) == Asm(c, dT, dF)
  }

  lemma CodedIs(a: Coding, value: nat, dT: nat, dF: nat)
    requires Codings(a)
    ensures a(Is(value), dT, dF) == [I(0x15, dT, dF, value)]
  {
    var here := Asm(Is(value), dT, dF);
  }

  lemma CodedAfter(a: Coding, op: LoadOp, k: nat, body: Cond, dT: nat, dF: nat)
    requires Codings(a)
    ensures a(After(op, k, body), dT, dF) == [I(op.Code(), 0, 0, k)] + a(body, dT, dF)
    ensures Len(After(op, k, body)) == 1 + Len(body)
  {
    var here, inner := Asm(After(op, k, body), dT, dF), Asm(body, dT, dF);
  }

  lemma CodedConj(a: Coding, left: Cond, right: Cond, n: nat, dT: nat, dF: nat, far: nat)
    requires Codings(a) && n == Len(right) && far == n + dF
    ensures a(Conj(left, right), dT, dF) == a(left, 0, far) + a(right, dT, dF)
    ensures Len(Conj(left, right)) == Len(left) + n
  {
    var here, first, second := Asm(Conj(left, right), dT, dF), Asm(left, 0, far), Asm(right, dT, dF);
  }

  lemma Coded(a: Coding, c: Cond, dT: nat, dF: nat)
    requires Codings(a)
    ensures a(c, dT, dF) == Asm(c, dT, dF)
  {
  }

  lemma CodedChoose(a: Coding, test: Cond, yes: Cond, no: Cond, y: nat, n: nat, dT: nat, dF: nat, farT: nat, farF: nat)
    requires Codings(a) && y == Len(yes) && n == Len(no) && farT == n + dT && farF == n + dF
    ensures a(Choose(test, yes, no), dT, dF) == a(test, 0, y) + (a(yes, farT, farF) + a(no, dT, dF))
  {
    Coded(a, Choose(test, yes, no), dT, dF);
    Coded(a, test, 0, y);
    Coded(a, yes, farT, farF);
    Coded(a, no, dT, dF);
    ChooseAsm(test, yes, no, y, n, dT, dF, farT, farF);
  }

  lemma Flatten(i: SockFilter, j: SockFilter, k: SockFilter, six: Program, l: SockFilter, m: SockFilter, four: Program,
                whole: Program)
    requires whole == [i] + ([j] + (([k] + six) + ([l] + ([m] + four))))
    ensures whole == [i, j, k] + six + [l, m] + four
  {
  }

  /** A test of the IPv4 protocol. */
  lemma FourLayout(a: Coding, four: Cond, n: nat)
    requires Codings(a) && n == Len(four)
    ensures var c := Conj(Is(0x0800), After(ByteAt, 23, four));
            a(c, 0, 1) == [I(0x15, 0, 2 + n, 0x0800)] + ([I(0x30, 0, 0, 23)] + a(four, 0, 1)) && Len(c) == 2 + n
  {
    CodedAfter(a, ByteAt, 23, four, 0, 1);
    CodedConj(a, Is(0x0800), After(ByteAt, 23, four), 1 + n, 0, 1, 2 + n);
    CodedIs(a, 0x0800, 0, 2 + n);
  }

  /** The layout of `Guarded`: the IPv6 part, the IPv4 part, and the instructions between them. */
  lemma GuardedLayout(a: Coding, six: Cond, four: Cond, n6: nat, n4: nat)
    requires Codings(a) && n6 == Len(six) && n4 == Len(four)
    ensures a(Guarded(six, four), 0, 1) ==
            [I(0x28, 0, 0, 12), I(0x15, 0, 1 + n6, 0x86DD), I(0x30, 0, 0, 20)]
            + a(six, 2 + n4, 3 + n4) + [I(0x15, 0, 2 + n4, 0x0800), I(0x30, 0, 0, 23)] + a(four, 0, 1)
  {
    var yes, no := After(ByteAt, 20, six), Conj(Is(0x0800), After(ByteAt, 23, four));
    FourLayout(a, four, n4);
    CodedAfter(a, ByteAt, 20, six, 2 + n4, 3 + n4);
    CodedIs(a, 0x86DD, 0, 1 + n6);
    CodedChoose(a, Is(0x86DD), yes, no, 1 + n6, 2 + n4, 0, 1, 2 + n4, 3 + n4);
    CodedAfter(a, HalfAt, 12, Choose(Is(0x86DD), yes, no), 0, 1);
    Flatten(I(0x28, 0, 0, 12), I(0x15, 0, 1 + n6, 0x86DD), I(0x30, 0, 0, 20), a(six, 2 + n4, 3 + n4),
            I(0x15, 0, 2 + n4, 0x0800), I(0x30, 0, 0, 23), a(four, 0, 1), a(Guarded(six, four), 0, 1));
  }

  lemma GuardAsm(guard: Cond, body: Cond, dT: nat, dF: nat)
    ensures Asm(Conj(guard, body), dT, dF) == Asm(guard, 0, Len(body) + dF) + Asm(body, dT, dF)
    ensures Len(Conj(guard, body)) == Len(guard) + Len(body)
  {
  }

  lemma EqualsAsm(op: LoadOp, k: nat, value: nat, dT: nat, dF: nat)
    ensures Asm(Equals(op, k, value), dT, dF) == [I(op.Code(), 0, 0, k), I(0x15, dT, dF, value)]
  {
    assert Asm(Is(value), dT, dF) == [I(0x15, dT, dF, value)];
  }

  /** The tests in front of the port of an IPv4 datagram. */
  lemma PastHeaderAsm(ports: Cond, dT: nat, dF: nat)
    ensures Asm(Conj(FirstFragment(), After(HeaderLength, 14, ports)), dT, dF) ==
            [I(0x28, 0, 0, 20), I(0x45, 1 + Len(ports) + dF, 0, 0x1FFF), I(0xB1, 0, 0, 14)] + Asm(ports, dT, dF)
  {
    var body := After(HeaderLength, 14, ports);
    var far := Len(body) + dF;
    assert Asm(Test(NoBits, 0x1FFF), 0, far) == [I(0x45, far, 0, 0x1FFF)];
    assert Asm(FirstFragment(), 0, far) == [I(0x28, 0, 0, 20)] + [I(0x45, far, 0, 0x1FFF)];
    assert Asm(body, dT, dF) == [I(0xB1, 0, 0, 14)] + Asm(ports, dT, dF);
  }

  lemma EitherAsm(op: LoadOp, src: nat, dst: nat, port: nat, dT: nat, dF: nat)
    ensures var c := Disj(Equals(op, src, port), Equals(op, dst, port));
            && Len(c) == 4
            && Asm(c, dT, dF) == [I(op.Code(), 0, 0, src), I(0x15, 2 + dT, 0, port),
                                  I(op.Code(), 0, 0, dst), I(0x15, dT, dF, port)]
  {
    EqualsAsm(op, src, port, 2 + dT, 0);
    EqualsAsm(op, dst, port, dT, dF);
  }

  lemma BothPorts(port: nat, dT: nat, dF: nat)
    ensures Asm(LowerPorts6(port, None), dT, dF) ==
            [I(0x28, 0, 0, 54), I(0x15, 2 + dT, 0, port), I(0x28, 0, 0, 56), I(0x15, dT, dF, port)]
    ensures Asm(LowerPorts4(port, None), dT, dF) ==
            [I(0x28, 0, 0, 20), I(0x45, 5 + dF, 0, 0x1FFF), I(0xB1, 0, 0, 14),
             I(0x48, 0, 0, 14), I(0x15, 2 + dT, 0, port), I(0x48, 0, 0, 16), I(0x15, dT, dF, port)]
    ensures Len(LowerPorts6(port, None)) == 4 && Len(LowerPorts4(port, None)) == 7
  {
    EitherAsm(HalfAt, 54, 56, port, dT, dF);
    EitherAsm(HalfPastHeader, 14, 16, port, dT, dF);
    PastHeaderAsm(LowerPick(None, Equals(HalfPastHeader, 14, port), Equals(HalfPastHeader, 16, port)), dT, dF);
    assert Len(LowerPastHeader(port, None)) == 5;
  }

  lemma OnePort(port: nat, direction: Direction, dT: nat, dF: nat)
    ensures Asm(LowerPorts6(port, Some(direction)), dT, dF) ==
            [I(0x28, 0, 0, if direction.Src? then 54 else 56), I(0x15, dT, dF, port)]
    ensures Asm(LowerPorts4(port, Some(direction)), dT, dF) ==
            [I(0x28, 0, 0, 20), I(0x45, 3 + dF, 0, 0x1FFF), I(0xB1, 0, 0, 14),
             I(0x48, 0, 0, if direction.Src? then 14 else 16), I(0x15, dT, dF, port)]
    ensures Len(LowerPorts6(port, Some(direction))) == 2 && Len(LowerPorts4(port, Some(direction))) == 5
  {
    var ports := Equals(HalfPastHeader, if direction.Src? then 14 else 16, port);
    EqualsAsm(HalfAt, if direction.Src? then 54 else 56, port, dT, dF);
    EqualsAsm(HalfPastHeader, if direction.Src? then 14 else 16, port, dT, dF);
    PastHeaderAsm(ports, dT, dF);
    assert Len(ports) == 2 && Len(LowerPastHeader(port, Some(direction))) == 3;
  }

  lemma OneOrTwo(v: nat, w: nat, dT: nat, dF: nat)
    ensures Asm(Disj(Is(v), Is(w)), dT, dF) == [I(0x15, 1 + dT, 0, v), I(0x15, dT, dF, w)]
    ensures Len(Disj(Is(v), Is(w))) == 2
  {
    assert Asm(Is(v), 1 + dT, 0) == [I(0x15, 1 + dT, 0, v)] && Asm(Is(w), dT, dF) == [I(0x15, dT, dF, w)];
  }

  lemma SctpGuard(d: nat)
    ensures Asm(SctpToo(), 0, d) == [I(0x15, 2, 0, 132), I(0x15, 1, 0, 6), I(0x15, 0, d, 17)]
    ensures Len(SctpToo()) == 3
  {
    OneOrTwo(6, 17, 0, d);
    assert Asm(Is(132), 2, 0) == [I(0x15, 2, 0, 132)];
  }

  lemma TcpOrUdpGuards(d: nat)
    ensures Asm(NotFragmentHeader(), 0, d) == [I(0x15, 2, 0, 6), I(0x15, d + 1, 0, 44), I(0x15, 0, d, 17)]
    ensures Asm(Disj(Is(6), Is(17)), 0, d) == [I(0x15, 1, 0, 6), I(0x15, 0, d, 17)]
    ensures Len(NotFragmentHeader()) == 3 && Len(Disj(Is(6), Is(17))) == 2
  {
    OneOrTwo(6, 17, 0, d);
    assert Asm(Is(44), 1 + d, 0) == [I(0x15, 1 + d, 0, 44)];
    assert Asm(Negated(Is(44)), 0, 1 + d) == [I(0x15, 1 + d, 0, 44)];
    assert Asm(Is(17), 0, d) == [I(0x15, 0, d, 17)];
    assert Asm(Conj(Negated(Is(44)), Is(17)), 0, d) == [I(0x15, 1 + d, 0, 44), I(0x15, 0, d, 17)];
    assert Asm(Is(6), 2, 0) == [I(0x15, 2, 0, 6)];
  }

  /** The same, given the codes of the two tests. */
  lemma GuardedCode(six: Cond, four: Cond, s6: Program, s4: Program, n6: nat, n4: nat)
    requires s6 == Asm(six, 2 + n4, 3 + n4) && s4 == Asm(four, 0, 1) && n6 == Len(six) && n4 == Len(four)
    ensures Finished(Guarded(six, four), ACCEPT_LENGTH, 0) ==
            [I(0x28, 0, 0, 12), I(0x15, 0, 1 + n6, 0x86DD), I(0x30, 0, 0, 20)]
            + s6 + [I(0x15, 0, 2 + n4, 0x0800), I(0x30, 0, 0, 23)] + s4
            + [I(0x06, 0, 0, ACCEPT_LENGTH), I(0x06, 0, 0, 0)]
  {
    var a: Coding := (c: Cond, dT: nat, dF: nat) => Asm(c, dT, dF);
    GuardedLayout(a, six, four, n6, n4);
  }

  /** Bare `port` of one direction, for any port. */
  lemma OnePortProgram(port: nat, direction: Direction)
    ensures Finished(PortsBehind(SctpToo(), SctpToo(), port, Some(direction)), ACCEPT_LENGTH, 0) ==
            [I(0x28, 0, 0, 12), I(0x15, 0, 6, 0x86DD), I(0x30, 0, 0, 20)]
            + ([I(0x15, 2, 0, 132), I(0x15, 1, 0, 6), I(0x15, 0, 13, 17)]
               + [I(0x28, 0, 0, if direction.Src? then 54 else 56), I(0x15, 10, 11, port)])
            + [I(0x15, 0, 10, 0x0800), I(0x30, 0, 0, 23)]
            + ([I(0x15, 2, 0, 132), I(0x15, 1, 0, 6), I(0x15, 0, 6, 17)]
               + [I(0x28, 0, 0, 20), I(0x45, 4, 0, 0x1FFF), I(0xB1, 0, 0, 14),
                  I(0x48, 0, 0, if direction.Src? then 14 else 16), I(0x15, 0, 1, port)])
            + [I(0x06, 0, 0, ACCEPT_LENGTH), I(0x06, 0, 0, 0)]
  {
    var p6, p4 := LowerPorts6(port, Some(direction)), LowerPorts4(port, Some(direction));
    SctpGuard(13);
    SctpGuard(6);
    OnePort(port, direction, 10, 11);
    OnePort(port, direction, 0, 1);
    GuardAsm(SctpToo(), p6, 10, 11);
    GuardAsm(SctpToo(), p4, 0, 1);
    GuardedCode(Conj(SctpToo(), p6), Conj(SctpToo(), p4),
                Asm(SctpToo(), 0, 13) + Asm(p6, 10, 11),
                Asm(SctpToo(), 0, 6) + Asm(p4, 0, 1), 5, 8);
  }

  /** Bare `port` of both directions, for any port. */
  lemma BothPortsProgram(port: nat)
    ensures Finished(PortsBehind(SctpToo(), SctpToo(), port, None), ACCEPT_LENGTH, 0) ==
            [I(0x28, 0, 0, 12), I(0x15, 0, 8, 0x86DD), I(0x30, 0, 0, 20)]
            + ([I(0x15, 2, 0, 132), I(0x15, 1, 0, 6), I(0x15, 0, 17, 17)]
               + [I(0x28, 0, 0, 54), I(0x15, 14, 0, port), I(0x28, 0, 0, 56), I(0x15, 12, 13, port)])
            + [I(0x15, 0, 12, 0x0800), I(0x30, 0, 0, 23)]
            + ([I(0x15, 2, 0, 132), I(0x15, 1, 0, 6), I(0x15, 0, 8, 17)]
               + [I(0x28, 0, 0, 20), I(0x45, 6, 0, 0x1FFF), I(0xB1, 0, 0, 14),
                  I(0x48, 0, 0, 14), I(0x15, 2, 0, port), I(0x48, 0, 0, 16), I(0x15, 0, 1, port)])
            + [I(0x06, 0, 0, ACCEPT_LENGTH), I(0x06, 0, 0, 0)]
  {
    var p6, p4 := LowerPorts6(port, None), LowerPorts4(port, None);
    SctpGuard(17);
    SctpGuard(8);
    BothPorts(port, 12, 13);
    BothPorts(port, 0, 1);
    GuardAsm(SctpToo(), p6, 12, 13);
    GuardAsm(SctpToo(), p4, 0, 1);
    GuardedCode(Conj(SctpToo(), p6), Conj(SctpToo(), p4),
                Asm(SctpToo(), 0, 17) + Asm(p6, 12, 13),
                Asm(SctpToo(), 0, 8) + Asm(p4, 0, 1), 7, 10);
  }

  lemma PortPrograms()
    ensures PORT_80 == Finished(PortsBehind(SctpToo(), SctpToo(), 80, None), ACCEPT_LENGTH, 0)
    ensures SRC_PORT_51888 == Finished(PortsBehind(SctpToo(), SctpToo(), 51888, Some(Src)), ACCEPT_LENGTH, 0)
    ensures DST_PORT_80 == Finished(PortsBehind(SctpToo(), SctpToo(), 80, Some(Dst)), ACCEPT_LENGTH, 0)
  {
    BothPortsProgram(80);
    OnePortProgram(51888, Src);
    OnePortProgram(80, Dst);
  }

  lemma TcpAndPortProgram(port: nat)
    ensures Finished(PortsBehind(Is(6), Is(6), port, None), ACCEPT_LENGTH, 0) ==
            [I(0x28, 0, 0, 12), I(0x15, 0, 6, 0x86DD), I(0x30, 0, 0, 20)]
            + ([I(0x15, 0, 15, 6)]
               + [I(0x28, 0, 0, 54), I(0x15, 12, 0, port), I(0x28, 0, 0, 56), I(0x15, 10, 11, port)])
            + [I(0x15, 0, 10, 0x0800), I(0x30, 0, 0, 23)]
            + ([I(0x15, 0, 8, 6)]
               + [I(0x28, 0, 0, 20), I(0x45, 6, 0, 0x1FFF), I(0xB1, 0, 0, 14),
                  I(0x48, 0, 0, 14), I(0x15, 2, 0, port), I(0x48, 0, 0, 16), I(0x15, 0, 1, port)])
            + [I(0x06, 0, 0, ACCEPT_LENGTH), I(0x06, 0, 0, 0)]
  {
    var p6, p4 := LowerPorts6(port, None), LowerPorts4(port, None);
    BothPorts(port, 10, 11);
    BothPorts(port, 0, 1);
    assert Asm(Is(6), 0, 15) == [I(0x15, 0, 15, 6)] && Asm(Is(6), 0, 8) == [I(0x15, 0, 8, 6)];
    GuardAsm(Is(6), p6, 10, 11);
    GuardAsm(Is(6), p4, 0, 1);
    GuardedCode(Conj(Is(6), p6), Conj(Is(6), p4),
                Asm(Is(6), 0, 15) + Asm(p6, 10, 11),
                Asm(Is(6), 0, 8) + Asm(p4, 0, 1), 5, 8);
  }

  lemma TcpOrUdpAndPortProgram(port: nat)
    ensures Finished(PortsBehind(NotFragmentHeader(), Disj(Is(6), Is(17)), port, None), ACCEPT_LENGTH, 0) ==
            [I(0x28, 0, 0, 12), I(0x15, 0, 8, 0x86DD), I(0x30, 0, 0, 20)]
            + ([I(0x15, 2, 0, 6), I(0x15, 17, 0, 44), I(0x15, 0, 16, 17)]
               + [I(0x28, 0, 0, 54), I(0x15, 13, 0, port), I(0x28, 0, 0, 56), I(0x15, 11, 12, port)])
            + [I(0x15, 0, 11, 0x0800), I(0x30, 0, 0, 23)]
            + ([I(0x15, 1, 0, 6), I(0x15, 0, 8, 17)]
               + [I(0x28, 0, 0, 20), I(0x45, 6, 0, 0x1FFF), I(0xB1, 0, 0, 14),
                  I(0x48, 0, 0, 14), I(0x15, 2, 0, port), I(0x48, 0, 0, 16), I(0x15, 0, 1, port)])
            + [I(0x06, 0, 0, ACCEPT_LENGTH), I(0x06, 0, 0, 0)]
  {
    var p6, p4 := LowerPorts6(port, None), LowerPorts4(port, None);
    var either := Disj(Is(6), Is(17));
    TcpOrUdpGuards(16);
    TcpOrUdpGuards(8);
    BothPorts(port, 11, 12);
    BothPorts(port, 0, 1);
    GuardAsm(NotFragmentHeader(), p6, 11, 12);
    GuardAsm(either, p4, 0, 1);
    GuardedCode(Conj(NotFragmentHeader(), p6), Conj(either, p4),
                Asm(NotFragmentHeader(), 0, 16) + Asm(p6, 11, 12),
                Asm(either, 0, 8) + Asm(p4, 0, 1), 7, 9);
  }

  /** A next header, looked for past one Fragment header. */
  lemma NextHeaderAsm(number: nat, dT: nat, dF: nat)
    ensures Asm(Hidden(number), dT, dF) ==
            [I(0x15, 0, 2 + dF, 44), I(0x30, 0, 0, 54), I(0x15, dT, dF, number)]
    ensures Asm(Disj(Is(number), Hidden(number)), dT, dF) ==
            [I(0x15, 3 + dT, 0, number), I(0x15, 0, 2 + dF, 44), I(0x30, 0, 0, 54), I(0x15, dT, dF, number)]
    ensures Len(Hidden(number)) == 3 && Len(Disj(Is(number), Hidden(number))) == 4
  {
    EqualsAsm(ByteAt, 54, number, dT, dF);
    assert Len(Equals(ByteAt, 54, number)) == 2;
    assert Asm(Is(44), 0, 2 + dF) == [I(0x15, 0, 2 + dF, 44)];
    assert Asm(Hidden(number), dT, dF) == Asm(Is(44), 0, 2 + dF) + Asm(Equals(ByteAt, 54, number), dT, dF);
    assert Len(Hidden(number)) == 3;
    assert Asm(Is(number), 3 + dT, 0) == [I(0x15, 3 + dT, 0, number)];
  }

  lemma TransportProgram(number: nat)
    ensures Finished(TransportOnce(number), ACCEPT_LENGTH, 0) ==
            [I(0x28, 0, 0, 12), I(0x15, 0, 5, 0x86DD), I(0x30, 0, 0, 20)]
            + [I(0x15, 6, 0, number), I(0x15, 0, 6, 44), I(0x30, 0, 0, 54), I(0x15, 3, 4, number)]
            + [I(0x15, 0, 3, 0x0800), I(0x30, 0, 0, 23)]
            + [I(0x15, 0, 1, number)]
            + [I(0x06, 0, 0, ACCEPT_LENGTH), I(0x06, 0, 0, 0)]
  {
    var six := Disj(Is(number), Hidden(number));
    NextHeaderAsm(number, 3, 4);
    assert Asm(Is(number), 0, 1) == [I(0x15, 0, 1, number)] && Len(Is(number)) == 1;
    GuardedCode(six, Is(number), Asm(six, 3, 4), Asm(Is(number), 0, 1), 4, 1);
  }

  lemma TransportPrograms()
    ensures TCP == CANNED_TCP == Finished(TransportOnce(6), ACCEPT_LENGTH, 0)
    ensures UDP == CANNED_UDP == Finished(TransportOnce(17), ACCEPT_LENGTH, 0)
  {
    TransportProgram(6);
    TransportProgram(17);
  }

  lemma UdpOrIcmpProgram()
    ensures UDP_OR_ICMP == Finished(UdpOrIcmpOnce(), ACCEPT_LENGTH, 0)
  {
    var six, four := Disj(Is(17), Hidden(17)), Disj(Is(17), Is(1));
    NextHeaderAsm(17, 4, 5);
    OneOrTwo(17, 1, 0, 1);
    GuardedCode(six, four, Asm(six, 4, 5), Asm(four, 0, 1), 4, 2);
  }

  /** Ports that are not to match, and the fragment behind which they cannot be read. */
  lemma NotPorts6(port: nat, dT: nat, dF: nat)
    ensures var six := Choose(Is(6), Negated(LowerPorts6(port, None)), Hidden(6));
            && Len(six) == 8
            && Asm(six, dT, dF) ==
               [I(0x15, 0, 4, 6)]
               + ([I(0x28, 0, 0, 54), I(0x15, 5 + dF, 0, port), I(0x28, 0, 0, 56), I(0x15, 3 + dF, 3 + dT, port)]
                  + [I(0x15, 0, 2 + dF, 44), I(0x30, 0, 0, 54), I(0x15, dT, dF, 6)])
  {
    var no := Negated(LowerPorts6(port, None));
    NextHeaderAsm(6, dT, dF);
    BothPorts(port, 3 + dF, 3 + dT);
    assert Len(no) == 4 && Asm(no, 3 + dT, 3 + dF) == Asm(LowerPorts6(port, None), 3 + dF, 3 + dT);
    assert Asm(Is(6), 0, 4) == [I(0x15, 0, 4, 6)] && Len(Is(6)) == 1;
    ChooseAsm(Is(6), no, Hidden(6), 4, 3, dT, dF, 3 + dT, 3 + dF);
  }

  lemma ChooseAsm(test: Cond, yes: Cond, no: Cond, y: nat, n: nat, dT: nat, dF: nat, farT: nat, farF: nat)
    requires y == Len(yes) && n == Len(no) && farT == n + dT && farF == n + dF
    ensures Asm(Choose(test, yes, no), dT, dF) == Asm(test, 0, y) + (Asm(yes, farT, farF) + Asm(no, dT, dF))
    ensures Len(Choose(test, yes, no)) == Len(test) + y + n
  {
    TripleAsm(false, test, yes, no, y, n, dT, dF);
  }

  lemma NotPorts4(port: nat)
    ensures var four := Conj(Is(6), Negated(LowerPorts4(port, None)));
            && Len(four) == 8
            && Asm(four, 0, 1) ==
               [I(0x15, 0, 8, 6)]
               + [I(0x28, 0, 0, 20), I(0x45, 5, 0, 0x1FFF), I(0xB1, 0, 0, 14),
                  I(0x48, 0, 0, 14), I(0x15, 3, 0, port), I(0x48, 0, 0, 16), I(0x15, 1, 0, port)]
  {
    var no := Negated(LowerPorts4(port, None));
    BothPorts(port, 1, 0);
    assert Len(no) == 7 && Asm(no, 0, 1) == Asm(LowerPorts4(port, None), 1, 0);
    assert Asm(Is(6), 0, 8) == [I(0x15, 0, 8, 6)] && Len(Is(6)) == 1;
    GuardAsm(Is(6), no, 0, 1);
  }

  lemma TcpNotPortProgram(port: nat)
    ensures Finished(TcpNotPort(port), ACCEPT_LENGTH, 0) ==
            [I(0x28, 0, 0, 12), I(0x15, 0, 9, 0x86DD), I(0x30, 0, 0, 20)]
            + ([I(0x15, 0, 4, 6)]
               + ([I(0x28, 0, 0, 54), I(0x15, 16, 0, port), I(0x28, 0, 0, 56), I(0x15, 14, 13, port)]
                  + [I(0x15, 0, 13, 44), I(0x30, 0, 0, 54), I(0x15, 10, 11, 6)]))
            + [I(0x15, 0, 10, 0x0800), I(0x30, 0, 0, 23)]
            + ([I(0x15, 0, 8, 6)]
               + [I(0x28, 0, 0, 20), I(0x45, 5, 0, 0x1FFF), I(0xB1, 0, 0, 14),
                  I(0x48, 0, 0, 14), I(0x15, 3, 0, port), I(0x48, 0, 0, 16), I(0x15, 1, 0, port)])
            + [I(0x06, 0, 0, ACCEPT_LENGTH), I(0x06, 0, 0, 0)]
  {
    var six := Choose(Is(6), Negated(LowerPorts6(port, None)), Hidden(6));
    var four := Conj(Is(6), Negated(LowerPorts4(port, None)));
    NotPorts6(port, 10, 11);
    NotPorts4(port);
    GuardedCode(six, four, Asm(six, 10, 11), Asm(four, 0, 1), 8, 8);
  }

  lemma TcpAndNotPortProgram()
    ensures TCP_AND_NOT_PORT_22 == Finished(TcpNotPort(22), ACCEPT_LENGTH, 0)
  {
    TcpNotPortProgram(22);
  }

  lemma HostsFlatten(i: SockFilter, j: SockFilter, hosts: Program, k: SockFilter, body: Program, whole: Program)
    requires whole == [i] + ([j] + (hosts + ([k] + body)))
    ensures whole == [i, j] + hosts + [k] + body
  {
  }

  lemma HostsInner(a: Coding, hosts: Cond, body: Cond, n: nat, m: nat)
    requires Codings(a) && n == Len(hosts) && m == Len(body)
    ensures var inner := Conj(hosts, After(ByteAt, 23, body));
            a(inner, 0, 1) == a(hosts, 0, 2 + m) + ([I(0x30, 0, 0, 23)] + a(body, 0, 1)) && Len(inner) == 1 + n + m
  {
    CodedAfter(a, ByteAt, 23, body, 0, 1);
    CodedConj(a, hosts, After(ByteAt, 23, body), 1 + m, 0, 1, 2 + m);
  }

  lemma HostsLayout(a: Coding, hosts: Cond, body: Cond, n: nat, m: nat)
    requires Codings(a) && n == Len(hosts) && m == Len(body)
    ensures a(HostsBefore(hosts, body), 0, 1) ==
            [I(0x28, 0, 0, 12), I(0x15, 0, 2 + n + m, 0x0800)] + a(hosts, 0, 2 + m)
            + [I(0x30, 0, 0, 23)] + a(body, 0, 1)
  {
    var inner := Conj(hosts, After(ByteAt, 23, body));
    HostsInner(a, hosts, body, n, m);
    CodedConj(a, Is(0x0800), inner, 1 + n + m, 0, 1, 2 + n + m);
    CodedIs(a, 0x0800, 0, 2 + n + m);
    CodedAfter(a, HalfAt, 12, Conj(Is(0x0800), inner), 0, 1);
    HostsFlatten(I(0x28, 0, 0, 12), I(0x15, 0, 2 + n + m, 0x0800), a(hosts, 0, 2 + m), I(0x30, 0, 0, 23), a(body, 0, 1),
                 a(HostsBefore(hosts, body), 0, 1));
  }

  lemma HostsCode(hosts: Cond, body: Cond, s: Program, t: Program, n: nat, m: nat)
    requires s == Asm(hosts, 0, 2 + m) && t == Asm(body, 0, 1) && n == Len(hosts) && m == Len(body)
    ensures Finished(HostsBefore(hosts, body), ACCEPT_LENGTH, 0) ==
            [I(0x28, 0, 0, 12), I(0x15, 0, 2 + n + m, 0x0800)] + s + [I(0x30, 0, 0, 23)] + t
            + [I(0x06, 0, 0, ACCEPT_LENGTH), I(0x06, 0, 0, 0)]
  {
    var a: Coding := (c: Cond, dT: nat, dF: nat) => Asm(c, dT, dF);
    HostsLayout(a, hosts, body, n, m);
  }

  lemma BothHostsProgram(addr: nat, port: nat)
    ensures Finished(HostAndPort(addr, None, port, None), ACCEPT_LENGTH, 0) ==
            [I(0x28, 0, 0, 12), I(0x15, 0, 16, 0x0800)]
            + [I(0x20, 0, 0, 26), I(0x15, 2, 0, addr), I(0x20, 0, 0, 30), I(0x15, 0, 12, addr)]
            + [I(0x30, 0, 0, 23)]
            + ([I(0x15, 2, 0, 132), I(0x15, 1, 0, 6), I(0x15, 0, 8, 17)]
               + [I(0x28, 0, 0, 20), I(0x45, 6, 0, 0x1FFF), I(0xB1, 0, 0, 14),
                  I(0x48, 0, 0, 14), I(0x15, 2, 0, port), I(0x48, 0, 0, 16), I(0x15, 0, 1, port)])
            + [I(0x06, 0, 0, ACCEPT_LENGTH), I(0x06, 0, 0, 0)]
  {
    var hosts, p4 := Disj(Equals(WordAt, 26, addr), Equals(WordAt, 30, addr)), LowerPorts4(port, None);
    EitherAsm(WordAt, 26, 30, addr, 0, 12);
    SctpGuard(8);
    BothPorts(port, 0, 1);
    GuardAsm(SctpToo(), p4, 0, 1);
    HostsCode(hosts, Conj(SctpToo(), p4), Asm(hosts, 0, 12), Asm(SctpToo(), 0, 8) + Asm(p4, 0, 1), 4, 10);
  }

  lemma OneHostProgram(addr: nat, port: nat)
    ensures Finished(HostAndPort(addr, Some(Src), port, Some(Dst)), ACCEPT_LENGTH, 0) ==
            [I(0x28, 0, 0, 12), I(0x15, 0, 12, 0x0800)]
            + [I(0x20, 0, 0, 26), I(0x15, 0, 10, addr)]
            + [I(0x30, 0, 0, 23)]
            + ([I(0x15, 2, 0, 132), I(0x15, 1, 0, 6), I(0x15, 0, 6, 17)]
               + [I(0x28, 0, 0, 20), I(0x45, 4, 0, 0x1FFF), I(0xB1, 0, 0, 14), I(0x48, 0, 0, 16), I(0x15, 0, 1, port)])
            + [I(0x06, 0, 0, ACCEPT_LENGTH), I(0x06, 0, 0, 0)]
  {
    var hosts, p4 := Equals(WordAt, 26, addr), LowerPorts4(port, Some(Dst));
    EqualsAsm(WordAt, 26, addr, 0, 10);
    SctpGuard(6);
    OnePort(port, Dst, 0, 1);
    GuardAsm(SctpToo(), p4, 0, 1);
    assert Len(hosts) == 2;
    HostsCode(hosts, Conj(SctpToo(), p4), Asm(hosts, 0, 10), Asm(SctpToo(), 0, 6) + Asm(p4, 0, 1), 2, 8);
  }

  lemma HostAndPortProgram()
    ensures HOST_96_AND_PORT_443 == Finished(HostAndPort(0xC0A80160, None, 443, None), ACCEPT_LENGTH, 0)
  {
    BothHostsProgram(0xC0A80160, 443);
  }

  lemma SrcHostAndDstPortProgram()
    ensures SRC_HOST_96_AND_DST_PORT_80 ==
            Finished(HostAndPort(0xC0A80160, Some(Src), 80, Some(Dst)), ACCEPT_LENGTH, 0)
  {
    OneHostProgram(0xC0A80160, 80);
  }
}
