/**
The code generator as it runs: every method appends to the emitter and makes labels as it goes,
and is proved to append exactly the code of the condition its expression lowers to.
*/
module Emission {
  import opened Wrappers
  import opened Vm
  import opened Filter
  import opened Conditions
  import opened Lowering
  import opened Assembler
  import opened Codegen

  /** `e` has grown by the code of `c` compiled against `t` and `f`, and by nothing else. */
  twostate predicate Appended(e: Emitter, c: Cond, t: Label, f: Label)
    reads e
  {
    && e.Valid()
    && e.items == old(e.items) + Code(c, t, f, old(e.counter))
    && e.counter == old(e.counter) + Fresh(c)
  }

  /** A load and the branch on what it loads. */
  function Tested(op: LoadOp, offset: nat, value: nat, t: Label, f: Label): Stream {
    [LoadItem(op, offset), TestItem(Equal, value, t, f)]
  }

  lemma CodeOfEquals(op: LoadOp, offset: nat, value: nat, t: Label, f: Label, n: nat)
    ensures Code(Equals(op, offset, value), t, f, n) == Tested(op, offset, value, t, f)
    ensures Fresh(Equals(op, offset, value)) == 0
  {
    assert Fresh(Is(value)) == 0;
    assert Code(Is(value), t, f, n) == [TestItem(Equal, value, t, f)];
    CodeOfAfter(op, offset, Is(value), t, f, n);
  }

  method TestAt(e: Emitter, op: LoadOp, offset: nat, value: nat, onTrue: Label, onFalse: Label)
    requires e.Valid() && onTrue <= e.counter && onFalse <= e.counter
    modifies e
    ensures e.Valid() && e.counter == old(e.counter)
    ensures e.items == old(e.items) + Tested(op, offset, value, onTrue, onFalse)
  {
    e.Emit(Insn(op.Code(), offset, None, None));
    e.Emit(Insn(0x15, value, Some(onTrue), Some(onFalse)));
  }

  method CompileProto(name: Protocol, onTrue: Label, onFalse: Label, e: Emitter)
    requires e.Valid() && onTrue <= e.counter && onFalse <= e.counter
    modifies e
    ensures Appended(e, LowerProto(name), onTrue, onFalse)
  {
    match name {
      case Ip =>
        CodeOfEquals(HalfAt, 12, ETHERTYPE_IPV4, onTrue, onFalse, e.counter);
        TestAt(e, HalfAt, 12, ETHERTYPE_IPV4, onTrue, onFalse);
      case Arp =>
        CodeOfEquals(HalfAt, 12, ETHERTYPE_ARP, onTrue, onFalse, e.counter);
        TestAt(e, HalfAt, 12, ETHERTYPE_ARP, onTrue, onFalse);
      case Ip6 =>
        CodeOfEquals(HalfAt, 12, ETHERTYPE_IPV6, onTrue, onFalse, e.counter);
        TestAt(e, HalfAt, 12, ETHERTYPE_IPV6, onTrue, onFalse);
      case Icmp =>
        CodeOfPair(true, Equals(HalfAt, 12, ETHERTYPE_IPV4), Equals(ByteAt, 23, 1), onTrue, onFalse,
                   e.counter, e.counter + 1, e.counter + 1);
        CodeOfEquals(HalfAt, 12, ETHERTYPE_IPV4, e.counter + 1, onFalse, e.counter + 1);
        CodeOfEquals(ByteAt, 23, 1, onTrue, onFalse, e.counter + 1);
        var v4 := e.NewLabel();
        TestAt(e, HalfAt, 12, ETHERTYPE_IPV4, v4, onFalse);
        e.PlaceLabel(v4);
        TestAt(e, ByteAt, 23, 1, onTrue, onFalse);
      case Tcp => CompileTcpOrUdp(6, onTrue, onFalse, e);
      case Udp => CompileTcpOrUdp(17, onTrue, onFalse, e);
    }
  }

  /** The six tests of a transport protocol, as one sequence. */
  lemma TransportCode(number: nat, t: Label, f: Label, n: nat)
    ensures Fresh(LowerTransport(number)) == 5
    ensures Code(LowerTransport(number), t, f, n) ==
            Tested(HalfAt, 12, ETHERTYPE_IPV6, n + 1, n + 2)
            + [Place(n + 1)] + Tested(ByteAt, 20, number, t, n + 3)
            + [Place(n + 3)] + Tested(ByteAt, 20, 44, n + 4, f)
            + [Place(n + 4)] + Tested(ByteAt, 54, number, t, f)
            + [Place(n + 2)] + Tested(HalfAt, 12, ETHERTYPE_IPV4, n + 5, f)
            + [Place(n + 5)] + Tested(ByteAt, 23, number, t, f)
  {
    var hidden := Conj(Equals(ByteAt, 20, 44), Equals(ByteAt, 54, number));
    var six := Disj(Equals(ByteAt, 20, number), hidden);
    var four := Conj(Equals(HalfAt, 12, ETHERTYPE_IPV4), Equals(ByteAt, 23, number));
    TestPairCode(true, ByteAt, 20, 44, ByteAt, 54, number, t, f, n + 3, n + 4);
    TestPairCode(true, HalfAt, 12, ETHERTYPE_IPV4, ByteAt, 23, number, t, f, n + 4, n + 5);
    CodeOfEquals(HalfAt, 12, ETHERTYPE_IPV6, n + 1, n + 2, n + 2);
    CodeOfEquals(ByteAt, 20, number, t, n + 3, n + 3);
    PairFresh(false, Equals(ByteAt, 20, number), hidden);
    CodeOfPair(false, Equals(ByteAt, 20, number), hidden, t, f, n + 2, n + 3, n + 3);
    CodeOfTriple(false, Equals(HalfAt, 12, ETHERTYPE_IPV6), six, four, t, f, n, n + 1, n + 2, n + 2, n + 4);
    TransportFresh(six, four);
    TransportFlat(Tested(HalfAt, 12, ETHERTYPE_IPV6, n + 1, n + 2), [Place(n + 1)],
                  Tested(ByteAt, 20, number, t, n + 3), [Place(n + 3)],
                  Tested(ByteAt, 20, 44, n + 4, f), [Place(n + 4)], Tested(ByteAt, 54, number, t, f), [Place(n + 2)],
                  Tested(HalfAt, 12, ETHERTYPE_IPV4, n + 5, f), [Place(n + 5)], Tested(ByteAt, 23, number, t, f),
                  Code(hidden, t, f, n + 3), Code(six, t, f, n + 2), Code(four, t, f, n + 4),
                  Code(LowerTransport(number), t, f, n));
  }

  lemma TransportFresh(six: Cond, four: Cond)
    requires Fresh(six) == 2 && Fresh(four) == 1
    ensures Fresh(Choose(Equals(HalfAt, 12, ETHERTYPE_IPV6), six, four)) == 5
  {
    assert Fresh(Equals(HalfAt, 12, ETHERTYPE_IPV6)) == 0;
  }

  lemma PairFresh(all: bool, left: Cond, right: Cond)
    ensures Fresh(Pair(all, left, right)) == 1 + Fresh(left) + Fresh(right)
  {
  }

  /** Two tests with a label between them. */
  lemma TestPairCode(all: bool, op: LoadOp, k: nat, value: nat, op': LoadOp, k': nat, value': nat,
                     t: Label, f: Label, n: nat, mid: Label)
    requires mid == n + 1
    ensures var c := Pair(all, Equals(op, k, value), Equals(op', k', value'));
            && Fresh(c) == 1
            && Code(c, t, f, n) ==
               Tested(op, k, value, Select(all, mid, t), Select(all, f, mid)) + [Place(mid)] + Tested(op', k', value',
                      t, f)
  {
    CodeOfEquals(op, k, value, Select(all, mid, t), Select(all, f, mid), mid);
    CodeOfEquals(op', k', value', t, f, mid);
    CodeOfPair(all, Equals(op, k, value), Equals(op', k', value'), t, f, n, mid, mid);
    PairFresh(all, Equals(op, k, value), Equals(op', k', value'));
  }

  lemma TransportFlat(v: Stream, p1: Stream, a: Stream, p3: Stream, b: Stream, p4: Stream, c: Stream, p2: Stream,
                      d: Stream, p5: Stream, g: Stream, hidden: Stream, six: Stream, four: Stream, whole: Stream)
    requires hidden == b + p4 + c && six == a + p3 + hidden && four == d + p5 + g && whole == v + p1 + six + p2 + four
    ensures whole == v + p1 + a + p3 + b + p4 + c + p2 + d + p5 + g
  {
  }

  lemma TransportPieces(before: Stream, v: Stream, p1: Stream, a: Stream, p3: Stream, b: Stream, p4: Stream, c: Stream,
                        p2: Stream, d: Stream, p5: Stream, g: Stream)
    ensures before + v + p1 + a + p3 + b + p4 + c + p2 + d + p5 + g ==
            before + (v + p1 + a + p3 + b + p4 + c + p2 + d + p5 + g)
  {
  }

  method CompileTcpOrUdp(number: nat, onTrue: Label, onFalse: Label, e: Emitter)
    requires e.Valid() && onTrue <= e.counter && onFalse <= e.counter
    modifies e
    ensures Appended(e, LowerTransport(number), onTrue, onFalse)
  {
    ghost var n, before := e.counter, e.items;
    var v6 := e.NewLabel();
    var v4 := e.NewLabel();
    TestAt(e, HalfAt, 12, ETHERTYPE_IPV6, v6, v4);

    e.PlaceLabel(v6);
    var afterFrag := e.NewLabel();
    TestAt(e, ByteAt, 20, number, onTrue, afterFrag);
    e.PlaceLabel(afterFrag);
    var peek := e.NewLabel();
    TestAt(e, ByteAt, 20, 44, peek, onFalse);
    e.PlaceLabel(peek);
    TestAt(e, ByteAt, 54, number, onTrue, onFalse);

    e.PlaceLabel(v4);
    var v4Proto := e.NewLabel();
    TestAt(e, HalfAt, 12, ETHERTYPE_IPV4, v4Proto, onFalse);
    e.PlaceLabel(v4Proto);
    TestAt(e, ByteAt, 23, number, onTrue, onFalse);

    ghost var t, f := onTrue, onFalse;
    TransportCode(number, t, f, n);
    TransportPieces(before, Tested(HalfAt, 12, ETHERTYPE_IPV6, n + 1, n + 2), [Place(n + 1)],
                    Tested(ByteAt, 20, number, t, n + 3), [Place(n + 3)],
                    Tested(ByteAt, 20, 44, n + 4, f), [Place(n + 4)], Tested(ByteAt, 54, number, t, f), [Place(n + 2)],
                    Tested(HalfAt, 12, ETHERTYPE_IPV4, n + 5, f), [Place(n + 5)], Tested(ByteAt, 23, number, t, f));
  }

  method CompileHost(addr: nat, direction: Option<Direction>, onTrue: Label, onFalse: Label, e: Emitter)
    requires e.Valid() && onTrue <= e.counter && onFalse <= e.counter
    modifies e
    ensures Appended(e, LowerHost(addr, direction), onTrue, onFalse)
  {
    ghost var n := e.counter;
    ghost var src, dst := Equals(WordAt, 26, addr), Equals(WordAt, 30, addr);
    CodeOfPair(true, Equals(HalfAt, 12, ETHERTYPE_IPV4), LowerPick(direction, src, dst), onTrue, onFalse, n, n + 1,
               n + 1);
    CodeOfEquals(HalfAt, 12, ETHERTYPE_IPV4, n + 1, onFalse, n + 1);
    var v4 := e.NewLabel();
    TestAt(e, HalfAt, 12, ETHERTYPE_IPV4, v4, onFalse);
    e.PlaceLabel(v4);
    match direction {
      case Some(Src) =>
        CodeOfEquals(WordAt, 26, addr, onTrue, onFalse, n + 1);
        TestAt(e, WordAt, 26, addr, onTrue, onFalse);
      case Some(Dst) =>
        CodeOfEquals(WordAt, 30, addr, onTrue, onFalse, n + 1);
        TestAt(e, WordAt, 30, addr, onTrue, onFalse);
      case None =>
        CodeOfPair(false, src, dst, onTrue, onFalse, n + 1, n + 2, n + 2);
        CodeOfEquals(WordAt, 26, addr, onTrue, n + 2, n + 2);
        CodeOfEquals(WordAt, 30, addr, onTrue, onFalse, n + 2);
        var checkDst := e.NewLabel();
        TestAt(e, WordAt, 26, addr, onTrue, checkDst);
        e.PlaceLabel(checkDst);
        TestAt(e, WordAt, 30, addr, onTrue, onFalse);
    }
  }

  method CompilePortValue(op: LoadOp, srcOffset: nat, dstOffset: nat, direction: Option<Direction>, port: nat,
                          onTrue: Label, onFalse: Label, e: Emitter)
    requires e.Valid() && onTrue <= e.counter && onFalse <= e.counter
    modifies e
    ensures Appended(e, LowerPick(direction, Equals(op, srcOffset, port), Equals(op, dstOffset, port)), onTrue, onFalse)
  {
    ghost var n := e.counter;
    match direction {
      case Some(Src) =>
        CodeOfEquals(op, srcOffset, port, onTrue, onFalse, n);
        TestAt(e, op, srcOffset, port, onTrue, onFalse);
      case Some(Dst) =>
        CodeOfEquals(op, dstOffset, port, onTrue, onFalse, n);
        TestAt(e, op, dstOffset, port, onTrue, onFalse);
      case None =>
        CodeOfPair(false, Equals(op, srcOffset, port), Equals(op, dstOffset, port), onTrue, onFalse, n, n + 1, n + 1);
        CodeOfEquals(op, srcOffset, port, onTrue, n + 1, n + 1);
        CodeOfEquals(op, dstOffset, port, onTrue, onFalse, n + 1);
        var checkDst := e.NewLabel();
        TestAt(e, op, srcOffset, port, onTrue, checkDst);
        e.PlaceLabel(checkDst);
        TestAt(e, op, dstOffset, port, onTrue, onFalse);
    }
  }

  method CompilePortV6(port: nat, direction: Option<Direction>, onTrue: Label, onFalse: Label, e: Emitter)
    requires e.Valid() && onTrue <= e.counter && onFalse <= e.counter
    modifies e
    ensures Appended(e, LowerPort6(port, direction), onTrue, onFalse)
  {
    ghost var n := e.counter;
    CodeOfTriple(true, Equals(ByteAt, 20, 6), Equals(ByteAt, 20, 17),
                 LowerPick(direction, Equals(HalfAt, 54, port), Equals(HalfAt, 56, port)), onTrue, onFalse,
                 n, n + 1, n + 2, n + 2, n + 2);
    CodeOfEquals(ByteAt, 20, 6, n + 2, n + 1, n + 2);
    CodeOfEquals(ByteAt, 20, 17, n + 2, onFalse, n + 2);
    var checkUdp := e.NewLabel();
    var matched := e.NewLabel();
    TestAt(e, ByteAt, 20, 6, matched, checkUdp);
    e.PlaceLabel(checkUdp);
    TestAt(e, ByteAt, 20, 17, matched, onFalse);
    e.PlaceLabel(matched);
    CompilePortValue(HalfAt, 54, 56, direction, port, onTrue, onFalse, e);
  }

  method CompilePortV4(port: nat, direction: Option<Direction>, onTrue: Label, onFalse: Label, e: Emitter)
    requires e.Valid() && onTrue <= e.counter && onFalse <= e.counter
    modifies e
    ensures Appended(e, LowerPort4(port, direction), onTrue, onFalse)
  {
    ghost var n, before := e.counter, e.items;
    var checkUdp := e.NewLabel();
    var matched := e.NewLabel();
    TestAt(e, ByteAt, 23, 6, matched, checkUdp);
    e.PlaceLabel(checkUdp);
    TestAt(e, ByteAt, 23, 17, matched, onFalse);

    e.PlaceLabel(matched);
    var notFragment := e.NewLabel();
    e.Emit(Insn(0x28, 20, None, None));
    e.Emit(Insn(0x45, 0x1FFF, Some(onFalse), Some(notFragment)));
    e.PlaceLabel(notFragment);
    e.Emit(Insn(0xB1, 14, None, None));
    CompilePortValue(HalfPastHeader, 14, 16, direction, port, onTrue, onFalse, e);

    ghost var value := LowerPick(direction, Equals(HalfPastHeader, 14, port), Equals(HalfPastHeader, 16, port));
    ghost var t, f := onTrue, onFalse;
    Port4Code(port, direction, value, t, f, n);
    Port4Pieces(before, Tested(ByteAt, 23, 6, n + 2, n + 1), [Place(n + 1)], Tested(ByteAt, 23, 17, n + 2, f),
                [Place(n + 2)], LoadItem(HalfAt, 20), TestItem(NoBits, 0x1FFF, n + 3, f), [Place(n + 3)],
                LoadItem(HeaderLength, 14), Code(value, t, f, n + 3));
  }

  lemma Port4Pieces(before: Stream, a: Stream, p: Stream, b: Stream, q: Stream, i: Item, j: Item, r: Stream, k: Item,
                    value: Stream)
    ensures before + a + p + b + q + [i] + [j] + r + [k] + value ==
            before + (a + p + b + q + ([i, j] + r + ([k] + value)))
  {
  }

  /** The tests of the protocol, of the fragment and of the ports, as one sequence. */
  lemma Port4Code(port: nat, direction: Option<Direction>, value: Cond, t: Label, f: Label, n: nat)
    requires value == LowerPick(direction, Equals(HalfPastHeader, 14, port), Equals(HalfPastHeader, 16, port))
    ensures Fresh(LowerPort4(port, direction)) == 3 + Fresh(value)
    ensures Code(LowerPort4(port, direction), t, f, n) ==
            Tested(ByteAt, 23, 6, n + 2, n + 1) + [Place(n + 1)] + Tested(ByteAt, 23, 17, n + 2, f) + [Place(n + 2)]
            + ([LoadItem(HalfAt, 20), TestItem(NoBits, 0x1FFF, n + 3, f)] + [Place(n + 3)]
               + ([LoadItem(HeaderLength, 14)] + Code(value, t, f, n + 3)))
  {
    var ports := After(HeaderLength, 14, value);
    CodeOfEquals(ByteAt, 23, 6, n + 2, n + 1, n + 2);
    CodeOfEquals(ByteAt, 23, 17, n + 2, f, n + 2);
    CodeOfAfter(HeaderLength, 14, value, t, f, n + 3);
    CodeOfFirstFragment(f, n + 3, ports, t, n + 2);
    CodeOfTriple(true, Equals(ByteAt, 23, 6), Equals(ByteAt, 23, 17), Conj(FirstFragment(), ports), t, f,
                 n, n + 1, n + 2, n + 2, n + 2);
    GateFresh(Equals(ByteAt, 23, 6), Equals(ByteAt, 23, 17), Conj(FirstFragment(), ports));
    assert Fresh(ports) == Fresh(value);
  }

  lemma GateFresh(one: Cond, two: Cond, body: Cond)
    ensures Fresh(Gate(one, two, body)) == 2 + Fresh(one) + Fresh(two) + Fresh(body)
  {
  }

  /** The fragment test in front of the port tests. */
  lemma CodeOfFirstFragment(f: Label, mid: Label, ports: Cond, t: Label, n: nat)
    requires mid == n + 1
    ensures Fresh(Conj(FirstFragment(), ports)) == 1 + Fresh(ports)
    ensures Code(Conj(FirstFragment(), ports), t, f, n) ==
            [LoadItem(HalfAt, 20), TestItem(NoBits, 0x1FFF, mid, f)] + [Place(mid)] + Code(ports, t, f, mid)
  {
    var test := Test(NoBits, 0x1FFF);
    assert Fresh(test) == 0 && Code(test, mid, f, mid) == [TestItem(NoBits, 0x1FFF, mid, f)];
    assert Fresh(FirstFragment()) == 0;
    CodeOfAfter(HalfAt, 20, test, mid, f, mid);
    CodeOfPair(true, FirstFragment(), ports, t, f, n, mid, mid);
    PairFresh(true, FirstFragment(), ports);
  }

  method CompilePort(port: nat, direction: Option<Direction>, onTrue: Label, onFalse: Label, e: Emitter)
    requires e.Valid() && onTrue <= e.counter && onFalse <= e.counter
    modifies e
    ensures Appended(e, LowerPort(port, direction), onTrue, onFalse)
  {
    ghost var n := e.counter;
    CodeOfTriple(false, Equals(HalfAt, 12, ETHERTYPE_IPV6), LowerPort6(port, direction), LowerPort4(port, direction),
                 onTrue, onFalse, n, n + 1, n + 2, n + 2, n + 2 + Fresh(LowerPort6(port, direction)));
    CodeOfEquals(HalfAt, 12, ETHERTYPE_IPV6, n + 1, n + 2, n + 2);
    var v6 := e.NewLabel();
    var v4 := e.NewLabel();
    TestAt(e, HalfAt, 12, ETHERTYPE_IPV6, v6, v4);
    e.PlaceLabel(v6);
    CompilePortV6(port, direction, onTrue, onFalse, e);
    e.PlaceLabel(v4);
    CompilePortV4(port, direction, onTrue, onFalse, e);
  }

  /**
  One expression against two continuation labels. Nothing already emitted changes, and what is
  appended depends on the expression, the two labels and the label counter only.
  */
  method Compile(node: Node, onTrue: Label, onFalse: Label, e: Emitter)
    requires e.Valid() && onTrue <= e.counter && onFalse <= e.counter
    modifies e
    ensures Appended(e, Lower(node), onTrue, onFalse)
    decreases node, 1
  {
    match node {
      case Proto(name) => CompileProto(name, onTrue, onFalse, e);
      case Host(addr, direction) => CompileHost(addr, direction, onTrue, onFalse, e);
      case Port(port, direction) => CompilePort(port, direction, onTrue, onFalse, e);
      case Not(operand) => CompileNot(operand, onTrue, onFalse, e);
      case And(left, right) => CompileAnd(left, right, onTrue, onFalse, e);
      case Or(left, right) => CompileOr(left, right, onTrue, onFalse, e);
    }
  }

  method CompileNot(operand: Node, onTrue: Label, onFalse: Label, e: Emitter)
    requires e.Valid() && onTrue <= e.counter && onFalse <= e.counter
    modifies e
    ensures Appended(e, Negated(Lower(operand)), onTrue, onFalse)
    decreases Not(operand), 0
  {
    ghost var n := e.counter;
    Compile(operand, onFalse, onTrue, e);
    CodeOfNegated(Lower(operand), onTrue, onFalse, n);
  }

  method CompileAnd(left: Node, right: Node, onTrue: Label, onFalse: Label, e: Emitter)
    requires e.Valid() && onTrue <= e.counter && onFalse <= e.counter
    modifies e
    ensures Appended(e, Conj(Lower(left), Lower(right)), onTrue, onFalse)
    decreases And(left, right), 0
  {
    ghost var n, before, l, r := e.counter, e.items, Lower(left), Lower(right);
    var mid := e.NewLabel();
    Compile(left, mid, onFalse, e);
    e.PlaceLabel(mid);
    Compile(right, onTrue, onFalse, e);
    PairItems(true, l, r, onTrue, onFalse, n, mid, mid + Fresh(l), before, e.items);
  }

  method CompileOr(left: Node, right: Node, onTrue: Label, onFalse: Label, e: Emitter)
    requires e.Valid() && onTrue <= e.counter && onFalse <= e.counter
    modifies e
    ensures Appended(e, Disj(Lower(left), Lower(right)), onTrue, onFalse)
    decreases Or(left, right), 0
  {
    ghost var n, before, l, r := e.counter, e.items, Lower(left), Lower(right);
    var mid := e.NewLabel();
    Compile(left, onTrue, mid, e);
    e.PlaceLabel(mid);
    Compile(right, onTrue, onFalse, e);
    PairItems(false, l, r, onTrue, onFalse, n, mid, mid + Fresh(l), before, e.items);
  }

  lemma CodeOfNegated(body: Cond, t: Label, f: Label, n: nat)
    ensures Code(Negated(body), t, f, n) == Code(body, f, t, n) && Fresh(Negated(body)) == Fresh(body)
  {
  }

  /** What two operands and the label between them have appended is the code of their pair. */
  lemma PairItems(all: bool, left: Cond, right: Cond, t: Label, f: Label, n: nat, mid: Label, m: nat,
                  before: Stream, items: Stream)
    requires mid == n + 1 && m == mid + Fresh(left)
    requires items == before + Code(left, Select(all, mid, t), Select(all, f, mid), mid) + [Place(mid)]
                      + Code(right, t, f, m)
    ensures items == before + Code(Pair(all, left, right), t, f, n)
    ensures Fresh(Pair(all, left, right)) == 1 + Fresh(left) + Fresh(right)
  {
    CodeOfPair(all, left, right, t, f, n, mid, m);
    PairFresh(all, left, right);
    FourPieces(before, Code(left, Select(all, mid, t), Select(all, f, mid), mid), [Place(mid)], Code(right, t, f, m));
  }

  lemma FourPieces(before: Stream, a: Stream, b: Stream, c: Stream)
    ensures before + a + b + c == before + (a + b + c)
  {
  }

  const ACCEPT_LENGTH: nat := 0x00040000

  /** The two returns, behind the labels ACCEPT and REJECT. */
  const TAIL: Stream :=
    [Place(1), Insn(0x06, ACCEPT_LENGTH, None, None), Place(2), Insn(0x06, 0, None, None)]

  /** The stream a whole expression is compiled to. */
  function Emitted(node: Node): Stream {
    Code(Lower(node), 1, 2, 2) + TAIL
  }

  /** What assembling an expression gives, without labels. */
  function Assembled(node: Node): Result<Program, ResolveError> {
    Bounded(Finished(Lower(node), ACCEPT_LENGTH, 0))
  }

  method Assemble(ast: Node) returns (r: Result<Program, ResolveError>)
    ensures r == Resolved(Emitted(ast)) == Assembled(ast)
  {
    var e := new Emitter();
    var accept := e.NewLabel();
    var reject := e.NewLabel();
    Compile(ast, accept, reject, e);
    e.PlaceLabel(accept);
    e.Emit(Insn(0x06, ACCEPT_LENGTH, None, None));
    e.PlaceLabel(reject);
    e.Emit(Insn(0x06, 0, None, None));
    assert e.items == Emitted(ast);
    EmittedResolves(ast);
    r := Resolve(e.items);
  }

  /** A return behind its label, in front of `rest`. */
  lemma MarkedReturn(mark: Label, k: nat, rest: Stream, all: Stream)
    requires all == [Place(mark), Insn(0x06, k, None, None)] + rest
    requires Disciplined(rest) && mark !in Placed(rest)
    ensures Link(all) == [SockFilter(0x06, 0, 0, k)] + Link(rest)
    ensures Placed(all) == {mark} + Placed(rest) && Disciplined(all)
    ensures forall l :: Dist(all, l) == if l == mark then 0 else 1 + Dist(rest, l)
  {
    var inner := [Insn(0x06, k, None, None)] + rest;
    assert all[1..] == inner && inner[1..] == rest;
    PlacedCons(all);
    PlacedCons(inner);
    forall l ensures Dist(all, l) == if l == mark then 0 else 1 + Dist(rest, l) {
      assert Dist(inner, l) == 1 + Dist(rest, l);
    }
    assert Link(inner) == [SockFilter(0x06, 0, 0, k)] + Link(rest);
    assert Disciplined(inner);
  }

  lemma TailView()
    ensures Link(TAIL) == [SockFilter(0x06, 0, 0, ACCEPT_LENGTH), SockFilter(0x06, 0, 0, 0)]
    ensures Dist(TAIL, 1) == 0 && Dist(TAIL, 2) == 1
    ensures Placed(TAIL) == {1, 2} && Disciplined(TAIL)
  {
    var last: Stream := [Place(2), Insn(0x06, 0, None, None)];
    MarkedReturn(2, 0, [], last);
    MarkedReturn(1, ACCEPT_LENGTH, last, TAIL);
  }

  /**
  Every expression's stream is disciplined: each label it refers to is placed exactly once and
  strictly later. So resolving it is bounding the distances of its label-free code by 8 bits.
  */
  lemma EmittedResolves(node: Node)
    ensures Disciplined(Emitted(node))
    ensures Resolved(Emitted(node)) == Assembled(node)
  {
    var c := Lower(node);
    CodeAppends(c, 1, 2, 2, [], TAIL);
    assert [] + TAIL == TAIL;
    assert Emitted(node) == CodeThen(c, 1, 2, 2, TAIL);
    TailView();
    GeneratedLinks(c, 1, 2, 2, TAIL);
    GeneratedDisciplined(c, 1, 2, 2, TAIL);
    ResolvesToLink(Emitted(node));
  }
}
