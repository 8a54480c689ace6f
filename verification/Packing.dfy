/** Programs as the kernel takes them: eight bytes for each instruction. */
module Packing {
  import opened Bytes
  import opened Wrappers
  import opened Vm
  import opened Filter
  import opened Conditions
  import opened Lowering
  import opened Assembler
  import opened Emission
  import opened Grammar
  import opened Compiler

  /** The instruction fits 16, 8, 8 and 32 bits. */
  predicate Encodable(i: SockFilter) {
    i.code < 0x1_0000 && i.jt < 0x100 && i.jf < 0x100 && i.k < 0x1_0000_0000
  }

  /** One instruction in the machine's byte order, or nothing if some field is out of range. */
  function Pack(order: Order, i: SockFilter): (r: Option<seq<Byte>>)
    ensures r.Some? ==> |r.value| == 8
  {
    if !Encodable(i) then None
    else Some(ToBytes(order, i.code, 2) + ToBytes(order, i.jt, 1) + ToBytes(order, i.jf, 1) + ToBytes(order, i.k, 4))
  }

  /** The eight bytes on a little-endian machine, the fields recovered from them. */
  lemma PacksInBytes(i: SockFilter)
    requires Encodable(i)
    ensures var s := Pack(Little, i).value;
            && Half(s[1], s[0]) == i.code && s[2] == i.jt && s[3] == i.jf && Word(s[7], s[6], s[5], s[4]) == i.k
  {
    var s := Pack(Little, i).value;
    UnpacksOne(Little, i, []);
    assert s + [] == s;
    assert s[..2] == [s[0], s[1]] && s[2..3] == [s[2]] && s[3..4] == [s[3]] && s[4..8] == [s[4], s[5], s[6], s[7]];
    Little2(s[0], s[1]);
    Little1(s[2]);
    Little1(s[3]);
    Little4(s[4], s[5], s[6], s[7]);
  }

  function PackInstructions(order: Order, prog: Program): Option<seq<Byte>> {
    if prog == [] then Some([])
    else
      match (Pack(order, prog[0]), PackInstructions(order, prog[1..]))
      case (Some(first), Some(rest)) => Some(first + rest)
      case _ => None
  }

  function Unpack(order: Order, s: seq<Byte>): SockFilter
    requires |s| >= 8
  {
    SockFilter(FromBytes(order, s[..2]), FromBytes(order, s[2..3]), FromBytes(order, s[3..4]),
               FromBytes(order, s[4..8]))
  }

  function UnpackInstructions(order: Order, s: seq<Byte>): Program {
    if |s| < 8 then [] else [Unpack(order, s)] + UnpackInstructions(order, s[8..])
  }

  lemma UnpacksOne(order: Order, i: SockFilter, rest: seq<Byte>)
    requires Encodable(i)
    ensures Unpack(order, Pack(order, i).value + rest) == i
  {
    var s := Pack(order, i).value + rest;
    Widths();
    ReadsBack(order, i.code, 2);
    ReadsBack(order, i.jt, 1);
    ReadsBack(order, i.jf, 1);
    ReadsBack(order, i.k, 4);
    assert s[..2] == ToBytes(order, i.code, 2);
    assert s[2..3] == ToBytes(order, i.jt, 1);
    assert s[3..4] == ToBytes(order, i.jf, 1);
    assert s[4..8] == ToBytes(order, i.k, 4);
  }

  /** Packing succeeds exactly when every instruction fits, and loses nothing in either byte order. */
  lemma {:induction false} PacksExactly(order: Order, prog: Program)
    ensures var r := PackInstructions(order, prog);
            && (r.Some? <==> forall i | i in prog :: Encodable(i))
            && (r.Some? ==> |r.value| == 8 * |prog| && UnpackInstructions(order, r.value) == prog)
  {
    if prog != [] {
      assert prog == [prog[0]] + prog[1..];
      PacksExactly(order, prog[1..]);
      var r := PackInstructions(order, prog);
      if r.Some? {
        var rest := PackInstructions(order, prog[1..]).value;
        UnpacksOne(order, prog[0], rest);
        assert r.value[8..] == rest;
      }
    }
  }

  /** Every operand of the condition fits 32 bits. */
  predicate Narrow(c: Cond) {
    match c
    case Test(_, k) => k < 0x1_0000_0000
    case After(_, k, body) => k < 0x1_0000_0000 && Narrow(body)
    case Negated(body) => Narrow(body)
    case Pair(_, left, right) => Narrow(left) && Narrow(right)
    case Triple(_, one, two, three) => Narrow(one) && Narrow(two) && Narrow(three)
  }

  ghost predicate NarrowCode(code: Program) {
    forall i | i in code :: i.code < 0x1_0000 && i.k < 0x1_0000_0000
  }

  lemma NarrowJoins(a: Program, b: Program)
    requires NarrowCode(a) && NarrowCode(b)
    ensures NarrowCode(a + b)
  {
  }

  lemma NarrowOne(i: SockFilter)
    requires i.code < 0x1_0000 && i.k < 0x1_0000_0000
    ensures NarrowCode([i])
  {
  }

  lemma {:induction false} NarrowAsm(c: Cond, dT: nat, dF: nat)
    requires Narrow(c)
    ensures NarrowCode(Asm(c, dT, dF))
  {
    match c
    case Test(op, k) =>
      NarrowOne(op.Insn(k, dT, dF));
    case After(op, k, body) =>
      NarrowAsm(body, dT, dF);
      NarrowOne(SockFilter(op.Code(), 0, 0, k));
      NarrowJoins([SockFilter(op.Code(), 0, 0, k)], Asm(body, dT, dF));
    case Negated(body) =>
      NarrowAsm(body, dF, dT);
    case Pair(all, left, right) =>
      var n := Len(right);
      NarrowAsm(left, If(!all, n + dT), If(all, n + dF));
      NarrowAsm(right, dT, dF);
      NarrowJoins(Asm(left, If(!all, n + dT), If(all, n + dF)), Asm(right, dT, dF));
      PairAsm(all, left, right, n, dT, dF);
    case Triple(gate, one, two, three) =>
      var n, m := Len(two), Len(three);
      NarrowAsm(one, If(gate, n), If(!gate, n));
      NarrowAsm(two, If(!gate, m + dT), m + dF);
      NarrowAsm(three, dT, dF);
      NarrowTriple(gate, one, two, three, n, m, dT, dF);
  }

  lemma NarrowTriple(gate: bool, one: Cond, two: Cond, three: Cond, n: nat, m: nat, dT: nat, dF: nat)
    requires n == Len(two) && m == Len(three) && NarrowCode(Asm(one, If(gate, n), If(!gate, n)))
    requires NarrowCode(Asm(two, If(!gate, m + dT), m + dF)) && NarrowCode(Asm(three, dT, dF))
    ensures NarrowCode(Asm(Triple(gate, one, two, three), dT, dF))
  {
    TripleAsm(gate, one, two, three, n, m, dT, dF);
    NarrowJoins(Asm(two, If(!gate, m + dT), m + dF), Asm(three, dT, dF));
    NarrowJoins(Asm(one, If(gate, n), If(!gate, n)), Asm(two, If(!gate, m + dT), m + dF) + Asm(three, dT, dF));
  }

  lemma NarrowEquals(op: LoadOp, k: nat, value: nat)
    requires k < 0x1_0000_0000 && value < 0x1_0000_0000
    ensures Narrow(Equals(op, k, value))
  {
    assert Narrow(Is(value));
  }

  lemma NarrowPair(all: bool, left: Cond, right: Cond)
    requires Narrow(left) && Narrow(right)
    ensures Narrow(Pair(all, left, right))
  {
  }

  lemma NarrowTransport(number: nat)
    requires number < 0x100
    ensures Narrow(LowerTransport(number))
  {
    var hidden := Conj(Equals(ByteAt, 20, 44), Equals(ByteAt, 54, number));
    NarrowEquals(HalfAt, 12, ETHERTYPE_IPV6);
    NarrowEquals(HalfAt, 12, ETHERTYPE_IPV4);
    NarrowEquals(ByteAt, 20, number);
    NarrowEquals(ByteAt, 20, 44);
    NarrowEquals(ByteAt, 54, number);
    NarrowEquals(ByteAt, 23, number);
    NarrowPair(true, Equals(ByteAt, 20, 44), Equals(ByteAt, 54, number));
    NarrowPair(false, Equals(ByteAt, 20, number), hidden);
    NarrowPair(true, Equals(HalfAt, 12, ETHERTYPE_IPV4), Equals(ByteAt, 23, number));
  }

  lemma NarrowPick(direction: Option<Direction>, op: LoadOp, src: nat, dst: nat, value: nat)
    requires src < 0x100 && dst < 0x100 && value < 0x1_0000_0000
    ensures Narrow(LowerPick(direction, Equals(op, src, value), Equals(op, dst, value)))
  {
    NarrowEquals(op, src, value);
    NarrowEquals(op, dst, value);
    NarrowPair(false, Equals(op, src, value), Equals(op, dst, value));
  }

  lemma NarrowPort(port: nat, direction: Option<Direction>)
    requires port < 0x1_0000
    ensures Narrow(LowerPort(port, direction))
  {
    NarrowEquals(HalfAt, 12, ETHERTYPE_IPV6);
    NarrowEquals(ByteAt, 20, 6);
    NarrowEquals(ByteAt, 20, 17);
    NarrowEquals(ByteAt, 23, 6);
    NarrowEquals(ByteAt, 23, 17);
    NarrowPick(direction, HalfAt, 54, 56, port);
    NarrowPick(direction, HalfPastHeader, 14, 16, port);
    assert Narrow(LowerPort6(port, direction));
    assert Narrow(LowerPastHeader(port, direction));
    assert Narrow(Test(NoBits, 0x1FFF));
    assert Narrow(FirstFragment());
    NarrowPair(true, FirstFragment(), LowerPastHeader(port, direction));
    assert Narrow(LowerPort4(port, direction));
  }

  lemma {:induction false} NarrowLower(n: Node)
    requires WellFormed(n)
    ensures Narrow(Lower(n))
  {
    match n
    case Proto(name) =>
      NarrowTransport(6);
      NarrowTransport(17);
      NarrowEquals(HalfAt, 12, ETHERTYPE_IPV4);
      NarrowEquals(HalfAt, 12, ETHERTYPE_ARP);
      NarrowEquals(HalfAt, 12, ETHERTYPE_IPV6);
      NarrowEquals(ByteAt, 23, 1);
      NarrowPair(true, Equals(HalfAt, 12, ETHERTYPE_IPV4), Equals(ByteAt, 23, 1));
    case Host(addr, direction) =>
      NarrowEquals(HalfAt, 12, ETHERTYPE_IPV4);
      NarrowPick(direction, WordAt, 26, 30, addr);
      NarrowPair(true, Equals(HalfAt, 12, ETHERTYPE_IPV4),
                 LowerPick(direction, Equals(WordAt, 26, addr), Equals(WordAt, 30, addr)));
    case Port(port, direction) =>
      NarrowPort(port, direction);
    case Not(operand) =>
      NarrowLower(operand);
    case And(left, right) =>
      NarrowLower(left);
      NarrowLower(right);
      NarrowPair(true, Lower(left), Lower(right));
    case Or(left, right) =>
      NarrowLower(left);
      NarrowLower(right);
      NarrowPair(false, Lower(left), Lower(right));
  }

  /** Whatever text compiles, its program can be handed to the kernel, and unpacks to itself. */
  lemma CompiledPacks(order: Order, expr: string)
    requires Compiled(expr).Success?
    ensures var prog := Compiled(expr).value;
            && PackInstructions(order, prog).Some?
            && UnpackInstructions(order, PackInstructions(order, prog).value) == prog
  {
    var prog := Compiled(expr).value;
    var n := Understood(expr).value;
    UnderstoodExactly(expr, n);
    DerivedIsWellFormed(OrExpr, Lexer.Lexed(expr).value, 0, |Lexer.Lexed(expr).value|, n);
    NarrowLower(n);
    NarrowAsm(Lower(n), 0, 1);
    BoundedFits(Finished(Lower(n), ACCEPT_LENGTH, 0));
    forall i | i in prog ensures Encodable(i) {
      assert i in Asm(Lower(n), 0, 1) || i.code == 0x06;
    }
    PacksExactly(order, prog);
  }
}
