/**
How long compiled programs and their jumps are: compilation succeeds exactly when the longest
jump fits 8 bits, which bounds neither the length of a program nor the length of a run.
*/
module Ranges {
  import opened Bytes
  import opened Wrappers
  import opened Vm
  import opened Filter
  import opened Conditions
  import opened Lowering
  import opened Assembler
  import opened Emission
  import opened Costs
  import opened Correctness

  function Max(a: nat, b: nat): nat {
    if a < b then b else a
  }

  /** The longest jump in a condition's code, given how far its exits lie past its end. */
  function MaxOffset(c: Cond, dT: nat, dF: nat): nat {
    match c
    case Test(_, _) => Max(dT, dF)
    case After(_, _, body) => MaxOffset(body, dT, dF)
    case Negated(body) => MaxOffset(body, dF, dT)
    case Pair(all, left, right) =>
      Max(MaxOffset(left, If(!all, Len(right) + dT), If(all, Len(right) + dF)), MaxOffset(right, dT, dF))
    case Triple(gate, one, two, three) =>
      Max(MaxOffset(one, If(gate, Len(two)), If(!gate, Len(two))),
          Max(MaxOffset(two, If(!gate, Len(three) + dT), Len(three) + dF), MaxOffset(three, dT, dF)))
  }

  /** The longest jump in a program. */
  function Longest(code: Program): nat {
    if code == [] then 0 else Max(Max(code[0].jt, code[0].jf), Longest(code[1..]))
  }

  lemma {:induction false} LongestJoins(first: Program, second: Program)
    ensures Longest(first + second) == Max(Longest(first), Longest(second))
  {
    if first == [] {
      assert first + second == second;
    } else {
      assert (first + second)[1..] == first[1..] + second;
      LongestJoins(first[1..], second);
    }
  }

  lemma {:induction false} FitsLongest(code: Program)
    ensures Fits(code) <==> Longest(code) <= 255
  {
    if code != [] {
      FitsLongest(code[1..]);
      assert code == [code[0]] + code[1..];
    }
  }

  /** The longest jump of a program, a condition's code, and how far that jumps, each as one function. */
  datatype Gauge = Gauge(longest: Program -> nat, code: (Cond, nat, nat) -> Program, far: (Cond, nat, nat) -> nat)

  ghost predicate Measures(w: Gauge) {
    && (forall code {:trigger Longest(code)} :: w.longest(code) == Longest(code))
    && (forall c, dT, dF {:trigger Asm(c, dT, dF)} :: w.code(c, dT, dF) == Asm(c, dT, dF))
    && (forall c, dT, dF {:trigger MaxOffset(c, dT, dF)} :: w.far(c, dT, dF) == MaxOffset(c, dT, dF))
  }

  lemma GaugeOf() returns (w: Gauge)
    ensures Measures(w)
  {
    w := Gauge((code: Program) => Longest(code), (c: Cond, dT: nat, dF: nat) => Asm(c, dT, dF),
               (c: Cond, dT: nat, dF: nat) => MaxOffset(c, dT, dF));
  }

  lemma Gauged(w: Gauge, c: Cond, dT: nat, dF: nat)
    requires Measures(w)
    ensures w.code(c, dT, dF) == Asm(c, dT, dF) && w.far(c, dT, dF) == MaxOffset(c, dT, dF)
  {
  }

  lemma MeasuresJoin(w: Gauge, first: Program, second: Program)
    requires Measures(w)
    ensures w.longest(first + second) == Max(w.longest(first), w.longest(second))
  {
    LongestJoins(first, second);
  }

  lemma MeasuresOne(w: Gauge, i: SockFilter)
    requires Measures(w)
    ensures w.longest([i]) == Max(i.jt, i.jf)
  {
    assert Longest([i]) == Max(Max(i.jt, i.jf), Longest([i][1..]));
  }

  /** The longest jump of a condition's code is the one computed from the condition. */
  lemma {:induction false} AsmLongest(w: Gauge, c: Cond, dT: nat, dF: nat)
    requires Measures(w)
    ensures w.longest(w.code(c, dT, dF)) == w.far(c, dT, dF)
    decreases c
  {
    match c
    case Test(op, k) =>
      MeasuresOne(w, op.Insn(k, dT, dF));
      Gauged(w, c, dT, dF);
    case After(op, k, body) =>
      MeasuresOne(w, SockFilter(op.Code(), 0, 0, k));
      MeasuresJoin(w, [SockFilter(op.Code(), 0, 0, k)], w.code(body, dT, dF));
      AsmLongest(w, body, dT, dF);
      Gauged(w, c, dT, dF);
      Gauged(w, body, dT, dF);
    case Negated(body) =>
      AsmLongest(w, body, dF, dT);
      Gauged(w, c, dT, dF);
      Gauged(w, body, dF, dT);
    case Pair(all, left, right) =>
      var n := Len(right);
      AsmLongest(w, left, If(!all, n + dT), If(all, n + dF));
      AsmLongest(w, right, dT, dF);
      PairGauge(w, all, left, right, n, dT, dF);
      MeasuresJoin(w, w.code(left, If(!all, n + dT), If(all, n + dF)), w.code(right, dT, dF));
    case Triple(gate, one, two, three) =>
      var n, m := Len(two), Len(three);
      AsmLongest(w, one, If(gate, n), If(!gate, n));
      AsmLongest(w, two, If(!gate, m + dT), m + dF);
      AsmLongest(w, three, dT, dF);
      TripleLongest(w, gate, one, two, three, n, m, dT, dF);
  }

  lemma PairGauge(w: Gauge, all: bool, left: Cond, right: Cond, n: nat, dT: nat, dF: nat)
    requires Measures(w) && n == Len(right)
    ensures var c, lT, lF := Pair(all, left, right), If(!all, n + dT), If(all, n + dF);
            && w.code(c, dT, dF) == w.code(left, lT, lF) + w.code(right, dT, dF)
            && w.far(c, dT, dF) == Max(w.far(left, lT, lF), w.far(right, dT, dF))
  {
    Gauged(w, Pair(all, left, right), dT, dF);
    Gauged(w, left, If(!all, n + dT), If(all, n + dF));
    Gauged(w, right, dT, dF);
    PairAsm(all, left, right, n, dT, dF);
    PairShape(all, left, right, n, dT, dF);
  }

  lemma TripleGauge(w: Gauge, gate: bool, one: Cond, two: Cond, three: Cond, n: nat, m: nat, dT: nat, dF: nat)
    requires Measures(w) && n == Len(two) && m == Len(three)
    ensures var c, tT, tF := Triple(gate, one, two, three), If(!gate, m + dT), m + dF;
            && w.code(c, dT, dF) ==
               w.code(one, If(gate, n), If(!gate, n)) + (w.code(two, tT, tF) + w.code(three, dT, dF))
            && w.far(c, dT, dF) ==
               Max(w.far(one, If(gate, n), If(!gate, n)), Max(w.far(two, tT, tF), w.far(three, dT, dF)))
  {
    Gauged(w, Triple(gate, one, two, three), dT, dF);
    Gauged(w, one, If(gate, n), If(!gate, n));
    Gauged(w, two, If(!gate, m + dT), m + dF);
    Gauged(w, three, dT, dF);
    TripleAsm(gate, one, two, three, n, m, dT, dF);
    TripleShape(gate, one, two, three, n, m, dT, dF);
  }

  lemma TripleLongest(w: Gauge, gate: bool, one: Cond, two: Cond, three: Cond, n: nat, m: nat, dT: nat, dF: nat)
    requires Measures(w) && n == Len(two) && m == Len(three)
    requires w.longest(w.code(one, If(gate, n), If(!gate, n))) == w.far(one, If(gate, n), If(!gate, n))
    requires w.longest(w.code(two, If(!gate, m + dT), m + dF)) == w.far(two, If(!gate, m + dT), m + dF)
    requires w.longest(w.code(three, dT, dF)) == w.far(three, dT, dF)
    ensures w.longest(w.code(Triple(gate, one, two, three), dT, dF)) == w.far(Triple(gate, one, two, three), dT, dF)
  {
    TripleGauge(w, gate, one, two, three, n, m, dT, dF);
    MeasuresThree(w, w.code(one, If(gate, n), If(!gate, n)), w.code(two, If(!gate, m + dT), m + dF),
                  w.code(three, dT, dF));
  }

  lemma MeasuresThree(w: Gauge, first: Program, second: Program, third: Program)
    requires Measures(w)
    ensures w.longest(first + (second + third)) == Max(w.longest(first), Max(w.longest(second), w.longest(third)))
  {
    MeasuresJoin(w, first, second + third);
    MeasuresJoin(w, second, third);
  }

  /** The number of instructions an expression compiles to, the two returns aside. */
  function Size(node: Node): nat {
    match node
    case Proto(Ip) => 2
    case Proto(Arp) => 2
    case Proto(Ip6) => 2
    case Proto(Icmp) => 4
    case Proto(_) => 12
    case Host(_, direction) => if direction.None? then 6 else 4
    case Port(_, direction) => if direction.None? then 21 else 17
    case Not(operand) => Size(operand)
    case And(left, right) => Size(left) + Size(right)
    case Or(left, right) => Size(left) + Size(right)
  }

  /** The longest jump of an expression whose exits lie `dT` and `dF` past its code. */
  function Reach(node: Node, dT: nat, dF: nat): nat {
    match node
    case Proto(Ip) => Max(dT, dF)
    case Proto(Arp) => Max(dT, dF)
    case Proto(Ip6) => Max(dT, dF)
    case Proto(Icmp) => Max(dT, dF + 2)
    case Proto(_) => Max(dT + 8, dF + 6)
    case Host(_, direction) => if direction.None? then Max(dT + 2, dF + 4) else Max(dT, dF + 2)
    case Port(_, direction) => if direction.None? then Max(dT + 13, dF + 15) else Max(dT + 9, dF + 11)
    case Not(operand) => Reach(operand, dF, dT)
    case And(left, right) => Max(Reach(left, 0, Size(right) + dF), Reach(right, dT, dF))
    case Or(left, right) => Max(Reach(left, Size(right) + dT, 0), Reach(right, dT, dF))
  }

  lemma EqualsShape(op: LoadOp, k: nat, value: nat, dT: nat, dF: nat)
    ensures Len(Equals(op, k, value)) == 2
    ensures MaxOffset(Equals(op, k, value), dT, dF) == Max(dT, dF)
  {
    assert Len(Is(value)) == 1;
    assert MaxOffset(Is(value), dT, dF) == Max(dT, dF);
  }

  lemma PairShape(all: bool, left: Cond, right: Cond, n: nat, dT: nat, dF: nat)
    requires n == Len(right)
    ensures Len(Pair(all, left, right)) == Len(left) + n
    ensures MaxOffset(Pair(all, left, right), dT, dF) ==
            Max(MaxOffset(left, If(!all, n + dT), If(all, n + dF)), MaxOffset(right, dT, dF))
  {
  }

  lemma TripleShape(gate: bool, one: Cond, two: Cond, three: Cond, n: nat, m: nat, dT: nat, dF: nat)
    requires n == Len(two) && m == Len(three)
    ensures Len(Triple(gate, one, two, three)) == Len(one) + n + m
    ensures MaxOffset(Triple(gate, one, two, three), dT, dF) ==
            Max(MaxOffset(one, If(gate, n), If(!gate, n)),
                Max(MaxOffset(two, If(!gate, m + dT), m + dF), MaxOffset(three, dT, dF)))
  {
  }

  lemma TransportShape(number: nat, dT: nat, dF: nat)
    ensures Len(LowerTransport(number)) == 12
    ensures MaxOffset(LowerTransport(number), dT, dF) == Max(dT + 8, dF + 6)
  {
    var next, frag, hidden := Equals(ByteAt, 20, number), Equals(ByteAt, 20, 44), Equals(ByteAt, 54, number);
    var v6, v4 := Equals(HalfAt, 12, ETHERTYPE_IPV6), Equals(HalfAt, 12, ETHERTYPE_IPV4);
    var last := Equals(ByteAt, 23, number);
    EqualsShape(HalfAt, 12, ETHERTYPE_IPV6, 0, 6);
    EqualsShape(ByteAt, 20, number, 4 + 4 + dT, 0);
    EqualsShape(ByteAt, 20, 44, 0, 2 + 4 + dF);
    EqualsShape(ByteAt, 54, number, 4 + dT, 4 + dF);
    EqualsShape(HalfAt, 12, ETHERTYPE_IPV4, 0, 2 + dF);
    EqualsShape(ByteAt, 23, number, dT, dF);
    PairShape(true, frag, hidden, 2, 4 + dT, 4 + dF);
    PairShape(false, next, Conj(frag, hidden), 4, 4 + dT, 4 + dF);
    PairShape(true, v4, last, 2, dT, dF);
    TripleShape(false, v6, Disj(next, Conj(frag, hidden)), Conj(v4, last), 6, 4, dT, dF);
  }

  lemma PickShape(direction: Option<Direction>, op: LoadOp, src: nat, dst: nat, value: nat, dT: nat, dF: nat)
    ensures var c := LowerPick(direction, Equals(op, src, value), Equals(op, dst, value));
            && Len(c) == (if direction.None? then 4 else 2)
            && MaxOffset(c, dT, dF) == if direction.None? then Max(dT + 2, dF) else Max(dT, dF)
  {
    EqualsShape(op, src, value, if direction.None? then 2 + dT else dT, if direction.None? then 0 else dF);
    EqualsShape(op, dst, value, dT, dF);
    PairShape(false, Equals(op, src, value), Equals(op, dst, value), 2, dT, dF);
  }

  lemma HostShape(addr: nat, direction: Option<Direction>, dT: nat, dF: nat)
    ensures Len(LowerHost(addr, direction)) == Size(Host(addr, direction))
    ensures MaxOffset(LowerHost(addr, direction), dT, dF) == Reach(Host(addr, direction), dT, dF)
  {
    var value := LowerPick(direction, Equals(WordAt, 26, addr), Equals(WordAt, 30, addr));
    PickShape(direction, WordAt, 26, 30, addr, dT, dF);
    EqualsShape(HalfAt, 12, ETHERTYPE_IPV4, 0, Len(value) + dF);
    PairShape(true, Equals(HalfAt, 12, ETHERTYPE_IPV4), value, Len(value), dT, dF);
  }

  lemma Port6Shape(port: nat, direction: Option<Direction>, dT: nat, dF: nat)
    ensures Len(LowerPort6(port, direction)) == if direction.None? then 8 else 6
    ensures MaxOffset(LowerPort6(port, direction), dT, dF) ==
            if direction.None? then Max(dT + 2, dF + 4) else Max(Max(dT, dF + 2), 2)
  {
    var value := LowerPick(direction, Equals(HalfAt, 54, port), Equals(HalfAt, 56, port));
    PickShape(direction, HalfAt, 54, 56, port, dT, dF);
    EqualsShape(ByteAt, 20, 6, 2, 0);
    EqualsShape(ByteAt, 20, 17, 0, Len(value) + dF);
    TripleShape(true, Equals(ByteAt, 20, 6), Equals(ByteAt, 20, 17), value, 2, Len(value), dT, dF);
  }

  lemma Port4Shape(port: nat, direction: Option<Direction>, dT: nat, dF: nat)
    ensures Len(LowerPort4(port, direction)) == if direction.None? then 11 else 9
    ensures MaxOffset(LowerPort4(port, direction), dT, dF) ==
            if direction.None? then Max(dT + 2, dF + 7) else Max(dT, dF + 5)
  {
    var value := LowerPick(direction, Equals(HalfPastHeader, 14, port), Equals(HalfPastHeader, 16, port));
    var ports, first := LowerPastHeader(port, direction), After(HalfAt, 20, Test(NoBits, 0x1FFF));
    PickShape(direction, HalfPastHeader, 14, 16, port, dT, dF);
    assert Len(ports) == 1 + Len(value) && MaxOffset(ports, dT, dF) == MaxOffset(value, dT, dF);
    assert Len(Test(NoBits, 0x1FFF)) == 1 && MaxOffset(Test(NoBits, 0x1FFF), 0, Len(ports) + dF) == Len(ports) + dF;
    PairShape(true, first, ports, Len(ports), dT, dF);
    EqualsShape(ByteAt, 23, 6, 2, 0);
    EqualsShape(ByteAt, 23, 17, 0, Len(Conj(first, ports)) + dF);
    TripleShape(true, Equals(ByteAt, 23, 6), Equals(ByteAt, 23, 17), Conj(first, ports), 2, Len(Conj(first, ports)),
                dT, dF);
  }

  lemma PortShape(port: nat, direction: Option<Direction>, dT: nat, dF: nat)
    ensures Len(LowerPort(port, direction)) == Size(Port(port, direction))
    ensures MaxOffset(LowerPort(port, direction), dT, dF) == Reach(Port(port, direction), dT, dF)
  {
    var six, four := LowerPort6(port, direction), LowerPort4(port, direction);
    var past := if direction.None? then 11 else 9;
    Port6Shape(port, direction, past + dT, past + dF);
    Port4Shape(port, direction, dT, dF);
    EqualsShape(HalfAt, 12, ETHERTYPE_IPV6, 0, Len(six));
    TripleShape(false, Equals(HalfAt, 12, ETHERTYPE_IPV6), six, four, Len(six), past, dT, dF);
  }

  lemma ProtoShape(name: Protocol, dT: nat, dF: nat)
    ensures Len(LowerProto(name)) == Size(Proto(name))
    ensures MaxOffset(LowerProto(name), dT, dF) == Reach(Proto(name), dT, dF)
  {
    match name
    case Ip => EqualsShape(HalfAt, 12, ETHERTYPE_IPV4, dT, dF);
    case Arp => EqualsShape(HalfAt, 12, ETHERTYPE_ARP, dT, dF);
    case Ip6 => EqualsShape(HalfAt, 12, ETHERTYPE_IPV6, dT, dF);
    case Icmp =>
      EqualsShape(HalfAt, 12, ETHERTYPE_IPV4, 0, 2 + dF);
      EqualsShape(ByteAt, 23, 1, dT, dF);
      PairShape(true, Equals(HalfAt, 12, ETHERTYPE_IPV4), Equals(ByteAt, 23, 1), 2, dT, dF);
    case Tcp => TransportShape(6, dT, dF);
    case Udp => TransportShape(17, dT, dF);
  }

  /** An expression's condition, size and reach, and its condition's length and longest jump, each as one function. */
  datatype Measure = Measure(lower: Node -> Cond, len: Cond -> nat, far: (Cond, nat, nat) -> nat,
                             size: Node -> nat, reach: (Node, nat, nat) -> nat)

  ghost predicate Exact(w: Measure) {
    && (forall n {:trigger Lower(n)} :: w.lower(n) == Lower(n))
    && (forall c {:trigger Len(c)} :: w.len(c) == Len(c))
    && (forall c, dT, dF {:trigger MaxOffset(c, dT, dF)} :: w.far(c, dT, dF) == MaxOffset(c, dT, dF))
    && (forall n {:trigger Size(n)} :: w.size(n) == Size(n))
    && (forall n, dT, dF {:trigger Reach(n, dT, dF)} :: w.reach(n, dT, dF) == Reach(n, dT, dF))
  }

  lemma MeasureOf() returns (w: Measure)
    ensures Exact(w)
  {
    w := Measure((n: Node) => Lower(n), (c: Cond) => Len(c), (c: Cond, dT: nat, dF: nat) => MaxOffset(c, dT, dF),
                 (n: Node) => Size(n), (n: Node, dT: nat, dF: nat) => Reach(n, dT, dF));
  }

  lemma Measured(w: Measure, c: Cond, n: Node, dT: nat, dF: nat)
    requires Exact(w)
    ensures w.len(c) == Len(c) && w.far(c, dT, dF) == MaxOffset(c, dT, dF)
    ensures w.lower(n) == Lower(n) && w.size(n) == Size(n) && w.reach(n, dT, dF) == Reach(n, dT, dF)
  {
  }

  ghost predicate Alike(w: Measure, n: Node, dT: nat, dF: nat) {
    w.len(w.lower(n)) == w.size(n) && w.far(w.lower(n), dT, dF) == w.reach(n, dT, dF)
  }

  lemma {:induction false} AllAlike(w: Measure, node: Node, dT: nat, dF: nat)
    requires Exact(w)
    ensures Alike(w, node, dT, dF)
    decreases node
  {
    match node
    case Not(operand) =>
      AllAlike(w, operand, dF, dT);
      NotAlike(w, operand, dT, dF);
    case And(left, right) =>
      AllAlike(w, right, dT, dF);
      AllAlike(w, left, 0, w.size(right) + dF);
      AndAlike(w, left, right, w.lower(left), w.lower(right), w.size(right), dT, dF);
    case Or(left, right) =>
      AllAlike(w, right, dT, dF);
      AllAlike(w, left, w.size(right) + dT, 0);
      OrAlike(w, left, right, w.lower(left), w.lower(right), w.size(right), dT, dF);
    case _ =>
      PrimitiveShape(node, dT, dF);
      Measured(w, Lower(node), node, dT, dF);
  }

  lemma NotAlike(w: Measure, operand: Node, dT: nat, dF: nat)
    requires Exact(w) && Alike(w, operand, dF, dT)
    ensures Alike(w, Not(operand), dT, dF)
  {
    Measured(w, Lower(operand), operand, dF, dT);
    Measured(w, Negated(Lower(operand)), Not(operand), dT, dF);
  }

  lemma AndAlike(w: Measure, left: Node, right: Node, l: Cond, r: Cond, n: nat, dT: nat, dF: nat)
    requires Exact(w) && l == w.lower(left) && r == w.lower(right) && n == w.size(right)
    requires Alike(w, left, 0, n + dF) && Alike(w, right, dT, dF)
    ensures Alike(w, And(left, right), dT, dF)
  {
    Measured(w, l, left, 0, n + dF);
    Measured(w, r, right, dT, dF);
    Measured(w, Conj(l, r), And(left, right), dT, dF);
    PairShape(true, l, r, n, dT, dF);
    PairReach(left, right, n, dT, dF);
    assert Lower(And(left, right)) == Conj(Lower(left), Lower(right));
  }

  lemma OrAlike(w: Measure, left: Node, right: Node, l: Cond, r: Cond, n: nat, dT: nat, dF: nat)
    requires Exact(w) && l == w.lower(left) && r == w.lower(right) && n == w.size(right)
    requires Alike(w, left, n + dT, 0) && Alike(w, right, dT, dF)
    ensures Alike(w, Or(left, right), dT, dF)
  {
    Measured(w, l, left, n + dT, 0);
    Measured(w, r, right, dT, dF);
    Measured(w, Disj(l, r), Or(left, right), dT, dF);
    PairShape(false, l, r, n, dT, dF);
    PairReach(left, right, n, dT, dF);
    assert Lower(Or(left, right)) == Disj(Lower(left), Lower(right));
  }

  /** The sizes and ranges above are those of the generated code. */
  lemma LowerShape(node: Node, dT: nat, dF: nat)
    ensures Len(Lower(node)) == Size(node)
    ensures MaxOffset(Lower(node), dT, dF) == Reach(node, dT, dF)
  {
    var w := MeasureOf();
    AllAlike(w, node, dT, dF);
    Measured(w, Lower(node), node, dT, dF);
  }

  lemma PrimitiveShape(node: Node, dT: nat, dF: nat)
    requires node.Proto? || node.Host? || node.Port?
    ensures Len(Lower(node)) == Size(node) && MaxOffset(Lower(node), dT, dF) == Reach(node, dT, dF)
  {
    match node
    case Proto(name) => ProtoShape(name, dT, dF);
    case Host(addr, direction) => HostShape(addr, direction, dT, dF);
    case Port(port, direction) => PortShape(port, direction, dT, dF);
  }

  lemma PairReach(left: Node, right: Node, n: nat, dT: nat, dF: nat)
    requires n == Size(right)
    ensures Size(And(left, right)) == Size(Or(left, right)) == Size(left) + n
    ensures Reach(And(left, right), dT, dF) == Max(Reach(left, 0, n + dF), Reach(right, dT, dF))
    ensures Reach(Or(left, right), dT, dF) == Max(Reach(left, n + dT, 0), Reach(right, dT, dF))
  {
  }

  /**
  An expression compiles exactly when its longest jump fits 8 bits, and then to `Size` plus two
  instructions: the size bounds nothing, only the distance from a test to where it may go.
  */
  lemma CompilesIff(node: Node)
    ensures Assembled(node).Success? <==> Reach(node, 0, 1) <= 255
    ensures Assembled(node).Success? ==> |Assembled(node).value| == Size(node) + 2
    ensures Assembled(node).Failure? ==> Assembled(node).error.OutOfRange? && Assembled(node).error.offset > 255
  {
    var c := Lower(node);
    var prog := Finished(c, ACCEPT_LENGTH, 0);
    var w := GaugeOf();
    BoundedFits(prog);
    FitsLongest(prog);
    AsmLongest(w, c, 0, 1);
    Gauged(w, c, 0, 1);
    LowerShape(node, 0, 1);
    var accept, reject := SockFilter(0x06, 0, 0, ACCEPT_LENGTH), SockFilter(0x06, 0, 0, 0);
    MeasuresOne(w, accept);
    MeasuresOne(w, reject);
    MeasuresJoin(w, [accept], [reject]);
    MeasuresJoin(w, Asm(c, 0, 1), [accept] + [reject]);
    assert prog == Asm(c, 0, 1) + ([accept] + [reject]);
    if Bounded(prog).Failure? {
      BoundedFails(prog, Bounded(prog).error);
    }
  }

  /** The answer of a program that accepts with the usual length or keeps nothing. */
  function Accepting(accepts: bool): Verdict {
    Keep(if accepts then ACCEPT_LENGTH else 0)
  }

  lemma CompiledVerdict(node: Node, p: Packet)
    requires Reach(node, 0, 1) <= 255 && Size(node) <= 1000
    ensures Assembled(node).Success?
    ensures Answer(Assembled(node).value, p) == Accepting(Eval(node, p) == True)
  {
    CompilesIff(node);
    ShortProgramsAnswer(node, p);
  }

  /** A bare `host` or `port` compiles to another program than its two directions, with the same verdicts. */
  lemma DesugaredVerdicts(v: nat, p: Packet)
    ensures SameAnswer(Host(v, None), Or(Host(v, Some(Src)), Host(v, Some(Dst))), p)
    ensures SameAnswer(Port(v, None), Or(Port(v, Some(Src)), Port(v, Some(Dst))), p)
  {
    Desugars(v, p);
    DirectionsReach(v);
    CompiledVerdict(Host(v, None), p);
    CompiledVerdict(Or(Host(v, Some(Src)), Host(v, Some(Dst))), p);
    CompiledVerdict(Port(v, None), p);
    CompiledVerdict(Or(Port(v, Some(Src)), Port(v, Some(Dst))), p);
  }

  /** Both expressions compile, and their programs answer alike. */
  ghost predicate SameAnswer(m: Node, n: Node, p: Packet) {
    && Assembled(m).Success? && Assembled(n).Success?
    && Answer(Assembled(m).value, p) == Answer(Assembled(n).value, p)
  }

  lemma DirectionsReach(v: nat)
    ensures Reach(Host(v, None), 0, 1) <= 255 && Reach(Or(Host(v, Some(Src)), Host(v, Some(Dst))), 0, 1) <= 255
    ensures Reach(Port(v, None), 0, 1) <= 255 && Reach(Or(Port(v, Some(Src)), Port(v, Some(Dst))), 0, 1) <= 255
    ensures Size(Or(Host(v, Some(Src)), Host(v, Some(Dst)))) <= 1000
    ensures Size(Or(Port(v, Some(Src)), Port(v, Some(Dst)))) <= 1000
  {
  }

  /** `tcp or tcp or … or tcp`, n times, as it parses. */
  function OrOfTcp(n: nat): Node
    requires n > 0
  {
    if n == 1 then Proto(Tcp) else Or(OrOfTcp(n - 1), Proto(Tcp))
  }

  lemma {:induction false} OrOfTcpReach(n: nat, dT: nat, dF: nat)
    requires n > 0
    ensures Reach(OrOfTcp(n), dT, dF) == Max(12 * (n - 1) + 8 + dT, 6 + dF)
  {
    if n > 1 {
      OrOfTcpReach(n - 1, 12 + dT, 0);
    }
  }

  /** 21 of them still compile and 22 do not, nor any longer chain. */
  lemma TwentyOneCompile(n: nat)
    requires n > 0
    ensures Assembled(OrOfTcp(n)).Success? <==> n <= 21
  {
    CompilesIff(OrOfTcp(n));
    OrOfTcpReach(n, 0, 1);
  }

  /** `arp and arp and … and arp`, k times, as it parses. */
  function AndOfArp(k: nat): Node
    requires k > 0
  {
    if k == 1 then Proto(Arp) else And(AndOfArp(k - 1), Proto(Arp))
  }

  /** `((arp and A or ip) and A or ip) …`, n deep, where A is `arp` k times. */
  function Nested(n: nat, k: nat): Node
    requires k > 0
  {
    if n == 0 then Proto(Arp) else Or(And(Nested(n - 1, k), AndOfArp(k)), Proto(Ip))
  }

  lemma {:induction false} AndOfArpShape(k: nat, dT: nat, dF: nat)
    requires k > 0
    ensures Size(AndOfArp(k)) == 2 * k
    ensures Reach(AndOfArp(k), dT, dF) == Max(dT, 2 * (k - 1) + dF)
  {
    if k > 1 {
      AndOfArpShape(k - 1, 0, 2 + dF);
    }
  }

  lemma {:induction false} NestedReach(n: nat, k: nat, dT: nat, dF: nat)
    requires k > 0
    ensures Reach(Nested(n, k), dT, dF) <= Max(2 * k, Max(2 + dT, dF))
  {
    if n > 0 {
      NestedReach(n - 1, k, 0, 2 * k);
      AndOfArpShape(k, 2 + dT, 0);
    }
  }

  const ARP_FRAME: Packet := [0, 0, 0, 0, 0, 0, 0, 0, 0, 0, 0, 0, 8, 6]

  lemma ArpHolds()
    ensures Eval(Proto(Arp), ARP_FRAME) == True && Spent(Proto(Arp), ARP_FRAME) == 2
  {
    assert ARP_FRAME[12..14] == [8, 6];
    Big2(8, 6);
  }

  lemma {:induction false} AndOfArpHolds(k: nat)
    requires k > 0
    ensures Eval(AndOfArp(k), ARP_FRAME) == True && Spent(AndOfArp(k), ARP_FRAME) == 2 * k
  {
    ArpHolds();
    if k > 1 {
      AndOfArpHolds(k - 1);
    }
  }

  lemma {:induction false} NestedHolds(n: nat, k: nat)
    requires k > 0
    ensures Eval(Nested(n, k), ARP_FRAME) == True && Spent(Nested(n, k), ARP_FRAME) == 2 + 2 * k * n
  {
    ArpHolds();
    if n > 0 {
      NestedHolds(n - 1, k);
      AndOfArpHolds(k);
      assert 2 * k * n == 2 * k * (n - 1) + 2 * k;
      var both := And(Nested(n - 1, k), AndOfArp(k));
      assert Eval(both, ARP_FRAME) == True && Spent(both, ARP_FRAME) == 2 + 2 * k * n;
    }
  }

  /**
  The interpreter's step guard is within reach: an expression that compiles, of depth 42 with 120
  tests at each level, needs more than 10,000 steps on a 14-byte frame, and the interpreter
  raises instead of answering.
  */
  lemma GuardIsReachable() returns (node: Node)
    ensures Assembled(node).Success? && Eval(node, ARP_FRAME) == True
    ensures Answer(Assembled(node).value, ARP_FRAME) == Raised(TooManySteps)
  {
    node := Nested(42, 120);
    NestedReach(42, 120, 0, 1);
    CompilesIff(node);
    NestedHolds(42, 120);
    CompilerCorrect(node, ARP_FRAME);
  }
}
