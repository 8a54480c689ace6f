/**
Conditions: the structure that compiled and optimized filters share. A condition tests the
registers it is entered with and leaves by one of two exits. `Go` says what it means, and `Asm`
is its code with every label already turned into a distance.
*/
module Conditions {
  import opened Bytes
  import opened Wrappers
  import opened Vm

  /** What a pair of registers is compared on. */
  datatype TestOp = Equal | NoBits {
    predicate Holds(a: nat, k: nat) {
      match this
      case Equal => a == k
      case NoBits => BitAnd(a, k) == 0
    }

    /** The jump on A and k; `jset` jumps where `NoBits` fails. */
    function Insn(k: nat, dT: nat, dF: nat): SockFilter {
      match this
      case Equal => SockFilter(0x15, dT, dF, k)
      case NoBits => SockFilter(0x45, dF, dT, k)
    }
  }

  datatype Registers = Registers(a: nat, x: nat)

  datatype LoadOp = ByteAt | HalfAt | WordAt | HalfPastHeader | HeaderLength {
    function Code(): nat {
      match this
      case ByteAt => 0x30
      case HalfAt => 0x28
      case WordAt => 0x20
      case HalfPastHeader => 0x48
      case HeaderLength => 0xB1
    }

    function Size(): nat {
      match this
      case ByteAt => 1
      case HalfAt => 2
      case WordAt => 4
      case HalfPastHeader => 2
      case HeaderLength => 1
    }

    /** The registers after the load, unless it reads past the end of the packet. */
    function Fetch(p: Packet, r: Registers, k: nat): Option<Registers> {
      match Load(p, if HalfPastHeader? then r.x + k else k, Size())
      case None => None
      case Some(v) => Some(if HeaderLength? then Registers(r.a, 4 * BitAnd(v, 0x0F)) else Registers(v, r.x))
    }
  }

  datatype Cond =
    | Test(how: TestOp, k: nat)
    | After(op: LoadOp, k: nat, body: Cond)      // load, then body
    | Negated(body: Cond)
    | Pair(all: bool, left: Cond, right: Cond)   // left and right, or left or right
    | Triple(gate: bool, one: Cond, two: Cond, three: Cond)

  function Is(value: nat): Cond { Test(Equal, value) }

  function Conj(left: Cond, right: Cond): Cond { Pair(true, left, right) }

  function Disj(left: Cond, right: Cond): Cond { Pair(false, left, right) }

  /** If `test` then `yes` else `no`. */
  function Choose(test: Cond, yes: Cond, no: Cond): Cond { Triple(false, test, yes, no) }

  /** (`one` or `two`) and `body`. */
  function Gate(one: Cond, two: Cond, body: Cond): Cond { Triple(true, one, two, body) }

  /** How a condition is left: by an exit, or by a load past the end of the packet. */
  datatype Exit =
    | Left(holds: bool, r: Registers, steps: nat)
    | Abandoned(steps: nat)
  {
    function Plus(n: nat): Exit {
      match this
      case Left(h, r, s) => Left(h, r, s + n)
      case Abandoned(s) => Abandoned(s + n)
    }

    function Flipped(): Exit {
      match this
      case Left(h, r, s) => Left(!h, r, s)
      case Abandoned(_) => this
    }

    /** Leaves by the given exit. */
    predicate By(way: bool) {
      Left? && holds == way
    }
  }

  function Go(c: Cond, p: Packet, r: Registers): Exit
    decreases c
  {
    match c
    case Test(op, k) => Left(op.Holds(r.a, k), r, 1)
    case After(op, k, body) =>
      (match op.Fetch(p, r, k)
       case None => Abandoned(1)
       case Some(r') => Go(body, p, r').Plus(1))
    case Negated(body) => Go(body, p, r).Flipped()
    case Pair(all, left, right) =>
      var e := Go(left, p, r);
      if e.By(all) then Go(right, p, e.r).Plus(e.steps) else e
    case Triple(gate, one, two, three) =>
      var e := Go(one, p, r);
      var f := if e.By(!gate) then Go(two, p, e.r).Plus(e.steps) else e;
      if gate then
        if f.By(true) then Go(three, p, f.r).Plus(f.steps) else f
      else
        if e.By(false) then Go(three, p, e.r).Plus(e.steps) else f
  }

  /** The number of instructions of a condition's code. */
  function Len(c: Cond): nat {
    match c
    case Test(_, _) => 1
    case After(_, _, body) => 1 + Len(body)
    case Negated(body) => Len(body)
    case Pair(_, left, right) => Len(left) + Len(right)
    case Triple(_, one, two, three) => Len(one) + Len(two) + Len(three)
  }

  function If(b: bool, d: nat): nat {
    if b then d else 0
  }

  /**
  The code of a condition whose true and false exits lie `dT` and `dF` instructions past its
  end. Nothing bounds the distances here.
  */
  function Asm(c: Cond, dT: nat, dF: nat): (code: Program)
    ensures |code| == Len(c)
  {
    match c
    case Test(op, k) => [op.Insn(k, dT, dF)]
    case After(op, k, body) => [SockFilter(op.Code(), 0, 0, k)] + Asm(body, dT, dF)
    case Negated(body) => Asm(body, dF, dT)
    case Pair(all, left, right) =>
      Asm(left, If(!all, Len(right) + dT), If(all, Len(right) + dF)) + Asm(right, dT, dF)
    case Triple(gate, one, two, three) =>
      Asm(one, If(gate, Len(two)), If(!gate, Len(two)))
      + (Asm(two, If(!gate, Len(three) + dT), Len(three) + dF) + Asm(three, dT, dF))
  }

  lemma PairAsm(all: bool, left: Cond, right: Cond, n: nat, dT: nat, dF: nat)
    requires n == Len(right)
    ensures Asm(Pair(all, left, right), dT, dF) == Asm(left, If(!all, n + dT), If(all, n + dF)) + Asm(right, dT, dF)
  {
  }

  lemma TripleAsm(gate: bool, one: Cond, two: Cond, three: Cond, n: nat, m: nat, dT: nat, dF: nat)
    requires n == Len(two) && m == Len(three)
    ensures Asm(Triple(gate, one, two, three), dT, dF) ==
            Asm(one, If(gate, n), If(!gate, n)) + (Asm(two, If(!gate, m + dT), m + dF) + Asm(three, dT, dF))
  {
  }

  const START := Registers(0, 0)

  /** A condition's code followed by one return for each exit. */
  function Finished(c: Cond, ifTrue: nat, ifFalse: nat): Program {
    Asm(c, 0, 1) + [SockFilter(0x06, 0, 0, ifTrue), SockFilter(0x06, 0, 0, ifFalse)]
  }
}
