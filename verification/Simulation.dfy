/** The interpreter runs a condition's label-free code as the condition says. */
module Simulation {
  import opened Bytes
  import opened Wrappers
  import opened Vm
  import opened Conditions

  /** `code` stands in `prog` at `pc`. */
  ghost predicate CodeAt(prog: Program, pc: nat, code: Program) {
    pc + |code| <= |prog| && prog[pc..pc + |code|] == code
  }

  lemma CodeSplits(prog: Program, pc: nat, first: Program, second: Program)
    requires CodeAt(prog, pc, first + second)
    ensures CodeAt(prog, pc, first) && CodeAt(prog, pc + |first|, second)
  {
    var both := prog[pc..pc + |first + second|];
    assert both[..|first|] == first && both[|first|..] == second;
  }

  lemma CodeSplits3(prog: Program, pc: nat, first: Program, second: Program, third: Program)
    requires CodeAt(prog, pc, first + (second + third))
    ensures CodeAt(prog, pc, first)
    ensures CodeAt(prog, pc + |first|, second)
    ensures CodeAt(prog, pc + |first| + |second|, third)
  {
    CodeSplits(prog, pc, first, second + third);
    CodeSplits(prog, pc + |first|, second, third);
  }

  /** What is left of a run: how it ends and how many more instructions it dispatches. */
  datatype Rest = Rest(end: Outcome, steps: nat)

  /** The rest of the run from every pc and register contents, as one function. */
  type Machine = (nat, Registers) -> Rest

  function Resume(prog: Program, pc: nat, r: Registers, p: Packet): Rest {
    Rest(Exec(prog, pc, r.a, r.x, p), Steps(prog, pc, r.a, r.x, p))
  }

  ghost predicate Runs(m: Machine, prog: Program, p: Packet) {
    forall pc, r {:trigger Resume(prog, pc, r, p)} :: m(pc, r) == Resume(prog, pc, r, p)
  }

  /** From `pc` the machine gets to `to` with registers `r'` in `n` steps. */
  ghost predicate Reaches(m: Machine, pc: nat, r: Registers, to: nat, r': Registers, n: nat) {
    m(pc, r) == Rest(m(to, r').end, n + m(to, r').steps)
  }

  /** The code at `pc` is left exactly as `e` says, its exits lying `dT` and `dF` past `end`. */
  ghost predicate LeavesAs(m: Machine, pc: nat, r: Registers, e: Exit, end: nat, dT: nat, dF: nat) {
    match e
    case Left(holds, r', n) => Reaches(m, pc, r, end + (if holds then dT else dF), r', n)
    case Abandoned(n) => m(pc, r) == Rest(Rejected, n)
  }

  /** One instruction of the machine. */
  lemma Unrolled(m: Machine, prog: Program, p: Packet, pc: nat, r: Registers)
    requires Runs(m, prog, p) && pc < |prog|
    ensures match Step(prog[pc], r.a, r.x, p)
            case Next(a, x) => Reaches(m, pc, r, pc + 1, Registers(a, x), 1)
            case Jump(delta) => Reaches(m, pc, r, pc + delta, r, 1)
            case Return(v) => m(pc, r) == Rest(Halted(v), 1)
            case OutOfBounds => m(pc, r) == Rest(Rejected, 1)
            case Raise(f) => m(pc, r) == Rest(Faulted(f), 1)
  {
    var here := Resume(prog, pc, r, p);
    match Step(prog[pc], r.a, r.x, p)
    case Next(a, x) => var there := Resume(prog, pc + 1, Registers(a, x), p);
    case Jump(delta) => var there := Resume(prog, pc + delta, r, p);
    case _ =>
  }

  lemma OneLoad(m: Machine, prog: Program, p: Packet, pc: nat, r: Registers, op: LoadOp, k: nat)
    requires Runs(m, prog, p)
    requires CodeAt(prog, pc, [SockFilter(op.Code(), 0, 0, k)])
    ensures match op.Fetch(p, r, k)
            case None => LeavesAs(m, pc, r, Abandoned(1), pc + 1, 0, 0)
            case Some(r') => Reaches(m, pc, r, pc + 1, r', 1)
  {
    assert prog[pc] == prog[pc..pc + 1][0];
    LoadStep(op, k, r, p);
    Unrolled(m, prog, p, pc, r);
  }

  lemma LoadStep(op: LoadOp, k: nat, r: Registers, p: Packet)
    ensures Step(SockFilter(op.Code(), 0, 0, k), r.a, r.x, p) ==
            match op.Fetch(p, r, k) case None => OutOfBounds case Some(r') => Next(r'.a, r'.x)
  {
    match op
    case ByteAt => AbsoluteStep(SockFilter(0x30, 0, 0, k), 1, r, p);
    case HalfAt => AbsoluteStep(SockFilter(0x28, 0, 0, k), 2, r, p);
    case WordAt => AbsoluteStep(SockFilter(0x20, 0, 0, k), 4, r, p);
    case HalfPastHeader => IndexedStep(SockFilter(0x48, 0, 0, k), 2, r, p);
    case HeaderLength => HeaderLengthStep(SockFilter(0xB1, 0, 0, k), r, p);
  }

  lemma AbsoluteStep(i: SockFilter, size: nat, r: Registers, p: Packet)
    requires i.code % 8 == 0 && i.code / 32 % 8 == 1 && SizeBytes(8 * (i.code / 8 % 4)) == Some(size)
    ensures Step(i, r.a, r.x, p) == LoadA(Load(p, i.k, size), r.x)
  {
    DecodesLoad(i.code);
  }

  lemma IndexedStep(i: SockFilter, size: nat, r: Registers, p: Packet)
    requires i.code % 8 == 0 && i.code / 32 % 8 == 2 && SizeBytes(8 * (i.code / 8 % 4)) == Some(size)
    ensures Step(i, r.a, r.x, p) == LoadA(Load(p, r.x + i.k, size), r.x)
  {
    DecodesLoad(i.code);
  }

  lemma HeaderLengthStep(i: SockFilter, r: Registers, p: Packet)
    requires i.code % 8 == 1 && i.code / 32 % 8 == 5
    ensures Step(i, r.a, r.x, p) == LoadX(Load(p, i.k, 1), r.a)
  {
    DecodesHeaderLength(i.code);
  }

  lemma OneTest(m: Machine, prog: Program, p: Packet, pc: nat, r: Registers, op: TestOp, k: nat, dT: nat, dF: nat)
    requires Runs(m, prog, p)
    requires CodeAt(prog, pc, [op.Insn(k, dT, dF)])
    ensures Reaches(m, pc, r, pc + 1 + (if op.Holds(r.a, k) then dT else dF), r, 1)
  {
    assert prog[pc] == prog[pc..pc + 1][0];
    TestStep(op, k, dT, dF, r.a, r.x, p);
    Unrolled(m, prog, p, pc, r);
  }

  lemma TestStep(op: TestOp, k: nat, dT: nat, dF: nat, a: nat, x: nat, p: Packet)
    ensures Step(op.Insn(k, dT, dF), a, x, p) == Jump((if op.Holds(a, k) then dT else dF) + 1)
  {
    match op
    case Equal => EqualStep(SockFilter(0x15, dT, dF, k), a, x, p);
    case NoBits => NoBitsStep(SockFilter(0x45, dF, dT, k), a, x, p);
  }

  lemma EqualStep(i: SockFilter, a: nat, x: nat, p: Packet)
    requires i.code % 8 == 5 && i.code / 8 % 2 == 0 && i.code / 16 % 16 == 1
    ensures Step(i, a, x, p) == Jump((if a == i.k then i.jt else i.jf) + 1)
  {
    DecodesJump(i.code);
  }

  lemma NoBitsStep(i: SockFilter, a: nat, x: nat, p: Packet)
    requires i.code % 8 == 5 && i.code / 8 % 2 == 0 && i.code / 16 % 16 == 4
    ensures Step(i, a, x, p) == Jump((if BitAnd(a, i.k) != 0 then i.jt else i.jf) + 1)
  {
    DecodesJump(i.code);
  }

  /** Getting somewhere and leaving from there. */
  lemma Onward(m: Machine, pc: nat, r: Registers, mid: nat, r': Registers, n: nat,
               e: Exit, end: nat, dT: nat, dF: nat)
    requires Reaches(m, pc, r, mid, r', n)
    requires LeavesAs(m, mid, r', e, end, dT, dF)
    ensures LeavesAs(m, pc, r, e.Plus(n), end, dT, dF)
  {
  }

  lemma Farther(m: Machine, pc: nat, r: Registers, e: Exit, end: nat, d: nat, dT: nat, dF: nat)
    requires LeavesAs(m, pc, r, e, end, d + dT, d + dF)
    ensures LeavesAs(m, pc, r, e, end + d, dT, dF)
  {
  }

  /**
  The interpreter runs a condition's code as the condition means, wherever the code stands and
  whatever the registers hold: it leaves at one of the two exits or the packet is rejected, with
  the registers and in the number of steps that `Go` gives.
  */
  lemma {:induction false} Simulate(m: Machine, prog: Program, p: Packet, pc: nat, c: Cond, dT: nat, dF: nat,
                                    r: Registers)
    requires Runs(m, prog, p)
    requires CodeAt(prog, pc, Asm(c, dT, dF))
    ensures LeavesAs(m, pc, r, Go(c, p, r), pc + Len(c), dT, dF)
    decreases c, 2
  {
    match c
    case Test(op, k) =>
      OneTest(m, prog, p, pc, r, op, k, dT, dF);
    case After(op, k, body) =>
      SimulateAfter(m, prog, p, pc, op, k, body, dT, dF, r);
    case Negated(body) =>
      Simulate(m, prog, p, pc, body, dF, dT, r);
    case Pair(all, left, right) =>
      SimulatePair(m, prog, p, pc, all, left, right, dT, dF, r);
    case Triple(gate, one, two, three) =>
      if gate {
        SimulateGate(m, prog, p, pc, one, two, three, dT, dF, r);
      } else {
        SimulateChoose(m, prog, p, pc, one, two, three, dT, dF, r);
      }
  }

  lemma {:induction false} SimulateAfter(m: Machine, prog: Program, p: Packet, pc: nat, op: LoadOp, k: nat, body: Cond,
                                         dT: nat, dF: nat, r: Registers)
    requires Runs(m, prog, p)
    requires CodeAt(prog, pc, Asm(After(op, k, body), dT, dF))
    ensures LeavesAs(m, pc, r, Go(After(op, k, body), p, r), pc + 1 + Len(body), dT, dF)
    decreases After(op, k, body), 0
  {
    CodeSplits(prog, pc, [SockFilter(op.Code(), 0, 0, k)], Asm(body, dT, dF));
    OneLoad(m, prog, p, pc, r, op, k);
    match op.Fetch(p, r, k) {
      case None =>
      case Some(r') =>
        Simulate(m, prog, p, pc + 1, body, dT, dF, r');
        Onward(m, pc, r, pc + 1, r', 1, Go(body, p, r'), pc + 1 + Len(body), dT, dF);
    }
  }

  /** A condition reached from elsewhere, `n` steps on. */
  lemma {:induction false} SimulateFrom(m: Machine, prog: Program, p: Packet, pc: nat, r: Registers,
                                        at: nat, c: Cond, dT: nat, dF: nat, r': Registers, n: nat)
    requires Runs(m, prog, p)
    requires Reaches(m, pc, r, at, r', n)
    requires CodeAt(prog, at, Asm(c, dT, dF))
    ensures LeavesAs(m, pc, r, Go(c, p, r').Plus(n), at + Len(c), dT, dF)
    decreases c, 3
  {
    Simulate(m, prog, p, at, c, dT, dF, r');
    Onward(m, pc, r, at, r', n, Go(c, p, r'), at + Len(c), dT, dF);
  }

  /** The same with `d` more instructions to jump over before both exits. */
  lemma {:induction false} SimulateOver(m: Machine, prog: Program, p: Packet, pc: nat, r: Registers,
                                        at: nat, c: Cond, d: nat, dT: nat, dF: nat, r': Registers, n: nat)
    requires Runs(m, prog, p)
    requires Reaches(m, pc, r, at, r', n)
    requires CodeAt(prog, at, Asm(c, d + dT, d + dF))
    ensures LeavesAs(m, pc, r, Go(c, p, r').Plus(n), at + Len(c) + d, dT, dF)
    decreases c, 4
  {
    SimulateFrom(m, prog, p, pc, r, at, c, d + dT, d + dF, r', n);
    Farther(m, pc, r, Go(c, p, r').Plus(n), at + Len(c), d, dT, dF);
  }

  lemma PairCode(prog: Program, pc: nat, all: bool, left: Cond, right: Cond, dT: nat, dF: nat)
    requires CodeAt(prog, pc, Asm(Pair(all, left, right), dT, dF))
    ensures CodeAt(prog, pc, Asm(left, If(!all, Len(right) + dT), If(all, Len(right) + dF)))
    ensures CodeAt(prog, pc + Len(left), Asm(right, dT, dF))
  {
    PairAsm(all, left, right, Len(right), dT, dF);
    CodeSplits(prog, pc, Asm(left, If(!all, Len(right) + dT), If(all, Len(right) + dF)), Asm(right, dT, dF));
  }

  lemma {:induction false} SimulatePair(m: Machine, prog: Program, p: Packet, pc: nat, all: bool, left: Cond,
                                        right: Cond, dT: nat, dF: nat, r: Registers)
    requires Runs(m, prog, p)
    requires CodeAt(prog, pc, Asm(Pair(all, left, right), dT, dF))
    ensures LeavesAs(m, pc, r, Go(Pair(all, left, right), p, r), pc + Len(left) + Len(right), dT, dF)
    decreases Pair(all, left, right), 0
  {
    var lT, lF := If(!all, Len(right) + dT), If(all, Len(right) + dF);
    PairCode(prog, pc, all, left, right, dT, dF);
    Simulate(m, prog, p, pc, left, lT, lF, r);
    var e := Go(left, p, r);
    if e.By(all) {
      SimulateFrom(m, prog, p, pc, r, pc + Len(left), right, dT, dF, e.r, e.steps);
    }
  }

  lemma TripleCode(prog: Program, pc: nat, gate: bool, one: Cond, two: Cond, three: Cond, dT: nat, dF: nat)
    requires CodeAt(prog, pc, Asm(Triple(gate, one, two, three), dT, dF))
    ensures CodeAt(prog, pc, Asm(one, If(gate, Len(two)), If(!gate, Len(two))))
    ensures CodeAt(prog, pc + Len(one), Asm(two, If(!gate, Len(three) + dT), Len(three) + dF))
    ensures CodeAt(prog, pc + Len(one) + Len(two), Asm(three, dT, dF))
  {
    TripleAsm(gate, one, two, three, Len(two), Len(three), dT, dF);
    CodeSplits3(prog, pc, Asm(one, If(gate, Len(two)), If(!gate, Len(two))),
                Asm(two, If(!gate, Len(three) + dT), Len(three) + dF), Asm(three, dT, dF));
  }

  lemma {:induction false} SimulateChoose(m: Machine, prog: Program, p: Packet, pc: nat, test: Cond, yes: Cond,
                                          no: Cond, dT: nat, dF: nat, r: Registers)
    requires Runs(m, prog, p)
    requires CodeAt(prog, pc, Asm(Choose(test, yes, no), dT, dF))
    ensures LeavesAs(m, pc, r, Go(Choose(test, yes, no), p, r), pc + Len(test) + Len(yes) + Len(no), dT, dF)
    decreases Choose(test, yes, no), 1
  {
    TripleCode(prog, pc, false, test, yes, no, dT, dF);
    Simulate(m, prog, p, pc, test, 0, Len(yes), r);
    SimulateBranches(m, prog, p, pc, test, yes, no, dT, dF, r, Go(test, p, r));
  }

  /** Both alternatives, after a test that was left as `e`. */
  lemma {:induction false} SimulateBranches(m: Machine, prog: Program, p: Packet, pc: nat, test: Cond, yes: Cond,
                                            no: Cond, dT: nat, dF: nat, r: Registers, e: Exit)
    requires Runs(m, prog, p)
    requires CodeAt(prog, pc + Len(test), Asm(yes, Len(no) + dT, Len(no) + dF))
    requires CodeAt(prog, pc + Len(test) + Len(yes), Asm(no, dT, dF))
    requires LeavesAs(m, pc, r, e, pc + Len(test), 0, Len(yes))
    ensures LeavesAs(m, pc, r, if e.By(true) then Go(yes, p, e.r).Plus(e.steps)
                               else if e.By(false) then Go(no, p, e.r).Plus(e.steps)
                               else e, pc + Len(test) + Len(yes) + Len(no), dT, dF)
    decreases Choose(test, yes, no), 0
  {
    if e.By(true) {
      SimulateOver(m, prog, p, pc, r, pc + Len(test), yes, Len(no), dT, dF, e.r, e.steps);
    } else if e.By(false) {
      SimulateFrom(m, prog, p, pc, r, pc + Len(test) + Len(yes), no, dT, dF, e.r, e.steps);
    }
  }

  lemma {:induction false} SimulateGate(m: Machine, prog: Program, p: Packet, pc: nat, one: Cond, two: Cond, body: Cond,
                                        dT: nat, dF: nat, r: Registers)
    requires Runs(m, prog, p)
    requires CodeAt(prog, pc, Asm(Gate(one, two, body), dT, dF))
    ensures LeavesAs(m, pc, r, Go(Gate(one, two, body), p, r), pc + Len(one) + Len(two) + Len(body), dT, dF)
    decreases Gate(one, two, body), 1
  {
    TripleCode(prog, pc, true, one, two, body, dT, dF);
    Simulate(m, prog, p, pc, one, Len(two), 0, r);
    var e := SimulateSecond(m, prog, p, pc, one, two, body, dF, r, Go(one, p, r));
    if e.By(true) {
      SimulateFrom(m, prog, p, pc, r, pc + Len(one) + Len(two), body, dT, dF, e.r, e.steps);
    }
  }

  /** The second half of a gate, after a first half that was left as `f`. */
  lemma {:induction false} SimulateSecond(m: Machine, prog: Program, p: Packet, pc: nat, one: Cond, two: Cond,
                                          body: Cond, dF: nat, r: Registers, f: Exit) returns (e: Exit)
    requires Runs(m, prog, p)
    requires CodeAt(prog, pc + Len(one), Asm(two, 0, Len(body) + dF))
    requires LeavesAs(m, pc, r, f, pc + Len(one), Len(two), 0)
    ensures e == if f.By(false) then Go(two, p, f.r).Plus(f.steps) else f
    ensures LeavesAs(m, pc, r, e, pc + Len(one) + Len(two), 0, Len(body) + dF)
    decreases Gate(one, two, body), 0
  {
    e := f;
    if e.By(false) {
      SimulateFrom(m, prog, p, pc, r, pc + Len(one), two, 0, Len(body) + dF, e.r, e.steps);
      e := Go(two, p, e.r).Plus(e.steps);
    }
  }

  /** The rest of a run that has left by `e`, whose exits lie `dT` and `dF` past `end`. */
  function Continued(prog: Program, p: Packet, e: Exit, end: nat, dT: nat, dF: nat): Rest {
    match e
    case Left(holds, r, n) =>
      var rest := Resume(prog, end + (if holds then dT else dF), r, p);
      Rest(rest.end, n + rest.steps)
    case Abandoned(n) => Rest(Rejected, n)
  }

  lemma LeavesContinued(m: Machine, prog: Program, p: Packet, pc: nat, r: Registers, e: Exit, end: nat, dT: nat,
                        dF: nat)
    requires Runs(m, prog, p) && LeavesAs(m, pc, r, e, end, dT, dF)
    ensures Resume(prog, pc, r, p) == Continued(prog, p, e, end, dT, dF)
  {
    var here := Resume(prog, pc, r, p);
    if e.Left? {
      var there := Resume(prog, end + (if e.holds then dT else dF), e.r, p);
    }
  }

  lemma MachineOf(prog: Program, p: Packet) returns (m: Machine)
    ensures Runs(m, prog, p)
  {
    m := (pc: nat, r: Registers) => Resume(prog, pc, r, p);
  }

  /** From the code of a condition, anywhere in any program, the run goes on as the condition says. */
  lemma CodeRuns(prog: Program, p: Packet, pc: nat, c: Cond, code: Program, dT: nat, dF: nat, r: Registers)
    returns (e: Exit)
    requires code == Asm(c, dT, dF) && CodeAt(prog, pc, code)
    ensures e == Go(c, p, r)
    ensures Resume(prog, pc, r, p) == Continued(prog, p, e, pc + |code|, dT, dF)
  {
    var m := MachineOf(prog, p);
    e := SimulateCode(m, prog, p, pc, c, code, dT, dF, r);
    LeavesContinued(m, prog, p, pc, r, e, pc + |code|, dT, dF);
  }

  lemma SimulateCode(m: Machine, prog: Program, p: Packet, pc: nat, c: Cond, code: Program, dT: nat, dF: nat,
                     r: Registers)
    returns (e: Exit)
    requires Runs(m, prog, p) && code == Asm(c, dT, dF) && CodeAt(prog, pc, code)
    ensures e == Go(c, p, r) && LeavesAs(m, pc, r, e, pc + |code|, dT, dF)
  {
    e := Go(c, p, r);
    Simulate(m, prog, p, pc, c, dT, dF, r);
  }

  /** What a finished condition answers, and in how many steps. */
  function Finish(e: Exit, ifTrue: nat, ifFalse: nat): Rest {
    match e
    case Left(holds, _, n) => Rest(Halted(if holds then ifTrue else ifFalse), n + 1)
    case Abandoned(n) => Rest(Rejected, n)
  }

  /** The two returns at `n`. */
  lemma ReturnsFinish(prog: Program, p: Packet, e: Exit, n: nat, ifTrue: nat, ifFalse: nat)
    requires n + 2 == |prog|
    requires prog[n] == SockFilter(0x06, 0, 0, ifTrue) && prog[n + 1] == SockFilter(0x06, 0, 0, ifFalse)
    ensures Continued(prog, p, e, n, 0, 1) == Finish(e, ifTrue, ifFalse)
  {
    DecodesReturn(0x06);
  }

  lemma InFrontOfReturns(code: Program, i: SockFilter, j: SockFilter)
    ensures var prog := code + [i, j];
            CodeAt(prog, 0, code) && |prog| == |code| + 2 && prog[|code|] == i && prog[|code| + 1] == j
  {
  }

  lemma RunsReturned(c: Cond, code: Program, prog: Program, ifTrue: nat, ifFalse: nat, p: Packet) returns (e: Exit)
    requires code == Asm(c, 0, 1)
    requires prog == code + [SockFilter(0x06, 0, 0, ifTrue), SockFilter(0x06, 0, 0, ifFalse)]
    ensures e == Go(c, p, START)
    ensures Resume(prog, 0, START, p) == Finish(e, ifTrue, ifFalse)
  {
    InFrontOfReturns(code, SockFilter(0x06, 0, 0, ifTrue), SockFilter(0x06, 0, 0, ifFalse));
    e := CodeRuns(prog, p, 0, c, code, 0, 1, START);
    ReturnsFinish(prog, p, e, 0 + |code|, ifTrue, ifFalse);
  }

  lemma RunsFinished(c: Cond, ifTrue: nat, ifFalse: nat, p: Packet)
    ensures Resume(Finished(c, ifTrue, ifFalse), 0, START, p) == Finish(Go(c, p, START), ifTrue, ifFalse)
  {
    var e := RunsReturned(c, Asm(c, 0, 1), Finished(c, ifTrue, ifFalse), ifTrue, ifFalse, p);
  }
}
