/**
What compiled programs do: the interpreter's answer is the meaning of the expression, on every
packet of every length.
*/
module Correctness {
  import opened Vm
  import opened Filter
  import opened Conditions
  import opened Simulation
  import opened Lowering
  import opened Costs
  import opened Assembler
  import opened Emission

  /** The end of a run of a compiled expression. */
  function Ending(t: Truth): Outcome {
    match t
    case True => Halted(ACCEPT_LENGTH)
    case False => Halted(0)
    case Abort => Rejected
  }

  /**
  A compiled expression ends every run as the expression means: it accepts, refuses, or trips
  over the end of the packet. It never runs off its end and never meets an unsupported opcode,
  and it dispatches no more instructions than it has.
  */
  lemma CompiledRuns(node: Node, p: Packet)
    requires Assembled(node).Success?
    ensures var prog := Assembled(node).value;
            && Exec(prog, 0, 0, 0, p) == Ending(Eval(node, p))
            && Steps(prog, 0, 0, 0, p) == Cost(node, p) <= |prog|
  {
    var c := Lower(node);
    BoundedFits(Finished(c, ACCEPT_LENGTH, 0));
    RunsFinished(c, ACCEPT_LENGTH, 0, p);
    LowerMeans(node, p);
    LowerSpends(node, p);
    assert Said(Go(c, p, START)) == Eval(node, p) && Go(c, p, START).steps == Spent(node, p);
  }

  /** How a run ends that goes on at `toT` or at `toF`, or is rejected. */
  function Onwards(prog: Program, p: Packet, t: Truth, toT: nat, toF: nat, r: Registers): Outcome {
    match t
    case True => Exec(prog, toT, r.a, r.x, p)
    case False => Exec(prog, toF, r.a, r.x, p)
    case Abort => Rejected
  }

  /** The same of a machine, which is one function of the pc and the registers. */
  function MachineOnwards(m: Machine, t: Truth, toT: nat, toF: nat, r: Registers): Outcome {
    match t
    case True => m(toT, r).end
    case False => m(toF, r).end
    case Abort => Rejected
  }

  lemma ExitEnds(m: Machine, pc: nat, r: Registers, e: Exit, end: nat, dT: nat, dF: nat, t: Truth, toT: nat, toF: nat)
    returns (r': Registers)
    requires LeavesAs(m, pc, r, e, end, dT, dF) && Said(e) == t && toT == end + dT && toF == end + dF
    ensures m(pc, r).end == MachineOnwards(m, t, toT, toF, r')
  {
    r' := if e.Left? then e.r else r;
  }

  lemma MachineEnds(m: Machine, prog: Program, p: Packet, pc: nat, r: Registers, t: Truth, toT: nat, toF: nat,
                    r': Registers)
    requires Runs(m, prog, p) && m(pc, r).end == MachineOnwards(m, t, toT, toF, r')
    ensures Exec(prog, pc, r.a, r.x, p) == Onwards(prog, p, t, toT, toF, r')
  {
    var here, onTrue, onFalse := Resume(prog, pc, r, p), Resume(prog, toT, r', p), Resume(prog, toF, r', p);
  }

  lemma SegmentEnds(prog: Program, p: Packet, pc: nat, c: Cond, code: Program, t: Truth, dT: nat, dF: nat,
                    toT: nat, toF: nat, r: Registers) returns (r': Registers)
    requires code == Asm(c, dT, dF) && CodeAt(prog, pc, code) && Means(c, p, t)
    requires toT == pc + |code| + dT && toF == pc + |code| + dF
    ensures Exec(prog, pc, r.a, r.x, p) == Onwards(prog, p, t, toT, toF, r')
  {
    var m := MachineOf(prog, p);
    var e := SimulateCode(m, prog, p, pc, c, code, dT, dF, r);
    r' := ExitEnds(m, pc, r, e, pc + |code|, dT, dF, t, toT, toF);
    MachineEnds(m, prog, p, pc, r, t, toT, toF, r');
  }

  /**
  One expression's code inside any program: entered at its first instruction with any registers,
  it goes on at its true exit or at its false exit, or the packet is rejected, and which of these
  depends on the expression and the packet only.
  */
  lemma SegmentRuns(prog: Program, p: Packet, pc: nat, node: Node, code: Program, dT: nat, dF: nat,
                    toT: nat, toF: nat, r: Registers) returns (r': Registers)
    requires code == Asm(Lower(node), dT, dF) && CodeAt(prog, pc, code)
    requires toT == pc + |code| + dT && toF == pc + |code| + dF
    ensures Exec(prog, pc, r.a, r.x, p) == Onwards(prog, p, Eval(node, p), toT, toF, r')
  {
    LowerMeans(node, p);
    r' := SegmentEnds(prog, p, pc, Lower(node), code, Eval(node, p), dT, dF, toT, toF, r);
  }

  /**
  The interpreter keeps 0x40000 bytes exactly when the expression is true of the packet and 0
  when it is false or aborts, unless the run is longer than the interpreter's step guard allows.
  */
  lemma CompilerCorrect(node: Node, p: Packet)
    requires Assembled(node).Success?
    ensures Answer(Assembled(node).value, p) ==
            if Cost(node, p) > STEP_LIMIT then Raised(TooManySteps)
            else Keep(if Eval(node, p) == True then ACCEPT_LENGTH else 0)
  {
    CompiledRuns(node, p);
  }

  /** Every program of at most 10,000 instructions is free of the guard. */
  lemma ShortProgramsAnswer(node: Node, p: Packet)
    requires Assembled(node).Success? && |Assembled(node).value| <= STEP_LIMIT
    ensures Answer(Assembled(node).value, p) == Keep(if Eval(node, p) == True then ACCEPT_LENGTH else 0)
  {
    CompiledRuns(node, p);
  }

  /** Only the first 78 bytes of a packet matter to the answer, guard and all, and no load misses with them. */
  lemma CompiledHorizon(node: Node, p: Packet)
    requires Assembled(node).Success?
    ensures var prog := Assembled(node).value;
            var seen := if |p| < HORIZON then p else p[..HORIZON];
            && Answer(prog, p) == Answer(prog, seen)
            && Exec(prog, 0, 0, 0, p) == Exec(prog, 0, 0, 0, seen)
            && (|p| >= HORIZON ==> Exec(prog, 0, 0, 0, p) != Rejected)
  {
    CompiledRuns(node, p);
    if |p| >= HORIZON {
      CompiledRuns(node, p[..HORIZON]);
      Horizon(node, p);
      ExecGrows(Assembled(node).value, 0, 0, 0, p[..HORIZON], p);
    }
  }
}
