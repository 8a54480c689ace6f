/**
The classic-BPF interpreter: registers A and X and a pc that only grows. A load past
the end of the packet ends the whole run and rejects the packet.
*/
module Vm {
  import opened Bytes
  import opened Wrappers

  type Packet = seq<Byte>

  /** One instruction, `struct sock_filter`. */
  datatype SockFilter = SockFilter(code: nat, jt: nat, jf: nat, k: nat)

  type Program = seq<SockFilter>

  const STEP_LIMIT: nat := 10_000

  /** The exceptions the interpreter raises on programs outside its subset. */
  datatype Fault =
    | UnknownSize | UnsupportedLd | UnsupportedLdx | XFormJump | UnsupportedJump
    | UnsupportedRet | UnsupportedClass | RanOffTheEnd | TooManySteps

  /** What one instruction does. */
  datatype Effect =
    | Next(a: nat, x: nat)
    | Jump(delta: nat)
    | Return(value: nat)
    | OutOfBounds
    | Raise(fault: Fault)

  /** How a run ends; `Rejected` is the out-of-bounds exception caught by `Run`. */
  datatype Outcome = Halted(value: nat) | Rejected | Faulted(fault: Fault)

  /** What the caller of the interpreter sees. */
  datatype Verdict = Keep(length: nat) | Raised(fault: Fault)

  function Load(p: Packet, offset: nat, size: nat): (r: Option<nat>)
    ensures r.Some? <==> offset + size <= |p|
  {
    if offset + size > |p| then None else Some(FromBytes(Big, p[offset..offset + size]))
  }

  /** What a load reads, byte by byte. */
  lemma LoadBytes(p: Packet, offset: nat)
    ensures offset + 1 <= |p| ==> Load(p, offset, 1).value == p[offset]
    ensures offset + 2 <= |p| ==> Load(p, offset, 2).value == Half(p[offset], p[offset + 1])
    ensures
      offset + 4 <= |p| ==>
        Load(p, offset, 4).value == Word(p[offset], p[offset + 1], p[offset + 2], p[offset + 3])
  {
    if offset + 1 <= |p| {
      assert p[offset..offset + 1] == [p[offset]];
      Big1(p[offset]);
    }
    if offset + 2 <= |p| {
      assert p[offset..offset + 2] == [p[offset], p[offset + 1]];
      Big2(p[offset], p[offset + 1]);
    }
    if offset + 4 <= |p| {
      assert p[offset..offset + 4] == [p[offset], p[offset + 1], p[offset + 2], p[offset + 3]];
      Big4(p[offset], p[offset + 1], p[offset + 2], p[offset + 3]);
    }
  }

  function SizeBytes(bits: nat): Option<nat> {
    if bits == 0x00 then Some(4)
    else if bits == 0x08 then Some(2)
    else if bits == 0x10 then Some(1)
    else None
  }

  /** What the opcode selects, once its class, mode, size and source bits are masked out. */
  datatype Decoded =
    | LoadAbsolute(size: nat)
    | LoadIndexed(size: nat)
    | LoadHeaderLength
    | JumpEqual
    | JumpSet
    | ReturnK
    | Unsupported(fault: Fault)

  function DecodeLd(code: nat): Decoded {
    var mode := BitAnd(code, 0xE0);
    match SizeBytes(BitAnd(code, 0x18))
    case None => Unsupported(UnknownSize)
    case Some(size) =>
      if mode == 0x20 then LoadAbsolute(size)
      else if mode == 0x40 then LoadIndexed(size)
      else Unsupported(UnsupportedLd)
  }

  function DecodeJmp(code: nat): Decoded {
    var op := BitAnd(code, 0xF0);
    if BitAnd(code, 0x08) != 0 then Unsupported(XFormJump)
    else if op == 0x10 then JumpEqual
    else if op == 0x40 then JumpSet
    else Unsupported(UnsupportedJump)
  }

  function Decode(code: nat): Decoded {
    var class_ := BitAnd(code, 0x07);
    if class_ == 0x00 then DecodeLd(code)
    else if class_ == 0x01 then
      (if BitAnd(code, 0xE0) != 0xA0 then Unsupported(UnsupportedLdx) else LoadHeaderLength)
    else if class_ == 0x05 then DecodeJmp(code)
    else if class_ == 0x06 then
      (if BitAnd(code, 0x18) != 0 then Unsupported(UnsupportedRet) else ReturnK)
    else Unsupported(UnsupportedClass)
  }

  function LoadA(loaded: Option<nat>, x: nat): Effect {
    match loaded
    case None => OutOfBounds
    case Some(v) => Next(v, x)
  }

  function LoadX(loaded: Option<nat>, a: nat): Effect {
    match loaded
    case None => OutOfBounds
    case Some(v) => Next(a, 4 * BitAnd(v, 0x0F))
  }

  function Step(i: SockFilter, a: nat, x: nat, p: Packet): (e: Effect)
    ensures e.Jump? ==> e.delta > 0
  {
    match Decode(i.code)
    case LoadAbsolute(size) => LoadA(Load(p, i.k, size), x)
    case LoadIndexed(size) => LoadA(Load(p, x + i.k, size), x)
    case LoadHeaderLength => LoadX(Load(p, i.k, 1), a)
    case JumpEqual => Jump((if a == i.k then i.jt else i.jf) + 1)
    case JumpSet => Jump((if BitAnd(a, i.k) != 0 then i.jt else i.jf) + 1)
    case ReturnK => Return(i.k)
    case Unsupported(f) => Raise(f)
  }

  // Which opcodes do what, by their fields: class, size or source, and mode or operation.

  /** The three sizes: two bits of 0 for a word, 1 for a half word, 2 for a byte. */
  lemma DecodesLoad(c: nat)
    ensures Decode(c) == LoadAbsolute(4) <==> c % 8 == 0 && c / 32 % 8 == 1 && c / 8 % 4 == 0
    ensures Decode(c) == LoadAbsolute(2) <==> c % 8 == 0 && c / 32 % 8 == 1 && c / 8 % 4 == 1
    ensures Decode(c) == LoadAbsolute(1) <==> c % 8 == 0 && c / 32 % 8 == 1 && c / 8 % 4 == 2
    ensures Decode(c) == LoadIndexed(4) <==> c % 8 == 0 && c / 32 % 8 == 2 && c / 8 % 4 == 0
    ensures Decode(c) == LoadIndexed(2) <==> c % 8 == 0 && c / 32 % 8 == 2 && c / 8 % 4 == 1
    ensures Decode(c) == LoadIndexed(1) <==> c % 8 == 0 && c / 32 % 8 == 2 && c / 8 % 4 == 2
    ensures Decode(c).LoadAbsolute? || Decode(c).LoadIndexed? ==> Decode(c).size in {1, 2, 4}
  {
    ClassMask(c);
    SizeMask(c);
    ModeMask(c);
  }

  lemma DecodesHeaderLength(c: nat)
    ensures Decode(c) == LoadHeaderLength <==> c % 8 == 1 && c / 32 % 8 == 5
  {
    ClassMask(c);
    ModeMask(c);
  }

  lemma DecodesJump(c: nat)
    ensures Decode(c) == JumpEqual <==> c % 8 == 5 && c / 8 % 2 == 0 && c / 16 % 16 == 1
    ensures Decode(c) == JumpSet <==> c % 8 == 5 && c / 8 % 2 == 0 && c / 16 % 16 == 4
  {
    ClassMask(c);
    SourceMask(c);
    JumpMask(c);
  }

  lemma DecodesReturn(c: nat)
    ensures Decode(c) == ReturnK <==> c % 8 == 6 && c / 8 % 4 == 0
  {
    ClassMask(c);
    SizeMask(c);
  }

  /** Every other opcode raises, and which exception it raises. */
  lemma DecodesFault(c: nat)
    ensures Decode(c) == Unsupported(UnknownSize) <==> c % 8 == 0 && c / 8 % 4 == 3
    ensures Decode(c) == Unsupported(UnsupportedLd) <==>
            c % 8 == 0 && c / 8 % 4 != 3 && c / 32 % 8 != 1 && c / 32 % 8 != 2
    ensures Decode(c) == Unsupported(UnsupportedLdx) <==> c % 8 == 1 && c / 32 % 8 != 5
    ensures Decode(c) == Unsupported(XFormJump) <==> c % 8 == 5 && c / 8 % 2 == 1
    ensures Decode(c) == Unsupported(UnsupportedJump) <==>
            c % 8 == 5 && c / 8 % 2 == 0 && c / 16 % 16 != 1 && c / 16 % 16 != 4
    ensures Decode(c) == Unsupported(UnsupportedRet) <==> c % 8 == 6 && c / 8 % 4 != 0
    ensures Decode(c) == Unsupported(UnsupportedClass) <==> c % 8 != 0 && c % 8 != 1 && c % 8 != 5 && c % 8 != 6
  {
    ClassMask(c);
    SizeMask(c);
    ModeMask(c);
    SourceMask(c);
    JumpMask(c);
  }

  /** The end of the run that is at `pc` with registers `a` and `x`, however many steps it takes. */
  function Exec(prog: Program, pc: nat, a: nat, x: nat, p: Packet): Outcome
    decreases |prog| - pc
  {
    if pc >= |prog| then Faulted(RanOffTheEnd)
    else
      match Step(prog[pc], a, x, p)
      case Next(a', x') => Exec(prog, pc + 1, a', x', p)
      case Jump(delta) => Exec(prog, pc + delta, a, x, p)
      case Return(v) => Halted(v)
      case OutOfBounds => Rejected
      case Raise(f) => Faulted(f)
  }

  /** How many instructions that run dispatches. The pc grows with every one of them. */
  function Steps(prog: Program, pc: nat, a: nat, x: nat, p: Packet): (n: nat)
    ensures pc <= |prog| ==> n <= |prog| - pc
    decreases |prog| - pc
  {
    if pc >= |prog| then 0
    else
      match Step(prog[pc], a, x, p)
      case Next(a', x') => 1 + Steps(prog, pc + 1, a', x', p)
      case Jump(delta) => 1 + Steps(prog, pc + delta, a, x, p)
      case _ => 1
  }

  /** The interpreter's answer: its step guard goes first, and a rejected packet keeps 0 bytes. */
  function Answer(prog: Program, p: Packet): Verdict {
    if Steps(prog, 0, 0, 0, p) > STEP_LIMIT then Raised(TooManySteps)
    else
      match Exec(prog, 0, 0, 0, p)
      case Halted(v) => Keep(v)
      case Rejected => Keep(0)
      case Faulted(f) => Raised(f)
  }

  /** How the run ends from every pc and register contents, and in how many steps, as one function. */
  type Course = (nat, nat, nat) -> (Outcome, nat)

  ghost predicate CourseOf(m: Course, prog: Program, p: Packet) {
    forall pc, a, x {:trigger Exec(prog, pc, a, x, p)} ::
      m(pc, a, x) == (Exec(prog, pc, a, x, p), Steps(prog, pc, a, x, p))
  }

  lemma CourseIs(prog: Program, p: Packet) returns (m: Course)
    ensures CourseOf(m, prog, p)
    ensures m(0, 0, 0) == (Exec(prog, 0, 0, 0, p), Steps(prog, 0, 0, 0, p))
  {
    m := (pc: nat, a: nat, x: nat) => (Exec(prog, pc, a, x, p), Steps(prog, pc, a, x, p));
  }

  /** From `pc` the run takes `n` steps to where it is at `pc'`. */
  ghost predicate Leads(m: Course, pc: nat, a: nat, x: nat, n: nat, pc': nat, a': nat, x': nat) {
    m(pc, a, x) == (m(pc', a', x').0, n + m(pc', a', x').1)
  }

  /** The effect is what the run does next. */
  ghost predicate Performs(m: Course, pc: nat, a: nat, x: nat, e: Effect) {
    match e
    case Next(a', x') => Leads(m, pc, a, x, 1, pc + 1, a', x')
    case Jump(delta) => delta > 0 && Leads(m, pc, a, x, 1, pc + delta, a, x)
    case Return(v) => m(pc, a, x) == (Halted(v), 1)
    case OutOfBounds => m(pc, a, x) == (Rejected, 1)
    case Raise(f) => m(pc, a, x) == (Faulted(f), 1)
  }

  lemma CourseGoesOn(m: Course, prog: Program, p: Packet, pc: nat, a: nat, x: nat)
    requires CourseOf(m, prog, p) && pc < |prog|
    ensures m(pc, a, x).1 > 0
  {
    var here := Exec(prog, pc, a, x, p);
  }

  lemma CourseEnds(m: Course, prog: Program, p: Packet, pc: nat, a: nat, x: nat)
    requires CourseOf(m, prog, p) && pc >= |prog|
    ensures m(pc, a, x) == (Faulted(RanOffTheEnd), 0)
  {
    var here := Exec(prog, pc, a, x, p);
  }

  method Dispatch(prog: Program, p: Packet, pc: nat, a: nat, x: nat, ghost m: Course) returns (e: Effect)
    requires CourseOf(m, prog, p) && pc < |prog|
    ensures Performs(m, pc, a, x, e)
  {
    e := Step(prog[pc], a, x, p);
    ghost var here := Exec(prog, pc, a, x, p);
    match e
    case Next(a', x') =>
      ghost var there := Exec(prog, pc + 1, a', x', p);
    case Jump(delta) =>
      ghost var there := Exec(prog, pc + delta, a, x, p);
    case _ =>
  }

  method RunLoop(prog: Program, p: Packet) returns (r: Outcome)
    ensures r == if Steps(prog, 0, 0, 0, p) > 10_000 then Faulted(TooManySteps)
                 else Exec(prog, 0, 0, 0, p)
  {
    ghost var m := CourseIs(prog, p);
    var accumulator, indexReg, pc, steps := 0, 0, 0, 0;
    while pc < |prog|
      invariant steps <= STEP_LIMIT && Leads(m, 0, 0, 0, steps, pc, accumulator, indexReg)
      decreases |prog| - pc
    {
      CourseGoesOn(m, prog, p, pc, accumulator, indexReg);
      steps := steps + 1;
      if steps > STEP_LIMIT {
        return Faulted(TooManySteps);
      }
      var effect := Dispatch(prog, p, pc, accumulator, indexReg, m);
      match effect {
        case Next(a, x) => accumulator, indexReg, pc := a, x, pc + 1;
        case Jump(delta) => pc := pc + delta;
        case Return(v) => return Halted(v);
        case OutOfBounds => return Rejected;
        case Raise(f) => return Faulted(f);
      }
    }
    CourseEnds(m, prog, p, pc, accumulator, indexReg);
    return Faulted(RanOffTheEnd);
  }

  method Run(prog: Program, p: Packet) returns (r: Verdict)
    ensures r == Answer(prog, p)
  {
    var o := RunLoop(prog, p);
    match o
    case Halted(v) => r := Keep(v);
    case Rejected => r := Keep(0);
    case Faulted(f) => r := Raised(f);
  }

  lemma LoadGrows(p: Packet, q: Packet, offset: nat, size: nat)
    requires p <= q && Load(p, offset, size).Some?
    ensures Load(q, offset, size) == Load(p, offset, size)
  {
    assert p[offset..offset + size] == q[offset..offset + size];
  }

  lemma StepGrows(i: SockFilter, a: nat, x: nat, p: Packet, q: Packet)
    requires p <= q
    ensures Step(i, a, x, p).OutOfBounds? || Step(i, a, x, q) == Step(i, a, x, p)
  {
    forall offset: nat, size: nat | Load(p, offset, size).Some?
      ensures Load(q, offset, size) == Load(p, offset, size)
    {
      LoadGrows(p, q, offset, size);
    }
  }

  /** Any run that does not trip over the end of a packet is the same run on every longer packet. */
  lemma {:induction false} ExecGrows(prog: Program, pc: nat, a: nat, x: nat, p: Packet, q: Packet)
    requires p <= q && Exec(prog, pc, a, x, p) != Rejected
    ensures Exec(prog, pc, a, x, q) == Exec(prog, pc, a, x, p)
    ensures Steps(prog, pc, a, x, q) == Steps(prog, pc, a, x, p)
    decreases |prog| - pc
  {
    if pc < |prog| {
      StepGrows(prog[pc], a, x, p, q);
      match Step(prog[pc], a, x, p)
      case Next(a', x') => ExecGrows(prog, pc + 1, a', x', p, q);
      case Jump(delta) => ExecGrows(prog, pc + delta, a, x, p, q);
      case _ =>
    }
  }

  /** Accepting a truncated packet is never undone by the missing bytes, for any program at all. */
  lemma AcceptanceSurvivesGrowth(prog: Program, p: Packet, q: Packet)
    requires p <= q
    requires Answer(prog, p).Keep? && Answer(prog, p).length > 0
    ensures Answer(prog, q) == Answer(prog, p)
  {
    ExecGrows(prog, 0, 0, 0, p, q);
  }
}
