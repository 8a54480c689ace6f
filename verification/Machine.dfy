/**
The machine once more, as a relation between states: what an opcode does is told by its bit fields,
and what a load reads by the bytes it reads. The interpreter's answer is how a trace of states ends.
*/
module Machine {
  import opened Bytes
  import opened Wrappers
  import opened Vm

  datatype State = State(pc: nat, a: nat, x: nat)

  /** The bytes at `offset`, most significant first, are all there and spell `v`. */
  predicate Reads(p: Packet, offset: nat, size: nat, v: nat) {
    && offset + size <= |p|
    && match size
       case 1 => v == p[offset]
       case 2 => v == Half(p[offset], p[offset + 1])
       case 4 => v == Word(p[offset], p[offset + 1], p[offset + 2], p[offset + 3])
       case _ => false
  }

  /** The size of a load: two bits of the opcode. */
  predicate SizeIs(code: nat, size: nat) {
    match code / 8 % 4
    case 0 => size == 4
    case 1 => size == 2
    case 2 => size == 1
    case _ => false
  }

  /** A load to A of `size` bytes from `offset`. */
  predicate LoadsA(i: SockFilter, x: nat, offset: nat, size: nat) {
    && i.code % 8 == 0 && SizeIs(i.code, size)
    && ((i.code / 32 % 8 == 1 && offset == i.k) || (i.code / 32 % 8 == 2 && offset == x + i.k))
  }

  /** A load to X of a header length. */
  predicate LoadsX(i: SockFilter) {
    i.code % 8 == 1 && i.code / 32 % 8 == 5
  }

  predicate JumpsOn(i: SockFilter, operation: nat) {
    i.code % 8 == 5 && i.code / 8 % 2 == 0 && i.code / 16 % 16 == operation
  }

  predicate ReturnsK(i: SockFilter) {
    i.code % 8 == 6 && i.code / 8 % 4 == 0
  }

  ghost predicate Taken(i: SockFilter, a: nat) {
    (JumpsOn(i, 1) && a == i.k) || (JumpsOn(i, 4) && ShareBit(a, i.k))
  }

  /** One instruction takes the machine from one state to the next. */
  ghost predicate Moves(i: SockFilter, p: Packet, s: State, t: State) {
    || (t.pc == s.pc + 1 && t.x == s.x
        && exists offset: nat, size: nat :: LoadsA(i, s.x, offset, size) && Reads(p, offset, size, t.a))
    || (LoadsX(i) && i.k < |p| && t == State(s.pc + 1, s.a, 4 * (p[i.k] % 16)))
    || ((JumpsOn(i, 1) || JumpsOn(i, 4)) && t == State(s.pc + 1 + (if Taken(i, s.a) then i.jt else i.jf), s.a, s.x))
  }

  /** A load that reads past the end of the packet. */
  ghost predicate Misses(i: SockFilter, p: Packet, s: State) {
    || (exists offset: nat, size: nat :: LoadsA(i, s.x, offset, size) && offset + size > |p|)
    || (LoadsX(i) && i.k >= |p|)
  }

  /** The exception an unsupported instruction raises. */
  predicate Refuses(i: SockFilter, f: Fault) {
    var c := i.code;
    match f
    case UnknownSize => c % 8 == 0 && c / 8 % 4 == 3
    case UnsupportedLd => c % 8 == 0 && c / 8 % 4 != 3 && c / 32 % 8 != 1 && c / 32 % 8 != 2
    case UnsupportedLdx => c % 8 == 1 && c / 32 % 8 != 5
    case XFormJump => c % 8 == 5 && c / 8 % 2 == 1
    case UnsupportedJump => c % 8 == 5 && c / 8 % 2 == 0 && c / 16 % 16 != 1 && c / 16 % 16 != 4
    case UnsupportedRet => c % 8 == 6 && c / 8 % 4 != 0
    case UnsupportedClass => c % 8 != 0 && c % 8 != 1 && c % 8 != 5 && c % 8 != 6
    case RanOffTheEnd => false
    case TooManySteps => false
  }

  /** The states of a run, one for every instruction it gets to. */
  ghost predicate Trace(prog: Program, p: Packet, states: seq<State>) {
    && states != [] && states[0] == State(0, 0, 0)
    && forall j | 0 <= j < |states| - 1 ::
         states[j].pc < |prog| && Moves(prog[states[j].pc], p, states[j], states[j + 1])
  }

  /** How a run that has come to `s` by `n` instructions is answered. */
  ghost predicate AnswersAt(prog: Program, p: Packet, n: nat, s: State, v: Verdict) {
    if s.pc >= |prog| then n <= 10_000 && v == Raised(RanOffTheEnd)
    else if n >= 10_000 then n == 10_000 && v == Raised(TooManySteps)
    else
      var i := prog[s.pc];
      || (ReturnsK(i) && v == Keep(i.k))
      || (Misses(i, p, s) && v == Keep(0))
      || (v.Raised? && Refuses(i, v.fault))
  }

  // The interpreter steps as the relation says.

  lemma ReadsLoad(p: Packet, offset: nat, size: nat, v: nat)
    requires size in {1, 2, 4}
    ensures Reads(p, offset, size, v) <==> Load(p, offset, size) == Some(v)
  {
    LoadBytes(p, offset);
  }

  /** The one offset and size a load to A has. */
  function OffsetOf(i: SockFilter, x: nat): nat {
    if i.code / 32 % 8 == 1 then i.k else x + i.k
  }

  function SizeOf(i: SockFilter): nat {
    if i.code / 8 % 4 == 0 then 4 else if i.code / 8 % 4 == 1 then 2 else 1
  }

  lemma LoadsOnly(i: SockFilter, x: nat, offset: nat, size: nat)
    ensures LoadsA(i, x, offset, size) <==>
            && i.code % 8 == 0 && i.code / 8 % 4 != 3 && (i.code / 32 % 8 == 1 || i.code / 32 % 8 == 2)
            && offset == OffsetOf(i, x) && size == SizeOf(i)
  {
  }

  lemma LoadAStep(i: SockFilter, p: Packet, s: State, offset: nat, size: nat)
    requires LoadsA(i, s.x, offset, size)
    ensures Step(i, s.a, s.x, p) == LoadA(Load(p, offset, size), s.x) && size in {1, 2, 4}
  {
    DecodesLoad(i.code);
  }

  lemma LoadXStep(i: SockFilter, p: Packet, s: State)
    requires LoadsX(i)
    ensures Step(i, s.a, s.x, p) == if i.k < |p| then Next(s.a, 4 * (p[i.k] % 16)) else OutOfBounds
  {
    DecodesHeaderLength(i.code);
    LoadBytes(p, i.k);
    if i.k < |p| {
      SmallMasks(p[i.k]);
    }
  }

  lemma JumpStep(i: SockFilter, p: Packet, s: State)
    requires JumpsOn(i, 1) || JumpsOn(i, 4)
    ensures Step(i, s.a, s.x, p) == Jump((if Taken(i, s.a) then i.jt else i.jf) + 1)
  {
    DecodesJump(i.code);
    SharesBit(s.a, i.k);
  }

  lemma OtherStep(i: SockFilter, p: Packet, s: State)
    requires ReturnsK(i) || exists f :: Refuses(i, f)
    ensures ReturnsK(i) ==> Step(i, s.a, s.x, p) == Return(i.k)
    ensures forall f | Refuses(i, f) :: Step(i, s.a, s.x, p) == Raise(f)
  {
    DecodesReturn(i.code);
    DecodesFault(i.code);
  }

  /** Which of the five an instruction is. */
  lemma OneOfFive(i: SockFilter, x: nat) returns (f: Fault)
    ensures || LoadsA(i, x, OffsetOf(i, x), SizeOf(i)) || LoadsX(i) || JumpsOn(i, 1) || JumpsOn(i, 4) || ReturnsK(i)
            || Refuses(i, f)
  {
    var c := i.code;
    f := if c % 8 == 0 then (if c / 8 % 4 == 3 then UnknownSize else UnsupportedLd)
         else if c % 8 == 1 then UnsupportedLdx
         else if c % 8 == 5 then (if c / 8 % 2 == 1 then XFormJump else UnsupportedJump)
         else if c % 8 == 6 then UnsupportedRet
         else UnsupportedClass;
  }

  lemma MovesAsStep(i: SockFilter, p: Packet, s: State, t: State)
    ensures Moves(i, p, s, t) <==>
            match Step(i, s.a, s.x, p)
            case Next(a, x) => t == State(s.pc + 1, a, x)
            case Jump(delta) => t == State(s.pc + delta, s.a, s.x)
            case _ => false
  {
    var f := OneOfFive(i, s.x);
    var offset, size := OffsetOf(i, s.x), SizeOf(i);
    forall o: nat, z: nat | LoadsA(i, s.x, o, z) ensures o == offset && z == size {
      LoadsOnly(i, s.x, o, z);
    }
    if LoadsA(i, s.x, offset, size) {
      LoadAStep(i, p, s, offset, size);
      ReadsLoad(p, offset, size, t.a);
    } else if LoadsX(i) {
      LoadXStep(i, p, s);
    } else if JumpsOn(i, 1) || JumpsOn(i, 4) {
      JumpStep(i, p, s);
    } else {
      OtherStep(i, p, s);
    }
  }

  lemma StopsAsStep(i: SockFilter, p: Packet, s: State)
    ensures ReturnsK(i) <==> Step(i, s.a, s.x, p).Return?
    ensures ReturnsK(i) ==> Step(i, s.a, s.x, p) == Return(i.k)
    ensures Misses(i, p, s) <==> Step(i, s.a, s.x, p) == OutOfBounds
    ensures forall f :: Refuses(i, f) <==> Step(i, s.a, s.x, p) == Raise(f)
  {
    var f := OneOfFive(i, s.x);
    var offset, size := OffsetOf(i, s.x), SizeOf(i);
    forall o: nat, z: nat | LoadsA(i, s.x, o, z) ensures o == offset && z == size {
      LoadsOnly(i, s.x, o, z);
    }
    if LoadsA(i, s.x, offset, size) {
      LoadAStep(i, p, s, offset, size);
    } else if LoadsX(i) {
      LoadXStep(i, p, s);
    } else if JumpsOn(i, 1) || JumpsOn(i, 4) {
      JumpStep(i, p, s);
    } else {
      OtherStep(i, p, s);
    }
  }

  // The interpreter answers as the trace ends.

  lemma {:induction false} TraceRuns(m: Course, prog: Program, p: Packet, states: seq<State>)
    requires CourseOf(m, prog, p) && Trace(prog, p, states)
    ensures var s := states[|states| - 1]; Leads(m, 0, 0, 0, |states| - 1, s.pc, s.a, s.x)
    decreases |states|
  {
    if |states| > 1 {
      var front, s, t := states[..|states| - 1], states[|states| - 2], states[|states| - 1];
      assert front[|front| - 1] == s;
      TraceRuns(m, prog, p, front);
      MovesAsStep(prog[s.pc], p, s, t);
      CourseMoves(m, prog, p, s, t);
    }
  }

  /** What the interpreter steps to. */
  predicate Follows(prog: Program, p: Packet, s: State, t: State) {
    s.pc < |prog| &&
    match Step(prog[s.pc], s.a, s.x, p)
    case Next(a, x) => t == State(s.pc + 1, a, x)
    case Jump(delta) => t == State(s.pc + delta, s.a, s.x)
    case _ => false
  }

  lemma CourseMoves(m: Course, prog: Program, p: Packet, s: State, t: State)
    requires CourseOf(m, prog, p) && Follows(prog, p, s, t)
    ensures Leads(m, s.pc, s.a, s.x, 1, t.pc, t.a, t.x)
  {
    var here, there := Exec(prog, s.pc, s.a, s.x, p), Exec(prog, t.pc, t.a, t.x, p);
  }

  lemma LastAnswers(m: Course, prog: Program, p: Packet, n: nat, s: State, v: Verdict)
    requires CourseOf(m, prog, p) && Leads(m, 0, 0, 0, n, s.pc, s.a, s.x) && AnswersAt(prog, p, n, s, v)
    ensures Answer(prog, p) == v
  {
    var start, here := Exec(prog, 0, 0, 0, p), Exec(prog, s.pc, s.a, s.x, p);
    if s.pc < |prog| {
      StopsAsStep(prog[s.pc], p, s);
    }
  }

  lemma TraceAnswers(prog: Program, p: Packet, states: seq<State>, v: Verdict)
    requires Trace(prog, p, states) && AnswersAt(prog, p, |states| - 1, states[|states| - 1], v)
    ensures Answer(prog, p) == v
  {
    var m := CourseIs(prog, p);
    TraceRuns(m, prog, p, states);
    LastAnswers(m, prog, p, |states| - 1, states[|states| - 1], v);
  }

  /** Every trace that is not too long goes on until it is answered. */
  lemma {:induction false} TraceEnds(prog: Program, p: Packet, states: seq<State>) returns (all: seq<State>, v: Verdict)
    requires Trace(prog, p, states) && |states| <= 10_001
    ensures Trace(prog, p, all) && AnswersAt(prog, p, |all| - 1, all[|all| - 1], v)
    decreases 10_001 - |states|
  {
    var s := states[|states| - 1];
    if s.pc >= |prog| {
      all, v := states, Raised(RanOffTheEnd);
    } else if |states| == 10_001 {
      all, v := states, Raised(TooManySteps);
    } else {
      var i := prog[s.pc];
      StopsAsStep(i, p, s);
      match Step(i, s.a, s.x, p)
      case Next(a, x) =>
        all, v := TraceGoesOn(prog, p, states, State(s.pc + 1, a, x));
      case Jump(delta) =>
        all, v := TraceGoesOn(prog, p, states, State(s.pc + delta, s.a, s.x));
      case Return(k) =>
        all, v := states, Keep(k);
      case OutOfBounds =>
        all, v := states, Keep(0);
      case Raise(f) =>
        all, v := states, Raised(f);
    }
  }

  lemma {:induction false} TraceGoesOn(prog: Program, p: Packet, states: seq<State>, t: State)
    returns (all: seq<State>, v: Verdict)
    requires Trace(prog, p, states) && |states| <= 10_000 && Follows(prog, p, states[|states| - 1], t)
    ensures Trace(prog, p, all) && AnswersAt(prog, p, |all| - 1, all[|all| - 1], v)
    decreases 10_001 - |states|, 0
  {
    var s := states[|states| - 1];
    MovesAsStep(prog[s.pc], p, s, t);
    all, v := TraceEnds(prog, p, states + [t]);
  }

  /**
  The interpreter's answer, for any program and any packet: the one that the trace of states from
  the start, and there is one, ends with.
  */
  lemma RunsExactly(prog: Program, p: Packet, v: Verdict)
    ensures Answer(prog, p) == v <==>
            exists states :: Trace(prog, p, states) && AnswersAt(prog, p, |states| - 1, states[|states| - 1], v)
  {
    var all, w := TraceEnds(prog, p, [State(0, 0, 0)]);
    TraceAnswers(prog, p, all, w);
    if states :| Trace(prog, p, states) && AnswersAt(prog, p, |states| - 1, states[|states| - 1], v) {
      TraceAnswers(prog, p, states, v);
    }
  }
}
