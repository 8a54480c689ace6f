/**
The two-pass assembler: an append-only stream of instructions and label placements, and the
resolver that turns every label into a relative instruction count.
*/
module Assembler {
  import opened Wrappers
  import opened Vm

  /** A label is the counter value it was made with; the source compares labels by identity. */
  type Label = nat

  datatype Item =
    | Place(mark: Label)
    | Insn(code: nat, k: nat, jt: Option<Label>, jf: Option<Label>)
  {
    /** The labels an item refers to. */
    function Targets(): set<Label> {
      match this
      case Place(_) => {}
      case Insn(_, _, jt, jf) => (if jt.Some? then {jt.value} else {}) + (if jf.Some? then {jf.value} else {})
    }

    function Mentions(): set<Label> {
      match this
      case Place(l) => {l}
      case Insn(_, _, _, _) => Targets()
    }
  }

  type Stream = seq<Item>

  function Placed(items: Stream): set<Label> {
    set i | i in items && i.Place? :: i.mark
  }

  /** Accumulates items in emission order and hands out labels that were never used before. */
  class Emitter {
    var items: Stream
    var counter: nat

    ghost predicate Valid()
      reads this
    {
      forall i, l | i in items && l in i.Mentions() :: l <= counter
    }

    constructor ()
      ensures Valid() && items == [] && counter == 0
    {
      items, counter := [], 0;
    }

    method NewLabel() returns (mark: Label)
      requires Valid()
      modifies this`counter
      ensures Valid() && items == old(items) && counter == old(counter) + 1
      ensures mark == counter
      ensures forall i | i in items :: mark !in i.Mentions()
    {
      counter := counter + 1;
      mark := counter;
    }

    method PlaceLabel(mark: Label)
      requires Valid() && mark <= counter
      modifies this`items
      ensures Valid() && items == old(items) + [Place(mark)]
    {
      items := items + [Place(mark)];
    }

    method Emit(insn: Item)
      requires Valid() && insn.Insn? && forall l | l in insn.Targets() :: l <= counter
      modifies this`items
      ensures Valid() && items == old(items) + [insn]
    {
      items := items + [insn];
    }
  }

  datatype ResolveError = OutOfRange(offset: int) | UnplacedLabel(mark: Label)

  /** Where the label lies: the index of the next instruction. A later placement wins. */
  function Positions(items: Stream, index: nat, positions: map<Label, nat>): map<Label, nat> {
    if items == [] then positions
    else match items[0]
      case Place(l) => Positions(items[1..], index, positions[l := index])
      case Insn(_, _, _, _) => Positions(items[1..], index + 1, positions)
  }

  function Instructions(items: Stream): Stream {
    if items == [] then []
    else (if items[0].Insn? then [items[0]] else []) + Instructions(items[1..])
  }

  function OffsetTo(target: Option<Label>, from: nat, positions: map<Label, nat>): Result<nat, ResolveError> {
    match target
    case None => Success(0)
    case Some(l) =>
      if l !in positions then Failure(UnplacedLabel(l))
      else
        var offset := positions[l] - (from + 1);
        if 0 <= offset <= 255 then Success(offset) else Failure(OutOfRange(offset))
  }

  function ResolveInsn(insn: Item, from: nat, positions: map<Label, nat>): Result<SockFilter, ResolveError>
    requires insn.Insn?
  {
    var jt :- OffsetTo(insn.jt, from, positions);
    var jf :- OffsetTo(insn.jf, from, positions);
    Success(SockFilter(insn.code, jt, jf, insn.k))
  }

  function ResolveAll(insns: Stream, from: nat, positions: map<Label, nat>): Result<Program, ResolveError>
    requires forall i | i in insns :: i.Insn?
  {
    if insns == [] then Success([])
    else
      var first :- ResolveInsn(insns[0], from, positions);
      var rest :- ResolveAll(insns[1..], from + 1, positions);
      Success([first] + rest)
  }

  lemma {:induction false} InstructionsAreInsns(items: Stream)
    ensures forall i | i in Instructions(items) :: i.Insn?
  {
    if items != [] {
      InstructionsAreInsns(items[1..]);
    }
  }

  function Resolved(items: Stream): Result<Program, ResolveError> {
    InstructionsAreInsns(items);
    ResolveAll(Instructions(items), 0, Positions(items, 0, map[]))
  }

  function Prefixed(done: Program, rest: Result<Program, ResolveError>): Result<Program, ResolveError> {
    match rest
    case Success(r) => Success(done + r)
    case Failure(e) => Failure(e)
  }

  lemma PrefixedEnds(done: Program, rest: Result<Program, ResolveError>)
    ensures Prefixed([], rest) == rest && Prefixed(done, Success([])) == Success(done)
  {
    if rest.Success? {
      assert [] + rest.value == rest.value;
    }
    assert done + [] == done;
  }

  lemma ResolveStep(insns: Stream, i: nat, positions: map<Label, nat>, done: Program)
    requires i < |insns| && forall j | j in insns :: j.Insn?
    ensures Prefixed(done, ResolveAll(insns[i..], i, positions)) ==
            match ResolveInsn(insns[i], i, positions)
            case Failure(e) => Failure(e)
            case Success(s) => Prefixed(done + [s], ResolveAll(insns[i + 1..], i + 1, positions))
  {
    assert insns[i..][1..] == insns[i + 1..];
    var first := ResolveInsn(insns[i], i, positions);
    var rest := ResolveAll(insns[i + 1..], i + 1, positions);
    if first.Success? && rest.Success? {
      assert done + ([first.value] + rest.value) == done + [first.value] + rest.value;
    }
  }

  method Resolve(items: Stream) returns (r: Result<Program, ResolveError>)
    ensures r == Resolved(items)
  {
    var positions: map<Label, nat> := map[];
    var index := 0;
    for i := 0 to |items|
      invariant Positions(items, 0, map[]) == Positions(items[i..], index, positions)
    {
      match items[i] {
        case Place(l) => positions := positions[l := index];
        case Insn(_, _, _, _) => index := index + 1;
      }
      assert items[i..][1..] == items[i + 1..];
    }
    assert items[0..] == items;
    assert positions == Positions(items, 0, map[]);

    var instructions: Stream := [];
    for i := 0 to |items|
      invariant Instructions(items) == instructions + Instructions(items[i..])
    {
      assert items[i..][1..] == items[i + 1..];
      if items[i].Insn? {
        instructions := instructions + [items[i]];
      }
    }
    assert instructions == Instructions(items);
    InstructionsAreInsns(items);

    var program: Program := [];
    assert instructions[0..] == instructions;
    PrefixedEnds([], ResolveAll(instructions, 0, positions));
    for i := 0 to |instructions|
      invariant Resolved(items) == Prefixed(program, ResolveAll(instructions[i..], i, positions))
    {
      ResolveStep(instructions, i, positions, program);
      var insn := ResolveInsn(instructions[i], i, positions);
      if insn.Failure? {
        return Failure(insn.error);
      }
      program := program + [insn.value];
    }
    PrefixedEnds(program, Success([]));
    return Success(program);
  }

  /** The resolved offset brings the pc from the jump at `at` to where its label lies. */
  predicate Lands(target: Option<Label>, offset: nat, at: nat, positions: map<Label, nat>) {
    match target
    case None => offset == 0
    case Some(l) => l in positions && at + 1 + offset == positions[l]
  }

  /** All labels of the jump at `at` lie ahead of it, at most 255 instructions away. */
  ghost predicate Reachable(insn: Item, at: nat, positions: map<Label, nat>) {
    forall l | l in insn.Targets() :: l in positions && at < positions[l] <= at + 256
  }

  ghost predicate AllReachable(insns: Stream, from: nat, positions: map<Label, nat>) {
    forall j | 0 <= j < |insns| :: Reachable(insns[j], from + j, positions)
  }

  /** `prog` is `insns` instruction by instruction, with labels turned into offsets of 8 bits. */
  ghost predicate Transcribes(prog: Program, insns: Stream, from: nat, positions: map<Label, nat>)
    requires forall i | i in insns :: i.Insn?
  {
    && |prog| == |insns|
    && forall j | 0 <= j < |insns| ::
         && prog[j].code == insns[j].code && prog[j].k == insns[j].k
         && prog[j].jt <= 255 && Lands(insns[j].jt, prog[j].jt, from + j, positions)
         && prog[j].jf <= 255 && Lands(insns[j].jf, prog[j].jf, from + j, positions)
  }

  lemma AllReachableCons(insns: Stream, from: nat, positions: map<Label, nat>)
    requires insns != []
    ensures AllReachable(insns, from, positions) <==>
            Reachable(insns[0], from, positions) && AllReachable(insns[1..], from + 1, positions)
  {
    if AllReachable(insns, from, positions) {
      forall j | 0 <= j < |insns[1..]| ensures Reachable(insns[1..][j], from + 1 + j, positions) {
        assert Reachable(insns[j + 1], from + (j + 1), positions);
      }
    }
    if Reachable(insns[0], from, positions) && AllReachable(insns[1..], from + 1, positions) {
      forall j | 0 <= j < |insns| ensures Reachable(insns[j], from + j, positions) {
        if j > 0 {
          assert Reachable(insns[1..][j - 1], from + 1 + (j - 1), positions);
        }
      }
    }
  }

  lemma ResolvesInsn(insn: Item, at: nat, positions: map<Label, nat>)
    requires insn.Insn?
    ensures ResolveInsn(insn, at, positions).Success? <==> Reachable(insn, at, positions)
  {
    assert insn.jt.Some? ==> insn.jt.value in insn.Targets();
    assert insn.jf.Some? ==> insn.jf.value in insn.Targets();
  }

  /**
  Resolution keeps the order, the opcodes and the operands; every jump lands where its label
  lies; and it succeeds exactly when every label is ahead and within 8 bits.
  */
  lemma {:induction false} ResolvesExactly(insns: Stream, from: nat, positions: map<Label, nat>)
    requires forall i | i in insns :: i.Insn?
    ensures var r := ResolveAll(insns, from, positions);
            && (r.Success? <==> AllReachable(insns, from, positions))
            && (r.Success? ==> Transcribes(r.value, insns, from, positions))
  {
    if insns != [] {
      var tail := insns[1..];
      ResolvesExactly(tail, from + 1, positions);
      AllReachableCons(insns, from, positions);
      ResolvesInsn(insns[0], from, positions);
      var r := ResolveAll(insns, from, positions);
      if r.Success? {
        forall j | 0 < j < |insns|
          ensures Lands(insns[j].jt, r.value[j].jt, from + j, positions)
          ensures Lands(insns[j].jf, r.value[j].jf, from + j, positions)
        {
          assert insns[j] == tail[j - 1] && from + j == from + 1 + (j - 1);
        }
      }
    }
  }

  /** The label is placed nowhere, or behind the jump at `at`, or more than 255 instructions past the next one. */
  predicate Misses(target: Option<Label>, at: nat, positions: map<Label, nat>, e: ResolveError) {
    match target
    case None => false
    case Some(l) =>
      if l !in positions then e == UnplacedLabel(l)
      else (positions[l] <= at || positions[l] > at + 256) && e == OutOfRange(positions[l] - at - 1)
  }

  /** What is wrong with the first instruction that cannot be resolved, its jump for true before that for false. */
  ghost predicate InsnMisses(insn: Item, at: nat, positions: map<Label, nat>, e: ResolveError)
    requires insn.Insn?
  {
    || Misses(insn.jt, at, positions, e)
    || ((forall e' :: !Misses(insn.jt, at, positions, e')) && Misses(insn.jf, at, positions, e))
  }

  ghost predicate MissesAt(insns: Stream, from: nat, positions: map<Label, nat>, e: ResolveError, j: nat)
    requires forall i | i in insns :: i.Insn?
  {
    && j < |insns| && AllReachable(insns[..j], from, positions)
    && InsnMisses(insns[j], from + j, positions, e)
  }

  ghost predicate FirstMiss(insns: Stream, from: nat, positions: map<Label, nat>, e: ResolveError)
    requires forall i | i in insns :: i.Insn?
  {
    exists j: nat :: MissesAt(insns, from, positions, e, j)
  }

  lemma OffsetFails(target: Option<Label>, at: nat, positions: map<Label, nat>, e: ResolveError)
    ensures OffsetTo(target, at, positions) == Failure(e) <==> Misses(target, at, positions, e)
  {
  }

  lemma InsnFails(insn: Item, at: nat, positions: map<Label, nat>, e: ResolveError)
    requires insn.Insn?
    ensures ResolveInsn(insn, at, positions) == Failure(e) <==> InsnMisses(insn, at, positions, e)
  {
    forall e' ensures OffsetTo(insn.jt, at, positions) == Failure(e') <==> Misses(insn.jt, at, positions, e') {
      OffsetFails(insn.jt, at, positions, e');
    }
    OffsetFails(insn.jf, at, positions, e);
    assert OffsetTo(insn.jt, at, positions).Failure? ==>
             Misses(insn.jt, at, positions, OffsetTo(insn.jt, at, positions).error);
  }

  lemma MissesFirst(insns: Stream, from: nat, positions: map<Label, nat>, e: ResolveError)
    requires (forall i | i in insns :: i.Insn?) && insns != []
    ensures MissesAt(insns, from, positions, e, 0) <==> InsnMisses(insns[0], from, positions, e)
  {
    assert from + 0 == from;
  }

  lemma MissesBehind(insns: Stream, from: nat, positions: map<Label, nat>, e: ResolveError, j: nat)
    requires (forall i | i in insns :: i.Insn?) && insns != []
    ensures MissesAt(insns, from, positions, e, j + 1) <==>
            Reachable(insns[0], from, positions) && MissesAt(insns[1..], from + 1, positions, e, j)
  {
    if j + 1 < |insns| {
      var front := insns[..j + 1];
      AllReachableCons(front, from, positions);
      assert front[1..] == insns[1..][..j] && front[0] == insns[0];
    }
  }

  lemma MissMoves(insns: Stream, from: nat, positions: map<Label, nat>, e: ResolveError)
    requires (forall i | i in insns :: i.Insn?) && insns != []
    ensures FirstMiss(insns, from, positions, e) <==>
            || InsnMisses(insns[0], from, positions, e)
            || (Reachable(insns[0], from, positions) && FirstMiss(insns[1..], from + 1, positions, e))
  {
    MissesFirst(insns, from, positions, e);
    if j: nat :| MissesAt(insns, from, positions, e, j) {
      if j > 0 {
        MissesBehind(insns, from, positions, e, j - 1);
      }
    }
    var rest, next := insns[1..], from + 1;
    if j: nat :| MissesAt(rest, next, positions, e, j) {
      MissesBehind(insns, from, positions, e, j);
    }
  }

  /** Resolution fails with an error exactly where the first instruction that cannot be resolved has it. */
  lemma {:induction false} FailsToResolve(insns: Stream, from: nat, positions: map<Label, nat>, e: ResolveError)
    requires forall i | i in insns :: i.Insn?
    ensures ResolveAll(insns, from, positions) == Failure(e) <==> FirstMiss(insns, from, positions, e)
  {
    if insns != [] {
      InsnFails(insns[0], from, positions, e);
      ResolvesInsn(insns[0], from, positions);
      FailsToResolve(insns[1..], from + 1, positions, e);
      MissMoves(insns, from, positions, e);
    }
  }

  /** How many instructions stand before the first placement of the label. */
  function Dist(items: Stream, l: Label): nat {
    if items == [] then 0
    else match items[0]
      case Place(l') => if l' == l then 0 else Dist(items[1..], l)
      case Insn(_, _, _, _) => 1 + Dist(items[1..], l)
  }

  function Ahead(target: Option<Label>, rest: Stream): nat {
    match target
    case None => 0
    case Some(l) => Dist(rest, l)
  }

  /** The stream with every label replaced by its distance ahead, however far. */
  function Link(items: Stream): Program {
    if items == [] then []
    else match items[0]
      case Place(_) => Link(items[1..])
      case Insn(code, k, jt, jf) =>
        [SockFilter(code, Ahead(jt, items[1..]), Ahead(jf, items[1..]), k)] + Link(items[1..])
  }

  /** No label is placed twice, and every label referred to is placed strictly later. */
  ghost predicate Disciplined(items: Stream) {
    items != [] ==>
      && Disciplined(items[1..])
      && match items[0]
         case Place(l) => l !in Placed(items[1..])
         case Insn(_, _, _, _) => items[0].Targets() <= Placed(items[1..])
  }

  /** The 8-bit limit on linked code; the first distance past it is the one reported. */
  function Bounded(code: Program): Result<Program, ResolveError> {
    if code == [] then Success([])
    else if code[0].jt > 255 then Failure(OutOfRange(code[0].jt))
    else if code[0].jf > 255 then Failure(OutOfRange(code[0].jf))
    else
      var rest :- Bounded(code[1..]);
      Success([code[0]] + rest)
  }

  predicate Fits(code: Program) {
    forall i | i in code :: i.jt <= 255 && i.jf <= 255
  }

  lemma {:induction false} BoundedFits(code: Program)
    ensures Bounded(code).Success? <==> Fits(code)
    ensures Bounded(code).Success? ==> Bounded(code).value == code
  {
    if code != [] {
      BoundedFits(code[1..]);
      assert code == [code[0]] + code[1..];
    }
  }

  /** What is too far in the instruction, its jump for true before that for false. */
  predicate TooFarIn(insn: SockFilter, e: ResolveError) {
    (insn.jt > 255 || insn.jf > 255) && e == OutOfRange(if insn.jt > 255 then insn.jt else insn.jf)
  }

  /** The first distance past 8 bits. */
  ghost predicate FirstTooFar(code: Program, e: ResolveError) {
    exists i: nat :: TooFarAt(code, e, i)
  }

  predicate TooFarAt(code: Program, e: ResolveError, i: nat) {
    i < |code| && Fits(code[..i]) && TooFarIn(code[i], e)
  }

  lemma TooFarBehind(code: Program, e: ResolveError, i: nat)
    requires code != []
    ensures TooFarAt(code, e, i + 1) <==> code[0].jt <= 255 && code[0].jf <= 255 && TooFarAt(code[1..], e, i)
  {
    if i + 1 < |code| {
      assert code[..i + 1] == [code[0]] + code[1..][..i];
    }
  }

  lemma TooFarMoves(code: Program, e: ResolveError)
    requires code != []
    ensures FirstTooFar(code, e) <==>
            TooFarIn(code[0], e) || (code[0].jt <= 255 && code[0].jf <= 255 && FirstTooFar(code[1..], e))
  {
    assert TooFarAt(code, e, 0) <==> TooFarIn(code[0], e);
    if i: nat :| TooFarAt(code, e, i) {
      if i > 0 {
        TooFarBehind(code, e, i - 1);
      }
    }
    if i: nat :| TooFarAt(code[1..], e, i) {
      TooFarBehind(code, e, i);
    }
  }

  lemma {:induction false} BoundedFails(code: Program, e: ResolveError)
    ensures Bounded(code) == Failure(e) <==> FirstTooFar(code, e)
  {
    if code != [] {
      BoundedFails(code[1..], e);
      TooFarMoves(code, e);
    }
  }

  lemma PlacedCons(items: Stream)
    requires items != []
    ensures Placed(items) == (if items[0].Place? then {items[0].mark} else {}) + Placed(items[1..])
  {
    assert items == [items[0]] + items[1..];
  }

  lemma {:induction false} PositionsAreDistances(items: Stream, index: nat, positions: map<Label, nat>)
    requires Disciplined(items)
    ensures var done := Positions(items, index, positions);
            && (forall l | l in Placed(items) :: l in done && done[l] == index + Dist(items, l))
            && (forall l | l in positions && l !in Placed(items) :: l in done && done[l] == positions[l])
  {
    if items != [] {
      PlacedCons(items);
      match items[0]
      case Place(l) => PositionsAreDistances(items[1..], index, positions[l := index]);
      case Insn(_, _, _, _) => PositionsAreDistances(items[1..], index + 1, positions);
    }
  }

  lemma {:induction false} ResolvesTail(items: Stream, index: nat, positions: map<Label, nat>)
    requires Disciplined(items)
    requires forall l | l in Placed(items) :: l in positions && positions[l] == index + Dist(items, l)
    requires forall i | i in Instructions(items) :: i.Insn?
    ensures ResolveAll(Instructions(items), index, positions) == Bounded(Link(items))
  {
    if items != [] {
      PlacedCons(items);
      var rest := items[1..];
      InstructionsAreInsns(rest);
      match items[0]
      case Place(l) =>
        assert Instructions(items) == Instructions(rest);
        ResolvesTail(rest, index, positions);
      case Insn(code, k, jt, jf) =>
        ResolvesTail(rest, index + 1, positions);
        assert jt.Some? ==> jt.value in items[0].Targets();
        assert jf.Some? ==> jf.value in items[0].Targets();
        OffsetIsAhead(jt, index, rest, positions);
        OffsetIsAhead(jf, index, rest, positions);
        HeadResolves(items[0], Instructions(rest), index, positions, Ahead(jt, rest), Ahead(jf, rest), Link(rest));
        assert Instructions(items) == [items[0]] + Instructions(rest);
    }
  }

  /** The offset to a label that lies ahead is its distance, if that fits. */
  lemma OffsetIsAhead(target: Option<Label>, index: nat, rest: Stream, positions: map<Label, nat>)
    requires target.Some? ==>
               target.value in positions && positions[target.value] == index + 1 + Dist(rest, target.value)
    ensures OffsetTo(target, index, positions) ==
            if Ahead(target, rest) <= 255 then Success(Ahead(target, rest))
            else Failure(OutOfRange(Ahead(target, rest)))
  {
  }

  /** One instruction in front of others that resolve as they link. */
  lemma HeadResolves(i: Item, insns: Stream, index: nat, positions: map<Label, nat>, t: nat, f: nat, linked: Program)
    requires i.Insn? && forall j | j in insns :: j.Insn?
    requires OffsetTo(i.jt, index, positions) == if t <= 255 then Success(t) else Failure(OutOfRange(t))
    requires OffsetTo(i.jf, index, positions) == if f <= 255 then Success(f) else Failure(OutOfRange(f))
    requires ResolveAll(insns, index + 1, positions) == Bounded(linked)
    ensures ResolveAll([i] + insns, index, positions) == Bounded([SockFilter(i.code, t, f, i.k)] + linked)
  {
    assert ([i] + insns)[1..] == insns;
    assert ([SockFilter(i.code, t, f, i.k)] + linked)[1..] == linked;
  }

  /**
  On a disciplined stream the position lookup never misses and no offset is negative: resolving
  is linking by distances, and fails only where a distance needs more than 8 bits.
  */
  lemma ResolvesToLink(items: Stream)
    requires Disciplined(items)
    ensures Resolved(items) == Bounded(Link(items))
  {
    PositionsAreDistances(items, 0, map[]);
    InstructionsAreInsns(items);
    ResolvesTail(items, 0, Positions(items, 0, map[]));
  }
}
