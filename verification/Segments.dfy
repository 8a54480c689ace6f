/**
One expression's code where the code generator leaves it: labelled, among other items. In the
resolved program the run enters it at its first instruction and leaves it at one of its labels.
*/
module Segments {
  import opened Vm
  import opened Filter
  import opened Conditions
  import opened Simulation
  import opened Lowering
  import opened Assembler
  import opened Codegen
  import opened Correctness

  lemma FrontComesOff(before: Stream, rest: Stream)
    requires before != []
    ensures (before + rest)[0] == before[0] && (before + rest)[1..] == before[1..] + rest
  {
  }

  /** What stands behind other items links to the end of what all of them link to. */
  lemma {:induction false} LinksBehind(before: Stream, rest: Stream)
    ensures var k := |Instructions(before)|; k <= |Link(before + rest)| && Link(before + rest)[k..] == Link(rest)
  {
    if before == [] {
      assert before + rest == rest;
    } else {
      FrontComesOff(before, rest);
      LinksBehind(before[1..], rest);
    }
  }

  lemma {:induction false} FartherBehind(before: Stream, rest: Stream, l: Label)
    requires l !in Placed(before)
    ensures Dist(before + rest, l) == |Instructions(before)| + Dist(rest, l)
  {
    if before == [] {
      assert before + rest == rest;
    } else {
      FrontComesOff(before, rest);
      PlacedCons(before);
      FartherBehind(before[1..], rest, l);
    }
  }

  lemma PlacedJoins(before: Stream, rest: Stream)
    ensures Placed(before + rest) == Placed(before) + Placed(rest)
  {
  }

  lemma {:induction false} DisciplinedBehind(before: Stream, rest: Stream)
    requires Disciplined(before + rest)
    ensures Disciplined(rest) && Placed(before) !! Placed(rest)
  {
    if before == [] {
      assert before + rest == rest;
    } else {
      FrontComesOff(before, rest);
      PlacedCons(before);
      PlacedJoins(before[1..], rest);
      DisciplinedBehind(before[1..], rest);
    }
  }

  /** Where a label that is not placed before lies. */
  lemma PlacedBehind(before: Stream, rest: Stream, items: Stream, l: Label)
    requires items == before + rest && Disciplined(items) && l in Placed(rest)
    ensures var positions := Positions(items, 0, map[]);
            l in positions && positions[l] == |Instructions(before)| + Dist(rest, l)
  {
    PlacedJoins(before, rest);
    DisciplinedBehind(before, rest);
    FartherBehind(before, rest, l);
    PositionsAreDistances(items, 0, map[]);
  }

  lemma LastIsDisciplined(c: Cond, t: Label, f: Label, n: nat, mark: Label, second: Stream)
    requires Disciplined(CodeThen(c, t, f, n, [Place(mark)] + second))
    ensures Disciplined(second)
  {
    InFront(c, t, f, n, [Place(mark)] + second);
    DisciplinedBehind(Code(c, t, f, n), [Place(mark)] + second);
    FrontComesOff([Place(mark)], second);
  }

  /** Code that keeps the discipline has both its exits placed behind it: its last test refers to them. */
  lemma {:induction false} ExitsArePlaced(c: Cond, t: Label, f: Label, n: nat, after: Stream)
    requires Disciplined(CodeThen(c, t, f, n, after))
    ensures Disciplined(after) && t in Placed(after) && f in Placed(after)
    decreases c
  {
    match c
    case Test(op, k) =>
      TestRefers(op, k, t, f, after);
    case After(op, k, body) =>
      FrontComesOff([LoadItem(op, k)], CodeThen(body, t, f, n, after));
      ExitsArePlaced(body, t, f, n, after);
    case Negated(body) =>
      ExitsArePlaced(body, f, t, n, after);
    case Pair(all, left, right) =>
      var mid := n + 1;
      var m := mid + Fresh(left);
      LastIsDisciplined(left, Select(all, mid, t), Select(all, f, mid), mid, mid, CodeThen(right, t, f, m, after));
      ExitsArePlaced(right, t, f, m, after);
    case Triple(gate, one, two, three) =>
      var first, next := n + 1, n + 2;
      var m := next + Fresh(one);
      var k := m + Fresh(two);
      var third := CodeThen(three, t, f, k, after);
      var second := CodeThen(two, Select(gate, next, t), f, m, [Place(next)] + third);
      TripleUnfolds(gate, one, two, three, t, f, n, first, next, m, k, after);
      LastIsDisciplined(one, Select(gate, next, first), Select(gate, first, next), next, first, second);
      LastIsDisciplined(two, Select(gate, next, t), f, m, next, third);
      ExitsArePlaced(three, t, f, k, after);
  }

  lemma TestRefers(op: TestOp, k: nat, t: Label, f: Label, after: Stream)
    requires Disciplined([TestItem(op, k, t, f)] + after)
    ensures Disciplined(after) && t in Placed(after) && f in Placed(after)
  {
    var i := TestItem(op, k, t, f);
    assert ([i] + after)[1..] == after;
    assert t in i.Targets() && f in i.Targets();
  }

  lemma StandsThere(prog: Program, at: nat, code: Program, more: Program)
    requires at <= |prog| && prog[at..] == code + more
    ensures CodeAt(prog, at, code)
  {
    assert prog[at..at + |code|] == prog[at..][..|code|] == code;
  }

  /** A condition's items among others: where its code is in the resolved program, and where its exits are. */
  lemma SegmentResolves(c: Cond, before: Stream, after: Stream, t: Label, f: Label, n: nat, s: Stream, items: Stream,
                        at: nat, dT: nat, dF: nat)
    requires s == CodeThen(c, t, f, n, after) && items == before + s && at == |Instructions(before)|
    requires t <= n && f <= n && dT == Dist(after, t) && dF == Dist(after, f)
    requires Disciplined(items) && Resolved(items).Success?
    ensures CodeAt(Resolved(items).value, at, Asm(c, dT, dF))
    ensures var positions := Positions(items, 0, map[]);
            && t in positions && positions[t] == at + Len(c) + dT
            && f in positions && positions[f] == at + Len(c) + dF
  {
    DisciplinedBehind(before, s);
    ExitsArePlaced(c, t, f, n, after);
    GeneratedLinks(c, t, f, n, after);
    PlacedBehind(before, s, items, t);
    PlacedBehind(before, s, items, f);
    LinksBehind(before, s);
    ResolvesToLink(items);
    BoundedFits(Link(items));
    StandsThere(Link(items), at, Asm(c, dT, dF), Link(after));
  }

  lemma CondSegmentRuns(c: Cond, truth: Truth, before: Stream, after: Stream, t: Label, f: Label, n: nat,
                        s: Stream, items: Stream, at: nat, p: Packet, r: Registers) returns (r': Registers)
    requires Means(c, p, truth) && s == CodeThen(c, t, f, n, after) && t <= n && f <= n
    requires items == before + s && at == |Instructions(before)|
    requires Disciplined(items) && Resolved(items).Success?
    ensures var prog, positions := Resolved(items).value, Positions(items, 0, map[]);
            && t in positions && f in positions
            && Exec(prog, at, r.a, r.x, p) == Onwards(prog, p, truth, positions[t], positions[f], r')
  {
    var dT, dF := Dist(after, t), Dist(after, f);
    SegmentResolves(c, before, after, t, f, n, s, items, at, dT, dF);
    var prog, positions := Resolved(items).value, Positions(items, 0, map[]);
    r' := SegmentEnds(prog, p, at, c, Asm(c, dT, dF), truth, dT, dF, positions[t], positions[f], r);
  }

  /**
  What the code generator appends for a node, anywhere in a stream that keeps the label discipline
  and can be resolved. Entered at its first instruction with any registers, the run goes on where the
  label `t` or the label `f` lies, or the packet is rejected; the node's meaning decides which.
  */
  lemma LabelledSegmentRuns(node: Node, before: Stream, after: Stream, t: Label, f: Label, n: nat, items: Stream,
                            p: Packet, r: Registers) returns (r': Registers)
    requires items == before + Code(Lower(node), t, f, n) + after && t <= n && f <= n
    requires Disciplined(items) && Resolved(items).Success?
    ensures var prog, positions := Resolved(items).value, Positions(items, 0, map[]);
            && t in positions && f in positions
            && Exec(prog, |Instructions(before)|, r.a, r.x, p) ==
               Onwards(prog, p, Eval(node, p), positions[t], positions[f], r')
  {
    var s := InOnePiece(before, Lower(node), t, f, n, after);
    LowerMeans(node, p);
    r' := CondSegmentRuns(Lower(node), Eval(node, p), before, after, t, f, n, s, items, |Instructions(before)|, p, r);
  }

  lemma InOnePiece(before: Stream, c: Cond, t: Label, f: Label, n: nat, after: Stream) returns (s: Stream)
    ensures s == CodeThen(c, t, f, n, after) && before + Code(c, t, f, n) + after == before + s
  {
    s := CodeThen(c, t, f, n, after);
    InFront(c, t, f, n, after);
    ThreePieces(before, Code(c, t, f, n), after);
  }

  lemma ThreePieces(a: Stream, b: Stream, c: Stream)
    ensures a + b + c == a + (b + c)
  {
  }
}
