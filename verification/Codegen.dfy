/**
Code generation over symbolic labels: a condition is compiled against the label to go to when it
holds and the label to go to when it does not. Linking the generated items by distance gives the
condition's label-free code, and the generated stream keeps the label discipline.
*/
module Codegen {
  import opened Wrappers
  import opened Vm
  import opened Conditions
  import opened Assembler

  /** How many labels a condition's code makes. */
  function Fresh(c: Cond): nat {
    match c
    case Test(_, _) => 0
    case After(_, _, body) => Fresh(body)
    case Negated(body) => Fresh(body)
    case Pair(_, left, right) => 1 + Fresh(left) + Fresh(right)
    case Triple(_, one, two, three) => 2 + Fresh(one) + Fresh(two) + Fresh(three)
  }

  function TestItem(op: TestOp, k: nat, t: Label, f: Label): Item {
    match op
    case Equal => Insn(0x15, k, Some(t), Some(f))
    case NoBits => Insn(0x45, k, Some(f), Some(t))
  }

  function LoadItem(op: LoadOp, k: nat): Item {
    Insn(op.Code(), k, None, None)
  }

  function Select(b: bool, yes: Label, no: Label): Label {
    if b then yes else no
  }

  /**
  The items of a condition with exits `t` and `f`, when `n` labels exist already, followed by
  `rest`.
  */
  function CodeThen(c: Cond, t: Label, f: Label, n: nat, rest: Stream): Stream {
    match c
    case Test(op, k) => [TestItem(op, k, t, f)] + rest
    case After(op, k, body) => [LoadItem(op, k)] + CodeThen(body, t, f, n, rest)
    case Negated(body) => CodeThen(body, f, t, n, rest)
    case Pair(all, left, right) =>
      var mid := n + 1;
      var second := CodeThen(right, t, f, mid + Fresh(left), rest);
      CodeThen(left, Select(all, mid, t), Select(all, f, mid), mid, [Place(mid)] + second)
    case Triple(gate, one, two, three) =>
      var first, next := n + 1, n + 2;
      var m := next + Fresh(one);
      var third := CodeThen(three, t, f, m + Fresh(two), rest);
      var second := CodeThen(two, Select(gate, next, t), f, m, [Place(next)] + third);
      CodeThen(one, Select(gate, next, first), Select(gate, first, next), next, [Place(first)] + second)
  }

  /** The items appended for a condition. */
  function Code(c: Cond, t: Label, f: Label, n: nat): Stream {
    CodeThen(c, t, f, n, [])
  }

  lemma Place3(mark: Label, s: Stream, more: Stream)
    ensures [Place(mark)] + s + more == [Place(mark)] + (s + more)
  {
  }

  lemma {:induction false} CodeAppends(c: Cond, t: Label, f: Label, n: nat, rest: Stream, more: Stream)
    ensures CodeThen(c, t, f, n, rest) + more == CodeThen(c, t, f, n, rest + more)
    decreases c
  {
    match c
    case Test(op, k) =>
    case After(op, k, body) =>
      CodeAppends(body, t, f, n, rest, more);
    case Negated(body) =>
      CodeAppends(body, f, t, n, rest, more);
    case Pair(all, left, right) =>
      var mid := n + 1;
      var second := CodeThen(right, t, f, mid + Fresh(left), rest);
      CodeAppends(right, t, f, mid + Fresh(left), rest, more);
      Place3(mid, second, more);
      CodeAppends(left, Select(all, mid, t), Select(all, f, mid), mid, [Place(mid)] + second, more);
    case Triple(gate, one, two, three) =>
      var first, next := n + 1, n + 2;
      var m := next + Fresh(one);
      var third := CodeThen(three, t, f, m + Fresh(two), rest);
      var second := CodeThen(two, Select(gate, next, t), f, m, [Place(next)] + third);
      CodeAppends(three, t, f, m + Fresh(two), rest, more);
      Place3(next, third, more);
      CodeAppends(two, Select(gate, next, t), f, m, [Place(next)] + third, more);
      Place3(first, second, more);
      CodeAppends(one, Select(gate, next, first), Select(gate, first, next), next, [Place(first)] + second, more);
  }

  lemma CodeOfAfter(op: LoadOp, k: nat, body: Cond, t: Label, f: Label, n: nat)
    ensures Code(After(op, k, body), t, f, n) == [LoadItem(op, k)] + Code(body, t, f, n)
  {
  }

  lemma CodeOfPair(all: bool, left: Cond, right: Cond, t: Label, f: Label, n: nat, mid: Label, m: nat)
    requires mid == n + 1 && m == mid + Fresh(left)
    ensures Code(Pair(all, left, right), t, f, n) ==
            Code(left, Select(all, mid, t), Select(all, f, mid), mid) + [Place(mid)] + Code(right, t, f, m)
  {
    InFront(left, Select(all, mid, t), Select(all, f, mid), mid, [Place(mid)] + CodeThen(right, t, f, m, []));
    PairUnfolds(all, left, right, t, f, n, mid, m);
    PairAssociates(Code(left, Select(all, mid, t), Select(all, f, mid), mid), [Place(mid)], Code(right, t, f, m),
                   Code(Pair(all, left, right), t, f, n));
  }

  lemma PairUnfolds(all: bool, left: Cond, right: Cond, t: Label, f: Label, n: nat, mid: Label, m: nat)
    requires mid == n + 1 && m == mid + Fresh(left)
    ensures Code(Pair(all, left, right), t, f, n) ==
            CodeThen(left, Select(all, mid, t), Select(all, f, mid), mid, [Place(mid)] + Code(right, t, f, m))
  {
  }

  lemma PairAssociates(a: Stream, b: Stream, c: Stream, whole: Stream)
    requires whole == a + (b + c)
    ensures whole == a + b + c
  {
  }

  lemma TripleUnfolds(gate: bool, one: Cond, two: Cond, three: Cond, t: Label, f: Label,
                      n: nat, first: Label, next: Label, m: nat, k: nat, rest: Stream)
    requires first == n + 1 && next == n + 2 && m == next + Fresh(one) && k == m + Fresh(two)
    ensures CodeThen(Triple(gate, one, two, three), t, f, n, rest) ==
            CodeThen(one, Select(gate, next, first), Select(gate, first, next), next,
                     [Place(first)] + CodeThen(two, Select(gate, next, t), f, m,
                                               [Place(next)] + CodeThen(three, t, f, k, rest)))
  {
  }

  /** The items of three conditions, the second and third behind the first. */
  lemma TripleNested(gate: bool, one: Cond, two: Cond, three: Cond, t: Label, f: Label,
                     n: nat, first: Label, next: Label, m: nat, k: nat)
    requires first == n + 1 && next == n + 2 && m == next + Fresh(one) && k == m + Fresh(two)
    ensures Code(Triple(gate, one, two, three), t, f, n) ==
            Code(one, Select(gate, next, first), Select(gate, first, next), next)
            + ([Place(first)] + (Code(two, Select(gate, next, t), f, m) + ([Place(next)] + Code(three, t, f, k))))
  {
    var last := CodeThen(three, t, f, k, []);
    var second := CodeThen(two, Select(gate, next, t), f, m, [Place(next)] + last);
    TripleUnfolds(gate, one, two, three, t, f, n, first, next, m, k, []);
    InFront(two, Select(gate, next, t), f, m, [Place(next)] + last);
    InFront(one, Select(gate, next, first), Select(gate, first, next), next, [Place(first)] + second);
  }

  lemma CodeOfTriple(gate: bool, one: Cond, two: Cond, three: Cond, t: Label, f: Label,
                     n: nat, first: Label, next: Label, m: nat, k: nat)
    requires first == n + 1 && next == n + 2 && m == next + Fresh(one) && k == m + Fresh(two)
    ensures Code(Triple(gate, one, two, three), t, f, n) ==
            Code(one, Select(gate, next, first), Select(gate, first, next), next)
            + [Place(first)] + Code(two, Select(gate, next, t), f, m)
            + [Place(next)] + Code(three, t, f, k)
  {
    TripleNested(gate, one, two, three, t, f, n, first, next, m, k);
    TripleAssociates(Code(one, Select(gate, next, first), Select(gate, first, next), next), [Place(first)],
                     Code(two, Select(gate, next, t), f, m), [Place(next)], Code(three, t, f, k),
                     Code(Triple(gate, one, two, three), t, f, n));
  }

  /** What comes after a condition's code is only appended to it. */
  lemma InFront(c: Cond, t: Label, f: Label, n: nat, more: Stream)
    ensures CodeThen(c, t, f, n, more) == Code(c, t, f, n) + more
  {
    CodeAppends(c, t, f, n, [], more);
    assert [] + more == more;
  }

  lemma TripleAssociates(a: Stream, b: Stream, c: Stream, d: Stream, e: Stream, whole: Stream)
    requires whole == a + (b + (c + (d + e)))
    ensures whole == a + b + c + d + e
  {
  }

  /** What matters of a stream that other code is put in front of. */
  datatype View = View(linked: Program, placed: set<Label>, dist: Label -> nat, disciplined: bool)

  ghost function Seen(s: Stream): View {
    View(Link(s), Placed(s), (l: Label) => Dist(s, l), Disciplined(s))
  }

  /** A stream's view, a condition's items and its label-free code, each as one function. */
  datatype Lens = Lens(view: Stream -> View, items: (Cond, Label, Label, nat, Stream) -> Stream,
                       code: (Cond, nat, nat) -> Program)

  ghost predicate Clear(v: Lens) {
    && (forall s {:trigger Seen(s)} ::
          && v.view(s).linked == Seen(s).linked
          && v.view(s).placed == Seen(s).placed
          && v.view(s).disciplined == Seen(s).disciplined
          && forall l :: v.view(s).dist(l) == Dist(s, l))
    && (forall c, t, f, n, rest {:trigger CodeThen(c, t, f, n, rest)} ::
          v.items(c, t, f, n, rest) == CodeThen(c, t, f, n, rest))
    && (forall c, dT, dF {:trigger Asm(c, dT, dF)} :: v.code(c, dT, dF) == Asm(c, dT, dF))
    && (forall c, dT, dF {:trigger v.code(c, dT, dF)} :: |v.code(c, dT, dF)| == Len(c))
  }

  /** `w` is `u` with the label placed in front. */
  ghost predicate Marked(w: View, mark: Label, u: View) {
    && w.linked == u.linked
    && w.placed == {mark} + u.placed
    && (forall l :: w.dist(l) == if l == mark then 0 else u.dist(l))
    && (w.disciplined <==> u.disciplined && mark !in u.placed)
  }

  lemma PlaceFirst(v: Lens, mark: Label, rest: Stream)
    requires Clear(v)
    ensures Marked(v.view([Place(mark)] + rest), mark, v.view(rest))
  {
    var s := [Place(mark)] + rest;
    assert s[1..] == rest;
    PlacedCons(s);
    var here, there := Seen(s), Seen(rest);
  }

  lemma InsnFirst(v: Lens, i: Item, rest: Stream)
    requires Clear(v) && i.Insn?
    ensures v.view([i] + rest).linked ==
            [SockFilter(i.code, if i.jt.None? then 0 else v.view(rest).dist(i.jt.value),
                        if i.jf.None? then 0 else v.view(rest).dist(i.jf.value), i.k)] + v.view(rest).linked
    ensures v.view([i] + rest).placed == v.view(rest).placed
    ensures forall l :: v.view([i] + rest).dist(l) == 1 + v.view(rest).dist(l)
    ensures v.view([i] + rest).disciplined <==> v.view(rest).disciplined && i.Targets() <= v.view(rest).placed
  {
    var s := [i] + rest;
    assert s[1..] == rest;
    PlacedCons(s);
    var here, there := Seen(s), Seen(rest);
  }

  /** Labels `from + 1` to `from + count`. */
  function Range(from: nat, count: nat): set<Label> {
    set l: Label {:trigger l in Range(from, count)} | from < l <= from + count
  }

  lemma RangeJoins(n: nat, mid: Label, m: nat, a: nat, b: nat)
    requires mid == n + 1 && m == mid + a
    ensures Range(mid, a) + ({mid} + Range(m, b)) == Range(n, 1 + a + b)
  {
  }

  lemma RangeJoins3(n: nat, first: Label, next: Label, m: nat, k: nat, a: nat, b: nat, c: nat, own: set<Label>)
    requires first == n + 1 && next == n + 2 && m == next + a && k == m + b
    requires own == Range(m, b) + ({next} + Range(k, c))
    ensures Range(next, a) + ({first} + own) == Range(n, 2 + a + b + c)
  {
  }

  lemma ItemsAre(v: Lens, c: Cond, t: Label, f: Label, n: nat, rest: Stream)
    requires Clear(v)
    ensures v.items(c, t, f, n, rest) == CodeThen(c, t, f, n, rest)
  {
  }

  lemma CodeIs(v: Lens, c: Cond, dT: nat, dF: nat)
    requires Clear(v)
    ensures v.code(c, dT, dF) == Asm(c, dT, dF)
  {
  }

  lemma ItemsOfOne(v: Lens, op: TestOp, k: nat, t: Label, f: Label, n: nat, rest: Stream, dT: nat, dF: nat)
    requires Clear(v)
    ensures v.items(Test(op, k), t, f, n, rest) == [TestItem(op, k, t, f)] + rest
    ensures v.code(Test(op, k), dT, dF) == [op.Insn(k, dT, dF)]
  {
    ItemsAre(v, Test(op, k), t, f, n, rest);
    CodeIs(v, Test(op, k), dT, dF);
  }

  lemma ItemsOfAfter(v: Lens, op: LoadOp, k: nat, body: Cond, t: Label, f: Label, n: nat, rest: Stream, dT: nat,
                     dF: nat)
    requires Clear(v)
    ensures v.items(After(op, k, body), t, f, n, rest) == [LoadItem(op, k)] + v.items(body, t, f, n, rest)
    ensures v.code(After(op, k, body), dT, dF) == [SockFilter(op.Code(), 0, 0, k)] + v.code(body, dT, dF)
  {
    ItemsAre(v, After(op, k, body), t, f, n, rest);
    ItemsAre(v, body, t, f, n, rest);
    CodeIs(v, After(op, k, body), dT, dF);
    CodeIs(v, body, dT, dF);
  }

  lemma ItemsOfNegated(v: Lens, body: Cond, t: Label, f: Label, n: nat, rest: Stream, dT: nat, dF: nat)
    requires Clear(v)
    ensures v.items(Negated(body), t, f, n, rest) == v.items(body, f, t, n, rest)
    ensures v.code(Negated(body), dT, dF) == v.code(body, dF, dT)
  {
    ItemsAre(v, Negated(body), t, f, n, rest);
    ItemsAre(v, body, f, t, n, rest);
    CodeIs(v, Negated(body), dT, dF);
    CodeIs(v, body, dF, dT);
  }

  lemma ItemsOfPair(v: Lens, all: bool, left: Cond, right: Cond, t: Label, f: Label, n: nat, mid: Label, m: nat,
                    rest: Stream)
    requires Clear(v) && mid == n + 1 && m == mid + Fresh(left)
    ensures v.items(Pair(all, left, right), t, f, n, rest) ==
            v.items(left, Select(all, mid, t), Select(all, f, mid), mid, [Place(mid)] + v.items(right, t, f, m, rest))
  {
    ItemsAre(v, Pair(all, left, right), t, f, n, rest);
    ItemsAre(v, right, t, f, m, rest);
    ItemsAre(v, left, Select(all, mid, t), Select(all, f, mid), mid, [Place(mid)] + CodeThen(right, t, f, m, rest));
  }

  lemma CodeOfTwo(v: Lens, all: bool, left: Cond, right: Cond, len: nat, dT: nat, dF: nat)
    requires Clear(v) && len == Len(right)
    ensures v.code(Pair(all, left, right), dT, dF) ==
            v.code(left, If(!all, len + dT), If(all, len + dF)) + v.code(right, dT, dF)
  {
    CodeIs(v, Pair(all, left, right), dT, dF);
    CodeIs(v, left, If(!all, len + dT), If(all, len + dF));
    CodeIs(v, right, dT, dF);
    PairAsm(all, left, right, len, dT, dF);
  }

  lemma ItemsOfTriple(v: Lens, gate: bool, one: Cond, two: Cond, three: Cond, t: Label, f: Label,
                      n: nat, first: Label, next: Label, m: nat, k: nat, rest: Stream)
    requires Clear(v) && first == n + 1 && next == n + 2 && m == next + Fresh(one) && k == m + Fresh(two)
    ensures v.items(Triple(gate, one, two, three), t, f, n, rest) ==
            v.items(one, Select(gate, next, first), Select(gate, first, next), next,
                    [Place(first)] + v.items(two, Select(gate, next, t), f, m,
                                             [Place(next)] + v.items(three, t, f, k, rest)))
  {
    var third := CodeThen(three, t, f, k, rest);
    var second := CodeThen(two, Select(gate, next, t), f, m, [Place(next)] + third);
    ItemsAre(v, Triple(gate, one, two, three), t, f, n, rest);
    ItemsAre(v, three, t, f, k, rest);
    ItemsAre(v, two, Select(gate, next, t), f, m, [Place(next)] + third);
    ItemsAre(v, one, Select(gate, next, first), Select(gate, first, next), next, [Place(first)] + second);
    TripleUnfolds(gate, one, two, three, t, f, n, first, next, m, k, rest);
  }

  lemma CodeOfThree(v: Lens, gate: bool, one: Cond, two: Cond, three: Cond, n: nat, len: nat, dT: nat, dF: nat)
    requires Clear(v) && n == Len(two) && len == Len(three)
    ensures v.code(Triple(gate, one, two, three), dT, dF) ==
            v.code(one, If(gate, n), If(!gate, n))
            + (v.code(two, If(!gate, len + dT), len + dF) + v.code(three, dT, dF))
  {
    CodeIs(v, Triple(gate, one, two, three), dT, dF);
    CodeIs(v, one, If(gate, n), If(!gate, n));
    CodeIs(v, two, If(!gate, len + dT), len + dF);
    CodeIs(v, three, dT, dF);
    TripleAsm(gate, one, two, three, n, len, dT, dF);
  }

  /** `w` is `u` behind `code`, which places the labels `own`. */
  ghost predicate Behind(w: View, own: set<Label>, code: Program, u: View) {
    && w.linked == code + u.linked
    && w.placed == own + u.placed
    && (forall l | l !in own :: w.dist(l) == |code| + u.dist(l))
  }

  /** Two pieces of code with a label between them. */
  lemma Stack(w: View, own: set<Label>, code: Program, p: View, mark: Label,
              s: View, own': set<Label>, code': Program, u: View, both: set<Label>)
    requires Behind(w, own, code, p) && Marked(p, mark, s) && Behind(s, own', code', u)
    requires both == own + ({mark} + own')
    ensures Behind(w, both, code + code', u)
  {
  }

  /**
  Code in front of a stream places exactly the labels it makes, is a fixed distance for all
  others, and links to its label-free code for the distances at which its exits lie behind it.
  */
  lemma {:induction false} CodeLinks(v: Lens, c: Cond, t: Label, f: Label, n: nat, rest: Stream)
    requires Clear(v) && t <= n && f <= n
    ensures var u := v.view(rest);
            Behind(v.view(v.items(c, t, f, n, rest)), Range(n, Fresh(c)), v.code(c, u.dist(t), u.dist(f)), u)
    decreases c, 3
  {
    var dT, dF := v.view(rest).dist(t), v.view(rest).dist(f);
    match c
    case Test(op, k) =>
      InsnFirst(v, TestItem(op, k, t, f), rest);
      ItemsOfOne(v, op, k, t, f, n, rest, dT, dF);
    case After(op, k, body) =>
      InsnFirst(v, LoadItem(op, k), v.items(body, t, f, n, rest));
      ItemsOfAfter(v, op, k, body, t, f, n, rest, dT, dF);
      CodeLinks(v, body, t, f, n, rest);
    case Negated(body) =>
      ItemsOfNegated(v, body, t, f, n, rest, dT, dF);
      CodeLinks(v, body, f, t, n, rest);
    case Pair(all, left, right) =>
      PairLinks(v, all, left, right, t, f, n, rest);
    case Triple(gate, one, two, three) =>
      TripleLinks(v, gate, one, two, three, t, f, n, rest);
  }

  /** A condition in front of a label and a stream that is `code` before `u`. */
  lemma {:induction false} FrontLinks(v: Lens, c: Cond, t: Label, f: Label, n: nat, mark: Label,
                                      second: Stream, own: set<Label>, code: Program, u: View,
                                      s: Stream, all: set<Label>, both: Program, dT: nat, dF: nat)
    requires Clear(v) && t <= n && f <= n
    requires Behind(v.view(second), own, code, u)
    requires dT == if t == mark then 0 else v.view(second).dist(t)
    requires dF == if f == mark then 0 else v.view(second).dist(f)
    requires s == v.items(c, t, f, n, [Place(mark)] + second)
    requires all == Range(n, Fresh(c)) + ({mark} + own)
    requires both == v.code(c, dT, dF) + code
    ensures Behind(v.view(s), all, both, u)
    ensures mark <= n ==> v.view(s).dist(mark) == Len(c)
    decreases c, 4
  {
    PlaceFirst(v, mark, second);
    CodeLinks(v, c, t, f, n, [Place(mark)] + second);
    Stack(v.view(s), Range(n, Fresh(c)), v.code(c, dT, dF), v.view([Place(mark)] + second), mark, v.view(second), own,
          code, u, all);
  }

  lemma {:induction false} PairLinks(v: Lens, all: bool, left: Cond, right: Cond,
                                     t: Label, f: Label, n: nat, rest: Stream)
    requires Clear(v) && t <= n && f <= n
    ensures var c, u := Pair(all, left, right), v.view(rest);
            Behind(v.view(v.items(c, t, f, n, rest)), Range(n, Fresh(c)), v.code(c, u.dist(t), u.dist(f)), u)
    decreases Pair(all, left, right), 0
  {
    var c := Pair(all, left, right);
    var mid := n + 1;
    var m := mid + Fresh(left);
    var dT, dF := v.view(rest).dist(t), v.view(rest).dist(f);
    var second := v.items(right, t, f, m, rest);
    ItemsOfPair(v, all, left, right, t, f, n, mid, m, rest);
    CodeOfTwo(v, all, left, right, Len(right), dT, dF);
    CodeLinks(v, right, t, f, m, rest);
    RangeJoins(n, mid, m, Fresh(left), Fresh(right));
    PairExits(v.view(second), all, t, f, mid, Len(right), dT, dF);
    FrontLinks(v, left, Select(all, mid, t), Select(all, f, mid), mid, mid, second,
               Range(m, Fresh(right)), v.code(right, dT, dF), v.view(rest), v.items(c, t, f, n, rest),
               Range(n, Fresh(c)), v.code(c, dT, dF), If(!all, Len(right) + dT), If(all, Len(right) + dF));
  }

  /** How far the two exits of the first of two conditions are. */
  lemma PairExits(w: View, all: bool, t: Label, f: Label, mid: Label, n: nat, dT: nat, dF: nat)
    requires t < mid && f < mid && w.dist(t) == n + dT && w.dist(f) == n + dF
    ensures var t', f' := Select(all, mid, t), Select(all, f, mid);
            && If(!all, n + dT) == (if t' == mid then 0 else w.dist(t'))
            && If(all, n + dF) == (if f' == mid then 0 else w.dist(f'))
  {
  }

  /** How far the two exits of the first of three conditions are. */
  lemma TripleExits(w: View, gate: bool, first: Label, next: Label, n: nat)
    requires first < next && w.dist(next) == n
    ensures var t, f := Select(gate, next, first), Select(gate, first, next);
            && If(gate, n) == (if t == first then 0 else w.dist(t))
            && If(!gate, n) == (if f == first then 0 else w.dist(f))
  {
  }

  lemma {:induction false} TripleLinks(v: Lens, gate: bool, one: Cond, two: Cond, three: Cond,
                                       t: Label, f: Label, n: nat, rest: Stream)
    requires Clear(v) && t <= n && f <= n
    ensures var c := Triple(gate, one, two, three);
            var u := v.view(rest);
            Behind(v.view(v.items(c, t, f, n, rest)), Range(n, Fresh(c)), v.code(c, u.dist(t), u.dist(f)), u)
    decreases Triple(gate, one, two, three), 2
  {
    var c := Triple(gate, one, two, three);
    var first, next := n + 1, n + 2;
    var m := next + Fresh(one);
    var k := m + Fresh(two);
    var dT, dF := v.view(rest).dist(t), v.view(rest).dist(f);
    var third := v.items(three, t, f, k, rest);
    var second := v.items(two, Select(gate, next, t), f, m, [Place(next)] + third);
    ItemsOfTriple(v, gate, one, two, three, t, f, n, first, next, m, k, rest);
    CodeOfThree(v, gate, one, two, three, Len(two), Len(three), dT, dF);
    UnfoldedLinks(v, gate, one, two, three, t, f, n, first, next, m, k, rest, dT, dF, third, second,
                  v.items(c, t, f, n, rest), v.code(c, dT, dF));
  }

  lemma {:induction false} UnfoldedLinks(v: Lens, gate: bool, one: Cond, two: Cond, three: Cond,
                                         t: Label, f: Label, n: nat, first: Label, next: Label, m: nat, k: nat,
                                         rest: Stream, dT: nat, dF: nat, third: Stream, second: Stream,
                                         s: Stream, both: Program)
    requires Clear(v) && t <= n && f <= n && dT == v.view(rest).dist(t) && dF == v.view(rest).dist(f)
    requires first == n + 1 && next == n + 2 && m == next + Fresh(one) && k == m + Fresh(two)
    requires third == v.items(three, t, f, k, rest)
    requires second == v.items(two, Select(gate, next, t), f, m, [Place(next)] + third)
    requires s == v.items(one, Select(gate, next, first), Select(gate, first, next), next, [Place(first)] + second)
    requires both == v.code(one, If(gate, Len(two)), If(!gate, Len(two)))
                     + (v.code(two, If(!gate, Len(three) + dT), Len(three) + dF) + v.code(three, dT, dF))
    ensures Behind(v.view(s), Range(n, 2 + Fresh(one) + Fresh(two) + Fresh(three)), both, v.view(rest))
    decreases Triple(gate, one, two, three), 1
  {
    CodeLinks(v, three, t, f, k, rest);
    FirstTwoLinks(v, gate, one, two, three, t, f, n, first, next, m, k, Fresh(three), third, v.code(three, dT, dF),
                  v.view(rest),
                  second, s, both, Len(three), dT, dF);
  }

  /** The first two of three conditions, in front of the third. */
  lemma {:induction false} FirstTwoLinks(v: Lens, gate: bool, one: Cond, two: Cond, three: Cond,
                                         t: Label, f: Label, n: nat, first: Label, next: Label, m: nat, k: nat, c: nat,
                                         third: Stream, last: Program, u: View, second: Stream,
                                         s: Stream, both: Program, len: nat, dT: nat, dF: nat)
    requires Clear(v) && t <= n && f <= n && Behind(v.view(third), Range(k, c), last, u)
    requires v.view(third).dist(t) == len + dT && v.view(third).dist(f) == len + dF
    requires first == n + 1 && next == n + 2 && m == next + Fresh(one) && k == m + Fresh(two)
    requires second == v.items(two, Select(gate, next, t), f, m, [Place(next)] + third)
    requires s == v.items(one, Select(gate, next, first), Select(gate, first, next), next, [Place(first)] + second)
    requires both == v.code(one, If(gate, Len(two)), If(!gate, Len(two)))
                     + (v.code(two, If(!gate, len + dT), len + dF) + last)
    ensures Behind(v.view(s), Range(n, 2 + Fresh(one) + Fresh(two) + c), both, u)
    decreases Triple(gate, one, two, three), 0
  {
    var own, code := Range(m, Fresh(two)) + ({next} + Range(k, c)), v.code(two, If(!gate, len + dT), len + dF) + last;
    SecondLinks(v, gate, two, t, f, next, m, third, Range(k, c), last, u, second, own, code, len, dT, dF);
    RangeJoins3(n, first, next, m, k, Fresh(one), Fresh(two), c, own);
    FirstLinks(v, gate, one, first, next, second, own, code, u, s, Range(n, 2 + Fresh(one) + Fresh(two) + c), both,
               Len(two));
  }

  /** The first of three conditions, in front of the other two. */
  lemma {:induction false} FirstLinks(v: Lens, gate: bool, one: Cond, first: Label, next: Label,
                                      second: Stream, own: set<Label>, last: Program, u: View,
                                      s: Stream, all: set<Label>, both: Program, n: nat)
    requires Clear(v) && first < next && Behind(v.view(second), own, last, u) && v.view(second).dist(next) == n
    requires s == v.items(one, Select(gate, next, first), Select(gate, first, next), next, [Place(first)] + second)
    requires all == Range(next, Fresh(one)) + ({first} + own)
    requires both == v.code(one, If(gate, n), If(!gate, n)) + last
    ensures Behind(v.view(s), all, both, u)
    decreases one, 5
  {
    TripleExits(v.view(second), gate, first, next, n);
    FrontLinks(v, one, Select(gate, next, first), Select(gate, first, next), next, first, second, own, last, u,
               s, all, both, If(gate, n), If(!gate, n));
  }

  /** How far the two exits of the second of three conditions are. */
  lemma SecondExits(w: View, gate: bool, t: Label, f: Label, next: Label, n: nat, dT: nat, dF: nat)
    requires t < next && f < next && w.dist(t) == n + dT && w.dist(f) == n + dF
    ensures var t' := Select(gate, next, t);
            && If(!gate, n + dT) == (if t' == next then 0 else w.dist(t'))
            && n + dF == (if f == next then 0 else w.dist(f))
  {
  }

  /** The second of three conditions, in front of the third. */
  lemma {:induction false} SecondLinks(v: Lens, gate: bool, two: Cond, t: Label, f: Label, next: Label, m: nat,
                                       third: Stream, own: set<Label>, last: Program, u: View,
                                       s: Stream, all: set<Label>, both: Program, n: nat, dT: nat, dF: nat)
    requires Clear(v) && t < next && f < next && next <= m && Behind(v.view(third), own, last, u)
    requires v.view(third).dist(t) == n + dT && v.view(third).dist(f) == n + dF
    requires s == v.items(two, Select(gate, next, t), f, m, [Place(next)] + third)
    requires all == Range(m, Fresh(two)) + ({next} + own)
    requires both == v.code(two, If(!gate, n + dT), n + dF) + last
    ensures Behind(v.view(s), all, both, u) && v.view(s).dist(next) == Len(two)
    decreases two, 5
  {
    SecondExits(v.view(third), gate, t, f, next, n, dT, dF);
    FrontLinks(v, two, Select(gate, next, t), f, m, next, third, own, last, u, s, all, both, If(!gate, n + dT), n + dF);
  }

  /** Every stream a condition is compiled into keeps the label discipline. */
  lemma {:induction false} CodeDisciplined(v: Lens, c: Cond, t: Label, f: Label, n: nat, rest: Stream)
    requires Clear(v) && t <= n && f <= n
    requires v.view(rest).disciplined && t in v.view(rest).placed && f in v.view(rest).placed
    requires Range(n, Fresh(c)) !! v.view(rest).placed
    ensures v.view(v.items(c, t, f, n, rest)).disciplined
    decreases c, 2
  {
    match c
    case Test(op, k) =>
      InsnFirst(v, TestItem(op, k, t, f), rest);
      ItemsOfOne(v, op, k, t, f, n, rest, 0, 0);
    case After(op, k, body) =>
      InsnFirst(v, LoadItem(op, k), v.items(body, t, f, n, rest));
      ItemsOfAfter(v, op, k, body, t, f, n, rest, 0, 0);
      CodeDisciplined(v, body, t, f, n, rest);
    case Negated(body) =>
      ItemsOfNegated(v, body, t, f, n, rest, 0, 0);
      CodeDisciplined(v, body, f, t, n, rest);
    case Pair(all, left, right) =>
      PairDisciplined(v, all, left, right, t, f, n, rest);
    case Triple(gate, one, two, three) =>
      TripleDisciplined(v, gate, one, two, three, t, f, n, rest);
  }

  lemma {:induction false} FrontDisciplined(v: Lens, c: Cond, t: Label, f: Label, n: nat, mark: Label,
                                            second: Stream, placed: set<Label>, s: Stream)
    requires Clear(v) && t <= n && f <= n
    requires v.view(second).disciplined && v.view(second).placed == placed && mark !in placed
    requires t in {mark} + placed && f in {mark} + placed
    requires Range(n, Fresh(c)) !! {mark} + placed
    requires s == v.items(c, t, f, n, [Place(mark)] + second)
    ensures v.view(s).disciplined && v.view(s).placed == Range(n, Fresh(c)) + ({mark} + placed)
    decreases c, 3
  {
    PlaceFirst(v, mark, second);
    CodeDisciplined(v, c, t, f, n, [Place(mark)] + second);
    CodeLinks(v, c, t, f, n, [Place(mark)] + second);
  }

  lemma {:induction false} PairDisciplined(v: Lens, all: bool, left: Cond, right: Cond,
                                           t: Label, f: Label, n: nat, rest: Stream)
    requires Clear(v) && t <= n && f <= n
    requires v.view(rest).disciplined && t in v.view(rest).placed && f in v.view(rest).placed
    requires Range(n, Fresh(Pair(all, left, right))) !! v.view(rest).placed
    ensures v.view(v.items(Pair(all, left, right), t, f, n, rest)).disciplined
    decreases Pair(all, left, right), 0
  {
    var mid := n + 1;
    var m := mid + Fresh(left);
    var second := v.items(right, t, f, m, rest);
    ItemsOfPair(v, all, left, right, t, f, n, mid, m, rest);
    RangeJoins(n, mid, m, Fresh(left), Fresh(right));
    AlsoPlaces(v, right, t, f, m, rest, second);
    FrontDisciplined(v, left, Select(all, mid, t), Select(all, f, mid), mid, mid, second,
                     Range(m, Fresh(right)) + v.view(rest).placed, v.items(Pair(all, left, right), t, f, n, rest));
  }

  /** The labels made later, and those behind, are none of the labels made first. */
  lemma Apart(from: nat, count: nat, mark: Label, k: nat, more: nat, behind: set<Label>)
    requires mark <= from && k == from + count && Range(from, count) !! behind
    ensures Range(from, count) !! {mark} + (Range(k, more) + behind)
  {
  }

  lemma {:induction false} TripleDisciplined(v: Lens, gate: bool, one: Cond, two: Cond, three: Cond,
                                             t: Label, f: Label, n: nat, rest: Stream)
    requires Clear(v) && t <= n && f <= n
    requires v.view(rest).disciplined && t in v.view(rest).placed && f in v.view(rest).placed
    requires Range(n, Fresh(Triple(gate, one, two, three))) !! v.view(rest).placed
    ensures v.view(v.items(Triple(gate, one, two, three), t, f, n, rest)).disciplined
    decreases Triple(gate, one, two, three), 1
  {
    var first, next := n + 1, n + 2;
    var m := next + Fresh(one);
    var k := m + Fresh(two);
    ItemsOfTriple(v, gate, one, two, three, t, f, n, first, next, m, k, rest);
    TripleApart(n, first, next, m, k, Fresh(one), Fresh(two), Fresh(three), v.view(rest).placed);
    var third := v.items(three, t, f, k, rest);
    var second := v.items(two, Select(gate, next, t), f, m, [Place(next)] + third);
    var placed := Range(m, Fresh(two)) + ({next} + (Range(k, Fresh(three)) + v.view(rest).placed));
    SecondDisciplined(v, gate, one, two, three, t, f, next, m, k, rest, third, second, placed);
    FrontDisciplined(v, one, Select(gate, next, first), Select(gate, first, next), next, first, second, placed,
                     v.items(Triple(gate, one, two, three), t, f, n, rest));
  }

  lemma TripleApart(n: nat, first: Label, next: Label, m: nat, k: nat, a: nat, b: nat, c: nat, behind: set<Label>)
    requires first == n + 1 && next == n + 2 && m == next + a && k == m + b && Range(n, 2 + a + b + c) !! behind
    ensures Range(m, b) !! behind && Range(k, c) !! behind && next !in behind
    ensures var placed := Range(m, b) + ({next} + (Range(k, c) + behind));
            first !in placed && Range(next, a) !! {first} + placed && next in placed
  {
  }

  lemma {:induction false} SecondDisciplined(v: Lens, gate: bool, one: Cond, two: Cond, three: Cond,
                                             t: Label, f: Label, next: Label, m: nat, k: nat, rest: Stream,
                                             third: Stream, second: Stream, placed: set<Label>)
    requires Clear(v) && t < next && f < next && next <= m && k == m + Fresh(two)
    requires v.view(rest).disciplined && t in v.view(rest).placed && f in v.view(rest).placed
    requires next !in v.view(rest).placed
    requires Range(m, Fresh(two)) !! v.view(rest).placed && Range(k, Fresh(three)) !! v.view(rest).placed
    requires third == v.items(three, t, f, k, rest)
    requires second == v.items(two, Select(gate, next, t), f, m, [Place(next)] + third)
    requires placed == Range(m, Fresh(two)) + ({next} + (Range(k, Fresh(three)) + v.view(rest).placed))
    ensures v.view(second).disciplined && v.view(second).placed == placed
    decreases Triple(gate, one, two, three), 0
  {
    AlsoPlaces(v, three, t, f, k, rest, third);
    Apart(m, Fresh(two), next, k, Fresh(three), v.view(rest).placed);
    FrontDisciplined(v, two, Select(gate, next, t), f, m, next, third, Range(k, Fresh(three)) + v.view(rest).placed,
                     second);
  }

  lemma {:induction false} AlsoPlaces(v: Lens, c: Cond, t: Label, f: Label, k: nat, rest: Stream, s: Stream)
    requires Clear(v) && t <= k && f <= k && s == v.items(c, t, f, k, rest)
    requires v.view(rest).disciplined && t in v.view(rest).placed && f in v.view(rest).placed
    requires Range(k, Fresh(c)) !! v.view(rest).placed
    ensures v.view(s).disciplined && v.view(s).placed == Range(k, Fresh(c)) + v.view(rest).placed
    decreases c, 3
  {
    CodeDisciplined(v, c, t, f, k, rest);
    CodeLinks(v, c, t, f, k, rest);
  }

  lemma Clearly() returns (v: Lens)
    ensures Clear(v)
  {
    v := Lens((s: Stream) => Seen(s),
              (c: Cond, t: Label, f: Label, n: nat, rest: Stream) => CodeThen(c, t, f, n, rest),
              (c: Cond, dT: nat, dF: nat) => Asm(c, dT, dF));
  }

  /** Generated code in front of any stream, without its labels: what it places, how far it is, what it links to. */
  lemma GeneratedLinks(c: Cond, t: Label, f: Label, n: nat, rest: Stream)
    requires t <= n && f <= n
    ensures var s := CodeThen(c, t, f, n, rest);
            && Link(s) == Asm(c, Dist(rest, t), Dist(rest, f)) + Link(rest)
            && Placed(s) == Range(n, Fresh(c)) + Placed(rest)
            && forall l | l !in Range(n, Fresh(c)) :: Dist(s, l) == Len(c) + Dist(rest, l)
  {
    var v := Clearly();
    var s := CodeThen(c, t, f, n, rest);
    var here, there := Seen(s), Seen(rest);
    var code := Asm(c, Dist(rest, t), Dist(rest, f));
    CodeLinks(v, c, t, f, n, rest);
  }

  /** Generated code keeps the label discipline in front of any stream that keeps it and places its exits. */
  lemma GeneratedDisciplined(c: Cond, t: Label, f: Label, n: nat, rest: Stream)
    requires t <= n && f <= n
    requires Disciplined(rest) && t in Placed(rest) && f in Placed(rest)
    requires Range(n, Fresh(c)) !! Placed(rest)
    ensures Disciplined(CodeThen(c, t, f, n, rest))
  {
    var v := Clearly();
    var here, there := Seen(CodeThen(c, t, f, n, rest)), Seen(rest);
    CodeDisciplined(v, c, t, f, n, rest);
  }
}
