/**
Spellings that compile to the same bytes. Negation costs nothing and chains of one operator have
no preferred association, so the code depends only on a canonical form of the expression.
*/
module Algebra {
  import opened Vm
  import opened Filter
  import opened Conditions
  import opened Lowering
  import opened Emission

  function Join(all: bool, l: Node, r: Node): Node {
    if all then And(l, r) else Or(l, r)
  }

  /** The code of an expression whose exits lie `dT` and `dF` past its end, as one function. */
  type Coder = (Node, nat, nat) -> Program

  /**
  What the laws below need of it: a negation swaps the exits, and the left side of either operator
  jumps over the right.
  */
  ghost predicate Codes(z: Coder) {
    && (forall n, dT, dF {:trigger NotLaw(z, n, dT, dF)} :: NotLaw(z, n, dT, dF))
    && (forall all, l, r, dT, dF {:trigger JoinLaw(z, all, l, r, dT, dF)} :: JoinLaw(z, all, l, r, dT, dF))
  }

  ghost predicate NotLaw(z: Coder, n: Node, dT: nat, dF: nat) {
    z(Not(n), dT, dF) == z(n, dF, dT)
  }

  ghost predicate JoinLaw(z: Coder, all: bool, l: Node, r: Node, dT: nat, dF: nat) {
    var past := |z(r, dT, dF)|;
    z(Join(all, l, r), dT, dF) == z(l, If(!all, past + dT), If(all, past + dF)) + z(r, dT, dF)
  }

  /** Lowering, and the code of conditions, each as one function. */
  type Lowerer = Node -> Cond

  type CondCoder = (Cond, nat, nat) -> Program

  ghost predicate Lowers(w: Lowerer) {
    && (forall n {:trigger w(Not(n))} :: w(Not(n)) == Negated(w(n)))
    && (forall all, l, r {:trigger w(Join(all, l, r))} :: w(Join(all, l, r)) == Pair(all, w(l), w(r)))
  }

  ghost predicate Assembles(a: CondCoder) {
    && (forall c, dT, dF {:trigger a(Negated(c), dT, dF)} :: a(Negated(c), dT, dF) == a(c, dF, dT))
    && (forall all, l, r, dT, dF {:trigger a(Pair(all, l, r), dT, dF)} ::
          var past := |a(r, dT, dF)|;
          a(Pair(all, l, r), dT, dF) == a(l, If(!all, past + dT), If(all, past + dF)) + a(r, dT, dF))
  }

  lemma JoinLowers(all: bool, l: Node, r: Node)
    ensures Lower(Join(all, l, r)) == Pair(all, Lower(l), Lower(r))
  {
  }

  lemma LowererOf() returns (w: Lowerer)
    ensures Lowers(w) && forall n {:trigger Lower(n)} :: w(n) == Lower(n)
  {
    w := (n: Node) => Lower(n);
    forall all, l, r ensures w(Join(all, l, r)) == Pair(all, w(l), w(r)) {
      JoinLowers(all, l, r);
    }
  }

  ghost predicate IsAsm(a: CondCoder) {
    && (forall c, dT, dF {:trigger Asm(c, dT, dF)} :: a(c, dT, dF) == Asm(c, dT, dF))
    && (forall c, dT, dF {:trigger a(c, dT, dF)} :: |a(c, dT, dF)| == Len(c))
  }

  lemma CoderIs(a: CondCoder, c: Cond, dT: nat, dF: nat)
    requires IsAsm(a)
    ensures a(c, dT, dF) == Asm(c, dT, dF)
  {
  }

  lemma NegatedIs(a: CondCoder, c: Cond, dT: nat, dF: nat)
    requires IsAsm(a)
    ensures a(Negated(c), dT, dF) == a(c, dF, dT)
  {
    CoderIs(a, Negated(c), dT, dF);
    CoderIs(a, c, dF, dT);
  }

  lemma PairIs(a: CondCoder, all: bool, l: Cond, r: Cond, past: nat, dT: nat, dF: nat)
    requires IsAsm(a) && past == Len(r)
    ensures a(Pair(all, l, r), dT, dF) == a(l, If(!all, past + dT), If(all, past + dF)) + a(r, dT, dF)
  {
    CoderIs(a, Pair(all, l, r), dT, dF);
    CoderIs(a, l, If(!all, past + dT), If(all, past + dF));
    CoderIs(a, r, dT, dF);
    PairAsm(all, l, r, past, dT, dF);
  }

  lemma CondCoderOf() returns (a: CondCoder)
    ensures IsAsm(a)
  {
    a := (c: Cond, dT: nat, dF: nat) => Asm(c, dT, dF);
  }

  lemma AgreeingAssembles(a: CondCoder)
    requires IsAsm(a)
    ensures Assembles(a)
  {
    forall c, dT, dF ensures a(Negated(c), dT, dF) == a(c, dF, dT) {
      NegatedIs(a, c, dT, dF);
    }
    forall all, l, r, dT, dF
      ensures a(Pair(all, l, r), dT, dF) ==
              a(l, If(!all, |a(r, dT, dF)| + dT), If(all, |a(r, dT, dF)| + dF)) + a(r, dT, dF)
    {
      PairIs(a, all, l, r, |a(r, dT, dF)|, dT, dF);
    }
  }

  lemma Composed(w: Lowerer, a: CondCoder) returns (z: Coder)
    requires Lowers(w) && Assembles(a)
    ensures Codes(z) && forall n, dT, dF {:trigger z(n, dT, dF)} :: z(n, dT, dF) == a(w(n), dT, dF)
  {
    z := (n: Node, dT: nat, dF: nat) => a(w(n), dT, dF);
  }

  /** Instruction for instruction the same code, wherever the exits lie. */
  ghost predicate Same(z: Coder, m: Node, n: Node) {
    forall dT: nat, dF: nat :: z(m, dT, dF) == z(n, dT, dF)
  }

  lemma NotCode(z: Coder, n: Node, dT: nat, dF: nat)
    requires Codes(z)
    ensures z(Not(n), dT, dF) == z(n, dF, dT)
  {
    assert NotLaw(z, n, dT, dF);
  }

  /** The code of both operators; `past` is how far the left side jumps over the right. */
  lemma JoinCode(z: Coder, all: bool, l: Node, r: Node, dT: nat, dF: nat)
    requires Codes(z)
    ensures var past := |z(r, dT, dF)|;
            z(Join(all, l, r), dT, dF) == z(l, If(!all, past + dT), If(all, past + dF)) + z(r, dT, dF)
  {
    assert JoinLaw(z, all, l, r, dT, dF);
  }

  lemma DoubleNegation(z: Coder, n: Node)
    requires Codes(z)
    ensures Same(z, Not(Not(n)), n)
  {
    forall dT: nat, dF: nat ensures z(Not(Not(n)), dT, dF) == z(n, dT, dF) {
      NotCode(z, Not(n), dT, dF);
      NotCode(z, n, dF, dT);
    }
  }

  lemma DeMorgan(z: Coder, all: bool, l: Node, r: Node)
    requires Codes(z)
    ensures Same(z, Not(Join(all, l, r)), Join(!all, Not(l), Not(r)))
  {
    forall dT: nat, dF: nat ensures z(Not(Join(all, l, r)), dT, dF) == z(Join(!all, Not(l), Not(r)), dT, dF) {
      var past := |z(r, dF, dT)|;
      NotCode(z, Join(all, l, r), dT, dF);
      JoinCode(z, all, l, r, dF, dT);
      JoinCode(z, !all, Not(l), Not(r), dT, dF);
      NotCode(z, r, dT, dF);
      NotCode(z, l, If(all, past + dT), If(!all, past + dF));
    }
  }

  lemma Associates(z: Coder, all: bool, a: Node, b: Node, c: Node)
    requires Codes(z)
    ensures Same(z, Join(all, Join(all, a, b), c), Join(all, a, Join(all, b, c)))
  {
    forall dT: nat, dF: nat
      ensures z(Join(all, Join(all, a, b), c), dT, dF) == z(Join(all, a, Join(all, b, c)), dT, dF)
    {
      var pc := |z(c, dT, dF)|;
      var mT, mF := If(!all, pc + dT), If(all, pc + dF);
      var pb := |z(b, mT, mF)|;
      JoinCode(z, all, Join(all, a, b), c, dT, dF);
      JoinCode(z, all, a, b, mT, mF);
      JoinCode(z, all, b, c, dT, dF);
      JoinCode(z, all, a, Join(all, b, c), dT, dF);
      var zb, zc := z(b, mT, mF), z(c, dT, dF);
      var za := z(a, If(!all, pb + mT), If(all, pb + mF));
      assert (za + zb) + zc == za + (zb + zc);
    }
  }

  lemma Congruent(z: Coder, all: bool, l: Node, r: Node, l': Node, r': Node)
    requires Codes(z) && Same(z, l, l') && Same(z, r, r')
    ensures Same(z, Join(all, l, r), Join(all, l', r'))
  {
    forall dT: nat, dF: nat ensures z(Join(all, l, r), dT, dF) == z(Join(all, l', r'), dT, dF) {
      JoinCode(z, all, l, r, dT, dF);
      JoinCode(z, all, l', r', dT, dF);
    }
  }

  lemma Transitive(z: Coder, a: Node, b: Node, c: Node)
    requires Same(z, a, b) && Same(z, b, c)
    ensures Same(z, a, c)
  {
  }

  /** `l` and `r` under one operator, re-associated to the right. */
  function Chained(all: bool, l: Node, r: Node): Node
    decreases l
  {
    match l
    case And(a, b) => if all then And(a, Chained(all, b, r)) else Or(l, r)
    case Or(a, b) => if all then And(l, r) else Or(a, Chained(all, b, r))
    case _ => Join(all, l, r)
  }

  lemma {:induction false} ChainedSame(z: Coder, all: bool, l: Node, r: Node)
    requires Codes(z)
    ensures Same(z, Join(all, l, r), Chained(all, l, r))
    decreases l
  {
    if (l.And? && all) || (l.Or? && !all) {
      var a, b := l.left, l.right;
      Associates(z, all, a, b, r);
      ChainedSame(z, all, b, r);
      Congruent(z, all, a, Join(all, b, r), a, Chained(all, b, r));
      Transitive(z, Join(all, l, r), Join(all, a, Join(all, b, r)), Join(all, a, Chained(all, b, r)));
    }
  }

  /**
  The canonical form: negations pushed down to the primitives by De Morgan's laws, double
  negations dropped, and chains of one operator associated to the right.
  */
  function Canon(n: Node, positive: bool): Node {
    match n
    case Not(operand) => Canon(operand, !positive)
    case And(l, r) => Chained(positive, Canon(l, positive), Canon(r, positive))
    case Or(l, r) => Chained(!positive, Canon(l, positive), Canon(r, positive))
    case _ => if positive then n else Not(n)
  }

  function Signed(n: Node, positive: bool): Node {
    if positive then n else Not(n)
  }

  lemma {:induction false} CanonSame(z: Coder, n: Node, positive: bool)
    requires Codes(z)
    ensures Same(z, Signed(n, positive), Canon(n, positive))
    decreases n, 1
  {
    match n
    case Not(operand) =>
      CanonSame(z, operand, !positive);
      if !positive {
        DoubleNegation(z, operand);
        Transitive(z, Not(Not(operand)), operand, Canon(operand, true));
      }
    case And(l, r) =>
      CanonJoin(z, true, l, r, positive);
    case Or(l, r) =>
      CanonJoin(z, false, l, r, positive);
    case _ =>
  }

  lemma {:induction false} CanonJoin(z: Coder, all: bool, l: Node, r: Node, positive: bool)
    requires Codes(z)
    ensures Same(z, Signed(Join(all, l, r), positive),
                 Chained(all == positive, Canon(l, positive), Canon(r, positive)))
    decreases Join(all, l, r), 0
  {
    var op := all == positive;
    var cl, cr, sl, sr := Canon(l, positive), Canon(r, positive), Signed(l, positive), Signed(r, positive);
    CanonSame(z, l, positive);
    CanonSame(z, r, positive);
    Congruent(z, op, sl, sr, cl, cr);
    ChainedSame(z, op, cl, cr);
    Transitive(z, Join(op, sl, sr), Join(op, cl, cr), Chained(op, cl, cr));
    if !positive {
      DeMorgan(z, all, l, r);
      Transitive(z, Not(Join(all, l, r)), Join(op, sl, sr), Chained(op, cl, cr));
    }
  }

  /** The same code is the same program, or the same failure to assemble one. */
  lemma SameAssembles(m: Node, n: Node)
    requires forall z | Codes(z) :: Same(z, m, n)
    ensures Assembled(m) == Assembled(n)
  {
    var w := LowererOf();
    var a := CondCoderOf();
    AgreeingAssembles(a);
    var z := Composed(w, a);
    SameCode(w, a, z, m, n, Lower(m), Lower(n));
  }

  lemma SameCode(w: Lowerer, a: CondCoder, z: Coder, m: Node, n: Node, c: Cond, d: Cond)
    requires c == w(m) && d == w(n) && Same(z, m, n)
    requires z(m, 0, 1) == a(c, 0, 1) && z(n, 0, 1) == a(d, 0, 1)
    requires IsAsm(a)
    ensures Asm(c, 0, 1) == Asm(d, 0, 1)
  {
  }

  /** Double negation, De Morgan's laws and re-association leave the program byte for byte alike. */
  lemma LawsKeepBytes(a: Node, b: Node, c: Node, all: bool)
    ensures Assembled(Not(Not(a))) == Assembled(a)
    ensures Assembled(Not(Join(all, a, b))) == Assembled(Join(!all, Not(a), Not(b)))
    ensures Assembled(Join(all, Join(all, a, b), c)) == Assembled(Join(all, a, Join(all, b, c)))
  {
    forall z: Coder | Codes(z)
      ensures Same(z, Not(Not(a)), a)
      ensures Same(z, Not(Join(all, a, b)), Join(!all, Not(a), Not(b)))
      ensures Same(z, Join(all, Join(all, a, b), c), Join(all, a, Join(all, b, c)))
    {
      DoubleNegation(z, a);
      DeMorgan(z, all, a, b);
      Associates(z, all, a, b, c);
    }
    SameAssembles(Not(Not(a)), a);
    SameAssembles(Not(Join(all, a, b)), Join(!all, Not(a), Not(b)));
    SameAssembles(Join(all, Join(all, a, b), c), Join(all, a, Join(all, b, c)));
  }

  /**
  Expressions with the same canonical form assemble to identical programs, instruction for
  instruction, or fail to assemble alike, however deep inside them they differ.
  */
  lemma CanonDecidesBytes(m: Node, n: Node)
    requires Canon(m, true) == Canon(n, true)
    ensures Assembled(m) == Assembled(n)
  {
    forall z: Coder | Codes(z) ensures Same(z, m, n) {
      CanonSame(z, m, true);
      CanonSame(z, n, true);
    }
    SameAssembles(m, n);
  }
}
