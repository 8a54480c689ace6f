/**
The program gives the expression back, up to the laws that keep the bytes. The operands of the code
spell the primitives one after another. Where one operand of an operator ends and the next begins
shows in the jumps: whatever is jumped over from inside the left side leads to one exit of the whole.
*/
module Identity {
  import opened Wrappers
  import opened Vm
  import opened Filter
  import opened Conditions
  import opened Lowering
  import opened Assembler
  import opened Emission
  import opened Algebra

  // What is seen of a piece of code.

  function Operands(code: Program): (ks: seq<nat>)
    ensures |ks| == |code|
  {
    seq(|code|, i requires 0 <= i < |code| => code[i].k)
  }

  /** A place in the code or right behind it, or one of the two exits. */
  predicate Inside(t: nat, len: nat, dT: nat, dF: nat) {
    t <= len || t == len + dT || t == len + dF
  }

  ghost predicate Contained(code: Program, dT: nat, dF: nat) {
    forall i | 0 <= i < |code| ::
      && Inside(i + 1 + code[i].jt, |code|, dT, dF)
      && Inside(i + 1 + code[i].jf, |code|, dT, dF)
  }

  /** The last instruction goes to the two exits. */
  predicate Ends(code: Program, dT: nat, dF: nat) {
    code != [] && code[|code| - 1].jt == dT && code[|code| - 1].jf == dF
  }

  lemma ContainedJoins(first: Program, x: nat, y: nat, second: Program, dT: nat, dF: nat)
    requires Contained(first, x, y) && Contained(second, dT, dF)
    requires Inside(x, |second|, dT, dF) && Inside(y, |second|, dT, dF)
    ensures Contained(first + second, dT, dF)
  {
    var whole := first + second;
    forall i | 0 <= i < |whole|
      ensures Inside(i + 1 + whole[i].jt, |whole|, dT, dF) && Inside(i + 1 + whole[i].jf, |whole|, dT, dF)
    {
      if i < |first| {
        assert Inside(i + 1 + first[i].jt, |first|, x, y) && Inside(i + 1 + first[i].jf, |first|, x, y);
      } else {
        var j := i - |first|;
        assert Inside(j + 1 + second[j].jt, |second|, dT, dF) && Inside(j + 1 + second[j].jf, |second|, dT, dF);
      }
    }
  }

  lemma OperandsJoin(first: Program, second: Program)
    ensures Operands(first + second) == Operands(first) + Operands(second)
  {
  }

  // Conditions.

  /** The operands of a condition's code; the exits do not matter to them. */
  function CondWords(c: Cond): seq<nat> {
    match c
    case Test(_, k) => [k]
    case After(_, k, body) => [k] + CondWords(body)
    case Negated(body) => CondWords(body)
    case Pair(_, left, right) => CondWords(left) + CondWords(right)
    case Triple(_, one, two, three) => CondWords(one) + (CondWords(two) + CondWords(three))
  }

  /** The last test is an equality and is not negated. */
  predicate Upright(c: Cond) {
    match c
    case Test(op, _) => op.Equal?
    case After(_, _, body) => Upright(body)
    case Negated(_) => false
    case Pair(_, _, right) => Upright(right)
    case Triple(_, _, _, three) => Upright(three)
  }

  /** What is seen of a condition's code. */
  datatype Sight = Sight(words: Cond -> seq<nat>, upright: Cond -> bool)

  ghost predicate Sees(o: Sight) {
    && (forall c {:trigger CondWords(c)} :: o.words(c) == CondWords(c))
    && (forall c {:trigger Upright(c)} :: o.upright(c) == Upright(c))
  }

  ghost predicate Looks(o: Sight, c: Cond, code: Program, dT: nat, dF: nat) {
    && Operands(code) == o.words(c)
    && Contained(code, dT, dF)
    && (o.upright(c) ==> Ends(code, dT, dF))
  }

  lemma SightIs(o: Sight, c: Cond)
    requires Sees(o)
    ensures o.words(c) == CondWords(c) && o.upright(c) == Upright(c)
  {
  }

  lemma SightOf() returns (o: Sight)
    ensures Sees(o)
  {
    o := Sight((c: Cond) => CondWords(c), (c: Cond) => Upright(c));
  }

  lemma TestLooks(a: CondCoder, o: Sight, how: TestOp, k: nat, dT: nat, dF: nat)
    requires IsAsm(a) && Sees(o)
    ensures Looks(o, Test(how, k), a(Test(how, k), dT, dF), dT, dF)
  {
    CoderIs(a, Test(how, k), dT, dF);
    SightIs(o, Test(how, k));
  }

  lemma AfterIs(a: CondCoder, op: LoadOp, k: nat, body: Cond, dT: nat, dF: nat)
    requires IsAsm(a)
    ensures a(After(op, k, body), dT, dF) == [SockFilter(op.Code(), 0, 0, k)] + a(body, dT, dF)
  {
    CoderIs(a, After(op, k, body), dT, dF);
    CoderIs(a, body, dT, dF);
  }

  lemma AfterSight(o: Sight, op: LoadOp, k: nat, body: Cond)
    requires Sees(o)
    ensures var c := After(op, k, body); o.words(c) == [k] + o.words(body) && o.upright(c) == o.upright(body)
  {
    SightIs(o, After(op, k, body));
    SightIs(o, body);
  }

  lemma AfterLooks(o: Sight, c: Cond, load: SockFilter, body: Cond, code: Program, dT: nat, dF: nat)
    requires Looks(o, body, code, dT, dF) && load.jt == load.jf == 0
    requires o.words(c) == [load.k] + o.words(body) && o.upright(c) == o.upright(body)
    ensures Looks(o, c, [load] + code, dT, dF)
  {
    OperandsJoin([load], code);
    ContainedJoins([load], 0, 0, code, dT, dF);
  }

  lemma NegatedLooks(a: CondCoder, o: Sight, body: Cond, dT: nat, dF: nat)
    requires IsAsm(a) && Sees(o) && Looks(o, body, a(body, dF, dT), dF, dT)
    ensures Looks(o, Negated(body), a(Negated(body), dT, dF), dT, dF)
  {
    NegatedIs(a, body, dT, dF);
    SightIs(o, Negated(body));
    SightIs(o, body);
  }

  /** Two pieces of code, the first going to places the second can be entered or left at. */
  lemma BothLook(o: Sight, c: Cond, left: Cond, right: Cond, first: Program, x: nat, y: nat,
                 second: Program, dT: nat, dF: nat)
    requires Looks(o, left, first, x, y) && Looks(o, right, second, dT, dF)
    requires Inside(x, |second|, dT, dF) && Inside(y, |second|, dT, dF)
    requires o.words(c) == o.words(left) + o.words(right) && (o.upright(c) ==> o.upright(right))
    ensures Looks(o, c, first + second, dT, dF)
  {
    OperandsJoin(first, second);
    ContainedJoins(first, x, y, second, dT, dF);
  }

  lemma PairSeen(o: Sight, all: bool, left: Cond, right: Cond)
    requires Sees(o)
    ensures var c := Pair(all, left, right);
            o.words(c) == o.words(left) + o.words(right) && o.upright(c) == o.upright(right)
  {
    SightIs(o, Pair(all, left, right));
    SightIs(o, left);
    SightIs(o, right);
  }

  lemma PairLooks(a: CondCoder, o: Sight, all: bool, left: Cond, right: Cond, n: nat, dT: nat, dF: nat)
    requires IsAsm(a) && Sees(o) && n == Len(right)
    requires Looks(o, left, a(left, If(!all, n + dT), If(all, n + dF)), If(!all, n + dT), If(all, n + dF))
    requires Looks(o, right, a(right, dT, dF), dT, dF)
    ensures Looks(o, Pair(all, left, right), a(Pair(all, left, right), dT, dF), dT, dF)
  {
    var x, y := If(!all, n + dT), If(all, n + dF);
    PairIs(a, all, left, right, n, dT, dF);
    PairSeen(o, all, left, right);
    BothLook(o, Pair(all, left, right), left, right, a(left, x, y), x, y, a(right, dT, dF), dT, dF);
  }

  lemma {:induction false} CodeLooks(a: CondCoder, o: Sight, c: Cond, dT: nat, dF: nat)
    requires IsAsm(a) && Sees(o)
    ensures Looks(o, c, a(c, dT, dF), dT, dF)
    decreases c
  {
    match c
    case Test(how, k) =>
      TestLooks(a, o, how, k, dT, dF);
    case After(op, k, body) =>
      CodeLooks(a, o, body, dT, dF);
      AfterIs(a, op, k, body, dT, dF);
      AfterSight(o, op, k, body);
      AfterLooks(o, c, SockFilter(op.Code(), 0, 0, k), body, a(body, dT, dF), dT, dF);
    case Negated(body) =>
      CodeLooks(a, o, body, dF, dT);
      NegatedLooks(a, o, body, dT, dF);
    case Pair(all, left, right) =>
      CodeLooks(a, o, left, If(!all, Len(right) + dT), If(all, Len(right) + dF));
      CodeLooks(a, o, right, dT, dF);
      PairLooks(a, o, all, left, right, Len(right), dT, dF);
    case Triple(gate, one, two, three) =>
      CodeLooks(a, o, one, If(gate, Len(two)), If(!gate, Len(two)));
      CodeLooks(a, o, two, If(!gate, Len(three) + dT), Len(three) + dF);
      CodeLooks(a, o, three, dT, dF);
      TripleLooks(a, o, gate, one, two, three, Len(two), Len(three), dT, dF);
  }

  lemma TripleIs(a: CondCoder, gate: bool, one: Cond, two: Cond, three: Cond, n: nat, m: nat, dT: nat, dF: nat)
    requires IsAsm(a) && n == Len(two) && m == Len(three)
    ensures a(Triple(gate, one, two, three), dT, dF) ==
            a(one, If(gate, n), If(!gate, n)) + (a(two, If(!gate, m + dT), m + dF) + a(three, dT, dF))
  {
    CoderIs(a, Triple(gate, one, two, three), dT, dF);
    CoderIs(a, one, If(gate, n), If(!gate, n));
    CoderIs(a, two, If(!gate, m + dT), m + dF);
    CoderIs(a, three, dT, dF);
    TripleAsm(gate, one, two, three, n, m, dT, dF);
  }

  lemma TripleSeen(o: Sight, gate: bool, one: Cond, two: Cond, three: Cond)
    requires Sees(o)
    ensures var c := Triple(gate, one, two, three);
            && o.words(c) == o.words(one) + (o.words(two) + o.words(three))
            && o.upright(c) == o.upright(three)
  {
    SightIs(o, Triple(gate, one, two, three));
    SightIs(o, one);
    SightIs(o, two);
    SightIs(o, three);
  }

  lemma TripleLooks(a: CondCoder, o: Sight, gate: bool, one: Cond, two: Cond, three: Cond, n: nat, m: nat,
                    dT: nat, dF: nat)
    requires IsAsm(a) && Sees(o) && n == Len(two) && m == Len(three)
    requires Looks(o, one, a(one, If(gate, n), If(!gate, n)), If(gate, n), If(!gate, n))
    requires Looks(o, two, a(two, If(!gate, m + dT), m + dF), If(!gate, m + dT), m + dF)
    requires Looks(o, three, a(three, dT, dF), dT, dF)
    ensures Looks(o, Triple(gate, one, two, three), a(Triple(gate, one, two, three), dT, dF), dT, dF)
  {
    var last := Pair(true, two, three);
    var second := a(two, If(!gate, m + dT), m + dF) + a(three, dT, dF);
    TripleIs(a, gate, one, two, three, n, m, dT, dF);
    TripleSeen(o, gate, one, two, three);
    PairSeen(o, true, two, three);
    BothLook(o, last, two, three, a(two, If(!gate, m + dT), m + dF), If(!gate, m + dT), m + dF,
             a(three, dT, dF), dT, dF);
    BothLook(o, Triple(gate, one, two, three), one, last, a(one, If(gate, n), If(!gate, n)), If(gate, n), If(!gate, n),
             second, dT, dF);
  }

  // Expressions.

  predicate IsPrimitive(n: Node) {
    n.Proto? || n.Host? || n.Port?
  }

  /** Two offsets with the same value, or one of them. */
  function PickWords(direction: Option<Direction>, src: nat, dst: nat, value: nat): seq<nat> {
    match direction
    case None => [src, value, dst, value]
    case Some(Src) => [src, value]
    case Some(Dst) => [dst, value]
  }

  function TransportWords(number: nat): seq<nat> {
    [12, ETHERTYPE_IPV6, 20, number, 20, 44, 54, number, 12, ETHERTYPE_IPV4, 23, number]
  }

  /** The operands of an expression's code, in order. */
  function Words(n: Node): seq<nat> {
    match n
    case Proto(Ip) => [12, ETHERTYPE_IPV4]
    case Proto(Arp) => [12, ETHERTYPE_ARP]
    case Proto(Ip6) => [12, ETHERTYPE_IPV6]
    case Proto(Icmp) => [12, ETHERTYPE_IPV4, 23, 1]
    case Proto(Tcp) => TransportWords(6)
    case Proto(Udp) => TransportWords(17)
    case Host(addr, direction) => [12, ETHERTYPE_IPV4] + PickWords(direction, 26, 30, addr)
    case Port(port, direction) =>
      [12, ETHERTYPE_IPV6, 20, 6, 20, 17] + (PickWords(direction, 54, 56, port)
      + ([23, 6, 23, 17, 20, 0x1FFF, 14] + PickWords(direction, 14, 16, port)))
    case Not(operand) => Words(operand)
    case And(left, right) => Words(left) + Words(right)
    case Or(left, right) => Words(left) + Words(right)
  }

  /** The primitive an expression begins with. */
  function First(n: Node): Node {
    match n
    case Not(operand) => First(operand)
    case And(left, _) => First(left)
    case Or(left, _) => First(left)
    case _ => n
  }

  /** The primitive that operands begin with. */
  function Leading(ws: seq<nat>): Node {
    if |ws| < 2 || ws[1] == ETHERTYPE_ARP then Proto(Arp)
    else if ws[1] == ETHERTYPE_IPV4 then
      if |ws| < 4 || ws[2] == 12 then Proto(Ip)
      else if ws[2] == 23 then Proto(Icmp)
      else if ws[2] == 30 then Host(ws[3], Some(Dst))
      else Host(ws[3], if |ws| > 4 && ws[4] == 30 then None else Some(Src))
    else if |ws| < 12 || ws[2] == 12 then Proto(Ip6)
    else if ws[3] == 17 then Proto(Udp)
    else if ws[5] == 44 then Proto(Tcp)
    else if ws[6] == 56 then Port(ws[7], Some(Dst))
    else Port(ws[7], if ws[8] == 56 then None else Some(Src))
  }

  /** Nothing more, or another primitive. */
  predicate Opens(rest: seq<nat>) {
    rest == [] || rest[0] == 12
  }

  lemma LeadingProto(name: Protocol, rest: seq<nat>, ws: seq<nat>)
    requires Opens(rest) && ws == Words(Proto(name)) + rest
    ensures Leading(ws) == Proto(name)
  {
  }

  lemma LeadingHost(addr: nat, direction: Option<Direction>, rest: seq<nat>, ws: seq<nat>)
    requires Opens(rest) && ws == [12, ETHERTYPE_IPV4] + PickWords(direction, 26, 30, addr) + rest
    ensures Leading(ws) == Host(addr, direction)
  {
  }

  lemma LeadingPort(port: nat, direction: Option<Direction>, rest: seq<nat>, ws: seq<nat>)
    requires ws == [12, ETHERTYPE_IPV6, 20, 6, 20, 17] + (PickWords(direction, 54, 56, port)
                   + ([23, 6, 23, 17, 20, 0x1FFF, 14] + PickWords(direction, 14, 16, port))) + rest
    ensures Leading(ws) == Port(port, direction)
  {
  }

  lemma LeadingPrimitive(n: Node, rest: seq<nat>)
    requires IsPrimitive(n) && Opens(rest)
    ensures Leading(Words(n) + rest) == n && |Words(n)| >= 2 && Words(n)[0] == 12
  {
    match n
    case Proto(name) => LeadingProto(name, rest, Words(n) + rest);
    case Host(addr, direction) => LeadingHost(addr, direction, rest, Words(n) + rest);
    case Port(port, direction) => LeadingPort(port, direction, rest, Words(n) + rest);
  }

  lemma JoinWords(all: bool, l: Node, r: Node)
    ensures Words(Join(all, l, r)) == Words(l) + Words(r)
  {
  }

  lemma JoinFirst(all: bool, l: Node, r: Node)
    ensures First(Join(all, l, r)) == First(l)
  {
  }

  lemma WordsAssociate(a: seq<nat>, b: seq<nat>, c: seq<nat>)
    ensures a + b + c == a + (b + c)
  {
  }

  /** The operands of an expression's code tell which primitive it begins with. */
  lemma {:induction false} LeadingIsFirst(n: Node, rest: seq<nat>)
    requires Opens(rest)
    ensures Leading(Words(n) + rest) == First(n) && IsPrimitive(First(n))
    ensures |Words(n)| >= |Words(First(n))| >= 2 && Words(n)[0] == 12
  {
    match n
    case Not(operand) => LeadingIsFirst(operand, rest);
    case And(l, r) =>
      LeadingIsFirst(r, rest);
      LeadingIsFirst(l, Words(r) + rest);
      WordsAssociate(Words(l), Words(r), rest);
    case Or(l, r) =>
      LeadingIsFirst(r, rest);
      LeadingIsFirst(l, Words(r) + rest);
      WordsAssociate(Words(l), Words(r), rest);
    case _ => LeadingPrimitive(n, rest);
  }

  lemma EqualsWords(op: LoadOp, k: nat, value: nat)
    ensures CondWords(Equals(op, k, value)) == [k, value] && Upright(Equals(op, k, value))
  {
    assert CondWords(Is(value)) == [value] && Upright(Is(value));
  }

  lemma PairWords(all: bool, left: Cond, right: Cond)
    ensures CondWords(Pair(all, left, right)) == CondWords(left) + CondWords(right)
    ensures Upright(Pair(all, left, right)) == Upright(right)
  {
  }

  lemma TripleWords(gate: bool, one: Cond, two: Cond, three: Cond)
    ensures CondWords(Triple(gate, one, two, three)) == CondWords(one) + (CondWords(two) + CondWords(three))
    ensures Upright(Triple(gate, one, two, three)) == Upright(three)
  {
  }

  lemma PickedWords(direction: Option<Direction>, op: LoadOp, src: nat, dst: nat, value: nat)
    ensures var c := LowerPick(direction, Equals(op, src, value), Equals(op, dst, value));
            CondWords(c) == PickWords(direction, src, dst, value) && Upright(c)
  {
    EqualsWords(op, src, value);
    EqualsWords(op, dst, value);
    PairWords(false, Equals(op, src, value), Equals(op, dst, value));
  }

  lemma TransportSpelled(number: nat)
    ensures CondWords(LowerTransport(number)) == TransportWords(number) && Upright(LowerTransport(number))
  {
    var hidden := Conj(Equals(ByteAt, 20, 44), Equals(ByteAt, 54, number));
    var six := Disj(Equals(ByteAt, 20, number), hidden);
    var four := Conj(Equals(HalfAt, 12, ETHERTYPE_IPV4), Equals(ByteAt, 23, number));
    EqualsWords(HalfAt, 12, ETHERTYPE_IPV6);
    EqualsWords(HalfAt, 12, ETHERTYPE_IPV4);
    EqualsWords(ByteAt, 20, number);
    EqualsWords(ByteAt, 20, 44);
    EqualsWords(ByteAt, 54, number);
    EqualsWords(ByteAt, 23, number);
    PairWords(true, Equals(ByteAt, 20, 44), Equals(ByteAt, 54, number));
    PairWords(false, Equals(ByteAt, 20, number), hidden);
    PairWords(true, Equals(HalfAt, 12, ETHERTYPE_IPV4), Equals(ByteAt, 23, number));
    TripleWords(false, Equals(HalfAt, 12, ETHERTYPE_IPV6), six, four);
  }

  lemma ProtoSpelled(name: Protocol)
    ensures CondWords(LowerProto(name)) == Words(Proto(name)) && Upright(LowerProto(name))
  {
    match name
    case Ip => EqualsWords(HalfAt, 12, ETHERTYPE_IPV4);
    case Arp => EqualsWords(HalfAt, 12, ETHERTYPE_ARP);
    case Ip6 => EqualsWords(HalfAt, 12, ETHERTYPE_IPV6);
    case Icmp =>
      EqualsWords(HalfAt, 12, ETHERTYPE_IPV4);
      EqualsWords(ByteAt, 23, 1);
      PairWords(true, Equals(HalfAt, 12, ETHERTYPE_IPV4), Equals(ByteAt, 23, 1));
    case Tcp => TransportSpelled(6);
    case Udp => TransportSpelled(17);
  }

  lemma HostSpelled(addr: nat, direction: Option<Direction>)
    ensures CondWords(LowerHost(addr, direction)) == [12, ETHERTYPE_IPV4] + PickWords(direction, 26, 30, addr)
    ensures Upright(LowerHost(addr, direction))
  {
    var value := LowerPick(direction, Equals(WordAt, 26, addr), Equals(WordAt, 30, addr));
    EqualsWords(HalfAt, 12, ETHERTYPE_IPV4);
    PickedWords(direction, WordAt, 26, 30, addr);
    PairWords(true, Equals(HalfAt, 12, ETHERTYPE_IPV4), value);
  }

  lemma GateWords(offset: nat, body: Cond)
    ensures var c := Gate(Equals(ByteAt, offset, 6), Equals(ByteAt, offset, 17), body);
            CondWords(c) == [offset, 6, offset, 17] + CondWords(body) && Upright(c) == Upright(body)
  {
    EqualsWords(ByteAt, offset, 6);
    EqualsWords(ByteAt, offset, 17);
    TripleWords(true, Equals(ByteAt, offset, 6), Equals(ByteAt, offset, 17), body);
    assert [offset, 6] + ([offset, 17] + CondWords(body)) == [offset, 6, offset, 17] + CondWords(body);
  }

  lemma Ports4Spelled(port: nat, direction: Option<Direction>)
    ensures CondWords(LowerPorts4(port, direction)) == [20, 0x1FFF, 14] + PickWords(direction, 14, 16, port)
    ensures Upright(LowerPorts4(port, direction))
  {
    var value := LowerPick(direction, Equals(HalfPastHeader, 14, port), Equals(HalfPastHeader, 16, port));
    PickedWords(direction, HalfPastHeader, 14, 16, port);
    assert CondWords(LowerPastHeader(port, direction)) == [14] + CondWords(value);
    assert Upright(LowerPastHeader(port, direction)) == Upright(value);
    assert CondWords(Test(NoBits, 0x1FFF)) == [0x1FFF];
    PairWords(true, FirstFragment(), LowerPastHeader(port, direction));
  }

  lemma PortSpelled(port: nat, direction: Option<Direction>)
    ensures CondWords(LowerPort(port, direction)) ==
            [12, ETHERTYPE_IPV6, 20, 6, 20, 17] + (PickWords(direction, 54, 56, port)
            + ([23, 6, 23, 17, 20, 0x1FFF, 14] + PickWords(direction, 14, 16, port)))
    ensures Upright(LowerPort(port, direction))
  {
    EqualsWords(HalfAt, 12, ETHERTYPE_IPV6);
    PickedWords(direction, HalfAt, 54, 56, port);
    Ports4Spelled(port, direction);
    GateWords(20, LowerPorts6(port, direction));
    GateWords(23, LowerPorts4(port, direction));
    TripleWords(false, Equals(HalfAt, 12, ETHERTYPE_IPV6), LowerPort6(port, direction), LowerPort4(port, direction));
    PortPieces(PickWords(direction, 54, 56, port), PickWords(direction, 14, 16, port));
  }

  lemma PortPieces(six: seq<nat>, four: seq<nat>)
    ensures [12, ETHERTYPE_IPV6] + (([20, 6, 20, 17] + six) + ([23, 6, 23, 17] + ([20, 0x1FFF, 14] + four))) ==
            [12, ETHERTYPE_IPV6, 20, 6, 20, 17] + (six + ([23, 6, 23, 17, 20, 0x1FFF, 14] + four))
  {
  }

  lemma PrimitiveSpelled(n: Node)
    requires IsPrimitive(n)
    ensures CondWords(Lower(n)) == Words(n) && Upright(Lower(n))
  {
    match n
    case Proto(name) => ProtoSpelled(name);
    case Host(addr, direction) => HostSpelled(addr, direction);
    case Port(port, direction) => PortSpelled(port, direction);
  }

  // The code of expressions, as one function `z`.

  /** What is needed to know of the code of primitives, beside the laws. */
  ghost predicate Spells(z: Coder) {
    && Codes(z)
    && (forall n, dT, dF {:trigger PrimitiveLaw(z, n, dT, dF)} | IsPrimitive(n) :: PrimitiveLaw(z, n, dT, dF))
  }

  ghost predicate PrimitiveLaw(z: Coder, n: Node, dT: nat, dF: nat) {
    Operands(z(n, dT, dF)) == Words(n) && Contained(z(n, dT, dF), dT, dF) && Ends(z(n, dT, dF), dT, dF)
  }

  lemma PrimitiveCode(z: Coder, n: Node, dT: nat, dF: nat)
    requires Spells(z) && IsPrimitive(n)
    ensures Operands(z(n, dT, dF)) == Words(n) && Contained(z(n, dT, dF), dT, dF) && Ends(z(n, dT, dF), dT, dF)
  {
    assert PrimitiveLaw(z, n, dT, dF);
  }

  lemma PrimitiveSight(w: Lowerer, o: Sight, n: Node)
    requires Sees(o) && (forall n {:trigger Lower(n)} :: w(n) == Lower(n)) && IsPrimitive(n)
    ensures o.words(w(n)) == Words(n) && o.upright(w(n))
  {
    PrimitiveSpelled(n);
    SightIs(o, Lower(n));
  }

  lemma ComposedSpells(w: Lowerer, a: CondCoder, o: Sight, z: Coder)
    requires (forall n {:trigger Lower(n)} :: w(n) == Lower(n)) && IsAsm(a) && Sees(o) && Codes(z)
    requires forall n, dT, dF {:trigger z(n, dT, dF)} :: z(n, dT, dF) == a(w(n), dT, dF)
    ensures Spells(z)
  {
    forall n, dT, dF | IsPrimitive(n)
      ensures PrimitiveLaw(z, n, dT, dF)
    {
      PrimitiveSight(w, o, n);
      CodeLooks(a, o, w(n), dT, dF);
    }
  }

  /** The operands of the code are the expression's. */
  lemma {:induction false} CodeSpells(z: Coder, n: Node, dT: nat, dF: nat)
    requires Spells(z)
    ensures Operands(z(n, dT, dF)) == Words(n) && |z(n, dT, dF)| == |Words(n)|
    decreases n
  {
    match n
    case Not(operand) =>
      NotCode(z, operand, dT, dF);
      CodeSpells(z, operand, dF, dT);
    case And(l, r) =>
      CodeSpells(z, r, dT, dF);
      CodeSpells(z, l, 0, |Words(r)| + dF);
      JoinSpells(z, true, l, r, Words(l), Words(r), dT, dF);
    case Or(l, r) =>
      CodeSpells(z, r, dT, dF);
      CodeSpells(z, l, |Words(r)| + dT, 0);
      JoinSpells(z, false, l, r, Words(l), Words(r), dT, dF);
    case _ => PrimitiveCode(z, n, dT, dF);
  }

  lemma JoinSpells(z: Coder, all: bool, l: Node, r: Node, ls: seq<nat>, rs: seq<nat>, dT: nat, dF: nat)
    requires Codes(z) && Operands(z(r, dT, dF)) == rs
    requires Operands(z(l, If(!all, |rs| + dT), If(all, |rs| + dF))) == ls
    ensures Operands(z(Join(all, l, r), dT, dF)) == ls + rs
  {
    JoinCode(z, all, l, r, dT, dF);
    OperandsJoin(z(l, If(!all, |rs| + dT), If(all, |rs| + dF)), z(r, dT, dF));
  }

  /** The code of both operators, its parts having the lengths the expressions say. */
  lemma JoinParts(z: Coder, all: bool, l: Node, r: Node, past: nat, dT: nat, dF: nat)
    requires Spells(z) && past == |Words(r)|
    ensures z(Join(all, l, r), dT, dF) == z(l, If(!all, past + dT), If(all, past + dF)) + z(r, dT, dF)
    ensures |z(l, If(!all, past + dT), If(all, past + dF))| == |Words(l)| && |z(r, dT, dF)| == past
  {
    JoinCode(z, all, l, r, dT, dF);
    CodeSpells(z, r, dT, dF);
    CodeSpells(z, l, If(!all, past + dT), If(all, past + dF));
  }

  /** Nothing in the code leads anywhere but into it, right behind it, or to its exits. */
  lemma {:induction false} CodeContained(z: Coder, n: Node, dT: nat, dF: nat)
    requires Spells(z)
    ensures Contained(z(n, dT, dF), dT, dF)
    decreases n, 1
  {
    match n
    case Not(operand) =>
      NotCode(z, operand, dT, dF);
      CodeContained(z, operand, dF, dT);
    case And(l, r) => JoinContained(z, true, l, r, |Words(r)|, dT, dF);
    case Or(l, r) => JoinContained(z, false, l, r, |Words(r)|, dT, dF);
    case _ => PrimitiveCode(z, n, dT, dF);
  }

  lemma {:induction false} JoinContained(z: Coder, all: bool, l: Node, r: Node, past: nat, dT: nat, dF: nat)
    requires Spells(z) && past == |Words(r)|
    ensures Contained(z(Join(all, l, r), dT, dF), dT, dF)
    decreases Join(all, l, r), 0
  {
    var x, y := If(!all, past + dT), If(all, past + dF);
    JoinParts(z, all, l, r, past, dT, dF);
    CodeContained(z, l, x, y);
    CodeContained(z, r, dT, dF);
    ContainedJoins(z(l, x, y), x, y, z(r, dT, dF), dT, dF);
  }

  /** Its last instruction has both exits. */
  lemma {:induction false} CodeEnds(z: Coder, n: Node, dT: nat, dF: nat)
    requires Spells(z)
    ensures Ends(z(n, dT, dF), dT, dF) || Ends(z(n, dT, dF), dF, dT)
    decreases n
  {
    match n
    case Not(operand) =>
      NotCode(z, operand, dT, dF);
      CodeEnds(z, operand, dF, dT);
    case And(l, r) =>
      JoinParts(z, true, l, r, |Words(r)|, dT, dF);
      CodeEnds(z, r, dT, dF);
    case Or(l, r) =>
      JoinParts(z, false, l, r, |Words(r)|, dT, dF);
      CodeEnds(z, r, dT, dF);
    case _ => PrimitiveCode(z, n, dT, dF);
  }

  // Canonical forms.

  predicate Literal(n: Node) {
    IsPrimitive(n) || (n.Not? && IsPrimitive(n.operand))
  }

  predicate IsJoin(all: bool, n: Node) {
    if all then n.And? else n.Or?
  }

  /** Negations only on primitives, and no operator on the left of itself. */
  predicate Normal(n: Node) {
    match n
    case And(l, r) => Normal(l) && Normal(r) && !l.And?
    case Or(l, r) => Normal(l) && Normal(r) && !l.Or?
    case _ => Literal(n)
  }

  lemma {:induction false} ChainedIsNormal(all: bool, l: Node, r: Node)
    requires Normal(l) && Normal(r)
    ensures Normal(Chained(all, l, r))
    decreases l
  {
    if IsJoin(all, l) {
      ChainedIsNormal(all, l.right, r);
    }
  }

  lemma {:induction false} CanonIsNormal(n: Node, positive: bool)
    ensures Normal(Canon(n, positive))
  {
    match n
    case Not(operand) => CanonIsNormal(operand, !positive);
    case And(l, r) =>
      CanonIsNormal(l, positive);
      CanonIsNormal(r, positive);
      ChainedIsNormal(positive, Canon(l, positive), Canon(r, positive));
    case Or(l, r) =>
      CanonIsNormal(l, positive);
      CanonIsNormal(r, positive);
      ChainedIsNormal(!positive, Canon(l, positive), Canon(r, positive));
    case _ =>
  }

  // Where the left side of an operator ends.

  predicate Goes(insn: SockFilter, at: nat, t: nat) {
    at + 1 + insn.jt == t || at + 1 + insn.jf == t
  }

  /** Some instruction before `x` may go to `t`. */
  ghost predicate JumpsTo(code: Program, x: nat, t: nat) {
    exists i | 0 <= i < |code| && i < x :: Goes(code[i], i, t)
  }

  lemma JumpsFarther(first: Program, second: Program, x: nat, t: nat)
    requires JumpsTo(first, x, t)
    ensures JumpsTo(first + second, x, t)
  {
    var i :| 0 <= i < |first| && i < x && Goes(first[i], i, t);
    assert Goes((first + second)[i], i, t);
  }

  lemma EndJumps(code: Program, x: nat, y: nat, at: nat)
    requires Ends(code, x, y) || Ends(code, y, x)
    requires |code| <= at
    ensures JumpsTo(code, at, |code| + x) && JumpsTo(code, at, |code| + y)
  {
    var i := |code| - 1;
    assert Goes(code[i], i, |code| + x) && Goes(code[i], i, |code| + y);
  }

  /**
  Every place behind the first primitive is jumped over, to somewhere farther inside or to the exit
  that a left side takes when it decides alone.
  */
  lemma {:induction false} Crosses(z: Coder, all: bool, a: Node, b: Node, x: nat, dT: nat, dF: nat) returns (t: nat)
    requires Spells(z) && Normal(Join(all, a, b))
    requires |Words(First(a))| <= x < |Words(a)| + |Words(b)|
    ensures JumpsTo(z(Join(all, a, b), dT, dF), x, t) && x < t
    ensures var len := |Words(a)| + |Words(b)|; t < len || t == len + (if all then dF else dT)
    decreases a
  {
    var past := |Words(b)|;
    var aT, aF := If(!all, past + dT), If(all, past + dF);
    JoinParts(z, all, a, b, past, dT, dF);
    LeadingIsFirst(b, []);
    if |Words(a)| <= x {
      CodeEnds(z, a, aT, aF);
      EndJumps(z(a, aT, aF), aT, aF, x);
      t := |Words(a)| + past + (if all then dF else dT);
    } else {
      JoinWords(!all, a.left, a.right);
      JoinFirst(!all, a.left, a.right);
      t := Crosses(z, !all, a.left, a.right, x, aT, aF);
    }
    JumpsFarther(z(a, aT, aF), z(b, dT, dF), x, t);
  }

  /** The jumps of a left side stop right behind it, or leave the whole. */
  lemma LeftStays(z: Coder, all: bool, a: Node, b: Node, t: nat, dT: nat, dF: nat)
    requires Spells(z) && JumpsTo(z(Join(all, a, b), dT, dF), |Words(a)|, t)
    ensures t <= |Words(a)| || t >= |Words(a)| + |Words(b)|
  {
    var past := |Words(b)|;
    var aT, aF := If(!all, past + dT), If(all, past + dF);
    JoinParts(z, all, a, b, past, dT, dF);
    CodeContained(z, a, aT, aF);
    var first, whole := z(a, aT, aF), z(Join(all, a, b), dT, dF);
    var i :| 0 <= i < |whole| && i < |Words(a)| && Goes(whole[i], i, t);
    assert whole[i] == first[i];
  }

  /** So, of two expressions with the same code, the left side of one does not end inside that of the other. */
  lemma NoEarlierEnd(z: Coder, all: bool, a: Node, b: Node, x: nat, all': bool, c: Node, d: Node, e: Node,
                     dT: nat, dF: nat)
    requires Spells(z) && Normal(Join(all', c, d)) && |Words(First(c))| <= x == |Words(a)|
    requires z(Join(all, a, b), dT, dF) == z(Join(!all', Join(all', c, d), e), dT, dF)
    ensures x >= |Words(Join(all', c, d))|
  {
    var left, past := Join(all', c, d), |Words(e)|;
    if x < |Words(left)| {
      var cT, cF := If(all', past + dT), If(!all', past + dF);
      JoinWords(all', c, d);
      var t := Crosses(z, all', c, d, x, cT, cF);
      JoinParts(z, !all', left, e, past, dT, dF);
      JumpsFarther(z(left, cT, cF), z(e, dT, dF), x, t);
      LeftStays(z, all, a, b, t, dT, dF);
      JoinParts(z, all, a, b, |Words(b)|, dT, dF);
      LeadingIsFirst(e, []);
    }
  }

  lemma NotEarlier(z: Coder, all: bool, a: Node, b: Node, all': bool, c: Node, d: Node, dT: nat, dF: nat)
    requires Spells(z) && Normal(Join(all', c, d)) && First(a) == First(c)
    requires z(Join(all, a, b), dT, dF) == z(Join(all', c, d), dT, dF)
    ensures |Words(a)| >= |Words(c)|
  {
    if |Words(a)| < |Words(c)| {
      LeadingIsFirst(a, []);
      JoinFirst(!all', c.left, c.right);
      NoEarlierEnd(z, all, a, b, |Words(a)|, !all', c.left, c.right, d, dT, dF);
    }
  }

  /** And their operators are the same: the last instruction of the left side tells. */
  lemma SameOperator(z: Coder, all: bool, a: Node, all': bool, c: Node, past: nat, dT: nat, dF: nat)
    requires Spells(z) && past > 0 && dT != dF
    requires z(a, If(!all, past + dT), If(all, past + dF)) == z(c, If(!all', past + dT), If(all', past + dF))
    ensures all == all'
  {
    CodeEnds(z, a, If(!all, past + dT), If(all, past + dF));
    CodeEnds(z, c, If(!all', past + dT), If(all', past + dF));
  }

  lemma SameFirst(z: Coder, m: Node, n: Node, dT: nat, dF: nat)
    requires Spells(z) && z(m, dT, dF) == z(n, dT, dF)
    ensures Words(m) == Words(n) && First(m) == First(n)
  {
    CodeSpells(z, m, dT, dF);
    CodeSpells(z, n, dT, dF);
    LeadingIsFirst(m, []);
    LeadingIsFirst(n, []);
    assert Words(m) + [] == Words(m) && Words(n) + [] == Words(n);
  }

  lemma SameLiteral(z: Coder, m: Node, n: Node, dT: nat, dF: nat)
    requires Spells(z) && dT != dF && z(m, dT, dF) == z(n, dT, dF)
    requires Literal(m) && Literal(n)
    ensures m == n
  {
    SameFirst(z, m, n, dT, dF);
    var p := First(m);
    NotCode(z, p, dT, dF);
    PrimitiveCode(z, p, dT, dF);
    PrimitiveCode(z, p, dF, dT);
  }

  lemma CutApart(u: Program, v: Program, u': Program, v': Program)
    requires u + v == u' + v' && |u| == |u'|
    ensures u == u' && v == v'
  {
    assert (u + v)[..|u|] == u && (u' + v')[..|u|] == u';
    assert (u + v)[|u|..] == v && (u' + v')[|u|..] == v';
  }

  /** Expressions in normal form with the same code are the same. */
  lemma {:induction false} NormalFormsAreUnique(z: Coder, m: Node, n: Node, dT: nat, dF: nat)
    requires Spells(z) && Normal(m) && Normal(n) && dT != dF
    requires z(m, dT, dF) == z(n, dT, dF)
    ensures m == n
    decreases m, 1
  {
    SameFirst(z, m, n, dT, dF);
    if Literal(m) && Literal(n) {
      SameLiteral(z, m, n, dT, dF);
    } else if Literal(m) {
      LongerThanFirst(n);
    } else if Literal(n) {
      LongerThanFirst(m);
    } else {
      JoinsAreUnique(z, m.And?, m.left, m.right, n.And?, n.left, n.right, dT, dF);
    }
  }

  lemma LongerThanFirst(n: Node)
    requires n.And? || n.Or?
    ensures |Words(First(n))| < |Words(n)|
  {
    LeadingIsFirst(n.left, []);
    LeadingIsFirst(n.right, []);
  }

  lemma FirstsMatch(z: Coder, all: bool, a: Node, b: Node, all': bool, c: Node, d: Node, dT: nat, dF: nat)
    requires Spells(z) && z(Join(all, a, b), dT, dF) == z(Join(all', c, d), dT, dF)
    ensures First(a) == First(c)
  {
    SameFirst(z, Join(all, a, b), Join(all', c, d), dT, dF);
    JoinFirst(all, a, b);
    JoinFirst(all', c, d);
  }

  lemma JoinWidth(z: Coder, all: bool, a: Node, b: Node, dT: nat, dF: nat)
    requires Spells(z)
    ensures |z(Join(all, a, b), dT, dF)| == |Words(a)| + |Words(b)| && |Words(b)| > 0
  {
    JoinParts(z, all, a, b, |Words(b)|, dT, dF);
    LeadingIsFirst(b, []);
  }

  lemma LeftsEndTogether(z: Coder, all: bool, a: Node, b: Node, all': bool, c: Node, d: Node, dT: nat, dF: nat)
    requires Spells(z) && Normal(Join(all, a, b)) && Normal(Join(all', c, d))
    requires z(Join(all, a, b), dT, dF) == z(Join(all', c, d), dT, dF)
    ensures |Words(a)| == |Words(c)|
  {
    FirstsMatch(z, all, a, b, all', c, d, dT, dF);
    NotEarlier(z, all, a, b, all', c, d, dT, dF);
    NotEarlier(z, all', c, d, all, a, b, dT, dF);
  }

  lemma RightsAreAsLong(z: Coder, all: bool, a: Node, b: Node, all': bool, c: Node, d: Node, dT: nat, dF: nat)
    requires Spells(z) && |Words(a)| == |Words(c)|
    requires z(Join(all, a, b), dT, dF) == z(Join(all', c, d), dT, dF)
    ensures |Words(b)| == |Words(d)| > 0
  {
    JoinWidth(z, all, a, b, dT, dF);
    JoinWidth(z, all', c, d, dT, dF);
  }

  lemma SidesMatch(z: Coder, all: bool, a: Node, b: Node, all': bool, c: Node, d: Node, past: nat, dT: nat, dF: nat)
    requires Spells(z) && dT != dF && past == |Words(b)| == |Words(d)| > 0 && |Words(a)| == |Words(c)|
    requires z(Join(all, a, b), dT, dF) == z(Join(all', c, d), dT, dF)
    ensures all == all' && z(b, dT, dF) == z(d, dT, dF)
    ensures var aT, aF := If(!all, past + dT), If(all, past + dF); aT != aF && z(a, aT, aF) == z(c, aT, aF)
  {
    JoinParts(z, all, a, b, past, dT, dF);
    JoinParts(z, all', c, d, past, dT, dF);
    CutApart(z(a, If(!all, past + dT), If(all, past + dF)), z(b, dT, dF),
           z(c, If(!all', past + dT), If(all', past + dF)), z(d, dT, dF));
    SameOperator(z, all, a, all', c, past, dT, dF);
  }

  lemma {:induction false} JoinsAreUnique(z: Coder, all: bool, a: Node, b: Node, all': bool, c: Node, d: Node,
                                          dT: nat, dF: nat)
    requires Spells(z) && Normal(Join(all, a, b)) && Normal(Join(all', c, d)) && dT != dF
    requires z(Join(all, a, b), dT, dF) == z(Join(all', c, d), dT, dF)
    ensures all == all' && a == c && b == d
    decreases Join(all, a, b), 0
  {
    var past := |Words(b)|;
    LeftsEndTogether(z, all, a, b, all', c, d, dT, dF);
    RightsAreAsLong(z, all, a, b, all', c, d, dT, dF);
    SidesMatch(z, all, a, b, all', c, d, past, dT, dF);
    NormalFormsAreUnique(z, a, c, If(!all, past + dT), If(all, past + dF));
    NormalFormsAreUnique(z, b, d, dT, dF);
  }

  lemma CanonsAreUnique(z: Coder, m: Node, n: Node)
    requires Spells(z) && z(m, 0, 1) == z(n, 0, 1)
    ensures Canon(m, true) == Canon(n, true)
  {
    CanonSame(z, m, true);
    CanonSame(z, n, true);
    CanonIsNormal(m, true);
    CanonIsNormal(n, true);
    assert z(Canon(m, true), 0, 1) == z(m, 0, 1) && z(Canon(n, true), 0, 1) == z(n, 0, 1);
    NormalFormsAreUnique(z, Canon(m, true), Canon(n, true), 0, 1);
  }

  /**
  Two expressions have the same code exactly when they have the same canonical form, whether or not
  it can be assembled.
  */
  lemma CodeDecides(m: Node, n: Node)
    ensures Asm(Lower(m), 0, 1) == Asm(Lower(n), 0, 1) <==> Canon(m, true) == Canon(n, true)
  {
    var w := LowererOf();
    var a := CondCoderOf();
    AgreeingAssembles(a);
    var z := Composed(w, a);
    var o := SightOf();
    ComposedSpells(w, a, o, z);
    CodesCompare(a, z, m, n, w(m), w(n));
    if Canon(m, true) == Canon(n, true) {
      CanonSame(z, m, true);
      CanonSame(z, n, true);
      assert z(Canon(m, true), 0, 1) == z(m, 0, 1) && z(Canon(n, true), 0, 1) == z(n, 0, 1);
    } else if z(m, 0, 1) == z(n, 0, 1) {
      CanonsAreUnique(z, m, n);
    }
  }

  lemma CodesCompare(a: CondCoder, z: Coder, m: Node, n: Node, c: Cond, d: Cond)
    requires IsAsm(a) && z(m, 0, 1) == a(c, 0, 1) && z(n, 0, 1) == a(d, 0, 1)
    ensures Asm(c, 0, 1) == Asm(d, 0, 1) <==> z(m, 0, 1) == z(n, 0, 1)
  {
    CoderIs(a, c, 0, 1);
    CoderIs(a, d, 0, 1);
  }

  /**
  The program determines the expression up to negation, De Morgan's laws and association: two
  expressions of which one compiles give the same program exactly when their canonical forms agree.
  */
  lemma ProgramsDecide(m: Node, n: Node)
    requires Assembled(m).Success?
    ensures Assembled(m) == Assembled(n) <==> Canon(m, true) == Canon(n, true)
  {
    CodeDecides(m, n);
    FinishedCompare(Asm(Lower(m), 0, 1), Asm(Lower(n), 0, 1), Assembled(m), Assembled(n));
  }

  lemma FinishedCompare(u: Program, v: Program, m: Result<Program, ResolveError>, n: Result<Program, ResolveError>)
    requires var last := [SockFilter(0x06, 0, 0, ACCEPT_LENGTH), SockFilter(0x06, 0, 0, 0)];
             m == Bounded(u + last) && n == Bounded(v + last) && m.Success?
    ensures m == n <==> u == v
  {
    var last := [SockFilter(0x06, 0, 0, ACCEPT_LENGTH), SockFilter(0x06, 0, 0, 0)];
    BoundedFits(u + last);
    BoundedFits(v + last);
    if m == n {
      assert |u + last| == |v + last|;
      CutApart(u, last, v, last);
    }
  }
}
