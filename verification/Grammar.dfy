/**
The documented grammar as a relation: which spans of a token list derive which tree, by which
rule. The repetitions of `or_expr` and `and_expr` associate to the left.
*/
module Grammar {
  import opened Wrappers
  import opened Filter
  import opened Lexer
  import opened Numerals

  type Tokens = seq<Token>

  datatype Rule = OrExpr | AndExpr | NotExpr | Primary

  function Level(rule: Rule): nat {
    match rule
    case OrExpr => 3
    case AndExpr => 2
    case NotExpr => 1
    case Primary => 0
  }

  predicate IsWord(ts: Tokens, i: nat, text: string) {
    i < |ts| && ts[i].kind.Word? && ts[i].text == text
  }

  predicate IsKind(ts: Tokens, i: nat, kind: Kind) {
    i < |ts| && ts[i].kind == kind
  }

  function ProtocolWord(name: Protocol): string {
    match name
    case Tcp => "tcp"
    case Udp => "udp"
    case Icmp => "icmp"
    case Arp => "arp"
    case Ip => "ip"
    case Ip6 => "ip6"
  }

  function DirectionWord(direction: Direction): string {
    match direction
    case Src => "src"
    case Dst => "dst"
  }

  const MAX_PORT: nat := 0xFFFF

  /** An optional direction, the keyword, and one token that carries the value. */
  ghost predicate Qualified(ts: Tokens, i: nat, j: nat, direction: Option<Direction>, keyword: string) {
    match direction
    case None => j == i + 2 && IsWord(ts, i, keyword)
    case Some(d) => j == i + 3 && IsWord(ts, i, DirectionWord(d)) && IsWord(ts, i + 1, keyword)
  }

  ghost predicate PrimitiveAt(ts: Tokens, i: nat, j: nat, n: Node) {
    j <= |ts| &&
    match n
    case Proto(name) => j == i + 1 && IsWord(ts, i, ProtocolWord(name))
    case Host(addr, direction) =>
      Qualified(ts, i, j, direction, "host") && IsKind(ts, j - 1, Ipv4) && Writes(ts[j - 1].text, addr)
    case Port(port, direction) =>
      Qualified(ts, i, j, direction, "port") && IsKind(ts, j - 1, Number) && port == Value(ts[j - 1].text) <= MAX_PORT
    case _ => false
  }

  /** `left word right`, split at `k`. */
  ghost predicate Joins(ts: Tokens, i: nat, k: nat, j: nat, word: string) {
    i <= k < j <= |ts| && IsWord(ts, k, word)
  }

  /** The tokens from `i` up to `j` derive the tree by the rule. */
  ghost predicate Derives(rule: Rule, ts: Tokens, i: nat, j: nat, n: Node)
    decreases j - i, Level(rule)
  {
    i <= j <= |ts| &&
    match rule
    case OrExpr =>
      || Derives(AndExpr, ts, i, j, n)
      || (n.Or? && exists k: nat ::
            Joins(ts, i, k, j, "or") && Derives(OrExpr, ts, i, k, n.left) && Derives(AndExpr, ts, k + 1, j, n.right))
    case AndExpr =>
      || Derives(NotExpr, ts, i, j, n)
      || (n.And? && exists k: nat ::
            Joins(ts, i, k, j, "and") && Derives(AndExpr, ts, i, k, n.left) && Derives(NotExpr, ts, k + 1, j, n.right))
    case NotExpr =>
      || Derives(Primary, ts, i, j, n)
      || (n.Not? && i < j && IsWord(ts, i, "not") && Derives(NotExpr, ts, i + 1, j, n.operand))
    case Primary =>
      || PrimitiveAt(ts, i, j, n)
      || (i + 2 <= j && IsKind(ts, i, LParen) && IsKind(ts, j - 1, RParen) && Derives(OrExpr, ts, i + 1, j - 1, n))
  }

  /** The whole token list is an expression for this tree. */
  ghost predicate Expression(ts: Tokens, n: Node) {
    Derives(OrExpr, ts, 0, |ts|, n)
  }

  /** What can be written: addresses of 32 bits and ports of 16. */
  predicate WellFormed(n: Node) {
    match n
    case Proto(_) => true
    case Host(addr, _) => addr < 0x1_0000_0000
    case Port(port, _) => port <= MAX_PORT
    case Not(operand) => WellFormed(operand)
    case And(left, right) => WellFormed(left) && WellFormed(right)
    case Or(left, right) => WellFormed(left) && WellFormed(right)
  }

  lemma {:induction false} DerivedIsWellFormed(rule: Rule, ts: Tokens, i: nat, j: nat, n: Node)
    requires Derives(rule, ts, i, j, n)
    ensures WellFormed(n)
    decreases j - i, Level(rule)
  {
    match rule
    case OrExpr =>
      if Derives(AndExpr, ts, i, j, n) {
        DerivedIsWellFormed(AndExpr, ts, i, j, n);
      } else {
        var k: nat :| Joins(ts, i, k, j, "or") && Derives(OrExpr, ts, i, k, n.left) &&
          Derives(AndExpr, ts, k + 1, j, n.right);
        DerivedIsWellFormed(OrExpr, ts, i, k, n.left);
        DerivedIsWellFormed(AndExpr, ts, k + 1, j, n.right);
      }
    case AndExpr =>
      if Derives(NotExpr, ts, i, j, n) {
        DerivedIsWellFormed(NotExpr, ts, i, j, n);
      } else {
        var k: nat :| Joins(ts, i, k, j, "and") && Derives(AndExpr, ts, i, k, n.left) &&
          Derives(NotExpr, ts, k + 1, j, n.right);
        DerivedIsWellFormed(AndExpr, ts, i, k, n.left);
        DerivedIsWellFormed(NotExpr, ts, k + 1, j, n.right);
      }
    case NotExpr =>
      if Derives(Primary, ts, i, j, n) {
        DerivedIsWellFormed(Primary, ts, i, j, n);
      } else {
        DerivedIsWellFormed(NotExpr, ts, i + 1, j, n.operand);
      }
    case Primary =>
      if !PrimitiveAt(ts, i, j, n) {
        DerivedIsWellFormed(OrExpr, ts, i + 1, j - 1, n);
      }
  }
}
