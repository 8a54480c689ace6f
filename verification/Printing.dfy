/**
Trees back to text: the fewest parentheses the grammar needs, canonical numerals, and single
spaces outside them. Reading the printed text gives the tree back.
*/
module Printing {
  import opened Wrappers
  import opened Filter
  import opened Lexer
  import opened Numerals
  import opened Grammar
  import opened Parser

  function W(text: string): Tokens {
    [Token(Word, text)]
  }

  function PrintedDirection(direction: Option<Direction>): Tokens {
    match direction
    case None => []
    case Some(d) => W(DirectionWord(d))
  }

  /** The rule whose repetition or prefix the tree is an instance of. */
  function RuleOf(n: Node): Rule {
    match n
    case Or(_, _) => OrExpr
    case And(_, _) => AndExpr
    case Not(_) => NotExpr
    case _ => Primary
  }

  function Bare(n: Node): Tokens
    decreases n, 0
  {
    match n
    case Proto(name) => W(ProtocolWord(name))
    case Host(addr, direction) => PrintedDirection(direction) + W("host") + [Token(Ipv4, DottedQuad(addr))]
    case Port(port, direction) => PrintedDirection(direction) + W("port") + [Token(Number, Decimal(port))]
    case Not(operand) => W("not") + Printed(NotExpr, operand)
    case And(left, right) => Printed(AndExpr, left) + W("and") + Printed(NotExpr, right)
    case Or(left, right) => Printed(OrExpr, left) + W("or") + Printed(AndExpr, right)
  }

  /** The tree where the rule is expected: in parentheses only if the rule does not reach it. */
  function Printed(rule: Rule, n: Node): Tokens
    decreases n, 1
  {
    if Level(RuleOf(n)) <= Level(rule) then Bare(n)
    else [Token(LParen, "(")] + Bare(n) + [Token(RParen, ")")]
  }

  /** `part` stands in the token list from `i` to `j`. */
  ghost predicate Stands(ts: Tokens, i: nat, j: nat, part: Tokens) {
    i <= j <= |ts| && ts[i..j] == part
  }

  lemma StandsApart(ts: Tokens, i: nat, j: nat, first: Tokens, second: Tokens)
    requires Stands(ts, i, j, first + second)
    ensures Stands(ts, i, i + |first|, first) && Stands(ts, i + |first|, j, second)
  {
    var both := ts[i..j];
    assert both[..|first|] == first && both[|first|..] == second;
  }

  lemma StandsOne(ts: Tokens, i: nat, j: nat, t: Token)
    requires Stands(ts, i, j, [t])
    ensures j == i + 1 && ts[i] == t
  {
    assert ts[i..j][0] == t;
  }

  /** What derives by a rule derives by every looser one. */
  lemma Loosens(rule: Rule, looser: Rule, ts: Tokens, i: nat, j: nat, n: Node)
    requires Level(rule) <= Level(looser)
    ensures Derives(rule, ts, i, j, n) ==> Derives(looser, ts, i, j, n)
  {
    assert Derives(Primary, ts, i, j, n) ==> Derives(NotExpr, ts, i, j, n);
    assert Derives(NotExpr, ts, i, j, n) ==> Derives(AndExpr, ts, i, j, n);
    assert Derives(AndExpr, ts, i, j, n) ==> Derives(OrExpr, ts, i, j, n);
  }

  lemma QualifiedStands(ts: Tokens, i: nat, j: nat, direction: Option<Direction>, keyword: string, last: Token)
    requires Stands(ts, i, j, PrintedDirection(direction) + W(keyword) + [last])
    ensures Qualified(ts, i, j, direction, keyword) && ts[j - 1] == last
  {
    StandsApart(ts, i, j, PrintedDirection(direction) + W(keyword), [last]);
    StandsOne(ts, j - 1, j, last);
    StandsApart(ts, i, j - 1, PrintedDirection(direction), W(keyword));
    StandsOne(ts, j - 2, j - 1, Token(Word, keyword));
    if direction.Some? {
      StandsOne(ts, i, j - 2, Token(Word, DirectionWord(direction.value)));
    }
  }

  lemma ProtoStands(ts: Tokens, i: nat, j: nat, name: Protocol, word: string)
    requires word == ProtocolWord(name) && Stands(ts, i, j, W(word))
    ensures PrimitiveAt(ts, i, j, Proto(name))
  {
    StandsOne(ts, i, j, Token(Word, word));
  }

  lemma HostStands(ts: Tokens, i: nat, j: nat, addr: nat, direction: Option<Direction>, keyword: string, quad: string)
    requires keyword == "host" && Writes(quad, addr)
    requires Stands(ts, i, j, PrintedDirection(direction) + W(keyword) + [Token(Ipv4, quad)])
    ensures PrimitiveAt(ts, i, j, Host(addr, direction))
  {
    QualifiedStands(ts, i, j, direction, keyword, Token(Ipv4, quad));
  }

  lemma PortStands(ts: Tokens, i: nat, j: nat, port: nat, direction: Option<Direction>, keyword: string, number: string)
    requires keyword == "port" && port == Value(number) <= MAX_PORT
    requires Stands(ts, i, j, PrintedDirection(direction) + W(keyword) + [Token(Number, number)])
    ensures PrimitiveAt(ts, i, j, Port(port, direction))
  {
    QualifiedStands(ts, i, j, direction, keyword, Token(Number, number));
  }

  lemma BareOfHost(addr: nat, direction: Option<Direction>)
    ensures Bare(Host(addr, direction)) == PrintedDirection(direction) + W("host") + [Token(Ipv4, DottedQuad(addr))]
  {
  }

  lemma BareOfPort(port: nat, direction: Option<Direction>)
    ensures Bare(Port(port, direction)) == PrintedDirection(direction) + W("port") + [Token(Number, Decimal(port))]
  {
  }

  lemma PrimitiveStands(n: Node, ts: Tokens, i: nat, j: nat)
    requires WellFormed(n) && RuleOf(n) == Primary && Stands(ts, i, j, Bare(n))
    ensures PrimitiveAt(ts, i, j, n)
  {
    match n
    case Proto(name) =>
      ProtoStands(ts, i, j, name, ProtocolWord(name));
    case Host(addr, direction) =>
      BareOfHost(addr, direction);
      DottedQuadWrites(addr);
      HostStands(ts, i, j, addr, direction, "host", DottedQuad(addr));
    case Port(port, direction) =>
      BareOfPort(port, direction);
      DecimalValue(port);
      PortStands(ts, i, j, port, direction, "port", Decimal(port));
  }

  lemma PrimitiveDerives(n: Node, ts: Tokens, i: nat, j: nat)
    requires WellFormed(n) && RuleOf(n) == Primary && Stands(ts, i, j, Bare(n))
    ensures Derives(Primary, ts, i, j, n)
  {
    PrimitiveStands(n, ts, i, j);
  }

  /** Three parts with a word in the middle. */
  lemma StandsJoined(ts: Tokens, i: nat, j: nat, left: Tokens, word: string, right: Tokens) returns (k: nat)
    requires Stands(ts, i, j, left + W(word) + right)
    ensures Joins(ts, i, k, j, word) && Stands(ts, i, k, left) && Stands(ts, k + 1, j, right)
  {
    k := i + |left|;
    StandsApart(ts, i, j, left + W(word), right);
    StandsApart(ts, i, k + 1, left, W(word));
    StandsOne(ts, k, k + 1, Token(Word, word));
  }

  lemma AndDerives(left: Node, right: Node, ts: Tokens, i: nat, k: nat, j: nat)
    requires Joins(ts, i, k, j, "and") && Derives(AndExpr, ts, i, k, left) && Derives(NotExpr, ts, k + 1, j, right)
    ensures Derives(AndExpr, ts, i, j, And(left, right))
  {
  }

  lemma OrDerives(left: Node, right: Node, ts: Tokens, i: nat, k: nat, j: nat)
    requires Joins(ts, i, k, j, "or") && Derives(OrExpr, ts, i, k, left) && Derives(AndExpr, ts, k + 1, j, right)
    ensures Derives(OrExpr, ts, i, j, Or(left, right))
  {
  }

  lemma {:induction false} BareDerives(n: Node, ts: Tokens, i: nat, j: nat)
    requires WellFormed(n) && Stands(ts, i, j, Bare(n))
    ensures Derives(RuleOf(n), ts, i, j, n)
    decreases n, 0
  {
    match n
    case Not(operand) =>
      StandsApart(ts, i, j, W("not"), Printed(NotExpr, operand));
      StandsOne(ts, i, i + 1, Token(Word, "not"));
      PrintedDerives(NotExpr, operand, ts, i + 1, j);
    case And(left, right) =>
      BareOfAnd(left, right);
      var k := StandsJoined(ts, i, j, Printed(AndExpr, left), "and", Printed(NotExpr, right));
      PrintedDerives(AndExpr, left, ts, i, k);
      PrintedDerives(NotExpr, right, ts, k + 1, j);
      AndDerives(left, right, ts, i, k, j);
    case Or(left, right) =>
      BareOfOr(left, right);
      var k := StandsJoined(ts, i, j, Printed(OrExpr, left), "or", Printed(AndExpr, right));
      PrintedDerives(OrExpr, left, ts, i, k);
      PrintedDerives(AndExpr, right, ts, k + 1, j);
      OrDerives(left, right, ts, i, k, j);
    case _ =>
      PrimitiveDerives(n, ts, i, j);
  }

  /** A printed tree derives, wherever it stands, by the rule it was printed for. */
  lemma {:induction false} PrintedDerives(rule: Rule, n: Node, ts: Tokens, i: nat, j: nat)
    requires WellFormed(n) && Stands(ts, i, j, Printed(rule, n))
    ensures Derives(rule, ts, i, j, n)
    decreases n, 1
  {
    if Level(RuleOf(n)) <= Level(rule) {
      BareDerives(n, ts, i, j);
      Loosens(RuleOf(n), rule, ts, i, j, n);
    } else {
      StandsApart(ts, i, j, [Token(LParen, "(")] + Bare(n), [Token(RParen, ")")]);
      StandsApart(ts, i, j - 1, [Token(LParen, "(")], Bare(n));
      StandsOne(ts, i, i + 1, Token(LParen, "("));
      StandsOne(ts, j - 1, j, Token(RParen, ")"));
      BareDerives(n, ts, i + 1, j - 1);
      Loosens(RuleOf(n), OrExpr, ts, i + 1, j - 1, n);
      assert Derives(Primary, ts, i, j, n);
      Loosens(Primary, rule, ts, i, j, n);
    }
  }

  lemma GenuineJoins(a: Tokens, b: Tokens, c: Tokens)
    requires Genuine(a) && Genuine(b) && Genuine(c)
    ensures Genuine(a + b) && Genuine(a + b + c)
  {
  }

  lemma ProtocolsAreGenuine(name: Protocol)
    ensures Genuine(W(ProtocolWord(name)))
  {
  }

  lemma WordsAreGenuine(direction: Option<Direction>)
    ensures Genuine(PrintedDirection(direction))
    ensures Genuine(W("host")) && Genuine(W("port")) && Genuine(W("not")) && Genuine(W("and")) && Genuine(W("or"))
  {
  }

  lemma PrimitiveIsGenuine(n: Node)
    requires WellFormed(n) && RuleOf(n) == Primary
    ensures Genuine(Bare(n))
  {
    match n
    case Proto(name) =>
      ProtocolsAreGenuine(name);
    case Host(addr, direction) =>
      WordsAreGenuine(direction);
      DottedQuadWrites(addr);
      GenuineJoins(PrintedDirection(direction), W("host"), [Token(Ipv4, DottedQuad(addr))]);
    case Port(port, direction) =>
      WordsAreGenuine(direction);
      GenuineJoins(PrintedDirection(direction), W("port"), [Token(Number, Decimal(port))]);
  }

  lemma {:induction false} BareIsGenuine(n: Node)
    requires WellFormed(n)
    ensures Genuine(Bare(n))
    decreases n, 0
  {
    WordsAreGenuine(None);
    match n
    case Not(operand) =>
      PrintedIsGenuine(NotExpr, operand);
      GenuineJoins(W("not"), Printed(NotExpr, operand), []);
    case And(left, right) =>
      PrintedIsGenuine(AndExpr, left);
      PrintedIsGenuine(NotExpr, right);
      GenuineJoins(Printed(AndExpr, left), W("and"), Printed(NotExpr, right));
    case Or(left, right) =>
      PrintedIsGenuine(OrExpr, left);
      PrintedIsGenuine(AndExpr, right);
      GenuineJoins(Printed(OrExpr, left), W("or"), Printed(AndExpr, right));
    case _ =>
      PrimitiveIsGenuine(n);
  }

  lemma {:induction false} PrintedIsGenuine(rule: Rule, n: Node)
    requires WellFormed(n)
    ensures Genuine(Printed(rule, n))
    decreases n, 1
  {
    BareIsGenuine(n);
    GenuineJoins([Token(LParen, "(")], Bare(n), [Token(RParen, ")")]);
  }

  // The same as text.

  function DirectionText(direction: Option<Direction>): string {
    match direction
    case None => []
    case Some(d) => DirectionWord(d) + " "
  }

  function BareText(n: Node): string
    decreases n, 0
  {
    match n
    case Proto(name) => ProtocolWord(name)
    case Host(addr, direction) => DirectionText(direction) + "host " + DottedQuad(addr)
    case Port(port, direction) => DirectionText(direction) + "port " + Decimal(port)
    case Not(operand) => "not " + TextOf(NotExpr, operand)
    case And(left, right) => TextOf(AndExpr, left) + " and " + TextOf(NotExpr, right)
    case Or(left, right) => TextOf(OrExpr, left) + " or " + TextOf(AndExpr, right)
  }

  function TextOf(rule: Rule, n: Node): string
    decreases n, 1
  {
    if Level(RuleOf(n)) <= Level(rule) then BareText(n) else "(" + BareText(n) + ")"
  }

  /** The canonical text of a tree. */
  function Canonical(n: Node): string {
    TextOf(OrExpr, n)
  }

  /** No parenthesis that would take a space from its neighbour. */
  ghost predicate Free(ts: Tokens) {
    ts != [] && !ts[|ts| - 1].kind.LParen? && !ts[0].kind.RParen?
  }

  lemma {:induction false} JoinedTwo(a: Tokens, b: Tokens)
    requires a != [] && b != []
    ensures Joined(true, a + b) == Joined(true, a) + Gap(true, a[|a| - 1], b[0]) + Joined(true, b)
    decreases |a|
  {
    var gap, more := Gap(true, a[|a| - 1], b[0]), Joined(true, b);
    if |a| == 1 {
      assert (a + b)[1..] == b;
      assert a[0].text + gap + more == a[0].text + (gap + more);
    } else {
      assert (a + b)[1..] == a[1..] + b;
      JoinedTwo(a[1..], b);
      Assoc(a[0].text, Gap(true, a[0], a[1]), Joined(true, a[1..]), gap, more);
    }
  }

  lemma Assoc(a: string, b: string, c: string, d: string, e: string)
    ensures a + (b + (c + d + e)) == a + (b + c) + d + e
  {
  }

  lemma JoinedFree(a: Tokens, b: Tokens)
    requires Free(a) && Free(b)
    ensures Free(a + b) && Joined(true, a + b) == Joined(true, a) + " " + Joined(true, b)
  {
    JoinedTwo(a, b);
  }

  lemma JoinedParentheses(a: Tokens)
    requires Free(a)
    ensures var open, close := Token(LParen, "("), Token(RParen, ")");
            Free([open] + a + [close]) && Joined(true, [open] + a + [close]) == "(" + Joined(true, a) + ")"
  {
    var open, close := Token(LParen, "("), Token(RParen, ")");
    JoinedTwo([open], a);
    JoinedOpen(open, a);
    JoinedTwo([open] + a, [close]);
    JoinedClose([open] + a, close);
  }

  lemma JoinedOpen(open: Token, a: Tokens)
    requires a != [] && open.kind.LParen?
    requires Joined(true, [open] + a) == Joined(true, [open]) + Gap(true, open, a[0]) + Joined(true, a)
    ensures Joined(true, [open] + a) == open.text + Joined(true, a)
  {
    assert Joined(true, [open]) == open.text;
    assert open.text + [] == open.text;
  }

  lemma JoinedClose(a: Tokens, close: Token)
    requires a != [] && close.kind.RParen?
    requires Joined(true, a + [close]) == Joined(true, a) + Gap(true, a[|a| - 1], close) + Joined(true, [close])
    ensures Joined(true, a + [close]) == Joined(true, a) + close.text
  {
    assert Joined(true, [close]) == close.text;
    assert Joined(true, a) + [] == Joined(true, a);
  }

  lemma JoinedWord(text: string)
    ensures Free(W(text)) && Joined(true, W(text)) == text
  {
  }

  lemma WordAssociates(a: string, word: string, b: string, between: string)
    requires between == " " + word + " "
    ensures a + " " + word + " " + b == a + between + b
  {
  }

  /** Three parts with a word in the middle, as text. */
  lemma JoinedAround(a: Tokens, word: string, b: Tokens, between: string)
    requires Free(a) && Free(b) && between == " " + word + " "
    ensures Free(a + W(word) + b)
    ensures Joined(true, a + W(word) + b) == Joined(true, a) + between + Joined(true, b)
  {
    JoinedWord(word);
    JoinedFree(a, W(word));
    JoinedFree(a + W(word), b);
    WordAssociates(Joined(true, a), word, Joined(true, b), between);
  }

  lemma QualifiedText(direction: Option<Direction>, keyword: string, spaced: string, last: Token)
    requires !last.kind.LParen? && !last.kind.RParen? && spaced == keyword + " "
    ensures var ts := PrintedDirection(direction) + W(keyword) + [last];
            Free(ts) && Joined(true, ts) == DirectionText(direction) + spaced + last.text
  {
    JoinedWord(keyword);
    JoinedFree(W(keyword), [last]);
    match direction
    case None =>
      assert PrintedDirection(None) + W(keyword) + [last] == W(keyword) + [last];
    case Some(d) =>
      JoinedAround(W(DirectionWord(d)), keyword, [last], " " + keyword + " ");
      assert DirectionWord(d) + (" " + keyword + " ") == DirectionWord(d) + " " + spaced;
  }

  lemma TextOfPrimitive(value: nat, direction: Option<Direction>)
    ensures BareText(Host(value, direction)) == DirectionText(direction) + "host " + DottedQuad(value)
    ensures BareText(Port(value, direction)) == DirectionText(direction) + "port " + Decimal(value)
  {
  }

  lemma PrimitiveJoins(n: Node)
    requires RuleOf(n) == Primary
    ensures Free(Bare(n)) && Joined(true, Bare(n)) == BareText(n)
  {
    match n
    case Proto(name) =>
      JoinedWord(ProtocolWord(name));
    case Host(addr, direction) =>
      BareOfHost(addr, direction);
      TextOfPrimitive(addr, direction);
      QualifiedText(direction, "host", "host ", Token(Ipv4, DottedQuad(addr)));
    case Port(port, direction) =>
      BareOfPort(port, direction);
      TextOfPrimitive(port, direction);
      QualifiedText(direction, "port", "port ", Token(Number, Decimal(port)));
  }

  lemma NotJoins(operand: Node, ts: Tokens)
    requires ts == Printed(NotExpr, operand)
    requires Free(ts) && Joined(true, ts) == TextOf(NotExpr, operand)
    ensures Free(Bare(Not(operand))) && Joined(true, Bare(Not(operand))) == BareText(Not(operand))
  {
    JoinedWord("not");
    JoinedFree(W("not"), ts);
    assert "not" + " " == "not ";
  }

  lemma BareOfAnd(left: Node, right: Node)
    ensures Bare(And(left, right)) == Printed(AndExpr, left) + W("and") + Printed(NotExpr, right)
    ensures BareText(And(left, right)) == TextOf(AndExpr, left) + " and " + TextOf(NotExpr, right)
  {
  }

  lemma BareOfOr(left: Node, right: Node)
    ensures Bare(Or(left, right)) == Printed(OrExpr, left) + W("or") + Printed(AndExpr, right)
    ensures BareText(Or(left, right)) == TextOf(OrExpr, left) + " or " + TextOf(AndExpr, right)
  {
  }

  lemma AndJoins(left: Node, right: Node, l: Tokens, r: Tokens)
    requires l == Printed(AndExpr, left) && r == Printed(NotExpr, right) && Free(l) && Free(r)
    requires Joined(true, l) == TextOf(AndExpr, left) && Joined(true, r) == TextOf(NotExpr, right)
    ensures Free(Bare(And(left, right))) && Joined(true, Bare(And(left, right))) == BareText(And(left, right))
  {
    BareOfAnd(left, right);
    BlankAround("and", " and ");
    JoinedAround(l, "and", r, " and ");
  }

  lemma BlankAround(word: string, between: string)
    requires (word == "and" && between == " and ") || (word == "or" && between == " or ")
    ensures between == " " + word + " "
  {
  }

  lemma OrJoins(left: Node, right: Node, l: Tokens, r: Tokens)
    requires l == Printed(OrExpr, left) && r == Printed(AndExpr, right) && Free(l) && Free(r)
    requires Joined(true, l) == TextOf(OrExpr, left) && Joined(true, r) == TextOf(AndExpr, right)
    ensures Free(Bare(Or(left, right))) && Joined(true, Bare(Or(left, right))) == BareText(Or(left, right))
  {
    BareOfOr(left, right);
    BlankAround("or", " or ");
    JoinedAround(l, "or", r, " or ");
  }

  lemma {:induction false} BareJoins(n: Node)
    ensures Free(Bare(n)) && Joined(true, Bare(n)) == BareText(n)
    decreases n, 0
  {
    match n
    case Not(operand) =>
      PrintedJoins(NotExpr, operand);
      NotJoins(operand, Printed(NotExpr, operand));
    case And(left, right) =>
      PrintedJoins(AndExpr, left);
      PrintedJoins(NotExpr, right);
      AndJoins(left, right, Printed(AndExpr, left), Printed(NotExpr, right));
    case Or(left, right) =>
      PrintedJoins(OrExpr, left);
      PrintedJoins(AndExpr, right);
      OrJoins(left, right, Printed(OrExpr, left), Printed(AndExpr, right));
    case _ =>
      PrimitiveJoins(n);
  }

  /** The printed tokens, joined, are the text. */
  lemma {:induction false} PrintedJoins(rule: Rule, n: Node)
    ensures Free(Printed(rule, n)) && Joined(true, Printed(rule, n)) == TextOf(rule, n)
    decreases n, 1
  {
    BareJoins(n);
    if Level(RuleOf(n)) > Level(rule) {
      JoinedParentheses(Bare(n));
    }
  }

  /** Every well-formed tree is what its canonical tokens parse to. */
  lemma PrintedParses(n: Node)
    requires WellFormed(n)
    ensures Genuine(Printed(OrExpr, n)) && Parse(Printed(OrExpr, n)) == Success(n)
  {
    var ts := Printed(OrExpr, n);
    PrintedIsGenuine(OrExpr, n);
    assert ts[0..|ts|] == ts;
    PrintedDerives(OrExpr, n, ts, 0, |ts|);
    ParsesExactly(ts, n);
  }

  /** And its canonical text lexes to those tokens. */
  lemma CanonicalReads(n: Node)
    requires WellFormed(n)
    ensures Lexed(Canonical(n)) == Success(Printed(OrExpr, n))
    ensures Parse(Printed(OrExpr, n)) == Success(n)
  {
    PrintedParses(n);
    PrintedJoins(OrExpr, n);
    JoinedLexes(true, Printed(OrExpr, n));
  }
}
