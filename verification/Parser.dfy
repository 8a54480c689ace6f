/**
The recursive-descent parser. Its functions say what it does from every position; the class runs
them with a position that advances, as the methods of the original do. It accepts exactly the
token lists that derive from the grammar, and finds their only tree.
*/
module Parser {
  import opened Wrappers
  import opened Filter
  import opened Lexer
  import opened Numerals
  import opened Grammar

  datatype SyntaxError =
    | Unexpected(text: string)
    | UnclosedParenthesis
    | NothingAfter(direction: Direction)
    | NoPrimitive
    | UnknownPrimitive(text: string)
    | NotAPrimitive(text: string)
    | NoAddress
    | BadAddress(text: string)
    | NoPort
    | PortOutOfRange(port: nat)

  /** A tree, and the position after the tokens it was read from. */
  datatype Parsed = Parsed(node: Node, next: nat)

  type Reading = Result<Parsed, SyntaxError>

  function ProtocolOf(text: string): Option<Protocol> {
    if text == "tcp" then Some(Tcp)
    else if text == "udp" then Some(Udp)
    else if text == "icmp" then Some(Icmp)
    else if text == "arp" then Some(Arp)
    else if text == "ip" then Some(Ip)
    else if text == "ip6" then Some(Ip6)
    else None
  }

  predicate Keyword(text: string) {
    || ProtocolOf(text).Some?
    || text in ["host", "port", "src", "dst", "and", "or", "not"]
  }

  function ReadAddress(ts: Tokens, i: nat): Result<nat, SyntaxError> {
    if !IsKind(ts, i, Ipv4) then Failure(NoAddress)
    else
      match Address(ts[i].text)
      case None => Failure(BadAddress(ts[i].text))
      case Some(addr) => Success(addr)
  }

  function ReadPort(ts: Tokens, i: nat): Result<nat, SyntaxError> {
    if !IsKind(ts, i, Number) then Failure(NoPort)
    else if Value(ts[i].text) > MAX_PORT then Failure(PortOutOfRange(Value(ts[i].text)))
    else Success(Value(ts[i].text))
  }

  function ReadDirection(ts: Tokens, i: nat): Option<Direction> {
    if IsWord(ts, i, "src") then Some(Src)
    else if IsWord(ts, i, "dst") then Some(Dst)
    else None
  }

  function ReadPrimitive(ts: Tokens, i: nat): (r: Reading)
    requires i <= |ts|
    ensures r.Success? ==> i < r.value.next <= |ts|
  {
    var direction := ReadDirection(ts, i);
    var at := if direction.Some? then i + 1 else i;
    if at >= |ts| then Failure(if direction.Some? then NothingAfter(direction.value) else NoPrimitive)
    else
      var token := ts[at];
      if direction.None? && token.kind.Word? && ProtocolOf(token.text).Some? then
        Success(Parsed(Proto(ProtocolOf(token.text).value), at + 1))
      else if IsWord(ts, at, "host") then
        var addr :- ReadAddress(ts, at + 1);
        Success(Parsed(Host(addr, direction), at + 2))
      else if IsWord(ts, at, "port") then
        var port :- ReadPort(ts, at + 1);
        Success(Parsed(Port(port, direction), at + 2))
      else if token.kind.Word? && !Keyword(token.text) then Failure(UnknownPrimitive(token.text))
      else Failure(NotAPrimitive(token.text))
  }

  function ReadPrimary(ts: Tokens, i: nat): (r: Reading)
    requires i <= |ts|
    ensures r.Success? ==> i < r.value.next <= |ts|
    decreases |ts| - i, 0
  {
    if IsKind(ts, i, LParen) then
      var inner :- ReadOr(ts, i + 1);
      if IsKind(ts, inner.next, RParen) then Success(Parsed(inner.node, inner.next + 1))
      else Failure(UnclosedParenthesis)
    else ReadPrimitive(ts, i)
  }

  function ReadNot(ts: Tokens, i: nat): (r: Reading)
    requires i <= |ts|
    ensures r.Success? ==> i < r.value.next <= |ts|
    decreases |ts| - i, 1
  {
    if IsWord(ts, i, "not") then
      var operand :- ReadNot(ts, i + 1);
      Success(Parsed(Not(operand.node), operand.next))
    else ReadPrimary(ts, i)
  }

  function ReadAnd(ts: Tokens, i: nat): (r: Reading)
    requires i <= |ts|
    ensures r.Success? ==> i < r.value.next <= |ts|
    decreases |ts| - i, 3
  {
    var first :- ReadNot(ts, i);
    MoreAnd(ts, first.node, first.next)
  }

  /** What follows a complete operand of `and`. */
  function MoreAnd(ts: Tokens, node: Node, i: nat): (r: Reading)
    requires i <= |ts|
    ensures r.Success? ==> i <= r.value.next <= |ts|
    decreases |ts| - i, 2
  {
    if IsWord(ts, i, "and") then
      var right :- ReadNot(ts, i + 1);
      MoreAnd(ts, And(node, right.node), right.next)
    else Success(Parsed(node, i))
  }

  function ReadOr(ts: Tokens, i: nat): (r: Reading)
    requires i <= |ts|
    ensures r.Success? ==> i < r.value.next <= |ts|
    decreases |ts| - i, 5
  {
    var first :- ReadAnd(ts, i);
    MoreOr(ts, first.node, first.next)
  }

  function MoreOr(ts: Tokens, node: Node, i: nat): (r: Reading)
    requires i <= |ts|
    ensures r.Success? ==> i <= r.value.next <= |ts|
    decreases |ts| - i, 4
  {
    if IsWord(ts, i, "or") then
      var right :- ReadAnd(ts, i + 1);
      MoreOr(ts, Or(node, right.node), right.next)
    else Success(Parsed(node, i))
  }

  function Parse(ts: Tokens): Result<Node, SyntaxError> {
    var whole :- ReadOr(ts, 0);
    if whole.next == |ts| then Success(whole.node) else Failure(Unexpected(ts[whole.next].text))
  }

  /** A method's answer and the position it leaves are what the function says. */
  predicate Agrees(r: Result<Node, SyntaxError>, pos: nat, reading: Reading) {
    match reading
    case Success(p) => r == Success(p.node) && pos == p.next
    case Failure(e) => r == Failure(e)
  }

  class Descent {
    const tokens: Tokens
    var pos: nat

    ghost predicate Valid()
      reads this
    {
      pos <= |tokens|
    }

    constructor (tokens: Tokens)
      ensures Valid() && this.tokens == tokens && pos == 0
    {
      this.tokens := tokens;
      pos := 0;
    }

    method ParseAll() returns (r: Result<Node, SyntaxError>)
      requires Valid() && pos == 0
      modifies this
      ensures r == Parse(tokens)
    {
      var node :- OrExpression();
      if pos != |tokens| {
        return Failure(Unexpected(tokens[pos].text));
      }
      return Success(node);
    }

    /** Takes the next token if it is this word. */
    method MatchWord(word: string) returns (matched: bool)
      requires Valid()
      modifies this
      ensures Valid() && matched == IsWord(tokens, old(pos), word)
      ensures pos == if matched then old(pos) + 1 else old(pos)
    {
      matched := IsWord(tokens, pos, word);
      if matched {
        pos := pos + 1;
      }
    }

    method OrExpression() returns (r: Result<Node, SyntaxError>)
      requires Valid()
      modifies this
      ensures Valid() && Agrees(r, pos, ReadOr(tokens, old(pos)))
      decreases |tokens| - pos, 5
    {
      ghost var start := pos;
      var node :- AndExpression();
      var more := MatchWord("or");
      while more
        invariant Valid() && pos > start && (more ==> IsWord(tokens, pos - 1, "or"))
        invariant ReadOr(tokens, start) == MoreOr(tokens, node, if more then pos - 1 else pos)
        invariant !more ==> !IsWord(tokens, pos, "or")
        decreases |tokens| - pos, more
      {
        var right :- AndExpression();
        node := Or(node, right);
        more := MatchWord("or");
      }
      return Success(node);
    }

    method AndExpression() returns (r: Result<Node, SyntaxError>)
      requires Valid()
      modifies this
      ensures Valid() && Agrees(r, pos, ReadAnd(tokens, old(pos)))
      decreases |tokens| - pos, 3
    {
      ghost var start := pos;
      var node :- NotExpression();
      var more := MatchWord("and");
      while more
        invariant Valid() && pos > start && (more ==> IsWord(tokens, pos - 1, "and"))
        invariant ReadAnd(tokens, start) == MoreAnd(tokens, node, if more then pos - 1 else pos)
        invariant !more ==> !IsWord(tokens, pos, "and")
        decreases |tokens| - pos, more
      {
        var right :- NotExpression();
        node := And(node, right);
        more := MatchWord("and");
      }
      return Success(node);
    }

    method NotExpression() returns (r: Result<Node, SyntaxError>)
      requires Valid()
      modifies this
      ensures Valid() && Agrees(r, pos, ReadNot(tokens, old(pos)))
      decreases |tokens| - pos, 1
    {
      var negated := MatchWord("not");
      if negated {
        var operand :- NotExpression();
        return Success(Not(operand));
      }
      r := PrimaryExpression();
    }

    method PrimaryExpression() returns (r: Result<Node, SyntaxError>)
      requires Valid()
      modifies this
      ensures Valid() && Agrees(r, pos, ReadPrimary(tokens, old(pos)))
      decreases |tokens| - pos, 0
    {
      if IsKind(tokens, pos, LParen) {
        pos := pos + 1;
        var node :- OrExpression();
        if !IsKind(tokens, pos, RParen) {
          return Failure(UnclosedParenthesis);
        }
        pos := pos + 1;
        return Success(node);
      }
      r := Primitive();
    }

    method Primitive() returns (r: Result<Node, SyntaxError>)
      requires Valid()
      modifies this
      ensures Valid() && Agrees(r, pos, ReadPrimitive(tokens, old(pos)))
    {
      var direction: Option<Direction> := None;
      var matched := MatchWord("src");
      if matched {
        direction := Some(Src);
      } else {
        matched := MatchWord("dst");
        if matched {
          direction := Some(Dst);
        }
      }
      if pos >= |tokens| {
        return Failure(if direction.Some? then NothingAfter(direction.value) else NoPrimitive);
      }
      var token := tokens[pos];
      if direction.None? && token.kind.Word? && ProtocolOf(token.text).Some? {
        pos := pos + 1;
        return Success(Proto(ProtocolOf(token.text).value));
      }
      matched := MatchWord("host");
      if matched {
        var addr :- ParseIpv4();
        return Success(Host(addr, direction));
      }
      matched := MatchWord("port");
      if matched {
        var port :- ParsePort();
        return Success(Port(port, direction));
      }
      if token.kind.Word? && !Keyword(token.text) {
        return Failure(UnknownPrimitive(token.text));
      }
      return Failure(NotAPrimitive(token.text));
    }

    method ParseIpv4() returns (r: Result<nat, SyntaxError>)
      requires Valid()
      modifies this
      ensures Valid() && r == ReadAddress(tokens, old(pos))
      ensures r.Success? ==> pos == old(pos) + 1
    {
      if !IsKind(tokens, pos, Ipv4) {
        return Failure(NoAddress);
      }
      var text := tokens[pos].text;
      pos := pos + 1;
      var octets := Values(Split(text));
      if exists o | o in octets :: o > 255 {
        return Failure(BadAddress(text));
      }
      var value := 0;
      for i := 0 to |octets|
        invariant Folded(0, octets) == Folded(value, octets[i..])
      {
        value := Bytes.BitOr(value * 256, octets[i]);
        assert octets[i..][1..] == octets[i + 1..];
      }
      return Success(value);
    }

    method ParsePort() returns (r: Result<nat, SyntaxError>)
      requires Valid()
      modifies this
      ensures Valid() && r == ReadPort(tokens, old(pos))
      ensures r.Success? ==> pos == old(pos) + 1
    {
      if !IsKind(tokens, pos, Number) {
        return Failure(NoPort);
      }
      var port := Value(tokens[pos].text);
      pos := pos + 1;
      if port > MAX_PORT {
        return Failure(PortOutOfRange(port));
      }
      return Success(port);
    }
  }

  // Soundness: what is read derives from the grammar.

  /** The direction read, and the keyword behind it, make a qualified primitive of three or two tokens. */
  lemma ReadsQualified(ts: Tokens, i: nat, at: nat, keyword: string)
    requires at == (if ReadDirection(ts, i).Some? then i + 1 else i) && IsWord(ts, at, keyword)
    ensures Qualified(ts, i, at + 2, ReadDirection(ts, i), keyword)
  {
  }

  lemma AddressSound(ts: Tokens, i: nat)
    requires Genuine(ts) && ReadAddress(ts, i).Success?
    ensures IsKind(ts, i, Ipv4) && Writes(ts[i].text, ReadAddress(ts, i).value)
  {
    assert ts[i] in ts;
    AddressIff(ts[i].text, ReadAddress(ts, i).value);
  }

  lemma WordSound(ts: Tokens, i: nat)
    requires i < |ts| && ts[i].kind.Word? && ProtocolOf(ts[i].text).Some?
    ensures IsWord(ts, i, ProtocolWord(ProtocolOf(ts[i].text).value))
  {
  }

  /** Which primitive is read, if one is. */
  lemma ReadsWhich(ts: Tokens, i: nat, at: nat)
    requires i <= |ts| && at == (if ReadDirection(ts, i).Some? then i + 1 else i) && ReadPrimitive(ts, i).Success?
    ensures var p, d := ReadPrimitive(ts, i).value, ReadDirection(ts, i);
            || (at == i < |ts| && ts[i].kind.Word? && ProtocolOf(ts[i].text).Some?
                && p == Parsed(Proto(ProtocolOf(ts[i].text).value), i + 1))
            || (IsWord(ts, at, "host") && ReadAddress(ts, at + 1).Success?
                && p == Parsed(Host(ReadAddress(ts, at + 1).value, d), at + 2))
            || (IsWord(ts, at, "port") && ReadPort(ts, at + 1).Success?
                && p == Parsed(Port(ReadPort(ts, at + 1).value, d), at + 2))
  {
  }

  lemma PrimitiveSound(ts: Tokens, i: nat)
    requires Genuine(ts) && i <= |ts|
    ensures var r := ReadPrimitive(ts, i);
            r.Success? ==> PrimitiveAt(ts, i, r.value.next, r.value.node)
  {
    var r, at := ReadPrimitive(ts, i), if ReadDirection(ts, i).Some? then i + 1 else i;
    if r.Success? {
      ReadsWhich(ts, i, at);
      match r.value.node
      case Proto(_) =>
        WordSound(ts, i);
      case Host(_, _) =>
        ReadsQualified(ts, i, at, "host");
        AddressSound(ts, at + 1);
      case Port(_, _) =>
        ReadsQualified(ts, i, at, "port");
    }
  }

  lemma {:induction false} PrimarySound(ts: Tokens, i: nat)
    requires Genuine(ts) && i <= |ts|
    ensures var r := ReadPrimary(ts, i);
            r.Success? ==> Derives(Primary, ts, i, r.value.next, r.value.node)
    decreases |ts| - i, 0
  {
    if IsKind(ts, i, LParen) {
      OrSound(ts, i + 1);
    } else {
      PrimitiveSound(ts, i);
    }
  }

  lemma {:induction false} NotSound(ts: Tokens, i: nat)
    requires Genuine(ts) && i <= |ts|
    ensures var r := ReadNot(ts, i);
            r.Success? ==> Derives(NotExpr, ts, i, r.value.next, r.value.node)
    decreases |ts| - i, 1
  {
    if IsWord(ts, i, "not") {
      NotSound(ts, i + 1);
    } else {
      PrimarySound(ts, i);
    }
  }

  lemma {:induction false} AndSound(ts: Tokens, i: nat)
    requires Genuine(ts) && i <= |ts|
    ensures var r := ReadAnd(ts, i);
            r.Success? ==> Derives(AndExpr, ts, i, r.value.next, r.value.node)
    decreases |ts| - i, 3
  {
    NotSound(ts, i);
    var first := ReadNot(ts, i);
    if first.Success? {
      MoreAndSound(ts, i, first.value.node, first.value.next);
    }
  }

  lemma {:induction false} MoreAndSound(ts: Tokens, start: nat, node: Node, i: nat)
    requires Genuine(ts) && start < i <= |ts| && Derives(AndExpr, ts, start, i, node)
    ensures var r := MoreAnd(ts, node, i);
            r.Success? ==> Derives(AndExpr, ts, start, r.value.next, r.value.node)
    decreases |ts| - i, 2
  {
    if IsWord(ts, i, "and") {
      NotSound(ts, i + 1);
      var right := ReadNot(ts, i + 1);
      if right.Success? {
        assert Joins(ts, start, i, right.value.next, "and");
        MoreAndSound(ts, start, And(node, right.value.node), right.value.next);
      }
    }
  }

  lemma {:induction false} OrSound(ts: Tokens, i: nat)
    requires Genuine(ts) && i <= |ts|
    ensures var r := ReadOr(ts, i);
            r.Success? ==> Derives(OrExpr, ts, i, r.value.next, r.value.node)
    decreases |ts| - i, 5
  {
    AndSound(ts, i);
    var first := ReadAnd(ts, i);
    if first.Success? {
      MoreOrSound(ts, i, first.value.node, first.value.next);
    }
  }

  lemma {:induction false} MoreOrSound(ts: Tokens, start: nat, node: Node, i: nat)
    requires Genuine(ts) && start < i <= |ts| && Derives(OrExpr, ts, start, i, node)
    ensures var r := MoreOr(ts, node, i);
            r.Success? ==> Derives(OrExpr, ts, start, r.value.next, r.value.node)
    decreases |ts| - i, 4
  {
    if IsWord(ts, i, "or") {
      AndSound(ts, i + 1);
      var right := ReadAnd(ts, i + 1);
      if right.Success? {
        assert Joins(ts, start, i, right.value.next, "or");
        MoreOrSound(ts, start, Or(node, right.value.node), right.value.next);
      }
    }
  }

  // Completeness: what derives from the grammar is read, and as that tree.

  lemma ProtocolWords(name: Protocol)
    ensures ProtocolOf(ProtocolWord(name)) == Some(name)
    ensures ProtocolWord(name) != "src" && ProtocolWord(name) != "dst"
  {
  }

  lemma QualifiedReads(ts: Tokens, i: nat, j: nat, direction: Option<Direction>, keyword: string)
    requires Qualified(ts, i, j, direction, keyword) && (keyword == "host" || keyword == "port") && j <= |ts|
    ensures ReadDirection(ts, i) == direction && i + 2 <= j
    ensures var at := if direction.Some? then i + 1 else i;
            at + 2 == j && IsWord(ts, at, keyword) && ProtocolOf(ts[at].text) == None
  {
    assert keyword[0] != 's' && keyword[0] != 'd';
  }

  lemma ProtoComplete(ts: Tokens, i: nat, name: Protocol)
    requires IsWord(ts, i, ProtocolWord(name))
    ensures ReadPrimitive(ts, i) == Success(Parsed(Proto(name), i + 1))
  {
    ProtocolWords(name);
  }

  lemma HostComplete(ts: Tokens, i: nat, j: nat, direction: Option<Direction>, addr: nat)
    requires j <= |ts| && Qualified(ts, i, j, direction, "host")
    requires IsKind(ts, j - 1, Ipv4) && Address(ts[j - 1].text) == Some(addr)
    ensures i < j && ReadPrimitive(ts, i) == Success(Parsed(Host(addr, direction), j))
  {
    QualifiedReads(ts, i, j, direction, "host");
  }

  lemma PortComplete(ts: Tokens, i: nat, j: nat, direction: Option<Direction>, port: nat)
    requires j <= |ts| && Qualified(ts, i, j, direction, "port")
    requires IsKind(ts, j - 1, Number) && port == Value(ts[j - 1].text) <= MAX_PORT
    ensures i < j && ReadPrimitive(ts, i) == Success(Parsed(Port(port, direction), j))
  {
    QualifiedReads(ts, i, j, direction, "port");
    assert "host"[0] != "port"[0];
  }

  lemma PrimitiveComplete(ts: Tokens, i: nat, j: nat, n: Node)
    requires Genuine(ts) && PrimitiveAt(ts, i, j, n)
    ensures i < j && ReadPrimitive(ts, i) == Success(Parsed(n, j))
  {
    match n
    case Proto(name) =>
      ProtoComplete(ts, i, name);
    case Host(addr, direction) =>
      assert ts[j - 1] in ts;
      AddressIff(ts[j - 1].text, addr);
      HostComplete(ts, i, j, direction, addr);
    case Port(port, direction) =>
      PortComplete(ts, i, j, direction, port);
  }

  lemma {:induction false} PrimaryComplete(ts: Tokens, i: nat, j: nat, n: Node)
    requires Genuine(ts) && Derives(Primary, ts, i, j, n)
    ensures i < j && ReadPrimary(ts, i) == Success(Parsed(n, j))
    decreases j - i, 0
  {
    if PrimitiveAt(ts, i, j, n) {
      PrimitiveComplete(ts, i, j, n);
    } else {
      OrReaches(ts, i + 1, j - 1, n);
    }
  }

  lemma {:induction false} NotComplete(ts: Tokens, i: nat, j: nat, n: Node)
    requires Genuine(ts) && Derives(NotExpr, ts, i, j, n)
    ensures i < j && ReadNot(ts, i) == Success(Parsed(n, j))
    decreases j - i, 1
  {
    if Derives(Primary, ts, i, j, n) {
      PrimaryComplete(ts, i, j, n);
    } else {
      NotComplete(ts, i + 1, j, n.operand);
    }
  }

  /** Reading `and_expr` gets to the end of every span that derives it, and goes on from there. */
  lemma {:induction false} AndReaches(ts: Tokens, i: nat, j: nat, n: Node)
    requires Genuine(ts) && Derives(AndExpr, ts, i, j, n)
    ensures i < j && ReadAnd(ts, i) == MoreAnd(ts, n, j)
    decreases j - i, 2
  {
    if Derives(NotExpr, ts, i, j, n) {
      NotComplete(ts, i, j, n);
    } else {
      var k: nat :| Joins(ts, i, k, j, "and") && Derives(AndExpr, ts, i, k, n.left) &&
        Derives(NotExpr, ts, k + 1, j, n.right);
      AndReaches(ts, i, k, n.left);
      NotComplete(ts, k + 1, j, n.right);
    }
  }

  lemma {:induction false} OrReaches(ts: Tokens, i: nat, j: nat, n: Node)
    requires Genuine(ts) && Derives(OrExpr, ts, i, j, n) && !IsWord(ts, j, "and")
    ensures i < j && ReadOr(ts, i) == MoreOr(ts, n, j)
    decreases j - i, 3
  {
    if Derives(AndExpr, ts, i, j, n) {
      AndReaches(ts, i, j, n);
    } else {
      var k: nat :| Joins(ts, i, k, j, "or") && Derives(OrExpr, ts, i, k, n.left) &&
        Derives(AndExpr, ts, k + 1, j, n.right);
      OrReaches(ts, i, k, n.left);
      AndReaches(ts, k + 1, j, n.right);
    }
  }

  /** The parser accepts exactly the expressions of the grammar, each with the tree it derives. */
  lemma ParsesExactly(ts: Tokens, n: Node)
    requires Genuine(ts)
    ensures Parse(ts) == Success(n) <==> Expression(ts, n)
  {
    OrSound(ts, 0);
    if Expression(ts, n) {
      OrReaches(ts, 0, |ts|, n);
    }
  }

  /** No token list has two trees. */
  lemma TreesAreUnique(ts: Tokens, m: Node, n: Node)
    requires Genuine(ts) && Expression(ts, m) && Expression(ts, n)
    ensures m == n
  {
    ParsesExactly(ts, m);
    ParsesExactly(ts, n);
  }
}
