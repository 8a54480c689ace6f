/**
What is wrong with a token list that does not parse. The grammar says where an operand is due and
which spans are complete expressions; the parser's error is the defect at such a place, and no other.
*/
module Defects {
  import opened Wrappers
  import opened Filter
  import opened Lexer
  import opened Numerals
  import opened Grammar
  import opened Parser

  // Where expressions and operands are due.

  predicate IsOperator(ts: Tokens, i: nat) {
    IsWord(ts, i, "and") || IsWord(ts, i, "or")
  }

  /** An expression from `s` on, and the operator behind it right in front of `i`. */
  ghost predicate LeftOperand(ts: Tokens, s: nat, i: nat, n: Node) {
    s < i && Derives(OrExpr, ts, s, i - 1, n) && IsOperator(ts, i - 1)
  }

  /** At the start, or behind a parenthesis that opens an operand. */
  ghost predicate ExpressionDue(ts: Tokens, i: nat)
    decreases i, 0
  {
    i == 0 || (IsKind(ts, i - 1, LParen) && OperandDue(ts, i - 1))
  }

  /** Where an expression is due, behind `not`, or behind an operator that follows a complete expression. */
  ghost predicate OperandDue(ts: Tokens, i: nat)
    decreases i, 1
  {
    || ExpressionDue(ts, i)
    || (i > 0 && IsWord(ts, i - 1, "not") && OperandDue(ts, i - 1))
    || (exists s: nat, n :: LeftOperand(ts, s, i, n) && ExpressionDue(ts, s))
  }

  /** An expression from `s` to `j` that no operator continues. */
  ghost predicate Complete(ts: Tokens, s: nat, j: nat, n: Node) {
    Derives(OrExpr, ts, s, j, n) && !IsOperator(ts, j)
  }

  // What can be wrong there.

  /** The direction in front of a primitive, if there is one. */
  predicate Directed(ts: Tokens, i: nat, direction: Option<Direction>) {
    match direction
    case None => !IsWord(ts, i, "src") && !IsWord(ts, i, "dst")
    case Some(d) => IsWord(ts, i, DirectionWord(d))
  }

  /** A keyword that begins no primitive there: a protocol does not take a direction. */
  predicate Misplaced(text: string, direction: Option<Direction>) {
    if ProtocolOf(text).Some? then direction.Some? else text in ["src", "dst", "and", "or", "not"]
  }

  ghost predicate WritesNone(text: string) {
    forall addr :: !Writes(text, addr)
  }

  /** What the error says of the token at `at`, behind the direction, is so. */
  ghost predicate Wrong(ts: Tokens, at: nat, direction: Option<Direction>, e: SyntaxError) {
    match e
    case NothingAfter(d) => at == |ts| && direction == Some(d)
    case NoPrimitive => at == |ts| && direction == None
    case NoAddress => IsWord(ts, at, "host") && !IsKind(ts, at + 1, Ipv4)
    case BadAddress(text) =>
      IsWord(ts, at, "host") && IsKind(ts, at + 1, Ipv4) && ts[at + 1].text == text && WritesNone(text)
    case NoPort => IsWord(ts, at, "port") && !IsKind(ts, at + 1, Number)
    case PortOutOfRange(port) =>
      IsWord(ts, at, "port") && IsKind(ts, at + 1, Number) && Value(ts[at + 1].text) == port > MAX_PORT
    case UnknownPrimitive(text) => IsWord(ts, at, text) && !Keyword(text)
    case NotAPrimitive(text) =>
      at < |ts| && ts[at].text == text && (ts[at].kind.Word? ==> Misplaced(text, direction))
    case _ => false
  }

  function AfterDirection(i: nat, direction: Option<Direction>): nat {
    if direction.Some? then i + 1 else i
  }

  /** Where an operand is due there is neither a parenthesis nor `not`, nor a primitive. */
  ghost predicate Spoiled(ts: Tokens, i: nat, direction: Option<Direction>, e: SyntaxError) {
    && i <= |ts| && OperandDue(ts, i) && !IsKind(ts, i, LParen) && !IsWord(ts, i, "not")
    && Directed(ts, i, direction) && Wrong(ts, AfterDirection(i, direction), direction, e)
  }

  /** A parenthesis in front of `s`, and a complete expression behind it that none closes. */
  ghost predicate Unclosed(ts: Tokens, s: nat, j: nat, n: Node) {
    s > 0 && ExpressionDue(ts, s) && Complete(ts, s, j, n) && !IsKind(ts, j, RParen)
  }

  /** A complete expression from the start, and more tokens. */
  ghost predicate Trailed(ts: Tokens, j: nat, n: Node) {
    Complete(ts, 0, j, n) && j < |ts|
  }

  ghost predicate Defect(ts: Tokens, e: SyntaxError) {
    || (exists i: nat, direction :: Spoiled(ts, i, direction, e))
    || (e == UnclosedParenthesis && exists s: nat, j: nat, n :: Unclosed(ts, s, j, n))
    || (e.Unexpected? && exists j: nat, n :: Trailed(ts, j, n) && ts[j].text == e.text)
  }

  // The defect is the error.

  /** What goes wrong behind an operator goes wrong for the expression it continues. */
  lemma OperandFails(ts: Tokens, s: nat, i: nat, n: Node, e: SyntaxError)
    requires Genuine(ts) && LeftOperand(ts, s, i, n)
    requires ReadNot(ts, i) == Failure(e)
    ensures ReadOr(ts, s) == Failure(e)
  {
    var j := i - 1;
    if IsWord(ts, j, "or") {
      OrReaches(ts, s, j, n);
    } else if Derives(AndExpr, ts, s, j, n) {
      AndReaches(ts, s, j, n);
    } else {
      var k: nat :| Joins(ts, s, k, j, "or") && Derives(OrExpr, ts, s, k, n.left) &&
        Derives(AndExpr, ts, k + 1, j, n.right);
      OrReaches(ts, s, k, n.left);
      AndReaches(ts, k + 1, j, n.right);
    }
  }

  /** What goes wrong with an expression that is due goes wrong for the whole. */
  lemma {:induction false} ExpressionFails(ts: Tokens, i: nat, e: SyntaxError)
    requires Genuine(ts) && i <= |ts| && ExpressionDue(ts, i) && ReadOr(ts, i) == Failure(e)
    ensures Parse(ts) == Failure(e)
    decreases i, 0
  {
    if i > 0 {
      assert ReadPrimary(ts, i - 1) == Failure(e);
      OperandDueFails(ts, i - 1, e);
    }
  }

  /** And so does what goes wrong with an operand. */
  lemma {:induction false} OperandDueFails(ts: Tokens, i: nat, e: SyntaxError)
    requires Genuine(ts) && i <= |ts| && OperandDue(ts, i) && ReadNot(ts, i) == Failure(e)
    ensures Parse(ts) == Failure(e)
    decreases i, 1
  {
    if ExpressionDue(ts, i) {
      assert ReadAnd(ts, i) == Failure(e);
      ExpressionFails(ts, i, e);
    } else if IsWord(ts, i - 1, "not") && OperandDue(ts, i - 1) {
      OperandDueFails(ts, i - 1, e);
    } else {
      var s: nat, n :| LeftOperand(ts, s, i, n) && ExpressionDue(ts, s);
      OperandFails(ts, s, i, n, e);
      ExpressionFails(ts, s, e);
    }
  }

  lemma AddressFails(ts: Tokens, i: nat, e: SyntaxError)
    requires Genuine(ts)
    ensures ReadAddress(ts, i) == Failure(e) <==>
            || (e == NoAddress && !IsKind(ts, i, Ipv4))
            || (e.BadAddress? && IsKind(ts, i, Ipv4) && ts[i].text == e.text && WritesNone(e.text))
  {
    if IsKind(ts, i, Ipv4) {
      assert ts[i] in ts;
      var t := ts[i].text;
      forall addr: nat ensures Address(t) == Some(addr) <==> Writes(t, addr) {
        AddressIff(t, addr);
      }
    }
  }

  lemma DirectionIs(ts: Tokens, i: nat, direction: Option<Direction>)
    ensures Directed(ts, i, direction) <==> ReadDirection(ts, i) == direction
  {
    assert "src"[0] != "dst"[0];
  }

  /** The keywords: those that begin primitives, and the five that never do. */
  lemma KeywordsApart(text: string)
    ensures text == "host" || text == "port" ==> ProtocolOf(text).None? && Keyword(text)
    ensures "host" != "port"
    ensures ProtocolOf(text).Some? ==> Keyword(text)
    ensures Keyword(text) && text != "host" && text != "port" && ProtocolOf(text).None? <==>
            text in ["src", "dst", "and", "or", "not"]
  {
    assert "host"[0] == 'h' && "port"[0] == 'p';
  }

  function ErrorOf<T>(r: Result<T, SyntaxError>): Option<SyntaxError> {
    match r
    case Success(_) => None
    case Failure(e) => Some(e)
  }

  /** What the parser says of the token behind the direction, if it has an objection. */
  function ErrorAt(ts: Tokens, at: nat, direction: Option<Direction>): Option<SyntaxError> {
    if at >= |ts| then Some(if direction.Some? then NothingAfter(direction.value) else NoPrimitive)
    else if IsWord(ts, at, "host") then ErrorOf(ReadAddress(ts, at + 1))
    else if IsWord(ts, at, "port") then ErrorOf(ReadPort(ts, at + 1))
    else if ts[at].kind.Word? && !Keyword(ts[at].text) then Some(UnknownPrimitive(ts[at].text))
    else if ts[at].kind.Word? && ProtocolOf(ts[at].text).Some? && direction.None? then None
    else Some(NotAPrimitive(ts[at].text))
  }

  lemma PrimitiveErrs(ts: Tokens, i: nat, direction: Option<Direction>)
    requires i <= |ts| && direction == ReadDirection(ts, i)
    ensures ErrorOf(ReadPrimitive(ts, i)) == ErrorAt(ts, AfterDirection(i, direction), direction)
  {
    var at := AfterDirection(i, direction);
    if at < |ts| {
      KeywordsApart(ts[at].text);
    }
  }

  lemma HostIsWrong(ts: Tokens, at: nat, direction: Option<Direction>, e: SyntaxError)
    requires Genuine(ts) && IsWord(ts, at, "host")
    ensures ErrorAt(ts, at, direction) == Some(e) <==> Wrong(ts, at, direction, e)
  {
    KeywordsApart("host");
    AddressFails(ts, at + 1, e);
  }

  lemma PortIsWrong(ts: Tokens, at: nat, direction: Option<Direction>, e: SyntaxError)
    requires IsWord(ts, at, "port")
    ensures ErrorAt(ts, at, direction) == Some(e) <==> Wrong(ts, at, direction, e)
  {
    KeywordsApart("port");
  }

  lemma OtherIsWrong(ts: Tokens, at: nat, direction: Option<Direction>, e: SyntaxError)
    requires at < |ts| && !IsWord(ts, at, "host") && !IsWord(ts, at, "port")
    ensures ErrorAt(ts, at, direction) == Some(e) <==> Wrong(ts, at, direction, e)
  {
    KeywordsApart(ts[at].text);
  }

  lemma ErrorIsWrong(ts: Tokens, at: nat, direction: Option<Direction>, e: SyntaxError)
    requires Genuine(ts) && at <= |ts|
    ensures ErrorAt(ts, at, direction) == Some(e) <==> Wrong(ts, at, direction, e)
  {
    if at < |ts| {
      if IsWord(ts, at, "host") {
        HostIsWrong(ts, at, direction, e);
      } else if IsWord(ts, at, "port") {
        PortIsWrong(ts, at, direction, e);
      } else {
        OtherIsWrong(ts, at, direction, e);
      }
    }
  }

  /** A primitive is refused with an error exactly when what the error says is so. */
  lemma PrimitiveFails(ts: Tokens, i: nat, direction: Option<Direction>, e: SyntaxError)
    requires Genuine(ts) && i <= |ts| && direction == ReadDirection(ts, i)
    ensures ReadPrimitive(ts, i) == Failure(e) <==> Wrong(ts, AfterDirection(i, direction), direction, e)
  {
    PrimitiveErrs(ts, i, direction);
    ErrorIsWrong(ts, AfterDirection(i, direction), direction, e);
  }

  // Every error is a defect.

  /** The span that an `and_expr` at `i` belongs to: it begins there, or right behind an `or`. */
  ghost predicate Extended(ts: Tokens, s: nat, i: nat, left: Node) {
    i == s || (LeftOperand(ts, s, i, left) && IsWord(ts, i - 1, "or"))
  }

  lemma ExtendedDue(ts: Tokens, s: nat, i: nat, left: Node)
    requires ExpressionDue(ts, s) && Extended(ts, s, i, left)
    ensures OperandDue(ts, i)
  {
  }

  /** With a whole `and_expr` from `i` to `j`, the expression from `s` reaches `j`. */
  lemma ExtendedReaches(ts: Tokens, s: nat, i: nat, left: Node, j: nat, node: Node) returns (n: Node)
    requires Extended(ts, s, i, left) && Derives(AndExpr, ts, i, j, node)
    ensures Derives(OrExpr, ts, s, j, n)
    ensures n == if i == s then node else Or(left, node)
  {
    n := if i == s then node else Or(left, node);
    if i != s {
      assert Joins(ts, s, i - 1, j, "or");
    }
  }

  /** Reading `and_expr` or `or_expr` stops only where no operator goes on. */
  lemma {:induction false} MoreAndStops(ts: Tokens, node: Node, i: nat)
    requires i <= |ts| && MoreAnd(ts, node, i).Success?
    ensures !IsWord(ts, MoreAnd(ts, node, i).value.next, "and")
    decreases |ts| - i
  {
    if IsWord(ts, i, "and") {
      var right := ReadNot(ts, i + 1).value;
      MoreAndStops(ts, And(node, right.node), right.next);
    }
  }

  lemma {:induction false} MoreOrStops(ts: Tokens, node: Node, i: nat)
    requires i <= |ts| && !IsWord(ts, i, "and") && MoreOr(ts, node, i).Success?
    ensures !IsOperator(ts, MoreOr(ts, node, i).value.next)
    decreases |ts| - i
  {
    if IsWord(ts, i, "or") {
      var right := ReadAnd(ts, i + 1).value;
      AndStops(ts, i + 1);
      MoreOrStops(ts, Or(node, right.node), right.next);
    }
  }

  lemma AndStops(ts: Tokens, i: nat)
    requires i <= |ts| && ReadAnd(ts, i).Success?
    ensures !IsWord(ts, ReadAnd(ts, i).value.next, "and")
  {
    var first := ReadNot(ts, i).value;
    MoreAndStops(ts, first.node, first.next);
  }

  lemma OrStops(ts: Tokens, i: nat)
    requires Genuine(ts) && i <= |ts| && ReadOr(ts, i).Success?
    ensures var whole := ReadOr(ts, i).value; Complete(ts, i, whole.next, whole.node)
  {
    OrSound(ts, i);
    AndStops(ts, i);
    var first := ReadAnd(ts, i).value;
    MoreOrStops(ts, first.node, first.next);
  }

  lemma PrimitiveTraced(ts: Tokens, i: nat, e: SyntaxError)
    requires Genuine(ts) && i <= |ts| && OperandDue(ts, i) && !IsWord(ts, i, "not") && !IsKind(ts, i, LParen)
    requires ReadPrimitive(ts, i) == Failure(e)
    ensures Defect(ts, e)
  {
    var direction := ReadDirection(ts, i);
    DirectionIs(ts, i, direction);
    PrimitiveFails(ts, i, direction, e);
    assert Spoiled(ts, i, direction, e);
  }

  lemma {:induction false} PrimaryTraced(ts: Tokens, i: nat, e: SyntaxError)
    requires Genuine(ts) && i <= |ts| && OperandDue(ts, i) && !IsWord(ts, i, "not")
    requires ReadPrimary(ts, i) == Failure(e)
    ensures Defect(ts, e)
    decreases |ts| - i, 0
  {
    if IsKind(ts, i, LParen) {
      assert ExpressionDue(ts, i + 1);
      var inner := ReadOr(ts, i + 1);
      if inner.Success? {
        OrStops(ts, i + 1);
        assert Unclosed(ts, i + 1, inner.value.next, inner.value.node);
      } else {
        OrTraced(ts, i + 1, e);
      }
    } else {
      PrimitiveTraced(ts, i, e);
    }
  }

  lemma {:induction false} NotTraced(ts: Tokens, i: nat, e: SyntaxError)
    requires Genuine(ts) && i <= |ts| && OperandDue(ts, i) && ReadNot(ts, i) == Failure(e)
    ensures Defect(ts, e)
    decreases |ts| - i, 1
  {
    if IsWord(ts, i, "not") {
      NotTraced(ts, i + 1, e);
    } else {
      PrimaryTraced(ts, i, e);
    }
  }

  /** Behind the `and` that continues an `and_expr`, an operand is due. */
  lemma DueBehindAnd(ts: Tokens, s: nat, i: nat, left: Node, j: nat, node: Node)
    requires ExpressionDue(ts, s) && Extended(ts, s, i, left) && Derives(AndExpr, ts, i, j, node) && s <= j
    requires IsWord(ts, j, "and")
    ensures OperandDue(ts, j + 1)
  {
    var n := ExtendedReaches(ts, s, i, left, j, node);
    assert LeftOperand(ts, s, j + 1, n);
  }

  lemma AndGrows(ts: Tokens, i: nat, j: nat, node: Node, k: nat, right: Node)
    requires i <= j < k && Derives(AndExpr, ts, i, j, node) && IsWord(ts, j, "and")
    requires Derives(NotExpr, ts, j + 1, k, right)
    ensures Derives(AndExpr, ts, i, k, And(node, right))
  {
    assert Joins(ts, i, j, k, "and");
  }

  lemma MoreAndFails(ts: Tokens, node: Node, j: nat, e: SyntaxError)
    requires j <= |ts| && MoreAnd(ts, node, j) == Failure(e)
    ensures IsWord(ts, j, "and")
    ensures var right := ReadNot(ts, j + 1);
            if right.Success? then MoreAnd(ts, And(node, right.value.node), right.value.next) == Failure(e)
            else right == Failure(e)
  {
  }

  lemma {:induction false} MoreAndTraced(ts: Tokens, s: nat, i: nat, left: Node, j: nat, node: Node, e: SyntaxError)
    requires Genuine(ts) && i < j <= |ts| && ExpressionDue(ts, s) && Extended(ts, s, i, left)
    requires Derives(AndExpr, ts, i, j, node) && MoreAnd(ts, node, j) == Failure(e)
    ensures Defect(ts, e)
    decreases |ts| - j, 2
  {
    MoreAndFails(ts, node, j, e);
    DueBehindAnd(ts, s, i, left, j, node);
    var right := ReadNot(ts, j + 1);
    if right.Success? {
      NotSound(ts, j + 1);
      AndGrows(ts, i, j, node, right.value.next, right.value.node);
      MoreAndTraced(ts, s, i, left, right.value.next, And(node, right.value.node), e);
    } else {
      NotTraced(ts, j + 1, e);
    }
  }

  lemma {:induction false} AndTraced(ts: Tokens, s: nat, i: nat, left: Node, e: SyntaxError)
    requires Genuine(ts) && i <= |ts| && ExpressionDue(ts, s) && Extended(ts, s, i, left)
    requires ReadAnd(ts, i) == Failure(e)
    ensures Defect(ts, e)
    decreases |ts| - i, 3
  {
    ExtendedDue(ts, s, i, left);
    var first := ReadNot(ts, i);
    if first.Success? {
      NotSound(ts, i);
      MoreAndTraced(ts, s, i, left, first.value.next, first.value.node, e);
    } else {
      NotTraced(ts, i, e);
    }
  }

  lemma {:induction false} MoreOrTraced(ts: Tokens, s: nat, node: Node, i: nat, e: SyntaxError)
    requires Genuine(ts) && s < i <= |ts| && ExpressionDue(ts, s) && Derives(OrExpr, ts, s, i, node)
    requires MoreOr(ts, node, i) == Failure(e)
    ensures Defect(ts, e)
    decreases |ts| - i, 4
  {
    assert LeftOperand(ts, s, i + 1, node);
    var right := ReadAnd(ts, i + 1);
    if right.Success? {
      AndSound(ts, i + 1);
      var n := ExtendedReaches(ts, s, i + 1, node, right.value.next, right.value.node);
      MoreOrTraced(ts, s, n, right.value.next, e);
    } else {
      AndTraced(ts, s, i + 1, node, e);
    }
  }

  lemma {:induction false} OrTraced(ts: Tokens, i: nat, e: SyntaxError)
    requires Genuine(ts) && i <= |ts| && ExpressionDue(ts, i) && ReadOr(ts, i) == Failure(e)
    ensures Defect(ts, e)
    decreases |ts| - i, 5
  {
    var first := ReadAnd(ts, i);
    if first.Success? {
      AndSound(ts, i);
      MoreOrTraced(ts, i, first.value.node, first.value.next, e);
    } else {
      AndTraced(ts, i, i, Proto(Ip), e);
    }
  }

  // The theorem.

  lemma SpoiledFails(ts: Tokens, i: nat, direction: Option<Direction>, e: SyntaxError)
    requires Genuine(ts) && Spoiled(ts, i, direction, e)
    ensures Parse(ts) == Failure(e)
  {
    DirectionIs(ts, i, direction);
    PrimitiveFails(ts, i, direction, e);
    assert ReadPrimary(ts, i) == Failure(e);
    OperandDueFails(ts, i, e);
  }

  lemma UnclosedFails(ts: Tokens, s: nat, j: nat, n: Node)
    requires Genuine(ts) && Unclosed(ts, s, j, n)
    ensures Parse(ts) == Failure(UnclosedParenthesis)
  {
    OrReaches(ts, s, j, n);
    assert ReadPrimary(ts, s - 1) == Failure(UnclosedParenthesis);
    OperandDueFails(ts, s - 1, UnclosedParenthesis);
  }

  lemma TrailedFails(ts: Tokens, j: nat, n: Node)
    requires Genuine(ts) && Trailed(ts, j, n)
    ensures Parse(ts) == Failure(Unexpected(ts[j].text))
  {
    OrReaches(ts, 0, j, n);
  }

  /**
  The parser fails with an error exactly when the tokens have that defect: an operand that is due and
  is none, for the reason the error gives; a parenthesis that a complete expression leaves open; or
  a token behind a complete expression that cannot continue it. So they have one defect at most.
  */
  lemma FailsExactly(ts: Tokens, e: SyntaxError)
    requires Genuine(ts)
    ensures Parse(ts) == Failure(e) <==> Defect(ts, e)
  {
    if Parse(ts) == Failure(e) {
      var whole := ReadOr(ts, 0);
      if whole.Success? {
        OrStops(ts, 0);
        assert Trailed(ts, whole.value.next, whole.value.node);
      } else {
        OrTraced(ts, 0, e);
      }
    }
    if Defect(ts, e) {
      if i: nat, direction :| Spoiled(ts, i, direction, e) {
        SpoiledFails(ts, i, direction, e);
      } else if e == UnclosedParenthesis {
        var s: nat, j: nat, n :| Unclosed(ts, s, j, n);
        UnclosedFails(ts, s, j, n);
      } else {
        var j: nat, n :| Trailed(ts, j, n) && ts[j].text == e.text;
        TrailedFails(ts, j, n);
      }
    }
  }
}
