/** Expressions that are almost right, and the error each of them gets. */
module Malformed {
  import opened Wrappers
  import opened Filter
  import opened Lexer
  import opened Numerals
  import opened Grammar
  import opened Parser
  import opened Printing
  import opened Defects

  /** `part` stands in `all` from `d` on. */
  ghost predicate Within(part: Tokens, all: Tokens, d: nat) {
    d + |part| <= |all| && forall m: nat | m < |part| :: all[d + m] == part[m]
  }

  lemma PrimitiveEmbeds(ts: Tokens, i: nat, j: nat, n: Node, all: Tokens, d: nat)
    requires PrimitiveAt(ts, i, j, n) && Within(ts, all, d)
    ensures PrimitiveAt(all, d + i, d + j, n)
  {
    match n
    case Proto(_) =>
    case Host(_, direction) =>
      assert d + j - 1 == d + (j - 1);
    case Port(_, direction) =>
      assert d + j - 1 == d + (j - 1);
  }

  /** A span derives the same tree inside any longer token list. */
  lemma {:induction false} Embeds(rule: Rule, ts: Tokens, i: nat, j: nat, n: Node, all: Tokens, d: nat, di: nat,
                                  dj: nat)
    requires Derives(rule, ts, i, j, n) && Within(ts, all, d) && di == d + i && dj == d + j
    ensures Derives(rule, all, di, dj, n)
    decreases j - i, Level(rule), 1
  {
    match rule
    case OrExpr =>
      if Derives(AndExpr, ts, i, j, n) {
        Embeds(AndExpr, ts, i, j, n, all, d, di, dj);
      } else {
        OrEmbeds(ts, i, j, n, all, d, di, dj);
      }
    case AndExpr =>
      if Derives(NotExpr, ts, i, j, n) {
        Embeds(NotExpr, ts, i, j, n, all, d, di, dj);
      } else {
        AndEmbeds(ts, i, j, n, all, d, di, dj);
      }
    case NotExpr =>
      if Derives(Primary, ts, i, j, n) {
        Embeds(Primary, ts, i, j, n, all, d, di, dj);
      } else {
        assert all[di] == ts[i];
        Embeds(NotExpr, ts, i + 1, j, n.operand, all, d, di + 1, dj);
      }
    case Primary =>
      if PrimitiveAt(ts, i, j, n) {
        PrimitiveEmbeds(ts, i, j, n, all, d);
      } else {
        assert all[di] == ts[i] && all[d + (j - 1)] == ts[j - 1];
        Embeds(OrExpr, ts, i + 1, j - 1, n, all, d, di + 1, dj - 1);
      }
  }

  lemma {:induction false} OrEmbeds(ts: Tokens, i: nat, j: nat, n: Node, all: Tokens, d: nat, di: nat, dj: nat)
    requires Derives(OrExpr, ts, i, j, n) && !Derives(AndExpr, ts, i, j, n)
    requires Within(ts, all, d) && di == d + i && dj == d + j
    ensures Derives(OrExpr, all, di, dj, n)
    decreases j - i, Level(OrExpr), 0
  {
    var k: nat :| Joins(ts, i, k, j, "or") && Derives(OrExpr, ts, i, k, n.left) &&
      Derives(AndExpr, ts, k + 1, j, n.right);
    var dk := d + k;
    Embeds(OrExpr, ts, i, k, n.left, all, d, di, dk);
    Embeds(AndExpr, ts, k + 1, j, n.right, all, d, dk + 1, dj);
    assert all[dk] == ts[k] && Joins(all, di, dk, dj, "or");
  }

  lemma {:induction false} AndEmbeds(ts: Tokens, i: nat, j: nat, n: Node, all: Tokens, d: nat, di: nat, dj: nat)
    requires Derives(AndExpr, ts, i, j, n) && !Derives(NotExpr, ts, i, j, n)
    requires Within(ts, all, d) && di == d + i && dj == d + j
    ensures Derives(AndExpr, all, di, dj, n)
    decreases j - i, Level(AndExpr), 0
  {
    var k: nat :| Joins(ts, i, k, j, "and") && Derives(AndExpr, ts, i, k, n.left) &&
      Derives(NotExpr, ts, k + 1, j, n.right);
    var dk := d + k;
    Embeds(AndExpr, ts, i, k, n.left, all, d, di, dk);
    Embeds(NotExpr, ts, k + 1, j, n.right, all, d, dk + 1, dj);
    assert all[dk] == ts[k] && Joins(all, di, dk, dj, "and");
  }

  /** A complete expression with more tokens behind it. */
  lemma Followed(ts: Tokens, n: Node, more: Tokens)
    requires Genuine(ts) && Genuine(more) && Expression(ts, n)
    ensures Genuine(ts + more) && Derives(OrExpr, ts + more, 0, |ts|, n)
  {
    Embeds(OrExpr, ts, 0, |ts|, n, ts + more, 0, 0, |ts|);
  }

  /** Anything but an operator behind a complete expression is what the error names. */
  lemma TrailingTokens(ts: Tokens, n: Node, more: Tokens)
    requires Genuine(ts) && Genuine(more) && Expression(ts, n)
    requires more != [] && !IsWord(more, 0, "and") && !IsWord(more, 0, "or")
    ensures Parse(ts + more) == Failure(Unexpected(more[0].text))
  {
    var all := ts + more;
    Followed(ts, n, more);
    assert all[|ts|] == more[0];
    OrReaches(all, 0, |ts|, n);
  }

  /** Behind a complete expression and an operator an operand is due, and inside parentheses or `not` there, too. */
  lemma DueBehind(ts: Tokens, n: Node, op: string, more: Tokens)
    requires Genuine(ts) && Genuine(more) && Expression(ts, n) && (op == "and" || op == "or")
    ensures var all, i := ts + (W(op) + more), |ts| + 1;
            && Genuine(all) && OperandDue(all, i)
            && (IsKind(all, i, LParen) || IsWord(all, i, "not") ==> OperandDue(all, i + 1))
  {
    var all := ts + (W(op) + more);
    WordsAreGenuine(None);
    Followed(ts, n, W(op) + more);
    assert all[|ts|] == Token(Word, op);
    var i := |ts| + 1;
    assert LeftOperand(all, 0, i, n);
    assert ExpressionDue(all, 0);
    assert OperandDue(all, i);
    assert IsKind(all, i, LParen) ==> ExpressionDue(all, i + 1);
    assert IsWord(all, i, "not") ==> OperandDue(all, i + 1);
  }

  /** A dangling operator lacks a primitive; a dangling direction behind it is named. */
  lemma DanglingOperator(ts: Tokens, n: Node, op: string, direction: Direction)
    requires Genuine(ts) && Expression(ts, n) && (op == "and" || op == "or")
    ensures Parse(ts + W(op)) == Failure(NoPrimitive)
    ensures Parse(ts + (W(op) + W(DirectionWord(direction)))) == Failure(NothingAfter(direction))
  {
    WordsAreGenuine(Some(direction));
    DueBehind(ts, n, op, []);
    assert W(op) + [] == W(op);
    var one, two, i := ts + W(op), ts + (W(op) + W(DirectionWord(direction))), |ts| + 1;
    SpoiledFails(one, i, None, NoPrimitive);
    DueBehind(ts, n, op, W(DirectionWord(direction)));
    NotIsNoDirection(direction);
    assert two[i] == Token(Word, DirectionWord(direction));
    SpoiledFails(two, i, Some(direction), NothingAfter(direction));
  }

  lemma NotIsNoDirection(direction: Direction)
    ensures DirectionWord(direction) != "not"
  {
    assert "src"[0] == 's' && "dst"[0] == 'd' && "not"[0] == 'n';
  }

  /** A parenthesis too few, and one too many. */
  lemma Unbalanced(ts: Tokens, n: Node)
    requires Genuine(ts) && Expression(ts, n)
    ensures Parse([Token(LParen, "(")] + ts) == Failure(UnclosedParenthesis)
    ensures Parse(ts + [Token(RParen, ")")]) == Failure(Unexpected(")"))
  {
    TrailingTokens(ts, n, [Token(RParen, ")")]);
    var all := [Token(LParen, "(")] + ts;
    Embeds(OrExpr, ts, 0, |ts|, n, all, 1, 1, |all|);
    assert ExpressionDue(all, 1);
    UnclosedFails(all, 1, |all|, n);
  }

  // Wherever an operand is due: at the start, behind an operator or `not`, inside parentheses.

  /** An operand is due at `i`, and what stands there is a direction, or none, and a primitive behind it at `at`. */
  ghost predicate PrimitiveDue(ts: Tokens, i: nat, direction: Option<Direction>, at: nat) {
    && OperandDue(ts, i) && Directed(ts, i, direction) && at == AfterDirection(i, direction) < |ts|
    && !IsKind(ts, i, LParen) && !IsWord(ts, i, "not")
  }

  /** A token that begins no primitive. */
  lemma NoStart(ts: Tokens, i: nat, direction: Option<Direction>, at: nat)
    requires Genuine(ts) && PrimitiveDue(ts, i, direction, at)
    requires ts[at].kind.Word? ==> !Keyword(ts[at].text) || Misplaced(ts[at].text, direction)
    ensures Parse(ts) == Failure(if ts[at].kind.Word? && !Keyword(ts[at].text) then UnknownPrimitive(ts[at].text)
                                 else NotAPrimitive(ts[at].text))
  {
    SpoiledFails(ts, i, direction, if ts[at].kind.Word? && !Keyword(ts[at].text) then UnknownPrimitive(ts[at].text)
                                   else NotAPrimitive(ts[at].text));
  }

  /** No address behind `host`, or one with an octet over 255. */
  lemma AddressOutOfRange(ts: Tokens, i: nat, direction: Option<Direction>, at: nat)
    requires Genuine(ts) && PrimitiveDue(ts, i, direction, at) && IsWord(ts, at, "host")
    requires IsKind(ts, at + 1, Ipv4) ==> WritesNone(ts[at + 1].text)
    ensures Parse(ts) == Failure(if IsKind(ts, at + 1, Ipv4) then BadAddress(ts[at + 1].text) else NoAddress)
  {
    SpoiledFails(ts, i, direction, if IsKind(ts, at + 1, Ipv4) then BadAddress(ts[at + 1].text) else NoAddress);
  }

  /** No number behind `port`, or one over 65535. */
  lemma NumberOutOfRange(ts: Tokens, i: nat, direction: Option<Direction>, at: nat)
    requires Genuine(ts) && PrimitiveDue(ts, i, direction, at) && IsWord(ts, at, "port")
    requires IsKind(ts, at + 1, Number) ==> Value(ts[at + 1].text) > MAX_PORT
    ensures Parse(ts) == Failure(if IsKind(ts, at + 1, Number) then PortOutOfRange(Value(ts[at + 1].text)) else NoPort)
  {
    SpoiledFails(ts, i, direction,
                 if IsKind(ts, at + 1, Number) then PortOutOfRange(Value(ts[at + 1].text)) else NoPort);
  }
}
