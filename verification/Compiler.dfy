/** From the text of an expression to a program, and what the program does. */
module Compiler {
  import opened Wrappers
  import opened Vm
  import opened Filter
  import opened Lexer
  import opened Lexemes
  import opened Conditions
  import opened Lowering
  import opened Grammar
  import opened Parser
  import opened Printing
  import opened Assembler
  import opened Emission
  import opened Costs
  import opened Correctness
  import opened Ranges
  import opened Defects
  import Algebra
  import Identity

  datatype CompileError =
    | UnexpectedCharacter(pos: nat)
    | EmptyExpression
    | Syntax(reason: SyntaxError)
    | TooFar(jump: ResolveError)

  method CompileExpression(expr: string) returns (r: Result<Program, CompileError>)
    ensures r == Compiled(expr)
  {
    var tokens := Tokenize(expr);
    if tokens.Failure? {
      return Failure(UnexpectedCharacter(tokens.error));
    }
    if tokens.value == [] {
      return Failure(EmptyExpression);
    }
    var parser := new Descent(tokens.value);
    var ast := parser.ParseAll();
    if ast.Failure? {
      return Failure(Syntax(ast.error));
    }
    var program := Assemble(ast.value);
    if program.Failure? {
      return Failure(TooFar(program.error));
    }
    return Success(program.value);
  }

  function Understood(expr: string): Result<Node, CompileError> {
    match Lexed(expr)
    case Failure(pos) => Failure(UnexpectedCharacter(pos))
    case Success(ts) =>
      if ts == [] then Failure(EmptyExpression)
      else
        match Parse(ts)
        case Failure(e) => Failure(Syntax(e))
        case Success(n) => Success(n)
  }

  function Compiled(expr: string): Result<Program, CompileError> {
    var ast :- Understood(expr);
    match Assembled(ast)
    case Failure(e) => Failure(TooFar(e))
    case Success(prog) => Success(prog)
  }

  /** The text is lexically sound and derives this tree from the grammar. */
  ghost predicate Reads(expr: string, n: Node) {
    Lexed(expr).Success? && Expression(Lexed(expr).value, n)
  }

  lemma ExpressionsAreNotEmpty(ts: Tokens, n: Node)
    requires Genuine(ts) && Expression(ts, n)
    ensures ts != []
  {
    OrReaches(ts, 0, |ts|, n);
  }

  lemma UnderstoodExactly(expr: string, n: Node)
    ensures Understood(expr) == Success(n) <==> Reads(expr, n)
  {
    if Lexed(expr).Success? {
      LexingIsStable(expr);
      ParsesExactly(Lexed(expr).value, n);
      if Reads(expr, n) {
        ExpressionsAreNotEmpty(Lexed(expr).value, n);
      }
    }
  }

  /**
  The whole compiler: a text compiles exactly when it derives some tree whose longest jump fits 8
  bits. That tree is the only one it derives, and on every packet the program keeps 0x40000 bytes
  exactly when the tree is true of the packet and none otherwise, within the step guard.
  */
  lemma CompilesExactly(expr: string)
    ensures Compiled(expr).Success? <==> exists n :: Reads(expr, n) && Reach(n, 0, 1) <= 255
    ensures forall n, p | Compiled(expr).Success? && Reads(expr, n) ::
              Answer(Compiled(expr).value, p) ==
              if Cost(n, p) > 10_000 then Raised(TooManySteps)
              else Keep(if Eval(n, p) == True then 0x40000 else 0)
  {
    forall n | Reads(expr, n)
      ensures Compiled(expr).Success? <==> Reach(n, 0, 1) <= 255
      ensures Compiled(expr).Success? ==> Assembled(n) == Success(Compiled(expr).value)
    {
      UnderstoodExactly(expr, n);
      CompilesIff(n);
    }
    if Compiled(expr).Success? {
      UnderstoodExactly(expr, Understood(expr).value);
    }
    forall n, p | Compiled(expr).Success? && Reads(expr, n)
      ensures Answer(Compiled(expr).value, p) ==
              if Cost(n, p) > 10_000 then Raised(TooManySteps)
              else Keep(if Eval(n, p) == True then 0x40000 else 0)
    {
      CompilerCorrect(n, p);
    }
  }

  /**
  Two texts, one of which compiles, compile to the same program exactly when their trees are the same
  up to double negation, De Morgan's laws and association.
  */
  lemma SameProgramIff(expr: string, other: string, m: Node, n: Node)
    requires Reads(expr, m) && Reads(other, n) && Compiled(expr).Success?
    ensures Compiled(other) == Compiled(expr) <==> Algebra.Canon(m, true) == Algebra.Canon(n, true)
  {
    UnderstoodExactly(expr, m);
    UnderstoodExactly(other, n);
    Identity.ProgramsDecide(m, n);
  }

  /** The canonical text of a tree compiles to what the tree assembles to. */
  lemma CanonicalCompiles(n: Node)
    requires WellFormed(n)
    ensures Reads(Canonical(n), n)
    ensures Compiled(Canonical(n)).Success? <==> Reach(n, 0, 1) <= 255
    ensures Compiled(Canonical(n)).Success? ==> Assembled(n) == Success(Compiled(Canonical(n)).value)
  {
    CanonicalReads(n);
    PrintedParses(n);
    ParsesExactly(Printed(OrExpr, n), n);
    UnderstoodExactly(Canonical(n), n);
    CompilesIff(n);
  }

  /** A text that has tokens gets a syntax error exactly when they have the defect the error names. */
  lemma SyntaxErrorIff(expr: string, e: SyntaxError)
    ensures Compiled(expr) == Failure(Syntax(e)) <==>
            Lexed(expr).Success? && Lexed(expr).value != [] && Defect(Lexed(expr).value, e)
  {
    if Lexed(expr).Success? {
      LexingIsStable(expr);
      FailsExactly(Lexed(expr).value, e);
    }
  }

  /** The position reported is that of a character which begins no token, behind the pieces in front of it. */
  lemma UnexpectedIff(expr: string, pos: nat)
    ensures Compiled(expr) == Failure(UnexpectedCharacter(pos)) <==>
            exists pieces :: FallsInto(expr, pieces) && |Text(pieces)| == pos < |expr| && !StartCode(expr[pos])
  {
    UnexpectedIs(expr, pos);
    StopsExactly(expr, pos);
  }

  lemma UnexpectedIs(expr: string, pos: nat)
    ensures Compiled(expr) == Failure(UnexpectedCharacter(pos)) <==> Lexed(expr) == Failure(pos)
  {
  }

  /** The code of a tree in front of the two returns. */
  function CodeOf(n: Node): Program {
    Finished(Lower(n), 0x40000, 0)
  }

  /** A jump is too far exactly when the text derives a tree in whose code it is the first to be. */
  lemma TooFarIff(expr: string, e: ResolveError)
    ensures Compiled(expr) == Failure(TooFar(e)) <==> exists n :: Reads(expr, n) && FirstTooFar(CodeOf(n), e)
  {
    forall n | Reads(expr, n)
      ensures Understood(expr) == Success(n) && (Assembled(n) == Failure(e) <==> FirstTooFar(CodeOf(n), e))
    {
      UnderstoodExactly(expr, n);
      BoundedFails(CodeOf(n), e);
    }
    if Compiled(expr) == Failure(TooFar(e)) {
      UnderstoodExactly(expr, Understood(expr).value);
    }
  }

  /** Only white space has no tokens, and that is an error of its own. */
  lemma EmptyIff(expr: string)
    ensures Compiled(expr) == Failure(EmptyExpression) <==> forall i | 0 <= i < |expr| :: WhiteCode(expr[i])
  {
    Partition(expr);
    EmptyScan(Scanned(Match, expr, 0), expr);
    forall i | 0 <= i < |expr| ensures Blank(expr[i]) <==> WhiteCode(expr[i]) {
      CharacterCodes(expr[i]);
    }
  }

  lemma EmptyScan(scan: Scan, s: string)
    requires scan.stop <= |s| && Text(scan.pieces) == s[..scan.stop]
    requires forall t | t in scan.pieces :: Belongs(t.kind, t.text)
    requires scan.stop < |s| ==> !Starts(s[scan.stop])
    ensures TokensOf(scan, s) == Success([]) <==> All(Blank, s)
  {
    if scan.stop == |s| {
      assert s[..|s|] == s;
      if Kept(scan.pieces) == [] {
        OnlyBlanks(scan.pieces);
      }
      if All(Blank, s) {
        NoTokens(scan.pieces);
      }
    }
  }

  lemma {:induction false} OnlyBlanks(pieces: seq<Token>)
    requires (forall t | t in pieces :: Belongs(t.kind, t.text)) && Kept(pieces) == []
    ensures All(Blank, Text(pieces))
  {
    if pieces != [] {
      assert pieces[0] in pieces;
      OnlyBlanks(pieces[1..]);
    }
  }

  lemma {:induction false} NoTokens(pieces: seq<Token>)
    requires (forall t | t in pieces :: Belongs(t.kind, t.text)) && All(Blank, Text(pieces))
    ensures Kept(pieces) == []
  {
    if pieces != [] {
      var t, rest := pieces[0], pieces[1..];
      assert t in pieces;
      FirstChar(t.kind, t.text);
      var s := Text(pieces);
      assert s[0] == t.text[0];
      forall i | 0 <= i < |Text(rest)| ensures Blank(Text(rest)[i]) {
        assert Text(rest)[i] == s[|t.text| + i];
      }
      NoTokens(rest);
    }
  }
}
