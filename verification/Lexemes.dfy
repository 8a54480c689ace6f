/**
The lexer told by character codes: what a token of each kind is, how a text falls into tokens and
white space, and what stops it. Any layout of white space around tokens gives the same tokens.
*/
module Lexemes {
  import opened Wrappers
  import opened Lexer
  import opened Numerals

  predicate CodeIn(c: char, low: int, high: int) {
    low <= c as int <= high
  }

  predicate DigitCode(c: char) {
    CodeIn(c, 48, 57)
  }

  predicate LetterCode(c: char) {
    CodeIn(c, 65, 90) || CodeIn(c, 97, 122)
  }

  /** Tab, line feed, vertical tab, form feed, carriage return, the four separators, and the space. */
  predicate WhiteCode(c: char) {
    CodeIn(c, 9, 13) || CodeIn(c, 28, 31) || c as int == 32
  }

  /** A character that begins a token or white space; 40 and 41 are the parentheses. */
  predicate StartCode(c: char) {
    DigitCode(c) || LetterCode(c) || WhiteCode(c) || CodeIn(c, 40, 41)
  }

  lemma CharacterCodes(c: char)
    ensures Digit(c) <==> DigitCode(c)
    ensures Letter(c) <==> LetterCode(c)
    ensures Blank(c) <==> WhiteCode(c)
    ensures Starts(c) <==> StartCode(c)
  {
  }

  /** One to three digits. */
  predicate DigitGroup(t: string) {
    1 <= |t| <= 3 && forall i | 0 <= i < |t| :: DigitCode(t[i])
  }

  ghost predicate FourDigitGroups(t: string) {
    exists a, b, c, d | DigitGroup(a) && DigitGroup(b) && DigitGroup(c) && DigitGroup(d) :: t == WithDots(a, b, c, d)
  }

  /** A text of the kind. */
  ghost predicate IsText(kind: Kind, t: string) {
    match kind
    case Ipv4 => FourDigitGroups(t)
    case Number => t != [] && forall i | 0 <= i < |t| :: DigitCode(t[i])
    case Word => t != [] && LetterCode(t[0]) && forall i | 0 <= i < |t| :: LetterCode(t[i]) || DigitCode(t[i])
    case LParen => t == "("
    case RParen => t == ")"
    case Space => t != [] && forall i | 0 <= i < |t| :: WhiteCode(t[i])
  }

  lemma GroupsByCode(t: string)
    ensures Group(t) <==> DigitGroup(t)
  {
  }

  lemma FourGroupsByCode(t: string)
    ensures Dotted(4, t) <==> FourDigitGroups(t)
  {
    if Dotted(4, t) {
      var a, b, c, d := FourGroups(t);
      GroupsByCode(a);
      GroupsByCode(b);
      GroupsByCode(c);
      GroupsByCode(d);
    }
    if a, b, c, d :| DigitGroup(a) && DigitGroup(b) && DigitGroup(c) && DigitGroup(d) && t == WithDots(a, b, c, d) {
      QuadBelongs(a, b, c, d);
    }
  }

  lemma QuadBelongs(a: string, b: string, c: string, d: string)
    requires DigitGroup(a) && DigitGroup(b) && DigitGroup(c) && DigitGroup(d)
    ensures Dotted(4, WithDots(a, b, c, d))
  {
    GroupsByCode(a);
    GroupsByCode(b);
    GroupsByCode(c);
    GroupsByCode(d);
    GroupBelongs(2, c, d);
    GroupBelongs(3, b, c + ("." + d));
    GroupBelongs(4, a, b + ("." + (c + ("." + d))));
  }

  lemma TextsByCode(kind: Kind, t: string)
    ensures Belongs(kind, t) <==> IsText(kind, t)
  {
    if kind.Ipv4? {
      FourGroupsByCode(t);
    }
  }

  // How a text falls apart.

  /** The piece is the longest of its kind in front; a number only where no dotted address is in front. */
  ghost predicate InFront(piece: Token, s: string) {
    && piece.text <= s && IsText(piece.kind, piece.text)
    && (forall m | |piece.text| < m <= |s| :: !IsText(piece.kind, s[..m]))
    && (piece.kind.Number? ==> forall m | 0 <= m <= |s| :: !IsText(Ipv4, s[..m]))
  }

  ghost predicate FallsInto(s: string, pieces: seq<Token>) {
    pieces != [] ==> InFront(pieces[0], s) && FallsInto(s[|pieces[0].text|..], pieces[1..])
  }

  lemma InFrontMatches(piece: Token, s: string)
    requires InFront(piece, s)
    ensures Match(s) == Some((piece.kind, |piece.text|)) && piece.text != []
  {
    var n := |piece.text|;
    assert s[..n] == piece.text;
    TextsByCode(piece.kind, piece.text);
    FirstChar(piece.kind, piece.text);
    MatchExact(s);
    assert Takes(piece.kind, s, n);
    var (kind, m) := Match(s).value;
    TextsByCode(kind, s[..m]);
    TextsByCode(piece.kind, s[..m]);
    FirstChar(kind, s[..m]);
    assert s[..m][0] == piece.text[0];
    KindsByFirst(piece, kind, s, m);
  }

  /** Of two kinds in front of one text, the second found in the order of the alternatives, both are the same. */
  lemma KindsByFirst(piece: Token, kind: Kind, s: string, m: nat)
    requires InFront(piece, s) && m <= |s| && IsText(kind, s[..m])
    requires Belongs(piece.kind, piece.text) && Belongs(kind, s[..m])
    requires piece.text != [] && m > 0 && s[0] == piece.text[0]
    requires Priority(kind) <= Priority(piece.kind)
    ensures kind == piece.kind
  {
    FirstChar(piece.kind, piece.text);
    FirstChar(kind, s[..m]);
  }

  lemma MatchIsInFront(s: string)
    requires Match(s).Some?
    ensures var (kind, n) := Match(s).value; InFront(Token(kind, s[..n]), s)
  {
    MatchExact(s);
    var (kind, n) := Match(s).value;
    TextsByCode(kind, s[..n]);
    forall m | 0 <= m <= |s| ensures Takes(kind, s, m) <==> IsText(kind, s[..m]) {
      TextsByCode(kind, s[..m]);
    }
    forall m | 0 <= m <= |s| ensures Takes(Ipv4, s, m) <==> IsText(Ipv4, s[..m]) {
      TextsByCode(Ipv4, s[..m]);
    }
  }

  /** The scan from every position on, as one function. */
  type RawScanner = nat -> Scan

  ghost predicate RawScans(f: RawScanner, s: string) {
    forall pos: nat {:trigger Scanned(Match, s, pos)} | pos <= |s| :: f(pos) == Scanned(Match, s, pos)
  }

  lemma RawScannerOf(s: string) returns (f: RawScanner)
    ensures RawScans(f, s) && f(0) == Scanned(Match, s, 0)
  {
    f := (pos: nat) => if pos <= |s| then Scanned(Match, s, pos) else Scan([], 0);
  }

  lemma ScansPiece(f: RawScanner, s: string, pos: nat, piece: Token, next: nat)
    requires RawScans(f, s) && pos <= next <= |s| && piece.text == s[pos..next]
    requires Match(s[pos..]) == Some((piece.kind, next - pos))
    ensures f(pos) == Scan([piece] + f(next).pieces, f(next).stop)
  {
    OnePieceScanned(Match, s, pos, piece, next);
  }

  lemma OnePieceScanned(m: Matcher, s: string, pos: nat, piece: Token, next: nat)
    requires Sound(m) && pos <= next <= |s| && piece.text == s[pos..next]
    requires m(s[pos..]) == Some((piece.kind, next - pos))
    ensures var rest := Scanned(m, s, next); Scanned(m, s, pos) == Scan([piece] + rest.pieces, rest.stop)
  {
  }

  lemma ScansNothing(f: RawScanner, s: string, pos: nat)
    requires RawScans(f, s) && pos <= |s| && Match(s[pos..]) == None
    ensures f(pos) == Scan([], pos)
  {
    var here := Scanned(Match, s, pos);
  }

  lemma RestSlices(s: string, pos: nat, next: nat)
    requires pos <= next <= |s|
    ensures s[pos..][..next - pos] == s[pos..next] && s[pos..][next - pos..] == s[next..]
  {
  }

  lemma OnePieceMore(piece: Token, s: string, rest: seq<Token>)
    requires InFront(piece, s) && FallsInto(s[|piece.text|..], rest)
    ensures FallsInto(s, [piece] + rest)
  {
    assert ([piece] + rest)[1..] == rest;
  }

  lemma OnePieceLess(s: string, pieces: seq<Token>)
    requires pieces != [] && FallsInto(s, pieces)
    ensures InFront(pieces[0], s) && FallsInto(s[|pieces[0].text|..], pieces[1..])
  {
  }

  lemma {:induction false} ScanFalls(f: RawScanner, s: string, pos: nat)
    requires RawScans(f, s) && pos <= |s|
    ensures FallsInto(s[pos..], f(pos).pieces)
    decreases |s| - pos
  {
    match Match(s[pos..])
    case None =>
      ScansNothing(f, s, pos);
    case Some((kind, n)) =>
      var piece, next := Token(kind, s[pos..pos + n]), pos + n;
      MatchIsInFront(s[pos..]);
      RestSlices(s, pos, next);
      ScansPiece(f, s, pos, piece, next);
      ScanFalls(f, s, next);
      OnePieceMore(piece, s[pos..], f(next).pieces);
  }

  lemma PiecesAssociate(piece: Token, more: seq<Token>, rest: seq<Token>, pieces: seq<Token>)
    requires pieces != [] && piece == pieces[0] && more == pieces[1..]
    ensures [piece] + (more + rest) == pieces + rest
  {
  }

  /** There is only one way to fall into pieces, and the lexer goes it. */
  lemma {:induction false} FallsAsScanned(f: RawScanner, s: string, pos: nat, pieces: seq<Token>) returns (end: nat)
    requires RawScans(f, s) && pos <= |s| && FallsInto(s[pos..], pieces)
    ensures end == pos + |Text(pieces)| <= |s|
    ensures f(pos).pieces == pieces + f(end).pieces && f(pos).stop == f(end).stop
    decreases |pieces|
  {
    if pieces == [] {
      end := pos;
      assert [] + f(pos).pieces == f(pos).pieces;
    } else {
      var piece, more, next := pieces[0], pieces[1..], pos + |pieces[0].text|;
      OnePieceLess(s[pos..], pieces);
      InFrontMatches(piece, s[pos..]);
      RestSlices(s, pos, next);
      ScansPiece(f, s, pos, piece, next);
      end := FallsAsScanned(f, s, next, more);
      PiecesAssociate(piece, more, f(end).pieces, pieces);
    }
  }

  lemma FallsWhole(f: RawScanner, s: string, pieces: seq<Token>) returns (end: nat)
    requires RawScans(f, s) && FallsInto(s, pieces)
    ensures end == |Text(pieces)| <= |s|
    ensures f(0).pieces == pieces + f(end).pieces && f(0).stop == f(end).stop
  {
    assert s[0..] == s;
    end := FallsAsScanned(f, s, 0, pieces);
  }

  lemma ScansWhole(f: RawScanner, s: string, pieces: seq<Token>, end: nat)
    requires RawScans(f, s) && end == |s|
    requires f(0).pieces == pieces + f(end).pieces && f(0).stop == f(end).stop
    ensures f(0) == Scan(pieces, |s|)
  {
    NothingLeft(f, s);
    assert pieces + [] == pieces;
  }

  lemma LexesInto(s: string, pieces: seq<Token>)
    requires FallsInto(s, pieces) && Text(pieces) == s
    ensures Lexed(s) == Success(Kept(pieces))
  {
    var f := RawScannerOf(s);
    var end := FallsWhole(f, s, pieces);
    ScansWhole(f, s, pieces, end);
    LexedAs(s, pieces);
  }

  lemma NothingLeft(f: RawScanner, s: string)
    requires RawScans(f, s)
    ensures f(|s|) == Scan([], |s|)
  {
    MatchesIff(s[|s|..]);
    ScansNothing(f, s, |s|);
  }

  lemma LexedAs(s: string, pieces: seq<Token>)
    requires Scanned(Match, s, 0) == Scan(pieces, |s|)
    ensures Lexed(s) == Success(Kept(pieces))
  {
  }

  lemma StopsBehind(s: string, pieces: seq<Token>, pos: nat)
    requires FallsInto(s, pieces) && |Text(pieces)| == pos < |s| && !StartCode(s[pos])
    ensures Lexed(s) == Failure(pos)
  {
    var f := RawScannerOf(s);
    var end := FallsWhole(f, s, pieces);
    CharacterCodes(s[pos]);
    MatchesIff(s[pos..]);
    ScansNothing(f, s, pos);
  }

  lemma FallsSomehow(s: string) returns (pieces: seq<Token>)
    ensures FallsInto(s, pieces) && pieces == Scanned(Match, s, 0).pieces
  {
    var f := RawScannerOf(s);
    assert s[0..] == s;
    pieces := f(0).pieces;
    ScanFalls(f, s, 0);
  }

  /** The tokens of a text: those of the pieces, white space aside, it falls into as a whole. */
  lemma LexesExactly(s: string, ts: seq<Token>)
    ensures Lexed(s) == Success(ts) <==>
            exists pieces :: FallsInto(s, pieces) && Text(pieces) == s && ts == Kept(pieces)
  {
    if Lexed(s) == Success(ts) {
      var pieces := FallsSomehow(s);
      Partition(s);
      assert s[..|s|] == s;
    }
    if pieces :| FallsInto(s, pieces) && Text(pieces) == s && ts == Kept(pieces) {
      LexesInto(s, pieces);
    }
  }

  /** The position reported: behind the pieces in front, a character that begins none. */
  lemma StopsExactly(s: string, pos: nat)
    ensures Lexed(s) == Failure(pos) <==>
            exists pieces :: FallsInto(s, pieces) && |Text(pieces)| == pos < |s| && !StartCode(s[pos])
  {
    if Lexed(s) == Failure(pos) {
      var pieces := FallsSomehow(s);
      Partition(s);
      CharacterCodes(s[pos]);
      assert |Text(pieces)| == pos;
    }
    if pieces :| FallsInto(s, pieces) && |Text(pieces)| == pos < |s| && !StartCode(s[pos]) {
      StopsBehind(s, pieces, pos);
    }
  }

  // Any layout of white space.

  ghost predicate White(t: string) {
    forall i | 0 <= i < |t| :: WhiteCode(t[i])
  }

  /** The tokens with a gap in front of each and one behind the last. */
  function Laid(tokens: seq<Token>, gaps: seq<string>): string
    requires |gaps| == |tokens| + 1
  {
    if tokens == [] then gaps[0] else gaps[0] + (tokens[0].text + Laid(tokens[1..], gaps[1..]))
  }

  predicate IsParenthesis(t: Token) {
    t.kind.LParen? || t.kind.RParen?
  }

  /** Gaps of white space, none of them empty between two tokens that are no parentheses. */
  ghost predicate Layout(tokens: seq<Token>, gaps: seq<string>) {
    && |gaps| == |tokens| + 1
    && (forall i | 0 <= i < |gaps| :: White(gaps[i]))
    && (forall i | 0 < i < |tokens| && gaps[i] == [] :: IsParenthesis(tokens[i - 1]) || IsParenthesis(tokens[i]))
  }

  /** The pieces: the gaps that are not empty, and the tokens. */
  function PiecesOf(tokens: seq<Token>, gaps: seq<string>): seq<Token>
    requires |gaps| == |tokens| + 1
  {
    var gap := if gaps[0] == [] then [] else [Token(Space, gaps[0])];
    if tokens == [] then gap else gap + ([tokens[0]] + PiecesOf(tokens[1..], gaps[1..]))
  }

  lemma MatchedFalls(piece: Token, rest: string, more: seq<Token>)
    requires Match(piece.text + rest) == Some((piece.kind, |piece.text|)) && FallsInto(rest, more)
    ensures FallsInto(piece.text + rest, [piece] + more)
  {
    var s := piece.text + rest;
    MatchIsInFront(s);
    assert s[..|piece.text|] == piece.text && s[|piece.text|..] == rest;
    assert ([piece] + more)[1..] == more;
  }

  /** White space up to what is none is one piece. */
  lemma GapMatches(gap: string, rest: string)
    requires gap != [] && White(gap) && (rest == [] || !WhiteCode(rest[0]))
    ensures Match(gap + rest) == Some((Space, |gap|))
  {
    var s, n := gap + rest, |gap|;
    assert s[..n] == gap;
    TextsByCode(Space, gap);
    MatchExact(s);
    assert Takes(Space, s, n);
    var (kind, m) := Match(s).value;
    FirstChar(kind, s[..m]);
    assert s[..m][0] == gap[0];
    CharacterCodes(gap[0]);
    if m > n {
      TextsByCode(kind, s[..m]);
      WhiteAt(s, m, n);
    }
  }

  lemma WhiteAt(s: string, m: nat, n: nat)
    requires n < m <= |s| && IsText(Space, s[..m])
    ensures WhiteCode(s[n])
  {
    assert s[..m][n] == s[n];
  }

  /** What the text behind a gap begins with. */
  lemma LaidStarts(tokens: seq<Token>, rest: string, t: string)
    requires Genuine(tokens) && tokens != [] && t == tokens[0].text + rest
    ensures t != [] && t[0] == tokens[0].text[0] && !WhiteCode(t[0])
    ensures IsParenthesis(tokens[0]) ==> !Dense(t[0])
  {
    FirstChar(tokens[0].kind, tokens[0].text);
    CharacterCodes(t[0]);
  }

  /** What may stand behind a token: a gap, a parenthesis or the end, unless it is a parenthesis itself. */
  lemma LaidDelimits(t: Token, tokens: seq<Token>, gaps: seq<string>)
    requires Genuine(tokens) && Layout(tokens, gaps)
    requires tokens != [] && gaps[0] == [] ==> IsParenthesis(t) || IsParenthesis(tokens[0])
    ensures Delimited(t.kind, Laid(tokens, gaps))
  {
    var rest := Laid(tokens, gaps);
    if gaps[0] != [] {
      assert rest[0] == gaps[0][0];
      assert White(gaps[0]);
      CharacterCodes(rest[0]);
    } else if tokens != [] {
      LaidStarts(tokens, Laid(tokens[1..], gaps[1..]), tokens[0].text + Laid(tokens[1..], gaps[1..]));
      assert rest == tokens[0].text + Laid(tokens[1..], gaps[1..]);
    }
  }

  lemma LayoutRest(tokens: seq<Token>, gaps: seq<string>)
    requires Genuine(tokens) && Layout(tokens, gaps) && tokens != []
    ensures Genuine(tokens[1..]) && Layout(tokens[1..], gaps[1..])
    ensures Delimited(tokens[0].kind, Laid(tokens[1..], gaps[1..]))
  {
    var more, rest := tokens[1..], gaps[1..];
    forall i | 0 < i < |more| && rest[i] == [] ensures IsParenthesis(more[i - 1]) || IsParenthesis(more[i]) {
      assert gaps[i + 1] == [] && more[i] == tokens[i + 1] && more[i - 1] == tokens[i];
    }
    forall i | 0 <= i < |rest| ensures White(rest[i]) {
      assert White(gaps[i + 1]);
    }
    if more != [] && rest[0] == [] {
      assert gaps[1] == [] && more[0] == tokens[1];
    }
    LaidDelimits(tokens[0], more, rest);
  }

  lemma {:induction false} LaidFalls(tokens: seq<Token>, gaps: seq<string>)
    requires Genuine(tokens) && Layout(tokens, gaps)
    ensures FallsInto(Laid(tokens, gaps), PiecesOf(tokens, gaps))
    decreases |tokens|
  {
    assert White(gaps[0]);
    if tokens == [] {
      GapFalls(gaps[0], [], []);
      assert gaps[0] + [] == gaps[0];
      assert [Token(Space, gaps[0])] + [] == [Token(Space, gaps[0])];
    } else {
      var t, rest := tokens[0], Laid(tokens[1..], gaps[1..]);
      var more := PiecesOf(tokens[1..], gaps[1..]);
      LayoutRest(tokens, gaps);
      LaidFalls(tokens[1..], gaps[1..]);
      assert t in tokens;
      FoundAgain(t, rest);
      MatchedFalls(t, rest, more);
      LaidStarts(tokens, rest, t.text + rest);
      GapFalls(gaps[0], t.text + rest, [t] + more);
    }
  }

  lemma GapFalls(gap: string, rest: string, more: seq<Token>)
    requires White(gap) && (rest == [] || !WhiteCode(rest[0])) && FallsInto(rest, more)
    ensures FallsInto(gap + rest, (if gap == [] then [] else [Token(Space, gap)]) + more)
  {
    if gap == [] {
      assert gap + rest == rest && [] + more == more;
    } else {
      GapMatches(gap, rest);
      MatchedFalls(Token(Space, gap), rest, more);
    }
  }

  lemma {:induction false} LaidIsText(tokens: seq<Token>, gaps: seq<string>)
    requires |gaps| == |tokens| + 1 && forall t | t in tokens :: !t.kind.Space?
    ensures Text(PiecesOf(tokens, gaps)) == Laid(tokens, gaps) && Kept(PiecesOf(tokens, gaps)) == tokens
    decreases |tokens|
  {
    if tokens == [] {
      GapIsText(gaps[0], []);
      assert [Token(Space, gaps[0])] + [] == [Token(Space, gaps[0])];
      assert gaps[0] + [] == gaps[0];
    } else {
      var t, more := tokens[0], PiecesOf(tokens[1..], gaps[1..]);
      LaidIsText(tokens[1..], gaps[1..]);
      TextInFront(t, more);
      assert ([t] + more)[1..] == more;
      assert tokens == [t] + tokens[1..];
      GapIsText(gaps[0], [t] + more);
    }
  }

  lemma GapIsText(gap: string, more: seq<Token>)
    ensures var pieces := (if gap == [] then [] else [Token(Space, gap)]) + more;
            Text(pieces) == gap + Text(more) && Kept(pieces) == Kept(more)
  {
    if gap == [] {
      assert [] + more == more && gap + Text(more) == Text(more);
    } else {
      TextInFront(Token(Space, gap), more);
      assert ([Token(Space, gap)] + more)[1..] == more;
    }
  }

  /** Genuine tokens, laid out with any white space, lex to themselves. */
  lemma LaidLexes(tokens: seq<Token>, gaps: seq<string>)
    requires Genuine(tokens) && Layout(tokens, gaps)
    ensures Lexed(Laid(tokens, gaps)) == Success(tokens)
  {
    LaidFalls(tokens, gaps);
    LaidIsText(tokens, gaps);
    LexesExactly(Laid(tokens, gaps), tokens);
  }
}
