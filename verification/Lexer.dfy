/**
The lexer, over ASCII: a token is found by trying the alternatives of one regular expression in
a fixed order, each of them as long as it goes. `Belongs` says which texts an alternative takes;
`Match` is the search, and it is proved to be the first alternative's longest prefix.
*/
module Lexer {
  import opened Wrappers

  datatype Kind = Ipv4 | Number | Word | LParen | RParen | Space

  datatype Token = Token(kind: Kind, text: string)

  predicate Digit(c: char) {
    '0' <= c <= '9'
  }

  predicate Letter(c: char) {
    'a' <= c <= 'z' || 'A' <= c <= 'Z'
  }

  predicate Alphanumeric(c: char) {
    Letter(c) || Digit(c)
  }

  /** ASCII white space: blank, tab to carriage return, and the four separators. */
  predicate Blank(c: char) {
    c == ' ' || 9 <= c as int <= 13 || 28 <= c as int <= 31
  }

  predicate All(p: char -> bool, t: string) {
    forall i | 0 <= i < |t| :: p(t[i])
  }

  // What the alternatives take.

  /** `groups` runs of one to three digits with dots between them. */
  ghost predicate Dotted(groups: nat, t: string)
    decreases groups, t
  {
    if groups <= 1 then 1 <= |t| <= 3 && All(Digit, t)
    else exists d | 1 <= d <= 3 && d < |t| ::
      All(Digit, t[..d]) && t[d] == '.' && Dotted(groups - 1, t[d + 1..])
  }

  ghost predicate Belongs(kind: Kind, t: string) {
    match kind
    case Ipv4 => Dotted(4, t)
    case Number => t != [] && All(Digit, t)
    case Word => t != [] && Letter(t[0]) && All(Alphanumeric, t)
    case LParen => t == "("
    case RParen => t == ")"
    case Space => t != [] && All(Blank, t)
  }

  // The search.

  /** The length of the longest prefix of such characters. */
  function RunOf(p: char -> bool, s: string): (n: nat)
    ensures n <= |s| && All(p, s[..n]) && (n < |s| ==> !p(s[n]))
  {
    if s != [] && p(s[0]) then
      var n := 1 + RunOf(p, s[1..]);
      assert s[..n] == [s[0]] + s[1..][..n - 1];
      n
    else 0
  }

  /** The length of the dotted groups in front, with at most three digits taken of the last one. */
  function MatchDotted(groups: nat, s: string): (r: Option<nat>)
    ensures r.Some? ==> 0 < r.value <= |s|
    decreases groups, s
  {
    var d := RunOf(Digit, s);
    if groups <= 1 then
      if d == 0 then None else Some(if d > 3 then 3 else d)
    else if 1 <= d <= 3 && d < |s| && s[d] == '.' then
      match MatchDotted(groups - 1, s[d + 1..])
      case None => None
      case Some(n) => Some(d + 1 + n)
    else None
  }

  function NonEmpty(n: nat): Option<nat> {
    if n == 0 then None else Some(n)
  }

  function MatchKind(kind: Kind, s: string): (r: Option<nat>)
    ensures r.Some? ==> 0 < r.value <= |s|
  {
    match kind
    case Ipv4 => MatchDotted(4, s)
    case Number => NonEmpty(RunOf(Digit, s))
    case Word => if s != [] && Letter(s[0]) then NonEmpty(RunOf(Alphanumeric, s)) else None
    case LParen => if s != [] && s[0] == '(' then Some(1) else None
    case RParen => if s != [] && s[0] == ')' then Some(1) else None
    case Space => NonEmpty(RunOf(Blank, s))
  }

  /** The order the alternatives are tried in: a dotted address before a number. */
  const ORDER: seq<Kind> := [Ipv4, Number, Word, LParen, RParen, Space]

  /** The first alternative from the `from`th on that matches, with the length of its match. */
  function MatchFrom(from: nat, s: string): (r: Option<(Kind, nat)>)
    requires from <= 6
    ensures r.Some? ==> 0 < r.value.1 <= |s|
    decreases 6 - from, s
  {
    if from == 6 then None
    else
      match MatchKind(ORDER[from], s)
      case Some(n) => Some((ORDER[from], n))
      case None => MatchFrom(from + 1, s)
  }

  function Match(s: string): (r: Option<(Kind, nat)>)
    ensures r.Some? ==> 0 < r.value.1 <= |s|
  {
    MatchFrom(0, s)
  }

  // The search finds what the alternatives take.

  /** The first `m` characters belong to the alternative. */
  ghost predicate Takes(kind: Kind, s: string, m: int) {
    0 <= m <= |s| && Belongs(kind, s[..m])
  }

  ghost predicate TakesDotted(groups: nat, s: string, m: int) {
    0 <= m <= |s| && Dotted(groups, s[..m])
  }

  lemma AtPrefix(p: char -> bool, s: string, m: nat, i: nat)
    requires i < m <= |s| && All(p, s[..m])
    ensures p(s[i])
  {
    assert s[..m][i] == s[i];
  }

  /** A prefix of such characters is not longer than the run of them. */
  lemma RunIsLongest(p: char -> bool, s: string, m: nat)
    requires m <= |s| && All(p, s[..m])
    ensures m <= RunOf(p, s)
  {
    if RunOf(p, s) < m {
      AtPrefix(p, s, m, RunOf(p, s));
    }
  }

  lemma RunIs(p: char -> bool, s: string, d: nat)
    requires d < |s| && All(p, s[..d]) && !p(s[d])
    ensures RunOf(p, s) == d
  {
    RunIsLongest(p, s, d);
    if d < RunOf(p, s) {
      AtPrefix(p, s, RunOf(p, s), d);
    }
  }

  /** A prefix property, and the length of the longest prefix with it, if there is any. */
  ghost predicate TakesOf(q: string -> bool, s: string, m: int) {
    0 <= m <= |s| && q(s[..m])
  }

  ghost predicate LongestOf(q: string -> bool, s: string, r: Option<nat>) {
    match r
    case Some(n) => TakesOf(q, s, n) && forall m | n < m :: !TakesOf(q, s, m)
    case None => forall m :: !TakesOf(q, s, m)
  }

  /** A group of digits and a dot, and `more` behind them. */
  ghost predicate GroupBefore(more: string -> bool, d: int, t: string) {
    1 <= d <= 3 && d < |t| && All(Digit, t[..d]) && t[d] == '.' && more(t[d + 1..])
  }

  ghost predicate Adds(q: string -> bool, more: string -> bool) {
    forall t {:trigger q(t)} :: q(t) <==> exists d :: GroupBefore(more, d, t)
  }

  predicate HasFirst(s: string, d: nat) {
    1 <= d <= 3 && d < |s| && s[d] == '.'
  }

  /** What stands before, at and behind a position of a prefix. */
  lemma PrefixParts(s: string, m: nat, t: string, d: nat)
    requires d < m <= |s| && t == s[..m]
    ensures t[..d] == s[..d] && t[d] == s[d] && t[d + 1..] == s[d + 1..][..m - d - 1]
  {
  }

  /** The first group of a prefix is the whole run of digits in front. */
  lemma GroupIsRun(more: string -> bool, s: string, m: nat, t: string, d: nat)
    requires m <= |s| && t == s[..m] && GroupBefore(more, d, t)
    ensures RunOf(Digit, s) == d && HasFirst(s, d) && TakesOf(more, s[d + 1..], m - d - 1)
  {
    PrefixParts(s, m, t, d);
    RunIs(Digit, s, d);
  }

  lemma GroupInFront(more: string -> bool, s: string, d: nat, n: nat, t: string)
    requires HasFirst(s, d) && All(Digit, s[..d]) && TakesOf(more, s[d + 1..], n) && t == s[..d + 1 + n]
    ensures GroupBefore(more, d, t)
  {
    PrefixParts(s, d + 1 + n, t, d);
  }

  /** What a group in front of others comes to with them. */
  function WithFirst(d: nat, more: Option<nat>): Option<nat> {
    match more
    case None => None
    case Some(n) => Some(d + 1 + n)
  }

  lemma TakesMore(q: string -> bool, more: string -> bool, s: string, m: nat, d: nat)
    requires Adds(q, more) && d == RunOf(Digit, s) && TakesOf(q, s, m)
    ensures HasFirst(s, d) && TakesOf(more, s[d + 1..], m - d - 1)
  {
    var t := s[..m];
    var e :| GroupBefore(more, e, t);
    GroupIsRun(more, s, m, t, e);
  }

  lemma MoreGroups(q: string -> bool, more: string -> bool, s: string, d: nat, rest: string, r: Option<nat>)
    requires Adds(q, more) && d == RunOf(Digit, s) && HasFirst(s, d) && rest == s[d + 1..]
    requires LongestOf(more, rest, r)
    ensures LongestOf(q, s, WithFirst(d, r))
  {
    if r.Some? {
      GroupInFront(more, s, d, r.value, s[..d + 1 + r.value]);
    }
    forall m | TakesOf(q, s, m) ensures TakesOf(more, rest, m - d - 1) {
      TakesMore(q, more, s, m, d);
    }
  }

  lemma NoGroups(q: string -> bool, more: string -> bool, s: string, d: nat)
    requires Adds(q, more) && d == RunOf(Digit, s) && !HasFirst(s, d)
    ensures LongestOf(q, s, None)
  {
    forall m ensures !TakesOf(q, s, m) {
      if TakesOf(q, s, m) {
        TakesMore(q, more, s, m, d);
      }
    }
  }

  /** Having so many groups, as a property. */
  ghost predicate IsDotted(q: string -> bool, groups: nat) {
    forall t {:trigger Dotted(groups, t)} :: q(t) <==> Dotted(groups, t)
  }

  lemma GroupsOf(groups: nat) returns (q: string -> bool)
    ensures IsDotted(q, groups)
  {
    q := t => Dotted(groups, t);
  }

  lemma FirstGroupOf(groups: nat, t: string) returns (d: nat)
    requires groups > 1 && Dotted(groups, t)
    ensures 1 <= d <= 3 && d < |t| && All(Digit, t[..d]) && t[d] == '.' && Dotted(groups - 1, t[d + 1..])
  {
    d :| 1 <= d <= 3 && d < |t| && All(Digit, t[..d]) && t[d] == '.' && Dotted(groups - 1, t[d + 1..]);
  }

  lemma OneGroupMore(q: string -> bool, more: string -> bool, groups: nat, fewer: nat, t: string)
    requires groups > 1 && fewer == groups - 1 && IsDotted(q, groups) && IsDotted(more, fewer)
    ensures q(t) <==> exists d :: GroupBefore(more, d, t)
  {
    if Dotted(groups, t) {
      var d := FirstGroupOf(groups, t);
      assert Dotted(fewer, t[d + 1..]);
      assert GroupBefore(more, d, t);
    }
    if d :| GroupBefore(more, d, t) {
      assert Dotted(fewer, t[d + 1..]);
    }
  }

  lemma LastGroup(q: string -> bool, s: string)
    requires IsDotted(q, 1)
    ensures LongestOf(q, s, MatchDotted(1, s))
  {
    forall m ensures TakesOf(q, s, m) <==> 1 <= m <= RunOf(Digit, s) && m <= 3 {
      if 0 <= m <= |s| {
        assert q(s[..m]) <==> Dotted(1, s[..m]);
        if All(Digit, s[..m]) {
          RunIsLongest(Digit, s, m);
        }
      }
    }
  }

  lemma MatchesMore(groups: nat, fewer: nat, s: string, d: nat)
    requires groups > 1 && fewer == groups - 1 && d == RunOf(Digit, s)
    ensures MatchDotted(groups, s) == if HasFirst(s, d) then WithFirst(d, MatchDotted(fewer, s[d + 1..])) else None
  {
  }

  lemma {:induction false} DottedLongest(q: string -> bool, groups: nat, s: string)
    requires groups > 0 && IsDotted(q, groups)
    ensures LongestOf(q, s, MatchDotted(groups, s))
    decreases groups
  {
    if groups == 1 {
      LastGroup(q, s);
    } else {
      var fewer, d := groups - 1, RunOf(Digit, s);
      var more := GroupsOf(fewer);
      forall t ensures q(t) <==> exists d :: GroupBefore(more, d, t) {
        OneGroupMore(q, more, groups, fewer, t);
      }
      MatchesMore(groups, fewer, s, d);
      if HasFirst(s, d) {
        DottedLongest(more, fewer, s[d + 1..]);
        MoreGroups(q, more, s, d, s[d + 1..], MatchDotted(fewer, s[d + 1..]));
      } else {
        NoGroups(q, more, s, d);
      }
    }
  }

  /** Dotted groups are found whenever some prefix has them, and as far as they go. */
  lemma DottedExact(groups: nat, s: string)
    requires groups > 0
    ensures match MatchDotted(groups, s)
            case Some(n) => TakesDotted(groups, s, n) && forall m | n < m :: !TakesDotted(groups, s, m)
            case None => forall m :: !TakesDotted(groups, s, m)
  {
    var q := GroupsOf(groups);
    DottedLongest(q, groups, s);
    forall m ensures TakesDotted(groups, s, m) <==> TakesOf(q, s, m) {}
  }

  lemma RunExact(p: char -> bool, s: string)
    ensures forall m | RunOf(p, s) < m <= |s| :: !All(p, s[..m])
  {
    forall m | 0 <= m <= |s| && All(p, s[..m]) ensures m <= RunOf(p, s) {
      RunIsLongest(p, s, m);
    }
  }

  /** One alternative takes a prefix exactly when it has one, and then its longest. */
  lemma KindExact(kind: Kind, s: string)
    ensures match MatchKind(kind, s)
            case Some(n) => n > 0 && Takes(kind, s, n) && forall m | n < m :: !Takes(kind, s, m)
            case None => forall m :: !Takes(kind, s, m)
  {
    match kind
    case Ipv4 =>
      forall m ensures Takes(Ipv4, s, m) <==> TakesDotted(4, s, m) {}
      DottedExact(4, s);
    case Number => RunExact(Digit, s);
    case Space => RunExact(Blank, s);
    case Word =>
      if s != [] && Letter(s[0]) {
        RunIsLongest(Alphanumeric, s, 1);
        RunExact(Alphanumeric, s);
      }
    case _ =>
  }

  function Priority(kind: Kind): nat {
    match kind
    case Ipv4 => 0
    case Number => 1
    case Word => 2
    case LParen => 3
    case RParen => 4
    case Space => 5
  }

  /**
  The lexer takes the first alternative, in its order, that any prefix belongs to, and of that
  the longest prefix; it takes nothing only where no prefix belongs to any alternative.
  */
  lemma MatchExact(s: string)
    ensures match Match(s)
            case Some((kind, n)) =>
              && n > 0 && Takes(kind, s, n)
              && (forall m | n < m :: !Takes(kind, s, m))
              && (forall k, m | Priority(k) < Priority(kind) :: !Takes(k, s, m))
            case None => forall k, m :: !Takes(k, s, m)
  {
    MatchFromExact(0, s);
  }

  lemma {:induction false} MatchFromExact(from: nat, s: string)
    requires from <= 6
    ensures match MatchFrom(from, s)
            case Some((kind, n)) =>
              && from <= Priority(kind)
              && n > 0 && Takes(kind, s, n)
              && (forall m | n < m :: !Takes(kind, s, m))
              && (forall k, m | from <= Priority(k) < Priority(kind) :: !Takes(k, s, m))
            case None => forall k, m | from <= Priority(k) :: !Takes(k, s, m)
    decreases 6 - from
  {
    if from < 6 {
      var kind := ORDER[from];
      assert Priority(kind) == from && forall k | Priority(k) == from :: k == kind;
      KindExact(kind, s);
      MatchFromExact(from + 1, s);
    }
  }

  /** Some alternative starts with such a character. */
  predicate Starts(c: char) {
    Alphanumeric(c) || c == '(' || c == ')' || Blank(c)
  }

  /** What a text of each kind begins with. */
  lemma FirstChar(kind: Kind, t: string)
    requires Belongs(kind, t)
    ensures t != [] && Starts(t[0])
    ensures match kind
            case Ipv4 => Digit(t[0])
            case Number => Digit(t[0])
            case Word => Letter(t[0])
            case LParen => t[0] == '('
            case RParen => t[0] == ')'
            case Space => Blank(t[0])
  {
    if kind.Ipv4? {
      var d :| 1 <= d <= 3 && d < |t| && All(Digit, t[..d]) && t[d] == '.' && Dotted(3, t[d + 1..]);
      assert t[0] == t[..d][0];
    }
  }

  /** Whether anything matches depends on the next character only. */
  lemma MatchesIff(s: string)
    ensures Match(s).Some? <==> s != [] && Starts(s[0])
  {
    MatchExact(s);
    if s != [] && Starts(s[0]) {
      assert s[..1] == [s[0]];
      assert Takes(Number, s, 1) || Takes(Word, s, 1) || Takes(LParen, s, 1) || Takes(RParen, s, 1)
          || Takes(Space, s, 1);
    }
    if Match(s).Some? {
      var (kind, n) := Match(s).value;
      FirstChar(kind, s[..n]);
    }
  }

  // The token list.

  /** A compiled regular expression: the alternative that matches at the start of a text, and how much of it. */
  type Matcher = string -> Option<(Kind, nat)>

  /** Every match has at least one character, and the text has them all. */
  ghost predicate Sound(m: Matcher) {
    forall t {:trigger m(t)} :: m(t).Some? ==> 0 < m(t).value.1 <= |t|
  }

  /** The pieces of the input, white space included, up to where none matches. */
  datatype Scan = Scan(pieces: seq<Token>, stop: nat)

  function Scanned(m: Matcher, s: string, pos: nat): Scan
    requires Sound(m) && pos <= |s|
    decreases |s| - pos
  {
    match m(s[pos..])
    case None => Scan([], pos)
    case Some((kind, n)) =>
      var rest := Scanned(m, s, pos + n);
      Scan([Token(kind, s[pos..pos + n])] + rest.pieces, rest.stop)
  }

  function Kept(pieces: seq<Token>): seq<Token> {
    if pieces == [] then []
    else (if pieces[0].kind.Space? then [] else [pieces[0]]) + Kept(pieces[1..])
  }

  function TokensOf(scan: Scan, s: string): Result<seq<Token>, nat> {
    if scan.stop < |s| then Failure(scan.stop) else Success(Kept(scan.pieces))
  }

  /** The tokens of an expression, or the position of the character that starts none. */
  function Lexed(s: string): Result<seq<Token>, nat> {
    TokensOf(Scanned(Match, s, 0), s)
  }

  /** The piece as a token, unless it is white space. */
  function AsTokens(kind: Kind, text: string): seq<Token> {
    if kind.Space? then [] else [Token(kind, text)]
  }

  /** One piece of a scan. */
  lemma ScanStep(m: Matcher, s: string, pos: nat)
    requires Sound(m) && pos <= |s|
    ensures match m(s[pos..])
            case None => Scanned(m, s, pos) == Scan([], pos)
            case Some((kind, n)) =>
              var rest := Scanned(m, s, pos + n);
              && Scanned(m, s, pos).stop == rest.stop
              && Kept(Scanned(m, s, pos).pieces) == AsTokens(kind, s[pos..pos + n]) + Kept(rest.pieces)
  {
    match m(s[pos..])
    case None =>
    case Some((kind, n)) =>
      assert Scanned(m, s, pos).pieces[1..] == Scanned(m, s, pos + n).pieces;
  }

  /** The tokens from a position on and where the scan stops, as one function. */
  type Scanner = nat -> Scan

  function KeptFrom(m: Matcher, s: string, pos: nat): Scan
    requires Sound(m) && pos <= |s|
  {
    var scan := Scanned(m, s, pos);
    Scan(Kept(scan.pieces), scan.stop)
  }

  ghost predicate Scans(f: Scanner, m: Matcher, s: string)
    requires Sound(m)
  {
    forall pos: nat {:trigger KeptFrom(m, s, pos)} | pos <= |s| :: f(pos) == KeptFrom(m, s, pos)
  }

  lemma ScannerOf(m: Matcher, s: string) returns (f: Scanner)
    requires Sound(m)
    ensures Scans(f, m, s)
  {
    f := (pos: nat) => if pos <= |s| then KeptFrom(m, s, pos) else Scan([], 0);
  }

  /** `tokens` are those of the pieces before `pos`. */
  ghost predicate Lexing(f: Scanner, pos: nat, tokens: seq<Token>) {
    f(0) == Scan(tokens + f(pos).pieces, f(pos).stop)
  }

  lemma TokensAssociate(a: seq<Token>, b: seq<Token>, c: seq<Token>)
    ensures a + (b + c) == a + b + c && a + [] == a
  {
  }

  lemma LexingOn(f: Scanner, m: Matcher, s: string, pos: nat, tokens: seq<Token>)
    requires Sound(m) && Scans(f, m, s) && pos <= |s| && Lexing(f, pos, tokens)
    ensures match m(s[pos..])
            case None => f(0) == Scan(tokens, pos)
            case Some((kind, n)) => Lexing(f, pos + n, tokens + AsTokens(kind, s[pos..pos + n]))
  {
    ScanStep(m, s, pos);
    var here := KeptFrom(m, s, pos);
    match m(s[pos..])
    case None =>
      TokensAssociate(tokens, [], []);
    case Some((kind, n)) =>
      var there := KeptFrom(m, s, pos + n);
      TokensAssociate(tokens, AsTokens(kind, s[pos..pos + n]), f(pos + n).pieces);
  }

  method Scanning(m: Matcher, expr: string) returns (r: Result<seq<Token>, nat>)
    requires Sound(m)
    ensures r == TokensOf(Scanned(m, expr, 0), expr)
  {
    ghost var f := ScannerOf(m, expr);
    ghost var whole := KeptFrom(m, expr, 0);
    var tokens: seq<Token> := [];
    var pos := 0;
    while pos < |expr|
      invariant pos <= |expr| && Lexing(f, pos, tokens)
      decreases |expr| - pos
    {
      LexingOn(f, m, expr, pos, tokens);
      match m(expr[pos..]) {
        case None =>
          return Failure(pos);
        case Some((kind, n)) =>
          tokens := tokens + AsTokens(kind, expr[pos..pos + n]);
          pos := pos + n;
      }
    }
    LexingOn(f, m, expr, pos, tokens);
    return Success(tokens);
  }

  method Tokenize(expr: string) returns (r: Result<seq<Token>, nat>)
    ensures r == Lexed(expr)
  {
    r := Scanning(Match, expr);
  }

  function Text(pieces: seq<Token>): string {
    if pieces == [] then [] else pieces[0].text + Text(pieces[1..])
  }

  /** What a matcher finds belongs to the alternative it names. */
  ghost predicate Finds(m: Matcher) {
    forall t {:trigger m(t)} :: m(t).Some? ==> Takes(m(t).value.0, t, m(t).value.1)
  }

  /** The pieces put together are the text from `pos` on, each of them belonging to its alternative. */
  ghost predicate Parts(scan: Scan, s: string, pos: nat) {
    && pos <= scan.stop <= |s|
    && Text(scan.pieces) == s[pos..scan.stop]
    && (forall t | t in scan.pieces :: Belongs(t.kind, t.text))
  }

  lemma PartInFront(rest: Scan, s: string, pos: nat, next: nat, t: Token)
    requires pos <= next && Parts(rest, s, next) && t.text == s[pos..next] && Belongs(t.kind, t.text)
    ensures Parts(Scan([t] + rest.pieces, rest.stop), s, pos)
  {
    TextInFront(t, rest.pieces);
    SlicesMeet(s, pos, next, rest.stop);
  }

  lemma NoParts(s: string, pos: nat)
    requires pos <= |s|
    ensures Parts(Scan([], pos), s, pos)
  {
  }

  lemma {:induction false} ScanParts(m: Matcher, s: string, pos: nat)
    requires Sound(m) && Finds(m) && pos <= |s|
    ensures var scan := Scanned(m, s, pos);
            Parts(scan, s, pos) && m(s[scan.stop..]).None?
    decreases |s| - pos
  {
    match m(s[pos..])
    case None => NoParts(s, pos);
    case Some((kind, n)) =>
      var t := Token(kind, s[pos..pos + n]);
      ScanParts(m, s, pos + n);
      TakenBelongs(kind, s, pos, n, t.text);
      PartInFront(Scanned(m, s, pos + n), s, pos, pos + n, t);
  }

  lemma TextInFront(t: Token, pieces: seq<Token>)
    ensures Text([t] + pieces) == t.text + Text(pieces)
  {
    assert ([t] + pieces)[1..] == pieces;
  }

  lemma SlicesMeet(s: string, i: nat, j: nat, k: nat)
    requires i <= j <= k <= |s|
    ensures s[i..j] + s[j..k] == s[i..k]
  {
  }

  lemma TakenBelongs(kind: Kind, s: string, pos: nat, n: nat, text: string)
    requires pos + n <= |s| && Takes(kind, s[pos..], n) && text == s[pos..pos + n]
    ensures Belongs(kind, text)
  {
    assert s[pos..][..n] == text;
  }

  /**
  The pieces, white space included, put together are the input up to where the lexer stops; each
  of them belongs to its alternative; and the lexer stops at the first piece boundary whose
  character no token starts with, or at the end.
  */
  lemma Partition(s: string)
    ensures var scan := Scanned(Match, s, 0);
            && scan.stop <= |s|
            && Text(scan.pieces) == s[..scan.stop]
            && (forall t | t in scan.pieces :: Belongs(t.kind, t.text))
            && (scan.stop < |s| ==> !Starts(s[scan.stop]))
  {
    forall t ensures Match(t).Some? ==> Takes(Match(t).value.0, t, Match(t).value.1) {
      MatchExact(t);
    }
    ScanParts(Match, s, 0);
    MatchesIff(s[Scanned(Match, s, 0).stop..]);
  }

  // Tokens with spaces between them.

  /** What is put between two tokens: a space, except inside parentheses if `tight`. */
  function Gap(tight: bool, t: Token, u: Token): string {
    if tight && (t.kind.LParen? || u.kind.RParen?) then [] else " "
  }

  function Joined(tight: bool, tokens: seq<Token>): string
    decreases tokens
  {
    if tokens == [] then []
    else if |tokens| == 1 then tokens[0].text
    else tokens[0].text + (Gap(tight, tokens[0], tokens[1]) + Joined(tight, tokens[1..]))
  }

  function Spaced(tokens: seq<Token>): string {
    Joined(false, tokens)
  }

  /** A token list the lexer could have produced. */
  ghost predicate Genuine(tokens: seq<Token>) {
    forall t | t in tokens :: !t.kind.Space? && Belongs(t.kind, t.text)
  }

  lemma {:induction false} DottedChars(groups: nat, t: string)
    requires Dotted(groups, t)
    ensures All((c: char) => Digit(c) || c == '.', t)
    ensures groups > 1 ==> exists i | 0 <= i < |t| :: t[i] == '.'
    decreases groups
  {
    if groups > 1 {
      var d :| 1 <= d <= 3 && d < |t| && All(Digit, t[..d]) && t[d] == '.' && Dotted(groups - 1, t[d + 1..]);
      var rest := t[d + 1..];
      DottedChars(groups - 1, rest);
      forall i | 0 <= i < |t| ensures Digit(t[i]) || t[i] == '.' {
        if i < d {
          assert t[i] == t[..d][i];
        } else if i > d {
          assert t[i] == rest[i - d - 1];
        }
      }
    }
  }

  /** No token begins with a text of an earlier alternative. */
  lemma KindsApart(kind: Kind, t: string, earlier: Kind, u: string)
    requires Belongs(kind, t) && Belongs(earlier, u) && u <= t && !kind.Space?
    ensures Priority(kind) <= Priority(earlier)
  {
    FirstChar(kind, t);
    FirstChar(earlier, u);
    assert u[0] == t[0];
    if earlier.Ipv4? {
      DottedChars(4, u);
      var i :| 0 <= i < |u| && u[i] == '.';
      assert !Digit(t[i]);
    }
  }

  predicate Dense(c: char) {
    Alphanumeric(c) || c == '.'
  }

  lemma DenseText(kind: Kind, t: string)
    requires Belongs(kind, t) && kind in {Ipv4, Number, Word}
    ensures All(Dense, t)
  {
    if kind.Ipv4? {
      DottedChars(4, t);
    }
  }

  /** What may follow a token without being taken for a part of it. */
  predicate Delimited(kind: Kind, rest: string) {
    kind.LParen? || kind.RParen? || rest == [] || !Dense(rest[0])
  }

  /** No token is found that is longer than the text in front of what ends it. */
  lemma StopsAtEnd(t: Token, rest: string, k: Kind, m: nat)
    requires !t.kind.Space? && Belongs(t.kind, t.text) && Delimited(t.kind, rest)
    requires Takes(k, t.text + rest, m)
    ensures m <= |t.text|
  {
    var s := t.text + rest;
    FirstChar(t.kind, t.text);
    FirstChar(k, s[..m]);
    assert s[..m][0] == t.text[0];
    if !t.kind.LParen? && !t.kind.RParen? {
      DenseText(k, s[..m]);
      if |t.text| < m {
        AtPrefix(Dense, s, m, |t.text|);
      }
    }
  }

  /** A token is found again, whole and of its own kind, in front of what ends it. */
  lemma FoundAgain(t: Token, rest: string)
    requires !t.kind.Space? && Belongs(t.kind, t.text) && Delimited(t.kind, rest)
    ensures Match(t.text + rest) == Some((t.kind, |t.text|))
  {
    var s, len := t.text + rest, |t.text|;
    MatchExact(s);
    assert s[..len] == t.text;
    assert Takes(t.kind, s, len);
    var (kind, n) := Match(s).value;
    StopsAtEnd(t, rest, kind, n);
    assert s[..n] == t.text[..n];
    KindsApart(t.kind, t.text, kind, s[..n]);
    assert forall k, l | Priority(k) == Priority(l) :: k == l;
  }

  /** The text of genuine tokens begins with that of the first. */
  lemma JoinedStarts(tight: bool, tokens: seq<Token>)
    requires Genuine(tokens) && tokens != []
    ensures var s := Joined(tight, tokens);
            s != [] && s[0] == tokens[0].text[0] && (tokens[0].kind.RParen? ==> s[0] == ')') && !Blank(s[0])
  {
    FirstChar(tokens[0].kind, tokens[0].text);
  }

  /** A matcher that finds every genuine token again in front of what ends it, and single blanks. */
  ghost predicate Rereads(m: Matcher) {
    && (forall t: Token, rest: string {:trigger t.text + rest} |
          !t.kind.Space? && Belongs(t.kind, t.text) && Delimited(t.kind, rest) ::
          m(t.text + rest) == Some((t.kind, |t.text|)))
    && (forall rest: string {:trigger " " + rest} | rest != [] && !Blank(rest[0]) :: m(" " + rest) == Some((Space, 1)))
    && m([]) == None
  }

  lemma ScansOn(f: Scanner, m: Matcher, s: string, pos: nat, kind: Kind, n: nat, next: nat)
    requires Sound(m) && Scans(f, m, s) && pos <= |s| && m(s[pos..]) == Some((kind, n)) && next == pos + n
    ensures next <= |s| && f(pos) == Scan(AsTokens(kind, s[pos..next]) + f(next).pieces, f(next).stop)
  {
    ScanStep(m, s, pos);
    var here, there := KeptFrom(m, s, pos), KeptFrom(m, s, next);
  }

  lemma ScansToken(f: Scanner, m: Matcher, t: Token, rest: string, s: string, pos: nat, next: nat)
    requires Sound(m) && Scans(f, m, s) && Rereads(m)
    requires !t.kind.Space? && Belongs(t.kind, t.text) && Delimited(t.kind, rest)
    requires pos <= |s| && s[pos..] == t.text + rest && next == pos + |t.text|
    ensures next <= |s| && s[next..] == rest && f(pos) == Scan([t] + f(next).pieces, f(next).stop)
  {
    var here := s[pos..];
    assert s[pos..next] == here[..|t.text|] == t.text;
    assert s[next..] == here[|t.text|..] == rest;
    ScansOn(f, m, s, pos, t.kind, |t.text|, next);
  }

  lemma ScansBlank(f: Scanner, m: Matcher, rest: string, s: string, pos: nat, next: nat)
    requires Sound(m) && Scans(f, m, s) && Rereads(m) && rest != [] && !Blank(rest[0])
    requires pos <= |s| && s[pos..] == " " + rest && next == pos + 1
    ensures next <= |s| && s[next..] == rest && f(pos) == f(next)
  {
    assert s[next..] == s[pos..][1..];
    ScansOn(f, m, s, pos, Space, 1, next);
    assert [] + f(next).pieces == f(next).pieces;
  }

  /** A token and what is put between it and the next one. */
  lemma ScansGap(f: Scanner, m: Matcher, tight: bool, t: Token, u: Token, rest: string, s: string, pos: nat)
    returns (next: nat)
    requires Sound(m) && Scans(f, m, s) && Rereads(m) && !t.kind.Space? && Belongs(t.kind, t.text)
    requires rest != [] && !Blank(rest[0]) && (u.kind.RParen? ==> rest[0] == ')')
    requires pos <= |s| && s[pos..] == t.text + (Gap(tight, t, u) + rest)
    ensures next <= |s| && s[next..] == rest && f(pos) == Scan([t] + f(next).pieces, f(next).stop)
  {
    var gap := Gap(tight, t, u);
    next := pos + |t.text|;
    if gap == " " {
      ScansToken(f, m, t, " " + rest, s, pos, next);
      ScansBlank(f, m, rest, s, next, next + 1);
      next := next + 1;
    } else {
      assert gap + rest == rest;
      ScansToken(f, m, t, rest, s, pos, next);
    }
  }

  lemma {:induction false} ScansJoined(f: Scanner, m: Matcher, tight: bool, tokens: seq<Token>, s: string, pos: nat)
    requires Sound(m) && Scans(f, m, s) && Rereads(m)
    requires Genuine(tokens) && pos <= |s| && s[pos..] == Joined(tight, tokens)
    ensures f(pos) == Scan(tokens, |s|)
    decreases |tokens|
  {
    if |tokens| > 1 {
      var more := tokens[1..];
      JoinedStarts(tight, more);
      var next := ScansGap(f, m, tight, tokens[0], more[0], Joined(tight, more), s, pos);
      ScansJoined(f, m, tight, more, s, next);
      assert tokens == [tokens[0]] + more;
    } else {
      ScansLast(f, m, tokens, s, pos);
    }
  }

  lemma ScansLast(f: Scanner, m: Matcher, tokens: seq<Token>, s: string, pos: nat)
    requires Sound(m) && Scans(f, m, s) && Rereads(m) && Genuine(tokens) && |tokens| <= 1
    requires pos <= |s| && s[pos..] == if tokens == [] then [] else tokens[0].text
    ensures f(pos) == Scan(tokens, |s|)
  {
    ScanStep(m, s, |s|);
    var end := KeptFrom(m, s, |s|);
    if tokens != [] {
      assert s[pos..] == tokens[0].text + [];
      ScansToken(f, m, tokens[0], [], s, pos, |s|);
    }
  }

  /** A single blank. */
  lemma BlankMatches(rest: string)
    requires rest != [] && !Blank(rest[0])
    ensures Match(" " + rest) == Some((Space, 1))
  {
    var here := " " + rest;
    MatchExact(here);
    MatchesIff(here);
    var (kind, n) := Match(here).value;
    assert here[..1] == " " && Takes(Space, here, 1);
    assert here[..n][0] == ' ';
    FirstChar(kind, here[..n]);
    if n > 1 {
      AtPrefix(Blank, here, n, 1);
    }
  }

  /** Any genuine token list, joined with single spaces, lexes to itself, with or without spaces inside parentheses. */
  lemma JoinedLexes(tight: bool, tokens: seq<Token>)
    requires Genuine(tokens)
    ensures Lexed(Joined(tight, tokens)) == Success(tokens)
  {
    forall t: Token, rest: string | !t.kind.Space? && Belongs(t.kind, t.text) && Delimited(t.kind, rest)
      ensures Match(t.text + rest) == Some((t.kind, |t.text|))
    {
      FoundAgain(t, rest);
    }
    forall rest: string | rest != [] && !Blank(rest[0]) ensures Match(" " + rest) == Some((Space, 1)) {
      BlankMatches(rest);
    }
    MatchesIff([]);
    var s := Joined(tight, tokens);
    var f := ScannerOf(Match, s);
    ScansJoined(f, Match, tight, tokens, s, 0);
    var whole := KeptFrom(Match, s, 0);
  }

  lemma {:induction false} KeptAreKept(pieces: seq<Token>)
    ensures forall t | t in Kept(pieces) :: t in pieces && !t.kind.Space?
  {
    if pieces != [] {
      KeptAreKept(pieces[1..]);
    }
  }

  /** What the lexer returns is genuine, so joining it with spaces and lexing again changes nothing. */
  lemma LexingIsStable(s: string)
    requires Lexed(s).Success?
    ensures Genuine(Lexed(s).value)
    ensures Lexed(Spaced(Lexed(s).value)) == Lexed(s)
  {
    Partition(s);
    KeptAreKept(Scanned(Match, s, 0).pieces);
    JoinedLexes(false, Lexed(s).value);
  }
}
