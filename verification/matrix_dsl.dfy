/** The matrix DSL: expressions, tokens and lexer. */
module MatrixDsl {
  import opened Options

  /** A parsed expression. Empty is never parsed; only simplification makes it. */
  datatype Expr =
    | Name(id: string)
    | SetRef(name: string)
    | AndExpr(children: seq<Expr>)
    | OrExpr(children: seq<Expr>)
    | EmptyExpr

  /** Every operator has at least two operands, and nothing is empty: what can be written down. */
  predicate Printable(e: Expr) {
    match e
    case AndExpr(es) => |es| >= 2 && forall i | 0 <= i < |es| :: Printable(es[i])
    case OrExpr(es) => |es| >= 2 && forall i | 0 <= i < |es| :: Printable(es[i])
    case EmptyExpr => false
    case _ => true
  }

  datatype Token = Ident(val: string) | AndTok | OrTok | LParen | RParen | RefTok(val: string) | Eof

  /** The Unicode classes the tokenizer asks for. */
  datatype Chars = Chars(isSpace: char -> bool, isLetter: char -> bool, isDigit: char -> bool)
  {
    predicate IsIdent(ch: char) {
      isLetter(ch) || isDigit(ch) || ch == '_' || ch == '-' || ch == '.'
    }

    predicate IsRef(ch: char) {
      IsIdent(ch) || ch == ':'
    }

    /** Letters, digits and spaces are distinct classes without the DSL's punctuation. */
    ghost predicate Valid() {
      forall ch :: && (isLetter(ch) || isDigit(ch) ==> !isSpace(ch) && ch !in PUNCTUATION)
                   && (isSpace(ch) ==> ch !in PUNCTUATION)
    }
  }

  const PUNCTUATION := "&|()+:_-."

  /** How many leading characters belong to a class. */
  function Span(p: char -> bool, s: string): (n: nat)
    ensures n <= |s|
    ensures forall i | 0 <= i < n :: p(s[i])
    ensures n < |s| ==> !p(s[n])
  {
    if s == [] || !p(s[0]) then 0 else 1 + Span(p, s[1..])
  }

  /** What the front of a nonempty input is: a space, a token of some length, or nothing the DSL knows. */
  datatype Front = Space | Tok(token: Token, length: nat) | Unknown

  function FrontOf(c: Chars, s: string): (f: Front)
    requires s != []
    ensures f.Tok? ==> 0 < f.length <= |s|
  {
    if c.isSpace(s[0]) then Space
    else if s[0] == '&' then Tok(AndTok, 1)
    else if s[0] == '|' then Tok(OrTok, 1)
    else if s[0] == '(' then Tok(LParen, 1)
    else if s[0] == ')' then Tok(RParen, 1)
    else if s[0] == '+' then
      var n := Span(c.IsRef, s[1..]);
      if n == 0 then Unknown else Tok(RefTok(s[1..n + 1]), n + 1)
    else
      var n := Span(c.IsIdent, s);
      if n == 0 then Unknown else Tok(Ident(s[..n]), n)
  }

  /** The tokens of an input without the end marker; None when a character fits no token. */
  function Lex(c: Chars, s: string): Option<seq<Token>>
    decreases |s|
  {
    if s == [] then Some([])
    else
      match FrontOf(c, s)
      case Space => Lex(c, s[1..])
      case Tok(token, n) => Behind([token], Lex(c, s[n..]))
      case Unknown => None
  }

  function Behind<T>(done: seq<T>, r: Option<seq<T>>): Option<seq<T>> {
    match r
    case None => None
    case Some(xs) => Some(done + xs)
  }

  /** One turn of the tokenizer's switch. */
  method ReadToken(c: Chars, input: string, start: nat) returns (token: Option<Token>, i: nat)
    requires start < |input| && !c.isSpace(input[start])
    ensures match FrontOf(c, input[start..])
            case Tok(t, n) => token == Some(t) && i == start + n
            case _ => token == None
  {
    i := start + 1;
    assert input[start..][0] == input[start] && input[start..][1..] == input[start + 1..];
    match input[start] {
      case '&' => token := Some(AndTok);
      case '|' => token := Some(OrTok);
      case '(' => token := Some(LParen);
      case ')' => token := Some(RParen);
      case '+' =>
        i := ScanRun(c.IsRef, input, start + 1);
        if i == start + 1 { return None, i; }
        SliceBehind(input, start, 1, i - start);
        token := Some(RefTok(input[start + 1..i]));
      case _ =>
        if !c.IsIdent(input[start]) { return None, i; }
        i := ScanRun(c.IsIdent, input, start);
        SliceBehind(input, start, 0, i - start);
        token := Some(Ident(input[start..i]));
    }
  }

  lemma SliceBehind(s: string, start: nat, from: nat, to: nat)
    requires from <= to <= |s| - start
    ensures s[start..][from..to] == s[start + from..start + to]
  {
  }

  method Tokenize(c: Chars, input: string) returns (r: Option<seq<Token>>)
    ensures r == Terminated(Lex(c, input))
  {
    var tokens: seq<Token> := [];
    var i := 0;
    assert input[0..] == input;
    BehindNothing(Lex(c, input));
    while i < |input|
      invariant 0 <= i <= |input|
      invariant Lex(c, input) == Behind(tokens, Lex(c, input[i..]))
    {
      assert input[i..][1..] == input[i + 1..];
      if c.isSpace(input[i]) {
        i := i + 1;
      } else {
        var token, next := ReadToken(c, input, i);
        if token == None { return None; }
        assert input[i..][next - i..] == input[next..];
        BehindTwice(tokens, [token.value], Lex(c, input[next..]));
        tokens, i := tokens + [token.value], next;
      }
    }
    assert tokens + [] == tokens;
    r := Some(tokens + [Eof]);
  }

  function Terminated(r: Option<seq<Token>>): Option<seq<Token>> {
    match r
    case None => None
    case Some(ts) => Some(ts + [Eof])
  }

  lemma BehindNothing<T>(r: Option<seq<T>>)
    ensures Behind([], r) == r
  {
    if r.Some? { assert [] + r.value == r.value; }
  }

  lemma BehindTwice<T>(a: seq<T>, b: seq<T>, r: Option<seq<T>>)
    ensures Behind(a, Behind(b, r)) == Behind(a + b, r)
  {
    if r.Some? { assert a + (b + r.value) == a + b + r.value; }
  }

  /** Moves behind the run of characters of one class. */
  method ScanRun(p: char -> bool, input: string, start: nat) returns (i: nat)
    requires start <= |input|
    ensures i == start + Span(p, input[start..])
  {
    i := start;
    while i < |input| && p(input[i])
      invariant start <= i <= |input|
      invariant Span(p, input[start..]) == i - start + Span(p, input[i..])
    {
      assert input[i..][1..] == input[i + 1..];
      i := i + 1;
    }
  }
}
