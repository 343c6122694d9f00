/** The recursive-descent parser of the matrix DSL: what each rule parses, as functions on the tokens left, and the
    parser object that takes those tokens one by one. */
module MatrixParser {
  import opened Options
  import opened MatrixDsl

  /** A parsed value and the tokens behind it. */
  datatype Parse<+T> = Fail | Done(value: T, rest: seq<Token>)

  function Head(ts: seq<Token>): Token {
    if ts == [] then Eof else ts[0]
  }

  /** The operands of an operator; one operand stands for itself. */
  function Joined(es: seq<Expr>, op: seq<Expr> -> Expr): Expr
    requires es != []
  {
    if |es| == 1 then es[0] else op(es)
  }

  function Operands(es: seq<Expr>, r: Parse<seq<Expr>>): (p: Parse<seq<Expr>>)
    ensures p.Done? <==> r.Done?
    ensures r.Done? ==> p == Done(es + r.value, r.rest)
  {
    match r
    case Fail => Fail
    case Done(fs, rest) => Done(es + fs, rest)
  }

  // What the parser computes on the tokens not yet consumed.

  function OrOf(ts: seq<Token>): (r: Parse<Expr>)
    ensures r.Done? ==> |r.rest| < |ts|
    decreases |ts|, 5
  {
    match OrListOf(ts)
    case Fail => Fail
    case Done(es, rest) => Done(Joined(es, es => OrExpr(es)), rest)
  }

  function OrListOf(ts: seq<Token>): (r: Parse<seq<Expr>>)
    ensures r.Done? ==> |r.rest| < |ts| && r.value != []
    decreases |ts|, 4
  {
    match AndOf(ts)
    case Fail => Fail
    case Done(e, rest) => Operands([e], OrTailOf(rest))
  }

  function OrTailOf(ts: seq<Token>): (r: Parse<seq<Expr>>)
    ensures r.Done? ==> |r.rest| <= |ts|
    decreases |ts|, 0
  {
    if Head(ts) == OrTok then OrListOf(ts[1..]) else Done([], ts)
  }

  function AndOf(ts: seq<Token>): (r: Parse<Expr>)
    ensures r.Done? ==> |r.rest| < |ts|
    decreases |ts|, 3
  {
    match AndListOf(ts)
    case Fail => Fail
    case Done(es, rest) => Done(Joined(es, es => AndExpr(es)), rest)
  }

  function AndListOf(ts: seq<Token>): (r: Parse<seq<Expr>>)
    ensures r.Done? ==> |r.rest| < |ts| && r.value != []
    decreases |ts|, 2
  {
    match AtomOf(ts)
    case Fail => Fail
    case Done(e, rest) => Operands([e], AndTailOf(rest))
  }

  function AndTailOf(ts: seq<Token>): (r: Parse<seq<Expr>>)
    ensures r.Done? ==> |r.rest| <= |ts|
    decreases |ts|, 0
  {
    if Head(ts) == AndTok then AndListOf(ts[1..]) else Done([], ts)
  }

  function AtomOf(ts: seq<Token>): (r: Parse<Expr>)
    ensures r.Done? ==> |r.rest| < |ts|
    decreases |ts|, 1
  {
    match Head(ts)
    case Ident(v) => Done(Name(v), ts[1..])
    case RefTok(v) => Done(SetRef(v), ts[1..])
    case LParen => Closed(OrOf(ts[1..]))
    case _ => Fail
  }

  function Closed(r: Parse<Expr>): (c: Parse<Expr>)
    ensures c.Done? ==> r.Done? && |c.rest| < |r.rest|
  {
    if r.Done? && Head(r.rest) == RParen then Done(r.value, r.rest[1..]) else Fail
  }

  /** The whole input: one expression up to the end. */
  function ExprOf(ts: seq<Token>): Option<Expr> {
    var r := OrOf(ts);
    if r.Done? && Head(r.rest) == Eof then Some(r.value) else None
  }

  /** parseDSL on untrimmed input. */
  function ParsedDsl(c: Chars, input: string): Option<Expr> {
    match Lex(c, input)
    case None => None
    case Some(ts) => ExprOf(ts + [Eof])
  }

  class Parser {
    const tokens: seq<Token>
    var pos: nat

    ghost predicate Valid()
      reads this
    {
      pos <= |tokens|
    }

    ghost function Rest(): seq<Token>
      requires Valid()
      reads this
    {
      tokens[pos..]
    }

    constructor (tokens: seq<Token>)
      ensures Valid() && Rest() == tokens
    {
      this.tokens := tokens;
      pos := 0;
    }

    function Peek(): (t: Token)
      requires Valid()
      reads this
      ensures t == Head(Rest())
    {
      if pos < |tokens| then tokens[pos] else Eof
    }

    /** Consumes a token; the end marker stays. */
    method Next() returns (t: Token)
      requires Valid()
      modifies this
      ensures Valid() && t == old(Peek())
      ensures t == Eof ==> pos == old(pos)
      ensures t != Eof ==> pos == old(pos) + 1 && Rest() == old(Rest())[1..]
    {
      t := Peek();
      if t != Eof {
        pos := pos + 1;
      }
    }

    /** A parse method consumed what its function consumes, or failed with it. */
    ghost predicate Parsed(start: nat, p: Parse<Expr>, r: Option<Expr>)
      requires Valid()
      reads this
    {
      match p
      case Fail => r == None
      case Done(e, rest) => r == Some(e) && Rest() == rest && pos > start
    }

    method ParseOrExpr() returns (r: Option<Expr>)
      requires Valid()
      modifies this
      ensures Valid() && Parsed(old(pos), OrOf(old(Rest())), r)
      decreases |tokens| - pos, 2
    {
      var left := ParseAndExpr();
      if left == None || Peek() != OrTok {
        if left.Some? {
          assert OrListOf(old(Rest())) == Operands([left.value], Done([], Rest()));
          assert [left.value] + [] == [left.value];
        }
        return left;
      }
      var children := [left.value];
      while Peek() == OrTok
        invariant Valid() && pos > old(pos)
        invariant |children| > 1 || (children != [] && Peek() == OrTok)
        invariant OrListOf(old(Rest())) == Operands(children, OrTailOf(Rest()))
        decreases |tokens| - pos
      {
        var _ := Next();
        var right := ParseAndExpr();
        if right == None { return None; }
        OperandsTwice(children, [right.value], OrTailOf(Rest()));
        children := children + [right.value];
      }
      assert children + [] == children;
      r := Some(OrExpr(children));
    }

    method ParseAndExpr() returns (r: Option<Expr>)
      requires Valid()
      modifies this
      ensures Valid() && Parsed(old(pos), AndOf(old(Rest())), r)
      decreases |tokens| - pos, 1
    {
      var left := ParseAtom();
      if left == None || Peek() != AndTok {
        if left.Some? {
          assert AndListOf(old(Rest())) == Operands([left.value], Done([], Rest()));
          assert [left.value] + [] == [left.value];
        }
        return left;
      }
      var children := [left.value];
      while Peek() == AndTok
        invariant Valid() && pos > old(pos)
        invariant |children| > 1 || (children != [] && Peek() == AndTok)
        invariant AndListOf(old(Rest())) == Operands(children, AndTailOf(Rest()))
        decreases |tokens| - pos
      {
        var _ := Next();
        var right := ParseAtom();
        if right == None { return None; }
        OperandsTwice(children, [right.value], AndTailOf(Rest()));
        children := children + [right.value];
      }
      assert children + [] == children;
      r := Some(AndExpr(children));
    }

    method ParseAtom() returns (r: Option<Expr>)
      requires Valid()
      modifies this
      ensures Valid() && Parsed(old(pos), AtomOf(old(Rest())), r)
      decreases |tokens| - pos, 0
    {
      var t := Next();
      match t {
        case Ident(v) => r := Some(Name(v));
        case RefTok(v) => r := Some(SetRef(v));
        case LParen =>
          r := ParseOrExpr();
          if r == None { return; }
          var close := Next();
          if close != RParen { return None; }
        case _ => r := None;
      }
    }
  }

  lemma OperandsTwice(a: seq<Expr>, b: seq<Expr>, r: Parse<seq<Expr>>)
    ensures Operands(a, Operands(b, r)) == Operands(a + b, r)
  {
    if r.Done? { assert a + (b + r.value) == a + b + r.value; }
  }

  /** The text without space at either end. */
  function Trim(c: Chars, s: string): string {
    if s == [] then s
    else if c.isSpace(s[0]) then Trim(c, s[1..])
    else if c.isSpace(s[|s| - 1]) then Trim(c, s[..|s| - 1])
    else s
  }

  method ParseDsl(c: Chars, input: string) returns (r: Option<Expr>)
    requires c.Valid()
    ensures r == ParsedDsl(c, input)
  {
    TrimLex(c, input);
    var trimmed := Trim(c, input);
    if trimmed == "" {
      NothingParses();
      return None;
    }
    var tokens := Tokenize(c, trimmed);
    if tokens == None { return None; }
    var p := new Parser(tokens.value);
    r := p.ParseOrExpr();
    if r.Some? && p.Peek() != Eof {
      return None;
    }
  }

  lemma NothingParses()
    ensures ExprOf([] + [Eof]) == None
  {
    assert [] + [Eof] == [Eof];
    assert AtomOf([Eof]) == Fail;
    assert AndListOf([Eof]) == Fail;
    assert OrListOf([Eof]) == Fail;
  }

  lemma {:induction false} TrimLex(c: Chars, s: string)
    requires c.Valid()
    ensures Lex(c, Trim(c, s)) == Lex(c, s)
    decreases |s|
  {
    if s == [] {
    } else if c.isSpace(s[0]) {
      TrimLex(c, s[1..]);
    } else if c.isSpace(s[|s| - 1]) {
      TrimLex(c, s[..|s| - 1]);
      LexTrailingSpace(c, s);
    }
  }

  lemma {:induction false} LexTrailingSpace(c: Chars, s: string)
    requires c.Valid() && s != [] && c.isSpace(s[|s| - 1])
    ensures Lex(c, s[..|s| - 1]) == Lex(c, s)
    decreases |s|
  {
    var t := s[..|s| - 1];
    if t == [] {
      assert s[1..] == [];
    } else {
      FrontTrailingSpace(c, s);
      match FrontOf(c, s)
      case Space =>
        assert s[1..][..|s[1..]| - 1] == t[1..];
        LexTrailingSpace(c, s[1..]);
      case Tok(_, n) =>
        assert s[n..][..|s[n..]| - 1] == t[n..];
        LexTrailingSpace(c, s[n..]);
      case Unknown =>
    }
  }

  lemma FrontTrailingSpace(c: Chars, s: string)
    requires c.Valid() && |s| > 1 && c.isSpace(s[|s| - 1])
    ensures FrontOf(c, s[..|s| - 1]) == FrontOf(c, s)
    ensures FrontOf(c, s).Tok? ==> FrontOf(c, s).length < |s|
  {
    var t := s[..|s| - 1];
    SpanTrailing(c.IsIdent, s);
    SpanTrailing(c.IsRef, s[1..]);
    assert s[1..][..|s[1..]| - 1] == t[1..];
    assert forall n | 0 <= n < |s| :: s[..n] == t[..n];
    assert forall n | 1 <= n < |s| :: s[1..n] == t[1..n];
  }

  lemma {:induction false} SpanTrailing(p: char -> bool, s: string)
    requires s != [] && !p(s[|s| - 1])
    ensures Span(p, s[..|s| - 1]) == Span(p, s) < |s|
  {
    if p(s[0]) {
      SpanTrailing(p, s[1..]);
      assert s[1..][..|s[1..]| - 1] == s[..|s| - 1][1..];
    }
  }
}
