/**
 The first front end, assignment_1/main.py: a character lexer and a parser
 that pops tokens off a shared list and recognises its parenthesis and
 lambda cases by a token's text, together with the printer.
 */
module Lambda1 {
  import opened Common

  type Name = string

  // ---------------------------------------------------------------------
  // Tokens and the lexer (assignment_1/main.py:1-53)
  // ---------------------------------------------------------------------

  datatype Kind = VAR | LPAREN | RPAREN | LAMBDA | SEPARATOR | PLUS | STAR | DOT

  datatype Token = Token(kind: Kind, text: string)

  /** The characters the lexer accumulates into a variable name: `str.isalnum`. */
  predicate IsIdentChar(c: char)
  {
    IsAlnum(c)
  }

  /** The characters of the token-value table that can reach the punctuation branches. */
  predicate IsSymbol(c: char)
  {
    c == '(' || c == ')' || c == ';' || c == '+' || c == '*' || c == '.'
  }

  function KindOf(c: char): (k: Kind)
    requires IsSymbol(c)
    ensures k != VAR && k != LAMBDA
  {
    match c
    case '(' => LPAREN
    case ')' => RPAREN
    case ';' => SEPARATOR
    case '+' => PLUS
    case '*' => STAR
    case _ => DOT
  }

  /** The token a non-alphanumeric character emits after ending the current name. */
  function Emitted(c: char): seq<Token>
  {
    if c == '(' then [Token(LPAREN, [c])]
    else if c == ')' then [Token(RPAREN, [c])]
    else if c == GreekLambda then [Token(LAMBDA, [c])]
    else if c == ';' then [Token(SEPARATOR, [c])]
    else if c == '+' then [Token(PLUS, [c])]
    else if c == '*' then [Token(STAR, [c])]
    else if c == '.' then [Token(DOT, [c])]
    else []
  }

  /** The `λ` branch of `Emitted` is dead: `λ` is a letter, so it joins a name. */
  lemma EmittedOutsideIdentifiers(c: char)
    requires !IsIdentChar(c)
    ensures Emitted(c) == if IsSymbol(c) then [Token(KindOf(c), [c])] else []
  {
  }

  predicate WellFormed(t: Token)
  {
    if t.kind == VAR then |t.text| > 0 && forall i :: 0 <= i < |t.text| ==> IsIdentChar(t.text[i])
    else |t.text| == 1 && IsSymbol(t.text[0]) && KindOf(t.text[0]) == t.kind
  }

  datatype LexState = LexState(tokens: seq<Token>, current: string)

  const Init := LexState([], "")

  function Flushed(st: LexState): seq<Token>
  {
    if st.current != "" then st.tokens + [Token(VAR, st.current)] else st.tokens
  }

  /** One iteration of the lexer's loop. */
  function Step(st: LexState, c: char): LexState
  {
    if IsIdentChar(c) then LexState(st.tokens, st.current + [c])
    else LexState(Flushed(st) + Emitted(c), "")
  }

  function Scan(st: LexState, s: string): LexState
  {
    if s == [] then st else Step(Scan(st, s[..|s| - 1]), s[|s| - 1])
  }

  /** The token list `lexer(s)` returns. */
  function Lex(s: string): seq<Token>
  {
    Flushed(Scan(Init, s))
  }

  method Lexer(input: string) returns (tokens: seq<Token>)
    ensures tokens == Lex(input)
  {
    tokens := [];
    var current := "";
    for i := 0 to |input|
      invariant LexState(tokens, current) == Scan(Init, input[..i])
    {
      var c := input[i];
      if IsAlnum(c) {
        current := current + [c];
      } else {
        if current != "" {
          tokens := tokens + [Token(VAR, current)];
          current := "";
        }
        if c == '(' {
          tokens := tokens + [Token(LPAREN, [c])];
        } else if c == ')' {
          tokens := tokens + [Token(RPAREN, [c])];
        } else if c == GreekLambda {
          tokens := tokens + [Token(LAMBDA, [c])];
        } else if c == ';' {
          tokens := tokens + [Token(SEPARATOR, [c])];
        } else if c == '+' {
          tokens := tokens + [Token(PLUS, [c])];
        } else if c == '*' {
          tokens := tokens + [Token(STAR, [c])];
        } else if c == '.' {
          tokens := tokens + [Token(DOT, [c])];
        }
      }
      assert input[..i + 1][..i] == input[..i];
    }
    assert input[..|input|] == input;
    if current != "" {
      tokens := tokens + [Token(VAR, current)];
    }
  }

  // Lemmas about the lexer

  lemma {:induction false} ScanAppend(st: LexState, a: string, b: string)
    ensures Scan(st, a + b) == Scan(Scan(st, a), b)
    decreases |b|
  {
    if b == [] {
      assert a + b == a;
    } else {
      var b' := b[..|b| - 1];
      assert (a + b)[..|a + b| - 1] == a + b';
      ScanAppend(st, a, b');
    }
  }

  lemma FlushedFrom(toks: seq<Token>, x: LexState)
    ensures Flushed(LexState(toks + x.tokens, x.current)) == toks + Flushed(x)
  {
  }

  /** The lexer only appends to the tokens already emitted. */
  lemma {:induction false} ScanFrom(toks: seq<Token>, cur: string, s: string)
    ensures Scan(LexState(toks, cur), s)
         == LexState(toks + Scan(LexState([], cur), s).tokens, Scan(LexState([], cur), s).current)
    decreases |s|
  {
    if s == [] {
      assert toks + [] == toks;
    } else {
      var s' := s[..|s| - 1];
      ScanFrom(toks, cur, s');
      var x := Scan(LexState([], cur), s');
      var c := s[|s| - 1];
      FlushedFrom(toks, x);
      if !IsIdentChar(c) {
        var e := Emitted(c);
        assert toks + Flushed(x) + e == toks + (Flushed(x) + e);
      }
    }
  }

  lemma ScanOne(s: string, c: char)
    ensures Scan(Init, s + [c]) == Step(Scan(Init, s), c)
  {
    assert (s + [c])[..|s + [c]| - 1] == s;
  }

  /**
   Every character that is not alphanumeric ends the current name and
   splits the input: the two sides are lexed independently, and the
   character contributes its own token, if it has one.
   */
  lemma LexBreak(a: string, c: char, b: string)
    requires !IsIdentChar(c)
    ensures Lex(a + [c] + b) == Lex(a) + Emitted(c) + Lex(b)
  {
    ScanAppend(Init, a + [c], b);
    ScanOne(a, c);
    ScanFrom(Lex(a) + Emitted(c), "", b);
    var x := Scan(Init, b);
    assert Flushed(LexState(Lex(a) + Emitted(c) + x.tokens, x.current)) == Lex(a) + Emitted(c) + Flushed(x);
  }

  lemma {:induction false} ScanRun(s: string)
    requires forall i :: 0 <= i < |s| ==> IsIdentChar(s[i])
    ensures Scan(Init, s) == LexState([], s)
    decreases |s|
  {
    if s != [] {
      var s', c := s[..|s| - 1], s[|s| - 1];
      assert s' + [c] == s;
      assert forall i :: 0 <= i < |s'| ==> s'[i] == s[i];
      ScanRun(s');
      assert IsIdentChar(c);
      assert Scan(Init, s) == Step(LexState([], s'), c);
    }
  }

  /** A run of alphanumerics lexes to one VAR token holding all of it. */
  lemma LexRun(s: string)
    requires s != [] && forall i :: 0 <= i < |s| ==> IsIdentChar(s[i])
    ensures Lex(s) == [Token(VAR, s)]
  {
    ScanRun(s);
  }

  function VarTexts(ts: seq<Token>): string
  {
    if ts == [] then "" else VarTexts(ts[..|ts| - 1]) + (if ts[|ts| - 1].kind == VAR then ts[|ts| - 1].text else "")
  }

  function SymbolTexts(ts: seq<Token>): string
  {
    if ts == [] then "" else SymbolTexts(ts[..|ts| - 1]) + (if ts[|ts| - 1].kind != VAR then ts[|ts| - 1].text else "")
  }

  lemma TextsSnoc(ts: seq<Token>, t: Token)
    ensures VarTexts(ts + [t]) == VarTexts(ts) + (if t.kind == VAR then t.text else "")
    ensures SymbolTexts(ts + [t]) == SymbolTexts(ts) + (if t.kind != VAR then t.text else "")
  {
    assert (ts + [t])[..|ts + [t]| - 1] == ts;
  }

  lemma FlushedTexts(st: LexState)
    ensures VarTexts(Flushed(st)) == VarTexts(st.tokens) + st.current
    ensures SymbolTexts(Flushed(st)) == SymbolTexts(st.tokens)
  {
    if st.current != "" {
      TextsSnoc(st.tokens, Token(VAR, st.current));
    } else {
      assert VarTexts(st.tokens) + st.current == VarTexts(st.tokens);
    }
  }

  /** A symbol is never part of an identifier, so it always emits its own token. */
  lemma SymbolStep(st: LexState, c: char)
    requires IsSymbol(c)
    ensures Step(st, c) == LexState(Flushed(st) + [Token(KindOf(c), [c])], "")
  {
    assert !IsIdentChar(c);
    EmittedOutsideIdentifiers(c);
  }

  lemma StepTexts(st: LexState, c: char)
    ensures VarTexts(Step(st, c).tokens) + Step(st, c).current
         == VarTexts(st.tokens) + st.current + (if IsIdentChar(c) then [c] else [])
    ensures SymbolTexts(Step(st, c).tokens) == SymbolTexts(st.tokens) + (if IsSymbol(c) then [c] else [])
  {
    if IsSymbol(c) {
      SymbolStepTexts(st, c);
    } else if IsIdentChar(c) {
      IdentStepTexts(st, c);
    } else {
      SilentStepTexts(st, c);
    }
  }

  lemma SymbolStepTexts(st: LexState, c: char)
    requires IsSymbol(c)
    ensures !IsIdentChar(c)
    ensures VarTexts(Step(st, c).tokens) + Step(st, c).current == VarTexts(st.tokens) + st.current
    ensures SymbolTexts(Step(st, c).tokens) == SymbolTexts(st.tokens) + [c]
  {
    FlushedTexts(st);
    SymbolStep(st, c);
    TextsSnoc(Flushed(st), Token(KindOf(c), [c]));
  }

  lemma IdentStepTexts(st: LexState, c: char)
    requires IsIdentChar(c)
    ensures !IsSymbol(c)
    ensures VarTexts(Step(st, c).tokens) + Step(st, c).current == VarTexts(st.tokens) + st.current + [c]
    ensures SymbolTexts(Step(st, c).tokens) == SymbolTexts(st.tokens)
  {
    assert Step(st, c) == LexState(st.tokens, st.current + [c]);
    assert VarTexts(st.tokens) + (st.current + [c]) == VarTexts(st.tokens) + st.current + [c];
  }

  lemma SilentStepTexts(st: LexState, c: char)
    requires !IsSymbol(c) && !IsIdentChar(c)
    ensures VarTexts(Step(st, c).tokens) + Step(st, c).current == VarTexts(st.tokens) + st.current
    ensures SymbolTexts(Step(st, c).tokens) == SymbolTexts(st.tokens)
  {
    SilentStep(st, c);
    FlushedTexts(st);
  }

  lemma SilentStep(st: LexState, c: char)
    ensures !IsSymbol(c) && !IsIdentChar(c) ==> Step(st, c) == LexState(Flushed(st), "")
  {
    if !IsSymbol(c) && !IsIdentChar(c) {
      EmittedOutsideIdentifiers(c);
    }
  }

  lemma {:induction false} ScanTexts(s: string)
    ensures VarTexts(Scan(Init, s).tokens) + Scan(Init, s).current == Filter(s, IsIdentChar)
    ensures SymbolTexts(Scan(Init, s).tokens) == Filter(s, IsSymbol)
    decreases |s|
  {
    if s != [] {
      var s', c := s[..|s| - 1], s[|s| - 1];
      assert s == s' + [c];
      ScanTexts(s');
      FilterAppend(s', c, IsIdentChar);
      FilterAppend(s', c, IsSymbol);
      StepTexts(Scan(Init, s'), c);
    }
  }

  /**
   The VAR tokens hold exactly the alphanumeric characters and the other
   tokens exactly the characters `( ) ; + * .`, all of them and in input
   order.
   */
  lemma LexTexts(s: string)
    ensures VarTexts(Lex(s)) == Filter(s, IsIdentChar)
    ensures SymbolTexts(Lex(s)) == Filter(s, IsSymbol)
  {
    ScanTexts(s);
    FlushedTexts(Scan(Init, s));
  }

  /** What the lexer's loop keeps: well-formed tokens and a pending run of identifier characters. */
  predicate GoodState(st: LexState)
  {
    && (forall t :: t in st.tokens ==> WellFormed(t))
    && (forall i :: 0 <= i < |st.current| ==> IsIdentChar(st.current[i]))
  }

  /** The number of tokens `st` stands for once flushed. */
  function Pending(st: LexState): nat
  {
    |st.tokens| + if st.current == "" then 0 else 1
  }

  lemma StepWellFormed(st: LexState, c: char)
    requires GoodState(st)
    ensures GoodState(Step(st, c))
    ensures Pending(Step(st, c)) <= Pending(st) + 1
  {
    if IsIdentChar(c) {
      var cur := st.current + [c];
      assert Step(st, c) == LexState(st.tokens, cur);
      assert forall i :: 0 <= i < |cur| ==> IsIdentChar(cur[i]) by {
        forall i | 0 <= i < |cur|
          ensures IsIdentChar(cur[i])
        {
          if i < |st.current| {
            assert cur[i] == st.current[i];
          }
        }
      }
    } else {
      EmittedOutsideIdentifiers(c);
      assert Step(st, c) == LexState(Flushed(st) + Emitted(c), "");
      assert forall t :: t in Flushed(st) ==> WellFormed(t);
    }
  }

  lemma {:induction false} ScanWellFormed(s: string)
    ensures GoodState(Scan(Init, s))
    ensures Pending(Scan(Init, s)) <= |s|
    decreases |s|
  {
    if s != [] {
      ScanWellFormed(s[..|s| - 1]);
      StepWellFormed(Scan(Init, s[..|s| - 1]), s[|s| - 1]);
    }
  }

  /**
   Every VAR token is a non-empty run of alphanumerics, every other token
   one of `( ) ; + * .` tagged with its kind (so no LAMBDA token is ever
   produced); there are never more tokens than characters.
   */
  lemma LexWellFormed(s: string)
    ensures forall t :: t in Lex(s) ==> WellFormed(t) && t.kind != LAMBDA
    ensures |Lex(s)| <= |s|
  {
    ScanWellFormed(s);
  }

  // ---------------------------------------------------------------------
  // The parser (assignment_1/main.py:55-95)
  // ---------------------------------------------------------------------

  /**
   The values `parse_expr` returns: a `(VAR, name)` tuple, or the Python
   function built by its lambda case, which holds only the parsed body.
   */
  datatype Expr = Var(name: Name) | Closure(body: Expr)

  /** The SyntaxErrors `parse_expr` raises. */
  datatype ParseError =
    | UnexpectedEnd            // no token at all
    | ExpectedExprAfterParen   // nothing after an opening token
    | ExpectedRParen           // the inner expression is not followed by a closing token
    | ExpectedVariable         // nothing after a lambda token
    | ExpectedLParenInLambda   // the lambda's variable is not followed by an opening token
    | ExpectedExprInLambda     // nothing after the lambda's opening token
    | ExpectedRParenInLambda   // the lambda's body is not followed by a closing token
    | UnexpectedToken          // a first token that is no VAR and has none of the tag texts

  datatype Parsed = Parsed(result: Result<Expr, ParseError>, rest: seq<Token>)

  /**
   `parse_expr` (assignment_1/main.py:59-95). A VAR is recognised by its
   kind, but the parenthesis and lambda cases compare a token's TEXT with
   the tag names `LPAREN`, `RPAREN` and `LAMBDA`.
   */
  function ParsedExpr(ts: seq<Token>): (p: Parsed)
    ensures IsSuffix(p.rest, ts)
    ensures p.result.Ok? ==> |p.rest| < |ts|
    decreases |ts|, 0
  {
    if ts == [] then Parsed(Err(UnexpectedEnd), [])
    else if ts[0].kind == VAR then
      SuffixOfTail(ts[1..], ts);
      Parsed(Ok(Var(ts[0].text)), ts[1..])
    else if ts[0].text == "LPAREN" then
      var p := ParsedParenthesised(ts[1..]);
      SuffixOfTail(p.rest, ts);
      p
    else if ts[0].text == "LAMBDA" then
      var p := ParsedLambda(ts[1..]);
      SuffixOfTail(p.rest, ts);
      p
    else Parsed(Err(UnexpectedToken), ts)
  }

  /** The parenthesis case of `parse_expr` (assignment_1/main.py:69-77), from the tokens after `LPAREN`. */
  function ParsedParenthesised(ts: seq<Token>): (p: Parsed)
    ensures IsSuffix(p.rest, ts)
    ensures p.result.Ok? ==> |p.rest| < |ts|
    decreases |ts|, 1
  {
    if ts == [] then Parsed(Err(ExpectedExprAfterParen), [])
    else
      var inner := ParsedExpr(ts);
      if inner.result.Err? then inner
      else if inner.rest == [] || inner.rest[0].text != "RPAREN" then Parsed(Err(ExpectedRParen), inner.rest)
      else Parsed(inner.result, inner.rest[1..])
  }

  /** The lambda case of `parse_expr` (assignment_1/main.py:79-93), from the tokens after `LAMBDA`. */
  function ParsedLambda(ts: seq<Token>): (p: Parsed)
    ensures IsSuffix(p.rest, ts)
    ensures p.result.Ok? ==> |p.rest| < |ts|
    decreases |ts|, 1
  {
    if ts == [] then Parsed(Err(ExpectedVariable), [])
    else
      var v := ParsedExpr(ts);
      if v.result.Err? then v
      else if v.rest == [] || v.rest[0].text != "LPAREN" then Parsed(Err(ExpectedLParenInLambda), v.rest)
      else
        var ts2 := v.rest[1..];
        if ts2 == [] then Parsed(Err(ExpectedExprInLambda), [])
        else
          var body := ParsedExpr(ts2);
          if body.result.Err? then body
          else if body.rest == [] || body.rest[0].text != "RPAREN" then Parsed(Err(ExpectedRParenInLambda), body.rest)
          else Parsed(Ok(Closure(body.result.value)), body.rest[1..])
  }

  /** The token list `parse_expr` pops from. */
  class Parser {
    var tokens: seq<Token>

    constructor (ts: seq<Token>)
      ensures tokens == ts
    {
      tokens := ts;
    }

    method ParseExpr() returns (r: Result<Expr, ParseError>)
      modifies this
      ensures Parsed(r, tokens) == ParsedExpr(old(tokens))
      decreases |tokens|
    {
      if tokens == [] {
        return Err(UnexpectedEnd);
      }
      var tok := tokens[0];
      if tok.kind == VAR {
        tokens := tokens[1..];
        return Ok(Var(tok.text));
      }
      if tokens[0].text == "LPAREN" {
        tokens := tokens[1..];
        if tokens == [] {
          return Err(ExpectedExprAfterParen);
        }
        var e := ParseExpr();
        if e.Err? {
          return e;
        }
        if tokens == [] || tokens[0].text != "RPAREN" {
          return Err(ExpectedRParen);
        }
        tokens := tokens[1..];
        return e;
      }
      if tokens[0].text == "LAMBDA" {
        tokens := tokens[1..];
        if tokens == [] {
          return Err(ExpectedVariable);
        }
        var v := ParseExpr();
        if v.Err? {
          return v;
        }
        if tokens == [] || tokens[0].text != "LPAREN" {
          return Err(ExpectedLParenInLambda);
        }
        tokens := tokens[1..];
        if tokens == [] {
          return Err(ExpectedExprInLambda);
        }
        var e := ParseExpr();
        if e.Err? {
          return e;
        }
        if tokens == [] || tokens[0].text != "RPAREN" {
          return Err(ExpectedRParenInLambda);
        }
        tokens := tokens[1..];
        return Ok(Closure(e.value));
      }
      return Err(UnexpectedToken);
    }
  }

  // Lemmas about the parser

  /**
   On the lexer's output the tag texts never occur outside VAR tokens, so
   the parser reads one variable when the first token is a VAR and rejects
   anything else without consuming a token.
   */
  lemma ParseLexed(s: string)
    ensures ParsedExpr(Lex(s)) ==
      if Lex(s) == [] then Parsed(Err(UnexpectedEnd), [])
      else if Lex(s)[0].kind == VAR then Parsed(Ok(Var(Lex(s)[0].text)), Lex(s)[1..])
      else Parsed(Err(UnexpectedToken), Lex(s))
  {
    LexWellFormed(s);
    if Lex(s) != [] {
      assert WellFormed(Lex(s)[0]);
    }
  }

  /** So no text yields a closure, and whatever follows the first name is ignored. */
  lemma ParseLexedIsVariable(s: string)
    ensures ParsedExpr(Lex(s)).result.Ok? ==> ParsedExpr(Lex(s)).result.value.Var?
  {
    ParseLexed(s);
  }

  /** A token with the given text, of a kind that is not VAR. */
  function Tag(k: Kind, text: string): Token
    requires k != VAR
  {
    Token(k, text)
  }

  /**
   The tokens of `e` followed by `rest`: a token list the parser reads back
   as `e`, written with tokens whose texts are the tag names the parser
   compares against. A closure's variable is written as `x`.
   */
  function TagTokens(e: Expr, rest: seq<Token>): (ts: seq<Token>)
    ensures ts != []
  {
    match e
    case Var(n) => [Token(VAR, n)] + rest
    case Closure(b) =>
      [Tag(LAMBDA, "LAMBDA")] + ([Token(VAR, "x")] + ([Tag(LPAREN, "LPAREN")] + TagTokens(b, [Tag(RPAREN, "RPAREN")] + rest)))
  }

  lemma ClosureStep(ts: seq<Token>, b: Expr, rest: seq<Token>)
    requires ts != []
    requires ParsedExpr(ts) == Parsed(Ok(b), [Tag(RPAREN, "RPAREN")] + rest)
    ensures ParsedExpr([Tag(LAMBDA, "LAMBDA")] + ([Token(VAR, "x")] + ([Tag(LPAREN, "LPAREN")] + ts))) == Parsed(Ok(Closure(b)), rest)
  {
    var t1 := [Token(VAR, "x")] + ([Tag(LPAREN, "LPAREN")] + ts);
    ClosureBodyStep(ts, b, rest);
    assert ([Tag(LAMBDA, "LAMBDA")] + t1)[1..] == t1;
  }

  lemma ClosureBodyStep(ts: seq<Token>, b: Expr, rest: seq<Token>)
    requires ts != []
    requires ParsedExpr(ts) == Parsed(Ok(b), [Tag(RPAREN, "RPAREN")] + rest)
    ensures ParsedLambda([Token(VAR, "x")] + ([Tag(LPAREN, "LPAREN")] + ts)) == Parsed(Ok(Closure(b)), rest)
  {
    var t2 := [Tag(LPAREN, "LPAREN")] + ts;
    var t1 := [Token(VAR, "x")] + t2;
    assert t1[1..] == t2;
    assert ParsedExpr(t1) == Parsed(Ok(Var("x")), t2);
    assert t2[1..] == ts;
    assert ([Tag(RPAREN, "RPAREN")] + rest)[1..] == rest;
  }

  /** `parse_expr` reads any value back from its tag-text tokens, whatever follows. */
  lemma {:induction false} ParseTagTokens(e: Expr, rest: seq<Token>)
    ensures ParsedExpr(TagTokens(e, rest)) == Parsed(Ok(e), rest)
  {
    match e
    case Var(n) =>
      assert ([Token(VAR, n)] + rest)[1..] == rest;
    case Closure(b) =>
      var close := [Tag(RPAREN, "RPAREN")] + rest;
      ParseTagTokens(b, close);
      ClosureStep(TagTokens(b, close), b, rest);
  }

  /** Parentheses around a value change nothing: `( e )` parses as `e`. */
  lemma ParenthesesTransparent(e: Expr, rest: seq<Token>)
    ensures ParsedExpr([Tag(LPAREN, "LPAREN")] + TagTokens(e, [Tag(RPAREN, "RPAREN")] + rest)) == Parsed(Ok(e), rest)
  {
    var close := [Tag(RPAREN, "RPAREN")] + rest;
    ParseTagTokens(e, close);
    assert ([Tag(LPAREN, "LPAREN")] + TagTokens(e, close))[1..] == TagTokens(e, close);
    assert close[1..] == rest;
  }

  /** A lambda's body may start right after the opening token: `λ x ( y )` is a closure over `y`. */
  lemma ParseClosureExample()
    ensures ParsedExpr([Tag(LAMBDA, "LAMBDA"), Token(VAR, "x"), Tag(LPAREN, "LPAREN"), Token(VAR, "y"), Tag(RPAREN, "RPAREN")])
         == Parsed(Ok(Closure(Var("y"))), [])
  {
    ParseTagTokens(Closure(Var("y")), []);
    assert TagTokens(Closure(Var("y")), [])
        == [Tag(LAMBDA, "LAMBDA"), Token(VAR, "x"), Tag(LPAREN, "LPAREN"), Token(VAR, "y"), Tag(RPAREN, "RPAREN")];
  }

  // ---------------------------------------------------------------------
  // to_standard_format and output (assignment_1/main.py:97-109)
  // ---------------------------------------------------------------------

  /** The exception `to_standard_format` raises on a closure: a function cannot be indexed. */
  datatype PyError = TypeError

  /**
   `to_standard_format`: the name of a variable. Indexing a Python function
   raises before its own branch is reached, so a closure always fails.
   */
  function Print(e: Expr): Result<string, PyError>
  {
    match e
    case Var(n) => Ok(n)
    case Closure(_) => Err(TypeError)
  }

  /** What `output` prints, without the line break. */
  function Output(e: Expr): Result<string, PyError>
  {
    var p := Print(e);
    if p.Err? then p else Ok("The standard format is: " + p.value)
  }

  /** A name survives lexing, parsing and printing unchanged. */
  lemma NameRoundTrip(n: string)
    requires n != [] && forall i :: 0 <= i < |n| ==> IsAlnum(n[i])
    ensures ParsedExpr(Lex(n)) == Parsed(Ok(Var(n)), [])
    ensures Print(ParsedExpr(Lex(n)).result.value) == Ok(n)
  {
    LexRun(n);
  }

  /**
   Whenever parsing text succeeds, printing succeeds and gives back the
   text of the first token, which is a non-empty run of alphanumerics.
   */
  lemma PrintParsedText(s: string)
    requires ParsedExpr(Lex(s)).result.Ok?
    ensures Lex(s) != [] && Lex(s)[0].kind == VAR
    ensures Print(ParsedExpr(Lex(s)).result.value) == Ok(Lex(s)[0].text)
    ensures Lex(s)[0].text != [] && forall i :: 0 <= i < |Lex(s)[0].text| ==> IsAlnum(Lex(s)[0].text[i])
  {
    ParseLexed(s);
    LexWellFormed(s);
    assert WellFormed(Lex(s)[0]);
  }

  lemma OutputExample()
    ensures Output(Var("x1")) == Ok("The standard format is: x1")
    ensures Output(Closure(Var("x"))) == Err(TypeError)
  {
    assert "The standard format is: " + "x1" == "The standard format is: x1";
  }
}
