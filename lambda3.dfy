/**
 The typed front end of assignment_3/main.py: a character lexer, a parser
 for judgements `expr : type` that pops tokens off a shared list, the
 substitution routine it calls `beta_reduction`, and the printer.
 */
module Lambda3 {
  import opened Common

  type Name = string

  // ---------------------------------------------------------------------
  // Tokens and the lexer (assignment_3/main.py:6-48)
  // ---------------------------------------------------------------------

  datatype Kind = VAR | LPAREN | RPAREN | LAMBDA | SEPARATOR | ARROW | COLON

  datatype Token = Token(kind: Kind, text: string)

  /** The characters the lexer accumulates into an identifier: alphanumerics, `λ` and `\`. */
  predicate IsIdentChar(c: char)
  {
    IsAlnum(c) || c == GreekLambda || c == '\\'
  }

  /** The characters that produce a token of their own once they reach the punctuation branches. */
  predicate IsSymbol(c: char)
  {
    c == '(' || c == ')' || c == ';' || c == '-' || c == ':'
  }

  function KindOf(c: char): (k: Kind)
    requires IsSymbol(c)
    ensures k != VAR && k != LAMBDA
  {
    match c
    case '(' => LPAREN
    case ')' => RPAREN
    case ';' => SEPARATOR
    case '-' => ARROW
    case _ => COLON
  }

  /** The token a non-identifier character emits after ending the current identifier. */
  function Emitted(c: char): seq<Token>
  {
    if c == '(' then [Token(LPAREN, [c])]
    else if c == ')' then [Token(RPAREN, [c])]
    else if c == GreekLambda || c == '\\' then [Token(LAMBDA, [c])]
    else if c == ';' then [Token(SEPARATOR, [c])]
    else if c == '-' then [Token(ARROW, [c])]
    else if c == ':' then [Token(COLON, [c])]
    else []
  }

  /** The lambda branch of `Emitted` is dead: both lambda signs are identifier characters. */
  lemma EmittedOutsideIdentifiers(c: char)
    requires !IsIdentChar(c)
    ensures Emitted(c) == if IsSymbol(c) then [Token(KindOf(c), [c])] else []
  {
  }

  predicate WellFormed(t: Token)
  {
    if t.kind == VAR then |t.text| > 0 && forall i :: 0 <= i < |t.text| ==> IsIdentChar(t.text[i])
    else |t.text| == 1 && IsSymbol(t.text[0]) && KindOf(t.text[0]) == t.kind
  }

  datatype LexState = LexState(tokens: seq<Token>, current: string)

  const Init := LexState([], "")

  function Flushed(st: LexState): seq<Token>
  {
    if st.current != "" then st.tokens + [Token(VAR, st.current)] else st.tokens
  }

  /** One iteration of the lexer's loop. */
  function Step(st: LexState, c: char): LexState
  {
    if IsIdentChar(c) then LexState(st.tokens, st.current + [c])
    else LexState(Flushed(st) + Emitted(c), "")
  }

  function Scan(st: LexState, s: string): LexState
  {
    if s == [] then st else Step(Scan(st, s[..|s| - 1]), s[|s| - 1])
  }

  /** The token list `lexer(s)` returns. */
  function Lex(s: string): seq<Token>
  {
    Flushed(Scan(Init, s))
  }

  method Lexer(input: string) returns (tokens: seq<Token>)
    ensures tokens == Lex(input)
  {
    tokens := [];
    var current := "";
    for i := 0 to |input|
      invariant LexState(tokens, current) == Scan(Init, input[..i])
    {
      var c := input[i];
      if IsAlnum(c) || c == GreekLambda || c == '\\' {
        current := current + [c];
      } else {
        if current != "" {
          tokens := tokens + [Token(VAR, current)];
          current := "";
        }
        if c == '(' {
          tokens := tokens + [Token(LPAREN, [c])];
        } else if c == ')' {
          tokens := tokens + [Token(RPAREN, [c])];
        } else if c == GreekLambda || c == '\\' {
          tokens := tokens + [Token(LAMBDA, [c])];
        } else if c == ';' {
          tokens := tokens + [Token(SEPARATOR, [c])];
        } else if c == '-' {
          tokens := tokens + [Token(ARROW, [c])];
        } else if c == ':' {
          tokens := tokens + [Token(COLON, [c])];
        }
      }
      assert input[..i + 1][..i] == input[..i];
    }
    assert input[..|input|] == input;
    if current != "" {
      tokens := tokens + [Token(VAR, current)];
    }
  }

  // Lemmas about the lexer

  lemma {:induction false} ScanAppend(st: LexState, a: string, b: string)
    ensures Scan(st, a + b) == Scan(Scan(st, a), b)
    decreases |b|
  {
    if b == [] {
      assert a + b == a;
    } else {
      var b' := b[..|b| - 1];
      assert (a + b)[..|a + b| - 1] == a + b';
      ScanAppend(st, a, b');
    }
  }

  /** The lexer only appends to the tokens already emitted. */
  lemma {:induction false} ScanFrom(toks: seq<Token>, cur: string, s: string)
    ensures Scan(LexState(toks, cur), s)
         == LexState(toks + Scan(LexState([], cur), s).tokens, Scan(LexState([], cur), s).current)
    decreases |s|
  {
    if s == [] {
      assert toks + [] == toks;
    } else {
      var s' := s[..|s| - 1];
      ScanFrom(toks, cur, s');
      var x := Scan(LexState([], cur), s');
      var c := s[|s| - 1];
      FlushedFrom(toks, x);
      if !IsIdentChar(c) {
        var e := Emitted(c);
        assert toks + Flushed(x) + e == toks + (Flushed(x) + e);
      }
    }
  }

  lemma FlushedFrom(toks: seq<Token>, x: LexState)
    ensures Flushed(LexState(toks + x.tokens, x.current)) == toks + Flushed(x)
  {
  }

  lemma ScanOne(s: string, c: char)
    ensures Scan(Init, s + [c]) == Step(Scan(Init, s), c)
  {
    assert (s + [c])[..|s + [c]| - 1] == s;
  }

  /**
   Every character outside identifiers ends the current identifier and
   splits the input: the two sides are lexed independently, and the
   character contributes its own token, if it has one.
   */
  lemma LexBreak(a: string, c: char, b: string)
    requires !IsIdentChar(c)
    ensures Lex(a + [c] + b) == Lex(a) + Emitted(c) + Lex(b)
  {
    ScanAppend(Init, a + [c], b);
    ScanOne(a, c);
    ScanFrom(Lex(a) + Emitted(c), "", b);
    var x := Scan(Init, b);
    assert Flushed(LexState(Lex(a) + Emitted(c) + x.tokens, x.current)) == Lex(a) + Emitted(c) + Flushed(x);
  }

  lemma {:induction false} ScanRun(s: string)
    requires forall i :: 0 <= i < |s| ==> IsIdentChar(s[i])
    ensures Scan(Init, s) == LexState([], s)
    decreases |s|
  {
    if s != [] {
      var s', c := s[..|s| - 1], s[|s| - 1];
      assert s' + [c] == s;
      assert forall i :: 0 <= i < |s'| ==> s'[i] == s[i];
      ScanRun(s');
      assert IsIdentChar(c);
      assert Scan(Init, s) == Step(LexState([], s'), c);
    }
  }

  /** A run of identifier characters lexes to one VAR token holding all of it. */
  lemma LexRun(s: string)
    requires s != [] && forall i :: 0 <= i < |s| ==> IsIdentChar(s[i])
    ensures Lex(s) == [Token(VAR, s)]
  {
    ScanRun(s);
  }

  function VarTexts(ts: seq<Token>): string
  {
    if ts == [] then "" else VarTexts(ts[..|ts| - 1]) + (if ts[|ts| - 1].kind == VAR then ts[|ts| - 1].text else "")
  }

  function SymbolTexts(ts: seq<Token>): string
  {
    if ts == [] then "" else SymbolTexts(ts[..|ts| - 1]) + (if ts[|ts| - 1].kind != VAR then ts[|ts| - 1].text else "")
  }

  lemma TextsSnoc(ts: seq<Token>, t: Token)
    ensures VarTexts(ts + [t]) == VarTexts(ts) + (if t.kind == VAR then t.text else "")
    ensures SymbolTexts(ts + [t]) == SymbolTexts(ts) + (if t.kind != VAR then t.text else "")
  {
    assert (ts + [t])[..|ts + [t]| - 1] == ts;
  }

  lemma FlushedTexts(st: LexState)
    ensures VarTexts(Flushed(st)) == VarTexts(st.tokens) + st.current
    ensures SymbolTexts(Flushed(st)) == SymbolTexts(st.tokens)
  {
    if st.current != "" {
      TextsSnoc(st.tokens, Token(VAR, st.current));
    } else {
      assert VarTexts(st.tokens) + st.current == VarTexts(st.tokens);
    }
  }

  /** A symbol is never part of an identifier, so it always emits its own token. */
  lemma SymbolStep(st: LexState, c: char)
    requires IsSymbol(c)
    ensures Step(st, c) == LexState(Flushed(st) + [Token(KindOf(c), [c])], "")
  {
    assert !IsIdentChar(c);
    EmittedOutsideIdentifiers(c);
  }

  lemma StepTexts(st: LexState, c: char)
    ensures VarTexts(Step(st, c).tokens) + Step(st, c).current
         == VarTexts(st.tokens) + st.current + (if IsIdentChar(c) then [c] else [])
    ensures SymbolTexts(Step(st, c).tokens) == SymbolTexts(st.tokens) + (if IsSymbol(c) then [c] else [])
  {
    if IsSymbol(c) {
      SymbolStepTexts(st, c);
    } else if IsIdentChar(c) {
      IdentStepTexts(st, c);
    } else {
      SilentStepTexts(st, c);
    }
  }

  lemma SymbolStepTexts(st: LexState, c: char)
    requires IsSymbol(c)
    ensures !IsIdentChar(c)
    ensures VarTexts(Step(st, c).tokens) + Step(st, c).current == VarTexts(st.tokens) + st.current
    ensures SymbolTexts(Step(st, c).tokens) == SymbolTexts(st.tokens) + [c]
  {
    FlushedTexts(st);
    SymbolStep(st, c);
    TextsSnoc(Flushed(st), Token(KindOf(c), [c]));
  }

  lemma IdentStepTexts(st: LexState, c: char)
    requires IsIdentChar(c)
    ensures !IsSymbol(c)
    ensures VarTexts(Step(st, c).tokens) + Step(st, c).current == VarTexts(st.tokens) + st.current + [c]
    ensures SymbolTexts(Step(st, c).tokens) == SymbolTexts(st.tokens)
  {
    assert Step(st, c) == LexState(st.tokens, st.current + [c]);
    assert VarTexts(st.tokens) + (st.current + [c]) == VarTexts(st.tokens) + st.current + [c];
  }

  lemma SilentStepTexts(st: LexState, c: char)
    requires !IsSymbol(c) && !IsIdentChar(c)
    ensures VarTexts(Step(st, c).tokens) + Step(st, c).current == VarTexts(st.tokens) + st.current
    ensures SymbolTexts(Step(st, c).tokens) == SymbolTexts(st.tokens)
  {
    SilentStep(st, c);
    FlushedTexts(st);
  }

  lemma SilentStep(st: LexState, c: char)
    ensures !IsSymbol(c) && !IsIdentChar(c) ==> Step(st, c) == LexState(Flushed(st), "")
  {
    if !IsSymbol(c) && !IsIdentChar(c) {
      EmittedOutsideIdentifiers(c);
    }
  }

  lemma {:induction false} ScanTexts(s: string)
    ensures VarTexts(Scan(Init, s).tokens) + Scan(Init, s).current == Filter(s, IsIdentChar)
    ensures SymbolTexts(Scan(Init, s).tokens) == Filter(s, IsSymbol)
    decreases |s|
  {
    if s != [] {
      var s', c := s[..|s| - 1], s[|s| - 1];
      assert s == s' + [c];
      ScanTexts(s');
      FilterAppend(s', c, IsIdentChar);
      FilterAppend(s', c, IsSymbol);
      StepTexts(Scan(Init, s'), c);
    }
  }

  /**
   The VAR tokens hold exactly the identifier characters (alphanumerics,
   `λ` and `\`) and the other tokens exactly the characters `( ) ; - :`,
   all of them and in input order.
   */
  lemma LexTexts(s: string)
    ensures VarTexts(Lex(s)) == Filter(s, IsIdentChar)
    ensures SymbolTexts(Lex(s)) == Filter(s, IsSymbol)
  {
    ScanTexts(s);
    FlushedTexts(Scan(Init, s));
  }

  /** What the lexer's loop keeps: well-formed tokens and a pending run of identifier characters. */
  predicate GoodState(st: LexState)
  {
    && (forall t :: t in st.tokens ==> WellFormed(t))
    && (forall i :: 0 <= i < |st.current| ==> IsIdentChar(st.current[i]))
  }

  /** The number of tokens `st` stands for once flushed. */
  function Pending(st: LexState): nat
  {
    |st.tokens| + if st.current == "" then 0 else 1
  }

  lemma StepWellFormed(st: LexState, c: char)
    requires GoodState(st)
    ensures GoodState(Step(st, c))
    ensures Pending(Step(st, c)) <= Pending(st) + 1
  {
    if IsIdentChar(c) {
      var cur := st.current + [c];
      assert Step(st, c) == LexState(st.tokens, cur);
      assert forall i :: 0 <= i < |cur| ==> IsIdentChar(cur[i]) by {
        forall i | 0 <= i < |cur|
          ensures IsIdentChar(cur[i])
        {
          if i < |st.current| {
            assert cur[i] == st.current[i];
          }
        }
      }
    } else {
      EmittedOutsideIdentifiers(c);
      assert Step(st, c) == LexState(Flushed(st) + Emitted(c), "");
      assert forall t :: t in Flushed(st) ==> WellFormed(t);
    }
  }

  lemma {:induction false} ScanWellFormed(s: string)
    ensures GoodState(Scan(Init, s))
    ensures Pending(Scan(Init, s)) <= |s|
    decreases |s|
  {
    if s != [] {
      ScanWellFormed(s[..|s| - 1]);
      StepWellFormed(Scan(Init, s[..|s| - 1]), s[|s| - 1]);
    }
  }

  /**
   Every VAR token is a non-empty run of identifier characters, every other
   token one of `( ) ; - :` tagged with its kind, so that no LAMBDA token
   is ever produced; there are never more tokens than characters.
   */
  lemma LexWellFormed(s: string)
    ensures forall t :: t in Lex(s) ==> WellFormed(t) && t.kind != LAMBDA
    ensures |Lex(s)| <= |s|
  {
    ScanWellFormed(s);
  }

  /** Both lambda signs are absorbed into identifiers: `λx.x` is two VARs. */
  lemma LexLambdaSign()
    ensures Lex([GreekLambda, 'x', '.', 'x']) == [Token(VAR, [GreekLambda, 'x']), Token(VAR, "x")]
    ensures Lex("\\x.x") == [Token(VAR, "\\x"), Token(VAR, "x")]
  {
    LexBreak([GreekLambda, 'x'], '.', "x");
    assert [GreekLambda, 'x'] + ['.'] + "x" == [GreekLambda, 'x', '.', 'x'];
    LexRun([GreekLambda, 'x']);
    LexRun("x");
    LexBreak("\\x", '.', "x");
    assert "\\x" + ['.'] + "x" == "\\x.x";
    LexRun("\\x");
  }

  // ---------------------------------------------------------------------
  // Expressions, types and the parser (assignment_3/main.py:74-164)
  // ---------------------------------------------------------------------

  /**
   The values `parse_type` returns: a VAR token, a tuple `(t1, ARROW, t2)`,
   or None when the first token is neither VAR nor `(`.
   */
  datatype Ty = TNone | TVar(name: Name) | TArrow(dom: Ty, cod: Ty)

  /**
   The values `parse_expr` returns: None (a leading token it has no case
   for), `(VAR, x)`, `(LAMBDA, x, annotation, body)` with None as the
   annotation when there is none, and the tuple of the sub-expressions of a
   parenthesised group. `Bracketed` and `Separated` are the LPAREN- and
   SEPARATOR-tagged tuples `beta_reduction` has cases for; the parser never
   builds them.
   */
  datatype Expr =
    | ENone
    | Var(name: Name)
    | Lam(param: Name, ann: Ty, body: Expr)
    | Group(items: seq<Expr>)
    | Bracketed(first: Expr, second: Expr, third: Expr)
    | Separated(left: Expr, right: Expr)

  datatype Judgement = Judgement(expr: Expr, ty: Ty)

  /** The exceptions the parser raises. */
  datatype ParseError =
    | UnexpectedEnd        // no token where an expression or a type was due
    | ExpectedRParen       // a parenthesised group ran to the end of the input
    | ExpectedVariable     // a LAMBDA not followed by a VAR
    | ExpectedColon        // a judgement's expression not followed by `:`
    | ExpectedArrow        // a parenthesised type without `-` after its first part
    | ExpectedTypeRParen   // a parenthesised type without `)` after its second part
    | MissingToken         // the IndexError of reading a token past the end inside a type

  datatype Parsed<T> = Parsed(result: Result<T, ParseError>, rest: seq<Token>)

  /** `parse_expr` (assignment_3/main.py:101-139). */
  function ParsedExpr(ts: seq<Token>): (p: Parsed<Expr>)
    ensures IsSuffix(p.rest, ts)
    ensures p.result.Ok? ==> |p.rest| < |ts|
    decreases |ts|, 0
  {
    if ts == [] then Parsed(Err(UnexpectedEnd), [])
    else if ts[0].kind == LPAREN then ParsedGroup(ts[1..], [])
    else if ts[0].kind == LAMBDA then ParsedLambda(ts[1..])
    else if ts[0].kind == VAR then Parsed(Ok(Var(ts[0].text)), ts[1..])
    else Parsed(Ok(ENone), ts[1..])
  }

  /**
   The lambda case of `parse_expr` (assignment_3/main.py:121-133), from
   the tokens after the LAMBDA: a VAR, an optional ARROW and type, and the body.
   */
  function ParsedLambda(ts: seq<Token>): (p: Parsed<Expr>)
    ensures IsSuffix(p.rest, ts)
    decreases |ts|, 0
  {
    if ts == [] || ts[0].kind != VAR then Parsed(Err(ExpectedVariable), ts)
    else
      var name, ts1 := ts[0].text, ts[1..];
      if ts1 != [] && ts1[0].kind == ARROW then
        var ann := ParsedType(ts1[1..]);
        if ann.result.Err? then Parsed(Err(ann.result.error), ann.rest)
        else
          var body := ParsedExpr(ann.rest);
          if body.result.Err? then body else Parsed(Ok(Lam(name, ann.result.value, body.result.value)), body.rest)
      else
        var body := ParsedExpr(ts1);
        if body.result.Err? then body else Parsed(Ok(Lam(name, TNone, body.result.value)), body.rest)
  }

  /**
   The loop of `parse_expr`'s parenthesis case (assignment_3/main.py:108-117),
   from a token list `ts` with the sub-expressions `acc` collected so far.
   */
  function ParsedGroup(ts: seq<Token>, acc: seq<Expr>): (p: Parsed<Expr>)
    ensures IsSuffix(p.rest, ts)
    ensures p.result.Ok? ==> |p.rest| < |ts|
    decreases |ts|, 1
  {
    if ts != [] && ts[0].kind != RPAREN then
      var sub := ParsedExpr(ts);
      if sub.result.Err? then sub
      else
        var ts1 := sub.rest;
        var ts2 := if ts1 != [] && (ts1[0].kind == SEPARATOR || ts1[0].kind == ARROW) then ts1[1..] else ts1;
        ParsedGroup(ts2, acc + [sub.result.value])
    else if ts != [] && ts[0].kind == RPAREN then Parsed(Ok(Group(acc)), ts[1..])
    else Parsed(Err(ExpectedRParen), ts)
  }

  /** `parse_type` (assignment_3/main.py:145-164). */
  function ParsedType(ts: seq<Token>): (p: Parsed<Ty>)
    ensures IsSuffix(p.rest, ts)
    decreases |ts|, 0
  {
    if ts == [] then Parsed(Err(UnexpectedEnd), [])
    else if ts[0].kind == VAR then Parsed(Ok(TVar(ts[0].text)), ts[1..])
    else if ts[0].kind == LPAREN then ParsedArrowType(ts[1..])
    else Parsed(Ok(TNone), ts)
  }

  /** The arrow case of `parse_type` (assignment_3/main.py:154-164), from the tokens after the LPAREN. */
  function ParsedArrowType(ts: seq<Token>): (p: Parsed<Ty>)
    ensures IsSuffix(p.rest, ts)
    decreases |ts|, 1
  {
    var t1 := ParsedType(ts);
    if t1.result.Err? then t1
    else if t1.rest == [] then Parsed(Err(MissingToken), [])
    else if t1.rest[0].kind != ARROW then Parsed(Err(ExpectedArrow), t1.rest)
    else ParsedArrowRight(t1.result.value, t1.rest[1..])
  }

  /** The right-hand side of an arrow type and its closing RPAREN (assignment_3/main.py:157-162), from the tokens after the ARROW. */
  function ParsedArrowRight(a: Ty, ts: seq<Token>): (p: Parsed<Ty>)
    ensures IsSuffix(p.rest, ts)
    decreases |ts|, 1
  {
    var t2 := ParsedType(ts);
    if t2.result.Err? then t2
    else if t2.rest == [] then Parsed(Err(MissingToken), [])
    else if t2.rest[0].kind != RPAREN then Parsed(Err(ExpectedTypeRParen), t2.rest)
    else Parsed(Ok(TArrow(a, t2.result.value)), t2.rest[1..])
  }

  /** `parse_judgement` (assignment_3/main.py:86-95), which `parser` calls. */
  function ParsedJudgement(ts: seq<Token>): (p: Parsed<Judgement>)
    ensures IsSuffix(p.rest, ts)
  {
    var e := ParsedExpr(ts);
    if e.result.Err? then Parsed(Err(e.result.error), e.rest)
    else if e.rest != [] && e.rest[0].kind == COLON then
      var t := ParsedType(e.rest[1..]);
      if t.result.Err? then Parsed(Err(t.result.error), t.rest)
      else Parsed(Ok(Judgement(e.result.value, t.result.value)), t.rest)
    else Parsed(Err(ExpectedColon), e.rest)
  }

  /** The token list the parse functions share and pop from. */
  class Parser {
    var tokens: seq<Token>

    constructor (ts: seq<Token>)
      ensures tokens == ts
    {
      tokens := ts;
    }

    method ParseJudgement() returns (r: Result<Judgement, ParseError>)
      modifies this
      ensures Parsed(r, tokens) == ParsedJudgement(old(tokens))
    {
      var e := ParseExpr();
      if e.Err? {
        return Err(e.error);
      }
      if tokens != [] && tokens[0].kind == COLON {
        tokens := tokens[1..];
        var t := ParseType();
        if t.Err? {
          return Err(t.error);
        }
        return Ok(Judgement(e.value, t.value));
      }
      return Err(ExpectedColon);
    }

    method ParseExpr() returns (r: Result<Expr, ParseError>)
      modifies this
      ensures Parsed(r, tokens) == ParsedExpr(old(tokens))
      decreases |tokens|
    {
      if |tokens| == 0 {
        return Err(UnexpectedEnd);
      }
      if tokens[0].kind == LPAREN {
        tokens := tokens[1..];
        var subExprs: seq<Expr> := [];
        while tokens != [] && tokens[0].kind != RPAREN
          invariant |tokens| < |old(tokens)|
          invariant ParsedGroup(tokens, subExprs) == ParsedExpr(old(tokens))
          decreases |tokens|
        {
          var sub := ParseExpr();
          if sub.Err? {
            return sub;
          }
          subExprs := subExprs + [sub.value];
          if tokens != [] && (tokens[0].kind == SEPARATOR || tokens[0].kind == ARROW) {
            tokens := tokens[1..];
          }
        }
        if tokens != [] && tokens[0].kind == RPAREN {
          tokens := tokens[1..];
          return Ok(Group(subExprs));
        }
        return Err(ExpectedRParen);
      }
      var tok := tokens[0];
      tokens := tokens[1..];
      if tok.kind == LAMBDA {
        if tokens != [] && tokens[0].kind == VAR {
          var varName := tokens[0].text;
          tokens := tokens[1..];
          var annotation := TNone;
          if tokens != [] && tokens[0].kind == ARROW {
            tokens := tokens[1..];
            var t := ParseType();
            if t.Err? {
              return Err(t.error);
            }
            annotation := t.value;
          }
          var body := ParseExpr();
          if body.Err? {
            return body;
          }
          return Ok(Lam(varName, annotation, body.value));
        }
        return Err(ExpectedVariable);
      } else if tok.kind == VAR {
        return Ok(Var(tok.text));
      }
      return Ok(ENone);
    }

    method ParseType() returns (r: Result<Ty, ParseError>)
      modifies this
      ensures Parsed(r, tokens) == ParsedType(old(tokens))
      decreases |tokens|
    {
      if |tokens| == 0 {
        return Err(UnexpectedEnd);
      }
      if tokens[0].kind == VAR {
        var tok := tokens[0];
        tokens := tokens[1..];
        return Ok(TVar(tok.text));
      }
      if tokens[0].kind == LPAREN {
        tokens := tokens[1..];
        ghost var afterOpen := tokens;
        assert ParsedType(old(tokens)) == ParsedArrowType(afterOpen);
        var t1 := ParseType();
        if t1.Err? {
          return t1;
        }
        if tokens == [] {
          return Err(MissingToken);
        }
        if tokens[0].kind == ARROW {
          tokens := tokens[1..];
          assert ParsedArrowType(afterOpen) == ParsedArrowRight(t1.value, tokens);
          var t2 := ParseType();
          if t2.Err? {
            return t2;
          }
          if tokens == [] {
            return Err(MissingToken);
          }
          if tokens[0].kind == RPAREN {
            tokens := tokens[1..];
            return Ok(TArrow(t1.value, t2.value));
          }
          return Err(ExpectedTypeRParen);
        }
        return Err(ExpectedArrow);
      }
      return Ok(TNone);
    }
  }

  // Lemmas about the parser

  /** Every parse of an empty token list fails at once. */
  lemma ParseEmpty()
    ensures ParsedExpr([]) == Parsed(Err(UnexpectedEnd), [])
    ensures ParsedType([]) == Parsed(Err(UnexpectedEnd), [])
    ensures ParsedJudgement(Lex("")) == Parsed(Err(UnexpectedEnd), [])
  {
  }

  /** The expressions the parser can build: no LPAREN- or SEPARATOR-tagged tuple. */
  predicate Parseable(e: Expr)
  {
    match e
    case ENone => true
    case Var(_) => true
    case Lam(_, _, b) => Parseable(b)
    case Group(items) => forall x | x in items :: Parseable(x)
    case _ => false
  }

  /** The tokens of `t` followed by `rest`: a token list that `parse_type` reads back as `t`. */
  function TyTokens(t: Ty, rest: seq<Token>): seq<Token>
  {
    match t
    case TNone => rest
    case TVar(n) => [Token(VAR, n)] + rest
    case TArrow(a, b) =>
      [Token(LPAREN, "(")] + TyTokens(a, [Token(ARROW, "-")] + TyTokens(b, [Token(RPAREN, ")")] + rest))
  }

  /** The tokens of a lambda's annotation followed by `rest`: nothing, or an ARROW and the type. */
  function AnnTokens(ann: Ty, rest: seq<Token>): seq<Token>
  {
    if ann == TNone then rest else [Token(ARROW, "-")] + TyTokens(ann, rest)
  }

  /**
   The tokens of `e` followed by `rest`: a token list that `parse_expr`
   reads back as `e`. An ENone is written as a COLON.
   */
  function ExprTokens(e: Expr, rest: seq<Token>): (ts: seq<Token>)
    requires Parseable(e)
    ensures ts != [] && ts[0].kind in {VAR, LAMBDA, LPAREN, COLON}
    decreases e, 1
  {
    match e
    case ENone => [Token(COLON, ":")] + rest
    case Var(n) => [Token(VAR, n)] + rest
    case Lam(n, ann, b) => [Token(LAMBDA, [GreekLambda])] + ([Token(VAR, n)] + AnnTokens(ann, ExprTokens(b, rest)))
    case Group(_) => [Token(LPAREN, "(")] + ItemsTokens(e, 0, [Token(RPAREN, ")")] + rest)
    case _ => assert false; rest
  }

  /** The items of a group from index `i` on, each followed by a SEPARATOR, and then `rest`. */
  function ItemsTokens(g: Expr, i: nat, rest: seq<Token>): seq<Token>
    requires g.Group? && Parseable(g) && i <= |g.items|
    decreases g, 0, |g.items| - i
  {
    if i == |g.items| then rest
    else
      assert g.items[i] in g.items;
      ExprTokens(g.items[i], [Token(SEPARATOR, ";")] + ItemsTokens(g, i + 1, rest))
  }

  // One step of each parse function, stated on its own so that the
  // round-trip proofs below unfold the parser one case at a time.

  lemma TypeVarStep(n: Name, rest: seq<Token>)
    ensures ParsedType([Token(VAR, n)] + rest) == Parsed(Ok(TVar(n)), rest)
  {
    assert ([Token(VAR, n)] + rest)[1..] == rest;
  }

  lemma TypeArrowStep(ta: seq<Token>, a: Ty, b: Ty, tb: seq<Token>, rest: seq<Token>)
    requires ParsedType(ta) == Parsed(Ok(a), [Token(ARROW, "-")] + tb)
    requires ParsedType(tb) == Parsed(Ok(b), [Token(RPAREN, ")")] + rest)
    ensures ParsedType([Token(LPAREN, "(")] + ta) == Parsed(Ok(TArrow(a, b)), rest)
  {
    assert ([Token(LPAREN, "(")] + ta)[1..] == ta;
    assert ([Token(ARROW, "-")] + tb)[1..] == tb;
    ArrowRightStep(a, b, tb, rest);
    assert ParsedArrowType(ta) == Parsed(Ok(TArrow(a, b)), rest);
  }

  lemma ArrowRightStep(a: Ty, b: Ty, tb: seq<Token>, rest: seq<Token>)
    requires ParsedType(tb) == Parsed(Ok(b), [Token(RPAREN, ")")] + rest)
    ensures ParsedArrowRight(a, tb) == Parsed(Ok(TArrow(a, b)), rest)
  {
    assert ([Token(RPAREN, ")")] + rest)[1..] == rest;
  }

  lemma LamStep(n: Name, ts: seq<Token>, b: Expr, rest: seq<Token>)
    requires ts != [] && ts[0].kind != ARROW
    requires ParsedExpr(ts) == Parsed(Ok(b), rest)
    ensures ParsedExpr([Token(LAMBDA, [GreekLambda])] + ([Token(VAR, n)] + ts)) == Parsed(Ok(Lam(n, TNone, b)), rest)
  {
    var ts1 := [Token(VAR, n)] + ts;
    assert ts1[1..] == ts;
    assert ParsedLambda(ts1) == Parsed(Ok(Lam(n, TNone, b)), rest);
    assert ([Token(LAMBDA, [GreekLambda])] + ts1)[1..] == ts1;
  }

  lemma AnnotatedLamStep(n: Name, ts: seq<Token>, ann: Ty, r: seq<Token>, b: Expr, rest: seq<Token>)
    requires ParsedType(ts) == Parsed(Ok(ann), r)
    requires ParsedExpr(r) == Parsed(Ok(b), rest)
    ensures ParsedExpr([Token(LAMBDA, [GreekLambda])] + ([Token(VAR, n)] + ([Token(ARROW, "-")] + ts)))
         == Parsed(Ok(Lam(n, ann, b)), rest)
  {
    var ts2 := [Token(ARROW, "-")] + ts;
    var ts1 := [Token(VAR, n)] + ts2;
    assert ts2[1..] == ts;
    assert ts1[1..] == ts2;
    assert ParsedLambda(ts1) == Parsed(Ok(Lam(n, ann, b)), rest);
    assert ([Token(LAMBDA, [GreekLambda])] + ts1)[1..] == ts1;
  }

  lemma LeafStep(t: Token, rest: seq<Token>)
    requires t.kind == VAR || t.kind == COLON
    ensures ParsedExpr([t] + rest) == Parsed(Ok(if t.kind == VAR then Var(t.text) else ENone), rest)
  {
    assert ([t] + rest)[1..] == rest;
  }

  lemma GroupOpenStep(ts: seq<Token>)
    ensures ParsedExpr([Token(LPAREN, "(")] + ts) == ParsedGroup(ts, [])
  {
    assert ([Token(LPAREN, "(")] + ts)[1..] == ts;
  }

  lemma GroupItemStep(ts: seq<Token>, acc: seq<Expr>, x: Expr, after: seq<Token>)
    requires ts != [] && ts[0].kind != RPAREN
    requires ParsedExpr(ts) == Parsed(Ok(x), [Token(SEPARATOR, ";")] + after)
    ensures ParsedGroup(ts, acc) == ParsedGroup(after, acc + [x])
  {
    assert ([Token(SEPARATOR, ";")] + after)[1..] == after;
  }

  lemma GroupCloseStep(acc: seq<Expr>, rest: seq<Token>)
    ensures ParsedGroup([Token(RPAREN, ")")] + rest, acc) == Parsed(Ok(Group(acc)), rest)
  {
    assert ([Token(RPAREN, ")")] + rest)[1..] == rest;
  }

  lemma JudgementStep(ts: seq<Token>, e: Expr, tt: seq<Token>, t: Ty, rest: seq<Token>)
    requires ParsedExpr(ts) == Parsed(Ok(e), [Token(COLON, ":")] + tt)
    requires ParsedType(tt) == Parsed(Ok(t), rest)
    ensures ParsedJudgement(ts) == Parsed(Ok(Judgement(e, t)), rest)
  {
    assert ([Token(COLON, ":")] + tt)[1..] == tt;
  }

  /**
   `parse_type` reads a type back from its tokens and leaves the rest; a
   missing type (None) is read back only where the next token cannot start
   a type.
   */
  lemma {:induction false} ParseTyTokens(t: Ty, rest: seq<Token>)
    requires t != TNone || (rest != [] && rest[0].kind != VAR && rest[0].kind != LPAREN)
    ensures ParsedType(TyTokens(t, rest)) == Parsed(Ok(t), rest)
    decreases t
  {
    match t
    case TNone =>
    case TVar(n) =>
      TypeVarStep(n, rest);
    case TArrow(a, b) =>
      var close := [Token(RPAREN, ")")] + rest;
      var tb := TyTokens(b, close);
      ParseTyTokens(b, close);
      ParseTyTokens(a, [Token(ARROW, "-")] + tb);
      TypeArrowStep(TyTokens(a, [Token(ARROW, "-")] + tb), a, b, tb, rest);
  }

  /** `parse_expr` reads any expression it can build back from its tokens, whatever follows. */
  lemma {:induction false} ParseExprTokens(e: Expr, rest: seq<Token>)
    requires Parseable(e)
    ensures ParsedExpr(ExprTokens(e, rest)) == Parsed(Ok(e), rest)
    decreases e, 1
  {
    match e
    case ENone =>
      LeafStep(Token(COLON, ":"), rest);
    case Var(n) =>
      LeafStep(Token(VAR, n), rest);
    case Lam(n, ann, b) =>
      ParseLamTokens(n, ann, b, rest);
    case Group(items) =>
      var close := [Token(RPAREN, ")")] + rest;
      ParseItemsTokens(e, 0, rest);
      assert items[..0] == [];
      GroupOpenStep(ItemsTokens(e, 0, close));
  }

  lemma {:induction false} ParseLamTokens(n: Name, ann: Ty, b: Expr, rest: seq<Token>)
    requires Parseable(b)
    ensures ParsedExpr(ExprTokens(Lam(n, ann, b), rest)) == Parsed(Ok(Lam(n, ann, b)), rest)
    decreases b, 2
  {
    var tail := ExprTokens(b, rest);
    ParseExprTokens(b, rest);
    if ann == TNone {
      LamStep(n, tail, b, rest);
    } else {
      ParseTyTokens(ann, tail);
      AnnotatedLamStep(n, TyTokens(ann, tail), ann, tail, b, rest);
    }
  }

  lemma {:induction false} ParseItemsTokens(g: Expr, i: nat, rest: seq<Token>)
    requires g.Group? && Parseable(g) && i <= |g.items|
    ensures ParsedGroup(ItemsTokens(g, i, [Token(RPAREN, ")")] + rest), g.items[..i]) == Parsed(Ok(g), rest)
    decreases g, 0, |g.items| - i
  {
    if i == |g.items| {
      assert g.items[..i] == g.items;
      ParseNoItemsTokens(g, rest);
    } else {
      var x := g.items[i];
      assert x in g.items;
      var after := ItemsTokens(g, i + 1, [Token(RPAREN, ")")] + rest);
      ParseExprTokens(x, [Token(SEPARATOR, ";")] + after);
      GroupItemStep(ExprTokens(x, [Token(SEPARATOR, ";")] + after), g.items[..i], x, after);
      TakeSnoc(g.items, i);
      ParseItemsTokens(g, i + 1, rest);
    }
  }

  lemma ParseNoItemsTokens(g: Expr, rest: seq<Token>)
    requires g.Group? && Parseable(g)
    ensures ParsedGroup(ItemsTokens(g, |g.items|, [Token(RPAREN, ")")] + rest), g.items) == Parsed(Ok(g), rest)
  {
    GroupCloseStep(g.items, rest);
  }

  /** `parse_judgement` reads back an expression, a COLON and a type. */
  lemma ParseJudgementTokens(e: Expr, t: Ty, rest: seq<Token>)
    requires Parseable(e)
    requires t != TNone || (rest != [] && rest[0].kind != VAR && rest[0].kind != LPAREN)
    ensures ParsedJudgement(ExprTokens(e, [Token(COLON, ":")] + TyTokens(t, rest))) == Parsed(Ok(Judgement(e, t)), rest)
  {
    var tt := TyTokens(t, rest);
    ParseExprTokens(e, [Token(COLON, ":")] + tt);
    ParseTyTokens(t, rest);
    JudgementStep(ExprTokens(e, [Token(COLON, ":")] + tt), e, tt, t, rest);
  }

  /** `parse_expr` builds only `Parseable` expressions: never an LPAREN- or SEPARATOR-tagged tuple. */
  lemma {:induction false} ParsedExprParseable(ts: seq<Token>)
    ensures ParsedExpr(ts).result.Ok? ==> Parseable(ParsedExpr(ts).result.value)
    decreases |ts|, 0
  {
    if ts != [] {
      if ts[0].kind == LPAREN {
        ParsedGroupParseable(ts[1..], []);
      } else if ts[0].kind == LAMBDA {
        ParsedLambdaParseable(ts[1..]);
      }
    }
  }

  lemma {:induction false} ParsedLambdaParseable(ts: seq<Token>)
    ensures ParsedLambda(ts).result.Ok? ==> Parseable(ParsedLambda(ts).result.value)
    decreases |ts|, 1
  {
    if ts != [] && ts[0].kind == VAR {
      var ts1 := ts[1..];
      if ts1 != [] && ts1[0].kind == ARROW {
        ParsedExprParseable(ParsedType(ts1[1..]).rest);
      } else {
        ParsedExprParseable(ts1);
      }
    }
  }

  lemma {:induction false} ParsedGroupParseable(ts: seq<Token>, acc: seq<Expr>)
    ensures (forall x | x in acc :: Parseable(x)) && ParsedGroup(ts, acc).result.Ok? ==> Parseable(ParsedGroup(ts, acc).result.value)
    decreases |ts|, 1
  {
    if ts != [] && ts[0].kind != RPAREN {
      var sub := ParsedExpr(ts);
      ParsedExprParseable(ts);
      if sub.result.Ok? {
        var ts1 := sub.rest;
        var ts2 := if ts1 != [] && (ts1[0].kind == SEPARATOR || ts1[0].kind == ARROW) then ts1[1..] else ts1;
        ParsedGroupParseable(ts2, acc + [sub.result.value]);
      }
    }
  }

  /** `parse_type` returns None only where the next token cannot start a type, and then pops nothing. */
  lemma ParsedTypeNone(ts: seq<Token>)
    ensures ParsedType(ts).result == Ok(TNone) ==>
              ParsedType(ts).rest == ts && ts != [] && ts[0].kind != VAR && ts[0].kind != LPAREN
  {
    if ts != [] && ts[0].kind == LPAREN {
      var p := ParsedArrowType(ts[1..]);
      var t1 := ParsedType(ts[1..]);
      if t1.result.Ok? && t1.rest != [] && t1.rest[0].kind == ARROW {
        assert p == ParsedArrowRight(t1.result.value, t1.rest[1..]);
      }
    }
  }

  /**
   Every judgement `parse_judgement` reads is read back from its own
   tokens followed by the tokens it left: re-rendering a parse loses nothing.
   */
  lemma ParsedJudgementRetokens(ts: seq<Token>)
    ensures ParsedJudgement(ts).result.Ok? ==> Parseable(ParsedJudgement(ts).result.value.expr)
    ensures ParsedJudgement(ts).result.Ok? ==>
              var p := ParsedJudgement(ts);
              ParsedJudgement(ExprTokens(p.result.value.expr, [Token(COLON, ":")] + TyTokens(p.result.value.ty, p.rest))) == p
  {
    var p := ParsedJudgement(ts);
    var e := ParsedExpr(ts);
    ParsedExprParseable(ts);
    if p.result.Ok? {
      ParsedTypeNone(e.rest[1..]);
      ParseJudgementTokens(p.result.value.expr, p.result.value.ty, p.rest);
    }
  }

  /** The expression contains a lambda abstraction. */
  predicate HasLam(e: Expr)
  {
    match e
    case Lam(_, _, _) => true
    case Group(items) => exists x | x in items :: HasLam(x)
    case Bracketed(a, b, c) => HasLam(a) || HasLam(b) || HasLam(c)
    case Separated(a, b) => HasLam(a) || HasLam(b)
    case _ => false
  }

  predicate NoLambdaToken(ts: seq<Token>)
  {
    forall i :: 0 <= i < |ts| ==> ts[i].kind != LAMBDA
  }

  lemma SuffixNoLambdaToken(r: seq<Token>, ts: seq<Token>)
    ensures NoLambdaToken(ts) && IsSuffix(r, ts) ==> NoLambdaToken(r)
  {
    if NoLambdaToken(ts) && IsSuffix(r, ts) {
      forall i | 0 <= i < |r|
        ensures r[i].kind != LAMBDA
      {
        assert r[i] == ts[|ts| - |r| + i];
      }
    }
  }

  /** Without a LAMBDA token the parser builds no lambda abstraction. */
  lemma {:induction false} NoLambdaExpr(ts: seq<Token>)
    requires NoLambdaToken(ts)
    ensures ParsedExpr(ts).result.Ok? ==> !HasLam(ParsedExpr(ts).result.value)
    decreases |ts|, 0
  {
    if ts != [] {
      if ts[0].kind == LPAREN {
        SuffixNoLambdaToken(ts[1..], ts);
        NoLambdaGroup(ts[1..], []);
      } else {
        assert ts[0].kind != LAMBDA;
      }
    }
  }

  lemma {:induction false} NoLambdaGroup(ts: seq<Token>, acc: seq<Expr>)
    requires NoLambdaToken(ts)
    requires forall x | x in acc :: !HasLam(x)
    ensures ParsedGroup(ts, acc).result.Ok? ==> !HasLam(ParsedGroup(ts, acc).result.value)
    decreases |ts|, 1
  {
    if ts != [] && ts[0].kind != RPAREN {
      var sub := ParsedExpr(ts);
      NoLambdaExpr(ts);
      if sub.result.Ok? {
        var ts1 := sub.rest;
        SuffixNoLambdaToken(ts1, ts);
        var ts2 := if ts1 != [] && (ts1[0].kind == SEPARATOR || ts1[0].kind == ARROW) then ts1[1..] else ts1;
        SuffixNoLambdaToken(ts2, ts1);
        NoLambdaGroup(ts2, acc + [sub.result.value]);
      }
    }
  }

  /**
   Since the lexer never emits a LAMBDA token, no judgement read from text
   contains a lambda abstraction.
   */
  lemma LexedJudgementHasNoLambda(s: string)
    ensures ParsedJudgement(Lex(s)).result.Ok? ==> !HasLam(ParsedJudgement(Lex(s)).result.value.expr)
  {
    LexWellFormed(s);
    NoLambdaExpr(Lex(s));
  }

  lemma LexJudgementExample()
    ensures Lex("x:a") == [Token(VAR, "x"), Token(COLON, ":"), Token(VAR, "a")]
  {
    LexBreak("x", ':', "a");
    assert "x" + [':'] + "a" == "x:a";
    LexRun("x");
    LexRun("a");
  }

  lemma ParseJudgementExample()
    ensures ParsedJudgement(Lex("x:a")) == Parsed(Ok(Judgement(Var("x"), TVar("a"))), [])
  {
    LexJudgementExample();
    ParseJudgementTokens(Var("x"), TVar("a"), []);
    assert ExprTokens(Var("x"), [Token(COLON, ":")] + TyTokens(TVar("a"), [])) == Lex("x:a");
  }

  // Lemmas about the parser's errors

  /** No token of the list has kind `k`. */
  predicate NoKind(ts: seq<Token>, k: Kind)
  {
    forall i :: 0 <= i < |ts| ==> ts[i].kind != k
  }

  lemma SuffixNoKind(r: seq<Token>, ts: seq<Token>, k: Kind)
    ensures NoKind(ts, k) && IsSuffix(r, ts) ==> NoKind(r, k)
  {
    if NoKind(ts, k) && IsSuffix(r, ts) {
      forall i | 0 <= i < |r|
        ensures r[i].kind != k
      {
        assert r[i] == ts[|ts| - |r| + i];
      }
    }
  }

  /** `parse_type` raises only its own errors; a missing token is the IndexError of reading past the end. */
  lemma {:induction false} TypeErrors(ts: seq<Token>)
    ensures ParsedType(ts).result.Err? ==>
              ParsedType(ts).result.error in {UnexpectedEnd, ExpectedArrow, ExpectedTypeRParen, MissingToken}
    decreases |ts|, 0
  {
    if ts != [] && ts[0].kind == LPAREN {
      ArrowTypeErrors(ts[1..]);
    }
  }

  lemma {:induction false} ArrowTypeErrors(ts: seq<Token>)
    ensures ParsedArrowType(ts).result.Err? ==>
              ParsedArrowType(ts).result.error in {UnexpectedEnd, ExpectedArrow, ExpectedTypeRParen, MissingToken}
    decreases |ts|, 1
  {
    var t1 := ParsedType(ts);
    TypeErrors(ts);
    if t1.result.Ok? && t1.rest != [] && t1.rest[0].kind == ARROW {
      ArrowRightErrors(t1.result.value, t1.rest[1..]);
    }
  }

  lemma {:induction false} ArrowRightErrors(a: Ty, ts: seq<Token>)
    ensures ParsedArrowRight(a, ts).result.Err? ==>
              ParsedArrowRight(a, ts).result.error in {UnexpectedEnd, ExpectedArrow, ExpectedTypeRParen, MissingToken}
    decreases |ts|, 1
  {
    TypeErrors(ts);
  }

  /**
   `parse_expr` never raises the judgement's "Expected ':'", and without a
   LAMBDA token it raises only "Unexpected end of input" on an empty list
   and "Expected ')'" otherwise.
   */
  lemma {:induction false} ExprErrors(ts: seq<Token>)
    ensures ParsedExpr(ts).result.Err? ==> ParsedExpr(ts).result.error != ExpectedColon
    ensures NoLambdaToken(ts) && ParsedExpr(ts).result.Err? ==>
              ParsedExpr(ts).result.error == if ts == [] then UnexpectedEnd else ExpectedRParen
    decreases |ts|, 0
  {
    if ts != [] {
      SuffixNoLambdaToken(ts[1..], ts);
      if ts[0].kind == LPAREN {
        GroupErrors(ts[1..], []);
      } else if ts[0].kind == LAMBDA {
        LambdaErrors(ts[1..]);
      }
    }
  }

  lemma {:induction false} LambdaErrors(ts: seq<Token>)
    ensures ParsedLambda(ts).result.Err? ==> ParsedLambda(ts).result.error != ExpectedColon
    decreases |ts|, 1
  {
    if ts != [] && ts[0].kind == VAR {
      var ts1 := ts[1..];
      if ts1 != [] && ts1[0].kind == ARROW {
        TypeErrors(ts1[1..]);
        ExprErrors(ParsedType(ts1[1..]).rest);
      } else {
        ExprErrors(ts1);
      }
    }
  }

  /**
   The loop of the parenthesis case never raises "Expected ':'"; a group
   that no RPAREN closes always raises, and without a LAMBDA token what it
   raises is "Expected ')'".
   */
  lemma {:induction false} GroupErrors(ts: seq<Token>, acc: seq<Expr>)
    ensures ParsedGroup(ts, acc).result.Err? ==> ParsedGroup(ts, acc).result.error != ExpectedColon
    ensures NoKind(ts, RPAREN) ==> ParsedGroup(ts, acc).result.Err?
    ensures NoLambdaToken(ts) && ParsedGroup(ts, acc).result.Err? ==> ParsedGroup(ts, acc).result.error == ExpectedRParen
    decreases |ts|, 1
  {
    if ts != [] && ts[0].kind != RPAREN {
      var sub := ParsedExpr(ts);
      ExprErrors(ts);
      if sub.result.Ok? {
        var ts1 := sub.rest;
        var ts2 := if ts1 != [] && (ts1[0].kind == SEPARATOR || ts1[0].kind == ARROW) then ts1[1..] else ts1;
        SuffixNoLambdaToken(ts1, ts);
        SuffixNoLambdaToken(ts2, ts1);
        SuffixNoKind(ts1, ts, RPAREN);
        SuffixNoKind(ts2, ts1, RPAREN);
        GroupErrors(ts2, acc + [sub.result.value]);
      }
    }
  }

  /**
   `parse_judgement` raises "Expected ':' in judgement" exactly when the
   expression parses and is not followed by a COLON, and leaves the tokens
   after the expression.
   */
  lemma JudgementColon(ts: seq<Token>)
    ensures ParsedJudgement(ts).result == Err(ExpectedColon) <==>
              ParsedExpr(ts).result.Ok? && (ParsedExpr(ts).rest == [] || ParsedExpr(ts).rest[0].kind != COLON)
    ensures ParsedJudgement(ts).result == Err(ExpectedColon) ==> ParsedJudgement(ts).rest == ParsedExpr(ts).rest
  {
    var e := ParsedExpr(ts);
    ExprErrors(ts);
    if e.result.Ok? && e.rest != [] && e.rest[0].kind == COLON {
      TypeErrors(e.rest[1..]);
    }
  }

  /** A LAMBDA not followed by a VAR raises "Expected variable after lambda" once the LAMBDA is popped. */
  lemma LambdaNeedsVariable(ts: seq<Token>)
    ensures ts != [] && ts[0].kind == LAMBDA && (|ts| == 1 || ts[1].kind != VAR) ==>
              ParsedExpr(ts) == Parsed(Err(ExpectedVariable), ts[1..])
  {
  }

  /**
   A parenthesised type whose first part is not followed by `-` raises
   "Expected '->' in type", or the IndexError when the list has run out.
   */
  lemma ArrowTypeRejected(ta: seq<Token>, a: Ty, r: seq<Token>)
    ensures ParsedType(ta) == Parsed(Ok(a), r) && r != [] && r[0].kind != ARROW ==>
              ParsedType([Token(LPAREN, "(")] + ta) == Parsed(Err(ExpectedArrow), r)
    ensures ParsedType(ta) == Parsed(Ok(a), []) ==>
              ParsedType([Token(LPAREN, "(")] + ta) == Parsed(Err(MissingToken), [])
  {
    assert ([Token(LPAREN, "(")] + ta)[1..] == ta;
  }

  /**
   A parenthesised type whose second part is not followed by `)` raises
   "Expected ')' after type", or the IndexError when the list has run out.
   */
  lemma ArrowCloseRejected(ta: seq<Token>, a: Ty, tb: seq<Token>, b: Ty, r: seq<Token>)
    ensures ParsedType(ta) == Parsed(Ok(a), [Token(ARROW, "-")] + tb) && ParsedType(tb) == Parsed(Ok(b), r)
              && r != [] && r[0].kind != RPAREN ==>
              ParsedType([Token(LPAREN, "(")] + ta) == Parsed(Err(ExpectedTypeRParen), r)
    ensures ParsedType(ta) == Parsed(Ok(a), [Token(ARROW, "-")] + tb) && ParsedType(tb) == Parsed(Ok(b), []) ==>
              ParsedType([Token(LPAREN, "(")] + ta) == Parsed(Err(MissingToken), [])
  {
    ArrowOpenStep(ta, a, tb);
  }

  lemma ArrowOpenStep(ta: seq<Token>, a: Ty, tb: seq<Token>)
    ensures ParsedType(ta) == Parsed(Ok(a), [Token(ARROW, "-")] + tb) ==>
              ParsedType([Token(LPAREN, "(")] + ta) == ParsedArrowRight(a, tb)
  {
    assert ([Token(LPAREN, "(")] + ta)[1..] == ta;
    assert ([Token(ARROW, "-")] + tb)[1..] == tb;
  }

  /**
   A line of text never raises "Expected variable after lambda": the lexer
   emits no LAMBDA token, so an expression read from text fails only for
   want of a `)`, or of any token at all when the line has none.
   */
  lemma LexedJudgementErrors(s: string)
    ensures ParsedJudgement(Lex(s)).result != Err(ExpectedVariable)
    ensures ParsedExpr(Lex(s)).result.Err? ==>
              ParsedExpr(Lex(s)).result.error == if Lex(s) == [] then UnexpectedEnd else ExpectedRParen
  {
    LexWellFormed(s);
    ExprErrors(Lex(s));
    var e := ParsedExpr(Lex(s));
    if e.result.Ok? && e.rest != [] && e.rest[0].kind == COLON {
      TypeErrors(e.rest[1..]);
    }
  }

  // ---------------------------------------------------------------------
  // beta_reduction (assignment_3/main.py:170-180)
  // ---------------------------------------------------------------------

  /** The Python exceptions `beta_reduction` and `to_standard_format` raise. */
  datatype PyError =
    | TypeError   // a value that is not one of the tagged tuples they handle
    | IndexError  // reading the tag of an empty tuple

  /**
   `beta_reduction(e, v, a)`: every `(VAR, v)` becomes `a`. Lambdas are
   entered whatever they bind, and keep their annotation. A group (an
   untagged tuple) and None raise TypeError, the empty group IndexError;
   the first exception raised in a left-to-right walk is the result.
   */
  function BetaReduce(e: Expr, v: Name, a: Expr): Result<Expr, PyError>
  {
    match e
    case Var(n) => Ok(if n == v then a else e)
    case Lam(n, ann, b) =>
      var b' := BetaReduce(b, v, a);
      if b'.Err? then b' else Ok(Lam(n, ann, b'.value))
    case Bracketed(x, y, z) =>
      var x' := BetaReduce(x, v, a);
      if x'.Err? then x'
      else
        var y' := BetaReduce(y, v, a);
        if y'.Err? then y'
        else
          var z' := BetaReduce(z, v, a);
          if z'.Err? then z' else Ok(Bracketed(x'.value, y'.value, z'.value))
    case Separated(x, y) =>
      var x' := BetaReduce(x, v, a);
      if x'.Err? then x'
      else
        var y' := BetaReduce(y, v, a);
        if y'.Err? then y' else Ok(Separated(x'.value, y'.value))
    case Group(items) => if items == [] then Err(IndexError) else Err(TypeError)
    case ENone => Err(TypeError)
  }

  /** The expressions `beta_reduction` walks without raising: no group and no None anywhere. */
  predicate Reducible(e: Expr)
  {
    match e
    case Var(_) => true
    case Lam(_, _, b) => Reducible(b)
    case Bracketed(x, y, z) => Reducible(x) && Reducible(y) && Reducible(z)
    case Separated(x, y) => Reducible(x) && Reducible(y)
    case _ => false
  }

  /** The names of all VAR leaves, bound or not. */
  function VarNames(e: Expr): set<Name>
  {
    match e
    case ENone => {}
    case Var(n) => {n}
    case Lam(_, _, b) => VarNames(b)
    case Group(items) => set x, n | x in items && n in VarNames(x) :: n
    case Bracketed(x, y, z) => VarNames(x) + VarNames(y) + VarNames(z)
    case Separated(x, y) => VarNames(x) + VarNames(y)
  }

  /** `beta_reduction` succeeds exactly on the expressions without a group or None. */
  lemma {:induction false} BetaReduceSucceeds(e: Expr, v: Name, a: Expr)
    ensures BetaReduce(e, v, a).Ok? <==> Reducible(e)
  {
    match e
    case Lam(_, _, b) => BetaReduceSucceeds(b, v, a);
    case Bracketed(x, y, z) =>
      BetaReduceSucceeds(x, v, a);
      BetaReduceSucceeds(y, v, a);
      BetaReduceSucceeds(z, v, a);
    case Separated(x, y) =>
      BetaReduceSucceeds(x, v, a);
      BetaReduceSucceeds(y, v, a);
    case _ =>
  }

  /**
   After a successful reduction `v` is gone unless `a` mentions it, `a`'s
   names are in if `v` was, and no other name appears or disappears.
   */
  lemma {:induction false} BetaReduceVarNames(e: Expr, v: Name, a: Expr)
    requires BetaReduce(e, v, a).Ok?
    ensures VarNames(BetaReduce(e, v, a).value) == Replaced(VarNames(e), v, VarNames(a))
  {
    match e
    case Lam(_, _, b) => BetaReduceVarNames(b, v, a);
    case Bracketed(x, y, z) =>
      BetaReduceVarNames(x, v, a);
      BetaReduceVarNames(y, v, a);
      BetaReduceVarNames(z, v, a);
      ReplacedUnion(VarNames(x), VarNames(y), v, VarNames(a));
      ReplacedUnion(VarNames(x) + VarNames(y), VarNames(z), v, VarNames(a));
    case Separated(x, y) =>
      BetaReduceVarNames(x, v, a);
      BetaReduceVarNames(y, v, a);
      ReplacedUnion(VarNames(x), VarNames(y), v, VarNames(a));
    case _ =>
  }

  /** The names `ns` with `v` taken out and, if `v` was there, the names `sub` put in. */
  function Replaced(ns: set<Name>, v: Name, sub: set<Name>): set<Name>
  {
    (ns - {v}) + (if v in ns then sub else {})
  }

  lemma ReplacedUnion(ns: set<Name>, ms: set<Name>, v: Name, sub: set<Name>)
    ensures Replaced(ns, v, sub) + Replaced(ms, v, sub) == Replaced(ns + ms, v, sub)
  {
  }

  /** Replacing a name that does not occur changes nothing. */
  lemma {:induction false} BetaReduceAbsent(e: Expr, v: Name, a: Expr)
    requires Reducible(e) && v !in VarNames(e)
    ensures BetaReduce(e, v, a) == Ok(e)
  {
    match e
    case Lam(_, _, b) => BetaReduceAbsent(b, v, a);
    case Bracketed(x, y, z) =>
      BetaReduceAbsent(x, v, a);
      BetaReduceAbsent(y, v, a);
      BetaReduceAbsent(z, v, a);
    case Separated(x, y) =>
      BetaReduceAbsent(x, v, a);
      BetaReduceAbsent(y, v, a);
    case _ =>
  }

  /** Replacing a name by itself changes nothing. */
  lemma {:induction false} BetaReduceIdentity(e: Expr, v: Name)
    requires Reducible(e)
    ensures BetaReduce(e, v, Var(v)) == Ok(e)
  {
    match e
    case Lam(_, _, b) => BetaReduceIdentity(b, v);
    case Bracketed(x, y, z) =>
      BetaReduceIdentity(x, v);
      BetaReduceIdentity(y, v);
      BetaReduceIdentity(z, v);
    case Separated(x, y) =>
      BetaReduceIdentity(x, v);
      BetaReduceIdentity(y, v);
    case _ =>
  }

  /**
   A lambda does not shield its own parameter, and every parenthesised
   expression the parser builds makes the walk fail.
   */
  lemma BetaReduceExamples()
    ensures BetaReduce(Lam("x", TNone, Var("x")), "x", Var("y")) == Ok(Lam("x", TNone, Var("y")))
    ensures BetaReduce(Group([Var("x"), Var("y")]), "x", Var("z")) == Err(TypeError)
    ensures BetaReduce(Group([]), "x", Var("z")) == Err(IndexError)
  {
  }

  // ---------------------------------------------------------------------
  // to_standard_format and output (assignment_3/main.py:186-210)
  // ---------------------------------------------------------------------

  /** A type as `to_standard_format` renders it: the parts of an arrow joined by ` ARROW `. */
  function PrintTy(t: Ty): Result<string, PyError>
  {
    match t
    case TNone => Err(TypeError)
    case TVar(n) => Ok(n)
    case TArrow(a, b) =>
      var a' := PrintTy(a);
      if a'.Err? then a'
      else
        var b' := PrintTy(b);
        if b'.Err? then b' else Ok(a'.value + " ARROW " + b'.value)
  }

  /**
   `to_standard_format` on an expression: a variable is its name, a lambda
   `(λx^T.body)` with an empty `T` when there is no annotation, and every
   other tuple the renderings of its parts joined by spaces, its string
   tags written out.
   */
  function PrintExpr(e: Expr): Result<string, PyError>
    decreases e, 1
  {
    match e
    case ENone => Err(TypeError)
    case Var(n) => Ok(n)
    case Lam(n, ann, b) =>
      var ann' := if ann == TNone then Ok("") else PrintTy(ann);
      if ann'.Err? then ann'
      else
        var b' := PrintExpr(b);
        if b'.Err? then b' else Ok("(" + [GreekLambda] + n + "^" + ann'.value + "." + b'.value + ")")
    case Group(items) => if items == [] then Err(IndexError) else PrintItems(e, 0)
    case Bracketed(x, y, z) =>
      var x' := PrintExpr(x);
      if x'.Err? then x'
      else
        var y' := PrintExpr(y);
        if y'.Err? then y'
        else
          var z' := PrintExpr(z);
          if z'.Err? then z' else Ok("LPAREN " + x'.value + " " + y'.value + " " + z'.value + " RPAREN")
    case Separated(x, y) =>
      var x' := PrintExpr(x);
      if x'.Err? then x'
      else
        var y' := PrintExpr(y);
        if y'.Err? then y' else Ok("SEPARATOR " + x'.value + " " + y'.value)
  }

  /** The items of a non-empty group from index `i` on, rendered and joined by spaces. */
  function PrintItems(g: Expr, i: nat): Result<string, PyError>
    requires g.Group? && i < |g.items|
    decreases g, 0, |g.items| - i
  {
    assert g.items[i] in g.items;
    var x := PrintExpr(g.items[i]);
    if x.Err? || i == |g.items| - 1 then x
    else
      var r := PrintItems(g, i + 1);
      if r.Err? then r else Ok(x.value + " " + r.value)
  }

  /** What `output` prints for a judgement, without the line break. */
  function Output(j: Judgement): Result<string, PyError>
  {
    var e := PrintExpr(j.expr);
    if e.Err? then e
    else
      var t := PrintTy(j.ty);
      if t.Err? then t else Ok(e.value + " : " + t.value)
  }

  /** The types that render: no None inside. */
  predicate TyPrintable(t: Ty)
  {
    match t
    case TNone => false
    case TVar(_) => true
    case TArrow(a, b) => TyPrintable(a) && TyPrintable(b)
  }

  /** The expressions that render: no None, no empty group, no None inside an annotation. */
  predicate Printable(e: Expr)
  {
    match e
    case ENone => false
    case Var(_) => true
    case Lam(_, ann, b) => (ann == TNone || TyPrintable(ann)) && Printable(b)
    case Group(items) => items != [] && forall x | x in items :: Printable(x)
    case Bracketed(x, y, z) => Printable(x) && Printable(y) && Printable(z)
    case Separated(x, y) => Printable(x) && Printable(y)
  }

  lemma {:induction false} PrintTySucceeds(t: Ty)
    ensures PrintTy(t).Ok? <==> TyPrintable(t)
  {
    match t
    case TArrow(a, b) =>
      PrintTySucceeds(a);
      PrintTySucceeds(b);
    case _ =>
  }

  /** `to_standard_format` raises exactly on None, an empty group, or None inside a type. */
  lemma {:induction false} PrintExprSucceeds(e: Expr)
    ensures PrintExpr(e).Ok? <==> Printable(e)
    decreases e, 1
  {
    match e
    case Lam(_, ann, b) =>
      if ann != TNone {
        PrintTySucceeds(ann);
      }
      PrintExprSucceeds(b);
    case Group(items) =>
      if items != [] {
        PrintItemsSucceeds(e, 0);
        assert items[0..] == items;
      }
    case Bracketed(x, y, z) =>
      PrintExprSucceeds(x);
      PrintExprSucceeds(y);
      PrintExprSucceeds(z);
    case Separated(x, y) =>
      PrintExprSucceeds(x);
      PrintExprSucceeds(y);
    case _ =>
  }

  lemma {:induction false} PrintItemsSucceeds(g: Expr, i: nat)
    requires g.Group? && i < |g.items|
    ensures PrintItems(g, i).Ok? <==> forall x | x in g.items[i..] :: Printable(x)
    decreases g, 0, |g.items| - i
  {
    assert g.items[i] in g.items;
    PrintExprSucceeds(g.items[i]);
    if i < |g.items| - 1 {
      PrintItemsSucceeds(g, i + 1);
      assert g.items[i..] == [g.items[i]] + g.items[i + 1..];
    } else {
      assert g.items[i..] == [g.items[i]];
    }
  }

  /** The leaf names of a type, left to right. */
  function Leaves(t: Ty): seq<Name>
  {
    match t
    case TNone => []
    case TVar(n) => [n]
    case TArrow(a, b) => Leaves(a) + Leaves(b)
  }

  /** The words of `ws` joined by `sep`. */
  function Join(ws: seq<string>, sep: string): string
    requires ws != []
  {
    if |ws| == 1 then ws[0] else ws[0] + sep + Join(ws[1..], sep)
  }

  lemma {:induction false} JoinAppend(a: seq<string>, b: seq<string>, sep: string)
    requires a != [] && b != []
    ensures Join(a + b, sep) == Join(a, sep) + sep + Join(b, sep)
    decreases |a|
  {
    if |a| == 1 {
      assert (a + b)[1..] == b;
    } else {
      assert (a + b)[1..] == a[1..] + b;
      JoinAppend(a[1..], b, sep);
    }
  }

  /**
   A type renders as its leaf names joined by ` ARROW `: the bracketing of
   the arrows is lost.
   */
  lemma {:induction false} PrintTyLeaves(t: Ty)
    requires TyPrintable(t)
    ensures Leaves(t) != [] && PrintTy(t) == Ok(Join(Leaves(t), " ARROW "))
  {
    match t
    case TVar(n) =>
    case TArrow(a, b) =>
      PrintTyLeaves(a);
      PrintTyLeaves(b);
      JoinAppend(Leaves(a), Leaves(b), " ARROW ");
  }

  /** So `(A -> B) -> C` and `A -> (B -> C)` render alike. */
  lemma ArrowsRenderAlike(a: Ty, b: Ty, c: Ty)
    requires TyPrintable(a) && TyPrintable(b) && TyPrintable(c)
    ensures PrintTy(TArrow(TArrow(a, b), c)) == PrintTy(TArrow(a, TArrow(b, c)))
  {
    PrintTySucceeds(a);
    PrintTySucceeds(b);
    PrintTySucceeds(c);
    var x, y, z := PrintTy(a).value, PrintTy(b).value, PrintTy(c).value;
    assert (x + " ARROW " + y) + " ARROW " + z == x + " ARROW " + (y + " ARROW " + z);
  }

  lemma OutputExample()
    ensures Output(Judgement(Lam("x", TVar("a"), Var("x")), TArrow(TVar("a"), TVar("a"))))
         == Ok("(" + [GreekLambda] + "x^a.x) : a ARROW a")
    ensures Output(Judgement(Group([Var("f"), Var("x")]), TVar("b"))) == Ok("f x : b")
  {
    assert "(" + [GreekLambda] + "x" + "^" + "a" + "." + "x" + ")" + " : " + ("a" + " ARROW " + "a")
        == "(" + [GreekLambda] + "x^a.x) : a ARROW a";
    var g := Group([Var("f"), Var("x")]);
    assert PrintItems(g, 1) == Ok("x");
    assert PrintItems(g, 0) == Ok("f" + " " + "x");
    assert "f" + " " + "x" + " : " + "b" == "f x : b";
  }
}
