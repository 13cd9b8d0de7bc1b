/**
 The untyped lambda-calculus engine of assignment_2/main.py: a character
 lexer, a recursive-descent parser that pops tokens off a shared list,
 substitution (without capture avoidance), alpha conversion through a
 shared renaming map, one pass of beta reduction, the printer and the
 bounded normalisation loop of `main`.
 */
module Lambda2 {
  import opened Common

  type Name = string

  // ---------------------------------------------------------------------
  // Tokens and the lexer (assignment_2/main.py:5-64)
  // ---------------------------------------------------------------------

  datatype Kind = VAR | LPAREN | RPAREN | LAMBDA | SEPARATOR | PLUS | STAR | DOT

  datatype Token = Token(kind: Kind, text: string)

  /** The characters of TOKEN_VALUES. */
  predicate IsSymbol(c: char)
  {
    c == '(' || c == ')' || c == CjkLambda || c == ';' || c == '+' || c == '*' || c == '.'
  }

  /** The key of TOKEN_VALUES whose value is `c`. */
  function KindOf(c: char): (k: Kind)
    requires IsSymbol(c)
    ensures k != VAR
  {
    match c
    case '(' => LPAREN
    case ')' => RPAREN
    case ';' => SEPARATOR
    case '+' => PLUS
    case '*' => STAR
    case '.' => DOT
    case _ => LAMBDA
  }

  /** A character that can occur in an identifier: a letter other than the lambda sign, or a digit. */
  predicate IsNameChar(c: char)
  {
    c != CjkLambda && IsAlnum(c)
  }

  /** An identifier as this lexer builds them: one name character followed by digits only. */
  predicate IsName(n: string)
  {
    |n| > 0 && IsNameChar(n[0]) && forall i :: 1 <= i < |n| ==> IsDigit(n[i])
  }

  /** What the lexer ever emits: identifiers, and one-character symbols tagged with their kind. */
  predicate WellFormed(t: Token)
  {
    if t.kind == VAR then IsName(t.text)
    else |t.text| == 1 && IsSymbol(t.text[0]) && KindOf(t.text[0]) == t.kind
  }

  /** The lexer's loop variables: the tokens emitted so far and the identifier being accumulated. */
  datatype LexState = LexState(tokens: seq<Token>, current: string)

  const Init := LexState([], "")

  /** The tokens with the pending identifier, if any, appended. */
  function Flushed(st: LexState): seq<Token>
  {
    if st.current != "" then st.tokens + [Token(VAR, st.current)] else st.tokens
  }

  /** One iteration of the lexer's loop. */
  function Step(st: LexState, c: char): LexState
  {
    if c == CjkLambda then LexState(Flushed(st) + [Token(LAMBDA, [c])], "")
    else if IsAlpha(c) then LexState(Flushed(st), [c])
    else if IsDigit(c) then LexState(st.tokens, st.current + [c])
    else if IsSymbol(c) then LexState(Flushed(st) + [Token(KindOf(c), [c])], "")
    else if IsSpace(c) then LexState(Flushed(st), "")
    else st  // reported on the console and dropped
  }

  /** The loop state after reading `s` from `st`. */
  function Scan(st: LexState, s: string): LexState
  {
    if s == [] then st else Step(Scan(st, s[..|s| - 1]), s[|s| - 1])
  }

  /** The token list `lexer(s)` returns. */
  function Lex(s: string): seq<Token>
  {
    Flushed(Scan(Init, s))
  }

  method Lexer(input: string) returns (tokens: seq<Token>)
    ensures tokens == Lex(input)
  {
    tokens := [];
    var current := "";
    for i := 0 to |input|
      invariant LexState(tokens, current) == Scan(Init, input[..i])
    {
      var c := input[i];
      if c == CjkLambda {
        if current != "" {
          tokens := tokens + [Token(VAR, current)];
          current := "";
        }
        tokens := tokens + [Token(LAMBDA, [c])];
      } else if IsAlpha(c) {
        if current != "" {
          tokens := tokens + [Token(VAR, current)];
          current := "";
        }
        current := [c];
      } else if IsDigit(c) {
        current := current + [c];
      } else if IsSymbol(c) {
        if current != "" {
          tokens := tokens + [Token(VAR, current)];
          current := "";
        }
        tokens := tokens + [Token(KindOf(c), [c])];
      } else if IsSpace(c) {
        if current != "" {
          tokens := tokens + [Token(VAR, current)];
          current := "";
        }
      }
      assert input[..i + 1][..i] == input[..i];
    }
    assert input[..|input|] == input;
    if current != "" {
      tokens := tokens + [Token(VAR, current)];
    }
  }

  // Lemmas about the lexer

  lemma {:induction false} ScanAppend(st: LexState, a: string, b: string)
    ensures Scan(st, a + b) == Scan(Scan(st, a), b)
    decreases |b|
  {
    if b == [] {
      assert a + b == a;
    } else {
      var b' := b[..|b| - 1];
      assert (a + b)[..|a + b| - 1] == a + b';
      ScanAppend(st, a, b');
    }
  }

  /** Tokens already emitted are never touched again: the lexer only appends. */
  lemma {:induction false} ScanFrom(toks: seq<Token>, cur: string, s: string)
    ensures Scan(LexState(toks, cur), s)
         == LexState(toks + Scan(LexState([], cur), s).tokens, Scan(LexState([], cur), s).current)
    decreases |s|
  {
    if s == [] {
      assert toks + [] == toks;
    } else {
      var s' := s[..|s| - 1];
      ScanFrom(toks, cur, s');
      var x := Scan(LexState([], cur), s');
      var c := s[|s| - 1];
      assert Flushed(LexState(toks + x.tokens, x.current)) == toks + Flushed(x);
      var y := Step(x, c);
      if c == CjkLambda || (!IsAlpha(c) && !IsDigit(c) && IsSymbol(c)) {
        assert toks + Flushed(x) + [Token(KindOf(c), [c])] == toks + (Flushed(x) + [Token(KindOf(c), [c])]);
        assert toks + Flushed(x) + [Token(LAMBDA, [c])] == toks + (Flushed(x) + [Token(LAMBDA, [c])]);
      }
    }
  }

  /** The characters that end the current identifier and emit at most one token of their own. */
  predicate IsBreak(c: char)
  {
    c == CjkLambda || IsSymbol(c) || IsSpace(c)
  }

  function Emitted(c: char): seq<Token>
  {
    if c == CjkLambda then [Token(LAMBDA, [c])]
    else if IsSymbol(c) then [Token(KindOf(c), [c])]
    else []
  }

  lemma ScanOne(s: string, c: char)
    ensures Scan(Init, s + [c]) == Step(Scan(Init, s), c)
  {
    assert (s + [c])[..|s + [c]| - 1] == s;
  }

  /**
   A lambda sign, a symbol of TOKEN_VALUES or white space splits the input:
   what precedes it and what follows it are lexed independently, and the
   character itself contributes its own token (white space contributes none).
   */
  lemma LexBreak(a: string, c: char, b: string)
    requires IsBreak(c)
    ensures Lex(a + [c] + b) == Lex(a) + Emitted(c) + Lex(b)
  {
    ScanAppend(Init, a + [c], b);
    ScanOne(a, c);
    var st := Scan(Init, a);
    assert Flushed(st) == Lex(a);
    BreakStep(st, c);
    ScanFrom(Lex(a) + Emitted(c), "", b);
    var x := Scan(Init, b);
    assert Flushed(LexState(Lex(a) + Emitted(c) + x.tokens, x.current)) == Lex(a) + Emitted(c) + Flushed(x);
  }

  /** One loop iteration on a break character flushes the identifier and emits the character's token. */
  lemma BreakStep(st: LexState, c: char)
    ensures IsBreak(c) ==> Step(st, c) == LexState(Flushed(st) + Emitted(c), "")
  {
    if c == CjkLambda {
    } else if IsSymbol(c) {
      assert !IsAlpha(c) && !IsDigit(c);
    } else if IsSpace(c) {
      assert !IsAlpha(c) && !IsDigit(c);
      assert Flushed(st) + [] == Flushed(st);
    }
  }

  /** A letter always starts a new identifier: it ends the one in progress. */
  lemma LexLetter(a: string, c: char, b: string)
    requires IsAlpha(c) && c != CjkLambda
    ensures Lex(a + [c] + b) == Lex(a) + Lex([c] + b)
  {
    ScanAppend(Init, a + [c], b);
    ScanOne(a, c);
    ScanAppend(Init, [c], b);
    ScanOne([], c);
    assert [] + [c] == [c];
    ScanFrom(Lex(a), [c], b);
    var y := Scan(LexState([], [c]), b);
    assert Flushed(LexState(Lex(a) + y.tokens, y.current)) == Lex(a) + Flushed(y);
  }

  /** An unrecognised character is dropped without ending the identifier in progress. */
  lemma LexDropped(a: string, c: char, b: string)
    requires !IsBreak(c) && !IsAlnum(c)
    ensures Lex(a + [c] + b) == Lex(a + b)
  {
    ScanAppend(Init, a + [c], b);
    ScanOne(a, c);
    ScanAppend(Init, a, b);
  }

  lemma {:induction false} ScanName(n: string)
    requires IsName(n)
    ensures Scan(Init, n) == LexState([], n)
    decreases |n|
  {
    var n' := n[..|n| - 1];
    if |n| == 1 {
      assert n' == [];
      assert [] + [n[0]] == n;
    } else {
      ScanName(n');
    }
  }

  /** An identifier lexes to exactly one VAR token. */
  lemma LexName(n: string)
    requires IsName(n)
    ensures Lex(n) == [Token(VAR, n)]
  {
    ScanName(n);
  }

  /** The concatenated texts of the VAR tokens. */
  function VarTexts(ts: seq<Token>): string
  {
    if ts == [] then "" else VarTexts(ts[..|ts| - 1]) + (if ts[|ts| - 1].kind == VAR then ts[|ts| - 1].text else "")
  }

  /** The concatenated texts of the other tokens. */
  function SymbolTexts(ts: seq<Token>): string
  {
    if ts == [] then "" else SymbolTexts(ts[..|ts| - 1]) + (if ts[|ts| - 1].kind != VAR then ts[|ts| - 1].text else "")
  }

  lemma TextsSnoc(ts: seq<Token>, t: Token)
    ensures VarTexts(ts + [t]) == VarTexts(ts) + (if t.kind == VAR then t.text else "")
    ensures SymbolTexts(ts + [t]) == SymbolTexts(ts) + (if t.kind != VAR then t.text else "")
  {
    assert (ts + [t])[..|ts + [t]| - 1] == ts;
  }

  lemma FlushedTexts(st: LexState)
    ensures VarTexts(Flushed(st)) == VarTexts(st.tokens) + st.current
    ensures SymbolTexts(Flushed(st)) == SymbolTexts(st.tokens)
  {
    if st.current != "" {
      TextsSnoc(st.tokens, Token(VAR, st.current));
    } else {
      assert VarTexts(st.tokens) + st.current == VarTexts(st.tokens);
    }
  }

  lemma StepTexts(st: LexState, c: char)
    ensures VarTexts(Step(st, c).tokens) + Step(st, c).current
         == VarTexts(st.tokens) + st.current + (if IsNameChar(c) then [c] else [])
    ensures SymbolTexts(Step(st, c).tokens) == SymbolTexts(st.tokens) + (if IsSymbol(c) then [c] else [])
  {
    if IsSymbol(c) {
      SymbolStepTexts(st, c);
    } else if IsAlpha(c) {
      LetterStepTexts(st, c);
    } else if IsDigit(c) {
      DigitStepTexts(st, c);
    } else {
      SilentStepTexts(st, c);
    }
  }

  lemma SymbolStepTexts(st: LexState, c: char)
    requires IsSymbol(c)
    ensures !IsNameChar(c)
    ensures VarTexts(Step(st, c).tokens) + Step(st, c).current == VarTexts(st.tokens) + st.current
    ensures SymbolTexts(Step(st, c).tokens) == SymbolTexts(st.tokens) + [c]
  {
    var t := Token(KindOf(c), [c]);
    BreakStep(st, c);
    assert Emitted(c) == [t];
    FlushedTexts(st);
    TextsSnoc(Flushed(st), t);
  }

  lemma LetterStepTexts(st: LexState, c: char)
    requires IsAlpha(c) && !IsSymbol(c)
    ensures IsNameChar(c)
    ensures VarTexts(Step(st, c).tokens) + Step(st, c).current == VarTexts(st.tokens) + st.current + [c]
    ensures SymbolTexts(Step(st, c).tokens) == SymbolTexts(st.tokens)
  {
    FlushedTexts(st);
    assert Step(st, c) == LexState(Flushed(st), [c]);
  }

  lemma DigitStepTexts(st: LexState, c: char)
    requires IsDigit(c) && !IsAlpha(c) && !IsSymbol(c)
    ensures IsNameChar(c)
    ensures VarTexts(Step(st, c).tokens) + Step(st, c).current == VarTexts(st.tokens) + st.current + [c]
    ensures SymbolTexts(Step(st, c).tokens) == SymbolTexts(st.tokens)
  {
    assert Step(st, c) == LexState(st.tokens, st.current + [c]);
    assert VarTexts(st.tokens) + (st.current + [c]) == VarTexts(st.tokens) + st.current + [c];
  }

  lemma SilentStepTexts(st: LexState, c: char)
    requires !IsSymbol(c) && !IsAlnum(c)
    ensures VarTexts(Step(st, c).tokens) + Step(st, c).current == VarTexts(st.tokens) + st.current
    ensures SymbolTexts(Step(st, c).tokens) == SymbolTexts(st.tokens)
  {
    FlushedTexts(st);
    if IsSpace(c) {
      assert Step(st, c) == LexState(Flushed(st), "");
    } else {
      assert Step(st, c) == st;
    }
  }

  lemma {:induction false} ScanTexts(s: string)
    ensures VarTexts(Scan(Init, s).tokens) + Scan(Init, s).current == Filter(s, IsNameChar)
    ensures SymbolTexts(Scan(Init, s).tokens) == Filter(s, IsSymbol)
    decreases |s|
  {
    if s != [] {
      var s', c := s[..|s| - 1], s[|s| - 1];
      assert s == s' + [c];
      ScanTexts(s');
      FilterAppend(s', c, IsNameChar);
      FilterAppend(s', c, IsSymbol);
      StepTexts(Scan(Init, s'), c);
    }
  }

  /**
   Identifier characters reach the VAR tokens, and the symbols of
   TOKEN_VALUES reach the other tokens, all of them and in input order.
   */
  lemma LexTexts(s: string)
    ensures VarTexts(Lex(s)) == Filter(s, IsNameChar)
    ensures SymbolTexts(Lex(s)) == Filter(s, IsSymbol)
  {
    ScanTexts(s);
    FlushedTexts(Scan(Init, s));
  }

  lemma {:induction false} ScanWellFormed(s: string)
    ensures forall t :: t in Scan(Init, s).tokens ==> WellFormed(t)
    ensures Scan(Init, s).current == "" || IsName(Scan(Init, s).current)
    ensures |Scan(Init, s).tokens| + (if Scan(Init, s).current == "" then 0 else 1) <= |s|
    decreases |s|
  {
    if s != [] {
      ScanWellFormed(s[..|s| - 1]);
    }
  }

  /**
   Every token is well formed: a VAR token is non-empty and carries a letter
   at most in its first position; any other token is one symbol tagged with
   its kind. There are never more tokens than characters.
   */
  lemma LexWellFormed(s: string)
    ensures forall t :: t in Lex(s) ==> WellFormed(t)
    ensures |Lex(s)| <= |s|
  {
    ScanWellFormed(s);
  }

  // ---------------------------------------------------------------------
  // Expressions and the parser (assignment_2/main.py:90-138)
  // ---------------------------------------------------------------------

  /** The tuples ('VAR', n), ('LAMBDA', x, body) and ('APP', f, a). */
  datatype Expr = Var(name: Name) | Lam(param: Name, body: Expr) | App(fn: Expr, arg: Expr)

  /** The SyntaxErrors the parser raises, one per `raise`. */
  datatype ParseError =
    | UnexpectedEnd               // the token list ran out where an expression was due
    | ExpectedRParen              // a parenthesised expression was not closed
    | ExpectedVariable            // a lambda sign not followed by a VAR
    | ExpectedDot                 // a lambda's VAR not followed by a DOT
    | UnexpectedToken(kind: Kind) // a token that cannot start an expression

  /**
   What a parse function returns together with the token list it leaves
   behind; on an error, the list as it stood when the exception was raised.
   */
  datatype Parsed = Parsed(result: Result<Expr, ParseError>, rest: seq<Token>)

  /** `parse_expr` (assignment_2/main.py:93-122). */
  function ParsedExpr(ts: seq<Token>): (p: Parsed)
    ensures IsSuffix(p.rest, ts)
    ensures p.result.Ok? ==> |p.rest| < |ts|
    decreases |ts|, 0
  {
    if ts == [] then Parsed(Err(UnexpectedEnd), [])
    else
      var tok, ts' := ts[0], ts[1..];
      if tok.kind == LPAREN then
        ParsedParenthesised(ts')
      else if tok.kind == LAMBDA then
        ParsedLambda(ts')
      else if tok.kind == VAR then
        if ts' != [] && ts'[0].kind != RPAREN then ParsedApplication(Var(tok.text), ts')
        else Parsed(Ok(Var(tok.text)), ts')
      else
        Parsed(Err(UnexpectedToken(tok.kind)), ts')
  }

  /**
   The parenthesis case of `parse_expr` (assignment_2/main.py:99-105), from
   the tokens after the LPAREN. The token after the inner expression is
   popped before it is compared with RPAREN.
   */
  function ParsedParenthesised(ts: seq<Token>): (p: Parsed)
    ensures IsSuffix(p.rest, ts)
    ensures p.result.Ok? ==> |p.rest| < |ts|
    decreases |ts|, 1
  {
    var inner := ParsedExpr(ts);
    if inner.result.Err? then inner
    else if inner.rest == [] then Parsed(Err(ExpectedRParen), [])
    else if inner.rest[0].kind != RPAREN then Parsed(Err(ExpectedRParen), inner.rest[1..])
    else Parsed(inner.result, inner.rest[1..])
  }

  /** `parse_application` (assignment_2/main.py:124-127): the argument is a whole expression. */
  function ParsedApplication(f: Expr, ts: seq<Token>): (p: Parsed)
    ensures IsSuffix(p.rest, ts)
    ensures p.result.Ok? ==> |p.rest| < |ts|
    decreases |ts|, 1
  {
    var arg := ParsedExpr(ts);
    if arg.result.Err? then arg else Parsed(Ok(App(f, arg.result.value)), arg.rest)
  }

  /** `parse_lambda_abstraction` (assignment_2/main.py:129-138). */
  function ParsedLambda(ts: seq<Token>): (p: Parsed)
    ensures IsSuffix(p.rest, ts)
    ensures p.result.Ok? ==> |p.rest| < |ts|
    decreases |ts|, 0
  {
    if ts == [] || ts[0].kind != VAR then Parsed(Err(ExpectedVariable), ts)
    else
      var name, ts1 := ts[0].text, ts[1..];
      if ts1 == [] then Parsed(Err(ExpectedDot), [])
      else if ts1[0].kind != DOT then Parsed(Err(ExpectedDot), ts1[1..])
      else
        var body := ParsedExpr(ts1[1..]);
        if body.result.Err? then body else Parsed(Ok(Lam(name, body.result.value)), body.rest)
  }

  /** The token list the parse functions share and pop from. */
  class Parser {
    var tokens: seq<Token>

    constructor (ts: seq<Token>)
      ensures tokens == ts
    {
      tokens := ts;
    }

    method ParseExpr() returns (r: Result<Expr, ParseError>)
      modifies this
      ensures Parsed(r, tokens) == ParsedExpr(old(tokens))
      decreases |tokens|, 0
    {
      if tokens == [] {
        return Err(UnexpectedEnd);
      }
      var tok := tokens[0];
      tokens := tokens[1..];
      if tok.kind == LPAREN {
        var inner := ParseExpr();
        if inner.Err? {
          return inner;
        }
        if tokens == [] {
          return Err(ExpectedRParen);
        }
        var close := tokens[0];
        tokens := tokens[1..];
        if close.kind != RPAREN {
          return Err(ExpectedRParen);
        }
        return inner;
      } else if tok.kind == LAMBDA {
        r := ParseLambdaAbstraction();
      } else if tok.kind == VAR {
        var varExpr := Var(tok.text);
        if tokens != [] && tokens[0].kind != RPAREN {
          r := ParseApplication(varExpr);
        } else {
          r := Ok(varExpr);
        }
      } else {
        r := Err(UnexpectedToken(tok.kind));
      }
    }

    method ParseApplication(f: Expr) returns (r: Result<Expr, ParseError>)
      modifies this
      ensures Parsed(r, tokens) == ParsedApplication(f, old(tokens))
      decreases |tokens|, 1
    {
      var arg := ParseExpr();
      if arg.Err? {
        return arg;
      }
      r := Ok(App(f, arg.value));
    }

    method ParseLambdaAbstraction() returns (r: Result<Expr, ParseError>)
      modifies this
      ensures Parsed(r, tokens) == ParsedLambda(old(tokens))
      decreases |tokens|, 0
    {
      if tokens == [] || tokens[0].kind != VAR {
        return Err(ExpectedVariable);
      }
      var name := tokens[0].text;
      tokens := tokens[1..];
      if tokens == [] {
        return Err(ExpectedDot);
      }
      var dot := tokens[0];
      tokens := tokens[1..];
      if dot.kind != DOT {
        return Err(ExpectedDot);
      }
      var body := ParseExpr();
      if body.Err? {
        return body;
      }
      r := Ok(Lam(name, body.value));
    }
  }

  // Lemmas about the parser

  /** An empty token list is an error, never an empty expression. */
  lemma ParseEmpty()
    ensures ParsedExpr([]) == Parsed(Err(UnexpectedEnd), [])
    ensures ParsedLambda([]) == Parsed(Err(ExpectedVariable), [])
  {
  }

  /** The VAR tokens of the given names. */
  function VarTokens(ns: seq<Name>): (ts: seq<Token>)
    ensures |ts| == |ns|
    ensures forall i :: 0 <= i < |ts| ==> ts[i] == Token(VAR, ns[i])
  {
    if ns == [] then [] else [Token(VAR, ns[0])] + VarTokens(ns[1..])
  }

  /** `a b c ...` as the parser reads it: each variable applied to the rest. */
  function RightChain(ns: seq<Name>): Expr
    requires |ns| > 0
  {
    if |ns| == 1 then Var(ns[0]) else App(Var(ns[0]), RightChain(ns[1..]))
  }

  /** Application nests to the right: `a b c` is `a (b c)`, and every VAR is consumed. */
  lemma {:induction false} ParseVariables(ns: seq<Name>)
    requires |ns| > 0
    ensures ParsedExpr(VarTokens(ns)) == Parsed(Ok(RightChain(ns)), [])
  {
    var ts := VarTokens(ns);
    assert ts[1..] == VarTokens(ns[1..]);
    if |ns| > 1 {
      ParseVariables(ns[1..]);
    }
  }

  /** A complete expression followed by more tokens: the leftovers are returned, not rejected. */
  lemma LeftoverTokensKept(a: Name, b: Name)
    ensures ParsedExpr([Token(LPAREN, "("), Token(VAR, a), Token(RPAREN, ")"), Token(VAR, b)])
         == Parsed(Ok(Var(a)), [Token(VAR, b)])
  {
    var ts := [Token(LPAREN, "("), Token(VAR, a), Token(RPAREN, ")"), Token(VAR, b)];
    var inner := ts[1..];
    assert inner[1..] == [Token(RPAREN, ")"), Token(VAR, b)];
    assert ParsedExpr(inner) == Parsed(Ok(Var(a)), inner[1..]);
    assert ParsedParenthesised(inner) == Parsed(Ok(Var(a)), [Token(VAR, b)]);
  }

  // ---------------------------------------------------------------------
  // Substitution (assignment_2/main.py:176-192)
  // ---------------------------------------------------------------------

  function FreeVars(e: Expr): set<Name>
  {
    match e
    case Var(n) => {n}
    case Lam(p, b) => FreeVars(b) - {p}
    case App(f, a) => FreeVars(f) + FreeVars(a)
  }

  /**
   `substitute(e, x, r)`: every VAR named `x` becomes `r`, except under a
   LAMBDA that rebinds `x`; no binder is renamed.
   */
  function Subst(e: Expr, x: Name, r: Expr): Expr
  {
    match e
    case Var(n) => if n == x then r else e
    case Lam(p, b) => if p != x then Lam(p, Subst(b, x, r)) else e
    case App(f, a) => App(Subst(f, x, r), Subst(a, x, r))
  }

  /** Substituting for a variable that is not free changes nothing. */
  lemma {:induction false} SubstNotFree(e: Expr, x: Name, r: Expr)
    requires x !in FreeVars(e)
    ensures Subst(e, x, r) == e
  {
    match e
    case Var(n) =>
    case Lam(p, b) =>
      if p != x {
        SubstNotFree(b, x, r);
      }
    case App(f, a) =>
      SubstNotFree(f, x, r);
      SubstNotFree(a, x, r);
  }

  /**
   Substitution keeps every other free variable, and introduces none but the
   free variables of the replacement.
   */
  lemma {:induction false} SubstFreeVars(e: Expr, x: Name, r: Expr)
    ensures FreeVars(e) - {x} <= FreeVars(Subst(e, x, r))
    ensures FreeVars(Subst(e, x, r)) <= (FreeVars(e) - {x}) + FreeVars(r)
  {
    match e
    case Var(n) =>
    case Lam(p, b) =>
      if p != x {
        SubstFreeVars(b, x, r);
      }
    case App(f, a) =>
      SubstFreeVars(f, x, r);
      SubstFreeVars(a, x, r);
  }

  /**
   No LAMBDA of `e` that has a free `x` below it binds a free variable of
   `r`: the condition under which the substitution does not capture.
   */
  predicate CaptureFree(e: Expr, x: Name, r: Expr)
  {
    match e
    case Var(_) => true
    case Lam(p, b) => p == x || ((x !in FreeVars(b) || p !in FreeVars(r)) && CaptureFree(b, x, r))
    case App(f, a) => CaptureFree(f, x, r) && CaptureFree(a, x, r)
  }

  /** Without capture, the free variables after substitution are exactly the expected ones. */
  lemma {:induction false} SubstCaptureFree(e: Expr, x: Name, r: Expr)
    requires CaptureFree(e, x, r) && x in FreeVars(e)
    ensures FreeVars(Subst(e, x, r)) == (FreeVars(e) - {x}) + FreeVars(r)
  {
    match e
    case Var(n) =>
    case Lam(p, b) =>
      SubstCaptureFree(b, x, r);
    case App(f, a) =>
      if x in FreeVars(f) {
        SubstCaptureFree(f, x, r);
      } else {
        SubstNotFree(f, x, r);
      }
      if x in FreeVars(a) {
        SubstCaptureFree(a, x, r);
      } else {
        SubstNotFree(a, x, r);
      }
  }

  /** The substitution captures: `(位y.x)[x := y]` becomes `位y.y`. */
  lemma SubstCaptures()
    ensures !CaptureFree(Lam("y", Var("x")), "x", Var("y"))
    ensures Subst(Lam("y", Var("x")), "x", Var("y")) == Lam("y", Var("y"))
    ensures FreeVars(Subst(Lam("y", Var("x")), "x", Var("y"))) == {}
  {
  }

  // ---------------------------------------------------------------------
  // Alpha conversion (assignment_2/main.py:140-154)
  // ---------------------------------------------------------------------

  /** The new name a binder gets: the old one with a prime appended. */
  function Primed(n: Name): Name
  {
    n + "'"
  }

  /**
   `alpha_conversion(e, m)` as a value: the renamed expression and the
   renaming map as the in-place updates leave it. A VAR is looked up in the
   map as it stands when the walk reaches it; the map is never restored on
   leaving a LAMBDA.
   */
  function Alpha(e: Expr, m: map<Name, Name>): (Expr, map<Name, Name>)
  {
    match e
    case Var(n) => (Var(if n in m then m[n] else n), m)
    case Lam(p, b) =>
      var (b', m') := Alpha(b, m[p := Primed(p)]);
      (Lam(Primed(p), b'), m')
    case App(f, a) =>
      var (f', m1) := Alpha(f, m);
      var (a', m2) := Alpha(a, m1);
      (App(f', a'), m2)
  }

  /** The caller's `var_map`, which `alpha_conversion` writes into. */
  class Renamer {
    var varMap: map<Name, Name>

    constructor (m: map<Name, Name>)
      ensures varMap == m
    {
      varMap := m;
    }

    method AlphaConversion(e: Expr) returns (r: Expr)
      modifies this
      ensures (r, varMap) == Alpha(e, old(varMap))
      decreases e
    {
      match e
      case Var(n) =>
        r := Var(if n in varMap then varMap[n] else n);
      case Lam(p, b) =>
        var newVar := Primed(p);
        varMap := varMap[p := newVar];
        var b' := AlphaConversion(b);
        r := Lam(newVar, b');
      case App(f, a) =>
        var f' := AlphaConversion(f);
        var a' := AlphaConversion(a);
        r := App(f', a');
    }
  }

  function Binders(e: Expr): set<Name>
  {
    match e
    case Var(_) => {}
    case Lam(p, b) => {p} + Binders(b)
    case App(f, a) => Binders(f) + Binders(a)
  }

  /** `e'` has the shape of `e`, with every binder primed. */
  predicate PrimedBinders(e: Expr, e': Expr)
  {
    match e
    case Var(_) => e'.Var?
    case Lam(p, b) => e'.Lam? && e'.param == Primed(p) && PrimedBinders(b, e'.body)
    case App(f, a) => e'.App? && PrimedBinders(f, e'.fn) && PrimedBinders(a, e'.arg)
  }

  /** Alpha conversion keeps the tree shape and primes every binder. */
  lemma {:induction false} AlphaShape(e: Expr, m: map<Name, Name>)
    ensures PrimedBinders(e, Alpha(e, m).0)
  {
    match e
    case Var(_) =>
    case Lam(p, b) =>
      AlphaShape(b, m[p := Primed(p)]);
    case App(f, a) =>
      AlphaShape(f, m);
      AlphaShape(a, Alpha(f, m).1);
  }

  function PrimedMap(s: set<Name>): map<Name, Name>
  {
    map p | p in s :: Primed(p)
  }

  lemma PrimedMapUnion(m: map<Name, Name>, s: set<Name>, t: set<Name>)
    ensures m + PrimedMap(s) + PrimedMap(t) == m + PrimedMap(s + t)
  {
    var l, r := m + PrimedMap(s) + PrimedMap(t), m + PrimedMap(s + t);
    assert l.Keys == r.Keys;
    forall k | k in l.Keys
      ensures l[k] == r[k]
    {
    }
  }

  lemma PrimedMapInsert(m: map<Name, Name>, p: Name, s: set<Name>)
    ensures m[p := Primed(p)] + PrimedMap(s) == m + PrimedMap({p} + s)
  {
    var l, r := m[p := Primed(p)] + PrimedMap(s), m + PrimedMap({p} + s);
    assert l.Keys == r.Keys;
    forall k | k in l.Keys
      ensures l[k] == r[k]
    {
    }
  }

  /** Afterwards the caller's map sends every binder of `e` to its primed name and is otherwise unchanged. */
  lemma {:induction false} AlphaMap(e: Expr, m: map<Name, Name>)
    ensures Alpha(e, m).1 == m + PrimedMap(Binders(e))
  {
    match e
    case Var(_) =>
      assert PrimedMap({}) == map[];
      assert m + map[] == m;
    case Lam(p, b) =>
      AlphaMap(b, m[p := Primed(p)]);
      PrimedMapInsert(m, p, Binders(b));
    case App(f, a) =>
      AlphaMap(f, m);
      AlphaMap(a, Alpha(f, m).1);
      PrimedMapUnion(m, Binders(f), Binders(a));
  }

  /**
   Because the map is shared and never restored, a VAR is renamed according
   to the binders visited before it, not the ones in scope: in `x (位x.x)` the
   first `x` keeps its name, while in `(位x.x) x` the free `x` is renamed too.
   */
  lemma AlphaFollowsVisitOrder()
    ensures Alpha(App(Var("x"), Lam("x", Var("x"))), map[]).0 == App(Var("x"), Lam("x'", Var("x'")))
    ensures Alpha(App(Lam("x", Var("x")), Var("x")), map[]).0 == App(Lam("x'", Var("x'")), Var("x'"))
  {
    var m1 := map["x" := "x'"];
    assert Primed("x") == "x'";
    assert Alpha(Lam("x", Var("x")), map[]) == (Lam("x'", Var("x'")), m1);
    assert Alpha(Var("x"), m1) == (Var("x'"), m1);
  }

  // ---------------------------------------------------------------------
  // Beta reduction (assignment_2/main.py:156-174)
  // ---------------------------------------------------------------------

  /**
   One pass of `beta_reduction`: an APP whose left side is a LAMBDA is
   contracted; anything else is rebuilt with its parts reduced.
   */
  function Beta(e: Expr): Expr
  {
    match e
    case App(f, a) => if f.Lam? then Subst(f.body, f.param, a) else App(Beta(f), Beta(a))
    case Lam(p, b) => Lam(p, Beta(b))
    case Var(_) => e
  }

  /** `e` contains an APP whose left side is a LAMBDA. */
  predicate HasRedex(e: Expr)
  {
    match e
    case Var(_) => false
    case Lam(_, b) => HasRedex(b)
    case App(f, a) => f.Lam? || HasRedex(f) || HasRedex(a)
  }

  /** A term without a redex is a fixpoint of one pass. */
  lemma {:induction false} BetaNormalForm(e: Expr)
    requires !HasRedex(e)
    ensures Beta(e) == e
  {
    match e
    case Var(_) =>
    case Lam(_, b) =>
      BetaNormalForm(b);
    case App(f, a) =>
      BetaNormalForm(f);
      BetaNormalForm(a);
  }

  /** A pass of beta reduction never introduces a free variable. */
  lemma {:induction false} BetaFreeVars(e: Expr)
    ensures FreeVars(Beta(e)) <= FreeVars(e)
  {
    match e
    case Var(_) =>
    case Lam(_, b) =>
      BetaFreeVars(b);
    case App(f, a) =>
      if f.Lam? {
        SubstFreeVars(f.body, f.param, a);
      } else {
        BetaFreeVars(f);
        BetaFreeVars(a);
      }
  }

  /** `(位x.(x x)) (位x.(x x))` */
  const Omega: Expr := App(Lam("x", App(Var("x"), Var("x"))), Lam("x", App(Var("x"), Var("x"))))

  /** A fixpoint of one pass need not be free of redexes: Omega reduces to itself. */
  lemma BetaOmega()
    ensures HasRedex(Omega) && Beta(Omega) == Omega
  {
  }

  // ---------------------------------------------------------------------
  // The normalisation loop of `main` (assignment_2/main.py:219-224)
  // ---------------------------------------------------------------------

  const Limit: nat := 1000

  /** `e` after `n` passes of beta reduction. */
  function BetaIter(e: Expr, n: nat): Expr
  {
    if n == 0 then e else Beta(BetaIter(e, n - 1))
  }

  /** The expression the loop ends with, given `budget` passes. */
  function Normalised(e: Expr, budget: nat): Expr
    decreases budget
  {
    if budget == 0 then e
    else
      var r := Beta(e);
      if r == e then e else Normalised(r, budget - 1)
  }

  /** How many passes changed the expression before the loop stopped. */
  function Steps(e: Expr, budget: nat): nat
    decreases budget
  {
    if budget == 0 then 0
    else
      var r := Beta(e);
      if r == e then 0 else 1 + Steps(r, budget - 1)
  }

  method Normalise(e: Expr) returns (r: Expr, ghost calls: nat)
    ensures r == Normalised(e, Limit)
    ensures calls <= Limit
    ensures calls == if Steps(e, Limit) < Limit then Steps(e, Limit) + 1 else Limit
  {
    r := e;
    calls := 0;
    for i := 0 to Limit
      invariant calls == i
      invariant Normalised(e, Limit) == Normalised(r, Limit - i)
      invariant Steps(e, Limit) == i + Steps(r, Limit - i)
    {
      var reduced := Beta(r);
      NormalisedStep(r, Limit - i);
      calls := calls + 1;
      if reduced == r {
        break;
      }
      r := reduced;
    }
  }

  /** One pass of the loop, for a positive budget. */
  lemma NormalisedStep(e: Expr, budget: nat)
    ensures budget > 0 ==> Normalised(e, budget) == if Beta(e) == e then e else Normalised(Beta(e), budget - 1)
    ensures budget > 0 ==> Steps(e, budget) == if Beta(e) == e then 0 else 1 + Steps(Beta(e), budget - 1)
  {
  }

  lemma {:induction false} BetaIterShift(e: Expr, j: nat)
    ensures BetaIter(e, j + 1) == BetaIter(Beta(e), j)
  {
    if j > 0 {
      BetaIterShift(e, j - 1);
    }
  }

  /**
   The loop ends on the last pass result that differed from its input: it
   stops at the first pass that changes nothing, and otherwise after
   `budget` passes.
   */
  lemma {:induction false} NormalisedIsIterate(e: Expr, budget: nat)
    ensures Steps(e, budget) <= budget
    ensures Normalised(e, budget) == BetaIter(e, Steps(e, budget))
    ensures forall j :: 0 <= j < Steps(e, budget) ==> BetaIter(e, j + 1) != BetaIter(e, j)
    ensures Steps(e, budget) < budget ==> Beta(Normalised(e, budget)) == Normalised(e, budget)
    decreases budget
  {
    if budget > 0 && Beta(e) != e {
      var r := Beta(e);
      var k := Steps(r, budget - 1);
      NormalisedIsIterate(r, budget - 1);
      BetaIterShift(e, k);
      forall j | 0 <= j < k + 1
        ensures BetaIter(e, j + 1) != BetaIter(e, j)
      {
        if j > 0 {
          BetaIterShift(e, j);
          BetaIterShift(e, j - 1);
        }
      }
    }
  }

  /** A term without a redex comes out of the loop unchanged. */
  lemma NormalFormUnchanged(e: Expr, budget: nat)
    requires !HasRedex(e)
    ensures Normalised(e, budget) == e
  {
    BetaNormalForm(e);
  }

  /** `(位x.x) y` normalises to `y`. */
  lemma NormaliseIdentityApplication()
    ensures Normalised(App(Lam("x", Var("x")), Var("y")), Limit) == Var("y")
  {
    assert Beta(App(Lam("x", Var("x")), Var("y"))) == Var("y");
    assert Normalised(Var("y"), Limit - 1) == Var("y");
  }

  /**
   The per-line pipeline, alpha conversion followed by the loop, lets the
   free `y` of `(位x.位y.x) y` be captured: the free `y` is renamed along
   with the binder visited before it, and substitution then puts it under
   that binder.
   */
  lemma AlphaThenNormaliseCaptures()
    ensures Alpha(App(Lam("x", Lam("y", Var("x"))), Var("y")), map[]).0
         == App(Lam("x'", Lam("y'", Var("x'"))), Var("y'"))
    ensures Normalised(App(Lam("x'", Lam("y'", Var("x'"))), Var("y'")), Limit) == Lam("y'", Var("y'"))
  {
    assert Primed("x") == "x'" && Primed("y") == "y'";
    var m := map["x" := "x'", "y" := "y'"];
    assert Alpha(Lam("y", Var("x")), map["x" := "x'"]) == (Lam("y'", Var("x'")), m);
    assert Alpha(Var("y"), m) == (Var("y'"), m);
    assert Beta(App(Lam("x'", Lam("y'", Var("x'"))), Var("y'"))) == Lam("y'", Var("y'"));
    assert Beta(Lam("y'", Var("y'"))) == Lam("y'", Var("y'"));
    assert Normalised(Lam("y'", Var("y'")), Limit - 1) == Lam("y'", Var("y'"));
  }

  /** Omega leaves the loop after one pass, as if it were a normal form. */
  lemma NormaliseOmega()
    ensures Normalised(Omega, Limit) == Omega
  {
    BetaOmega();
  }

  // ---------------------------------------------------------------------
  // The printer (assignment_2/main.py:194-202)
  // ---------------------------------------------------------------------

  /** `to_standard_format`: VAR as its name, LAMBDA as `(位x.body)`, APP as `(f a)`. */
  function Print(e: Expr): string
  {
    match e
    case Var(n) => n
    case Lam(p, b) => "(" + ([CjkLambda] + (p + ("." + (Print(b) + ")"))))
    case App(f, a) => "(" + (Print(f) + (" " + (Print(a) + ")")))
  }

  /** Every name in `e` is one the lexer reads back as a single VAR token. */
  predicate NamesLexable(e: Expr)
  {
    match e
    case Var(n) => IsName(n)
    case Lam(p, b) => IsName(p) && NamesLexable(b)
    case App(f, a) => NamesLexable(f) && NamesLexable(a)
  }

  /** Every APP has a VAR on its left: the only applications the parser builds. */
  predicate VarHeaded(e: Expr)
  {
    match e
    case Var(_) => true
    case Lam(_, b) => VarHeaded(b)
    case App(f, a) => f.Var? && VarHeaded(a)
  }

  /** The tokens of the printed form of `e`. */
  function ExprTokens(e: Expr): (ts: seq<Token>)
    ensures ts != [] && (ts[0].kind == VAR || ts[0].kind == LPAREN)
  {
    match e
    case Var(n) => [Token(VAR, n)]
    case Lam(p, b) =>
      [Token(LPAREN, "(")] + ([Token(LAMBDA, [CjkLambda])] + ([Token(VAR, p)] + ([Token(DOT, ".")] + (ExprTokens(b) + [Token(RPAREN, ")")]))))
    case App(f, a) => [Token(LPAREN, "(")] + (ExprTokens(f) + (ExprTokens(a) + [Token(RPAREN, ")")]))
  }

  lemma LexCons(c: char, b: string)
    requires IsBreak(c)
    ensures Lex([c] + b) == Emitted(c) + Lex(b)
  {
    assert [] + [c] + b == [c] + b;
    LexBreak([], c, b);
  }

  lemma LexBreakRight(a: string, c: char, b: string)
    requires IsBreak(c)
    ensures Lex(a + ([c] + b)) == Lex(a) + (Emitted(c) + Lex(b))
  {
    assert a + [c] + b == a + ([c] + b);
    LexBreak(a, c, b);
  }

  lemma LexBreakEnd(a: string, c: char)
    requires IsBreak(c)
    ensures Lex(a + [c]) == Lex(a) + Emitted(c)
  {
    assert a + [c] + [] == a + [c];
    LexBreak(a, c, []);
  }

  // The breaks the printer writes, one lemma each.

  lemma LexOpen(b: string)
    ensures Lex("(" + b) == [Token(LPAREN, "(")] + Lex(b)
  {
    LexCons('(', b);
  }

  lemma LexLambda(b: string)
    ensures Lex([CjkLambda] + b) == [Token(LAMBDA, [CjkLambda])] + Lex(b)
  {
    LexCons(CjkLambda, b);
  }

  lemma LexDot(a: string, b: string)
    ensures Lex(a + ("." + b)) == Lex(a) + ([Token(DOT, ".")] + Lex(b))
  {
    LexBreakRight(a, '.', b);
  }

  lemma LexSpace(a: string, b: string)
    ensures Lex(a + (" " + b)) == Lex(a) + Lex(b)
  {
    LexBreakRight(a, ' ', b);
  }

  lemma LexClose(a: string)
    ensures Lex(a + ")") == Lex(a) + [Token(RPAREN, ")")]
  {
    LexBreakEnd(a, ')');
  }

  lemma LexPrintLam(p: Name, b: Expr)
    requires IsName(p) && Lex(Print(b)) == ExprTokens(b)
    ensures Lex(Print(Lam(p, b))) == ExprTokens(Lam(p, b))
  {
    var r3 := Print(b) + ")";
    var r2 := p + ("." + r3);
    var r1 := [CjkLambda] + r2;
    LexClose(Print(b));
    LexName(p);
    LexDot(p, r3);
    LexLambda(r2);
    LexOpen(r1);
  }

  lemma LexPrintApp(f: Expr, a: Expr)
    requires Lex(Print(f)) == ExprTokens(f) && Lex(Print(a)) == ExprTokens(a)
    ensures Lex(Print(App(f, a))) == ExprTokens(App(f, a))
  {
    var r2 := Print(a) + ")";
    var r1 := Print(f) + (" " + r2);
    LexClose(Print(a));
    LexSpace(Print(f), r2);
    LexOpen(r1);
  }

  /** The printed form lexes to the expected tokens. */
  lemma {:induction false} LexPrint(e: Expr)
    requires NamesLexable(e)
    ensures Lex(Print(e)) == ExprTokens(e)
  {
    match e
    case Var(n) =>
      LexName(n);
    case Lam(p, b) =>
      LexPrint(b);
      LexPrintLam(p, b);
    case App(f, a) =>
      LexPrint(f);
      LexPrint(a);
      LexPrintApp(f, a);
  }

  const Close := [Token(RPAREN, ")")]

  lemma ParenStep(e: Expr, ts: seq<Token>, rest: seq<Token>)
    requires ParsedExpr(ts) == Parsed(Ok(e), Close + rest)
    ensures ParsedExpr([Token(LPAREN, "(")] + ts) == Parsed(Ok(e), rest)
  {
    assert ([Token(LPAREN, "(")] + ts)[1..] == ts;
    assert (Close + rest)[1..] == rest;
  }

  lemma LambdaStep(p: Name, b: Expr, ts: seq<Token>, rest: seq<Token>)
    requires ParsedExpr(ts) == Parsed(Ok(b), rest)
    ensures ParsedExpr([Token(LAMBDA, [CjkLambda]), Token(VAR, p), Token(DOT, ".")] + ts) == Parsed(Ok(Lam(p, b)), rest)
  {
    var ts' := [Token(LAMBDA, [CjkLambda]), Token(VAR, p), Token(DOT, ".")] + ts;
    assert ts'[1..] == [Token(VAR, p), Token(DOT, ".")] + ts;
    LambdaBodyStep(p, b, ts, rest);
  }

  lemma LambdaBodyStep(p: Name, b: Expr, ts: seq<Token>, rest: seq<Token>)
    requires ParsedExpr(ts) == Parsed(Ok(b), rest)
    ensures ParsedLambda([Token(VAR, p), Token(DOT, ".")] + ts) == Parsed(Ok(Lam(p, b)), rest)
  {
    var ts1 := [Token(VAR, p), Token(DOT, ".")] + ts;
    assert ts1[1..] == [Token(DOT, ".")] + ts;
    assert ts1[1..][1..] == ts;
  }

  lemma ApplicationStep(f: Name, a: Expr, ts: seq<Token>, rest: seq<Token>)
    requires ts != [] && ts[0].kind != RPAREN
    requires ParsedExpr(ts) == Parsed(Ok(a), rest)
    ensures ParsedExpr([Token(VAR, f)] + ts) == Parsed(Ok(App(Var(f), a)), rest)
  {
    assert ([Token(VAR, f)] + ts)[1..] == ts;
  }

  lemma LamTokensShape(p: Name, b: Expr, rest: seq<Token>)
    ensures ExprTokens(Lam(p, b)) + rest
         == [Token(LPAREN, "(")] + ([Token(LAMBDA, [CjkLambda]), Token(VAR, p), Token(DOT, ".")] + (ExprTokens(b) + (Close + rest)))
  {
  }

  lemma AppTokensShape(f: Name, a: Expr, rest: seq<Token>)
    ensures ExprTokens(App(Var(f), a)) + rest == [Token(LPAREN, "(")] + ([Token(VAR, f)] + (ExprTokens(a) + (Close + rest)))
  {
    assert ExprTokens(Var(f)) == [Token(VAR, f)];
  }

  lemma ParseLamTokens(p: Name, b: Expr, rest: seq<Token>)
    requires ParsedExpr(ExprTokens(b) + (Close + rest)) == Parsed(Ok(b), Close + rest)
    ensures ParsedExpr(ExprTokens(Lam(p, b)) + rest) == Parsed(Ok(Lam(p, b)), rest)
  {
    var head := [Token(LAMBDA, [CjkLambda]), Token(VAR, p), Token(DOT, ".")];
    var inner := ExprTokens(b) + (Close + rest);
    LamTokensShape(p, b, rest);
    LambdaStep(p, b, inner, Close + rest);
    ParenStep(Lam(p, b), head + inner, rest);
  }

  lemma ParseAppTokens(f: Name, a: Expr, rest: seq<Token>)
    requires ParsedExpr(ExprTokens(a) + (Close + rest)) == Parsed(Ok(a), Close + rest)
    ensures ParsedExpr(ExprTokens(App(Var(f), a)) + rest) == Parsed(Ok(App(Var(f), a)), rest)
  {
    var inner := ExprTokens(a) + (Close + rest);
    AppTokensShape(f, a, rest);
    ApplicationStep(f, a, inner, Close + rest);
    ParenStep(App(Var(f), a), [Token(VAR, f)] + inner, rest);
  }

  /**
   The parser reads the tokens of a VAR-headed expression back; only a bare
   variable needs a closing parenthesis or the end after it, since any
   other token would make it the left side of an application.
   */
  lemma {:induction false} ParseExprTokens(e: Expr, rest: seq<Token>)
    requires VarHeaded(e)
    requires e.Var? ==> rest == [] || rest[0].kind == RPAREN
    ensures ParsedExpr(ExprTokens(e) + rest) == Parsed(Ok(e), rest)
  {
    match e
    case Var(n) =>
      assert (ExprTokens(e) + rest)[1..] == rest;
    case Lam(p, b) =>
      ParseExprTokens(b, Close + rest);
      ParseLamTokens(p, b, rest);
    case App(f, a) =>
      ParseExprTokens(a, Close + rest);
      ParseAppTokens(f.name, a, rest);
  }

  /** Printing, lexing and parsing gives back every VAR-headed expression with lexable names. */
  lemma PrintRoundTrip(e: Expr)
    requires NamesLexable(e) && VarHeaded(e)
    ensures ParsedExpr(Lex(Print(e))) == Parsed(Ok(e), [])
  {
    LexPrint(e);
    ParseExprTokens(e, []);
    assert ExprTokens(e) + [] == ExprTokens(e);
  }

  /** Every token of the list is one the lexer can emit. */
  predicate AllWellFormed(ts: seq<Token>)
  {
    forall t | t in ts :: WellFormed(t)
  }

  lemma TailWellFormed(ts: seq<Token>)
    ensures ts != [] && AllWellFormed(ts) ==> AllWellFormed(ts[1..])
  {
    if ts != [] && AllWellFormed(ts) {
      forall t | t in ts[1..] ensures WellFormed(t) {
        assert t in ts;
      }
    }
  }

  /**
   Whatever `parse_expr` builds is VAR-headed, and its names are lexable
   when the tokens are ones the lexer emits: the parser never leaves the
   domain of `PrintRoundTrip`.
   */
  lemma {:induction false} ParsedExprInDomain(ts: seq<Token>)
    ensures ParsedExpr(ts).result.Ok? ==> VarHeaded(ParsedExpr(ts).result.value)
    ensures ParsedExpr(ts).result.Ok? && AllWellFormed(ts) ==> NamesLexable(ParsedExpr(ts).result.value)
    decreases |ts|, 0
  {
    if ts != [] {
      var tok, ts' := ts[0], ts[1..];
      TailWellFormed(ts);
      assert tok in ts;
      if tok.kind == LPAREN {
        ParsedParenthesisedInDomain(ts');
      } else if tok.kind == LAMBDA {
        ParsedLambdaInDomain(ts');
      } else if tok.kind == VAR && ts' != [] && ts'[0].kind != RPAREN {
        ParsedApplicationInDomain(Var(tok.text), ts');
      }
    }
  }

  lemma {:induction false} ParsedParenthesisedInDomain(ts: seq<Token>)
    ensures ParsedParenthesised(ts).result.Ok? ==> VarHeaded(ParsedParenthesised(ts).result.value)
    ensures ParsedParenthesised(ts).result.Ok? && AllWellFormed(ts) ==> NamesLexable(ParsedParenthesised(ts).result.value)
    decreases |ts|, 1
  {
    ParsedExprInDomain(ts);
  }

  lemma {:induction false} ParsedApplicationInDomain(f: Expr, ts: seq<Token>)
    ensures f.Var? && ParsedApplication(f, ts).result.Ok? ==> VarHeaded(ParsedApplication(f, ts).result.value)
    ensures NamesLexable(f) && ParsedApplication(f, ts).result.Ok? && AllWellFormed(ts) ==> NamesLexable(ParsedApplication(f, ts).result.value)
    decreases |ts|, 1
  {
    ParsedExprInDomain(ts);
  }

  lemma {:induction false} ParsedLambdaInDomain(ts: seq<Token>)
    ensures ParsedLambda(ts).result.Ok? ==> VarHeaded(ParsedLambda(ts).result.value)
    ensures ParsedLambda(ts).result.Ok? && AllWellFormed(ts) ==> NamesLexable(ParsedLambda(ts).result.value)
    decreases |ts|, 1
  {
    if ts != [] && ts[0].kind == VAR && |ts| > 1 && ts[1].kind == DOT {
      assert ts[0] in ts;
      TailWellFormed(ts);
      TailWellFormed(ts[1..]);
      assert ts[1..][1..] == ts[2..];
      ParsedExprInDomain(ts[2..]);
    }
  }

  /**
   Any text that parses prints to a text that parses back to the same
   expression: the round trip of `PrintRoundTrip` covers every parse.
   */
  lemma ParsedTextReprints(s: string)
    ensures ParsedExpr(Lex(s)).result.Ok? ==>
              var e := ParsedExpr(Lex(s)).result.value;
              ParsedExpr(Lex(Print(e))) == Parsed(Ok(e), [])
  {
    var p := ParsedExpr(Lex(s));
    LexWellFormed(s);
    ParsedExprInDomain(Lex(s));
    if p.result.Ok? {
      PrintRoundTrip(p.result.value);
    }
  }

  /** A printed redex does not parse back: `((位x.x) y)` fails for want of a `)`. */
  lemma PrintedRedexRejected()
    ensures ParsedExpr(Lex(Print(App(Lam("x", Var("x")), Var("y"))))).result == Err(ExpectedRParen)
  {
    var e := App(Lam("x", Var("x")), Var("y"));
    LexPrint(e);
    var ts := ExprTokens(e);
    ParseExprTokens(Lam("x", Var("x")), [Token(VAR, "y"), Token(RPAREN, ")")]);
    assert ts[1..] == ExprTokens(Lam("x", Var("x"))) + [Token(VAR, "y"), Token(RPAREN, ")")];
  }
}
